// The cross-core pend relay (firmware/src/main.rs:56-112): two interrupt
// handlers on core 1, the doorbell handler on core 0, one shared word. Every
// atomic operation and register write is one step, and the handlers' steps
// interleave freely.
module Relay {

  // Which interrupt executor a wake is for.
  datatype Tier = High | Sup

  // An AtomicU32's value.
  datatype Word = Word(bits: bv32)

  const RELAY_HIGH: bv32 := 1
  const RELAY_SUP: bv32 := 2
  const ZERO: Word := Word(0)

  predicate Has(word: Word, t: Tier) {
    match t
    case High => word.bits & RELAY_HIGH != 0
    case Sup => word.bits & RELAY_SUP != 0
  }

  function WithBit(word: Word, t: Tier): Word {
    match t
    case High => Word(word.bits | RELAY_HIGH)
    case Sup => Word(word.bits | RELAY_SUP)
  }

  lemma OrHigh(b: bv32)
    ensures (b | RELAY_HIGH) & RELAY_HIGH != 0
    ensures (b | RELAY_HIGH) & RELAY_SUP == b & RELAY_SUP
  {
  }

  lemma OrSup(b: bv32)
    ensures (b | RELAY_SUP) & RELAY_SUP != 0
    ensures (b | RELAY_SUP) & RELAY_HIGH == b & RELAY_HIGH
  {
  }

  // `fetch_or` of one tier's bit sets that bit and no other.
  lemma OrSetsOneBit(word: Word, t: Tier, u: Tier)
    ensures Has(WithBit(word, t), u) <==> Has(word, u) || t == u
  {
    match t
    case High => OrHigh(word.bits);
    case Sup => OrSup(word.bits);
  }

  lemma ZeroIsEmpty(t: Tier)
    ensures !Has(ZERO, t)
  {
  }

  // SIO_IRQ_BELL's position: entered, doorbell cleared, bits swapped out, or
  // past its first test.
  datatype Bell = Away | Entered | Cleared | Swapped(bits: Word) | TestedHigh(bits: Word)

  datatype State = State(
    relay: Word,
    doorbell: bool,
    // core 1: the handler of that tier has set its bit and not yet rung
    ringHigh: bool, ringSup: bool,
    bell: Bell,
    // core 0's pend bits of SWI_IRQ_0 and SWI_IRQ_1
    pendHigh: bool, pendSup: bool)

  datatype Action =
    | FetchOr(tier: Tier)     // relay_to_core0, first statement
    | Ring(tier: Tier)        // relay_to_core0, second statement
    | BellStep
    | LocalPend(tier: Tier)   // a wake issued on core 0 itself
    | Serve(tier: Tier)       // core 0 takes the SWI: the executor polls

  predicate Ringing(s: State, t: Tier) { if t.High? then s.ringHigh else s.ringSup }

  function SetRinging(s: State, t: Tier, on: bool): State {
    if t.High? then s.(ringHigh := on) else s.(ringSup := on)
  }

  predicate Pended(s: State, t: Tier) { if t.High? then s.pendHigh else s.pendSup }

  function SetPended(s: State, t: Tier, on: bool): State {
    if t.High? then s.(pendHigh := on) else s.(pendSup := on)
  }

  predicate Enabled(s: State, a: Action) {
    match a
    case FetchOr(t) => !Ringing(s, t)
    case Ring(t) => Ringing(s, t)
    case BellStep => s.bell.Away? ==> s.doorbell
    case LocalPend(_) => true
    case Serve(t) => Pended(s, t)
  }

  function Step(s: State, a: Action): State
    requires Enabled(s, a)
  {
    match a
    case FetchOr(t) => SetRinging(s.(relay := WithBit(s.relay, t)), t, true)
    case Ring(t) => SetRinging(s.(doorbell := true), t, false)
    case BellStep =>
      (match s.bell
       case Away => s.(bell := Entered)
       case Entered => s.(bell := Cleared, doorbell := false)
       case Cleared => s.(bell := Swapped(s.relay), relay := ZERO)
       case Swapped(bits) =>
         var p := s.(bell := TestedHigh(bits));
         if Has(bits, High) then SetPended(p, High, true) else p
       case TestedHigh(bits) =>
         var p := s.(bell := Away);
         if Has(bits, Sup) then SetPended(p, Sup, true) else p)
    case LocalPend(t) => SetPended(s, t, true)
    case Serve(t) => SetPended(s, t, false)
  }

  const INIT: State := State(ZERO, false, false, false, Away, false, false)

  ghost predicate Run(trace: seq<State>, acts: seq<Action>) {
    && |trace| == |acts| + 1
    && trace[0] == INIT
    && (forall k :: 0 <= k < |acts| ==> Follows(trace[k], acts[k], trace[k + 1]))
  }

  predicate Follows(s: State, a: Action, t: State) {
    Enabled(s, a) && Step(s, a) == t
  }

  // Nothing in flight: no handler running, the doorbell clear.
  predicate Quiet(s: State) {
    !s.ringHigh && !s.ringSup && s.bell.Away? && !s.doorbell
  }

  // Does this step of the doorbell handler pend the tier's interrupt?
  predicate Pends(s: State, a: Action, t: Tier) {
    a.BellStep? &&
    match t
    case High => s.bell.Swapped? && Has(s.bell.bits, High)
    case Sup => s.bell.TestedHigh? && Has(s.bell.bits, Sup)
  }

  // Where a wake can be while it is under way.
  predicate InFlight(s: State, t: Tier) {
    || (Has(s.relay, t) && (Ringing(s, t) || s.doorbell || s.bell.Entered? || s.bell.Cleared?))
    || (s.bell.Swapped? && Has(s.bell.bits, t))
    || (t.Sup? && s.bell.TestedHigh? && Has(s.bell.bits, t))
  }

  lemma OrPutsInFlight(s: State, t: Tier)
    requires Enabled(s, FetchOr(t))
    ensures InFlight(Step(s, FetchOr(t)), t)
  {
    hide Has, WithBit;
    OrSetsOneBit(s.relay, t, t);
  }

  // A wake in flight stays in flight until the step that pends it.
  lemma StaysInFlight(s: State, a: Action, t: Tier)
    requires Enabled(s, a) && InFlight(s, t)
    ensures InFlight(Step(s, a), t) || (Pends(s, a, t) && Pended(Step(s, a), t))
  {
    hide Has, WithBit;
    if a.FetchOr? {
      OrSetsOneBit(s.relay, a.tier, t);
    }
  }

  // Did the doorbell handler pend tier t between states n and k?
  ghost predicate PendedBetween(trace: seq<State>, acts: seq<Action>, t: Tier, n: nat, k: nat)
    requires Run(trace, acts) && k < |trace|
  {
    exists m :: n <= m < k && Pends(trace[m], acts[m], t)
  }

  lemma {:induction false} InFlightOrPended(trace: seq<State>, acts: seq<Action>, t: Tier, n: nat, k: nat)
    requires Run(trace, acts) && n < k < |trace| && acts[n] == FetchOr(t)
    ensures InFlight(trace[k], t) || PendedBetween(trace, acts, t, n + 1, k)
    decreases k
  {
    hide Has, WithBit;
    assert Follows(trace[k - 1], acts[k - 1], trace[k - 1 + 1]);
    if k == n + 1 {
      OrPutsInFlight(trace[n], t);
    } else {
      InFlightOrPended(trace, acts, t, n, k - 1);
      if PendedBetween(trace, acts, t, n + 1, k - 1) {
        var m :| n + 1 <= m < k - 1 && Pends(trace[m], acts[m], t);
      } else {
        StaysInFlight(trace[k - 1], acts[k - 1], t);
      }
    }
  }

  // Where a completed relay is: in RELAY with the doorbell set or about to be
  // swapped, in the handler's swapped-out bits, or pended since.
  lemma CompletedRelay(trace: seq<State>, acts: seq<Action>, t: Tier, n: nat, k: nat)
    requires Run(trace, acts) && n < k < |trace| && acts[n] == FetchOr(t) && !Ringing(trace[k], t)
    ensures var s := trace[k];
            || (Has(s.relay, t) && (s.doorbell || s.bell.Entered? || s.bell.Cleared?))
            || (s.bell.Swapped? && Has(s.bell.bits, t))
            || (t.Sup? && s.bell.TestedHigh? && Has(s.bell.bits, t))
            || PendedBetween(trace, acts, t, n + 1, k)
  {
    InFlightOrPended(trace, acts, t, n, k);
  }

  // No wake relayed from core 1 is lost: once all is quiet, every relayed bit
  // has been pended on core 0 since it was set.
  lemma NoWakeLost(trace: seq<State>, acts: seq<Action>, t: Tier, n: nat, k: nat)
    requires Run(trace, acts) && n < k < |trace| && acts[n] == FetchOr(t) && Quiet(trace[k])
    ensures PendedBetween(trace, acts, t, n + 1, k)
  {
    InFlightOrPended(trace, acts, t, n, k);
  }

  lemma {:induction false} PendedUntilServed(trace: seq<State>, acts: seq<Action>, t: Tier, m: nat, k: nat)
    requires Run(trace, acts) && m < k < |trace| && Pends(trace[m], acts[m], t)
    ensures Pended(trace[k], t) || Serve(t) in acts[m + 1..k]
    decreases k
  {
    hide Has, WithBit;
    assert Follows(trace[k - 1], acts[k - 1], trace[k - 1 + 1]);
    if k > m + 1 {
      PendedUntilServed(trace, acts, t, m, k - 1);
      assert acts[m + 1..k] == acts[m + 1..k - 1] + [acts[k - 1]];
    }
  }

  // End to end: quiet, with nothing pended, means the executor has polled
  // after the wake.
  lemma WakeReachesExecutor(trace: seq<State>, acts: seq<Action>, t: Tier, n: nat, k: nat)
    requires Run(trace, acts) && n < k < |trace| && acts[n] == FetchOr(t)
    requires Quiet(trace[k]) && !Pended(trace[k], t)
    ensures exists q :: n < q < k && acts[q] == Serve(t)
  {
    NoWakeLost(trace, acts, t, n, k);
    var m :| n + 1 <= m < k && Pends(trace[m], acts[m], t);
    PendedUntilServed(trace, acts, t, m, k);
    var j :| 0 <= j < |acts[m + 1..k]| && acts[m + 1..k][j] == Serve(t);
    assert acts[m + 1 + j] == Serve(t);
  }

  // The handler pends nothing on its own: a tier's bit is in the word or in
  // the handler's copy only after a relay of that tier.
  ghost predicate Relayed(acts: seq<Action>, t: Tier, k: nat) {
    exists n :: 0 <= n < k && n < |acts| && acts[n] == FetchOr(t)
  }

  predicate Carries(s: State, t: Tier) {
    Has(s.relay, t) || ((s.bell.Swapped? || s.bell.TestedHigh?) && Has(s.bell.bits, t))
  }

  lemma {:induction false} NoSpuriousPend(trace: seq<State>, acts: seq<Action>, t: Tier, k: nat)
    requires Run(trace, acts) && k < |trace|
    ensures Carries(trace[k], t) ==> Relayed(acts, t, k)
  {
    if k == 0 {
      ZeroIsEmpty(t);
    } else {
      assert Follows(trace[k - 1], acts[k - 1], trace[k - 1 + 1]);
      NoSpuriousPend(trace, acts, t, k - 1);
      if Carries(trace[k], t) {
        CarriesFrom(trace[k - 1], acts[k - 1], t);
      }
    }
  }

  lemma CarriesFrom(s: State, a: Action, t: Tier)
    requires Enabled(s, a) && Carries(Step(s, a), t)
    ensures Carries(s, t) || a == FetchOr(t)
  {
    ZeroIsEmpty(t);
    hide Has, WithBit;
    if a.FetchOr? {
      OrSetsOneBit(s.relay, a.tier, t);
    }
  }

  // -------------------------------------------------------------- pend bits

  // Tier t's interrupt is pended, by the handler or by a wake on core 0.
  predicate IsPend(s: State, a: Action, t: Tier) { Pends(s, a, t) || a == LocalPend(t) }

  ghost predicate PendStands(trace: seq<State>, acts: seq<Action>, t: Tier, m: nat, k: nat)
    requires |trace| == |acts| + 1
  {
    m < k <= |acts| && IsPend(trace[m], acts[m], t) && forall q :: m < q < k ==> acts[q] != Serve(t)
  }

  lemma PendedStep(s: State, a: Action, t: Tier)
    requires Enabled(s, a)
    ensures Pended(Step(s, a), t) <==> IsPend(s, a, t) || (Pended(s, t) && a != Serve(t))
  {
    hide Has, WithBit;
  }

  // A tier's interrupt is pended exactly when something pended it that has not
  // been served since.
  lemma {:induction false} PendedExactly(trace: seq<State>, acts: seq<Action>, t: Tier, k: nat)
    requires Run(trace, acts) && k < |trace|
    ensures Pended(trace[k], t) <==> exists m: nat :: PendStands(trace, acts, t, m, k)
    decreases k
  {
    if k > 0 {
      PendedBefore(trace, acts, t, k);
      PendedExactly(trace, acts, t, k - 1);
      assert IsPend(trace[k - 1], acts[k - 1], t) ==> PendStands(trace, acts, t, k - 1, k);
      hide IsPend, Run, Pended;
      if Pended(trace[k - 1], t) && acts[k - 1] != Serve(t) {
        var m: nat :| PendStands(trace, acts, t, m, k - 1);
        assert PendStands(trace, acts, t, m, k);
      }
      if exists m: nat :: PendStands(trace, acts, t, m, k) {
        var m: nat :| PendStands(trace, acts, t, m, k);
        assert m < k - 1 ==> PendStands(trace, acts, t, m, k - 1);
      }
    }
  }

  lemma PendedBefore(trace: seq<State>, acts: seq<Action>, t: Tier, k: nat)
    requires Run(trace, acts) && 0 < k < |trace|
    ensures Pended(trace[k], t)
            <==> IsPend(trace[k - 1], acts[k - 1], t) || (Pended(trace[k - 1], t) && acts[k - 1] != Serve(t))
  {
    assert Follows(trace[k - 1], acts[k - 1], trace[k - 1 + 1]);
    PendedStep(trace[k - 1], acts[k - 1], t);
  }

  // So nothing pends a tier that was neither relayed nor woken on core 0.
  lemma PendedHasCause(trace: seq<State>, acts: seq<Action>, t: Tier, k: nat)
    requires Run(trace, acts) && k < |trace| && Pended(trace[k], t)
    ensures exists m :: 0 <= m < k && (acts[m] == FetchOr(t) || acts[m] == LocalPend(t))
  {
    PendedExactly(trace, acts, t, k);
    var m: nat :| PendStands(trace, acts, t, m, k);
    NoSpuriousPend(trace, acts, t, m);
    hide Has, WithBit;
  }

  // How often a tier was relayed, and how often the handler pended it.
  function Relays(acts: seq<Action>, t: Tier, k: nat): nat
    requires k <= |acts|
  {
    if k == 0 then 0 else Relays(acts, t, k - 1) + if acts[k - 1] == FetchOr(t) then 1 else 0
  }

  function Rings(acts: seq<Action>, t: Tier, k: nat): nat
    requires k <= |acts|
  {
    if k == 0 then 0 else Rings(acts, t, k - 1) + if acts[k - 1] == Ring(t) then 1 else 0
  }

  ghost function Deliveries(trace: seq<State>, acts: seq<Action>, t: Tier, k: nat): nat
    requires |trace| == |acts| + 1 && k <= |acts|
  {
    if k == 0 then 0 else Deliveries(trace, acts, t, k - 1) + if Pends(trace[k - 1], acts[k - 1], t) then 1 else 0
  }

  // The wakes of a tier on their way: in the word, and in the handler's copy
  // as long as it has not tested for that tier.
  function Carried(s: State, t: Tier): nat {
    (if Has(s.relay, t) then 1 else 0)
    + (if (s.bell.Swapped? || (t.Sup? && s.bell.TestedHigh?)) && Has(s.bell.bits, t) then 1 else 0)
  }

  lemma CarriedStep(s: State, a: Action, t: Tier)
    requires Enabled(s, a)
    ensures Carried(Step(s, a), t) + (if Pends(s, a, t) then 1 else 0)
         <= Carried(s, t) + (if a == FetchOr(t) then 1 else 0)
  {
    ZeroIsEmpty(t);
    hide Has, WithBit;
    if a.FetchOr? {
      OrSetsOneBit(s.relay, a.tier, t);
    }
  }

  lemma RingingStep(s: State, a: Action, t: Tier)
    requires Enabled(s, a)
    ensures var was, now := if Ringing(s, t) then 1 else 0, if Ringing(Step(s, a), t) then 1 else 0;
            now + (if a == Ring(t) then 1 else 0) == was + (if a == FetchOr(t) then 1 else 0)
  {
    hide Has, WithBit;
  }

  // The handler never pends a tier more often than it was relayed, and a
  // tier's own handler on core 1 rings once for each bit it sets.
  lemma {:induction false} DeliveredOnce(trace: seq<State>, acts: seq<Action>, t: Tier, k: nat)
    requires Run(trace, acts) && k < |trace|
    ensures Deliveries(trace, acts, t, k) + Carried(trace[k], t) <= Relays(acts, t, k)
    ensures Relays(acts, t, k) == Rings(acts, t, k) + (if Ringing(trace[k], t) then 1 else 0)
    decreases k
  {
    if k == 0 {
      ZeroIsEmpty(t);
    } else {
      assert Follows(trace[k - 1], acts[k - 1], trace[k - 1 + 1]);
      DeliveredOnce(trace, acts, t, k - 1);
      CarriedStep(trace[k - 1], acts[k - 1], t);
      RingingStep(trace[k - 1], acts[k - 1], t);
      hide Step, Enabled, Carried, Pends, Ringing;
    }
  }

  // ---------------------------------------------------------------- progress

  // A step of a handler that is running, or of the doorbell's when it is set.
  predicate HandlerStep(s: State, a: Action) { (a.Ring? || a.BellStep?) && Enabled(s, a) }

  // A bound on the handler steps until nothing is in flight.
  function Remaining(s: State): nat {
    (if s.ringHigh then 6 else 0) + (if s.ringSup then 6 else 0)
    + (if s.doorbell && !s.bell.Entered? then 5 else 0)
    + match s.bell
      case Away => 0
      case Entered => 4
      case Cleared => 3
      case Swapped(_) => 2
      case TestedHigh(_) => 1
  }

  // The handlers come to rest: each step they take brings them nearer, one
  // can be taken until then, and a wake of core 0 or the next one of a tier at
  // rest is never held up.
  lemma HandlersSettle(s: State, a: Action)
    ensures Quiet(s) <==> Remaining(s) == 0
    ensures !Quiet(s) ==> HandlerStep(s, BellStep) || exists t :: HandlerStep(s, Ring(t))
    ensures HandlerStep(s, a) ==> Remaining(Step(s, a)) < Remaining(s)
    ensures forall t :: Enabled(s, LocalPend(t)) && (Enabled(s, FetchOr(t)) <==> !Enabled(s, Ring(t)))
    ensures Quiet(INIT) && !INIT.pendHigh && !INIT.pendSup
  {
    hide Has, WithBit;
    assert s.ringHigh ==> Enabled(s, Ring(High));
    assert s.ringSup ==> Enabled(s, Ring(Sup));
    assert HandlerStep(s, Ring(High)) || HandlerStep(s, Ring(Sup)) ==> exists t :: HandlerStep(s, Ring(t));
  }
}
