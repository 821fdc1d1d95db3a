// The generated spawn glue and the resident task shell of one node or pool
// member (supervisor-macros/src/lib.rs:629-1207), as a state machine whose
// steps interleave freely. A slot operation is one critical section and a
// flag operation one atomic access, so each is one step
// (supervisor/src/lib.rs:1852-1940, 2976-3011).
//
// Nobody outside takes or clears a resource slot, and a lent resource is
// provided once; everything else an application may do is a step here.
module Shell {
  import opened Tokens

  datatype Kind = Lend | Consume | Shared | Divisible

  datatype Config = Config(kinds: seq<Kind>, hasState: bool, hasExit: bool)

  // Where the glue is inside a call; Idle between calls.
  datatype GluePc = Idle | AskResident | BoxState | Probe(next: nat) | Handoff | Launch | Signal | MarkResident

  // Where the shell is. Parked is Check or Wait.
  datatype ShellPc =
    | Unspawned
    | TakeState | Take(next: nat) | LostResource
    | Work
    | DropState | Restore(next: nat) | ProvideExit | MarkExited
    | Park | Check | Wait

  // TaskNode's flags and the latch of its resume signal.
  datatype Node = Node(resident: bool, idle: bool, latch: bool)

  // The glue: its position, what `__sv_resident` answered, how the last call ended.
  datatype Glue = Glue(pc: GluePc, wasResident: bool, launched: Option<bool>)

  // One resource: its slot, what this activation holds of it, the instance
  // lent out, and how many values were ever provided and taken.
  datatype Resource = Resource(slot: Option<nat>, held: Option<nat>, home: Option<nat>, provided: nat, taken: nat)

  // `state:` boxes, with every box allocated and not dropped.
  datatype Heap = Heap(glueBox: Option<nat>, stateSlot: Option<nat>, shellBox: Option<nat>, live: set<nat>, next: nat)

  // `exit:`: this activation's value, the slot, what a waiter last received.
  datatype Exit = Exit(out: Option<nat>, slot: Option<nat>, received: Option<nat>)

  // runs: activations that reached the worker; lost: lost-resource branches.
  datatype State = State(node: Node, glue: Glue, shell: ShellPc, res: seq<Resource>, heap: Heap, exit: Exit,
      runs: nat, lost: nat)

  datatype Action =
    | GlueStep(ok: bool)                 // ok: an allocation or a spawn succeeds
    | ShellStep(outcome: Option<nat>)    // None: the worker was aborted
    | Provide(i: nat, x: nat)
    | StrayResume                        // a resume signal the shell did not ask for
    | WorkerResumes                      // a Pause worker consumes the latch
    | TakeExit

  function Dropped(live: set<nat>, b: Option<nat>): set<nat> {
    if b.Some? then live - {b.value} else live
  }

  // ------------------------------------------------------------------ steps

  function At(g: Glue, pc: GluePc): Glue { g.(pc := pc) }

  function Ended(g: Glue, ok: bool): Glue { g.(pc := Idle, launched := Some(ok)) }

  function Allocate(h: Heap): Heap {
    h.(glueBox := Some(h.next), live := h.live + {h.next}, next := h.next + 1)
  }

  function DropGlueBox(h: Heap): Heap { h.(glueBox := None, live := Dropped(h.live, h.glueBox)) }

  function DropShellBox(h: Heap): Heap { h.(shellBox := None, live := Dropped(h.live, h.shellBox)) }

  // `provide` replaces, so drops, what the slot held.
  function HandOver(h: Heap): Heap {
    h.(stateSlot := h.glueBox, glueBox := None, live := Dropped(h.live, h.stateSlot))
  }

  function ReadState(h: Heap): Heap { h.(shellBox := h.stateSlot, stateSlot := None) }

  function Taken(r: Resource): Resource { r.(held := r.slot, slot := None, taken := r.taken + 1) }

  function Restored(r: Resource): Resource { r.(slot := r.held, held := None) }

  // A consumed value went to the worker and ends with it.
  function AfterWork(c: Config, res: seq<Resource>): seq<Resource>
    requires |res| == |c.kinds|
  {
    seq(|res|, k requires 0 <= k < |res| => if c.kinds[k].Lend? then res[k] else res[k].(held := None))
  }

  // supervisor-macros/src/lib.rs:652-707
  function StepGlue(c: Config, s: State, ok: bool): State
    requires |s.res| == |c.kinds|
  {
    match s.glue.pc
    case Idle => s.(glue := s.glue.(pc := AskResident, launched := None))
    case AskResident =>
      if s.node.resident && !s.node.idle then s.(glue := Ended(s.glue, false))
      else s.(glue := s.glue.(pc := BoxState, wasResident := s.node.resident))
    case BoxState =>
      if !c.hasState then s.(glue := At(s.glue, Probe(0)))
      else if !ok then s.(glue := Ended(s.glue, false))
      else s.(glue := At(s.glue, Probe(0)), heap := Allocate(s.heap))
    case Probe(i) =>
      if i >= |c.kinds| then s.(glue := At(s.glue, Handoff))
      else if s.res[i].slot.Some? then s.(glue := At(s.glue, Probe(i + 1)))
      else s.(glue := Ended(s.glue, false), heap := DropGlueBox(s.heap))
    case Handoff =>
      if !c.hasState then s.(glue := At(s.glue, Launch))
      else s.(glue := At(s.glue, Launch), heap := HandOver(s.heap))
    case Launch =>
      if s.glue.wasResident then s.(glue := At(s.glue, Signal), node := s.node.(idle := false))
      else if !ok then s.(glue := Ended(s.glue, false))
      else s.(glue := At(s.glue, MarkResident), shell := TakeState)
    case Signal => s.(glue := Ended(s.glue, true), node := s.node.(latch := true))
    case MarkResident => s.(glue := Ended(s.glue, true), node := s.node.(resident := true))
  }

  // supervisor-macros/src/lib.rs:923-964, 1002-1033, 1160-1207
  function StepShell(c: Config, s: State, outcome: Option<nat>): Option<State>
    requires |s.res| == |c.kinds|
  {
    match s.shell
    case Unspawned => None
    case TakeState =>
      if !c.hasState then Some(s.(shell := Take(0)))
      else if s.heap.stateSlot.None? then Some(s.(shell := LostResource))
      else Some(s.(shell := Take(0), heap := ReadState(s.heap)))
    case Take(i) =>
      if i >= |c.kinds| then Some(s.(shell := Work, runs := s.runs + 1))
      else if c.kinds[i].Divisible? then Some(s.(shell := Take(i + 1)))
      else if s.res[i].slot.None? then Some(s.(shell := LostResource))
      else if c.kinds[i].Shared? then Some(s.(shell := Take(i + 1)))
      else Some(s.(shell := Take(i + 1), res := s.res[i := Taken(s.res[i])]))
    case LostResource =>
      // `mark_lost_resource`, then the block is left and its locals dropped
      Some(s.(shell := Park, lost := s.lost + 1, heap := DropShellBox(s.heap),
              res := seq(|s.res|, k requires 0 <= k < |s.res| => s.res[k].(held := None))))
    case Work => Some(s.(shell := DropState, exit := s.exit.(out := outcome), res := AfterWork(c, s.res)))
    case DropState => Some(s.(shell := Restore(0), heap := DropShellBox(s.heap)))
    case Restore(i) =>
      if i >= |c.kinds| then Some(s.(shell := ProvideExit))
      else if c.kinds[i].Lend? then Some(s.(shell := Restore(i + 1), res := s.res[i := Restored(s.res[i])]))
      else Some(s.(shell := Restore(i + 1)))
    case ProvideExit =>
      if c.hasExit && s.exit.out.Some? then Some(s.(shell := MarkExited, exit := s.exit.(slot := s.exit.out)))
      else Some(s.(shell := MarkExited))
    case MarkExited => Some(s.(shell := Park))
    case Park => Some(s.(shell := Check, node := s.node.(idle := true)))
    case Check => if s.node.idle then Some(s.(shell := Wait)) else Some(s.(shell := TakeState))
    case Wait => if s.node.latch then Some(s.(shell := Check, node := s.node.(latch := false))) else None
  }

  function Provided(k: Kind, r: Resource, x: nat): Resource {
    r.(slot := Some(x), home := if k.Lend? then Some(x) else r.home, provided := r.provided + 1)
  }

  function Step(c: Config, s: State, a: Action): Option<State>
    requires |s.res| == |c.kinds|
  {
    match a
    case GlueStep(ok) => Some(StepGlue(c, s, ok))
    case ShellStep(outcome) => StepShell(c, s, outcome)
    case Provide(i, x) =>
      if i >= |c.kinds| || (c.kinds[i].Lend? && s.res[i].home.Some?) then None
      else Some(s.(res := s.res[i := Provided(c.kinds[i], s.res[i], x)]))
    case StrayResume => Some(s.(node := s.node.(latch := true)))
    case WorkerResumes => if s.shell.Work? then Some(s.(node := s.node.(latch := false))) else None
    case TakeExit =>
      if s.exit.slot.None? then None
      else Some(s.(exit := s.exit.(slot := None, received := s.exit.slot)))
  }

  // -------------------------------------------------------------- invariant

  predicate Parked(shell: ShellPc) { shell.Check? || shell.Wait? }

  predicate Active(shell: ShellPc) { !shell.Unspawned? && !Parked(shell) }

  // The glue has been told the shell is at rest and has not started it yet.
  predicate Preparing(pc: GluePc) { pc.BoxState? || pc.Probe? || pc.Handoff? || pc.Launch? }

  // An activation is due: the shell has not read its first slot yet.
  predicate Due(n: Node, shell: ShellPc) { shell.TakeState? || (Parked(shell) && !n.idle) }

  predicate Flags(n: Node, g: Glue, shell: ShellPc) {
    && !shell.LostResource?
    && (shell.Unspawned? ==> !n.resident && !n.idle)
    && (Active(shell) ==> !n.idle)
    && (n.resident ==> !shell.Unspawned?)
    && (g.pc.MarkResident? <==> !n.resident && !shell.Unspawned?)
    && (g.pc.Signal? ==> n.resident)
    && (Preparing(g.pc) ==> if g.wasResident then n.resident && n.idle && Parked(shell) else shell.Unspawned?)
    // a start is never lost: the shell will look at the flag again
    && (shell.Wait? && !n.idle ==> n.latch || g.pc.Signal?)
  }

  predicate InRange(count: nat, pc: GluePc, shell: ShellPc) {
    && (pc.Probe? ==> pc.next <= count)
    && (shell.Take? ==> shell.next <= count)
    && (shell.Restore? ==> shell.next <= count)
  }

  // How far the glue's probe, or the shell's reading, has come.
  predicate MustBeFilled(n: Node, pc: GluePc, shell: ShellPc, i: nat) {
    || Due(n, shell)
    || (shell.Take? && shell.next <= i)
    || (pc.Probe? && i < pc.next)
    || pc.Handoff? || pc.Launch?
  }

  predicate Past(shell: ShellPc, i: nat) { shell.Take? && i < shell.next }

  predicate Holding(k: Kind, shell: ShellPc, i: nat) {
    match k
    case Lend => Past(shell, i) || shell.Work? || shell.DropState? || (shell.Restore? && shell.next <= i)
    case Consume => Past(shell, i) || shell.Work?
    case _ => false
  }

  // Resource i: held exactly while the shell's position says so; a lent
  // instance is in its slot or held, never both and never another; every run
  // of the worker used up one provided value of a consumed slot.
  predicate ResourceOk(k: Kind, r: Resource, shell: ShellPc, runs: nat, i: nat) {
    && (r.held.Some? <==> Holding(k, shell, i))
    && (k.Lend? ==> if r.held.Some? then r.held == r.home && r.slot.None? else r.slot == r.home)
    && (k.Consume? ==>
          && r.taken == runs + (if Past(shell, i) then 1 else 0)
          && r.taken + (if r.slot.Some? then 1 else 0) <= r.provided)
  }

  predicate Resources(c: Config, s: State) {
    && |s.res| == |c.kinds|
    && InRange(|c.kinds|, s.glue.pc, s.shell)
    && (forall i :: 0 <= i < |s.res| ==> ResourceOk(c.kinds[i], s.res[i], s.shell, s.runs, i))
    && (forall i :: 0 <= i < |s.res| && MustBeFilled(s.node, s.glue.pc, s.shell, i) ==> s.res[i].slot.Some?)
  }

  function Contents(b: Option<nat>): set<nat> {
    if b.Some? then {b.value} else {}
  }

  // Which of the three places hold a box, and that no other box is live.
  predicate Boxes(c: Config, h: Heap, n: Node, pc: GluePc, shell: ShellPc) {
    && (h.glueBox.Some? <==> c.hasState && (pc.Probe? || pc.Handoff?))
    && (h.shellBox.Some? <==> c.hasState && (shell.Take? || shell.Work? || shell.DropState?))
    && (c.hasState && (Due(n, shell) || pc.Launch?) ==> h.stateSlot.Some?)
    && (h.stateSlot.Some? ==> c.hasState && (Due(n, shell) || pc.Launch? || shell.Unspawned?))
    && h.live == Contents(h.glueBox) + Contents(h.stateSlot) + Contents(h.shellBox)
    && (forall b :: b in h.live ==> b < h.next)
    && (h.glueBox.Some? ==> h.glueBox != h.stateSlot && h.glueBox != h.shellBox)
    && (h.stateSlot.Some? ==> h.stateSlot != h.shellBox)
  }

  predicate Exits(c: Config, e: Exit, shell: ShellPc) {
    shell.MarkExited? && c.hasExit && e.out.Some? ==> e.slot == e.out || (e.slot.None? && e.received == e.out)
  }

  predicate Inv(c: Config, s: State) {
    && s.lost == 0
    && Flags(s.node, s.glue, s.shell)
    && Resources(c, s)
    && Boxes(c, s.heap, s.node, s.glue.pc, s.shell)
    && Exits(c, s.exit, s.shell)
  }

  const UNPROVIDED: Resource := Resource(None, None, None, 0, 0)

  function Init(c: Config): State {
    State(Node(false, false, false), Glue(Idle, false, None), Unspawned, seq(|c.kinds|, k => UNPROVIDED),
          Heap(None, None, None, {}, 0), Exit(None, None, None), 0, 0)
  }

  lemma InitInv(c: Config)
    ensures Inv(c, Init(c))
  {
  }

  // ------------------------------------------------- each step keeps it all

  lemma GlueKeepsResources(c: Config, s: State, ok: bool)
    requires Inv(c, s)
    ensures Resources(c, StepGlue(c, s, ok))
  {
    hide Boxes, Exits;
    var t := StepGlue(c, s, ok);
    forall i | 0 <= i < |c.kinds|
      ensures ResourceOk(c.kinds[i], t.res[i], t.shell, t.runs, i)
    {
      assert ResourceOk(c.kinds[i], s.res[i], s.shell, s.runs, i);
    }
  }

  lemma GlueKeepsBoxes(c: Config, s: State, ok: bool)
    requires Inv(c, s)
    ensures var t := StepGlue(c, s, ok); Boxes(c, t.heap, t.node, t.glue.pc, t.shell)
  {
    hide ResourceOk, MustBeFilled, Exits;
  }

  lemma GlueKeeps(c: Config, s: State, ok: bool)
    requires Inv(c, s)
    ensures Inv(c, StepGlue(c, s, ok))
  {
    GlueKeepsResources(c, s, ok);
    GlueKeepsBoxes(c, s, ok);
    hide Resources, Boxes;
  }

  // Whatever the shell finds when it reads its slots, the glue's probe still
  // holds: the lost-resource branch cannot be entered.
  lemma NeverLost(c: Config, s: State, outcome: Option<nat>)
    requires Inv(c, s) && StepShell(c, s, outcome).Some?
    ensures !StepShell(c, s, outcome).value.shell.LostResource?
  {
    if s.shell.Take? && s.shell.next < |c.kinds| {
      assert MustBeFilled(s.node, s.glue.pc, s.shell, s.shell.next);
    }
  }

  lemma ShellKeepsResources(c: Config, s: State, outcome: Option<nat>)
    requires Inv(c, s) && StepShell(c, s, outcome).Some?
    ensures Resources(c, StepShell(c, s, outcome).value)
  {
    NeverLost(c, s, outcome);
    hide Boxes, Exits;
    var t := StepShell(c, s, outcome).value;
    forall i | 0 <= i < |c.kinds|
      ensures ResourceOk(c.kinds[i], t.res[i], t.shell, t.runs, i)
      ensures MustBeFilled(t.node, t.glue.pc, t.shell, i) ==> t.res[i].slot.Some?
    {
      assert ResourceOk(c.kinds[i], s.res[i], s.shell, s.runs, i);
      assert MustBeFilled(t.node, t.glue.pc, t.shell, i) ==> MustBeFilled(s.node, s.glue.pc, s.shell, i);
    }
  }

  lemma ShellKeepsBoxes(c: Config, s: State, outcome: Option<nat>)
    requires Inv(c, s) && StepShell(c, s, outcome).Some?
    ensures var t := StepShell(c, s, outcome).value; Boxes(c, t.heap, t.node, t.glue.pc, t.shell)
  {
    NeverLost(c, s, outcome);
    hide ResourceOk, MustBeFilled, Exits, AfterWork;
  }

  lemma ShellKeeps(c: Config, s: State, outcome: Option<nat>)
    requires Inv(c, s) && StepShell(c, s, outcome).Some?
    ensures Inv(c, StepShell(c, s, outcome).value)
  {
    NeverLost(c, s, outcome);
    ShellKeepsResources(c, s, outcome);
    ShellKeepsBoxes(c, s, outcome);
    hide Resources, Boxes, AfterWork;
  }

  lemma OutsideKeeps(c: Config, s: State, a: Action)
    requires Inv(c, s) && Step(c, s, a).Some? && !a.GlueStep? && !a.ShellStep?
    ensures Inv(c, Step(c, s, a).value)
  {
    var t := Step(c, s, a).value;
    forall i | 0 <= i < |c.kinds|
      ensures ResourceOk(c.kinds[i], t.res[i], t.shell, t.runs, i)
    {
      assert ResourceOk(c.kinds[i], s.res[i], s.shell, s.runs, i);
    }
  }

  lemma StepKeepsInv(c: Config, s: State, a: Action)
    requires Inv(c, s) && Step(c, s, a).Some?
    ensures Inv(c, Step(c, s, a).value)
  {
    match a
    case GlueStep(ok) => GlueKeeps(c, s, ok);
    case ShellStep(outcome) => ShellKeeps(c, s, outcome);
    case _ => OutsideKeeps(c, s, a);
  }

  // ---------------------------------------------------------- over whole runs

  predicate Follows(c: Config, s: State, a: Action, t: State) {
    |s.res| == |c.kinds| && Step(c, s, a) == Some(t)
  }

  ghost predicate Run(c: Config, trace: seq<State>, acts: seq<Action>) {
    && |trace| == |acts| + 1
    && trace[0] == Init(c)
    && (forall k :: 0 <= k < |trace| ==> |trace[k].res| == |c.kinds|)
    && (forall k :: 0 <= k < |acts| ==> Follows(c, trace[k], acts[k], trace[k + 1]))
  }

  lemma {:induction false} RunInv(c: Config, trace: seq<State>, acts: seq<Action>, k: nat)
    requires Run(c, trace, acts) && k < |trace|
    ensures Inv(c, trace[k])
  {
    if k == 0 {
      InitInv(c);
    } else {
      assert Follows(c, trace[k - 1], acts[k - 1], trace[k - 1 + 1]);
      RunInv(c, trace, acts, k - 1);
      StepKeepsInv(c, trace[k - 1], acts[k - 1]);
    }
  }

  // The lost-resource branch is unreachable, in every interleaving.
  lemma ResourcesNeverLost(c: Config, trace: seq<State>, acts: seq<Action>, k: nat)
    requires Run(c, trace, acts) && k < |trace|
    ensures trace[k].lost == 0 && !trace[k].shell.LostResource?
  {
    RunInv(c, trace, acts, k);
  }

  lemma {:induction false} HomeIsFixed(c: Config, trace: seq<State>, acts: seq<Action>, i: nat, j: nat, k: nat)
    requires Run(c, trace, acts) && j <= k < |trace| && i < |c.kinds| && trace[j].res[i].home.Some?
    ensures trace[k].res[i].home == trace[j].res[i].home
    decreases k
  {
    if j < k {
      assert Follows(c, trace[k - 1], acts[k - 1], trace[k - 1 + 1]);
      HomeIsFixed(c, trace, acts, i, j, k - 1);
      HomeStays(c, trace[k - 1], acts[k - 1], i);
    }
  }

  lemma HomeStays(c: Config, s: State, a: Action, i: nat)
    requires |s.res| == |c.kinds| && i < |c.kinds| && Step(c, s, a).Some?
    requires s.res[i].home.Some?
    ensures Step(c, s, a).value.res[i].home == s.res[i].home
  {
  }

  // From the moment an instance is provided for lending, it is in its slot or
  // held by the one activation, never both, and whenever the shell is parked
  // that same instance is back in that same slot.
  lemma LentInstanceIsConserved(c: Config, trace: seq<State>, acts: seq<Action>, i: nat, j: nat, k: nat)
    requires Run(c, trace, acts) && j <= k < |trace| && i < |c.kinds| && c.kinds[i].Lend?
    requires trace[j].res[i].home.Some?
    ensures var x, r := trace[j].res[i].home, trace[k].res[i];
            && ((r.slot == x && r.held.None?) || (r.slot.None? && r.held == x))
            && (Parked(trace[k].shell) ==> r.slot == x)
            && (r.held == x ==> Active(trace[k].shell))
  {
    HomeIsFixed(c, trace, acts, i, j, k);
    RunInv(c, trace, acts, k);
    assert ResourceOk(c.kinds[i], trace[k].res[i], trace[k].shell, trace[k].runs, i);
  }

  // The worker never runs more often than a consumed resource was provided.
  lemma ConsumedOncePerRun(c: Config, trace: seq<State>, acts: seq<Action>, i: nat, k: nat)
    requires Run(c, trace, acts) && k < |trace| && i < |c.kinds| && c.kinds[i].Consume?
    ensures trace[k].runs <= trace[k].res[i].provided
    ensures Parked(trace[k].shell) && trace[k].runs == trace[k].res[i].provided ==> trace[k].res[i].slot.None?
  {
    RunInv(c, trace, acts, k);
    assert ResourceOk(c.kinds[i], trace[k].res[i], trace[k].shell, trace[k].runs, i);
  }

  // An empty slot with nothing lent out of it that could come back.
  predicate Drained(k: Kind, r: Resource) { r.slot.None? && (k.Lend? ==> r.held.None?) }

  lemma DrainedOn(c: Config, s: State, a: Action, i: nat)
    requires |s.res| == |c.kinds| && i < |c.kinds| && Drained(c.kinds[i], s.res[i])
    requires Step(c, s, a).Some? && !(a.Provide? && a.i == i)
    ensures Drained(c.kinds[i], Step(c, s, a).value.res[i])
  {
  }

  predicate Unprovided(acts: seq<Action>, i: nat, j: nat, k: nat) {
    forall m :: j <= m < k && m < |acts| && acts[m].Provide? ==> acts[m].i != i
  }

  lemma {:induction false} StaysDrained(c: Config, trace: seq<State>, acts: seq<Action>, i: nat, j: nat, k: nat)
    requires Run(c, trace, acts) && j <= k < |trace| && i < |c.kinds|
    requires Drained(c.kinds[i], trace[j].res[i]) && Unprovided(acts, i, j, k)
    ensures Drained(c.kinds[i], trace[k].res[i])
    decreases k
  {
    hide Step, Drained;
    if j < k {
      assert Follows(c, trace[k - 1], acts[k - 1], trace[k - 1 + 1]);
      StaysDrained(c, trace, acts, i, j, k - 1);
      DrainedOn(c, trace[k - 1], acts[k - 1], i);
    }
  }

  // Does step n take resource i out of its slot?
  predicate Takes(s: State, a: Action, i: nat)
    requires i < |s.res|
  {
    a.ShellStep? && s.shell == Take(i) && s.res[i].slot.Some?
  }

  // A consumed slot is empty from the step that takes it until it is provided
  // again, whatever else was provided before and however often.
  lemma ConsumedStaysEmpty(c: Config, trace: seq<State>, acts: seq<Action>, i: nat, t: nat, k: nat)
    requires Run(c, trace, acts) && t < k < |trace| && i < |c.kinds| && c.kinds[i].Consume?
    requires Takes(trace[t], acts[t], i) && Unprovided(acts, i, t + 1, k)
    ensures trace[k].res[i].slot.None?
  {
    assert Follows(c, trace[t], acts[t], trace[t + 1]);
    StaysDrained(c, trace, acts, i, t + 1, k);
  }

  predicate Refusing(k: Kind, s: State, i: nat)
    requires i < |s.res|
  {
    && Drained(k, s.res[i])
    && s.glue.launched != Some(true)
    && (s.glue.pc.Idle? || s.glue.pc.AskResident? || s.glue.pc.BoxState? || (s.glue.pc.Probe? && s.glue.pc.next <= i))
  }

  predicate Starts(s: State, a: Action) { a.GlueStep? && s.glue.pc.Idle? }

  // A glue call that starts over such a slot fails Busy, and so does every
  // later one, until somebody provides a value.
  lemma {:induction false} BusyUntilProvided(c: Config, trace: seq<State>, acts: seq<Action>, i: nat, j: nat, k: nat)
    requires Run(c, trace, acts) && j < k < |trace| && i < |c.kinds|
    requires Drained(c.kinds[i], trace[j].res[i]) && Starts(trace[j], acts[j]) && Unprovided(acts, i, j, k)
    ensures Refusing(c.kinds[i], trace[k], i)
    decreases k
  {
    assert Follows(c, trace[k - 1], acts[k - 1], trace[k - 1 + 1]);
    if j < k - 1 {
      BusyUntilProvided(c, trace, acts, i, j, k - 1);
      RefusesOn(c, trace[k - 1], acts[k - 1], i);
    }
  }

  lemma RefusesOn(c: Config, s: State, a: Action, i: nat)
    requires |s.res| == |c.kinds| && i < |c.kinds| && Refusing(c.kinds[i], s, i)
    requires Step(c, s, a).Some? && !(a.Provide? && a.i == i)
    ensures Refusing(c.kinds[i], Step(c, s, a).value, i)
  {
    DrainedOn(c, s, a, i);
  }

  // So once an activation has taken a consumed value, no call that starts
  // launches anything until the value is provided anew.
  lemma ConsumedThenBusy(c: Config, trace: seq<State>, acts: seq<Action>, i: nat, t: nat, j: nat, k: nat)
    requires Run(c, trace, acts) && t < j < k < |trace| && i < |c.kinds| && c.kinds[i].Consume?
    requires Takes(trace[t], acts[t], i) && Unprovided(acts, i, t + 1, k) && Starts(trace[j], acts[j])
    ensures trace[k].glue.launched != Some(true) && trace[k].res[i].slot.None?
  {
    ConsumedStaysEmpty(c, trace, acts, i, t, j);
    BusyUntilProvided(c, trace, acts, i, j, k);
  }

  // Boxes: between glue calls at most one is live, none once the shell parks
  // after an activation, and never more than two, whatever has failed.
  lemma BoxesAreConserved(c: Config, trace: seq<State>, acts: seq<Action>, k: nat)
    requires Run(c, trace, acts) && k < |trace|
    ensures var s := trace[k];
            && |s.heap.live| <= 2
            && (s.glue.pc.Idle? ==> |s.heap.live| <= 1)
            && (s.glue.pc.Idle? && Parked(s.shell) && s.node.idle ==> s.heap.live == {})
            && (s.node.resident ==> |s.heap.live| <= 1)
  {
    RunInv(c, trace, acts, k);
  }

  // When an exit is recorded the activation has let go of everything: its box
  // is dropped, what it was lent is back, and a returned value is in the exit
  // slot or with the waiter that took it from there.
  lemma ExitIsRecordedLast(c: Config, trace: seq<State>, acts: seq<Action>, k: nat)
    requires Run(c, trace, acts) && k < |trace| && trace[k].shell.MarkExited?
    ensures var s := trace[k];
            && s.heap.live == {}
            && (forall i :: 0 <= i < |c.kinds| ==> s.res[i].held.None?)
            && (forall i :: 0 <= i < |c.kinds| && c.kinds[i].Lend? ==> s.res[i].slot == s.res[i].home)
            && (c.hasExit && s.exit.out.Some? ==>
                  s.exit.slot == s.exit.out || (s.exit.slot.None? && s.exit.received == s.exit.out))
  {
    RunInv(c, trace, acts, k);
    var s := trace[k];
    assert forall i :: 0 <= i < |c.kinds| ==> ResourceOk(c.kinds[i], s.res[i], s.shell, s.runs, i);
  }

  predicate Aborts(s: State, a: Action) { s.shell.Work? && a == ShellStep(None) }

  // An aborted worker provides no exit value: until a worker next ends, the
  // exit slot holds what it held before the abort, or a waiter took that. It
  // is therefore empty exactly when it was, not because of the abort.
  lemma {:induction false} AbortLeavesExit(c: Config, trace: seq<State>, acts: seq<Action>, t: nat, k: nat)
    requires Run(c, trace, acts) && t < k < |trace| && Aborts(trace[t], acts[t])
    requires forall m :: t < m < k && acts[m].ShellStep? ==> !trace[m].shell.Work?
    ensures trace[k].exit.out.None?
    ensures trace[k].exit.slot == trace[t].exit.slot || trace[k].exit.slot.None?
    ensures (forall m :: t < m < k ==> !acts[m].TakeExit?) ==> trace[k].exit.slot == trace[t].exit.slot
    decreases k
  {
    assert Follows(c, trace[k - 1], acts[k - 1], trace[k - 1 + 1]);
    if t < k - 1 {
      AbortLeavesExit(c, trace, acts, t, k - 1);
    }
  }

  // The glue step that starts an activation.
  predicate Launches(s: State, a: Action) {
    a.GlueStep? && s.glue.pc.Launch? && (s.glue.wasResident || a.ok)
  }

  predicate Provides(c: Config, s: State, a: Action) {
    a.ShellStep? && s.shell.ProvideExit? && c.hasExit && s.exit.out.Some?
  }

  predicate EndsWork(s: State, a: Action) { a.ShellStep? && s.shell.Work? }

  ghost predicate Waited(acts: seq<Action>, l: nat, k: nat) {
    exists m :: l <= m < k && m < |acts| && acts[m].TakeExit?
  }

  lemma {:induction false} SlotWithoutProvide(c: Config, trace: seq<State>, acts: seq<Action>, l: nat, k: nat)
    requires Run(c, trace, acts) && l <= k < |trace|
    requires forall m :: l <= m < k ==> !Provides(c, trace[m], acts[m])
    ensures trace[k].exit.slot.None? <==> trace[l].exit.slot.None? || Waited(acts, l, k)
    decreases k
  {
    if l < k {
      assert Follows(c, trace[k - 1], acts[k - 1], trace[k - 1 + 1]);
      SlotWithoutProvide(c, trace, acts, l, k - 1);
      assert Waited(acts, l, k) <==> Waited(acts, l, k - 1) || acts[k - 1].TakeExit?;
    }
  }

  // Where the shell can be between a launch and the end of the worker it starts.
  predicate Launched(shell: ShellPc) { Parked(shell) || shell.TakeState? || shell.Take? || shell.Work? }

  lemma LaunchStarts(c: Config, s: State, a: Action)
    requires Inv(c, s) && Step(c, s, a).Some? && Launches(s, a)
    ensures Launched(Step(c, s, a).value.shell)
  {
    hide Resources, Boxes, Exits;
  }

  lemma StaysLaunched(c: Config, s: State, a: Action)
    requires Inv(c, s) && Step(c, s, a).Some? && Launched(s.shell) && !EndsWork(s, a)
    ensures Launched(Step(c, s, a).value.shell)
  {
    hide Resources, Boxes, Exits;
    if a.ShellStep? {
      NeverLost(c, s, a.outcome);
    }
  }

  lemma {:induction false} LaunchedUntilEnd(c: Config, trace: seq<State>, acts: seq<Action>, l: nat, k: nat)
    requires Run(c, trace, acts) && l < k < |trace| && Launches(trace[l], acts[l])
    requires forall m :: l <= m < k ==> !EndsWork(trace[m], acts[m])
    ensures Launched(trace[k].shell)
    decreases k
  {
    hide Step, Inv;
    assert Follows(c, trace[k - 1], acts[k - 1], trace[k - 1 + 1]);
    RunInv(c, trace, acts, k - 1);
    if l < k - 1 {
      LaunchedUntilEnd(c, trace, acts, l, k - 1);
      StaysLaunched(c, trace[k - 1], acts[k - 1]);
    } else {
      LaunchStarts(c, trace[k - 1], acts[k - 1]);
    }
  }

  // The comment on the glue's exit step promises an empty slot after an abort.
  // From the launch of the aborted activation until a worker next ends, the
  // slot is empty exactly when it was empty at the launch or a waiter has
  // taken what it held since.
  lemma AbortedExitExactly(c: Config, trace: seq<State>, acts: seq<Action>, l: nat, t: nat, k: nat)
    requires Run(c, trace, acts) && l < t < k < |trace|
    requires Launches(trace[l], acts[l]) && Aborts(trace[t], acts[t])
    requires forall m :: l <= m < k && m != t ==> !EndsWork(trace[m], acts[m])
    ensures trace[k].exit.slot.None? <==> trace[l].exit.slot.None? || Waited(acts, l, k)
  {
    forall m | l <= m < k
      ensures !Provides(c, trace[m], acts[m])
    {
      if m <= l {
        RunInv(c, trace, acts, l);
      } else if m <= t {
        LaunchedUntilEnd(c, trace, acts, l, m);
      } else {
        AbortLeavesExit(c, trace, acts, t, m);
      }
    }
    SlotWithoutProvide(c, trace, acts, l, k);
  }

  // One action n times over, if it can happen each time.
  function After(c: Config, s: State, a: Action, n: nat): Option<State>
    requires |s.res| == |c.kinds|
    decreases n
  {
    if n == 0 then Some(s)
    else
      var t := Step(c, s, a);
      if t.None? || |t.value.res| != |c.kinds| then None else After(c, t.value, a, n - 1)
  }

  lemma {:induction false} Again(c: Config, trace: seq<State>, acts: seq<Action>, a: Action, n: nat)
      returns (longer: seq<State>, more: seq<Action>)
    requires Run(c, trace, acts) && After(c, trace[|acts|], a, n).Some?
    ensures Run(c, longer, more) && |more| == |acts| + n && longer[|more|] == After(c, trace[|acts|], a, n).value
    decreases n
  {
    longer, more := trace, acts;
    if n > 0 {
      var t := Step(c, trace[|acts|], a).value;
      assert Follows(c, trace[|acts|], a, t);
      longer, more := Again(c, trace + [t], acts + [a], a, n - 1);
    }
  }

  function NoSlots(n: Node, g: Glue, shell: ShellPc, e: Exit, runs: nat): State {
    State(n, g, shell, [], Heap(None, None, None, {}, 0), e, runs, 0)
  }

  // A node without resources or state: its first launch,
  function Started(): State {
    NoSlots(Node(true, false, false), Glue(Idle, false, Some(true)), TakeState, Exit(None, None, None), 0)
  }

  // its first exit, with a value nobody takes,
  function Exited(x: nat): State {
    NoSlots(Node(true, true, false), Glue(Idle, false, Some(true)), Check, Exit(Some(x), Some(x), None), 1)
  }

  // its second launch,
  function Restarted(x: nat): State {
    NoSlots(Node(true, false, true), Glue(Idle, true, Some(true)), Check, Exit(Some(x), Some(x), None), 1)
  }

  // and its second activation, about to be aborted.
  function Aborting(x: nat): State {
    NoSlots(Node(true, false, true), Glue(Idle, true, Some(true)), Work, Exit(Some(x), Some(x), None), 2)
  }

  const EXITING: Config := Config([], false, true)

  lemma FirstLaunch()
    ensures After(EXITING, Init(EXITING), GlueStep(true), 7) == Some(Started())
  {
    assert Init(EXITING).res == [];
  }

  lemma FirstExit(x: nat)
    ensures After(EXITING, Started(), ShellStep(Some(x)), 8) == Some(Exited(x))
  {
    assert AfterWork(EXITING, []) == [];
  }

  lemma SecondLaunch(x: nat)
    ensures After(EXITING, Exited(x), GlueStep(true), 7) == Some(Restarted(x))
  {
  }

  lemma SecondRun(x: nat)
    ensures After(EXITING, Restarted(x), ShellStep(None), 3) == Some(Aborting(x))
  {
  }

  // So an abort can find, and leave, a value in the exit slot.
  lemma AbortOverFullSlot(x: nat)
    ensures exists trace: seq<State>, acts: seq<Action> ::
              && Run(EXITING, trace, acts)
              && |acts| == 26
              && Aborts(trace[25], acts[25])
              && trace[25].exit.slot == trace[26].exit.slot == Some(x)
  {
    hide After;
    var trace, acts := [Init(EXITING)], [];
    FirstLaunch();
    trace, acts := Again(EXITING, trace, acts, GlueStep(true), 7);
    FirstExit(x);
    trace, acts := Again(EXITING, trace, acts, ShellStep(Some(x)), 8);
    SecondLaunch(x);
    trace, acts := Again(EXITING, trace, acts, GlueStep(true), 7);
    SecondRun(x);
    trace, acts := Again(EXITING, trace, acts, ShellStep(None), 3);
    var t := Step(EXITING, trace[25], ShellStep(None)).value;
    assert Follows(EXITING, trace[25], ShellStep(None), t);
    assert Run(EXITING, trace + [t], acts + [ShellStep(None)]);
  }

  // A start is never lost to a stale or missing wake: with no call under way,
  // a started shell reaches its next activation in its next two steps.
  lemma StartReachesShell(c: Config, trace: seq<State>, acts: seq<Action>, k: nat, outcome: Option<nat>)
    requires Run(c, trace, acts) && k < |trace|
    requires Parked(trace[k].shell) && !trace[k].node.idle && trace[k].glue.pc.Idle?
    ensures var s := StepShell(c, trace[k], outcome);
            && s.Some?
            && (s.value.shell.TakeState?
                || (s.value.shell.Check? && StepShell(c, s.value, outcome).value.shell.TakeState?))
  {
    RunInv(c, trace, acts, k);
  }

  // --------------------------------------------------------- shared resources

  // Read by its activations, and never moved out of its slot.
  predicate Stays(k: Kind) { k.Shared? || k.Divisible? }

  lemma StaysOn(c: Config, s: State, a: Action, i: nat)
    requires |s.res| == |c.kinds| && i < |c.kinds| && Stays(c.kinds[i])
    requires Step(c, s, a).Some?
    ensures !(a.Provide? && a.i == i) ==> Step(c, s, a).value.res[i].slot == s.res[i].slot
    ensures s.res[i].slot.Some? ==> Step(c, s, a).value.res[i].slot.Some?
  {
  }

  // Whatever activations come and go, such a slot keeps its value until it is
  // provided again,
  lemma {:induction false} SharedStays(c: Config, trace: seq<State>, acts: seq<Action>, i: nat, j: nat, k: nat)
    requires Run(c, trace, acts) && j <= k < |trace| && i < |c.kinds| && Stays(c.kinds[i])
    ensures Unprovided(acts, i, j, k) ==> trace[k].res[i].slot == trace[j].res[i].slot
    ensures trace[j].res[i].slot.Some? ==> trace[k].res[i].slot.Some?
    decreases k
  {
    if j < k {
      assert Follows(c, trace[k - 1], acts[k - 1], trace[k - 1 + 1]);
      SharedStays(c, trace, acts, i, j, k - 1);
      StaysOn(c, trace[k - 1], acts[k - 1], i);
    }
  }

  // and so, once provided, it never makes a start fail.
  lemma SharedNeverBusy(c: Config, trace: seq<State>, acts: seq<Action>, i: nat, j: nat, k: nat, ok: bool)
    requires Run(c, trace, acts) && j <= k < |trace| && i < |c.kinds| && Stays(c.kinds[i])
    requires trace[j].res[i].slot.Some? && trace[k].glue.pc == Probe(i)
    ensures StepGlue(c, trace[k], ok).glue.pc == Probe(i + 1)
  {
    SharedStays(c, trace, acts, i, j, k);
  }

  // ------------------------------------------------ one activation on its own

  lemma {:induction false} AfterAdd(c: Config, s: State, a: Action, m: nat, n: nat)
    requires |s.res| == |c.kinds| && After(c, s, a, m).Some?
    ensures |After(c, s, a, m).value.res| == |c.kinds|
    ensures After(c, s, a, m + n) == After(c, After(c, s, a, m).value, a, n)
    decreases m
  {
    hide Step;
    if m > 0 {
      AfterAdd(c, Step(c, s, a).value, a, m - 1, n);
    }
  }

  // From the first step to a state known already, and on.
  lemma AfterNext(c: Config, s: State, a: Action, t: State, n: nat)
    requires |s.res| == |t.res| == |c.kinds| && Step(c, s, a) == Some(t)
    ensures After(c, s, a, n + 1) == After(c, t, a, n)
  {
    hide Step;
  }

  lemma {:induction false} ProbeAlone(c: Config, s: State, i: nat)
    requires |s.res| == |c.kinds| && s.glue.pc == Probe(i) && i <= |c.kinds|
    requires forall k :: i <= k < |c.kinds| ==> s.res[k].slot.Some?
    ensures After(c, s, GlueStep(true), |c.kinds| - i + 1) == Some(s.(glue := At(s.glue, Handoff)))
    decreases |c.kinds| - i
  {
    var t := s.(glue := At(s.glue, if i < |c.kinds| then Probe(i + 1) else Handoff));
    AfterNext(c, s, GlueStep(true), t, |c.kinds| - i);
    if i < |c.kinds| {
      ProbeAlone(c, t, i + 1);
    }
  }

  // Nobody else is at work: no call of the glue, and the shell at rest.
  predicate AtRest(s: State) {
    s.glue.pc.Idle? && if s.node.resident then s.node.idle && Parked(s.shell) else s.shell.Unspawned?
  }

  // What a call by itself makes of a state in which every slot is filled.
  function Launching(c: Config, s: State): State {
    var boxed := if c.hasState then HandOver(Allocate(s.heap)) else s.heap;
    var glue := Glue(Idle, s.node.resident, Some(true));
    if s.node.resident then s.(glue := glue, heap := boxed, node := Node(true, false, true))
    else s.(glue := glue, heap := boxed, node := s.node.(resident := true), shell := TakeState)
  }

  lemma BeginsAlone(c: Config, s: State)
    requires |s.res| == |c.kinds| && AtRest(s)
    ensures After(c, s, GlueStep(true), 3)
         == Some(s.(glue := Glue(Probe(0), s.node.resident, None),
                    heap := if c.hasState then Allocate(s.heap) else s.heap))
  {
    var g := GlueStep(true);
    var s1 := s.(glue := s.glue.(pc := AskResident, launched := None));
    var s2 := s1.(glue := s1.glue.(pc := BoxState, wasResident := s.node.resident));
    AfterNext(c, s, g, s1, 2);
    AfterNext(c, s1, g, s2, 1);
  }

  lemma EndsAlone(c: Config, s: State)
    requires |s.res| == |c.kinds| && s.glue.pc.Handoff?
    ensures var heap := if c.hasState then HandOver(s.heap) else s.heap;
            var glue := Ended(s.glue, true);
            After(c, s, GlueStep(true), 3)
            == Some(if s.glue.wasResident
                    then s.(glue := glue, heap := heap, node := s.node.(idle := false, latch := true))
                    else s.(glue := glue, heap := heap, node := s.node.(resident := true), shell := TakeState))
  {
    var g := GlueStep(true);
    var s1 := s.(glue := At(s.glue, Launch), heap := if c.hasState then HandOver(s.heap) else s.heap);
    AfterNext(c, s, g, s1, 2);
    var s2 := if s.glue.wasResident then s1.(glue := At(s1.glue, Signal), node := s1.node.(idle := false))
              else s1.(glue := At(s1.glue, MarkResident), shell := TakeState);
    AfterNext(c, s1, g, s2, 1);
  }

  // A call succeeds over filled slots, and hands over a fresh box.
  lemma GlueAlone(c: Config, s: State)
    requires |s.res| == |c.kinds| && AtRest(s) && forall k :: 0 <= k < |c.kinds| ==> s.res[k].slot.Some?
    ensures After(c, s, GlueStep(true), |c.kinds| + 7) == Some(Launching(c, s))
  {
    var g, n := GlueStep(true), |c.kinds|;
    BeginsAlone(c, s);
    var s3 := After(c, s, g, 3).value;
    ProbeAlone(c, s3, 0);
    var s4 := s3.(glue := At(s3.glue, Handoff));
    EndsAlone(c, s4);
    hide After;
    AfterAdd(c, s, g, 3, n + 4);
    AfterAdd(c, s3, g, n + 1, 3);
  }

  // Where the task cannot be spawned the call fails too, and its box waits to
  // be replaced by the next.
  lemma SpawnFails(c: Config, s: State)
    requires |s.res| == |c.kinds| && AtRest(s) && !s.node.resident
    requires forall k :: 0 <= k < |c.kinds| ==> s.res[k].slot.Some?
    ensures var heap := if c.hasState then HandOver(Allocate(s.heap)) else s.heap;
            var t := s.(glue := Glue(Launch, false, None), heap := heap);
            && After(c, s, GlueStep(true), |c.kinds| + 5) == Some(t)
            && Step(c, t, GlueStep(false)) == Some(s.(glue := Glue(Idle, false, Some(false)), heap := heap))
  {
    var g, n := GlueStep(true), |c.kinds|;
    BeginsAlone(c, s);
    var s3 := After(c, s, g, 3).value;
    ProbeAlone(c, s3, 0);
    var s4 := s3.(glue := At(s3.glue, Handoff));
    var s5 := s4.(glue := At(s4.glue, Launch), heap := if c.hasState then HandOver(s4.heap) else s4.heap);
    AfterNext(c, s4, g, s5, 0);
    assert After(c, s5, g, 0) == Some(s5);
    hide After;
    AfterAdd(c, s, g, 3, n + 2);
    AfterAdd(c, s3, g, n + 1, 1);
  }

  // A call by itself over a shell that is running fails at once; one that
  // cannot box its state, or meets an empty slot, leaves all as it was but for
  // the number of boxes ever made.
  lemma GlueRefuses(c: Config, s: State, i: nat)
    requires |s.res| == |c.kinds| && s.glue.pc.Idle?
    ensures s.node.resident && !s.node.idle ==>
              After(c, s, GlueStep(true), 2) == Some(s.(glue := s.glue.(launched := Some(false))))
    ensures AtRest(s) && c.hasState ==>
              After(c, s, GlueStep(false), 3) == Some(s.(glue := Glue(Idle, s.node.resident, Some(false))))
    ensures AtRest(s) && i < |c.kinds| && s.res[i].slot.None? && (forall k :: 0 <= k < i ==> s.res[k].slot.Some?) ==>
              After(c, s, GlueStep(true), i + 4)
              == Some(s.(glue := Glue(Idle, s.node.resident, Some(false)),
                         heap := if c.hasState then DropGlueBox(Allocate(s.heap)) else DropGlueBox(s.heap)))
  {
    var g := GlueStep(true);
    var s1 := s.(glue := s.glue.(pc := AskResident, launched := None));
    if s.node.resident && !s.node.idle {
      AfterNext(c, s, g, s1, 1);
    }
    if AtRest(s) && c.hasState {
      var s2 := s1.(glue := s1.glue.(pc := BoxState, wasResident := s.node.resident));
      AfterNext(c, s, GlueStep(false), s1, 2);
      AfterNext(c, s1, GlueStep(false), s2, 1);
    }
    if AtRest(s) && i < |c.kinds| && s.res[i].slot.None? && forall k :: 0 <= k < i ==> s.res[k].slot.Some? {
      BeginsAlone(c, s);
      var s3 := After(c, s, g, 3).value;
      ProbesUpTo(c, s3, 0, i);
      hide After;
      AfterAdd(c, s, g, 3, i + 1);
    }
  }

  lemma {:induction false} ProbesUpTo(c: Config, s: State, j: nat, i: nat)
    requires |s.res| == |c.kinds| && s.glue.pc == Probe(j) && j <= i < |c.kinds| && s.res[i].slot.None?
    requires forall k :: j <= k < i ==> s.res[k].slot.Some?
    ensures After(c, s, GlueStep(true), i - j + 1)
         == Some(s.(glue := Ended(s.glue, false), heap := DropGlueBox(s.heap)))
    decreases i - j
  {
    if j < i {
      var t := s.(glue := At(s.glue, Probe(j + 1)));
      AfterNext(c, s, GlueStep(true), t, i - j);
      ProbesUpTo(c, t, j + 1, i);
    } else {
      var t := s.(glue := Ended(s.glue, false), heap := DropGlueBox(s.heap));
      AfterNext(c, s, GlueStep(true), t, 0);
    }
  }

  predicate Moves(k: Kind) { k.Lend? || k.Consume? }

  // The resources from i on taken, and given back.
  function TakenFrom(c: Config, res: seq<Resource>, i: nat): seq<Resource>
    requires |res| == |c.kinds|
  {
    seq(|res|, k requires 0 <= k < |res| => if k >= i && Moves(c.kinds[k]) then Taken(res[k]) else res[k])
  }

  function RestoredFrom(c: Config, res: seq<Resource>, i: nat): seq<Resource>
    requires |res| == |c.kinds|
  {
    seq(|res|, k requires 0 <= k < |res| => if k >= i && c.kinds[k].Lend? then Restored(res[k]) else res[k])
  }

  lemma {:induction false} TakeAlone(c: Config, s: State, i: nat, o: Option<nat>)
    requires |s.res| == |c.kinds| && s.shell == Take(i) && i <= |c.kinds|
    requires forall k :: i <= k < |c.kinds| && !c.kinds[k].Divisible? ==> s.res[k].slot.Some?
    ensures After(c, s, ShellStep(o), |c.kinds| - i + 1)
         == Some(s.(shell := Work, runs := s.runs + 1, res := TakenFrom(c, s.res, i)))
    decreases |c.kinds| - i
  {
    if i < |c.kinds| {
      var res := if Moves(c.kinds[i]) then s.res[i := Taken(s.res[i])] else s.res;
      var t := s.(shell := Take(i + 1), res := res);
      assert TakenFrom(c, res, i + 1) == TakenFrom(c, s.res, i);
      AfterNext(c, s, ShellStep(o), t, |c.kinds| - i);
      hide TakenFrom;
      TakeAlone(c, t, i + 1, o);
    } else {
      assert TakenFrom(c, s.res, i) == s.res;
      AfterNext(c, s, ShellStep(o), s.(shell := Work, runs := s.runs + 1), 0);
    }
  }

  lemma {:induction false} RestoreAlone(c: Config, s: State, i: nat, o: Option<nat>)
    requires |s.res| == |c.kinds| && s.shell == Restore(i) && i <= |c.kinds|
    ensures After(c, s, ShellStep(o), |c.kinds| - i + 1)
         == Some(s.(shell := ProvideExit, res := RestoredFrom(c, s.res, i)))
    decreases |c.kinds| - i
  {
    if i < |c.kinds| {
      var res := if c.kinds[i].Lend? then s.res[i := Restored(s.res[i])] else s.res;
      var t := s.(shell := Restore(i + 1), res := res);
      assert RestoredFrom(c, res, i + 1) == RestoredFrom(c, s.res, i);
      AfterNext(c, s, ShellStep(o), t, |c.kinds| - i);
      hide RestoredFrom;
      RestoreAlone(c, t, i + 1, o);
    } else {
      assert RestoredFrom(c, s.res, i) == s.res;
      AfterNext(c, s, ShellStep(o), s.(shell := ProvideExit), 0);
    }
  }

  // What an activation leaves of a resource: a lent one is back, a consumed
  // one is gone, the others were only read.
  function Used(k: Kind, r: Resource): Resource {
    match k
    case Lend => r.(held := None, taken := r.taken + 1)
    case Consume => r.(slot := None, held := None, taken := r.taken + 1)
    case _ => r.(held := None)
  }

  function UsedAll(c: Config, res: seq<Resource>): seq<Resource>
    requires |res| == |c.kinds|
  {
    seq(|res|, k requires 0 <= k < |res| => Used(c.kinds[k], res[k]))
  }

  lemma UsedIs(c: Config, res: seq<Resource>)
    requires |res| == |c.kinds| && forall k :: 0 <= k < |res| ==> res[k].held.None?
    ensures UsedAll(c, res) == RestoredFrom(c, AfterWork(c, TakenFrom(c, res, 0)), 0)
  {
  }

  // What an activation by itself makes of a state: the value returned is in
  // the exit slot, the box is dropped, the shell is idle again.
  function Ran(c: Config, s: State, o: Option<nat>): State
    requires |s.res| == |c.kinds|
  {
    s.(shell := Check, node := s.node.(idle := true), runs := s.runs + 1, res := UsedAll(c, s.res),
    heap := DropShellBox(if c.hasState then ReadState(s.heap) else s.heap),
    exit := Exit(o, if c.hasExit && o.Some? then o else s.exit.slot, s.exit.received))
  }

  predicate Ready(c: Config, s: State) {
    && |s.res| == |c.kinds| && s.shell.TakeState?
    && (c.hasState ==> s.heap.stateSlot.Some?)
    && (forall k :: 0 <= k < |c.kinds| ==>
          s.res[k].held.None? && (!c.kinds[k].Divisible? ==> s.res[k].slot.Some?))
  }

  lemma WorkAlone(c: Config, s: State, o: Option<nat>)
    requires |s.res| == |c.kinds| && s.shell.Work?
    ensures After(c, s, ShellStep(o), 2)
         == Some(s.(shell := Restore(0), exit := s.exit.(out := o), res := AfterWork(c, s.res),
                    heap := DropShellBox(s.heap)))
  {
    hide AfterWork;
    var s1 := s.(shell := DropState, exit := s.exit.(out := o), res := AfterWork(c, s.res));
    assert |AfterWork(c, s.res)| == |s.res| by { AfterWorkLength(c, s.res); }
    AfterNext(c, s, ShellStep(o), s1, 1);
  }

  lemma AfterWorkLength(c: Config, res: seq<Resource>)
    requires |res| == |c.kinds|
    ensures |AfterWork(c, res)| == |res|
  {
  }

  lemma ParkAlone(c: Config, s: State, o: Option<nat>)
    requires |s.res| == |c.kinds| && s.shell.ProvideExit?
    ensures After(c, s, ShellStep(o), 3)
         == Some(s.(shell := Check, node := s.node.(idle := true),
                    exit := if c.hasExit && s.exit.out.Some? then s.exit.(slot := s.exit.out) else s.exit))
  {
    var s1 := s.(shell := MarkExited,
                 exit := if c.hasExit && s.exit.out.Some? then s.exit.(slot := s.exit.out) else s.exit);
    AfterNext(c, s, ShellStep(o), s1, 2);
    AfterNext(c, s1, ShellStep(o), s1.(shell := Park), 1);
  }

  // From the worker's end to rest.
  lemma BackAlone(c: Config, s: State, o: Option<nat>)
    requires |s.res| == |c.kinds| && s.shell.Work?
    ensures var res := RestoredFrom(c, AfterWork(c, s.res), 0);
            After(c, s, ShellStep(o), |c.kinds| + 6)
            == Some(s.(shell := Check, node := s.node.(idle := true), res := res, heap := DropShellBox(s.heap),
                       exit := Exit(o, if c.hasExit && o.Some? then o else s.exit.slot, s.exit.received)))
  {
    var a, n := ShellStep(o), |c.kinds|;
    WorkAlone(c, s, o);
    AfterWorkLength(c, s.res);
    var s1 := s.(shell := Restore(0), exit := s.exit.(out := o), res := AfterWork(c, s.res),
                 heap := DropShellBox(s.heap));
    RestoreAlone(c, s1, 0, o);
    var s2 := s1.(shell := ProvideExit, res := RestoredFrom(c, s1.res, 0));
    ParkAlone(c, s2, o);
    hide After, RestoredFrom, AfterWork, DropShellBox;
    AfterAdd(c, s, a, 2, n + 4);
    AfterAdd(c, s1, a, n + 1, 3);
  }

  // An activation over filled slots does exactly that.
  lemma ShellAlone(c: Config, s: State, o: Option<nat>)
    requires Ready(c, s)
    ensures After(c, s, ShellStep(o), 2 * |c.kinds| + 8) == Some(Ran(c, s, o))
  {
    var a, n := ShellStep(o), |c.kinds|;
    var s1 := s.(shell := Take(0), heap := if c.hasState then ReadState(s.heap) else s.heap);
    AfterNext(c, s, a, s1, 2 * n + 7);
    TakeAlone(c, s1, 0, o);
    UsedIs(c, s.res);
    var s2 := s1.(shell := Work, runs := s.runs + 1, res := TakenFrom(c, s.res, 0));
    hide After, TakenFrom, RestoredFrom, UsedAll, AfterWork, DropShellBox, ReadState;
    BackAlone(c, s2, o);
    AfterAdd(c, s1, a, n + 1, n + 6);
  }

  // Were a slot empty when the shell reads it, the shell would count a lost
  // resource, let go of all it holds and park, without running the worker.
  lemma LostAlone(c: Config, s: State, o: Option<nat>)
    requires |s.res| == |c.kinds|
    requires (s.shell.TakeState? && c.hasState && s.heap.stateSlot.None?)
             || (s.shell.Take? && s.shell.next < |c.kinds| && !c.kinds[s.shell.next].Divisible?
                 && s.res[s.shell.next].slot.None?)
    ensures After(c, s, ShellStep(o), 3)
         == Some(s.(shell := Check, node := s.node.(idle := true), lost := s.lost + 1, heap := DropShellBox(s.heap),
                    res := seq(|s.res|, k requires 0 <= k < |s.res| => s.res[k].(held := None))))
  {
    var res := seq(|s.res|, k requires 0 <= k < |s.res| => s.res[k].(held := None));
    var s1 := s.(shell := LostResource);
    var s2 := s.(shell := Park, lost := s.lost + 1, heap := DropShellBox(s.heap), res := res);
    AfterNext(c, s, ShellStep(o), s1, 2);
    AfterNext(c, s1, ShellStep(o), s2, 1);
  }

  // A parked shell sleeps until it is resumed, and goes back to sleep after a
  // resume nobody meant to start it with.
  lemma StaleWake(c: Config, s: State, o: Option<nat>)
    requires |s.res| == |c.kinds| && s.node.idle
    ensures s.shell.Check? ==> Step(c, s, ShellStep(o)) == Some(s.(shell := Wait))
    ensures s.shell.Wait? && !s.node.latch ==> Step(c, s, ShellStep(o)).None?
    ensures s.shell.Wait? && s.node.latch ==>
              After(c, s, ShellStep(o), 2) == Some(s.(node := s.node.(latch := false)))
  {
    if s.shell.Wait? && s.node.latch {
      AfterNext(c, s, ShellStep(o), s.(shell := Check, node := s.node.(latch := false)), 1);
    }
  }

  // --------------------------------------------------------------- outside

  function Provisions(acts: seq<Action>, i: nat, k: nat): nat
    requires k <= |acts|
  {
    if k == 0 then 0
    else Provisions(acts, i, k - 1) + if acts[k - 1].Provide? && acts[k - 1].i == i then 1 else 0
  }

  // A value can be provided at any time, a lent one once, and is then in its
  // slot; so can a recorded exit value be taken, by one waiter.
  lemma OutsideAlone(c: Config, s: State, i: nat, x: nat)
    requires |s.res| == |c.kinds|
    ensures i < |c.kinds| && !(c.kinds[i].Lend? && s.res[i].home.Some?) ==>
              var t := Step(c, s, Provide(i, x));
              && t.Some? && t.value.res[i].slot == Some(x)
              && t.value == s.(res := s.res[i := t.value.res[i]])
    ensures s.exit.slot == Some(x) ==>
              Step(c, s, TakeExit) == Some(s.(exit := Exit(s.exit.out, None, Some(x))))
    ensures s.exit.slot.None? ==> Step(c, s, TakeExit).None?
    ensures Step(c, s, StrayResume) == Some(s.(node := s.node.(latch := true)))
    ensures s.shell.Work? ==> Step(c, s, WorkerResumes) == Some(s.(node := s.node.(latch := false)))
  {
  }

  lemma ProvidedStep(c: Config, s: State, a: Action, i: nat)
    requires |s.res| == |c.kinds| && i < |c.kinds| && Step(c, s, a).Some?
    ensures Step(c, s, a).value.res[i].provided == s.res[i].provided + (if a.Provide? && a.i == i then 1 else 0)
  {
  }

  // Each provide counts once, so the worker of a consumed resource runs no
  // more often than somebody provided it.
  lemma {:induction false} ProvidedCounts(c: Config, trace: seq<State>, acts: seq<Action>, i: nat, k: nat)
    requires Run(c, trace, acts) && k < |trace| && i < |c.kinds|
    ensures trace[k].res[i].provided == Provisions(acts, i, k)
    ensures c.kinds[i].Consume? ==> trace[k].runs <= Provisions(acts, i, k)
  {
    if k > 0 {
      assert Follows(c, trace[k - 1], acts[k - 1], trace[k - 1 + 1]);
      ProvidedCounts(c, trace, acts, i, k - 1);
      ProvidedStep(c, trace[k - 1], acts[k - 1], i);
    }
    if c.kinds[i].Consume? {
      ConsumedOncePerRun(c, trace, acts, i, k);
    }
  }
}
