// Claimant slots of `divisible` budgets and contributor slots of `veto` gates
// (supervisor-macros/src/lib.rs:186-192, 430-493, 1636-1656, 2325-2460, 2601-2690).
module Slots {
  import opened Tokens
  import opened Machine

  // A node takes one slot of each budget or gate it names, a pool one a member.
  datatype Item =
    | Executor
    | Node(name: string, names: seq<string>)
    | Pool(name: string, members: nat, names: seq<string>)

  // One naming of one budget or gate: who, what, how many slots.
  datatype Use = Use(owner: string, what: string, count: nat)

  function Members(item: Item): nat
    requires !item.Executor?
  {
    if item.Pool? then item.members else 1
  }

  function UsesOf(item: Item, n: nat): seq<Use>
    requires item.Executor? || n <= |item.names|
  {
    if item.Executor? then [] else seq(n, k requires 0 <= k < n => Use(item.name, item.names[k], Members(item)))
  }

  function AllUsesOf(item: Item): seq<Use> {
    if item.Executor? then [] else UsesOf(item, |item.names|)
  }

  function Uses(items: seq<Item>): seq<Use> {
    if items == [] then [] else Uses(items[..|items| - 1]) + AllUsesOf(items[|items| - 1])
  }

  // Slots of `what` handed out by these uses.
  function Total(uses: seq<Use>, what: string): nat {
    if uses == [] then 0
    else
      var last := uses[|uses| - 1];
      Total(uses[..|uses| - 1], what) + (if last.what == what then last.count else 0)
  }

  // The first slot of use k: all that earlier uses of the same name took.
  function Base(uses: seq<Use>, k: nat): nat
    requires k < |uses|
  {
    Total(uses[..k], uses[k].what)
  }

  type Bases = map<(string, string), u8>

  // What a plan records is the base of the last use of each (owner, name).
  ghost predicate Records(bases: Bases, uses: seq<Use>) {
    && (forall o, w :: (o, w) in bases ==> exists k :: 0 <= k < |uses| && uses[k].owner == o && uses[k].what == w)
    && (forall k :: 0 <= k < |uses| ==>
          (uses[k].owner, uses[k].what) in bases
          && (LastUse(uses, k) ==> bases[(uses[k].owner, uses[k].what)] as nat == Base(uses, k)))
  }

  ghost predicate LastUse(uses: seq<Use>, k: nat)
    requires k < |uses|
  {
    forall j :: k < j < |uses| ==> uses[j].owner != uses[k].owner || uses[j].what != uses[k].what
  }

  // Every use fits a budget of `limit` slots, and its base a u8.
  ghost predicate Fits(uses: seq<Use>, limit: nat) {
    forall k :: 0 <= k < |uses| ==> Base(uses, k) < 256 && Base(uses, k) + uses[k].count <= limit
  }

  lemma BaseStays(uses: seq<Use>, u: Use, k: nat)
    requires k < |uses|
    ensures Base(uses + [u], k) == Base(uses, k)
  {
    assert (uses + [u])[..k] == uses[..k];
  }

  lemma BaseOfLast(uses: seq<Use>, u: Use)
    ensures Base(uses + [u], |uses|) == Total(uses, u.what)
    ensures forall w :: Total(uses + [u], w) == Total(uses, w) + (if u.what == w then u.count else 0)
  {
    assert (uses + [u])[..|uses|] == uses;
  }

  lemma FitsOn(uses: seq<Use>, u: Use, limit: nat)
    ensures Fits(uses + [u], limit) <==>
            Fits(uses, limit) && Total(uses, u.what) < 256 && Total(uses, u.what) + u.count <= limit
  {
    var next := uses + [u];
    BaseOfLast(uses, u);
    forall k | 0 <= k < |uses|
      ensures Base(next, k) == Base(uses, k) && next[k] == uses[k]
    {
      BaseStays(uses, u, k);
    }
    if Fits(next, limit) {
      assert next[|uses|] == u;
    }
  }

  lemma RecordsOn(bases: Bases, uses: seq<Use>, u: Use, base: u8)
    requires Records(bases, uses) && base as nat == Total(uses, u.what)
    ensures Records(bases[(u.owner, u.what) := base], uses + [u])
  {
    var next := uses + [u];
    var b := bases[(u.owner, u.what) := base];
    BaseOfLast(uses, u);
    assert next[|uses|] == u;
    forall o, w | (o, w) in b
      ensures exists k :: 0 <= k < |next| && next[k].owner == o && next[k].what == w
    {
      if (o, w) != (u.owner, u.what) {
        var k :| 0 <= k < |uses| && uses[k].owner == o && uses[k].what == w;
        assert next[k].owner == o;
      }
    }
    forall k | 0 <= k < |next|
      ensures (next[k].owner, next[k].what) in b
      ensures LastUse(next, k) ==> b[(next[k].owner, next[k].what)] as nat == Base(next, k)
    {
      if k < |uses| {
        BaseStays(uses, u, k);
        if LastUse(next, k) {
          assert next[|uses|].owner != next[k].owner || next[|uses|].what != next[k].what;
          forall j | k < j < |uses|
            ensures uses[j].owner != uses[k].owner || uses[j].what != uses[k].what
          {
            assert next[j] == uses[j];
          }
          assert LastUse(uses, k);
        }
      }
    }
  }

  // What a loop over items and their names has planned after these uses.
  ghost predicate Planned(slots: map<string, nat>, bases: Bases, uses: seq<Use>, limit: nat) {
    && (forall w :: (if w in slots then slots[w] else 0) == Total(uses, w))
    && Records(bases, uses)
    && Fits(uses, limit)
  }

  lemma PlannedOn(slots: map<string, nat>, bases: Bases, uses: seq<Use>, u: Use, limit: nat)
    requires Planned(slots, bases, uses, limit)
    requires Total(uses, u.what) < 256 && Total(uses, u.what) + u.count <= limit
    ensures var t := Total(uses, u.what);
            Planned(slots[u.what := t + u.count], bases[(u.owner, u.what) := t as u8], uses + [u], limit)
  {
    hide Records, Fits, Total;
    BaseOfLast(uses, u);
    FitsOn(uses, u, limit);
    RecordsOn(bases, uses, u, Total(uses, u.what) as u8);
  }

  lemma Lookup(slots: map<string, nat>, bases: Bases, uses: seq<Use>, limit: nat, what: string)
    requires Planned(slots, bases, uses, limit)
    ensures (if what in slots then slots[what] else 0) == Total(uses, what)
  {
  }

  lemma NothingPlanned(limit: nat)
    ensures Planned(map[], map[], [], limit)
  {
  }

  // A use that does not fit now never will.
  lemma Overflows(uses: seq<Use>, u: Use, limit: nat, all: seq<Use>)
    requires uses + [u] <= all
    requires Total(uses, u.what) >= 256 || Total(uses, u.what) + u.count > limit
    ensures !Fits(all, limit)
  {
    FitsOn(uses, u, limit);
    if Fits(all, limit) {
      FitsPrefix(uses + [u], all, limit);
    }
  }

  lemma UsesGrow(items: seq<Item>, i: nat)
    requires i < |items|
    ensures Uses(items[..i + 1]) == Uses(items[..i]) + AllUsesOf(items[i])
  {
    assert items[..i + 1][..i] == items[..i];
  }

  lemma UsesOfNext(item: Item, n: nat)
    requires !item.Executor? && n < |item.names|
    ensures UsesOf(item, n + 1) == UsesOf(item, n) + [Use(item.name, item.names[n], Members(item))]
  {
  }

  lemma {:induction false} UsesPrefix(items: seq<Item>, i: nat)
    requires i <= |items|
    ensures Uses(items[..i]) <= Uses(items)
    decreases |items|
  {
    if i < |items| {
      UsesPrefix(items[..|items| - 1], i);
      assert items[..|items| - 1][..i] == items[..i];
    } else {
      assert items[..i] == items;
    }
  }

  lemma {:induction false} FitsPrefix(a: seq<Use>, b: seq<Use>, limit: nat)
    requires a <= b && Fits(b, limit)
    ensures Fits(a, limit)
  {
    forall k | 0 <= k < |a|
      ensures Base(a, k) == Base(b, k) && a[k] == b[k]
    {
      assert a[..k] == b[..k];
    }
  }

  lemma ItemUses(item: Item)
    ensures item.Executor? ==> AllUsesOf(item) == []
    ensures !item.Executor? ==> UsesOf(item, 0) == [] && UsesOf(item, |item.names|) == AllUsesOf(item)
  {
  }

  // The uses seen so far and the next one are a prefix of all of them.
  lemma NextIsPrefix(items: seq<Item>, i: nat, n: nat)
    requires i < |items| && !items[i].Executor? && n < |items[i].names|
    ensures Uses(items[..i]) + UsesOf(items[i], n + 1) <= Uses(items)
  {
    UsesPrefix(items, i + 1);
    assert items[..i + 1][..i] == items[..i];
    assert UsesOf(items[i], n + 1) <= AllUsesOf(items[i]);
  }

  // supervisor-macros/src/lib.rs:2333-2460: None is the "more than 256
  // claimant slots" error. A base is the running total of its budget.
  method PlanBudgets(items: seq<Item>) returns (r: Option<Bases>, budgets: map<string, nat>)
    ensures r.Some? <==> Fits(Uses(items), 256)
    ensures r.Some? ==> Planned(budgets, r.value, Uses(items), 256)
  {
    hide *;
    budgets := map[];
    var bases: Bases := map[];
    NothingPlanned(256);
    ghost var uses := [];
    NoItems(items);
    for i := 0 to |items|
      invariant uses == Uses(items[..i])
      invariant Planned(budgets, bases, uses, 256)
    {
      UsesGrow(items, i);
      ghost var before := uses;
      if !items[i].Executor? {
        var item := items[i];
        ItemUses(item);
        for n := 0 to |item.names|
          invariant uses == before + UsesOf(item, n)
          invariant Planned(budgets, bases, uses, 256)
        {
          var what := item.names[n];
          var slots := if what in budgets then budgets[what] else 0;
          Lookup(budgets, bases, uses, 256, what);
          var base := TryU8(slots);
          TryU8Exactly(slots);
          ghost var u := Use(item.name, what, Members(item));
          UsesOfNext(item, n);
          NextIsPrefix(items, i, n);
          assert before + UsesOf(item, n + 1) == uses + [u];
          if base.None? || slots + Members(item) > 256 {
            Overflows(uses, u, 256, Uses(items));
            return None, budgets;
          }
          PlannedOn(budgets, bases, uses, u, 256);
          bases := bases[(item.name, what) := base.value];
          budgets := budgets[what := slots + Members(item)];
          uses := uses + [u];
        }
      } else {
        ItemUses(items[i]);
        assert before + AllUsesOf(items[i]) == before;
      }
    }
    assert items[..|items|] == items;
    AllFit(budgets, bases, uses, 256);
    r := Some(bases);
  }

  lemma NoItems(items: seq<Item>)
    ensures Uses(items[..0]) == []
  {
  }

  lemma AllFit(slots: map<string, nat>, bases: Bases, uses: seq<Use>, limit: nat)
    requires Planned(slots, bases, uses, limit)
    ensures Fits(uses, limit)
  {
  }

  datatype VetoError = TwoSpellings | TooManyWriters

  datatype VetoPlan = Plan(bases: Bases, totals: map<string, nat>) | Refused(error: VetoError)

  // Do two uses spell one last segment differently?
  predicate SpelledTwice(uses: seq<Use>, stem: string -> string) {
    exists j, k :: 0 <= j < |uses| && 0 <= k < |uses|
                   && stem(uses[j].what) == stem(uses[k].what) && uses[j].what != uses[k].what
  }

  // supervisor-macros/src/lib.rs:2617-2690. `stem` is a display's last
  // segment with its index.
  method PlanVetoes(items: seq<Item>, stem: string -> string) returns (r: VetoPlan)
    ensures r.Plan? <==> Fits(Uses(items), 32) && !SpelledTwice(Uses(items), stem)
    ensures r.Plan? ==> Planned(r.totals, r.bases, Uses(items), 32)
  {
    hide *;
    var totals: map<string, nat> := map[];
    var bases: Bases := map[];
    var stems: map<string, string> := map[];
    NothingPlanned(32);
    NothingStemmed(stem);
    ghost var uses := [];
    NoItems(items);
    for i := 0 to |items|
      invariant uses == Uses(items[..i])
      invariant Planned(totals, bases, uses, 32) && Stemmed(stems, uses, stem)
    {
      UsesGrow(items, i);
      ghost var before := uses;
      if !items[i].Executor? {
        var item := items[i];
        ItemUses(item);
        for n := 0 to |item.names|
          invariant uses == before + UsesOf(item, n)
          invariant Planned(totals, bases, uses, 32) && Stemmed(stems, uses, stem)
        {
          var what := item.names[n];
          ghost var u := Use(item.name, what, Members(item));
          UsesOfNext(item, n);
          NextIsPrefix(items, i, n);
          assert before + UsesOf(item, n + 1) == uses + [u];
          if stem(what) in stems && stems[stem(what)] != what {
            StemClash(stems, uses, u, stem, Uses(items));
            return Refused(TwoSpellings);
          }
          var total := if what in totals then totals[what] else 0;
          Lookup(totals, bases, uses, 32, what);
          if total + Members(item) > 32 {
            Overflows(uses, u, 32, Uses(items));
            return Refused(TooManyWriters);
          }
          StemmedOn(stems, uses, u, stem);
          stems := stems[stem(what) := what];
          PlannedOn(totals, bases, uses, u, 32);
          AsU8Exactly(total);
          TryU8Exactly(total);
          bases := bases[(item.name, what) := AsU8(total)];
          totals := totals[what := total + Members(item)];
          uses := uses + [u];
        }
      } else {
        ItemUses(items[i]);
        assert before + AllUsesOf(items[i]) == before;
      }
    }
    assert items[..|items|] == items;
    StemmedOnce(stems, uses, stem);
    AllFit(totals, bases, uses, 32);
    r := Plan(bases, totals);
  }

  lemma NothingStemmed(stem: string -> string)
    ensures Stemmed(map[], [], stem)
  {
  }

  ghost predicate Stemmed(stems: map<string, string>, uses: seq<Use>, stem: string -> string) {
    && (forall k :: 0 <= k < |uses| ==> stem(uses[k].what) in stems && stems[stem(uses[k].what)] == uses[k].what)
    && (forall s :: s in stems ==> exists k :: 0 <= k < |uses| && uses[k].what == stems[s] && stem(uses[k].what) == s)
  }

  lemma StemmedOn(stems: map<string, string>, uses: seq<Use>, u: Use, stem: string -> string)
    requires Stemmed(stems, uses, stem)
    requires stem(u.what) in stems ==> stems[stem(u.what)] == u.what
    ensures Stemmed(stems[stem(u.what) := u.what], uses + [u], stem)
  {
    var next, m := uses + [u], stems[stem(u.what) := u.what];
    assert next[|uses|] == u;
    forall s | s in m
      ensures exists k :: 0 <= k < |next| && next[k].what == m[s] && stem(next[k].what) == s
    {
      if s != stem(u.what) {
        var k :| 0 <= k < |uses| && uses[k].what == stems[s] && stem(uses[k].what) == s;
        assert next[k].what == m[s];
      }
    }
  }

  lemma StemClash(stems: map<string, string>, uses: seq<Use>, u: Use, stem: string -> string, all: seq<Use>)
    requires Stemmed(stems, uses, stem) && uses + [u] <= all
    requires stem(u.what) in stems && stems[stem(u.what)] != u.what
    ensures SpelledTwice(all, stem)
  {
    var k :| 0 <= k < |uses| && uses[k].what == stems[stem(u.what)] && stem(uses[k].what) == stem(u.what);
    assert all[k] == (uses + [u])[k] == uses[k];
    assert all[|uses|] == (uses + [u])[|uses|] == u;
  }

  lemma StemmedOnce(stems: map<string, string>, uses: seq<Use>, stem: string -> string)
    requires Stemmed(stems, uses, stem)
    ensures !SpelledTwice(uses, stem)
  {
    forall j, k | 0 <= j < |uses| && 0 <= k < |uses| && stem(uses[j].what) == stem(uses[k].what)
      ensures uses[j].what == uses[k].what
    {
      assert stems[stem(uses[j].what)] == uses[j].what;
      assert stems[stem(uses[k].what)] == uses[k].what;
    }
  }

  // -------------------------------------------------------- emitted slots

  // The slot a holder is emitted with: `u8::try_from(base + offset).expect(..)`.
  // None is the panic.
  function SlotOf(bases: Bases, u: Use, offset: nat): Option<u8>
    requires (u.owner, u.what) in bases
  {
    TryU8(bases[(u.owner, u.what)] as nat + offset)
  }

  // A holder of `what`: the j-th member behind use k.
  predicate Holder(uses: seq<Use>, what: string, k: nat, j: nat) {
    k < |uses| && uses[k].what == what && j < uses[k].count
  }

  ghost predicate Hits(bases: Bases, uses: seq<Use>, what: string, k: nat, j: nat, slot: nat)
    requires Named(bases, uses)
  {
    Holder(uses, what, k, j) && SlotOf(bases, uses[k], j) == TryU8(slot) && slot < 256
  }

  ghost predicate Named(bases: Bases, uses: seq<Use>) {
    forall i :: 0 <= i < |uses| ==> (uses[i].owner, uses[i].what) in bases
  }

  // Exact tiling of one budget or gate: its holders' slots are 0..K, each slot
  // one holder's, each holder one slot.
  ghost predicate Tiles(bases: Bases, uses: seq<Use>, what: string)
    requires Named(bases, uses)
  {
    && (forall k: nat, j: nat :: Holder(uses, what, k, j) ==> Placed(bases, uses, what, k, j))
    && (forall slot: nat :: slot < Total(uses, what) ==> Occupied(bases, uses, what, slot))
    && (forall k: nat, j: nat, k': nat, j': nat, slot: nat ::
          Hits(bases, uses, what, k, j, slot) && Hits(bases, uses, what, k', j', slot) ==> k == k' && j == j')
  }

  ghost predicate Placed(bases: Bases, uses: seq<Use>, what: string, k: nat, j: nat)
    requires Named(bases, uses)
  {
    exists slot: nat :: slot < Total(uses, what) && Hits(bases, uses, what, k, j, slot)
  }

  ghost predicate Occupied(bases: Bases, uses: seq<Use>, what: string, slot: nat)
    requires Named(bases, uses)
  {
    exists k: nat, j: nat :: Hits(bases, uses, what, k, j, slot)
  }

  predicate SameNaming(a: Use, b: Use) { a.owner == b.owner && a.what == b.what }

  // No owner names one again after a naming that has holders.
  predicate HoldersLast(uses: seq<Use>) {
    forall j, k :: 0 <= j < k < |uses| && SameNaming(uses[j], uses[k]) ==> uses[j].count == 0
  }

  // The last use by the owner of use k of what it names: its base is the one
  // that stays recorded.
  function LastOf(uses: seq<Use>, k: nat): (m: nat)
    requires k < |uses|
    ensures k <= m < |uses| && SameNaming(uses[m], uses[k]) && LastUse(uses, m)
  {
    LastFrom(uses, k, |uses| - 1)
  }

  function LastFrom(uses: seq<Use>, k: nat, n: nat): (m: nat)
    requires k <= n < |uses|
    requires forall j :: n < j < |uses| ==> !SameNaming(uses[j], uses[k])
    ensures k <= m <= n && SameNaming(uses[m], uses[k])
    ensures forall j :: m < j < |uses| ==> !SameNaming(uses[j], uses[k])
  {
    if SameNaming(uses[n], uses[k]) then n else LastFrom(uses, k, n - 1)
  }

  lemma RecordedBase(bases: Bases, uses: seq<Use>, k: nat)
    requires Records(bases, uses) && k < |uses|
    ensures (uses[k].owner, uses[k].what) in bases
    ensures bases[(uses[k].owner, uses[k].what)] as nat == Base(uses, LastOf(uses, k))
  {
    var m := LastOf(uses, k);
    assert LastUse(uses, m);
  }

  // What a holder is emitted with: the base of its owner's last naming plus
  // its offset, untruncated, or else the `expect` fires.
  lemma SlotIsExact(bases: Bases, uses: seq<Use>, k: nat, j: nat)
    requires Records(bases, uses) && k < |uses|
    ensures (uses[k].owner, uses[k].what) in bases
    ensures var n := Base(uses, LastOf(uses, k)) + j;
            && SlotOf(bases, uses[k], j) == (if n < 256 then Some(AsU8(n)) else None)
            && (n < 256 ==> AsU8(n) as nat == n)
  {
    RecordedBase(bases, uses, k);
    AsU8Exactly(Base(uses, LastOf(uses, k)) + j);
    hide Records, Base, LastOf, AsU8;
  }

  ghost predicate NoPanic(bases: Bases, uses: seq<Use>)
    requires Named(bases, uses)
  {
    forall k :: 0 <= k < |uses| ==> AllEmitted(bases, uses[k])
  }

  // Every holder of a use is emitted: no `expect` fires for it.
  ghost predicate AllEmitted(bases: Bases, u: Use)
    requires (u.owner, u.what) in bases
  {
    forall j: nat :: j < u.count ==> SlotOf(bases, u, j).Some?
  }

  // The base a use is emitted from leaves room for its holders.
  predicate Roomy(uses: seq<Use>, k: nat)
    requires k < |uses|
  {
    uses[k].count == 0 || Base(uses, LastOf(uses, k)) + uses[k].count <= 256
  }

  lemma EmittedExactly(bases: Bases, uses: seq<Use>, k: nat)
    requires Records(bases, uses) && k < |uses|
    ensures (uses[k].owner, uses[k].what) in bases
    ensures AllEmitted(bases, uses[k]) <==> Roomy(uses, k)
  {
    hide Records, SlotOf, LastOf, Base;
    var u := uses[k];
    forall j: nat
      ensures (u.owner, u.what) in bases
      ensures SlotOf(bases, u, j).Some? <==> Base(uses, LastOf(uses, k)) + j < 256
    {
      SlotIsExact(bases, uses, k, j);
    }
    SlotIsExact(bases, uses, k, 0);
    if AllEmitted(bases, u) && u.count > 0 {
      assert SlotOf(bases, u, u.count - 1).Some?;
    }
  }

  // No `expect` fires exactly when every use has room after its owner's last
  // naming. That each use had room after its own base is what was checked.
  lemma PanicsExactly(bases: Bases, uses: seq<Use>)
    requires Records(bases, uses)
    ensures Named(bases, uses)
    ensures NoPanic(bases, uses) <==> forall k :: 0 <= k < |uses| ==> Roomy(uses, k)
  {
    hide Records, AllEmitted, Roomy;
    forall k | 0 <= k < |uses|
      ensures (uses[k].owner, uses[k].what) in bases
      ensures AllEmitted(bases, uses[k]) <==> Roomy(uses, k)
    {
      EmittedExactly(bases, uses, k);
    }
  }

  // An owner's namings of one thing are for the same number of holders.
  predicate EvenCounts(uses: seq<Use>) {
    forall j, k :: 0 <= j < k < |uses| && SameNaming(uses[j], uses[k]) ==> uses[j].count == uses[k].count
  }

  // Then the planning check is enough, however often an owner names one, and
  // every slot is within the emitted total.
  lemma EvenCountsNeverPanic(bases: Bases, uses: seq<Use>, limit: nat)
    requires Records(bases, uses) && Fits(uses, limit) && limit <= 256 && EvenCounts(uses)
    ensures Named(bases, uses) && NoPanic(bases, uses)
    ensures forall k :: 0 <= k < |uses| ==>
              Base(uses, LastOf(uses, k)) + uses[k].count <= Total(uses, uses[k].what) <= limit
  {
    PanicsExactly(bases, uses);
    hide Records, NoPanic, Base, Total;
    forall k | 0 <= k < |uses|
      ensures Base(uses, LastOf(uses, k)) + uses[k].count <= Total(uses, uses[k].what) <= limit
    {
      var m := LastOf(uses, k);
      assert k == m || uses[k].count == uses[m].count;
      BaseWithinTotal(uses, m);
      TotalFits(uses, limit, uses[k].what);
    }
  }

  // A gate's 32 contributors leave so much room that none can fire there.
  lemma SmallLimitsNeverPanic(bases: Bases, uses: seq<Use>, limit: nat)
    requires Records(bases, uses) && Fits(uses, limit) && limit <= 128
    ensures Named(bases, uses) && NoPanic(bases, uses)
  {
    PanicsExactly(bases, uses);
    forall k | 0 <= k < |uses|
      ensures Roomy(uses, k)
    {
      assert Base(uses, k) + uses[k].count <= limit;
      assert Base(uses, LastOf(uses, k)) + uses[LastOf(uses, k)].count <= limit;
    }
  }

  // ------------------------------------------------ items of distinct names

  predicate DistinctNames(items: seq<Item>) {
    forall j, k :: 0 <= j < k < |items| ==>
      items[j].Executor? || items[k].Executor? || items[j].name != items[k].name
  }

  // Every use is its item's, and counts that item's members.
  lemma {:induction false} UseHasItem(items: seq<Item>, u: nat) returns (k: nat)
    requires u < |Uses(items)|
    ensures k < |items| && !items[k].Executor?
    ensures Uses(items)[u].owner == items[k].name && Uses(items)[u].count == Members(items[k])
  {
    var front := items[..|items| - 1];
    if u < |Uses(front)| {
      k := UseHasItem(front, u);
    } else {
      k := |items| - 1;
    }
  }

  // So with distinct item names no `expect` fires, repeated names or not.
  lemma DistinctNamesNeverPanic(bases: Bases, items: seq<Item>, limit: nat)
    requires DistinctNames(items) && Records(bases, Uses(items)) && Fits(Uses(items), limit) && limit <= 256
    ensures Named(bases, Uses(items)) && NoPanic(bases, Uses(items))
  {
    var uses := Uses(items);
    hide Uses, Records, Fits, NoPanic, Named;
    forall j, k | 0 <= j < k < |uses| && SameNaming(uses[j], uses[k])
      ensures uses[j].count == uses[k].count
    {
      var a := UseHasItem(items, j);
      var b := UseHasItem(items, k);
      assert a == b;
    }
    EvenCountsNeverPanic(bases, uses, limit);
  }

  // A pool and a later node of one name each naming a budget once: 201 slots
  // fit, so the plan goes through, and the pool's last member then panics
  // before the repeated name is reported.
  lemma SameNamePanics(bases: Bases)
    ensures Fits(Uses([Pool("X", 200, ["B"]), Node("X", ["B"])]), 256)
    ensures Records(bases, Uses([Pool("X", 200, ["B"]), Node("X", ["B"])])) ==>
              ("X", "B") in bases && SlotOf(bases, Use("X", "B", 200), 199).None?
  {
    var items := [Pool("X", 200, ["B"]), Node("X", ["B"])];
    var pool, node := Use("X", "B", 200), Use("X", "B", 1);
    var uses := [pool, node];
    assert Uses(items) == uses by {
      assert items[..1] == [items[0]] && items[..1][..0] == [];
      assert Members(items[0]) == 200 && Members(items[1]) == 1;
      assert AllUsesOf(items[0])[0] == pool && AllUsesOf(items[1])[0] == node;
      assert AllUsesOf(items[0]) == [pool] && AllUsesOf(items[1]) == [node];
      assert Uses(items[..1]) == [] + [pool];
    }
    assert uses[..0] == [] && uses[..1] == [pool] && [pool][..0] == [];
    assert Base(uses, 0) == 0 && Base(uses, 1) == 200;
    if Records(bases, uses) {
      assert LastUse(uses, 1);
      assert uses[1].owner == "X" && uses[1].what == "B";
    }
  }

  // ----------------------------------------------------------------- tiling

  lemma {:induction false} TotalMonotone(uses: seq<Use>, what: string, a: nat, b: nat)
    requires a <= b <= |uses|
    ensures Total(uses[..a], what) <= Total(uses[..b], what)
    ensures a < b && uses[a].what == what ==> Total(uses[..a], what) + uses[a].count <= Total(uses[..b], what)
  {
    if a < b {
      TotalMonotone(uses, what, a, b - 1);
      assert uses[..b][..b - 1] == uses[..b - 1];
    }
  }

  lemma {:induction false} SlotHasHolder(uses: seq<Use>, what: string, slot: nat, n: nat) returns (k: nat, j: nat)
    requires n <= |uses| && slot < Total(uses[..n], what)
    ensures k < n && Holder(uses, what, k, j) && Base(uses, k) + j == slot
    decreases n
  {
    var before := Total(uses[..n - 1], what);
    assert uses[..n][..n - 1] == uses[..n - 1];
    if slot < before {
      k, j := SlotHasHolder(uses, what, slot, n - 1);
    } else {
      k, j := n - 1, slot - before;
    }
  }

  lemma {:induction false} TotalFits(uses: seq<Use>, limit: nat, what: string)
    requires Fits(uses, limit)
    ensures Total(uses, what) <= limit
  {
    if uses != [] {
      var front, last := uses[..|uses| - 1], uses[|uses| - 1];
      assert uses == front + [last];
      FitsOn(front, last, limit);
      TotalFits(front, limit, what);
    }
  }

  lemma BaseWithinTotal(uses: seq<Use>, k: nat)
    requires k < |uses|
    ensures Base(uses, k) + uses[k].count <= Total(uses, uses[k].what)
  {
    TotalMonotone(uses, uses[k].what, k, |uses|);
    assert uses[..|uses|] == uses;
  }

  lemma TryU8Is(n: nat, slot: nat)
    requires slot < 256
    ensures (if n < 256 then Some(AsU8(n)) else None) == TryU8(slot) <==> n == slot
  {
  }

  // Which slot a holder hits: the one its owner's last naming makes it.
  lemma HitsExactly(bases: Bases, uses: seq<Use>, what: string, k: nat, j: nat, slot: nat)
    requires Records(bases, uses) && slot < 256
    ensures Named(bases, uses)
    ensures Hits(bases, uses, what, k, j, slot) <==> Holder(uses, what, k, j) && Base(uses, LastOf(uses, k)) + j == slot
  {
    assert Named(bases, uses);
    hide Records, Base, LastOf, Named, AsU8, TryU8, SlotOf;
    if Holder(uses, what, k, j) {
      SlotIsExact(bases, uses, k, j);
      TryU8Is(Base(uses, LastOf(uses, k)) + j, slot);
    }
  }

  lemma HolderIsLast(uses: seq<Use>, k: nat)
    requires HoldersLast(uses) && k < |uses| && uses[k].count > 0
    ensures LastOf(uses, k) == k
  {
  }

  // Where a holder of a last naming stands.
  lemma HolderPlace(uses: seq<Use>, limit: nat, what: string, k: nat, j: nat)
    requires Fits(uses, limit) && HoldersLast(uses) && Holder(uses, what, k, j)
    ensures Base(uses, LastOf(uses, k)) == Base(uses, k) && Base(uses, k) + j < Total(uses, what) <= limit
  {
    HolderIsLast(uses, k);
    BaseWithinTotal(uses, k);
    TotalFits(uses, limit, what);
  }

  lemma TilesWhenLast(bases: Bases, uses: seq<Use>, limit: nat, what: string)
    requires Records(bases, uses) && Fits(uses, limit) && limit <= 256 && HoldersLast(uses)
    ensures Named(bases, uses) && Tiles(bases, uses, what)
  {
    assert Named(bases, uses);
    hide Hits, Fits, HoldersLast, Records, Named, Total, Base, LastOf;
    forall k: nat, j: nat | Holder(uses, what, k, j)
      ensures Placed(bases, uses, what, k, j)
    {
      HolderPlace(uses, limit, what, k, j);
      HitsExactly(bases, uses, what, k, j, Base(uses, k) + j);
    }
    forall slot: nat | slot < Total(uses, what)
      ensures Occupied(bases, uses, what, slot)
    {
      assert uses[..|uses|] == uses;
      var k, j := SlotHasHolder(uses, what, slot, |uses|);
      HolderPlace(uses, limit, what, k, j);
      HitsExactly(bases, uses, what, k, j, slot);
    }
    forall k: nat, j: nat, k': nat, j': nat, slot: nat
      | Hits(bases, uses, what, k, j, slot) && Hits(bases, uses, what, k', j', slot)
      ensures k == k' && j == j'
    {
      HitsApart(bases, uses, limit, what, k, j, k', j', slot);
    }
  }

  lemma HitsApart(bases: Bases, uses: seq<Use>, limit: nat, what: string, k: nat, j: nat, k': nat, j': nat, slot: nat)
    requires Records(bases, uses) && Fits(uses, limit) && HoldersLast(uses) && Named(bases, uses)
    requires Hits(bases, uses, what, k, j, slot) && Hits(bases, uses, what, k', j', slot)
    ensures k == k' && j == j'
  {
    HitsExactly(bases, uses, what, k, j, slot);
    HitsExactly(bases, uses, what, k', j', slot);
    HolderPlace(uses, limit, what, k, j);
    HolderPlace(uses, limit, what, k', j');
    hide Records, Fits, HoldersLast, Named, Hits, Total, LastOf;
    if k < k' {
      TotalMonotone(uses, what, k, k');
    } else if k' < k {
      TotalMonotone(uses, what, k', k);
    }
  }

  // Exactly when every budget and gate is tiled: no owner names one again
  // after a naming with holders. A node's list is checked for repeats when it
  // is parsed; a pool's `resources:` is not, nor, yet, are item names.
  lemma TilingExactly(bases: Bases, uses: seq<Use>, limit: nat)
    requires Records(bases, uses) && Fits(uses, limit) && limit <= 256
    ensures Named(bases, uses)
    ensures (forall what :: Tiles(bases, uses, what)) <==> HoldersLast(uses)
  {
    assert Named(bases, uses);
    hide Tiles, Named, Records, Fits;
    if HoldersLast(uses) {
      forall what
        ensures Tiles(bases, uses, what)
      {
        TilesWhenLast(bases, uses, limit, what);
      }
    } else {
      var k := FirstMoved(uses);
      LeavesAGap(bases, uses, limit, k);
    }
  }

  lemma FirstMoved(uses: seq<Use>) returns (k: nat)
    requires !HoldersLast(uses)
    ensures k < |uses| && uses[k].count > 0 && LastOf(uses, k) > k
    ensures forall i :: 0 <= i < k && uses[i].count > 0 ==> LastOf(uses, i) == i
  {
    var a, b :| 0 <= a < b < |uses| && SameNaming(uses[a], uses[b]) && uses[a].count > 0;
    assert LastOf(uses, a) >= b;
    k := 0;
    while uses[k].count == 0 || LastOf(uses, k) == k
      invariant k <= a
      invariant forall i :: 0 <= i < k && uses[i].count > 0 ==> LastOf(uses, i) == i
      decreases a - k
    {
      k := k + 1;
    }
  }

  // The first naming whose base was overwritten leaves its own first slot to
  // nobody: earlier holders stand below it, later ones above.
  lemma LeavesAGap(bases: Bases, uses: seq<Use>, limit: nat, k: nat)
    requires Records(bases, uses) && Fits(uses, limit) && limit <= 256
    requires k < |uses| && uses[k].count > 0 && LastOf(uses, k) > k
    requires forall i :: 0 <= i < k && uses[i].count > 0 ==> LastOf(uses, i) == i
    ensures Named(bases, uses) && !Tiles(bases, uses, uses[k].what)
  {
    assert Named(bases, uses);
    hide Records, Fits, Hits, Named, Total, Base, LastOf;
    var what, gap := uses[k].what, Base(uses, k);
    BaseWithinTotal(uses, k);
    TotalFits(uses, limit, what);
    forall i: nat, j: nat
      ensures !Hits(bases, uses, what, i, j, gap)
    {
      HitsExactly(bases, uses, what, i, j, gap);
      if Holder(uses, what, i, j) {
        MissesGap(uses, k, i, j);
      }
    }
    assert !Occupied(bases, uses, what, gap);
  }

  lemma MissesGap(uses: seq<Use>, k: nat, i: nat, j: nat)
    requires k < |uses| && uses[k].count > 0 && LastOf(uses, k) > k
    requires i < k && uses[i].count > 0 ==> LastOf(uses, i) == i
    requires i < |uses| && Holder(uses, uses[k].what, i, j)
    ensures Base(uses, LastOf(uses, i)) + j != Base(uses, k)
  {
    var what, m := uses[k].what, LastOf(uses, i);
    assert uses[m].what == what;
    if i < k {
      TotalMonotone(uses, what, i, k);
    } else {
      TotalMonotone(uses, what, k, m);
    }
  }

  // Two uses by one owner share their first slot.
  lemma SharedSlot(bases: Bases, uses: seq<Use>, j: nat, k: nat)
    requires Named(bases, uses) && j < k < |uses|
    requires SameNaming(uses[j], uses[k]) && uses[j].count > 0 && uses[k].count > 0
    ensures !Tiles(bases, uses, uses[k].what)
  {
    var slot := bases[(uses[k].owner, uses[k].what)] as nat;
    var what := uses[k].what;
    hide Total;
    assert Hits(bases, uses, what, j, 0, slot);
    assert Hits(bases, uses, what, k, 0, slot);
  }

  // A pool of two that names one budget twice holds two of its four slots.
  lemma NamedTwiceMissesSlots(bases: Bases, budgets: map<string, nat>)
    requires Planned(budgets, bases, Uses([Pool("P", 2, ["B", "B"])]), 256)
    ensures "B" in budgets && budgets["B"] == 4
    ensures ("P", "B") in bases && bases[("P", "B")] == 2
  {
    var item := Pool("P", 2, ["B", "B"]);
    var u := Use("P", "B", 2);
    var uses := [u, u];
    assert Uses([item]) == uses by {
      assert [item][..0] == [];
      assert item.names[0] == "B" && item.names[1] == "B" && Members(item) == 2;
      assert AllUsesOf(item) == uses;
      assert [] + uses == uses;
    }
    assert uses[..1] == [u] && [u][..0] == [];
    assert Total([u], "B") == 2;
    assert Total(uses, "B") == 4;
    Lookup(budgets, bases, uses, 256, "B");
    assert LastUse(uses, 1);
    assert Base(uses, 1) == 2;
  }
}
