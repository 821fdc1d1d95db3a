// `#[dataflow]` and `#[dataflow_bundle]`: the coupling tables derived from the
// calls a body makes, and the index baked into each call
// (supervisor-macros/src/lib.rs:2978-3300).
module Dataflow {
  import opened Tokens
  import opened Cfg
  import opened Walker
  import opened Splice
  import WalkLaws

  datatype Entry = Entry(path: string, target: seq<Token>, alts: seq<seq<Raw>>)

  // One access to be recorded: a call, under its own and its fn's predicates.
  datatype Access = Access(path: string, target: seq<Token>, cfgs: seq<Raw>)

  function Conjunct(alt: seq<Raw>): Pred {
    if |alt| == 1 then Atom(alt[0]) else All(Atoms(alt))
  }

  function Atoms(alt: seq<Raw>): seq<Pred> {
    seq(|alt|, k requires 0 <= k < |alt| => Atom(alt[k]))
  }

  // None is an unconditional entry.
  function DerivedPredicate(alts: seq<seq<Raw>>): Option<Pred> {
    if exists k :: 0 <= k < |alts| && alts[k] == [] then None
    else if |alts| == 0 then None
    else if |alts| == 1 then Some(Conjunct(alts[0]))
    else Some(Any(seq(|alts|, k requires 0 <= k < |alts| => Conjunct(alts[k]))))
  }

  // The attributes an entry is emitted under.
  function EntryAttrs(e: Entry): seq<Pred> {
    match DerivedPredicate(e.alts)
    case None => []
    case Some(p) => [p]
  }

  function DerivedPrefixExpr(entries: seq<Entry>): LenExpr {
    CfgAwareLen(seq(|entries|, k requires 0 <= k < |entries| => EntryAttrs(entries[k])))
  }

  function Position(list: seq<Entry>, path: string): (k: Option<nat>)
    ensures k.Some? ==> k.value < |list| && list[k.value].path == path
    ensures k.Some? ==> forall j :: 0 <= j < k.value ==> list[j].path != path
    ensures k.None? ==> forall j :: 0 <= j < |list| ==> list[j].path != path
  {
    if list == [] then None
    else if list[0].path == path then Some(0)
    else
      match Position(list[1..], path)
      case None => None
      case Some(k) => assert forall j :: 0 < j < |list| ==> list[j] == list[1..][j - 1]; Some(k + 1)
  }

  // ------------------------------------------------------------ the tables

  // The entries of a table that a build compiles in, in table order.
  function Surviving(list: seq<Entry>, v: Build): seq<Entry> {
    if list == [] then []
    else (if Kept(EntryAttrs(list[0]), v) then [list[0]] else []) + Surviving(list[1..], v)
  }

  ghost predicate HasAlt(list: seq<Entry>, a: Access) {
    exists k :: 0 <= k < |list| && list[k].path == a.path && a.cfgs in list[k].alts
  }

  ghost predicate Noted(accesses: seq<Access>, path: string, alt: seq<Raw>) {
    exists j :: 0 <= j < |accesses| && accesses[j].path == path && accesses[j].cfgs == alt
  }

  // The target named by the first access of a path.
  ghost predicate FirstTarget(accesses: seq<Access>, path: string, target: seq<Token>) {
    exists j :: 0 <= j < |accesses| && IsFirst(accesses, path, j) && accesses[j].target == target
  }

  predicate IsFirst(accesses: seq<Access>, path: string, j: nat)
    requires j < |accesses|
  {
    accesses[j].path == path && forall i :: 0 <= i < j ==> accesses[i].path != path
  }

  // A table tells neither more nor less than the accesses it was derived from:
  // one entry a path, for the target its first access named, its alternatives
  // the predicate lists under which that path was accessed, each once.
  ghost predicate Summarizes(list: seq<Entry>, accesses: seq<Access>) {
    && Distinct(list)
    && (forall k :: 0 <= k < |list| ==> Backed(list[k], accesses))
    && (forall j :: 0 <= j < |accesses| ==> HasAlt(list, accesses[j]))
  }

  predicate Distinct(list: seq<Entry>) {
    forall j, k :: 0 <= j < k < |list| ==> list[j].path != list[k].path
  }

  predicate DistinctAlts(alts: seq<seq<Raw>>) {
    forall i, j :: 0 <= i < j < |alts| ==> alts[i] != alts[j]
  }

  ghost predicate Backed(e: Entry, accesses: seq<Access>) {
    && |e.alts| > 0 && DistinctAlts(e.alts)
    && FirstTarget(accesses, e.path, e.target)
    && (forall alt :: alt in e.alts ==> Noted(accesses, e.path, alt))
  }

  lemma FirstStays(accesses: seq<Access>, a: Access, path: string, target: seq<Token>)
    requires FirstTarget(accesses, path, target)
    ensures FirstTarget(accesses + [a], path, target)
  {
    var more := accesses + [a];
    assert forall j :: 0 <= j < |accesses| ==> more[j] == accesses[j];
    var t :| 0 <= t < |accesses| && IsFirst(accesses, path, t) && accesses[t].target == target;
    assert IsFirst(more, path, t) && more[t].target == target;
  }

  lemma FirstHere(accesses: seq<Access>, a: Access)
    requires forall j :: 0 <= j < |accesses| ==> accesses[j].path != a.path
    ensures FirstTarget(accesses + [a], a.path, a.target)
  {
    var more := accesses + [a];
    assert IsFirst(more, a.path, |accesses|) && more[|accesses|].target == a.target;
  }

  lemma NotedStays(accesses: seq<Access>, a: Access, path: string, alt: seq<Raw>)
    requires Noted(accesses, path, alt) || (path == a.path && alt == a.cfgs)
    ensures Noted(accesses + [a], path, alt)
  {
    var more := accesses + [a];
    if Noted(accesses, path, alt) {
      var j :| 0 <= j < |accesses| && accesses[j].path == path && accesses[j].cfgs == alt;
      assert more[j].cfgs == alt;
    } else {
      assert more[|accesses|].cfgs == alt;
    }
  }

  lemma BackedStays(e: Entry, accesses: seq<Access>, a: Access)
    requires Backed(e, accesses)
    ensures Backed(e, accesses + [a])
  {
    hide FirstTarget, Noted;
    FirstStays(accesses, a, e.path, e.target);
    forall alt | alt in e.alts
      ensures Noted(accesses + [a], e.path, alt)
    {
      NotedStays(accesses, a, e.path, alt);
    }
  }

  // The entry the new access lands in, fresh or with alternatives so far.
  lemma BackedHere(e: Entry, accesses: seq<Access>, a: Access)
    requires e.path == a.path && a.cfgs in e.alts && DistinctAlts(e.alts)
    requires FirstTarget(accesses + [a], e.path, e.target)
    requires forall alt :: alt in e.alts ==> alt == a.cfgs || Noted(accesses, e.path, alt)
    ensures Backed(e, accesses + [a])
  {
    hide FirstTarget, Noted;
    forall alt | alt in e.alts
      ensures Noted(accesses + [a], e.path, alt)
    {
      NotedStays(accesses, a, e.path, alt);
    }
  }

  lemma BackedMore(was: Entry, e: Entry, accesses: seq<Access>, a: Access)
    requires Backed(was, accesses) && was.path == a.path
    requires e.path == was.path && e.target == was.target
    requires if a.cfgs in was.alts then e.alts == was.alts else e.alts == was.alts + [a.cfgs]
    ensures Backed(e, accesses + [a]) && a.cfgs in e.alts && was.alts <= e.alts
  {
    hide FirstTarget, Noted;
    assert a.cfgs in e.alts;
    FirstStays(accesses, a, e.path, e.target);
    BackedHere(e, accesses, a);
  }

  // A path without an entry was never accessed.
  lemma Unlisted(list: seq<Entry>, accesses: seq<Access>, path: string)
    requires forall j :: 0 <= j < |accesses| ==> HasAlt(list, accesses[j])
    requires forall j :: 0 <= j < |list| ==> list[j].path != path
    ensures forall j :: 0 <= j < |accesses| ==> accesses[j].path != path
  {
    forall j | 0 <= j < |accesses|
      ensures accesses[j].path != path
    {
      assert HasAlt(list, accesses[j]);
    }
  }

  // An entry that keeps its path and its alternatives keeps what it covers.
  lemma CoverStays(list: seq<Entry>, next: seq<Entry>, accesses: seq<Access>, a: Access)
    requires forall j :: 0 <= j < |accesses| ==> HasAlt(list, accesses[j])
    requires |list| <= |next|
    requires forall k :: 0 <= k < |list| ==> next[k].path == list[k].path && list[k].alts <= next[k].alts
    requires HasAlt(next, a)
    ensures forall j :: 0 <= j < |accesses + [a]| ==> HasAlt(next, (accesses + [a])[j])
  {
    forall j | 0 <= j < |accesses|
      ensures HasAlt(next, accesses[j])
    {
      assert HasAlt(list, accesses[j]);
      var m :| 0 <= m < |list| && list[m].path == accesses[j].path && accesses[j].cfgs in list[m].alts;
      assert next[m].path == accesses[j].path && accesses[j].cfgs in next[m].alts;
    }
  }

  lemma CoversHere(list: seq<Entry>, a: Access, k: nat)
    requires k < |list| && list[k].path == a.path && a.cfgs in list[k].alts
    ensures HasAlt(list, a)
  {
  }

  lemma DistinctStays(list: seq<Entry>, next: seq<Entry>)
    requires Distinct(list) && |next| <= |list| + 1
    requires forall k :: 0 <= k < |next| && k < |list| ==> next[k].path == list[k].path
    requires |next| > |list| ==> forall k :: 0 <= k < |list| ==> list[k].path != next[|list|].path
    ensures Distinct(next)
  {
  }

  lemma RecordsAgain(list: seq<Entry>, accesses: seq<Access>, a: Access, k: nat, e: Entry)
    requires Summarizes(list, accesses)
    requires k < |list| && list[k].path == a.path
    requires e.path == list[k].path && e.target == list[k].target
    requires if a.cfgs in list[k].alts then e.alts == list[k].alts else e.alts == list[k].alts + [a.cfgs]
    ensures Summarizes(list[k := e], accesses + [a])
  {
    hide Backed, HasAlt, Distinct;
    BackedMore(list[k], e, accesses, a);
    var next := list[k := e];
    CoversHere(next, a, k);
    CoverStays(list, next, accesses, a);
    DistinctStays(list, next);
    forall j | 0 <= j < |next|
      ensures Backed(next[j], accesses + [a])
    {
      if j != k {
        BackedStays(list[j], accesses, a);
      }
    }
  }

  lemma RecordsFirst(list: seq<Entry>, accesses: seq<Access>, a: Access)
    requires Summarizes(list, accesses)
    requires forall j :: 0 <= j < |list| ==> list[j].path != a.path
    ensures Summarizes(list + [Entry(a.path, a.target, [a.cfgs])], accesses + [a])
  {
    hide Backed, HasAlt, Distinct, FirstTarget;
    var e := Entry(a.path, a.target, [a.cfgs]);
    var next := list + [e];
    Unlisted(list, accesses, a.path);
    FirstHere(accesses, a);
    BackedHere(e, accesses, a);
    CoversHere(next, a, |list|);
    CoverStays(list, next, accesses, a);
    DistinctStays(list, next);
    forall j | 0 <= j < |next|
      ensures Backed(next[j], accesses + [a])
    {
      if j < |list| {
        BackedStays(list[j], accesses, a);
      }
    }
  }

  // A mutable table under construction.
  class Derived {
    var entries: seq<Entry>
    ghost var accesses: seq<Access>

    ghost predicate Valid()
      reads this
    {
      Summarizes(entries, accesses)
    }

    constructor ()
      ensures Valid() && entries == [] && accesses == []
    {
      entries, accesses := [], [];
    }

    // supervisor-macros/src/lib.rs:3139-3166
    method Record(a: Access) returns (k: nat)
      requires Valid()
      modifies this
      ensures Valid() && accesses == old(accesses) + [a]
      ensures k < |entries| && entries[k].path == a.path
      // An entry never moves, and is only added at the end.
      ensures |old(entries)| <= |entries| <= |old(entries)| + 1
      ensures forall j :: 0 <= j < |old(entries)| ==>
                entries[j].path == old(entries)[j].path && old(entries)[j].alts <= entries[j].alts
    {
      hide Summarizes, Position;
      match Position(entries, a.path) {
        case Some(at) =>
          k := at;
          var alts := entries[k].alts;
          if a.cfgs !in alts {
            alts := alts + [a.cfgs];
          }
          var e := entries[k].(alts := alts);
          RecordsAgain(entries, accesses, a, k, e);
          entries := entries[k := e];
        case None =>
          k := |entries|;
          RecordsFirst(entries, accesses, a);
          entries := entries + [Entry(a.path, a.target, [a.cfgs])];
      }
      accesses := accesses + [a];
    }
  }

  // ------------------------------------------------- what a table comes to

  lemma ConjunctMeaning(alt: seq<Raw>, v: Build)
    ensures Holds(Conjunct(alt), v) <==> Live(alt, v)
  {
    if |alt| != 1 {
      assert forall k :: 0 <= k < |alt| ==> Atoms(alt)[k] == Atom(alt[k]);
    }
  }

  ghost predicate AnyLive(alts: seq<seq<Raw>>, v: Build) {
    exists k :: 0 <= k < |alts| && Live(alts[k], v)
  }

  // An entry is compiled in exactly when one of its alternatives holds.
  lemma EntryKept(e: Entry, v: Build)
    requires |e.alts| > 0
    ensures Kept(EntryAttrs(e), v) <==> AnyLive(e.alts, v)
  {
    forall k | 0 <= k < |e.alts|
      ensures Holds(Conjunct(e.alts[k]), v) <==> Live(e.alts[k], v)
    {
      ConjunctMeaning(e.alts[k], v);
    }
    match DerivedPredicate(e.alts)
    case None =>
      var k :| 0 <= k < |e.alts| && e.alts[k] == [];
      assert Live(e.alts[k], v);
    case Some(p) =>
      assert EntryAttrs(e) == [p];
      assert Kept([p], v) <==> Holds(p, v) by {
        assert [p][0] == p;
      }
      if |e.alts| == 1 {
        assert AnyLive(e.alts, v) <==> Live(e.alts[0], v);
      } else {
        var all := seq(|e.alts|, k requires 0 <= k < |e.alts| => Conjunct(e.alts[k]));
        assert p == Any(all);
        assert forall k :: 0 <= k < |e.alts| ==> all[k] == Conjunct(e.alts[k]);
      }
  }

  lemma {:induction false} SurvivingSplit(a: seq<Entry>, b: seq<Entry>, v: Build)
    ensures Surviving(a + b, v) == Surviving(a, v) + Surviving(b, v)
  {
    hide Kept, EntryAttrs;
    if a == [] {
      assert a + b == b;
    } else {
      var head := if Kept(EntryAttrs(a[0]), v) then [a[0]] else [];
      assert (a + b)[1..] == a[1..] + b;
      SurvivingSplit(a[1..], b, v);
      assert Surviving(a + b, v) == head + (Surviving(a[1..], v) + Surviving(b, v));
    }
  }

  lemma {:induction false} SurvivingCount(list: seq<Entry>, v: Build)
    ensures KeptCount(seq(|list|, k requires 0 <= k < |list| => EntryAttrs(list[k])), v) == |Surviving(list, v)|
  {
    if list != [] {
      var attrs := seq(|list|, k requires 0 <= k < |list| => EntryAttrs(list[k]));
      var rest := list[1..];
      assert attrs[1..] == seq(|rest|, k requires 0 <= k < |rest| => EntryAttrs(rest[k]));
      SurvivingCount(rest, v);
    }
  }

  // A table's emitted length is the number of entries that survive.
  lemma PrefixExprCounts(list: seq<Entry>, v: Build)
    ensures Eval(DerivedPrefixExpr(list), v) == |Surviving(list, v)|
  {
    CfgAwareLenCounts(seq(|list|, k requires 0 <= k < |list| => EntryAttrs(list[k])), v);
    SurvivingCount(list, v);
  }

  // The prefix expression of a surviving entry is its place in the build's table.
  lemma PrefixIsPlace(list: seq<Entry>, k: nat, v: Build)
    requires k < |list| && Kept(EntryAttrs(list[k]), v)
    ensures var at := Eval(DerivedPrefixExpr(list[..k]), v);
            at < |Surviving(list, v)| && Surviving(list, v)[at] == list[k]
  {
    PrefixExprCounts(list[..k], v);
    assert list == list[..k] + list[k..];
    SurvivingSplit(list[..k], list[k..], v);
  }

  lemma {:induction false} SurvivingFrom(list: seq<Entry>, v: Build, s: nat) returns (k: nat)
    requires s < |Surviving(list, v)|
    ensures k < |list| && list[k] == Surviving(list, v)[s] && Kept(EntryAttrs(list[k]), v)
  {
    var here := if Kept(EntryAttrs(list[0]), v) then 1 else 0;
    if s < here {
      k := 0;
    } else {
      var r := SurvivingFrom(list[1..], v, s - here);
      k := r + 1;
    }
  }

  ghost predicate LiveAccess(accesses: seq<Access>, path: string, v: Build) {
    exists j :: 0 <= j < |accesses| && accesses[j].path == path && Live(accesses[j].cfgs, v)
  }

  ghost predicate Listed(table: seq<Entry>, path: string) {
    exists s :: 0 <= s < |table| && table[s].path == path
  }

  // In every build a derived table lists exactly the live accesses' paths.
  lemma TableIsExact(list: seq<Entry>, accesses: seq<Access>, v: Build, path: string)
    requires Summarizes(list, accesses)
    ensures Listed(Surviving(list, v), path) <==> LiveAccess(accesses, path, v)
  {
    if Listed(Surviving(list, v), path) {
      var s :| 0 <= s < |Surviving(list, v)| && Surviving(list, v)[s].path == path;
      var k := SurvivingFrom(list, v, s);
      EntryKept(list[k], v);
      var a :| 0 <= a < |list[k].alts| && Live(list[k].alts[a], v);
      assert list[k].alts[a] in list[k].alts;
      assert Noted(accesses, path, list[k].alts[a]);
    }
    if LiveAccess(accesses, path, v) {
      var j :| 0 <= j < |accesses| && accesses[j].path == path && Live(accesses[j].cfgs, v);
      var k := LiveEntry(list, accesses, v, j);
      PrefixIsPlace(list, k, v);
    }
  }

  lemma LiveEntry(list: seq<Entry>, accesses: seq<Access>, v: Build, j: nat) returns (k: nat)
    requires Summarizes(list, accesses) && j < |accesses| && Live(accesses[j].cfgs, v)
    ensures k < |list| && list[k].path == accesses[j].path && Kept(EntryAttrs(list[k]), v)
  {
    assert HasAlt(list, accesses[j]);
    k :| 0 <= k < |list| && list[k].path == accesses[j].path && accesses[j].cfgs in list[k].alts;
    var a :| 0 <= a < |list[k].alts| && list[k].alts[a] == accesses[j].cfgs;
    EntryKept(list[k], v);
  }

  // ... each of them once.
  lemma {:induction false} SurvivingDistinct(list: seq<Entry>, v: Build)
    requires Distinct(list)
    ensures Distinct(Surviving(list, v))
  {
    if list != [] {
      var rest := Surviving(list[1..], v);
      SurvivingDistinct(list[1..], v);
      forall s | 0 <= s < |rest|
        ensures rest[s].path != list[0].path
      {
        var m := SurvivingFrom(list[1..], v, s);
        assert rest[s] == list[m + 1];
      }
    }
  }

  // ------------------------------------------------------------ #[dataflow]

  datatype Features = Features(dataflow: bool, liveness: bool, dataDeps: bool, veto: bool, readiness: bool)

  // An ungated call to a verb whose feature is off is refused by name.
  predicate Refused(f: Features, c: VerbCall) {
    && c.cfgs == []
    && ((!f.liveness && c.verb in ["beat_put", "beat_writer"])
        || (!f.dataDeps && c.verb in ["open", "lease"])
        || (!f.veto && c.verb == "veto")
        || (!(f.dataDeps && f.readiness) && c.verb == "retire"))
  }

  function Collect(f: Features): Callback {
    (h: seq<VerbCall>) => if h != [] && Refused(f, h[|h| - 1]) then Reject else Keep
  }

  function Bake(readTable: seq<Entry>, writeTable: seq<Entry>): Callback {
    (h: seq<VerbCall>) => if h == [] then Keep else BakeCall(readTable, writeTable, h[|h| - 1])
  }

  // `expect("collected in the first pass")` panics when the path is missing.
  function BakeCall(readTable: seq<Entry>, writeTable: seq<Entry>, c: VerbCall): Reply {
    var list := if c.write then writeTable else readTable;
    match Position(list, c.path)
    case None => Panic
    case Some(k) => Replace([Sig(c.write, DerivedPrefixExpr(list[..k]), c.target)])
  }

  datatype Expansion = Expansion(body: seq<Token>, readTable: seq<Entry>, writeTable: seq<Entry>, nr: LenExpr,
      nw: LenExpr)

  function AccessesOf(calls: seq<VerbCall>, write: bool, outer: seq<Raw>): seq<Access> {
    if calls == [] then []
    else
      var c := calls[|calls| - 1];
      AccessesOf(calls[..|calls| - 1], write, outer)
      + (if c.write == write then [Access(c.path, c.target, outer + c.cfgs)] else [])
  }

  lemma {:induction false} AccessOfCall(calls: seq<VerbCall>, write: bool, outer: seq<Raw>, k: nat) returns (j: nat)
    requires k < |calls| && calls[k].write == write
    ensures var accs := AccessesOf(calls, write, outer);
            j < |accs| && accs[j] == Access(calls[k].path, calls[k].target, outer + calls[k].cfgs)
  {
    if k == |calls| - 1 {
      j := |AccessesOf(calls[..|calls| - 1], write, outer)|;
    } else {
      j := AccessOfCall(calls[..|calls| - 1], write, outer, k);
    }
  }

  // Recording a walk's calls, in order.
  method RecordAll(calls: seq<VerbCall>, outer: seq<Raw>, readTable: Derived, writeTable: Derived)
    requires readTable != writeTable && readTable.Valid() && writeTable.Valid()
    modifies readTable, writeTable
    ensures readTable.Valid() && readTable.accesses == old(readTable.accesses) + AccessesOf(calls, false, outer)
    ensures writeTable.Valid() && writeTable.accesses == old(writeTable.accesses) + AccessesOf(calls, true, outer)
  {
    hide Summarizes;
    assert calls[..0] == [];
    for i := 0 to |calls|
      invariant readTable.Valid() && writeTable.Valid()
      invariant readTable.accesses == old(readTable.accesses) + AccessesOf(calls[..i], false, outer)
      invariant writeTable.accesses == old(writeTable.accesses) + AccessesOf(calls[..i], true, outer)
    {
      var list := if calls[i].write then writeTable else readTable;
      var _ := list.Record(Access(calls[i].path, calls[i].target, outer + calls[i].cfgs));
      assert calls[..i + 1][..i] == calls[..i];
    }
    assert calls[..|calls|] == calls;
  }

  // The entry a baked call reaches in a build: in bounds, and the call's own.
  ghost predicate Reaches(table: seq<Entry>, index: LenExpr, path: string, v: Build) {
    var s := Surviving(table, v);
    Eval(index, v) < |s| && s[Eval(index, v)].path == path
  }

  ghost predicate BakedRight(x: Expansion, c: VerbCall, v: Build) {
    var table := if c.write then x.writeTable else x.readTable;
    Live(c.cfgs, v) ==>
      match BakeCall(x.readTable, x.writeTable, c)
      case Replace(ts) => |ts| == 1 && ts[0].Sig? && ts[0].write == c.write && ts[0].target == c.target
                          && Reaches(table, ts[0].index, c.path, v)
      case _ => false
  }

  // The tables of an expansion summarize the calls of its body.
  ghost predicate Derives(x: Expansion, calls: seq<VerbCall>) {
    && Summarizes(x.readTable, AccessesOf(calls, false, []))
    && Summarizes(x.writeTable, AccessesOf(calls, true, []))
    && x.nr == DerivedPrefixExpr(x.readTable)
    && x.nw == DerivedPrefixExpr(x.writeTable)
  }

  // Main result: whatever the body and the build, every live call's baked
  // index is in bounds and selects the entry carrying that call's path.
  lemma BakedIndexIsRight(x: Expansion, calls: seq<VerbCall>, k: nat, v: Build)
    requires Derives(x, calls) && k < |calls|
    ensures BakedRight(x, calls[k], v)
  {
    hide Summarizes, AccessesOf, DerivedPrefixExpr, Position, Kept, Surviving, Eval, EntryAttrs;
    var c := calls[k];
    var list := if c.write then x.writeTable else x.readTable;
    if Live(c.cfgs, v) {
      var at := CallFound(list, calls, k, v);
      PrefixIsPlace(list, at, v);
    }
  }

  lemma OnePlace(list: seq<Entry>, at: nat)
    requires Distinct(list) && at < |list|
    ensures Position(list, list[at].path) == Some(at)
    ensures forall m :: 0 <= m < |list| && list[m].path == list[at].path ==> m == at
  {
    assert Position(list, list[at].path).Some?;
  }

  lemma AltPlace(list: seq<Entry>, accesses: seq<Access>, j: nat) returns (at: nat)
    requires Summarizes(list, accesses) && j < |accesses|
    ensures at < |list| && list[at].path == accesses[j].path && Distinct(list)
  {
    hide Backed, Distinct;
    assert HasAlt(list, accesses[j]);
    at :| 0 <= at < |list| && list[at].path == accesses[j].path && accesses[j].cfgs in list[at].alts;
  }

  // A recorded call's path is in its table, and compiled in where the call is.
  lemma CallFound(list: seq<Entry>, calls: seq<VerbCall>, k: nat, v: Build) returns (at: nat)
    requires k < |calls| && Summarizes(list, AccessesOf(calls, calls[k].write, []))
    ensures at < |list| && list[at].path == calls[k].path && Position(list, calls[k].path) == Some(at)
    ensures Live(calls[k].cfgs, v) ==> Kept(EntryAttrs(list[at]), v)
  {
    hide *;
    var c := calls[k];
    var accesses := AccessesOf(calls, c.write, []);
    var j := AccessOfCall(calls, c.write, [], k);
    assert [] + c.cfgs == c.cfgs;
    at := AltPlace(list, accesses, j);
    OnePlace(list, at);
    if Live(c.cfgs, v) {
      var m := LiveEntry(list, accesses, v, j);
    }
  }

  lemma BakeFinds(readTable: seq<Entry>, writeTable: seq<Entry>, calls: seq<VerbCall>, k: nat)
    requires k < |calls|
    requires Summarizes(readTable, AccessesOf(calls, false, []))
    requires Summarizes(writeTable, AccessesOf(calls, true, []))
    ensures BakeCall(readTable, writeTable, calls[k]).Replace?
  {
    hide Summarizes, AccessesOf, Position, DerivedPrefixExpr;
    var list := if calls[k].write then writeTable else readTable;
    var _ := CallFound(list, calls, k, raw => false);
  }

  // The second pass finds every path: `expect` cannot fire.
  lemma SecondPassCompletes(readTable: seq<Entry>, writeTable: seq<Entry>, sites: seq<Site>)
    requires Readable(sites)
    requires Summarizes(readTable, AccessesOf(Calls(sites), false, []))
    requires Summarizes(writeTable, AccessesOf(Calls(sites), true, []))
    ensures Drive(Bake(readTable, writeTable), [], sites).1.Completed?
  {
    hide Summarizes, AccessesOf, BakeCall;
    var calls := Calls(sites);
    var bake := Bake(readTable, writeTable);
    forall k | 0 <= k < |calls|
      ensures Accepts(bake, [], calls, k)
    {
      BakeFinds(readTable, writeTable, calls, k);
      assert [] + calls[..k + 1] == calls[..k + 1];
    }
    DriveAccepts(bake, [], sites);
  }

  predicate NoneRefused(f: Features, calls: seq<VerbCall>) {
    forall k :: 0 <= k < |calls| ==> !Refused(f, calls[k])
  }

  // Which bodies the first pass takes.
  lemma {:induction false} CollectAccepts(f: Features, history: seq<VerbCall>, sites: seq<Site>)
    ensures Drive(Collect(f), history, sites).1.Completed? <==>
            Readable(sites) && NoneRefused(f, Calls(sites))
    ensures !Drive(Collect(f), history, sites).1.Panicked?
    decreases |sites|
  {
    hide Refused;
    if sites != [] && sites[0].Reported? {
      var h := history + [sites[0].call];
      CollectAccepts(f, h, sites[1..]);
      ReadableCons(sites);
      var c, rest := Calls(sites), Calls(sites[1..]);
      assert c == [sites[0].call] + rest;
      assert NoneRefused(f, c) <==> !Refused(f, c[0]) && NoneRefused(f, rest) by {
        assert forall k :: 0 < k < |c| ==> c[k] == rest[k - 1];
        assert forall k :: 0 <= k < |rest| ==> rest[k] == c[k + 1];
      }
    }
  }

  const FLAG: Raw := [Ident("flag")]
  const ARG: seq<Token> := [Punct('&'), Ident("S")]

  type Parse = seq<Token> -> Option<Target>

  // A fn as the macros see it: its `TaskNode` parameter and the verbs its
  // attribute registers, None where there is none or they do not parse.
  datatype Fn = Fn(param: Option<string>, verbs: Option<seq<(string, bool)>>, parse: Parse, body: seq<Token>)

  predicate Builtin(verb: string) { verb in BUILTIN_READS || verb in BUILTIN_WRITES }

  // A registration repeats neither a built-in verb nor another
  // (supervisor-syntax/src/lib.rs:1897-1917).
  predicate Registers(verbs: seq<(string, bool)>) {
    && (forall k :: 0 <= k < |verbs| ==> !Builtin(verbs[k].0))
    && (forall j, k :: 0 <= j < k < |verbs| ==> verbs[j].0 != verbs[k].0)
  }

  predicate Walkable(f: Fn) { f.param.Some? && f.verbs.Some? && Registers(f.verbs.value) }

  function ScanOf(f: Fn): Scan {
    Scan(if f.param.Some? then f.param.value else "", if f.verbs.Some? then f.verbs.value else [], f.parse)
  }

  function FnSites(f: Fn): seq<Site> { Sites(ScanOf(f), f.body, []) }

  function FnCalls(f: Fn): seq<VerbCall> { Calls(FnSites(f)) }

  // The verbs `TaskNode` has: a feature adds its own
  // (supervisor/src/dataflow.rs:20-57, supervisor/src/veto.rs:170,
  // supervisor/src/data_deps).
  function TaskVerbs(f: Features): set<string> {
    {"get", "put", "reader", "writer"}
    + (if f.liveness then {"beat_put", "beat_writer"} else {})
    + (if f.dataDeps then {"open", "lease"} else {})
    + (if f.dataDeps && f.readiness then {"retire"} else {})
    + (if f.veto then {"veto"} else {})
  }

  lemma RefusedExactly(f: Features, c: VerbCall)
    ensures Refused(f, c) <==> c.cfgs == [] && Builtin(c.verb) && c.verb !in TaskVerbs(f)
  {
  }

  predicate IsRegistered(verbs: seq<(string, bool)>, verb: string, write: bool) { (verb, write) in verbs }

  // What can be called: a method of `TaskNode`, or a registered one.
  predicate Callable(f: Features, verbs: seq<(string, bool)>, c: VerbCall) {
    c.verb in TaskVerbs(f) || IsRegistered(verbs, c.verb, c.write)
  }

  ghost predicate KnownSites(scan: Scan, sites: seq<Site>) {
    forall k :: 0 <= k < |sites| && sites[k].Reported? ==>
      Direction(scan.custom, sites[k].call.verb) == Some(sites[k].call.write)
  }

  // Every call told is of a known verb, in its direction.
  lemma {:induction false} SitesAreKnown(scan: Scan, toks: seq<Token>, inherited: seq<Raw>, n: nat)
    requires n <= |Steps(scan, toks, 0)|
    ensures KnownSites(scan, SitesUpTo(scan, toks, inherited, n))
    decreases toks, 1, n
  {
    hide Direction, StepAt, InForce, StepSites;
    if n > 0 {
      var steps := Steps(scan, toks, 0);
      SitesAreKnown(scan, toks, inherited, n - 1);
      StepsTile(scan, toks, 0, n - 1);
      StepIsKnown(scan, toks, steps[n - 1], inherited + InForce(toks, steps, n - 1));
    }
  }

  lemma CallIsKnown(scan: Scan, toks: seq<Token>, i: nat)
    requires i < |toks| && StepAt(scan, toks, i).Call?
    ensures var s := StepAt(scan, toks, i); Direction(scan.custom, s.verb) == Some(s.write)
  {
    hide Direction, FnEnd;
  }

  lemma KnownCons(scan: Scan, call: VerbCall, rest: seq<Site>)
    requires Direction(scan.custom, call.verb) == Some(call.write) && KnownSites(scan, rest)
    ensures KnownSites(scan, [Reported(call)] + rest) && KnownSites(scan, [BadTarget])
  {
    hide Direction;
  }

  lemma {:induction false} StepIsKnown(scan: Scan, toks: seq<Token>, s: Step, cfgs: seq<Raw>)
    requires s.at < |toks| && s == StepAt(scan, toks, s.at)
    ensures KnownSites(scan, StepSites(scan, toks, s, cfgs))
    decreases toks, 0
  {
    hide Direction, StepAt, Steps, SitesUpTo, KnownSites;
    match s
    case Call(at, _, verb, write) =>
      CallIsKnown(scan, toks, at);
      var args := toks[at + 3].stream;
      var c := CommaAt(args, 0);
      SitesAreKnown(scan, args[c..], cfgs, |Steps(scan, args[c..], 0)|);
      match scan.parse(args[..c]) {
        case None => KnownCons(scan, VerbCall(verb, write, [], "", []), Sites(scan, args[c..], cfgs));
        case Some(t) => KnownCons(scan, VerbCall(verb, write, t.expr, t.path, cfgs), Sites(scan, args[c..], cfgs));
      }
    case Sub(at, _) =>
      SitesAreKnown(scan, toks[at].stream, cfgs, |Steps(scan, toks[at].stream, 0)|);
    case _ =>
      NothingKnown(scan);
  }

  lemma NothingKnown(scan: Scan)
    ensures KnownSites(scan, [])
  {
  }

  lemma KnownIsCallable(verbs: seq<(string, bool)>, verb: string, write: bool)
    requires Direction(verbs, verb) == Some(write)
    ensures Builtin(verb) || IsRegistered(verbs, verb, write)
  {
    if !Builtin(verb) {
      RegisteredIn(verbs, verb);
    }
  }

  lemma {:induction false} RegisteredIn(verbs: seq<(string, bool)>, verb: string)
    ensures var r := Registered(verbs, verb); r.Some? ==> (verb, r.value) in verbs
  {
    if verbs != [] && verbs[0].0 != verb {
      RegisteredIn(verbs[1..], verb);
    }
  }

  lemma {:induction false} CallIsSite(sites: seq<Site>, k: nat)
    requires k < |Calls(sites)|
    ensures k < |sites| && sites[k] == Reported(Calls(sites)[k])
  {
    if k > 0 {
      CallIsSite(sites[1..], k - 1);
    }
  }

  predicate UngatedCallable(features: Features, f: Fn)
    requires Walkable(f)
  {
    forall k :: 0 <= k < |FnCalls(f)| && FnCalls(f)[k].cfgs == [] ==> Callable(features, f.verbs.value, FnCalls(f)[k])
  }

  // A body is refused exactly for an ungated call of a verb that neither
  // `TaskNode` has with these features nor the attribute registers.
  lemma RefusalsExactly(features: Features, f: Fn)
    requires Walkable(f)
    ensures NoneRefused(features, FnCalls(f)) <==> UngatedCallable(features, f)
  {
    var calls, scan := FnCalls(f), ScanOf(f);
    SitesAreKnown(scan, f.body, [], |Steps(scan, f.body, 0)|);
    forall k | 0 <= k < |calls|
      ensures Refused(features, calls[k]) <==> calls[k].cfgs == [] && !Callable(features, f.verbs.value, calls[k])
    {
      CallIsSite(FnSites(f), k);
      RefusedExactly(features, calls[k]);
      KnownIsCallable(f.verbs.value, calls[k].verb, calls[k].write);
      hide Direction, TaskVerbs, Refused, Calls, SitesUpTo;
    }
    hide *;
  }

  // A body of one call, `node.verb(&S);`.
  function OneCall(verb: string): Fn {
    Fn(Some("node"), Some([]), ts => Some(Target(ts, "S")),
       [Ident("node"), Punct('.'), Ident(verb), Group(Parenthesis, ARG), Punct(';')])
  }

  lemma OneCallSites(verb: string, write: bool)
    requires Direction([], verb) == Some(write)
    ensures FnSites(OneCall(verb)) == [Reported(VerbCall(verb, write, ARG, "S", []))]
    ensures FnCalls(OneCall(verb)) == [VerbCall(verb, write, ARG, "S", [])]
  {
    var f := OneCall(verb);
    var scan, end := ScanOf(f), [Punct(';')];
    var nothing: seq<Token> := [];
    assert f.body == [Ident("node"), Punct('.'), Ident(verb), Group(Parenthesis, ARG)] + end;
    hide Direction;
    WalkLaws.CallRead(scan, verb, ARG, write, end, []);
    WalkLaws.FirstArgument(scan, ARG, nothing, verb, write, []);
    WalkLaws.Skipped(scan, Punct(';'), nothing, []);
    assert end + nothing == end;
    hide ArgSites;
    assert Sites(scan, nothing, []) == [];
    hide Sites, FnSites;
    var call := VerbCall(verb, write, ARG, "S", []);
    assert [Reported(call)][1..] == [] && Calls([Reported(call)]) == [call] + Calls([]);
  }

  // So a one-call body is accepted exactly with the features its verb needs.
  lemma OneCallAccepted(features: Features, verb: string)
    requires Builtin(verb)
    ensures Readable(FnSites(OneCall(verb)))
    ensures NoneRefused(features, FnCalls(OneCall(verb))) <==> verb in TaskVerbs(features)
  {
    WalkLaws.BuiltinVerbs([]);
    OneCallSites(verb, Direction([], verb).value);
    RefusedExactly(features, FnCalls(OneCall(verb))[0]);
    hide Direction, FnSites, Refused;
  }

  // What stands in a call's first argument: the `Sig` of its own direction and
  // target, whose index reaches the entry of its path where the call is live.
  ghost predicate HoleRight(x: Expansion, c: VerbCall, hole: seq<Token>, v: Build) {
    var table := if c.write then x.writeTable else x.readTable;
    && |hole| == 1 && hole[0].Sig? && hole[0].write == c.write && hole[0].target == c.target
    && (Live(c.cfgs, v) ==> Reaches(table, hole[0].index, c.path, v))
  }

  // The emitted body is the fn's own but for its calls' first arguments, and
  // those are right in every build.
  ghost predicate EmittedRight(x: Expansion, f: Fn) {
    exists fill :: FilledRight(x, f, fill)
  }

  ghost predicate FilledRight(x: Expansion, f: Fn, fill: seq<seq<Token>>) {
    var parts, args, calls := Template(ScanOf(f), f.body), FirstArgs(ScanOf(f), f.body), FnCalls(f);
    && Holes(parts) == |args| == |fill| == |calls|
    && Plug(parts, args) == f.body
    && Plug(parts, fill) == x.body
    && forall k, v :: 0 <= k < |calls| ==> HoleRight(x, calls[k], fill[k], v)
  }

  lemma AnswerIsBaked(readTable: seq<Entry>, writeTable: seq<Entry>, calls: seq<VerbCall>, args: seq<seq<Token>>,
                      k: nat)
    requires k < |calls| == |args| && BakeCall(readTable, writeTable, calls[k]).Replace?
    ensures Answers(Bake(readTable, writeTable), [], calls, args)[k] == BakeCall(readTable, writeTable, calls[k]).tokens
  {
    hide BakeCall;
    assert [] + calls[..k + 1] == calls[..k + 1] && calls[..k + 1][k] == calls[k];
  }

  lemma BakedIsSig(readTable: seq<Entry>, writeTable: seq<Entry>, c: VerbCall)
    requires BakeCall(readTable, writeTable, c).Replace?
    ensures var ts := BakeCall(readTable, writeTable, c).tokens;
            |ts| == 1 && ts[0].Sig? && ts[0].write == c.write && ts[0].target == c.target
  {
  }

  lemma BakedHole(x: Expansion, c: VerbCall, v: Build)
    requires BakeCall(x.readTable, x.writeTable, c).Replace? && BakedRight(x, c, v)
    ensures HoleRight(x, c, BakeCall(x.readTable, x.writeTable, c).tokens, v)
  {
    hide Reaches, BakeCall;
    BakedIsSig(x.readTable, x.writeTable, c);
  }

  // Main result: the k-th hole of the emitted body is the k-th call's, right in
  // every build.
  lemma EmittedBodyIsRight(x: Expansion, f: Fn)
    requires Readable(FnSites(f)) && Derives(x, FnCalls(f))
    requires x.body == Rebuild(ScanOf(f), f.body, [], [], Bake(x.readTable, x.writeTable))
    ensures EmittedRight(x, f)
  {
    var bake, scan, calls := Bake(x.readTable, x.writeTable), ScanOf(f), FnCalls(f);
    var parts, args := Template(scan, f.body), FirstArgs(scan, f.body);
    hide Sites, Calls, Rebuild, Template, FirstArgs, Holes, Plug, Answers, Summarizes, BakeCall, Bake, BakedRight,
         HoleRight;
    OutputIsSpliced(scan, f.body, [], [], bake);
    var fill := Answers(bake, [], calls, args);
    forall k, v | 0 <= k < |calls|
      ensures HoleRight(x, calls[k], fill[k], v)
    {
      BakeFinds(x.readTable, x.writeTable, calls, k);
      AnswerIsBaked(x.readTable, x.writeTable, calls, args, k);
      BakedIndexIsRight(x, calls, k, v);
      BakedHole(x, calls[k], v);
    }
    assert FilledRight(x, f, fill);
  }

  // supervisor-macros/src/lib.rs:3177-3300; None is a compile error
  method DataflowExpand(features: Features, f: Fn) returns (r: Option<Expansion>)
    ensures r.Some? <==> features.dataflow && Walkable(f) && Readable(FnSites(f)) && NoneRefused(features, FnCalls(f))
    ensures r.Some? <==> features.dataflow && Walkable(f) && Readable(FnSites(f)) && UngatedCallable(features, f)
    ensures r.Some? ==> Derives(r.value, FnCalls(f)) && EmittedRight(r.value, f)
  {
    hide Sites, Calls, Rebuild, Drive, Summarizes, AccessesOf, DerivedPrefixExpr, NoneRefused, EmittedRight, Registers,
         Refused, Collect, Bake, UngatedCallable;
    if !features.dataflow || f.verbs.None? || !Registers(f.verbs.value) || f.param.None? {
      return None;
    }
    RefusalsExactly(features, f);
    var scan := Scan(f.param.value, f.verbs.value, f.parse);
    assert scan == ScanOf(f);
    ghost var sites := FnSites(f);
    ghost var calls := FnCalls(f);
    assert [] + calls == calls;
    CollectAccepts(features, [], sites);
    var first := new Rewriter(scan, Collect(features));
    DriveReports(Collect(features), [], sites);
    var _ := first.RewriteVerbCallsIn(f.body, []);
    if !first.status.Completed? {
      return None;
    }
    var readTable := new Derived();
    var writeTable := new Derived();
    RecordAll(first.log, [], readTable, writeTable);
    assert readTable.accesses == AccessesOf(calls, false, []);
    assert writeTable.accesses == AccessesOf(calls, true, []);
    SecondPassCompletes(readTable.entries, writeTable.entries, sites);
    var second := new Rewriter(scan, Bake(readTable.entries, writeTable.entries));
    var out := second.RewriteVerbCallsIn(f.body, []);
    var x := Expansion(out, readTable.entries, writeTable.entries,
                       DerivedPrefixExpr(readTable.entries), DerivedPrefixExpr(writeTable.entries));
    EmittedBodyIsRight(x, f);
    r := Some(x);
  }

  // ----------------------------------------------------- #[dataflow_bundle]

  // A `#[dataflow]` fn at the module's top level: its own `#[cfg]`s, and the
  // `cfg_attr` predicates its `#[dataflow]` is wrapped in, outermost first.
  datatype Member = Member(cfgs: seq<Raw>, wrap: seq<Raw>, func: Fn)

  // What is recorded for a bundle: the wrapper does not enter into it.
  function BundleAccesses(members: seq<Member>, write: bool): seq<Access> {
    if members == [] then []
    else
      var m := members[|members| - 1];
      BundleAccesses(members[..|members| - 1], write) + AccessesOf(FnCalls(m.func), write, m.cfgs)
  }

  predicate IsLiveCall(c: VerbCall, write: bool, path: string, v: Build) {
    c.write == write && c.path == path && Live(c.cfgs, v)
  }

  ghost predicate LiveCall(calls: seq<VerbCall>, write: bool, path: string, v: Build) {
    exists k :: 0 <= k < |calls| && IsLiveCall(calls[k], write, path, v)
  }

  // A member whose `#[cfg]`s the build meets, at a call the build keeps.
  ghost predicate RecordedSite(m: Member, write: bool, path: string, v: Build) {
    Live(m.cfgs, v) && LiveCall(FnCalls(m.func), write, path, v)
  }

  ghost predicate RecordedInBundle(members: seq<Member>, write: bool, path: string, v: Build) {
    exists m :: 0 <= m < |members| && RecordedSite(members[m], write, path, v)
  }

  // A member fn that is a `#[dataflow]` fn of the build, at a call it keeps: as
  // documented, the wrapper's predicates count as `#[cfg]`s on the fn do.
  ghost predicate LiveSite(m: Member, write: bool, path: string, v: Build) {
    Live(m.wrap, v) && RecordedSite(m, write, path, v)
  }

  ghost predicate LiveInBundle(members: seq<Member>, write: bool, path: string, v: Build) {
    exists m :: 0 <= m < |members| && LiveSite(members[m], write, path, v)
  }

  lemma LiveConcat(a: seq<Raw>, b: seq<Raw>, v: Build)
    ensures Live(a + b, v) <==> Live(a, v) && Live(b, v)
  {
    if Live(a + b, v) {
      assert forall k :: 0 <= k < |a| ==> (a + b)[k] == a[k];
      assert forall k :: 0 <= k < |b| ==> (a + b)[|a| + k] == b[k];
    }
  }

  lemma {:induction false} LiveAccessesOf(calls: seq<VerbCall>, write: bool, outer: seq<Raw>, path: string, v: Build)
    ensures LiveAccess(AccessesOf(calls, write, outer), path, v) <==> Live(outer, v) && LiveCall(calls, write, path, v)
  {
    if calls != [] {
      var front, c := calls[..|calls| - 1], calls[|calls| - 1];
      LiveAccessesOf(front, write, outer, path, v);
      LiveConcat(outer, c.cfgs, v);
      var one := if c.write == write then [Access(c.path, c.target, outer + c.cfgs)] else [];
      LiveAccessAppend(AccessesOf(front, write, outer), one, path, v);
      assert LiveAccess(one, path, v) <==> Live(outer, v) && IsLiveCall(c, write, path, v) by {
        if c.write == write {
          assert one[0] == Access(c.path, c.target, outer + c.cfgs);
        }
      }
      assert LiveCall(calls, write, path, v) <==> LiveCall(front, write, path, v) || IsLiveCall(c, write, path, v) by {
        assert forall k :: 0 <= k < |front| ==> front[k] == calls[k];
      }
    }
  }

  lemma LiveAccessAppend(a: seq<Access>, b: seq<Access>, path: string, v: Build)
    ensures LiveAccess(a + b, path, v) <==> LiveAccess(a, path, v) || LiveAccess(b, path, v)
  {
    assert forall j :: 0 <= j < |a| ==> (a + b)[j] == a[j];
    assert forall j :: 0 <= j < |b| ==> (a + b)[|a| + j] == b[j];
    if LiveAccess(a + b, path, v) {
      var j :| 0 <= j < |a + b| && (a + b)[j].path == path && Live((a + b)[j].cfgs, v);
      if j >= |a| {
        assert (a + b)[j] == b[j - |a|];
      }
    }
  }

  lemma {:induction false} LiveBundleAccesses(members: seq<Member>, write: bool, path: string, v: Build)
    ensures LiveAccess(BundleAccesses(members, write), path, v) <==> RecordedInBundle(members, write, path, v)
  {
    hide Live, FnCalls, AccessesOf, LiveAccess, LiveCall;
    if members == [] {
      NoLiveAccess(path, v);
    } else {
      var front, m := members[..|members| - 1], members[|members| - 1];
      LiveBundleAccesses(front, write, path, v);
      LiveAccessesOf(FnCalls(m.func), write, m.cfgs, path, v);
      LiveAccessAppend(BundleAccesses(front, write), AccessesOf(FnCalls(m.func), write, m.cfgs), path, v);
      RecordedGrows(members, write, path, v);
    }
  }

  lemma NoLiveAccess(path: string, v: Build)
    ensures !LiveAccess([], path, v)
  {
  }

  lemma RecordedGrows(members: seq<Member>, write: bool, path: string, v: Build)
    requires members != []
    ensures RecordedInBundle(members, write, path, v)
            <==> (RecordedInBundle(members[..|members| - 1], write, path, v)
                  || RecordedSite(members[|members| - 1], write, path, v))
  {
    hide RecordedSite;
    var front := members[..|members| - 1];
    assert forall k :: 0 <= k < |front| ==> front[k] == members[k];
  }

  datatype Bundle = Bundle(name: string, readTable: seq<Entry>, writeTable: seq<Entry>, nr: LenExpr, nw: LenExpr)

  // The tables a build compiles for a bundle: the recorded paths, each once,
  // under the emitted length.
  ghost predicate BundleTable(table: seq<Entry>, len: LenExpr, members: seq<Member>, write: bool, v: Build) {
    var t := Surviving(table, v);
    && Eval(len, v) == |t|
    && Distinct(t)
    && (forall path :: Listed(t, path) <==> RecordedInBundle(members, write, path, v))
  }

  lemma BundleTableIsExact(table: seq<Entry>, members: seq<Member>, write: bool, v: Build)
    requires Summarizes(table, BundleAccesses(members, write))
    ensures BundleTable(table, DerivedPrefixExpr(table), members, write, v)
  {
    hide Summarizes, Surviving, Listed, RecordedInBundle, BundleAccesses, DerivedPrefixExpr, Eval;
    PrefixExprCounts(table, v);
    assert Distinct(table) by { SummaryIsDistinct(table, BundleAccesses(members, write)); }
    SurvivingDistinct(table, v);
    forall path
      ensures Listed(Surviving(table, v), path) <==> RecordedInBundle(members, write, path, v)
    {
      TableIsExact(table, BundleAccesses(members, write), v, path);
      LiveBundleAccesses(members, write, path, v);
    }
  }

  lemma SummaryIsDistinct(list: seq<Entry>, accesses: seq<Access>)
    requires Summarizes(list, accesses)
    ensures Distinct(list)
  {
  }

  // As documented: the paths of the build's `#[dataflow]` members and no other.
  ghost predicate BundleExact(table: seq<Entry>, members: seq<Member>, write: bool, v: Build) {
    forall path :: Listed(Surviving(table, v), path) <==> LiveInBundle(members, write, path, v)
  }

  // Every path a member reaches whose wrapper the build does not meet is also
  // reached by one that is a `#[dataflow]` fn of the build.
  ghost predicate WrappedCovered(members: seq<Member>, write: bool, v: Build) {
    forall m, path :: 0 <= m < |members| && !Live(members[m].wrap, v) && RecordedSite(members[m], write, path, v) ==>
      LiveInBundle(members, write, path, v)
  }

  // A bundle's table is as documented in a build exactly when that holds.
  lemma BundleMeetsDocs(table: seq<Entry>, len: LenExpr, members: seq<Member>, write: bool, v: Build)
    requires BundleTable(table, len, members, write, v)
    ensures BundleExact(table, members, write, v) <==> WrappedCovered(members, write, v)
  {
    hide Listed, Surviving, RecordedSite, Live, Distinct, Eval;
    forall path
      ensures LiveInBundle(members, write, path, v) ==> RecordedInBundle(members, write, path, v)
    {
      LiveIsRecorded(members, write, path, v);
    }
    if BundleExact(table, members, write, v) {
      forall m, path | 0 <= m < |members| && !Live(members[m].wrap, v) && RecordedSite(members[m], write, path, v)
        ensures LiveInBundle(members, write, path, v)
      {
        assert RecordedInBundle(members, write, path, v);
      }
    }
    if WrappedCovered(members, write, v) {
      forall path | RecordedInBundle(members, write, path, v)
        ensures LiveInBundle(members, write, path, v)
      {
        var m :| 0 <= m < |members| && RecordedSite(members[m], write, path, v);
        if Live(members[m].wrap, v) {
          assert LiveSite(members[m], write, path, v);
        }
      }
    }
  }

  lemma LiveIsRecorded(members: seq<Member>, write: bool, path: string, v: Build)
    ensures LiveInBundle(members, write, path, v) ==> RecordedInBundle(members, write, path, v)
  {
    hide RecordedSite, Live;
  }

  predicate Within(cfgs: seq<Raw>, own: seq<Raw>) { forall k :: 0 <= k < |cfgs| ==> cfgs[k] in own }

  predicate StandsInCall(c: VerbCall, write: bool, path: string, own: seq<Raw>) {
    c.write == write && c.path == path && Within(c.cfgs, own)
  }

  // A member that accesses the path under no predicate, of the wrapper, the fn
  // or the call, that is not one of these.
  predicate StandsIn(m: Member, write: bool, path: string, own: seq<Raw>) {
    && Within(m.wrap, own)
    && Within(m.cfgs, own)
    && exists k :: 0 <= k < |FnCalls(m.func)| && StandsInCall(FnCalls(m.func)[k], write, path, own)
  }

  predicate HasStandIn(members: seq<Member>, write: bool, path: string, own: seq<Raw>) {
    exists m :: 0 <= m < |members| && StandsIn(members[m], write, path, own)
  }

  predicate MemberStoodIn(members: seq<Member>, write: bool, m: Member) {
    forall k :: 0 <= k < |FnCalls(m.func)| && FnCalls(m.func)[k].write == write ==>
      HasStandIn(members, write, FnCalls(m.func)[k].path, m.cfgs + FnCalls(m.func)[k].cfgs)
  }

  // Every call has a stand-in under its own and its fn's `#[cfg]`s: itself,
  // where its wrapper's predicates are among them.
  predicate StandInsExist(members: seq<Member>, write: bool) {
    forall m :: 0 <= m < |members| ==> MemberStoodIn(members, write, members[m])
  }

  // The build in which just these predicates hold.
  function Only(own: seq<Raw>): Build { raw => raw in own }

  lemma OnlyOwn(cfgs: seq<Raw>, own: seq<Raw>)
    ensures Live(cfgs, Only(own)) <==> Within(cfgs, own)
  {
  }

  lemma OwnHolds(own: seq<Raw>)
    ensures Live(own, Only(own))
  {
  }

  lemma StandInIsLive(m: Member, write: bool, path: string, own: seq<Raw>, v: Build)
    requires StandsIn(m, write, path, own) && Live(own, v)
    ensures LiveSite(m, write, path, v)
  {
    hide FnCalls;
    forall cfgs | Within(cfgs, own)
      ensures Live(cfgs, v)
    {
    }
    var k :| 0 <= k < |FnCalls(m.func)| && StandsInCall(FnCalls(m.func)[k], write, path, own);
    assert IsLiveCall(FnCalls(m.func)[k], write, path, v);
  }

  lemma LiveIsStandIn(m: Member, write: bool, path: string, own: seq<Raw>)
    requires LiveSite(m, write, path, Only(own))
    ensures StandsIn(m, write, path, own)
  {
    hide FnCalls, Live, Within, Only;
    OnlyOwn(m.wrap, own);
    OnlyOwn(m.cfgs, own);
    var k :| 0 <= k < |FnCalls(m.func)| && IsLiveCall(FnCalls(m.func)[k], write, path, Only(own));
    OnlyOwn(FnCalls(m.func)[k].cfgs, own);
    assert StandsInCall(FnCalls(m.func)[k], write, path, own);
  }

  lemma StoodIn(members: seq<Member>, write: bool, m: nat, path: string, v: Build)
    requires StandInsExist(members, write) && m < |members| && RecordedSite(members[m], write, path, v)
    ensures LiveInBundle(members, write, path, v)
  {
    hide FnCalls, Live, StandsIn, LiveSite;
    assert MemberStoodIn(members, write, members[m]);
    var calls := FnCalls(members[m].func);
    var k :| 0 <= k < |calls| && IsLiveCall(calls[k], write, path, v);
    var own := members[m].cfgs + calls[k].cfgs;
    LiveConcat(members[m].cfgs, calls[k].cfgs, v);
    var j :| 0 <= j < |members| && StandsIn(members[j], write, path, own);
    StandInIsLive(members[j], write, path, own, v);
  }

  lemma CallStoodIn(members: seq<Member>, write: bool, m: nat, k: nat)
    requires m < |members| && k < |FnCalls(members[m].func)| && FnCalls(members[m].func)[k].write == write
    requires forall v :: WrappedCovered(members, write, v)
    ensures var c := FnCalls(members[m].func)[k]; HasStandIn(members, write, c.path, members[m].cfgs + c.cfgs)
  {
    hide FnCalls, Live, StandsIn, Only;
    var c := FnCalls(members[m].func)[k];
    var own := members[m].cfgs + c.cfgs;
    var v := Only(own);
    OwnHolds(own);
    LiveConcat(members[m].cfgs, c.cfgs, v);
    assert IsLiveCall(c, write, c.path, v);
    assert RecordedSite(members[m], write, c.path, v);
    assert WrappedCovered(members, write, v);
    if Live(members[m].wrap, v) {
      assert LiveSite(members[m], write, c.path, v);
    } else {
      assert LiveInBundle(members, write, c.path, v);
    }
    var j :| 0 <= j < |members| && LiveSite(members[j], write, c.path, v);
    LiveIsStandIn(members[j], write, c.path, own);
  }

  // Tables are as documented in every build exactly when every call has a
  // stand-in, which names no build.
  lemma AlwaysCoveredExactly(members: seq<Member>, write: bool)
    ensures (forall v :: WrappedCovered(members, write, v)) <==> StandInsExist(members, write)
  {
    hide RecordedSite, LiveInBundle, Live, FnCalls, HasStandIn;
    if forall v :: WrappedCovered(members, write, v) {
      forall m, k | 0 <= m < |members| && 0 <= k < |FnCalls(members[m].func)|
                    && FnCalls(members[m].func)[k].write == write
        ensures var c := FnCalls(members[m].func)[k]; HasStandIn(members, write, c.path, members[m].cfgs + c.cfgs)
      {
        CallStoodIn(members, write, m, k);
      }
    }
    if StandInsExist(members, write) {
      forall v, m, path | 0 <= m < |members| && RecordedSite(members[m], write, path, v)
        ensures LiveInBundle(members, write, path, v)
      {
        StoodIn(members, write, m, path, v);
      }
    }
  }

  // A bundle none of whose members is wrapped in a predicate that is not also
  // a `#[cfg]` of the fn is as documented in every build.
  lemma RepeatedWrappersMeetDocs(members: seq<Member>, write: bool, v: Build)
    requires forall m, p :: 0 <= m < |members| && p in members[m].wrap ==> p in members[m].cfgs
    ensures WrappedCovered(members, write, v)
  {
    hide LiveInBundle, LiveCall, FnCalls;
    forall m | 0 <= m < |members| && Live(members[m].cfgs, v)
      ensures Live(members[m].wrap, v)
    {
      forall k | 0 <= k < |members[m].wrap|
        ensures v(members[m].wrap[k])
      {
        assert members[m].wrap[k] in members[m].cfgs;
      }
    }
  }

  // One member, `#[cfg_attr(flag, dataflow)]`, whose body is `node.put(&S);`.

  function Wrapped(): Member { Member([], [FLAG], OneCall("put")) }

  lemma WrappedSites()
    ensures FnSites(Wrapped().func) == [Reported(VerbCall("put", true, ARG, "S", []))]
    ensures FnCalls(Wrapped().func) == [VerbCall("put", true, ARG, "S", [])]
  {
    WalkLaws.BuiltinVerbs([]);
    OneCallSites("put", true);
  }

  lemma OneAccess(c: VerbCall)
    ensures AccessesOf([c], c.write, []) == [Access(c.path, c.target, c.cfgs)]
  {
    var none: seq<Raw> := [];
    assert [c][..0] == [] && none + c.cfgs == c.cfgs;
  }

  lemma OneMember(m: Member, write: bool)
    ensures BundleAccesses([m], write) == AccessesOf(FnCalls(m.func), write, m.cfgs)
  {
    hide FnCalls;
    assert [m][..0] == [] && BundleAccesses([m][..0], write) == [];
  }

  // The write table that bundle is given.
  lemma WrappedTable()
    ensures Summarizes([Entry("S", ARG, [[]])], BundleAccesses([Wrapped()], true))
  {
    hide Summarizes, FnCalls, AccessesOf, BundleAccesses;
    WrappedSites();
    OneMember(Wrapped(), true);
    OneAccess(VerbCall("put", true, ARG, "S", []));
    var a := Access("S", ARG, []);
    NothingSummarized();
    RecordsFirst([], [], a);
    var none: seq<Entry> := [];
    var silent: seq<Access> := [];
    assert none + [Entry("S", ARG, [[]])] == [Entry("S", ARG, [[]])] && silent + [a] == [a];
  }

  lemma NothingSummarized()
    ensures Summarizes([], [])
  {
  }

  // The bundle is expanded, and where the flag is off its table lists a path
  // though no `#[dataflow]` fn of that build accesses any.
  lemma WrapperIsIgnored(table: seq<Entry>, v: Build)
    requires Summarizes(table, BundleAccesses([Wrapped()], true)) && !v(FLAG)
    ensures Walkable(Wrapped().func) && Readable(FnSites(Wrapped().func))
    ensures Listed(Surviving(table, v), "S")
    ensures forall path :: !LiveInBundle([Wrapped()], true, path, v)
  {
    var m := Wrapped();
    WrappedSites();
    hide FnCalls, FnSites, Surviving, Summarizes;
    TableIsExact(table, BundleAccesses([m], true), v, "S");
    LiveBundleAccesses([m], true, "S", v);
    assert IsLiveCall(FnCalls(m.func)[0], true, "S", v);
    assert RecordedSite([m][0], true, "S", v);
    assert !Live(m.wrap, v) by { assert m.wrap[0] == FLAG; }
  }

  // supervisor-macros/src/lib.rs:2978-3091. The name is what the attribute's
  // argument parses to, `BUNDLE` when there is none; None for the members is a
  // module that is not inline.
  method BundleExpand(dataflow: bool, name: Option<string>, items: Option<seq<Member>>) returns (r: Option<Bundle>)
    ensures r.Some? <==> dataflow && name.Some? && items.Some? && items.value != [] && AllWalked(items.value)
    ensures r.Some? ==> r.value.name == name.value
    ensures r.Some? ==>
              && ((forall v :: BundleExact(r.value.readTable, items.value, false, v))
                  <==> StandInsExist(items.value, false))
              && ((forall v :: BundleExact(r.value.writeTable, items.value, true, v))
                  <==> StandInsExist(items.value, true))
    ensures r.Some? ==> forall v ::
              && BundleTable(r.value.readTable, r.value.nr, items.value, false, v)
              && BundleTable(r.value.writeTable, r.value.nw, items.value, true, v)
              && (BundleExact(r.value.readTable, items.value, false, v) <==> WrappedCovered(items.value, false, v))
              && (BundleExact(r.value.writeTable, items.value, true, v) <==> WrappedCovered(items.value, true, v))
  {
    hide Sites, Calls, FnSites, Rebuild, Drive, Summarizes, AccessesOf, DerivedPrefixExpr, Readable;
    hide BundleTable, BundleExact, WrappedCovered, StandInsExist;
    if !dataflow || name.None? || items.None? {
      return None;
    }
    var members := items.value;
    var readTable := new Derived();
    var writeTable := new Derived();
    assert members[..0] == [];
    for i := 0 to |members|
      invariant readTable.Valid() && writeTable.Valid()
      invariant readTable.accesses == BundleAccesses(members[..i], false)
      invariant writeTable.accesses == BundleAccesses(members[..i], true)
      invariant AllWalked(members[..i])
    {
      var m := members[i];
      assert members[..i + 1][..i] == members[..i];
      if m.func.verbs.None? || !Registers(m.func.verbs.value) || m.func.param.None? {
        assert !Walked(members[i].func);
        return None;
      }
      var walk, calls := WalkMember(m.func);
      if !walk {
        assert !Walked(members[i].func);
        return None;
      }
      RecordAll(calls, m.cfgs, readTable, writeTable);
    }
    assert members[..|members|] == members;
    if |members| == 0 {
      return None;
    }
    AlwaysCoveredExactly(members, false);
    AlwaysCoveredExactly(members, true);
    r := Some(Bundle(name.value, readTable.entries, writeTable.entries,
                     DerivedPrefixExpr(readTable.entries), DerivedPrefixExpr(writeTable.entries)));
    forall v
      ensures BundleTable(r.value.readTable, r.value.nr, members, false, v)
      ensures BundleTable(r.value.writeTable, r.value.nw, members, true, v)
      ensures BundleExact(r.value.readTable, members, false, v) <==> WrappedCovered(members, false, v)
      ensures BundleExact(r.value.writeTable, members, true, v) <==> WrappedCovered(members, true, v)
    {
      BundleTableIsExact(readTable.entries, members, false, v);
      BundleTableIsExact(writeTable.entries, members, true, v);
      BundleMeetsDocs(readTable.entries, r.value.nr, members, false, v);
      BundleMeetsDocs(writeTable.entries, r.value.nw, members, true, v);
    }
  }

  predicate Walked(f: Fn) { Walkable(f) && forall k :: 0 <= k < |FnSites(f)| ==> FnSites(f)[k].Reported? }

  predicate AllWalked(members: seq<Member>) {
    forall m :: 0 <= m < |members| ==> Walked(members[m].func)
  }

  // One member's pass, which rewrites nothing and collects its calls.
  method WalkMember(f: Fn) returns (ok: bool, calls: seq<VerbCall>)
    requires Walkable(f)
    ensures ok <==> Walked(f)
    ensures ok ==> calls == FnCalls(f)
  {
    hide Sites, Calls, Rebuild, Drive;
    ghost var sites := FnSites(f);
    var walk := new Rewriter(ScanOf(f), h => Keep);
    KeepCompletes([], sites);
    DriveReports(h => Keep, [], sites);
    assert [] + Calls(sites) == Calls(sites);
    var _ := walk.RewriteVerbCallsIn(f.body, []);
    ok, calls := walk.status.Completed?, walk.log;
  }

  lemma {:induction false} KeepCompletes(history: seq<VerbCall>, sites: seq<Site>)
    ensures Drive(h => Keep, history, sites).1.Completed? <==> Readable(sites)
    decreases |sites|
  {
    if sites != [] && sites[0].Reported? {
      KeepCompletes(history + [sites[0].call], sites[1..]);
      assert forall k :: 0 < k < |sites| ==> sites[k] == sites[1..][k - 1];
      if Readable(sites) {
        assert forall k :: 0 <= k < |sites[1..]| ==> sites[1..][k] == sites[k + 1];
      }
    }
  }
}
