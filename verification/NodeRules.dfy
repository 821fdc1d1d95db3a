// The rules a node declaration keeps, each said of its written clauses alone,
// and that the parser accepts a declaration exactly when it breaks none
// (supervisor-syntax/src/lib.rs:265-302, 941-1154, 1182-1584).
module NodeRules {
  import opened Tokens
  import opened NodeParser

  // ---------------------------------------------------- rules of one clause

  datatype ClauseRule =
    | UnknownClause      // no clause, or one whose entries do not parse
    | OtherGate          // an attribute before it is no `#[cfg(..)]`
    | NotGateable        // it stands behind a `#[cfg(..)]` and may not
    | EmptyList
    | SignalTwice
    | WholeAndElement    // a signal both as an array and by element
    | FnTwice
    | BadTimeout
    | BadBudget
    | DiscoverArgument
    | SlotGate           // an entry of `provides:` behind another attribute

  predicate BreaksAlone(r: ClauseRule, w: Written) {
    match r
    case UnknownClause => w.clause.Refused? || w.clause.PoolSize?
    case OtherGate => exists a :: a in w.cfg && !a.CfgList?
    case NotGateable =>
      && w.cfg != []
      && !(w.clause.SlotTimeout? || w.clause.AckTimeout? || w.clause.BeatTimeout? || w.clause.BeatWindow?
           || w.clause.EnabledIf? || w.clause.RestartBudget? || w.clause.ReadyOnWrite? || w.clause.Disabled?
           || w.clause.Discover?)
    case EmptyList => w.clause == Reads([]) || w.clause == Writes([]) || w.clause == DataflowFns([])
    case SignalTwice =>
      exists i, j :: 0 <= i < j < |Signals(w)|
                     && Signals(w)[i].path == Signals(w)[j].path && Signals(w)[i].index == Signals(w)[j].index
    case WholeAndElement =>
      exists i, j :: 0 <= i < j < |Signals(w)|
                     && Signals(w)[i].path == Signals(w)[j].path
                     && Signals(w)[i].index.None? != Signals(w)[j].index.None?
    case FnTwice =>
      w.clause.DataflowFns? && NameTwice(w.clause.fns)
    case BadTimeout =>
      (w.clause.SlotTimeout? || w.clause.AckTimeout?) && (w.clause.ms == 0 || w.clause.ms > 0xFFFF_FFFF_FFFF_FFFF)
    case BadBudget =>
      w.clause.RestartBudget? && (w.clause.max == 0 || w.clause.max > 0xFFFF
                                  || w.clause.window == 0 || w.clause.window > 0xFFFF_FFFF_FFFF_FFFF)
    case DiscoverArgument => w.clause == Discover(true)
    case SlotGate => w.clause.Provides? && exists e, a :: e in w.clause.slots && a in e.cfg && a.OtherAttribute?
  }

  function Signals(w: Written): seq<SignalDecl> {
    if w.clause.Reads? || w.clause.Writes? then w.clause.signals else []
  }

  predicate NameTwice(list: seq<Entry>) { exists i, j :: 0 <= i < j < |list| && list[i].name == list[j].name }

  lemma GateRules(w: Written)
    ensures GateOk(w) <==> !BreaksAlone(OtherGate, w) && !BreaksAlone(NotGateable, w)
  {
    if w.cfg != [] && !AllCfg(w.cfg) {
      var k :| 0 <= k < |w.cfg| && !w.cfg[k].CfgList?;
      assert w.cfg[k] in w.cfg;
    }
  }

  lemma SignalRules(w: Written)
    ensures SignalsOk(Signals(w))
            <==> Signals(w) != [] && !BreaksAlone(SignalTwice, w) && !BreaksAlone(WholeAndElement, w)
  {
  }

  lemma SlotRules(w: Written)
    requires w.clause.Provides?
    ensures (forall k :: 0 <= k < |w.clause.slots| ==> AllCfg(w.clause.slots[k].cfg)) <==> !BreaksAlone(SlotGate, w)
  {
    if k :| 0 <= k < |w.clause.slots| && !AllCfg(w.clause.slots[k].cfg) {
      var e := w.clause.slots[k];
      var j :| 0 <= j < |e.cfg| && !e.cfg[j].CfgList?;
      assert e in w.clause.slots && e.cfg[j] in e.cfg;
    }
  }

  ghost predicate SoundAlone(w: Written) { forall r :: !BreaksAlone(r, w) }

  predicate SoundClause(w: Written) {
    && !BreaksAlone(UnknownClause, w) && !BreaksAlone(EmptyList, w) && !BreaksAlone(FnTwice, w)
    && !BreaksAlone(BadTimeout, w) && !BreaksAlone(BadBudget, w) && !BreaksAlone(DiscoverArgument, w)
    && !BreaksAlone(SlotGate, w) && !BreaksAlone(SignalTwice, w) && !BreaksAlone(WholeAndElement, w)
  }

  lemma FnRules(w: Written)
    requires w.clause.DataflowFns?
    ensures Unrepeated(w.clause.fns) <==> !NameTwice(w.clause.fns)
  {
  }

  lemma ClauseRules(w: Written)
    ensures ClauseOk(w.clause) <==> SoundClause(w)
  {
    match w.clause
    case Reads(_) => SignalRules(w); hide SignalsOk;
    case Writes(_) => SignalRules(w); hide SignalsOk;
    case DataflowFns(_) => FnRules(w); hide Unrepeated, NameTwice;
    case Provides(_) => SlotRules(w); hide AllCfg;
    case _ =>
  }

  // A clause is well-formed on its own exactly when it breaks none of these.
  lemma AloneExactly(w: Written)
    ensures AloneOk(w) <==> SoundAlone(w)
  {
    GateRules(w);
    ClauseRules(w);
    hide GateOk, ClauseOk, BreaksAlone;
    if SoundClause(w) && !BreaksAlone(OtherGate, w) && !BreaksAlone(NotGateable, w) {
      forall r
        ensures !BreaksAlone(r, w)
      {
        assert r == UnknownClause || r == OtherGate || r == NotGateable || r == EmptyList || r == SignalTwice
               || r == WholeAndElement || r == FnTwice || r == BadTimeout || r == BadBudget || r == DiscoverArgument
               || r == SlotGate;
      }
    }
  }

  // ------------------------------------------------ rules of the whole list

  // Only `exit:` and `provides:` may be written again.
  ghost predicate ClauseTwice(ws: seq<Written>) {
    exists i, j :: 0 <= i < j < |ws| && SameClause(ws[i].clause, ws[j].clause)
  }

  predicate SameClause(a: Clause, b: Clause) {
    || (a.Spawn? && b.Spawn?) || (a.TaskFn? && b.TaskFn?) || (a.Executor? && b.Executor?)
    || (a.Resources? && b.Resources?) || (a.Reads? && b.Reads?) || (a.Writes? && b.Writes?) || (a.State? && b.State?)
    || (a.SlotTimeout? && b.SlotTimeout?) || (a.AckTimeout? && b.AckTimeout?) || (a.Discover? && b.Discover?)
    || (a.DataflowFns? && b.DataflowFns?) || (a.Cancel? && b.Cancel?) || (a.Deps? && b.Deps?)
    || (a.Disabled? && b.Disabled?) || (a.ReadyOnWrite? && b.ReadyOnWrite?) || (a.BeatTimeout? && b.BeatTimeout?)
    || (a.BeatWindow? && b.BeatWindow?) || (a.EnabledIf? && b.EnabledIf?) || (a.RestartBudget? && b.RestartBudget?)
  }

  // The first `provides:` names no slot.
  ghost predicate NoSlots(ws: seq<Written>) {
    exists j :: 0 <= j < |ws| && ws[j].clause == Provides([]) && forall i :: 0 <= i < j ==> !ws[i].clause.Provides?
  }

  // Two entries of `provides:` clauses, wherever they stand, name one slot.
  ghost predicate SlotTwice(ws: seq<Written>) {
    exists i, a, j, b :: SlotAt(ws, i, a) && SlotAt(ws, j, b) && (i < j || (i == j && a < b))
                         && ws[i].clause.slots[a].name == ws[j].clause.slots[b].name
  }

  predicate SlotAt(ws: seq<Written>, i: int, a: int) {
    0 <= i < |ws| && ws[i].clause.Provides? && 0 <= a < |ws[i].clause.slots|
  }

  ghost predicate BadBeatTimeout(ws: seq<Written>) {
    exists w :: w in ws && w.clause.BeatTimeout? && (w.clause.ms == 0 || w.clause.ms > 0xFFFF_FFFF_FFFF_FFFF)
  }

  ghost predicate BadBeatWindow(ws: seq<Written>) {
    exists w :: w in ws && w.clause.BeatWindow? && (w.clause.sweeps == 0 || w.clause.sweeps > 255)
  }

  ghost predicate BadResources(ws: seq<Written>) {
    exists w :: w in ws && w.clause.Resources? && (w.clause.decls == [] || NameTwice(w.clause.decls))
  }

  ghost predicate HasTask(ws: seq<Written>) { exists w :: w in ws && w.clause.TaskFn? }

  ghost predicate HasSpawn(ws: seq<Written>) { exists w :: w in ws && w.clause.Spawn? }

  ghost predicate HasDiscover(ws: seq<Written>) { exists w :: w in ws && w.clause.Discover? }

  ghost predicate HasReady(ws: seq<Written>) { exists w :: w in ws && w.clause.ReadyOnWrite? }

  ghost predicate HasTimeout(ws: seq<Written>) { exists w :: w in ws && w.clause.BeatTimeout? }

  ghost predicate HasWindow(ws: seq<Written>) { exists w :: w in ws && w.clause.BeatWindow? }

  ghost predicate HasCancel(ws: seq<Written>) { exists w :: w in ws && w.clause.Cancel? }

  // A window or a readiness marker with other gates than a gated budget.
  ghost predicate GatesDiffer(ws: seq<Written>) {
    exists w, t :: w in ws && t in ws && (w.clause.BeatWindow? || w.clause.ReadyOnWrite?) && t.clause.BeatTimeout?
                   && t.cfg != [] && CfgText(w.cfg) != CfgText(t.cfg)
  }

  ghost predicate ReadsEntry(ws: seq<Written>, d: SignalDecl) {
    exists w :: w in ws && w.clause.Reads? && d in w.clause.signals
  }

  ghost predicate WritesEntry(ws: seq<Written>, d: SignalDecl) {
    exists w :: w in ws && w.clause.Writes? && d in w.clause.signals
  }

  ghost predicate BeatOnRead(ws: seq<Written>) { exists d :: ReadsEntry(ws, d) && (d.beat || d.veto) }

  ghost predicate UnmarkedEntry(ws: seq<Written>) {
    exists d :: (ReadsEntry(ws, d) || WritesEntry(ws, d)) && !d.observed && !d.beat && !d.veto
  }

  ghost predicate PolledBeat(ws: seq<Written>) { exists d :: WritesEntry(ws, d) && d.observed && d.beat }

  ghost predicate NeedsTask(ws: seq<Written>) {
    exists w :: w in ws && (w.clause.Resources? || w.clause.State? || w.clause.Exit? || w.clause.Cancel?)
  }

  // The rules between clauses.
  ghost predicate Cross(mode: string, ws: seq<Written>) {
    && !BadBeatTimeout(ws) && !BadBeatWindow(ws) && !BadResources(ws)
    && (HasWindow(ws) ==> HasTimeout(ws))
    && !GatesDiffer(ws)
    && !BeatOnRead(ws)
    && (HasDiscover(ws) ==> !UnmarkedEntry(ws) && (HasSpawn(ws) || HasTask(ws)))
    && (HasReady(ws) ==> PolledBeat(ws) && HasTimeout(ws))
    && (NeedsTask(ws) ==> HasTask(ws))
    && (HasCancel(ws) ==> mode != "Pause")
    && !(HasSpawn(ws) && HasTask(ws))
  }

  // The whole rule book.
  ghost predicate Sound(mode: string, ws: seq<Written>) {
    && (forall w :: w in ws ==> SoundAlone(w))
    && !ClauseTwice(ws) && !NoSlots(ws) && !SlotTwice(ws)
    && Cross(mode, ws)
  }

  // -------------------------------------------------- what was picked up

  predicate KindIs(c: Clause) {
    && (KindOf(c) == SpawnKind <==> c.Spawn?)
    && (KindOf(c) == TaskKind <==> c.TaskFn?)
    && (KindOf(c) == DiscoverKind <==> c.Discover?)
    && (KindOf(c) == ReadyKind <==> c.ReadyOnWrite?)
    && (KindOf(c) == BeatTimeoutKind <==> c.BeatTimeout?)
    && (KindOf(c) == BeatWindowKind <==> c.BeatWindow?)
    && (KindOf(c) == CancelKind <==> c.Cancel?)
    && (KindOf(c) == ResourcesKind <==> c.Resources?)
    && (KindOf(c) == StateKind <==> c.State?)
    && (KindOf(c) == ExitKind <==> c.Exit?)
    && (KindOf(c) == ReadsKind <==> c.Reads?)
    && (KindOf(c) == WritesKind <==> c.Writes?)
  }

  lemma KindsAre(c: Clause)
    ensures KindIs(c)
  {
  }

  // The one clause of a kind, if there is one.
  ghost predicate OnlyOne(ws: seq<Written>, k: Kind) {
    match Pick(ws, k)
    case Some(p) => p in ws && KindOf(p.clause) == k && forall w :: w in ws && KindOf(w.clause) == k ==> w == p
    case None => forall w :: w in ws ==> KindOf(w.clause) != k
  }

  lemma Picked(ws: seq<Written>, k: Kind)
    requires NoDuplicates(ws) && k != ExitKind && k != ProvidesKind
    ensures OnlyOne(ws, k)
  {
    PickNone(ws, k);
    hide Pick, KindOf;
    if Pick(ws, k).Some? {
      var p := Pick(ws, k).value;
      forall w | w in ws && KindOf(w.clause) == k
        ensures w == p
      {
        var i :| 0 <= i < |ws| && ws[i] == w;
        var j :| 0 <= j < |ws| && ws[j] == p;
        assert i == j;
      }
    }
  }

  lemma AnyOf(ws: seq<Written>, k: Kind)
    ensures Pick(ws, k).Some? <==> exists w :: w in ws && KindOf(w.clause) == k
  {
    PickNone(ws, k);
    hide Pick, KindOf;
  }

  lemma SpawnPicked(ws: seq<Written>)
    ensures Pick(ws, SpawnKind).Some? <==> HasSpawn(ws)
  {
    AnyOf(ws, SpawnKind);
    hide Pick;
  }

  lemma TaskPicked(ws: seq<Written>)
    ensures Pick(ws, TaskKind).Some? <==> HasTask(ws)
  {
    AnyOf(ws, TaskKind);
    hide Pick;
  }

  lemma DiscoverPicked(ws: seq<Written>)
    ensures Pick(ws, DiscoverKind).Some? <==> HasDiscover(ws)
  {
    AnyOf(ws, DiscoverKind);
    hide Pick;
  }

  lemma ReadyPicked(ws: seq<Written>)
    ensures Pick(ws, ReadyKind).Some? <==> HasReady(ws)
  {
    AnyOf(ws, ReadyKind);
    hide Pick;
  }

  lemma TimeoutPicked(ws: seq<Written>)
    ensures Pick(ws, BeatTimeoutKind).Some? <==> HasTimeout(ws)
  {
    AnyOf(ws, BeatTimeoutKind);
    hide Pick;
  }

  lemma WindowPicked(ws: seq<Written>)
    ensures Pick(ws, BeatWindowKind).Some? <==> HasWindow(ws)
  {
    AnyOf(ws, BeatWindowKind);
    hide Pick;
  }

  lemma CancelPicked(ws: seq<Written>)
    ensures Pick(ws, CancelKind).Some? <==> HasCancel(ws)
  {
    AnyOf(ws, CancelKind);
    hide Pick;
  }

  // ------------------------------------------------- rule by rule

  lemma SameIsKind(a: Written, b: Written)
    requires KindOf(a.clause) != NoKind
    ensures SameClause(a.clause, b.clause) <==> !MayFollow(a, b)
  {
  }

  lemma RepeatRules(ws: seq<Written>)
    requires EachOk(ws)
    ensures NoDuplicates(ws) <==> !ClauseTwice(ws)
  {
    forall i, j | 0 <= i < j < |ws|
      ensures MayFollow(ws[i], ws[j]) <==> !SameClause(ws[i].clause, ws[j].clause)
    {
      assert AloneOk(ws[i]);
      SameIsKind(ws[i], ws[j]);
    }
    hide AloneOk, KindOf, MayFollow, SameClause;
  }

  lemma TimeoutRule(ws: seq<Written>)
    requires OnlyOne(ws, BeatTimeoutKind)
    ensures var t := Pick(ws, BeatTimeoutKind); (t.Some? ==> Millis(NumberIn(t.value))) <==> !BadBeatTimeout(ws)
  {
    hide Pick;
  }

  lemma WindowRule(ws: seq<Written>)
    requires OnlyOne(ws, BeatWindowKind)
    ensures var w := Pick(ws, BeatWindowKind); (w.Some? ==> 1 <= NumberIn(w.value) <= 255) <==> !BadBeatWindow(ws)
  {
    hide Pick;
  }

  lemma GateRule(ws: seq<Written>)
    requires OnlyOne(ws, BeatTimeoutKind) && OnlyOne(ws, BeatWindowKind) && OnlyOne(ws, ReadyKind)
    ensures var t, w, r := Pick(ws, BeatTimeoutKind), Pick(ws, BeatWindowKind), Pick(ws, ReadyKind);
            (t.Some? && t.value.cfg != [] ==>
               && (w.Some? ==> CfgText(w.value.cfg) == CfgText(t.value.cfg))
               && (r.Some? ==> CfgText(r.value.cfg) == CfgText(t.value.cfg)))
            <==> !GatesDiffer(ws)
  {
    hide Pick, CfgText;
  }

  lemma ListsPicked(ws: seq<Written>)
    requires OnlyOne(ws, ReadsKind) && OnlyOne(ws, WritesKind)
    ensures forall d :: d in SignalsIn(Pick(ws, ReadsKind)) <==> ReadsEntry(ws, d)
    ensures forall d :: d in SignalsIn(Pick(ws, WritesKind)) <==> WritesEntry(ws, d)
  {
    hide Pick;
  }

  lemma EntryRules(ws: seq<Written>)
    requires OnlyOne(ws, ReadsKind) && OnlyOne(ws, WritesKind)
    ensures var ins, outs := SignalsIn(Pick(ws, ReadsKind)), SignalsIn(Pick(ws, WritesKind));
            && (NoneBeatOrVeto(ins) <==> !BeatOnRead(ws))
            && (AllMarked(ins) && AllMarked(outs) <==> !UnmarkedEntry(ws))
            && (HasPolledBeat(outs) <==> PolledBeat(ws))
  {
    ListsPicked(ws);
    var ins, outs := SignalsIn(Pick(ws, ReadsKind)), SignalsIn(Pick(ws, WritesKind));
    hide Pick, SignalsIn, ReadsEntry, WritesEntry, OnlyOne;
    assert NoneBeatOrVeto(ins) <==> forall d :: d in ins ==> !d.beat && !d.veto;
    assert AllMarked(ins) <==> forall d :: d in ins ==> Marked(d);
    assert AllMarked(outs) <==> forall d :: d in outs ==> Marked(d);
    assert HasPolledBeat(outs) <==> exists d :: d in outs && d.beat && d.observed;
    hide NoneBeatOrVeto, AllMarked, HasPolledBeat;
  }

  lemma TaskRule(ws: seq<Written>)
    ensures NeedsTask(ws) <==>
            (Pick(ws, ResourcesKind).Some? || Pick(ws, StateKind).Some? || Pick(ws, ExitKind).Some?
             || Pick(ws, CancelKind).Some?)
  {
    AnyOf(ws, ResourcesKind);
    AnyOf(ws, StateKind);
    AnyOf(ws, ExitKind);
    AnyOf(ws, CancelKind);
    forall w | w in ws
      ensures KindIs(w.clause)
    {
      KindsAre(w.clause);
    }
    hide Pick, KindOf;
  }

  lemma NamesTwice(list: seq<Entry>)
    ensures Unrepeated(list) <==> !NameTwice(list)
  {
  }

  lemma ResourceRule(ws: seq<Written>)
    requires OnlyOne(ws, ResourcesKind)
    ensures var r := Pick(ws, ResourcesKind);
            (r.Some? ==> DeclsIn(r.value) != [] && Unrepeated(DeclsIn(r.value))) <==> !BadResources(ws)
  {
    var r := Pick(ws, ResourcesKind);
    if r.Some? {
      NamesTwice(DeclsIn(r.value));
    }
    hide Pick, Unrepeated, NameTwice;
  }

  // -------------------------------------------------------------- provides

  lemma NoSlotsStep(ws: seq<Written>, w: Written)
    ensures NoSlots(ws + [w]) <==>
            NoSlots(ws) || (w.clause == Provides([]) && forall i :: 0 <= i < |ws| ==> !ws[i].clause.Provides?)
  {
    var all := ws + [w];
    assert forall i :: 0 <= i < |ws| ==> all[i] == ws[i];
    assert all[|ws|] == w;
    if NoSlots(ws) {
      var j :| 0 <= j < |ws| && ws[j].clause == Provides([]) && forall i :: 0 <= i < j ==> !ws[i].clause.Provides?;
      assert all[j].clause == Provides([]);
    }
  }

  lemma {:induction false} NothingProvided(ws: seq<Written>)
    requires !NoSlots(ws) && ProvidesOf(ws) == []
    ensures forall i :: 0 <= i < |ws| ==> !ws[i].clause.Provides?
  {
    if ws != [] {
      var front, last := ws[..|ws| - 1], ws[|ws| - 1];
      assert ws == front + [last];
      NoSlotsStep(front, last);
      hide NoSlots;
      NothingProvided(front);
      assert forall i :: 0 <= i < |front| ==> ws[i] == front[i];
    }
  }

  lemma JoinedUnrepeated(p: seq<Entry>, q: seq<Entry>)
    ensures Unrepeated(p + q) ==> Unrepeated(p)
  {
    assert forall i :: 0 <= i < |p| ==> (p + q)[i] == p[i];
  }

  lemma {:induction false} ProvidesExactly(ws: seq<Written>)
    ensures ProvidesOk(ws) <==> !NoSlots(ws) && Unrepeated(ProvidesOf(ws))
  {
    if ws != [] {
      var front, last := ws[..|ws| - 1], ws[|ws| - 1];
      assert ws == front + [last];
      ProvidesExactly(front);
      NoSlotsStep(front, last);
      JoinedUnrepeated(ProvidesOf(front), SlotsOf(last));
      if !NoSlots(front) && ProvidesOf(front) == [] {
        NothingProvided(front);
      }
      ProvidesKeep(front);
      hide NoSlots, Unrepeated;
      assert SlotsOf(last) == [] ==> ProvidesOf(front) + SlotsOf(last) == ProvidesOf(front);
    }
  }

  // Once a slot is provided, some clause provides.
  lemma {:induction false} ProvidesKeep(ws: seq<Written>)
    ensures ProvidesOf(ws) != [] ==> exists i :: 0 <= i < |ws| && ws[i].clause.Provides?
  {
    if ws != [] {
      ProvidesKeep(ws[..|ws| - 1]);
      assert forall i :: 0 <= i < |ws| - 1 ==> ws[i] == ws[..|ws| - 1][i];
    }
  }

  lemma SharedName(p: seq<Entry>, q: seq<Entry>)
    ensures Unrepeated(p + q)
            <==> Unrepeated(p) && Unrepeated(q) && forall x, y :: x in p && y in q ==> x.name != y.name
  {
    var all := p + q;
    assert forall i :: 0 <= i < |p| ==> all[i] == p[i];
    assert forall i :: 0 <= i < |q| ==> all[|p| + i] == q[i];
    if Unrepeated(all) {
      forall x, y | x in p && y in q
        ensures x.name != y.name
      {
        var i :| 0 <= i < |p| && p[i] == x;
        var j :| 0 <= j < |q| && q[j] == y;
        assert all[i].name != all[|p| + j].name;
      }
    }
  }

  lemma SlotNamesStep(ws: seq<Written>, w: Written, x: Entry)
    ensures (exists i, a :: SlotAt(ws + [w], i, a) && (ws + [w])[i].clause.slots[a] == x)
            <==> (exists i, a :: SlotAt(ws, i, a) && ws[i].clause.slots[a] == x) || x in SlotsOf(w)
  {
    var all, n := ws + [w], |ws|;
    assert all[n] == w && forall i :: 0 <= i < n ==> all[i] == ws[i];
    if i, a :| SlotAt(all, i, a) && all[i].clause.slots[a] == x {
      assert i < n ==> SlotAt(ws, i, a);
    }
    if i, a :| SlotAt(ws, i, a) && ws[i].clause.slots[a] == x {
      assert SlotAt(all, i, a);
    }
    if x in SlotsOf(w) {
      var a :| 0 <= a < |SlotsOf(w)| && SlotsOf(w)[a] == x;
      assert SlotAt(all, n, a);
    }
  }

  lemma {:induction false} SlotNames(ws: seq<Written>, x: Entry)
    ensures x in ProvidesOf(ws) <==> exists i, a :: SlotAt(ws, i, a) && ws[i].clause.slots[a] == x
  {
    if ws != [] {
      var front, last := ws[..|ws| - 1], ws[|ws| - 1];
      assert ws == front + [last];
      SlotNames(front, x);
      SlotNamesStep(front, last, x);
      hide SlotAt, SlotsOf;
    }
  }

  lemma TwiceStays(ws: seq<Written>, w: Written)
    requires SlotTwice(ws) || NameTwice(SlotsOf(w))
    ensures SlotTwice(ws + [w])
  {
    var all, n := ws + [w], |ws|;
    assert all[n] == w && forall i :: 0 <= i < n ==> all[i] == ws[i];
    if SlotTwice(ws) {
      var i, a, j, b :| SlotAt(ws, i, a) && SlotAt(ws, j, b) && (i < j || (i == j && a < b))
                        && ws[i].clause.slots[a].name == ws[j].clause.slots[b].name;
      assert SlotAt(all, i, a) && SlotAt(all, j, b);
    } else {
      var a, b :| 0 <= a < b < |SlotsOf(w)| && SlotsOf(w)[a].name == SlotsOf(w)[b].name;
      assert SlotAt(all, n, a) && SlotAt(all, n, b);
    }
  }

  lemma TwiceAcross(ws: seq<Written>, w: Written, x: Entry, y: Entry)
    requires x in ProvidesOf(ws) && y in SlotsOf(w) && x.name == y.name
    ensures SlotTwice(ws + [w])
  {
    SlotNames(ws, x);
    var all, n := ws + [w], |ws|;
    assert all[n] == w && forall i :: 0 <= i < n ==> all[i] == ws[i];
    var i, a :| SlotAt(ws, i, a) && ws[i].clause.slots[a] == x;
    var b :| 0 <= b < |SlotsOf(w)| && SlotsOf(w)[b] == y;
    assert SlotAt(all, i, a) && SlotAt(all, n, b);
  }

  lemma TwiceFrom(ws: seq<Written>, w: Written)
    requires SlotTwice(ws + [w])
    ensures SlotTwice(ws) || NameTwice(SlotsOf(w))
            || exists x, y :: x in ProvidesOf(ws) && y in SlotsOf(w) && x.name == y.name
  {
    hide ProvidesOf;
    var all, n := ws + [w], |ws|;
    assert all[n] == w && forall i :: 0 <= i < n ==> all[i] == ws[i];
    var i, a, j, b :| SlotAt(all, i, a) && SlotAt(all, j, b) && (i < j || (i == j && a < b))
                      && all[i].clause.slots[a].name == all[j].clause.slots[b].name;
    if j < n {
      assert SlotAt(ws, i, a) && SlotAt(ws, j, b);
    } else if i < n {
      assert SlotAt(ws, i, a);
      SlotNames(ws, ws[i].clause.slots[a]);
      assert SlotsOf(w)[b] in SlotsOf(w);
    }
  }

  lemma TwiceStep(ws: seq<Written>, w: Written)
    ensures SlotTwice(ws + [w])
            <==> SlotTwice(ws) || NameTwice(SlotsOf(w))
                 || exists x, y :: x in ProvidesOf(ws) && y in SlotsOf(w) && x.name == y.name
  {
    hide *;
    if SlotTwice(ws + [w]) {
      TwiceFrom(ws, w);
    }
    if SlotTwice(ws) || NameTwice(SlotsOf(w)) {
      TwiceStays(ws, w);
    }
    forall x, y | x in ProvidesOf(ws) && y in SlotsOf(w) && x.name == y.name
      ensures SlotTwice(ws + [w])
    {
      TwiceAcross(ws, w, x, y);
    }
  }

  lemma {:induction false} SlotsExactly(ws: seq<Written>)
    ensures Unrepeated(ProvidesOf(ws)) <==> !SlotTwice(ws)
  {
    if ws != [] {
      var front, last := ws[..|ws| - 1], ws[|ws| - 1];
      assert ws == front + [last];
      SlotsExactly(front);
      TwiceStep(front, last);
      SharedName(ProvidesOf(front), SlotsOf(last));
      NamesTwice(SlotsOf(last));
      hide SlotTwice, Unrepeated, NameTwice, SlotsOf;
    }
  }

  // ------------------------------------------------------------ all together

  lemma EachExactly(ws: seq<Written>)
    ensures EachOk(ws) <==> forall w :: w in ws ==> SoundAlone(w)
  {
    forall w: Written
      ensures AloneOk(w) <==> SoundAlone(w)
    {
      AloneExactly(w);
    }
    hide AloneOk, SoundAlone;
  }

  lemma CrossExactly(mode: string, ws: seq<Written>)
    requires NoDuplicates(ws)
    ensures Consistent(mode, CommonOf(ws), OwnOf(ws)) <==> Cross(mode, ws)
  {
    Picked(ws, BeatTimeoutKind);
    Picked(ws, BeatWindowKind);
    Picked(ws, ReadyKind);
    Picked(ws, ReadsKind);
    Picked(ws, WritesKind);
    Picked(ws, ResourcesKind);
    hide Pick, NoDuplicates, OnlyOne, SignalsIn, DeclsIn, NumberIn, Millis, Unrepeated, NoneBeatOrVeto, AllMarked,
         HasPolledBeat, CfgText;
    hide BadBeatTimeout, BadBeatWindow, BadResources, HasWindow, HasTimeout, GatesDiffer, BeatOnRead, HasDiscover,
         UnmarkedEntry, HasSpawn, HasTask, HasReady, PolledBeat, NeedsTask, HasCancel;
    TimeoutRule(ws);
    WindowRule(ws);
    GateRule(ws);
    EntryRules(ws);
    TaskRule(ws);
    ResourceRule(ws);
    SpawnPicked(ws);
    TaskPicked(ws);
    DiscoverPicked(ws);
    ReadyPicked(ws);
    TimeoutPicked(ws);
    WindowPicked(ws);
    CancelPicked(ws);
  }

  // Main result: a declaration is accepted exactly when its clauses, as they
  // are written, break no rule.
  lemma AcceptedExactly(mode: string, ws: seq<Written>)
    ensures Acceptable(mode, ws) <==> Sound(mode, ws)
    ensures Parsed(mode, ws).Some? <==> Sound(mode, ws)
  {
    EachExactly(ws);
    ProvidesExactly(ws);
    SlotsExactly(ws);
    if EachOk(ws) {
      RepeatRules(ws);
      if NoDuplicates(ws) {
        CrossExactly(mode, ws);
      }
    }
    hide EachOk, NoDuplicates, ProvidesOk, ProvidesOf, Unrepeated, SoundAlone, ClauseTwice, NoSlots, SlotTwice,
         Consistent, CommonOf, OwnOf, Cross;
  }

  // The item's field for this clause holds it; the last of several `exit:`.
  predicate InField(item: NodeItem, w: Written) {
    match w.clause
    case Spawn(_) => item.common.spawn == Some(w)
    case TaskFn(_) => item.common.task == Some(w)
    case Executor(_) => item.common.executor == Some(w)
    case Resources(_) => item.common.resources == Some(w)
    case Reads(list) => item.common.readList == list
    case Writes(list) => item.common.writeList == list
    case State(_) => item.common.state == Some(w)
    case SlotTimeout(_) => item.common.slotTimeout == Some(w)
    case AckTimeout(_) => item.common.ackTimeout == Some(w)
    case Discover(_) => item.common.discover == Some(w)
    case DataflowFns(_) => item.common.dataflow == Some(w)
    case Cancel => item.common.cancel == Some(w)
    case Deps(_) => item.own.deps == Some(w)
    case Disabled => item.own.disabled == Some(w)
    case ReadyOnWrite => item.own.readyOnWrite == Some(w)
    case BeatTimeout(_) => item.own.beatTimeout == Some(w)
    case BeatWindow(_) => item.own.beatWindow == Some(w)
    case EnabledIf(_) => item.own.enabledIf == Some(w)
    case RestartBudget(_, _) => item.own.restartBudget == Some(w)
    case Exit(_) => item.own.exit.Some? && item.own.exit.value.clause.Exit?
    case Provides(list) => forall e :: e in list ==> e in item.slots
    case _ => false
  }

  lemma SlotsWritten(ws: seq<Written>, w: Written)
    requires w in ws && w.clause.Provides?
    ensures forall e :: e in w.clause.slots ==> e in ProvidesOf(ws)
  {
    var i :| 0 <= i < |ws| && ws[i] == w;
    forall e | e in w.clause.slots
      ensures e in ProvidesOf(ws)
    {
      var a :| 0 <= a < |w.clause.slots| && w.clause.slots[a] == e;
      assert SlotAt(ws, i, a);
      SlotNames(ws, e);
    }
  }

  lemma PickInField(mode: string, ws: seq<Written>, w: Written)
    requires Pick(ws, KindOf(w.clause)) == Some(w) && KindOf(w.clause) != NoKind && !w.clause.Provides?
    ensures InField(NodeItem(mode, CommonOf(ws), OwnOf(ws), ProvidesOf(ws)), w)
  {
    hide Pick, ProvidesOf;
  }

  lemma ExitPicked(ws: seq<Written>, w: Written)
    requires w in ws && w.clause.Exit?
    ensures OwnOf(ws).exit.Some? && OwnOf(ws).exit.value.clause.Exit?
  {
    AnyOf(ws, ExitKind);
    KindsAre(w.clause);
    PickFrom(ws, ExitKind);
    hide Pick, KindOf;
  }

  lemma ExitInField(item: NodeItem, w: Written)
    requires w.clause.Exit? && item.own.exit.Some? && item.own.exit.value.clause.Exit?
    ensures InField(item, w)
  {
  }

  lemma ParsedIs(mode: string, ws: seq<Written>, w: Written)
    requires Parsed(mode, ws).Some? && w in ws
    ensures Parsed(mode, ws) == Some(NodeItem(mode, CommonOf(ws), OwnOf(ws), ProvidesOf(ws)))
    ensures AloneOk(w) && NoDuplicates(ws)
  {
    hide AloneOk, NoDuplicates, CommonOf, OwnOf, ProvidesOf, ProvidesOk, Consistent;
  }

  lemma AloneHasKind(w: Written)
    requires AloneOk(w)
    ensures KindOf(w.clause) != NoKind
    ensures w.clause.Provides? <==> KindOf(w.clause) == ProvidesKind
    ensures w.clause.Exit? <==> KindOf(w.clause) == ExitKind
  {
  }

  lemma ProvidesInField(item: NodeItem, w: Written)
    requires w.clause.Provides? && forall e :: e in w.clause.slots ==> e in item.slots
    ensures InField(item, w)
  {
  }

  lemma OnlyIsPicked(ws: seq<Written>, w: Written)
    requires OnlyOne(ws, KindOf(w.clause)) && w in ws
    ensures Pick(ws, KindOf(w.clause)) == Some(w)
  {
    hide Pick, KindOf;
  }

  // What is written is kept, each clause in its own field.
  lemma ItemIsWritten(mode: string, ws: seq<Written>, w: Written)
    requires Parsed(mode, ws).Some? && w in ws
    ensures Parsed(mode, ws).value.mode == mode && InField(Parsed(mode, ws).value, w)
  {
    hide *;
    ParsedIs(mode, ws, w);
    AloneHasKind(w);
    if w.clause.Provides? {
      SlotsWritten(ws, w);
      ProvidesInField(Parsed(mode, ws).value, w);
    } else if w.clause.Exit? {
      ExitPicked(ws, w);
      ExitInField(Parsed(mode, ws).value, w);
    } else {
      Picked(ws, KindOf(w.clause));
      OnlyIsPicked(ws, w);
      PickInField(mode, ws, w);
    }
  }

  predicate From(o: Option<Written>, ws: seq<Written>) { o.Some? ==> o.value in ws }

  predicate OtherKindIs(c: Clause) {
    && (KindOf(c) == ExecutorKind <==> c.Executor?)
    && (KindOf(c) == SlotTimeoutKind <==> c.SlotTimeout?)
    && (KindOf(c) == AckTimeoutKind <==> c.AckTimeout?)
    && (KindOf(c) == DataflowKind <==> c.DataflowFns?)
    && (KindOf(c) == DepsKind <==> c.Deps?)
    && (KindOf(c) == DisabledKind <==> c.Disabled?)
    && (KindOf(c) == EnabledKind <==> c.EnabledIf?)
    && (KindOf(c) == BudgetKind <==> c.RestartBudget?)
  }

  ghost predicate PicksKind(ws: seq<Written>, k: Kind) {
    match Pick(ws, k)
    case Some(w) => w in ws && KindOf(w.clause) == k && KindIs(w.clause) && OtherKindIs(w.clause)
    case None => true
  }

  lemma PickFrom(ws: seq<Written>, k: Kind)
    ensures PicksKind(ws, k)
  {
    var p := Pick(ws, k);
    if p.Some? {
      KindsAre(p.value.clause);
      assert OtherKindIs(p.value.clause);
    }
    hide Pick, KindOf, KindIs, OtherKindIs;
  }

  // A field that is filled holds a clause that was written, and of its kind;
  // a slot of the list is an entry of some `provides:`.
  lemma CommonIsWritten(ws: seq<Written>)
    ensures var c := CommonOf(ws);
            && From(c.executor, ws) && (c.executor.Some? ==> c.executor.value.clause.Executor?)
            && From(c.spawn, ws) && (c.spawn.Some? ==> c.spawn.value.clause.Spawn?)
            && From(c.task, ws) && (c.task.Some? ==> c.task.value.clause.TaskFn?)
            && From(c.resources, ws) && (c.resources.Some? ==> c.resources.value.clause.Resources?)
            && From(c.state, ws) && (c.state.Some? ==> c.state.value.clause.State?)
            && From(c.slotTimeout, ws) && (c.slotTimeout.Some? ==> c.slotTimeout.value.clause.SlotTimeout?)
            && From(c.ackTimeout, ws) && (c.ackTimeout.Some? ==> c.ackTimeout.value.clause.AckTimeout?)
            && From(c.cancel, ws) && (c.cancel.Some? ==> c.cancel.value.clause.Cancel?)
            && From(c.discover, ws) && (c.discover.Some? ==> c.discover.value.clause.Discover?)
            && From(c.dataflow, ws) && (c.dataflow.Some? ==> c.dataflow.value.clause.DataflowFns?)
  {
    hide Pick, SignalsIn, KindOf;
    PickFrom(ws, ExecutorKind);
    PickFrom(ws, SpawnKind);
    PickFrom(ws, TaskKind);
    PickFrom(ws, ResourcesKind);
    PickFrom(ws, StateKind);
    PickFrom(ws, SlotTimeoutKind);
    PickFrom(ws, AckTimeoutKind);
    PickFrom(ws, CancelKind);
    PickFrom(ws, DiscoverKind);
    PickFrom(ws, DataflowKind);
  }

  lemma OwnIsWritten(ws: seq<Written>)
    ensures var o := OwnOf(ws);
            && From(o.deps, ws) && (o.deps.Some? ==> o.deps.value.clause.Deps?)
            && From(o.disabled, ws) && (o.disabled.Some? ==> o.disabled.value.clause.Disabled?)
            && From(o.readyOnWrite, ws) && (o.readyOnWrite.Some? ==> o.readyOnWrite.value.clause.ReadyOnWrite?)
            && From(o.beatTimeout, ws) && (o.beatTimeout.Some? ==> o.beatTimeout.value.clause.BeatTimeout?)
            && From(o.beatWindow, ws) && (o.beatWindow.Some? ==> o.beatWindow.value.clause.BeatWindow?)
            && From(o.enabledIf, ws) && (o.enabledIf.Some? ==> o.enabledIf.value.clause.EnabledIf?)
            && From(o.restartBudget, ws) && (o.restartBudget.Some? ==> o.restartBudget.value.clause.RestartBudget?)
            && From(o.exit, ws) && (o.exit.Some? ==> o.exit.value.clause.Exit?)
  {
    hide Pick, KindOf;
    PickFrom(ws, DepsKind);
    PickFrom(ws, DisabledKind);
    PickFrom(ws, ReadyKind);
    PickFrom(ws, BeatTimeoutKind);
    PickFrom(ws, BeatWindowKind);
    PickFrom(ws, EnabledKind);
    PickFrom(ws, BudgetKind);
    PickFrom(ws, ExitKind);
  }

  // ------------------------------------------------------------- examples

  function Signal(path: string, observed: bool, beat: bool): SignalDecl {
    SignalDecl([], path, None, observed, beat, false, None)
  }

  function Polling(list: seq<SignalDecl>): seq<Written> {
    [Written([], Writes(list)), Written([], BeatTimeout(1000)), Written([], ReadyOnWrite)]
  }

  // `ready_on_write` beside a beat budget is accepted exactly for one entry
  // that is both observed and a beat, not for two that share the marks.
  lemma ReadyTried(list: seq<SignalDecl>)
    requires SignalsOk(list)
    ensures Acceptable("Terminate", Polling(list)) <==> exists d :: d in list && d.observed && d.beat
  {
    var ws := Polling(list);
    assert AloneOk(ws[0]) && AloneOk(ws[1]) && AloneOk(ws[2]);
    hide AloneOk, Acceptable, SoundAlone, Parsed;
    AcceptedExactly("Terminate", ws);
    AloneExactly(ws[0]);
    AloneExactly(ws[1]);
    AloneExactly(ws[2]);
    hide SignalsOk;
    PollingSound(list);
  }

  lemma PollingHas(list: seq<SignalDecl>)
    ensures var ws := Polling(list);
            && !NeedsTask(ws) && !HasTask(ws) && !HasSpawn(ws) && !HasDiscover(ws) && !HasCancel(ws) && !HasWindow(ws)
            && HasReady(ws) && HasTimeout(ws)
  {
    var ws := Polling(list);
    assert ws[1] in ws && ws[2] in ws;
  }

  lemma PollingLists(list: seq<SignalDecl>)
    ensures var ws := Polling(list);
            && !ClauseTwice(ws) && !NoSlots(ws) && !SlotTwice(ws)
            && !BadBeatTimeout(ws) && !BadBeatWindow(ws) && !BadResources(ws) && !GatesDiffer(ws) && !BeatOnRead(ws)
            && (PolledBeat(ws) <==> exists d :: d in list && d.observed && d.beat)
  {
    var ws := Polling(list);
    assert ws[0] in ws;
    assert forall d :: WritesEntry(ws, d) <==> d in list;
    hide WritesEntry;
  }

  lemma PollingSound(list: seq<SignalDecl>)
    requires forall w :: w in Polling(list) ==> SoundAlone(w)
    ensures Sound("Terminate", Polling(list)) <==> exists d :: d in list && d.observed && d.beat
  {
    PollingHas(list);
    PollingLists(list);
    hide Polling, SoundAlone, ClauseTwice, NoSlots, SlotTwice, BadBeatTimeout, BadBeatWindow, BadResources, GatesDiffer;
    hide BeatOnRead, PolledBeat, NeedsTask, HasTask, HasSpawn, HasDiscover, HasCancel, HasWindow, HasReady, HasTimeout;
  }

  // `[S beat]`, `[S observed]` and `[S beat, T observed]` are refused, and
  // `[S observed beat]` is accepted.
  lemma ReadyExamples(s: string, t: string)
    requires s != t
    ensures !Acceptable("Terminate", Polling([Signal(s, false, true)]))
    ensures !Acceptable("Terminate", Polling([Signal(s, true, false)]))
    ensures !Acceptable("Terminate", Polling([Signal(s, false, true), Signal(t, true, false)]))
    ensures Acceptable("Terminate", Polling([Signal(s, true, true)]))
  {
    hide Acceptable, Polling;
    ReadyTried([Signal(s, false, true)]);
    ReadyTried([Signal(s, true, false)]);
    ReadyTried([Signal(s, false, true), Signal(t, true, false)]);
    ReadyTried([Signal(s, true, true)]);
    assert Signal(s, true, true) in [Signal(s, true, true)];
  }
}
