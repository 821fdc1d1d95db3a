// Parsing a node declaration clause by clause
// (supervisor-syntax/src/lib.rs:265-302, 922-1584).
module NodeParser {
  import opened Tokens
  import opened Cfg

  type Expr = seq<Token>

  datatype Attribute = CfgList(pred: Raw) | OtherAttribute(text: Raw)

  datatype Gated<T> = Gated(cfg: seq<Attribute>, value: T)

  datatype Entry = Entry(cfg: seq<Attribute>, name: string, rest: Expr)

  datatype SignalDecl = SignalDecl(cfg: seq<Attribute>, path: string, index: Option<Expr>, observed: bool, beat: bool,
      veto: bool, via: Option<Expr>)

  datatype StateDecl = StateDecl(ty: Expr, init: Option<Expr>)

  // The clauses, their list entries already parsed; `Refused` is any other
  // word and any clause whose own entries do not parse.
  datatype Clause =
    | Spawn(expr: Expr) | TaskFn(expr: Expr) | Executor(name: string) | Resources(decls: seq<Entry>)
    | Reads(signals: seq<SignalDecl>) | Writes(signals: seq<SignalDecl>) | State(decl: StateDecl)
    | SlotTimeout(ms: nat) | AckTimeout(ms: nat) | Discover(colon: bool) | DataflowFns(fns: seq<Entry>) | Cancel
    | Deps(deps: seq<Entry>) | PoolSize | Disabled | ReadyOnWrite | BeatTimeout(ms: nat) | BeatWindow(sweeps: nat)
    | EnabledIf(expr: Expr) | RestartBudget(max: nat, window: nat) | Exit(ty: Expr) | Provides(slots: seq<Entry>)
    | Refused

  datatype Kind =
    | SpawnKind | TaskKind | ExecutorKind | ResourcesKind | ReadsKind | WritesKind | StateKind | SlotTimeoutKind
    | AckTimeoutKind | DiscoverKind | DataflowKind | CancelKind | DepsKind | DisabledKind | ReadyKind
    | BeatTimeoutKind | BeatWindowKind | EnabledKind | BudgetKind | ExitKind | ProvidesKind | NoKind

  function KindOf(c: Clause): Kind {
    match c
    case Spawn(_) => SpawnKind
    case TaskFn(_) => TaskKind
    case Executor(_) => ExecutorKind
    case Resources(_) => ResourcesKind
    case Reads(_) => ReadsKind
    case Writes(_) => WritesKind
    case State(_) => StateKind
    case SlotTimeout(_) => SlotTimeoutKind
    case AckTimeout(_) => AckTimeoutKind
    case Discover(_) => DiscoverKind
    case DataflowFns(_) => DataflowKind
    case Cancel => CancelKind
    case Deps(_) => DepsKind
    case Disabled => DisabledKind
    case ReadyOnWrite => ReadyKind
    case BeatTimeout(_) => BeatTimeoutKind
    case BeatWindow(_) => BeatWindowKind
    case EnabledIf(_) => EnabledKind
    case RestartBudget(_, _) => BudgetKind
    case Exit(_) => ExitKind
    case Provides(_) => ProvidesKind
    case PoolSize => NoKind
    case Refused => NoKind
  }

  predicate IsCommon(k: Kind) {
    k in {SpawnKind, TaskKind, ExecutorKind, ResourcesKind, ReadsKind, WritesKind, StateKind, SlotTimeoutKind,
      AckTimeoutKind, DiscoverKind, DataflowKind, CancelKind}
  }

  // A clause with the attributes written before it.
  datatype Written = Written(cfg: seq<Attribute>, clause: Clause)

  // ------------------------------------------------ one clause on its own

  predicate Gateable(k: Kind) {
    k in {SlotTimeoutKind, AckTimeoutKind, DiscoverKind, BeatTimeoutKind, BeatWindowKind, EnabledKind, BudgetKind,
      ReadyKind, DisabledKind}
  }

  predicate AllCfg(attrs: seq<Attribute>) { forall k :: 0 <= k < |attrs| ==> attrs[k].CfgList? }

  predicate GateOk(w: Written) { w.cfg == [] || (AllCfg(w.cfg) && Gateable(KindOf(w.clause))) }

  // A literal `base10_parse::<u64>` accepts.
  predicate U64(n: nat) { n < 0x1_0000_0000_0000_0000 }

  predicate Millis(n: nat) { U64(n) && n != 0 }

  predicate Unrepeated(list: seq<Entry>) {
    forall i, j :: 0 <= i < j < |list| ==> list[i].name != list[j].name
  }

  // `check_signal_list`
  predicate SignalsOk(list: seq<SignalDecl>) {
    && list != []
    && forall i, j :: 0 <= i < j < |list| ==> Compatible(list[i], list[j])
  }

  predicate Compatible(a: SignalDecl, b: SignalDecl) {
    a.path != b.path || (a.index != b.index && a.index.Some? == b.index.Some?)
  }

  predicate ClauseOk(c: Clause) {
    match c
    case Reads(list) => SignalsOk(list)
    case Writes(list) => SignalsOk(list)
    case SlotTimeout(ms) => Millis(ms)
    case AckTimeout(ms) => Millis(ms)
    case Discover(colon) => !colon
    case DataflowFns(fns) => fns != [] && Unrepeated(fns)
    case RestartBudget(max, window) => 1 <= max <= 65535 && Millis(window)
    case Provides(slots) => forall k :: 0 <= k < |slots| ==> AllCfg(slots[k].cfg)
    case PoolSize => false
    case Refused => false
    case _ => true
  }

  predicate AloneOk(w: Written) { GateOk(w) && ClauseOk(w.clause) }

  // ------------------------------------------------- what a list declares

  // The last clause of a kind.
  function Pick(ws: seq<Written>, k: Kind): (r: Option<Written>)
    ensures r.Some? ==> r.value in ws && KindOf(r.value.clause) == k
  {
    if ws == [] then None
    else if KindOf(ws[|ws| - 1].clause) == k then Some(ws[|ws| - 1])
    else Pick(ws[..|ws| - 1], k)
  }

  function SlotsOf(w: Written): seq<Entry> { if w.clause.Provides? then w.clause.slots else [] }

  // Every `provides:` clause adds to the list.
  function ProvidesOf(ws: seq<Written>): seq<Entry> {
    if ws == [] then [] else ProvidesOf(ws[..|ws| - 1]) + SlotsOf(ws[|ws| - 1])
  }

  predicate ProvidesOk(ws: seq<Written>) {
    ws == []
    || (ProvidesOk(ws[..|ws| - 1])
        && (ws[|ws| - 1].clause.Provides? ==> ProvidesOf(ws) != [] && Unrepeated(ProvidesOf(ws))))
  }

  // `CommonClauses`: what was written for each clause, its gate included.
  datatype Common = Common(
    executor: Option<Written>, spawn: Option<Written>, task: Option<Written>, resources: Option<Written>,
    readList: seq<SignalDecl>, writeList: seq<SignalDecl>, state: Option<Written>, slotTimeout: Option<Written>,
    ackTimeout: Option<Written>, cancel: Option<Written>, discover: Option<Written>, dataflow: Option<Written>)

  function SignalsIn(o: Option<Written>): seq<SignalDecl> {
    match o
    case Some(Written(_, Reads(list))) => list
    case Some(Written(_, Writes(list))) => list
    case _ => []
  }

  function CommonOf(ws: seq<Written>): Common {
    Common(
      Pick(ws, ExecutorKind), Pick(ws, SpawnKind), Pick(ws, TaskKind), Pick(ws, ResourcesKind),
      SignalsIn(Pick(ws, ReadsKind)), SignalsIn(Pick(ws, WritesKind)), Pick(ws, StateKind), Pick(ws, SlotTimeoutKind),
      Pick(ws, AckTimeoutKind), Pick(ws, CancelKind), Pick(ws, DiscoverKind), Pick(ws, DataflowKind))
  }

  // The clauses only a node has.
  datatype Own = Own(
    deps: Option<Written>, disabled: Option<Written>, readyOnWrite: Option<Written>, beatTimeout: Option<Written>,
    beatWindow: Option<Written>, enabledIf: Option<Written>, restartBudget: Option<Written>, exit: Option<Written>)

  function OwnOf(ws: seq<Written>): Own {
    Own(
      Pick(ws, DepsKind), Pick(ws, DisabledKind), Pick(ws, ReadyKind), Pick(ws, BeatTimeoutKind),
      Pick(ws, BeatWindowKind), Pick(ws, EnabledKind), Pick(ws, BudgetKind), Pick(ws, ExitKind))
  }

  function Set(was: Option<Written>, w: Written, k: Kind): Option<Written> {
    if KindOf(w.clause) == k then Some(w) else was
  }

  // What one more clause sets.
  function Put(c: Common, w: Written): Common {
    Common(
      Set(c.executor, w, ExecutorKind), Set(c.spawn, w, SpawnKind), Set(c.task, w, TaskKind),
      Set(c.resources, w, ResourcesKind),
      if KindOf(w.clause) == ReadsKind then SignalsIn(Some(w)) else c.readList,
      if KindOf(w.clause) == WritesKind then SignalsIn(Some(w)) else c.writeList,
      Set(c.state, w, StateKind), Set(c.slotTimeout, w, SlotTimeoutKind), Set(c.ackTimeout, w, AckTimeoutKind),
      Set(c.cancel, w, CancelKind), Set(c.discover, w, DiscoverKind), Set(c.dataflow, w, DataflowKind))
  }

  lemma PutOne(c: Common, w: Written)
    ensures Put(c, w) ==
      match w.clause
      case Executor(_) => c.(executor := Some(w))
      case Spawn(_) => c.(spawn := Some(w))
      case TaskFn(_) => c.(task := Some(w))
      case Resources(_) => c.(resources := Some(w))
      case Reads(list) => c.(readList := list)
      case Writes(list) => c.(writeList := list)
      case State(_) => c.(state := Some(w))
      case SlotTimeout(_) => c.(slotTimeout := Some(w))
      case AckTimeout(_) => c.(ackTimeout := Some(w))
      case Discover(_) => c.(discover := Some(w))
      case DataflowFns(_) => c.(dataflow := Some(w))
      case Cancel => c.(cancel := Some(w))
      case _ => c
  {
  }

  function PutOwn(o: Own, w: Written): Own {
    Own(
      Set(o.deps, w, DepsKind), Set(o.disabled, w, DisabledKind), Set(o.readyOnWrite, w, ReadyKind),
      Set(o.beatTimeout, w, BeatTimeoutKind), Set(o.beatWindow, w, BeatWindowKind), Set(o.enabledIf, w, EnabledKind),
      Set(o.restartBudget, w, BudgetKind), Set(o.exit, w, ExitKind))
  }

  lemma PickAfter(ws: seq<Written>, w: Written, k: Kind)
    ensures Pick(ws + [w], k) == Set(Pick(ws, k), w, k)
  {
    assert (ws + [w])[..|ws|] == ws;
  }

  lemma CommonAfter(ws: seq<Written>, w: Written)
    ensures CommonOf(ws + [w]) == Put(CommonOf(ws), w)
  {
    hide Pick, KindOf, SignalsIn;
    forall k
      ensures Pick(ws + [w], k) == Set(Pick(ws, k), w, k)
    {
      PickAfter(ws, w, k);
    }
  }

  lemma ProvidesAfter(ws: seq<Written>, w: Written)
    ensures ProvidesOf(ws + [w]) == ProvidesOf(ws) + SlotsOf(w)
    ensures KindOf(w.clause) != ProvidesKind ==> ProvidesOf(ws + [w]) == ProvidesOf(ws)
  {
    assert (ws + [w])[..|ws|] == ws;
  }

  lemma OwnAfter(ws: seq<Written>, w: Written)
    ensures OwnOf(ws + [w]) == PutOwn(OwnOf(ws), w)
  {
    hide Pick, KindOf, Set;
    forall k
      ensures Pick(ws + [w], k) == Set(Pick(ws, k), w, k)
    {
      PickAfter(ws, w, k);
    }
  }

  predicate Has(c: Common, k: Kind) {
    match k
    case ExecutorKind => c.executor.Some?
    case SpawnKind => c.spawn.Some?
    case TaskKind => c.task.Some?
    case ResourcesKind => c.resources.Some?
    case ReadsKind => c.readList != []
    case WritesKind => c.writeList != []
    case StateKind => c.state.Some?
    case SlotTimeoutKind => c.slotTimeout.Some?
    case AckTimeoutKind => c.ackTimeout.Some?
    case DiscoverKind => c.discover.Some?
    case DataflowKind => c.dataflow.Some?
    case CancelKind => c.cancel.Some?
    case _ => false
  }

  predicate HasOwn(o: Own, k: Kind) {
    match k
    case DepsKind => o.deps.Some?
    case DisabledKind => o.disabled.Some?
    case ReadyKind => o.readyOnWrite.Some?
    case BeatTimeoutKind => o.beatTimeout.Some?
    case BeatWindowKind => o.beatWindow.Some?
    case EnabledKind => o.enabledIf.Some?
    case BudgetKind => o.restartBudget.Some?
    case _ => false
  }

  lemma HasOwnExactly(ws: seq<Written>, k: Kind)
    requires !IsCommon(k) && k !in {ExitKind, ProvidesKind, NoKind}
    ensures HasOwn(OwnOf(ws), k) <==> Pick(ws, k).Some?
  {
    hide Pick;
  }

  predicate EachOk(ws: seq<Written>) { forall k :: 0 <= k < |ws| ==> AloneOk(ws[k]) }

  // A field is filled exactly when its clause was written. For `reads:` and
  // `writes:` that rests on an empty list having been refused.
  lemma HasExactly(ws: seq<Written>, k: Kind)
    requires EachOk(ws) && IsCommon(k)
    ensures Has(CommonOf(ws), k) <==> Pick(ws, k).Some?
  {
    ListKept(ws, ReadsKind);
    ListKept(ws, WritesKind);
    hide Pick, SignalsIn, AloneOk, KindOf;
  }

  lemma ListKept(ws: seq<Written>, k: Kind)
    requires EachOk(ws) && k in {ReadsKind, WritesKind}
    ensures SignalsIn(Pick(ws, k)) != [] <==> Pick(ws, k).Some?
  {
    var p := Pick(ws, k);
    if p.Some? {
      assert AloneOk(p.value);
    }
    hide Pick, GateOk;
  }

  // ------------------------------------------------------------- the checks

  predicate Marked(d: SignalDecl) { d.observed || d.beat || d.veto }

  predicate NoneBeatOrVeto(list: seq<SignalDecl>) { forall k :: 0 <= k < |list| ==> !list[k].beat && !list[k].veto }

  predicate AllMarked(list: seq<SignalDecl>) { forall k :: 0 <= k < |list| ==> Marked(list[k]) }

  predicate HasPolledBeat(list: seq<SignalDecl>) { exists k :: 0 <= k < |list| && list[k].beat && list[k].observed }

  function NumberIn(w: Written): nat {
    match w.clause
    case BeatTimeout(ms) => ms
    case BeatWindow(sweeps) => sweeps
    case _ => 0
  }

  function DeclsIn(w: Written): seq<Entry> {
    match w.clause
    case Resources(decls) => decls
    case _ => []
  }

  // `cfg_text`: attributes as text, every space removed, those inside string
  // literals too. A clause's attributes are user tokens, so hold no `Sig`.
  function Unspaced(s: string): string {
    if s == [] then [] else (if s[0] == ' ' then [] else [s[0]]) + Unspaced(s[1..])
  }

  function Text(ts: Raw): string {
    if ts == [] then "" else TokenText(ts[0]) + Text(ts[1..])
  }

  function TokenText(t: Token): string {
    match t
    case Group(Parenthesis, stream) => "(" + Text(stream) + ")"
    case Group(Bracket, stream) => "[" + Text(stream) + "]"
    case Group(Brace, stream) => "{" + Text(stream) + "}"
    case Group(Invisible, stream) => Text(stream)
    case Punct(ch) => [ch]
    case Ident(name) => name
    case Literal(text) => Unspaced(text)
    case Sig(_, _, _) => ""
  }

  function AttributeText(a: Attribute): string {
    match a
    case CfgList(pred) => "#[cfg(" + Text(pred) + ")]"
    case OtherAttribute(text) => "#[" + Text(text) + "]"
  }

  function CfgText(attrs: seq<Attribute>): string {
    if attrs == [] then ""
    else if |attrs| == 1 then AttributeText(attrs[0])
    else AttributeText(attrs[0]) + "," + CfgText(attrs[1..])
  }

  predicate Consistent(mode: string, c: Common, o: Own) {
    && (o.beatTimeout.Some? ==> Millis(NumberIn(o.beatTimeout.value)))
    && (o.beatWindow.Some? ==> o.beatTimeout.Some? && 1 <= NumberIn(o.beatWindow.value) <= 255)
    && (o.beatTimeout.Some? && o.beatTimeout.value.cfg != [] ==>
          && (o.beatWindow.Some? ==> CfgText(o.beatWindow.value.cfg) == CfgText(o.beatTimeout.value.cfg))
          && (o.readyOnWrite.Some? ==> CfgText(o.readyOnWrite.value.cfg) == CfgText(o.beatTimeout.value.cfg)))
    && NoneBeatOrVeto(c.readList)
    && (c.discover.Some? ==> AllMarked(c.readList) && AllMarked(c.writeList) && (c.spawn.Some? || c.task.Some?))
    && (o.readyOnWrite.Some? ==> HasPolledBeat(c.writeList) && o.beatTimeout.Some?)
    && (c.resources.Some? ==>
          c.task.Some? && DeclsIn(c.resources.value) != [] && Unrepeated(DeclsIn(c.resources.value)))
    && (c.state.Some? || o.exit.Some? || c.cancel.Some? ==> c.task.Some?)
    && (c.cancel.Some? ==> mode != "Pause")
    && !(c.spawn.Some? && c.task.Some?)
  }

  predicate NoDuplicates(ws: seq<Written>) {
    forall i, j :: 0 <= i < j < |ws| ==> MayFollow(ws[i], ws[j])
  }

  // Only `exit:` and `provides:` may be written again.
  predicate MayFollow(a: Written, b: Written) {
    KindOf(a.clause) != KindOf(b.clause) || KindOf(b.clause) in {ExitKind, ProvidesKind}
  }

  // What the clause loop accepts, whatever the checks after it say.
  predicate Fine(ws: seq<Written>) { EachOk(ws) && NoDuplicates(ws) && ProvidesOk(ws) }

  predicate Acceptable(mode: string, ws: seq<Written>) { Fine(ws) && Consistent(mode, CommonOf(ws), OwnOf(ws)) }

  datatype NodeItem = NodeItem(mode: string, common: Common, own: Own, slots: seq<Entry>)

  function Parsed(mode: string, ws: seq<Written>): Option<NodeItem> {
    if Acceptable(mode, ws) then Some(NodeItem(mode, CommonOf(ws), OwnOf(ws), ProvidesOf(ws))) else None
  }

  // -------------------------------------------------------------- the parser

  datatype Outcome = Rejected | Taken | NotCommon

  class CommonClauses {
    var executor: Option<Written>
    var spawn: Option<Written>
    var task: Option<Written>
    var resources: Option<Written>
    var readList: seq<SignalDecl>
    var writeList: seq<SignalDecl>
    var state: Option<Written>
    var slotTimeout: Option<Written>
    var ackTimeout: Option<Written>
    var cancel: Option<Written>
    var discover: Option<Written>
    var dataflow: Option<Written>

    constructor ()
      ensures View() == CommonOf([])
    {
      executor, spawn, task, resources := None, None, None, None;
      readList, writeList, state := [], [], None;
      slotTimeout, ackTimeout, cancel, discover, dataflow := None, None, None, None, None;
    }

    function View(): Common
      reads this
    {
      Common(executor, spawn, task, resources, readList, writeList, state, slotTimeout, ackTimeout, cancel, discover,
          dataflow)
    }

    // The next clause, if it is a common one; it fills its field once.
    method ParseOne(w: Written) returns (r: Outcome)
      modifies this
      ensures r.NotCommon? <==> !IsCommon(KindOf(w.clause))
      ensures r.NotCommon? ==> View() == old(View())
      ensures r.Taken? <==> IsCommon(KindOf(w.clause)) && ClauseOk(w.clause) && !Has(old(View()), KindOf(w.clause))
      ensures r.Taken? ==> View() == Put(old(View()), w)
    {
      hide SignalsOk, Millis, Unrepeated, Put;
      PutOne(View(), w);
      r := Rejected;
      match w.clause {
        case Spawn(_) =>
          if spawn.None? { spawn, r := Some(w), Taken; }
        case TaskFn(_) =>
          if task.None? { task, r := Some(w), Taken; }
        case Executor(_) =>
          if executor.None? { executor, r := Some(w), Taken; }
        case Resources(_) =>
          if resources.None? { resources, r := Some(w), Taken; }
        case Reads(list) =>
          if readList == [] && SignalsOk(list) { readList, r := list, Taken; }
        case Writes(list) =>
          if writeList == [] && SignalsOk(list) { writeList, r := list, Taken; }
        case State(_) =>
          if state.None? { state, r := Some(w), Taken; }
        case SlotTimeout(ms) =>
          if slotTimeout.None? && Millis(ms) { slotTimeout, r := Some(w), Taken; }
        case AckTimeout(ms) =>
          if ackTimeout.None? && Millis(ms) { ackTimeout, r := Some(w), Taken; }
        case Discover(colon) =>
          if discover.None? && !colon { discover, r := Some(w), Taken; }
        case DataflowFns(fns) =>
          if dataflow.None? && fns != [] && Unrepeated(fns) { dataflow, r := Some(w), Taken; }
        case Cancel =>
          if cancel.None? { cancel, r := Some(w), Taken; }
        case _ => r := NotCommon;
      }
    }
  }

  lemma {:induction false} PickNone(ws: seq<Written>, k: Kind)
    ensures Pick(ws, k).None? <==> forall i :: 0 <= i < |ws| ==> KindOf(ws[i].clause) != k
  {
    hide KindOf;
    if ws != [] {
      PickNone(ws[..|ws| - 1], k);
    }
  }

  predicate MayAdd(seen: seq<Written>, w: Written) {
    && AloneOk(w)
    && (Pick(seen, KindOf(w.clause)).None? || KindOf(w.clause) in {ExitKind, ProvidesKind})
    && (w.clause.Provides? ==> ProvidesOf(seen) + w.clause.slots != [] && Unrepeated(ProvidesOf(seen) + w.clause.slots))
  }

  lemma FineStep(seen: seq<Written>, w: Written)
    ensures Fine(seen + [w]) <==> Fine(seen) && MayAdd(seen, w)
  {
    hide AloneOk, Pick, KindOf, Unrepeated, ProvidesOf;
    EachStep(seen, w);
    DuplicatesStep(seen, w);
    ProvidesStep(seen, w);
  }

  lemma EachStep(seen: seq<Written>, w: Written)
    ensures EachOk(seen + [w]) <==> EachOk(seen) && AloneOk(w)
  {
    hide AloneOk;
    var all := seen + [w];
    assert all[|seen|] == w && forall i :: 0 <= i < |seen| ==> all[i] == seen[i];
  }

  lemma DuplicatesStep(seen: seq<Written>, w: Written)
    ensures NoDuplicates(seen + [w])
            <==> NoDuplicates(seen)
                 && (Pick(seen, KindOf(w.clause)).None? || KindOf(w.clause) in {ExitKind, ProvidesKind})
  {
    hide KindOf, Pick;
    PickNone(seen, KindOf(w.clause));
    var all := seen + [w];
    assert all[|seen|] == w && forall i :: 0 <= i < |seen| ==> all[i] == seen[i];
    if NoDuplicates(all) {
      forall i | 0 <= i < |seen|
        ensures MayFollow(seen[i], w)
      {
        assert MayFollow(all[i], all[|seen|]);
      }
      forall i, j | 0 <= i < j < |seen|
        ensures MayFollow(seen[i], seen[j])
      {
        assert MayFollow(all[i], all[j]);
      }
    }
  }

  lemma ProvidesStep(seen: seq<Written>, w: Written)
    ensures ProvidesOk(seen + [w])
            <==> ProvidesOk(seen)
                 && (w.clause.Provides? ==>
                       ProvidesOf(seen) + w.clause.slots != [] && Unrepeated(ProvidesOf(seen) + w.clause.slots))
  {
    hide Unrepeated;
    assert (seen + [w])[..|seen|] == seen;
    ProvidesAfter(seen, w);
  }

  lemma {:induction false} FineTake(ws: seq<Written>, i: nat)
    requires i <= |ws| && Fine(ws)
    ensures Fine(ws[..i])
    decreases |ws| - i
  {
    hide *;
    if i == |ws| {
      assert ws[..i] == ws;
    } else {
      FineTake(ws, i + 1);
      assert ws[..i + 1] == ws[..i] + [ws[i]];
      FineStep(ws[..i], ws[i]);
    }
  }

  function NoOwn(): Own { Own(None, None, None, None, None, None, None, None) }

  lemma NothingFine()
    ensures Fine([]) && ProvidesOf([]) == [] && OwnOf([]) == NoOwn()
  {
  }

  lemma {:induction false} SlotsUnrepeated(ws: seq<Written>)
    requires ProvidesOk(ws)
    ensures Unrepeated(ProvidesOf(ws))
  {
    if ws != [] {
      SlotsUnrepeated(ws[..|ws| - 1]);
      if !ws[|ws| - 1].clause.Provides? {
        assert ProvidesOf(ws) == ProvidesOf(ws[..|ws| - 1]);
      }
    }
  }

  lemma CommonFacts(seen: seq<Written>, w: Written)
    requires Fine(seen) && IsCommon(KindOf(w.clause))
    ensures Fine(seen + [w]) <==> GateOk(w) && ClauseOk(w.clause) && !Has(CommonOf(seen), KindOf(w.clause))
    ensures CommonOf(seen + [w]) == Put(CommonOf(seen), w) && OwnOf(seen + [w]) == OwnOf(seen)
    ensures ProvidesOf(seen + [w]) == ProvidesOf(seen)
  {
    hide Has, Pick, GateOk, ClauseOk, CommonOf, OwnOf, Put, ProvidesOf, EachOk, NoDuplicates, ProvidesOk;
    FineStep(seen, w);
    CommonAfter(seen, w);
    HasExactly(seen, KindOf(w.clause));
    OwnAfter(seen, w);
    ProvidesAfter(seen, w);
  }

  lemma OwnFacts(seen: seq<Written>, w: Written)
    requires Fine(seen) && !IsCommon(KindOf(w.clause))
    ensures Fine(seen + [w])
            <==> GateOk(w) && ClauseOk(w.clause) && !HasOwn(OwnOf(seen), KindOf(w.clause))
                 && (w.clause.Provides? ==>
                       Unrepeated(ProvidesOf(seen) + w.clause.slots) && ProvidesOf(seen) + w.clause.slots != [])
    ensures CommonOf(seen + [w]) == CommonOf(seen) && OwnOf(seen + [w]) == PutOwn(OwnOf(seen), w)
    ensures ProvidesOf(seen + [w]) == ProvidesOf(seen) + SlotsOf(w)
  {
    hide Pick, GateOk, CommonOf, OwnOf, PutOwn, ProvidesOf, EachOk, NoDuplicates, ProvidesOk, Unrepeated;
    FineStep(seen, w);
    CommonAfter(seen, w);
    if KindOf(w.clause) !in {ExitKind, ProvidesKind, NoKind} {
      HasOwnExactly(seen, KindOf(w.clause));
    }
    OwnAfter(seen, w);
    ProvidesAfter(seen, w);
  }

  lemma NotFineLater(clauses: seq<Written>, i: nat)
    requires i < |clauses| && !Fine(clauses[..i] + [clauses[i]])
    ensures !Fine(clauses)
  {
    hide *;
    assert clauses[..i + 1] == clauses[..i] + [clauses[i]];
    if Fine(clauses) {
      FineTake(clauses, i + 1);
    }
  }

  // The `provides:` entries of one clause, added to those before it.
  method TakeSlots(list: seq<Entry>, before: seq<Entry>) returns (ok: bool, slots: seq<Entry>)
    requires Unrepeated(before)
    ensures ok <==>
            (forall k :: 0 <= k < |list| ==> AllCfg(list[k].cfg)) && Unrepeated(before + list) && before + list != []
    ensures ok ==> slots == before + list
  {
    hide AllCfg;
    slots, ok := before, false;
    var i := 0;
    while i < |list|
      invariant i <= |list| && slots == before + list[..i] && Unrepeated(slots)
      invariant forall k :: 0 <= k < i ==> AllCfg(list[k].cfg)
    {
      if !AllCfg(list[i].cfg) {
        return;
      }
      var k := 0;
      while k < |slots|
        invariant k <= |slots| && forall j :: 0 <= j < k ==> slots[j].name != list[i].name
      {
        if slots[k].name == list[i].name {
          RepeatedSlot(before, list, i, k);
          return;
        }
        k := k + 1;
      }
      slots := slots + [list[i]];
      i := i + 1;
    }
    assert list[..i] == list;
    ok := slots != [];
  }

  lemma RepeatedSlot(before: seq<Entry>, list: seq<Entry>, i: nat, k: nat)
    requires i < |list| && k < |before| + i && (before + list[..i])[k].name == list[i].name
    ensures !Unrepeated(before + list)
  {
    var all := before + list;
    assert all[|before| + i] == list[i] && all[k] == (before + list[..i])[k];
  }

  // A clause only a node has.
  method TakeOwn(w: Written, own: Own, slots: seq<Entry>) returns (ok: bool, next: Own, more: seq<Entry>)
    requires !IsCommon(KindOf(w.clause)) && Unrepeated(slots)
    ensures ok <==> ClauseOk(w.clause) && !HasOwn(own, KindOf(w.clause))
                    && (w.clause.Provides? ==> Unrepeated(slots + w.clause.slots) && slots + w.clause.slots != [])
    ensures ok ==> next == PutOwn(own, w) && more == slots + SlotsOf(w)
  {
    hide Unrepeated, AllCfg, Millis;
    ok, next, more := false, own, slots;
    match w.clause {
      case Deps(_) =>
        if own.deps.None? { next, ok := own.(deps := Some(w)), true; }
      case Disabled =>
        if own.disabled.None? { next, ok := own.(disabled := Some(w)), true; }
      case ReadyOnWrite =>
        if own.readyOnWrite.None? { next, ok := own.(readyOnWrite := Some(w)), true; }
      case BeatTimeout(_) =>
        if own.beatTimeout.None? { next, ok := own.(beatTimeout := Some(w)), true; }
      case BeatWindow(_) =>
        if own.beatWindow.None? { next, ok := own.(beatWindow := Some(w)), true; }
      case EnabledIf(_) =>
        if own.enabledIf.None? { next, ok := own.(enabledIf := Some(w)), true; }
      case RestartBudget(max, window) =>
        if own.restartBudget.None? && 1 <= max <= 65535 && Millis(window) {
          next, ok := own.(restartBudget := Some(w)), true;
        }
      case Exit(_) => next, ok := own.(exit := Some(w)), true;
      case Provides(list) => ok, more := TakeSlots(list, slots);
      case _ =>
    }
  }

  lemma StepFacts(clauses: seq<Written>, i: nat)
    requires i < |clauses| && Fine(clauses[..i])
    ensures var seen, w := clauses[..i], clauses[i];
            && (Fine(clauses) ==> Fine(seen + [w]))
            && Unrepeated(ProvidesOf(seen))
            && (IsCommon(KindOf(w.clause)) ==>
                  && (Fine(seen + [w]) <==> GateOk(w) && ClauseOk(w.clause) && !Has(CommonOf(seen), KindOf(w.clause)))
                  && CommonOf(seen + [w]) == Put(CommonOf(seen), w) && OwnOf(seen + [w]) == OwnOf(seen)
                  && ProvidesOf(seen + [w]) == ProvidesOf(seen))
            && (!IsCommon(KindOf(w.clause)) ==>
                  && (Fine(seen + [w])
                      <==> GateOk(w) && ClauseOk(w.clause) && !HasOwn(OwnOf(seen), KindOf(w.clause))
                           && (w.clause.Provides? ==>
                                 Unrepeated(ProvidesOf(seen) + w.clause.slots)
                                 && ProvidesOf(seen) + w.clause.slots != []))
                  && CommonOf(seen + [w]) == CommonOf(seen) && OwnOf(seen + [w]) == PutOwn(OwnOf(seen), w)
                  && ProvidesOf(seen + [w]) == ProvidesOf(seen) + SlotsOf(w))
  {
    var seen, w := clauses[..i], clauses[i];
    assert ProvidesOk(seen);
    hide *;
    SlotsUnrepeated(seen);
    if IsCommon(KindOf(w.clause)) {
      CommonFacts(seen, w);
    } else {
      OwnFacts(seen, w);
    }
    if !Fine(seen + [w]) {
      NotFineLater(clauses, i);
    }
  }

  method ParseClauses(clauses: seq<Written>) returns (ok: bool, common: CommonClauses, own: Own, slots: seq<Entry>)
    ensures ok <==> Fine(clauses)
    ensures ok ==> common.View() == CommonOf(clauses) && own == OwnOf(clauses) && slots == ProvidesOf(clauses)
    ensures fresh(common)
  {
    hide *;
    NothingFine();
    common := new CommonClauses();
    own, slots, ok := NoOwn(), [], false;
    var i := 0;
    while i < |clauses|
      invariant i <= |clauses| && fresh(common) && Fine(clauses[..i])
      invariant common.View() == CommonOf(clauses[..i]) && own == OwnOf(clauses[..i])
                && slots == ProvidesOf(clauses[..i])
    {
      var w := clauses[i];
      ghost var seen := clauses[..i];
      assert clauses[..i + 1] == seen + [w];
      StepFacts(clauses, i);
      if !GateOk(w) {
        return;
      }
      var r := common.ParseOne(w);
      if r.Rejected? {
        return;
      }
      if r.NotCommon? {
        var fine, next, more := TakeOwn(w, own, slots);
        if !fine {
          return;
        }
        own, slots := next, more;
      }
      i := i + 1;
    }
    assert clauses[..i] == clauses;
    ok := true;
  }

  method ParseNode(mode: string, clauses: seq<Written>) returns (r: Option<NodeItem>)
    ensures r == Parsed(mode, clauses)
  {
    hide Fine, CommonOf, OwnOf, ProvidesOf, Millis, Unrepeated, AllMarked, NoneBeatOrVeto, HasPolledBeat, CfgText;
    var fine, common, own, slots := ParseClauses(clauses);
    r := None;
    if !fine {
      return;
    }
    var c := common.View();
    if own.beatTimeout.Some? && !Millis(NumberIn(own.beatTimeout.value)) {
      return;
    }
    if own.beatWindow.Some? && own.beatTimeout.None? {
      return;
    }
    if own.beatWindow.Some? && !(1 <= NumberIn(own.beatWindow.value) <= 255) {
      return;
    }
    if own.beatTimeout.Some? && own.beatTimeout.value.cfg != [] {
      if own.beatWindow.Some? && CfgText(own.beatWindow.value.cfg) != CfgText(own.beatTimeout.value.cfg) {
        return;
      }
      if own.readyOnWrite.Some? && CfgText(own.readyOnWrite.value.cfg) != CfgText(own.beatTimeout.value.cfg) {
        return;
      }
    }
    if !NoneBeatOrVeto(c.readList) {
      return;
    }
    if c.discover.Some? && (!AllMarked(c.readList) || !AllMarked(c.writeList) || (c.spawn.None? && c.task.None?)) {
      return;
    }
    if own.readyOnWrite.Some? && (!HasPolledBeat(c.writeList) || own.beatTimeout.None?) {
      return;
    }
    if c.resources.Some?
       && (c.task.None? || DeclsIn(c.resources.value) == [] || !Unrepeated(DeclsIn(c.resources.value))) {
      return;
    }
    if (c.state.Some? || own.exit.Some? || c.cancel.Some?) && c.task.None? {
      return;
    }
    if c.cancel.Some? && mode == "Pause" {
      return;
    }
    if c.spawn.Some? && c.task.Some? {
      return;
    }
    r := Some(NodeItem(mode, c, own, slots));
  }

  // ---------------------------------------------------------------- results

  ghost predicate SameClauses(a: seq<Written>, b: seq<Written>) { multiset(a) == multiset(b) }

  // `exit:` is written at most once, or always the same; `provides:` at most
  // once.
  predicate Orderless(ws: seq<Written>) {
    forall i, j :: 0 <= i < j < |ws| ==> Agree(ws[i], ws[j])
  }

  predicate Agree(a: Written, b: Written) {
    && (a.clause.Exit? && b.clause.Exit? ==> a == b)
    && !(a.clause.Provides? && b.clause.Provides?)
  }

  lemma SameMembers(a: seq<Written>, b: seq<Written>, w: Written)
    requires SameClauses(a, b)
    ensures w in a <==> w in b
  {
    assert w in multiset(a) <==> w in multiset(b);
  }

  lemma TwiceThere(s: seq<Written>, i: nat, j: nat)
    requires i < j < |s| && s[i] == s[j]
    ensures multiset(s)[s[i]] >= 2
  {
    var x, front := s[i], s[..j];
    assert front[i] == x && x in front;
    assert s == front + [s[j]] + s[j + 1..];
    assert multiset(s) == multiset(front) + multiset{x} + multiset(s[j + 1..]);
  }

  lemma {:induction false} ThereTwice(s: seq<Written>, x: Written) returns (i: nat, j: nat)
    requires multiset(s)[x] >= 2
    ensures i < j < |s| && s[i] == s[j] == x
  {
    var front, last := s[..|s| - 1], s[|s| - 1];
    assert s == front + [last];
    assert multiset(s) == multiset(front) + multiset{last};
    if last == x {
      assert x in front;
      i :| 0 <= i < |front| && front[i] == x;
      j := |s| - 1;
    } else {
      i, j := ThereTwice(front, x);
    }
  }

  // Any two places of b are two places of a permutation a of it.
  lemma TwoPlaces(a: seq<Written>, b: seq<Written>, i: nat, j: nat) returns (p: nat, q: nat)
    requires SameClauses(a, b) && i < j < |b|
    ensures p < q < |a| && ((a[p] == b[i] && a[q] == b[j]) || (a[p] == b[j] && a[q] == b[i]))
  {
    SameMembers(a, b, b[i]);
    SameMembers(a, b, b[j]);
    if b[i] == b[j] {
      TwiceThere(b, i, j);
      p, q := ThereTwice(a, b[i]);
    } else {
      var x :| 0 <= x < |a| && a[x] == b[i];
      var y :| 0 <= y < |a| && a[y] == b[j];
      p, q := if x < y then x else y, if x < y then y else x;
    }
  }

  // No clause kind but `exit:` occurs twice, and then it is the same clause.
  predicate Unambiguous(ws: seq<Written>) {
    forall i, j :: 0 <= i < j < |ws| ==> MayFollow(ws[i], ws[j]) && Agree(ws[i], ws[j])
  }

  lemma UnambiguousPermuted(a: seq<Written>, b: seq<Written>)
    requires SameClauses(a, b) && Unambiguous(a)
    ensures Unambiguous(b)
  {
    hide KindOf;
    forall i, j | 0 <= i < j < |b|
      ensures MayFollow(b[i], b[j]) && Agree(b[i], b[j])
    {
      var p, q := TwoPlaces(a, b, i, j);
      assert MayFollow(a[p], a[q]) && Agree(a[p], a[q]);
    }
  }

  lemma PickIs(ws: seq<Written>, w: Written)
    requires Unambiguous(ws) && w in ws
    ensures Pick(ws, KindOf(w.clause)) == Some(w)
  {
    hide Pick, KindOf;
    var k := KindOf(w.clause);
    PickNone(ws, k);
    var p := Pick(ws, k).value;
    KindsOfLists(w);
    KindsOfLists(p);
    var i :| 0 <= i < |ws| && ws[i] == w;
    var j :| 0 <= j < |ws| && ws[j] == p;
    assert i < j ==> MayFollow(ws[i], ws[j]) && Agree(ws[i], ws[j]);
    assert j < i ==> MayFollow(ws[j], ws[i]) && Agree(ws[j], ws[i]);
  }

  lemma PicksPermuted(a: seq<Written>, b: seq<Written>, k: Kind)
    requires SameClauses(a, b) && Unambiguous(a) && Unambiguous(b)
    ensures Pick(a, k) == Pick(b, k)
  {
    hide Unambiguous, KindOf;
    PickNone(a, k);
    PickNone(b, k);
    if Pick(a, k).Some? {
      SameMembers(a, b, Pick(a, k).value);
      PickIs(b, Pick(a, k).value);
    } else if Pick(b, k).Some? {
      SameMembers(a, b, Pick(b, k).value);
      PickIs(a, Pick(b, k).value);
    }
  }

  lemma KindsOfLists(w: Written)
    ensures w.clause.Provides? <==> KindOf(w.clause) == ProvidesKind
    ensures w.clause.Exit? <==> KindOf(w.clause) == ExitKind
    ensures SlotsOf(w) == if w.clause.Provides? then w.clause.slots else []
  {
  }

  lemma NoProvides(ws: seq<Written>)
    requires Unambiguous(ws) && ws != [] && ws[|ws| - 1].clause.Provides?
    ensures Pick(ws[..|ws| - 1], ProvidesKind).None?
  {
    hide KindOf, Pick, MayFollow;
    var front := ws[..|ws| - 1];
    PickNone(front, ProvidesKind);
    forall i | 0 <= i < |front|
      ensures KindOf(front[i].clause) != ProvidesKind
    {
      assert Agree(ws[i], ws[|ws| - 1]);
      KindsOfLists(front[i]);
    }
  }

  // With one `provides:` clause at most, the list is that clause's.
  lemma {:induction false} ProvidesOnce(ws: seq<Written>)
    requires Unambiguous(ws)
    ensures ProvidesOf(ws) == (match Pick(ws, ProvidesKind) case Some(w) => SlotsOf(w) case None => [])
    ensures ProvidesOk(ws) <==> (Pick(ws, ProvidesKind).Some? ==> ProvidesOf(ws) != [] && Unrepeated(ProvidesOf(ws)))
  {
    hide Unrepeated, KindOf, SlotsOf, MayFollow, Agree;
    if ws != [] {
      var front, last := ws[..|ws| - 1], ws[|ws| - 1];
      KindsOfLists(last);
      assert forall i :: 0 <= i < |front| ==> front[i] == ws[i];
      ProvidesOnce(front);
      if last.clause.Provides? {
        NoProvides(ws);
      }
    }
  }

  lemma EachPermuted(a: seq<Written>, b: seq<Written>)
    requires SameClauses(a, b) && EachOk(a)
    ensures EachOk(b)
  {
    hide AloneOk;
    forall k | 0 <= k < |b|
      ensures AloneOk(b[k])
    {
      SameMembers(a, b, b[k]);
    }
  }

  lemma UnambiguousIs(ws: seq<Written>)
    ensures Unambiguous(ws) <==> NoDuplicates(ws) && Orderless(ws)
  {
    hide MayFollow, Agree;
  }

  lemma AcceptedPermuted(mode: string, a: seq<Written>, b: seq<Written>)
    requires SameClauses(a, b) && Orderless(a) && Acceptable(mode, a)
    ensures Parsed(mode, b) == Parsed(mode, a) && Parsed(mode, b).Some?
  {
    hide EachOk, NoDuplicates, Orderless, Unambiguous, Pick, ProvidesOf, ProvidesOk, Consistent, SignalsIn,
         Unrepeated, SameClauses;
    UnambiguousIs(a);
    UnambiguousPermuted(a, b);
    UnambiguousIs(b);
    EachPermuted(a, b);
    forall k
      ensures Pick(a, k) == Pick(b, k)
    {
      PicksPermuted(a, b, k);
    }
    ProvidesOnce(a);
    ProvidesOnce(b);
  }

  lemma OrderlessPermuted(a: seq<Written>, b: seq<Written>)
    requires SameClauses(a, b) && Orderless(a)
    ensures Orderless(b)
  {
    forall i, j | 0 <= i < j < |b|
      ensures Agree(b[i], b[j])
    {
      var p, q := TwoPlaces(a, b, i, j);
      assert Agree(a[p], a[q]);
    }
  }

  // Clause order never matters when `exit:` and `provides:` are written at
  // most once: any permutation is accepted or refused alike, as the same node.
  lemma OrderIndependent(mode: string, a: seq<Written>, b: seq<Written>)
    requires SameClauses(a, b) && Orderless(a)
    ensures Parsed(mode, a) == Parsed(mode, b)
  {
    OrderlessPermuted(a, b);
    hide Orderless, CommonOf, OwnOf, ProvidesOf, Fine, Consistent;
    if Acceptable(mode, a) {
      AcceptedPermuted(mode, a, b);
    } else if Acceptable(mode, b) {
      AcceptedPermuted(mode, b, a);
    }
  }

  function Swapped(ws: seq<Written>, i: nat, j: nat): (r: seq<Written>)
    requires i < j < |ws|
    ensures |r| == |ws| && r[i] == ws[j] && r[j] == ws[i]
    ensures forall k :: 0 <= k < |ws| && k != i && k != j ==> r[k] == ws[k]
  {
    ws[i := ws[j]][j := ws[i]]
  }

  lemma SwappedSame(ws: seq<Written>, i: nat, j: nat)
    requires i < j < |ws|
    ensures SameClauses(ws, Swapped(ws, i, j))
  {
  }

  lemma {:induction false} PickPlace(ws: seq<Written>, k: Kind) returns (l: nat)
    requires Pick(ws, k).Some?
    ensures l < |ws| && Pick(ws, k) == Some(ws[l]) && KindOf(ws[l].clause) == k
    ensures forall i :: l < i < |ws| ==> KindOf(ws[i].clause) != k
  {
    hide KindOf;
    l := |ws| - 1;
    if KindOf(ws[l].clause) != k {
      l := PickPlace(ws[..|ws| - 1], k);
    }
  }

  lemma {:induction false} PickLast(ws: seq<Written>, l: nat, k: Kind)
    requires l < |ws| && KindOf(ws[l].clause) == k
    requires forall i :: l < i < |ws| ==> KindOf(ws[i].clause) != k
    ensures Pick(ws, k) == Some(ws[l])
  {
    hide KindOf;
    if l < |ws| - 1 {
      PickLast(ws[..|ws| - 1], l, k);
    }
  }

  // Two different `exit:` clauses: the last wins, so their order shows.
  lemma ExitOrderShows(mode: string, ws: seq<Written>, i: nat, j: nat) returns (b: seq<Written>)
    requires Acceptable(mode, ws) && i < j < |ws| && ws[i].clause.Exit? && ws[j].clause.Exit? && ws[i] != ws[j]
    ensures SameClauses(ws, b) && Parsed(mode, b) != Parsed(mode, ws)
  {
    hide KindOf, Pick, Acceptable, SameClauses, Swapped;
    KindsOfLists(ws[i]);
    KindsOfLists(ws[j]);
    PickNone(ws, ExitKind);
    var l := PickPlace(ws, ExitKind);
    var m := if ws[i] != ws[l] then i else j;
    b := Swapped(ws, m, l);
    SwappedSame(ws, m, l);
    PickLast(b, l, ExitKind);
    assert OwnOf(b).exit != OwnOf(ws).exit;
  }

  lemma {:induction false} ProvidesPrefix(ws: seq<Written>, i: nat)
    requires i <= |ws|
    ensures ProvidesOf(ws[..i]) <= ProvidesOf(ws)
    ensures ProvidesOk(ws) ==> ProvidesOk(ws[..i])
    decreases |ws| - i
  {
    hide ProvidesOf, Unrepeated, SlotsOf;
    if i == |ws| {
      assert ws[..i] == ws;
    } else {
      ProvidesPrefix(ws, i + 1);
      assert ws[..i + 1] == ws[..i] + [ws[i]] && ws[..i + 1][..i] == ws[..i];
      ProvidesAfter(ws[..i], ws[i]);
    }
  }

  lemma {:induction false} NoSlotsYet(ws: seq<Written>, i: nat)
    requires i <= |ws| && forall k :: 0 <= k < i ==> !ws[k].clause.Provides?
    ensures ProvidesOf(ws[..i]) == []
  {
    if i > 0 {
      NoSlotsYet(ws, i - 1);
      assert ws[..i][..i - 1] == ws[..i - 1];
    }
  }

  lemma TakeOneMore<T>(s: seq<T>, i: nat)
    requires i < |s|
    ensures s[..i + 1] == s[..i] + [s[i]]
  {
  }

  lemma TakenSlots(ws: seq<Written>, i: nat)
    requires i < |ws|
    ensures ProvidesOf(ws[..i + 1]) == ProvidesOf(ws[..i]) + SlotsOf(ws[i]) && ProvidesOf(ws[..i + 1]) <= ProvidesOf(ws)
    ensures ProvidesOk(ws) && ws[i].clause.Provides? ==> ProvidesOf(ws[..i + 1]) != []
  {
    hide *;
    TakeOneMore(ws, i);
    ProvidesAfter(ws[..i], ws[i]);
    ProvidesPrefix(ws, i + 1);
    if ProvidesOk(ws) && ws[i].clause.Provides? {
      AddedSlots(ws[..i], ws[i]);
    }
  }

  lemma AddedSlots(seen: seq<Written>, w: Written)
    requires ProvidesOk(seen + [w]) && w.clause.Provides?
    ensures ProvidesOf(seen + [w]) != []
  {
    hide ProvidesOf, Unrepeated;
  }

  // The list starts with the first `provides:` clause's entries, and those of
  // a later one come after.
  lemma SlotPlaces(ws: seq<Written>, f: nat)
    requires f < |ws| && ws[f].clause.Provides? && forall k :: 0 <= k < f ==> !ws[k].clause.Provides?
    ensures SlotsOf(ws[f]) <= ProvidesOf(ws)
    ensures ProvidesOk(ws) ==> SlotsOf(ws[f]) != []
  {
    hide *;
    NoSlotsYet(ws, f);
    TakenSlots(ws, f);
    assert [] + SlotsOf(ws[f]) == SlotsOf(ws[f]);
  }

  lemma PrefixAt<T>(p: seq<T>, s: seq<T>, n: nat)
    requires p <= s && n < |p|
    ensures |p| <= |s| && p[n] == s[n]
  {
  }

  lemma UnrepeatedAt(list: seq<Entry>, i: nat, j: nat)
    requires Unrepeated(list) && i < j < |list|
    ensures list[i].name != list[j].name
  {
  }

  lemma LaterSlot(ws: seq<Written>, f: nat, j: nat)
    requires f < j < |ws| && ws[f].clause.Provides? && forall k :: 0 <= k < f ==> !ws[k].clause.Provides?
    requires ProvidesOk(ws) && SlotsOf(ws[f]) != [] && SlotsOf(ws[j]) != []
    ensures SlotsOf(ws[j])[0].name != SlotsOf(ws[f])[0].name
  {
    hide *;
    SlotsUnrepeated(ws);
    SlotPlaces(ws[..j], f);
    SlotPlaces(ws, f);
    TakenSlots(ws, j);
    var all, before, upTo := ProvidesOf(ws), ProvidesOf(ws[..j]), ProvidesOf(ws[..j + 1]);
    var n := |before|;
    PrefixAt(SlotsOf(ws[f]), before, 0);
    PrefixAt(SlotsOf(ws[f]), all, 0);
    PrefixAt(upTo, all, n);
    UnrepeatedAt(all, 0, n);
  }

  lemma ParsedSlots(mode: string, ws: seq<Written>)
    ensures Acceptable(mode, ws) ==> ProvidesOk(ws)
    ensures Parsed(mode, ws).Some? <==> Acceptable(mode, ws)
    ensures Parsed(mode, ws).Some? ==> Parsed(mode, ws).value.slots == ProvidesOf(ws)
  {
    hide ProvidesOf, ProvidesOk, EachOk, NoDuplicates, Consistent, CommonOf, OwnOf;
  }

  // Two `provides:` clauses: the list keeps their order, and an empty one is
  // refused only when it comes first.
  lemma ProvidesOrderShows(mode: string, ws: seq<Written>, f: nat, j: nat) returns (b: seq<Written>)
    requires Acceptable(mode, ws) && f < j < |ws| && ws[f].clause.Provides? && ws[j].clause.Provides?
    requires forall k :: 0 <= k < f ==> !ws[k].clause.Provides?
    ensures SameClauses(ws, b) && Parsed(mode, b) != Parsed(mode, ws)
  {
    hide *;
    b := Swapped(ws, f, j);
    SwappedSame(ws, f, j);
    ParsedSlots(mode, ws);
    ParsedSlots(mode, b);
    SlotPlaces(ws, f);
    SlotPlaces(b, f);
    if SlotsOf(ws[j]) != [] {
      LaterSlot(ws, f, j);
      PrefixAt(SlotsOf(ws[f]), ProvidesOf(ws), 0);
      PrefixAt(SlotsOf(ws[j]), ProvidesOf(b), 0);
    }
  }

  lemma FirstProvides(ws: seq<Written>, i: nat) returns (f: nat)
    requires i < |ws| && ws[i].clause.Provides?
    ensures f <= i && ws[f].clause.Provides? && forall k :: 0 <= k < f ==> !ws[k].clause.Provides?
  {
    f := 0;
    while !ws[f].clause.Provides?
      invariant f <= i && forall k :: 0 <= k < f ==> !ws[k].clause.Provides?
      decreases i - f
    {
      f := f + 1;
    }
  }

  // An accepted node may be written in any order exactly when no two of its
  // `exit:` clauses differ and `provides:` is written at most once.
  lemma OrderMattersExactly(mode: string, ws: seq<Written>)
    requires Acceptable(mode, ws)
    ensures (forall b :: SameClauses(ws, b) ==> Parsed(mode, b) == Parsed(mode, ws)) <==> Orderless(ws)
  {
    hide Acceptable, Parsed, SameClauses;
    if Orderless(ws) {
      forall b | SameClauses(ws, b)
        ensures Parsed(mode, b) == Parsed(mode, ws)
      {
        OrderIndependent(mode, ws, b);
      }
    } else {
      var i, j :| 0 <= i < j < |ws| && !Agree(ws[i], ws[j]);
      if ws[i].clause.Exit? {
        var b := ExitOrderShows(mode, ws, i, j);
      } else {
        var f := FirstProvides(ws, i);
        var b := ProvidesOrderShows(mode, ws, f, j);
      }
    }
  }

  function NoCommon(): Common { Common(None, None, None, None, [], [], None, None, None, None, None, None) }

  lemma NothingWritten()
    ensures Fine([]) && CommonOf([]) == NoCommon() && OwnOf([]) == NoOwn() && ProvidesOf([]) == []
  {
  }

  // One more clause, all told.
  lemma Grown(seen: seq<Written>, w: Written)
    ensures Fine(seen + [w]) <==> Fine(seen) && MayAdd(seen, w)
    ensures CommonOf(seen + [w]) == Put(CommonOf(seen), w) && OwnOf(seen + [w]) == PutOwn(OwnOf(seen), w)
    ensures ProvidesOf(seen + [w]) == ProvidesOf(seen) + SlotsOf(w)
  {
    hide *;
    FineStep(seen, w);
    CommonAfter(seen, w);
    OwnAfter(seen, w);
    ProvidesAfter(seen, w);
  }

  lemma MayAddExit(seen: seq<Written>, w: Written)
    requires w.clause.Exit? && w.cfg == []
    ensures MayAdd(seen, w) && SlotsOf(w) == []
    ensures forall c :: Put(c, w) == c
    ensures forall o: Own :: PutOwn(o, w) == o.(exit := Some(w))
  {
    hide Pick, ProvidesOf, Put;
    forall c: Common
      ensures Put(c, w) == c
    {
      PutOne(c, w);
    }
  }

  lemma MayAddTask(w: Written)
    requires w.clause.TaskFn? && w.cfg == []
    ensures MayAdd([], w) && SlotsOf(w) == []
    ensures forall c: Common :: Put(c, w) == c.(task := Some(w))
    ensures forall o :: PutOwn(o, w) == o
  {
    hide Put;
    forall c: Common
      ensures Put(c, w) == c.(task := Some(w))
    {
      PutOne(c, w);
    }
  }

  // A node with a worker and two `exit:` clauses is accepted in either order,
  // and as the same node only when they say the same.
  lemma TwoExits(task: Expr, x: Expr, y: Expr)
    ensures var t, a, b := Written([], TaskFn(task)), Written([], Exit(x)), Written([], Exit(y));
            && Acceptable("Terminate", [t, a, b]) && Acceptable("Terminate", [t, b, a])
            && Parsed("Terminate", [t, a, b]).value.own.exit == Some(b)
            && (Parsed("Terminate", [t, a, b]) == Parsed("Terminate", [t, b, a]) <==> x == y)
  {
    var t, a, b := Written([], TaskFn(task)), Written([], Exit(x)), Written([], Exit(y));
    hide *;
    ExitsAccepted(t, a, b);
    ExitsAccepted(t, b, a);
  }

  lemma ExitsAccepted(t: Written, a: Written, b: Written)
    requires t.clause.TaskFn? && a.clause.Exit? && b.clause.Exit? && t.cfg == a.cfg == b.cfg == []
    ensures Acceptable("Terminate", [t, a, b])
    ensures Parsed("Terminate", [t, a, b])
         == Some(NodeItem("Terminate", NoCommon().(task := Some(t)), NoOwn().(exit := Some(b)), []))
  {
    hide Fine, MayAdd, CommonOf, OwnOf, ProvidesOf, Put, PutOwn, SlotsOf;
    NothingWritten();
    MayAddTask(t);
    Grown([], t);
    assert [] + [t] == [t];
    MayAddExit([t], a);
    Grown([t], a);
    assert [t] + [a] == [t, a];
    MayAddExit([t, a], b);
    Grown([t, a], b);
    assert [t, a] + [b] == [t, a, b];
  }

  lemma MayAddProvides(seen: seq<Written>, w: Written)
    requires w.clause.Provides? && w.cfg == [] && ClauseOk(w.clause)
    ensures MayAdd(seen, w) <==>
            ProvidesOf(seen) + w.clause.slots != [] && Unrepeated(ProvidesOf(seen) + w.clause.slots)
    ensures SlotsOf(w) == w.clause.slots
    ensures forall c :: Put(c, w) == c
    ensures forall o :: PutOwn(o, w) == o
  {
    hide Pick, ProvidesOf, Unrepeated, AllCfg, Put;
    forall c: Common
      ensures Put(c, w) == c
    {
      PutOne(c, w);
    }
  }

  // Two `provides:` clauses of different slots are accepted, in the order
  // written; and an empty one is accepted second and refused first.
  lemma TwoProvides(s: Entry, t: Entry)
    requires s.name != t.name && s.cfg == t.cfg == []
    ensures var a, b, none := Written([], Provides([s])), Written([], Provides([t])), Written([], Provides([]));
            && Acceptable("Terminate", [a, b]) && Parsed("Terminate", [a, b]).value.slots == [s, t]
            && Parsed("Terminate", [b, a]).Some? && Parsed("Terminate", [b, a]) != Parsed("Terminate", [a, b])
            && Acceptable("Terminate", [a, none]) && !Acceptable("Terminate", [none, a])
  {
    var a, b, none := Written([], Provides([s])), Written([], Provides([t])), Written([], Provides([]));
    assert Unrepeated([s, t]) && Unrepeated([t, s]) && Unrepeated([s]) && Unrepeated([t]);
    assert ClauseOk(a.clause) && ClauseOk(b.clause) && ClauseOk(none.clause) && AllCfg([]);
    hide *;
    assert [s] + [t] == [s, t] && [t] + [s] == [t, s] && [s] + [] == [s];
    ProvidesTried(a, b, [s], [t]);
    ProvidesTried(b, a, [t], [s]);
    ProvidesTried(a, none, [s], []);
    ProvidesTried(none, a, [], [s]);
  }

  lemma ProvidesTried(a: Written, b: Written, p: seq<Entry>, q: seq<Entry>)
    requires a == Written([], Provides(p)) && b == Written([], Provides(q)) && ClauseOk(a.clause) && ClauseOk(b.clause)
    ensures Acceptable("Terminate", [a, b]) <==> p != [] && Unrepeated(p) && Unrepeated(p + q)
    ensures Acceptable("Terminate", [a, b]) ==>
              Parsed("Terminate", [a, b]) == Some(NodeItem("Terminate", NoCommon(), NoOwn(), p + q))
  {
    hide Fine, MayAdd, CommonOf, OwnOf, ProvidesOf, Put, PutOwn, SlotsOf, Unrepeated, ClauseOk;
    NothingWritten();
    MayAddProvides([], a);
    Grown([], a);
    assert [] + [a] == [a] && [] + p == p;
    MayAddProvides([a], b);
    Grown([a], b);
    assert [a] + [b] == [a, b];
  }

  ghost predicate Active(o: Option<Written>, v: Build) {
    o.Some? && forall k :: 0 <= k < |o.value.cfg| ==> o.value.cfg[k].CfgList? && v(o.value.cfg[k].pred)
  }

  predicate OfKind(o: Option<Written>, k: Kind) { o.Some? ==> AllCfg(o.value.cfg) && KindOf(o.value.clause) == k }

  lemma GatesAreCfgs(ws: seq<Written>, k: Kind)
    requires Fine(ws)
    ensures OfKind(Pick(ws, k), k)
  {
    var p := Pick(ws, k);
    if p.Some? {
      assert AloneOk(p.value);
    }
    hide Pick, KindOf;
  }

  // Whether `gated` is never compiled in without `gate`.
  ghost predicate NeverWithout(gated: Option<Written>, gate: Option<Written>) {
    forall v :: Active(gated, v) ==> Active(gate, v)
  }

  // No predicate on the second clause that is not also on the first.
  predicate NoFurtherGate(gated: Option<Written>, gate: Option<Written>) {
    gated.Some? ==> gate.Some? && forall k :: 0 <= k < |gate.value.cfg| ==> gate.value.cfg[k] in gated.value.cfg
  }

  lemma NeverWithoutExactly(gated: Option<Written>, gate: Option<Written>)
    requires gated.Some? ==> AllCfg(gated.value.cfg)
    requires gate.Some? ==> AllCfg(gate.value.cfg)
    ensures NeverWithout(gated, gate) <==> NoFurtherGate(gated, gate)
  {
    if gated.Some? && NeverWithout(gated, gate) {
      var v: Build := raw => CfgList(raw) in gated.value.cfg;
      assert Active(gated, v);
      assert Active(gate, v);
    }
    if NoFurtherGate(gated, gate) {
      forall v | Active(gated, v)
        ensures Active(gate, v)
      {
      }
    }
  }

  // In every build a sweep window or a readiness marker that is compiled in
  // has its beat budget compiled in with it, exactly when each predicate on the
  // budget is on them too; the texts the parser compares are always the same.
  lemma BeatBudgetIsActive(mode: string, ws: seq<Written>)
    requires Parsed(mode, ws).Some?
    ensures var own := Parsed(mode, ws).value.own;
            && (NeverWithout(own.beatWindow, own.beatTimeout) <==> NoFurtherGate(own.beatWindow, own.beatTimeout))
            && (NeverWithout(own.readyOnWrite, own.beatTimeout) <==> NoFurtherGate(own.readyOnWrite, own.beatTimeout))
            && (own.beatWindow.Some? || own.readyOnWrite.Some? ==> own.beatTimeout.Some?)
            && (own.beatTimeout.Some? && own.beatTimeout.value.cfg != [] ==>
                  var text := CfgText(own.beatTimeout.value.cfg);
                  && (own.beatWindow.Some? ==> CfgText(own.beatWindow.value.cfg) == text)
                  && (own.readyOnWrite.Some? ==> CfgText(own.readyOnWrite.value.cfg) == text))
  {
    hide Fine, Pick, CommonOf, NeverWithout, NoFurtherGate, CfgText;
    GatesAreCfgs(ws, BeatTimeoutKind);
    GatesAreCfgs(ws, BeatWindowKind);
    GatesAreCfgs(ws, ReadyKind);
    var own := OwnOf(ws);
    NeverWithoutExactly(own.beatWindow, own.beatTimeout);
    NeverWithoutExactly(own.readyOnWrite, own.beatTimeout);
  }

  // Any two predicates of one text can gate a window and its budget, and some
  // build then has the window without the budget.
  lemma SameTextAccepted(a: Raw, b: Raw)
    requires Text(a) == Text(b) && a != b
    ensures var window, budget := Written([CfgList(a)], BeatWindow(2)), Written([CfgList(b)], BeatTimeout(1000));
            && Parsed("Terminate", [window, budget]).Some?
            && var own := Parsed("Terminate", [window, budget]).value.own;
            && own.beatWindow == Some(window) && own.beatTimeout == Some(budget)
            && !NeverWithout(own.beatWindow, own.beatTimeout)
  {
    var window, budget := Written([CfgList(a)], BeatWindow(2)), Written([CfgList(b)], BeatTimeout(1000));
    hide *;
    OneGate(a);
    OneGate(b);
    GateTried(window, budget);
    FurtherGate(window, budget);
  }

  lemma OneGate(a: Raw)
    ensures AllCfg([CfgList(a)]) && CfgText([CfgList(a)]) == "#[cfg(" + Text(a) + ")]"
  {
    hide Text;
  }

  lemma FurtherGate(window: Written, budget: Written)
    requires AllCfg(window.cfg) && AllCfg(budget.cfg) && |window.cfg| == |budget.cfg| == 1 && window.cfg != budget.cfg
    ensures !NeverWithout(Some(window), Some(budget))
  {
    NeverWithoutExactly(Some(window), Some(budget));
    hide NeverWithout, AllCfg;
    assert budget.cfg[0] !in window.cfg;
  }

  lemma WindowConsistent(window: Written, budget: Written)
    requires window.clause == BeatWindow(2) && budget.clause == BeatTimeout(1000)
    requires CfgText(window.cfg) == CfgText(budget.cfg)
    ensures Consistent("Terminate", NoCommon(), NoOwn().(beatWindow := Some(window), beatTimeout := Some(budget)))
  {
    hide CfgText, HasPolledBeat;
  }

  lemma GateTried(window: Written, budget: Written)
    requires window.clause == BeatWindow(2) && budget.clause == BeatTimeout(1000)
    requires AllCfg(window.cfg) && AllCfg(budget.cfg) && CfgText(window.cfg) == CfgText(budget.cfg)
    ensures Parsed("Terminate", [window, budget])
         == Some(NodeItem("Terminate", NoCommon(),
                          NoOwn().(beatWindow := Some(window), beatTimeout := Some(budget)), []))
  {
    hide Fine, MayAdd, CommonOf, OwnOf, ProvidesOf, Put, PutOwn, SlotsOf, CfgText, AllCfg, Consistent, Pick;
    NothingWritten();
    WindowConsistent(window, budget);
    PickFew(window, budget);
    MayAddBeat([], window);
    Grown([], window);
    assert [] + [window] == [window];
    MayAddBeat([window], budget);
    Grown([window], budget);
    assert [window] + [budget] == [window, budget];
  }

  lemma PickFew(w: Written, x: Written)
    ensures Pick([], KindOf(w.clause)).None?
    ensures KindOf(w.clause) != KindOf(x.clause) ==> Pick([w], KindOf(x.clause)).None?
  {
    hide KindOf;
  }

  lemma MayAddBeat(seen: seq<Written>, w: Written)
    requires AllCfg(w.cfg) && (w.clause == BeatWindow(2) || w.clause == BeatTimeout(1000))
    requires Pick(seen, KindOf(w.clause)).None?
    ensures MayAdd(seen, w) && SlotsOf(w) == []
    ensures forall c :: Put(c, w) == c
    ensures forall o: Own :: PutOwn(o, w) == if w.clause.BeatWindow? then o.(beatWindow := Some(w))
                                             else o.(beatTimeout := Some(w))
  {
    hide Pick, ProvidesOf, Put;
    forall c: Common
      ensures Put(c, w) == c
    {
      PutOne(c, w);
    }
  }

  // `x = "a b"` and `x = "ab"` are such predicates.
  lemma SpacedLiterals()
    ensures var a, b := [Ident("x"), Punct('='), Literal("\"a b\"")], [Ident("x"), Punct('='), Literal("\"ab\"")];
            Text(a) == Text(b) && a != b
  {
    assert Unspaced("\"a b\"") == Unspaced("\"ab\"");
    assert "\"a b\""[2] != "\"ab\""[2];
    TextOfThree(Ident("x"), Punct('='), Literal("\"a b\""));
    TextOfThree(Ident("x"), Punct('='), Literal("\"ab\""));
  }

  lemma TextOfThree(x: Token, y: Token, z: Token)
    ensures Text([x, y, z]) == TokenText(x) + (TokenText(y) + (TokenText(z) + ""))
  {
    hide TokenText;
    assert [x, y, z][1..] == [y, z] && [y, z][1..] == [z] && [z][1..] == [];
    assert Text([z]) == TokenText(z) + Text([]);
    assert Text([y, z]) == TokenText(y) + Text([z]);
  }
}
