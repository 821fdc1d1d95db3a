// The `#[dataflow]` body walker (supervisor-syntax/src/lib.rs:1994-2169).
//
// The source walks a body with an index and two mutable predicate lists, and
// tells a callback about every verb call. The specification has no such state:
// one level of tokens is cut into steps, steps are grouped into segments, and
// the predicates of a call are those of the attributes before it in its own
// segment, after those in force around the enclosing groups.
module Walker {
  import opened Tokens

  const BUILTIN_READS: seq<string> := ["get", "reader", "open", "lease"]
  const BUILTIN_WRITES: seq<string> := ["put", "writer", "beat_put", "beat_writer", "retire", "veto"]

  datatype Target = Target(expr: seq<Token>, path: string)

  // What the walk is told up front. `parse` stands for the Rust parser on a
  // first argument: Some when it is `&path` or `&path[index]`, with the
  // referenced expression and its text; None for anything else.
  datatype Scan = Scan(node: string, custom: seq<(string, bool)>, parse: seq<Token> -> Option<Target>)

  datatype VerbCall = VerbCall(verb: string, write: bool, target: seq<Token>, path: string, cfgs: seq<Raw>)

  // `Ok(None)`, `Ok(Some(tokens))`, `Err(..)`, or a panic inside the callback.
  datatype Reply = Keep | Replace(tokens: seq<Token>) | Reject | Panic

  datatype Status = Completed | Rejected | Panicked

  // Some(true) is a write, Some(false) a read.
  function Direction(custom: seq<(string, bool)>, verb: string): Option<bool> {
    if verb in BUILTIN_WRITES then Some(true)
    else if verb in BUILTIN_READS then Some(false)
    else Registered(custom, verb)
  }

  function Registered(custom: seq<(string, bool)>, verb: string): Option<bool> {
    if custom == [] then None
    else if custom[0].0 == verb then Some(custom[0].1)
    else Registered(custom[1..], verb)
  }

  // ------------------------------------------------------------------ steps

  datatype Step =
    | Attr(at: nat, len: nat, pred: Option<Raw>)
    | NestedFn(at: nat, len: nat)
    | Call(at: nat, len: nat, verb: string, write: bool)
    | Sub(at: nat, len: nat)
    | Plain(at: nat, len: nat)

  predicate IsAttr(toks: seq<Token>, i: nat)
    requires i < |toks|
  {
    IsPunct(toks[i], '#') && i + 1 < |toks| && IsGroup(toks[i + 1], Bracket)
  }

  function CfgAttrPredicate(g: Token): Option<Raw> {
    if IsGroup(g, Bracket) && |g.stream| == 2 && IsIdent(g.stream[0], "cfg")
       && IsGroup(g.stream[1], Parenthesis)
    then Some(g.stream[1].stream)
    else None
  }

  predicate IsNestedFn(toks: seq<Token>, i: nat)
    requires i < |toks|
  {
    IsIdent(toks[i], "fn") && i + 1 < |toks| && toks[i + 1].Ident?
  }

  predicate ClosesFn(t: Token) { IsGroup(t, Brace) || IsPunct(t, ';') }

  // One past the token that closes a nested fn, or the end of the level.
  function FnEnd(toks: seq<Token>, i: nat): (end: nat)
    requires i <= |toks|
    ensures i <= end <= |toks|
    ensures i < |toks| ==> i < end
    decreases |toks| - i
  {
    if i == |toks| then i
    else if ClosesFn(toks[i]) then i + 1
    else FnEnd(toks, i + 1)
  }

  predicate OwnReceiver(toks: seq<Token>, i: nat)
    requires i <= |toks|
  {
    i == 0 || !(IsPunct(toks[i - 1], '.') || IsPunct(toks[i - 1], ':'))
  }

  function Matched(scan: Scan, toks: seq<Token>, i: nat): (m: Option<(string, bool)>)
    requires i < |toks|
    ensures m.Some? ==> i + 3 < |toks| && IsGroup(toks[i + 3], Parenthesis)
  {
    if OwnReceiver(toks, i) && i + 3 < |toks|
       && IsIdent(toks[i], scan.node) && IsPunct(toks[i + 1], '.')
       && toks[i + 2].Ident? && IsGroup(toks[i + 3], Parenthesis)
    then
      match Direction(scan.custom, toks[i + 2].name)
      case None => None
      case Some(write) => Some((toks[i + 2].name, write))
    else None
  }

  ghost predicate InLevel(toks: seq<Token>, s: Step) {
    && 0 < s.len && s.at + s.len <= |toks|
    && (s.Call? ==> s.len == 4 && IsGroup(toks[s.at + 3], Parenthesis))
    && (s.Sub? ==> s.len == 1 && toks[s.at].Group?)
    && (s.Plain? ==> s.len == 1)
  }

  function StepAt(scan: Scan, toks: seq<Token>, i: nat): (s: Step)
    requires i < |toks|
    ensures s.at == i && InLevel(toks, s)
  {
    if IsAttr(toks, i) then Attr(i, 2, CfgAttrPredicate(toks[i + 1]))
    else if IsNestedFn(toks, i) then NestedFn(i, FnEnd(toks, i) - i)
    else
      match Matched(scan, toks, i)
      case Some(m) => Call(i, 4, m.0, m.1)
      case None => if toks[i].Group? then Sub(i, 1) else Plain(i, 1)
  }

  function Steps(scan: Scan, toks: seq<Token>, i: nat): (steps: seq<Step>)
    requires i <= |toks|
    ensures forall k :: 0 <= k < |steps| ==> InLevel(toks, steps[k])
    decreases |toks| - i
  {
    if i == |toks| then []
    else
      var s := StepAt(scan, toks, i);
      [s] + Steps(scan, toks, i + s.len)
  }

  // --------------------------------------------------------------- segments

  // `else`, `.` or `?` right after a brace group keeps the segment open.
  predicate Continues(toks: seq<Token>, next: nat) {
    next < |toks| && (IsIdent(toks[next], "else") || IsPunct(toks[next], '.') || IsPunct(toks[next], '?'))
  }

  predicate EndsSegment(toks: seq<Token>, s: Step)
    requires InLevel(toks, s)
  {
    match s
    case Attr(_, _, _) => false
    case NestedFn(_, _) => true
    case Call(_, _, _, _) => false
    case Sub(at, _) => toks[at].delim == Brace && !Continues(toks, at + 1)
    case Plain(at, _) => IsPunct(toks[at], ';') || IsPunct(toks[at], ',')
  }

  function AttrPreds(steps: seq<Step>): seq<Raw> {
    if steps == [] then []
    else
      var last := steps[|steps| - 1];
      AttrPreds(steps[..|steps| - 1]) + (if last.Attr? && last.pred.Some? then [last.pred.value] else [])
  }

  ghost predicate Level(toks: seq<Token>, steps: seq<Step>) {
    forall k :: 0 <= k < |steps| ==> InLevel(toks, steps[k])
  }

  // Where the segment of step k begins.
  function SegmentStart(toks: seq<Token>, steps: seq<Step>, k: nat): (s: nat)
    requires k <= |steps| && Level(toks, steps)
    ensures s <= k
    ensures s == 0 || EndsSegment(toks, steps[s - 1])
    ensures forall j :: s <= j < k ==> !EndsSegment(toks, steps[j])
  {
    if k == 0 || EndsSegment(toks, steps[k - 1]) then k else SegmentStart(toks, steps, k - 1)
  }

  // The predicates of the attributes before step k in its segment.
  function InForce(toks: seq<Token>, steps: seq<Step>, k: nat): seq<Raw>
    requires k <= |steps| && Level(toks, steps)
  {
    AttrPreds(steps[SegmentStart(toks, steps, k)..k])
  }

  lemma {:induction false} AttrPredsMembers(steps: seq<Step>, p: Raw)
    ensures p in AttrPreds(steps) <==> exists j :: 0 <= j < |steps| && steps[j].Attr? && steps[j].pred == Some(p)
  {
    if steps != [] {
      var front := steps[..|steps| - 1];
      AttrPredsMembers(front, p);
      assert forall j :: 0 <= j < |front| ==> steps[j] == front[j];
    }
  }

  // A predicate is in force at a step exactly when an attribute before it
  // carries it and no segment ended in between.
  lemma InForceExactly(toks: seq<Token>, steps: seq<Step>, k: nat, p: Raw)
    requires k <= |steps| && Level(toks, steps)
    ensures p in InForce(toks, steps, k) <==>
            exists j :: 0 <= j < k && steps[j].Attr? && steps[j].pred == Some(p)
                        && forall e :: j <= e < k ==> !EndsSegment(toks, steps[e])
  {
    var s := SegmentStart(toks, steps, k);
    var seg := steps[s..k];
    AttrPredsMembers(seg, p);
    assert forall j :: s <= j < k ==> steps[j] == seg[j - s];
    if s > 0 {
      assert EndsSegment(toks, steps[s - 1]);
    }
  }

  // ------------------------------------------------------------------ sites

  // A verb call with a readable first argument, or one the walk must refuse.
  datatype Site = Reported(call: VerbCall) | BadTarget

  function CommaAt(toks: seq<Token>, i: nat): (c: nat)
    requires i <= |toks|
    ensures i <= c <= |toks|
    ensures c < |toks| ==> IsPunct(toks[c], ',')
    ensures forall j :: i <= j < c ==> !IsPunct(toks[j], ',')
    decreases |toks| - i
  {
    if i == |toks| || IsPunct(toks[i], ',') then i else CommaAt(toks, i + 1)
  }

  function Sites(scan: Scan, toks: seq<Token>, inherited: seq<Raw>): seq<Site>
    decreases toks, 2
  {
    SitesUpTo(scan, toks, inherited, |Steps(scan, toks, 0)|)
  }

  function SitesUpTo(scan: Scan, toks: seq<Token>, inherited: seq<Raw>, n: nat): seq<Site>
    requires n <= |Steps(scan, toks, 0)|
    decreases toks, 1, n
  {
    if n == 0 then []
    else
      var steps := Steps(scan, toks, 0);
      SitesUpTo(scan, toks, inherited, n - 1)
      + StepSites(scan, toks, steps[n - 1], inherited + InForce(toks, steps, n - 1))
  }

  function StepSites(scan: Scan, toks: seq<Token>, s: Step, cfgs: seq<Raw>): seq<Site>
    requires InLevel(toks, s)
    decreases toks, 0
  {
    match s
    case Call(at, _, verb, write) => ArgSites(scan, toks[at + 3].stream, verb, write, cfgs)
    case Sub(at, _) => Sites(scan, toks[at].stream, cfgs)
    case _ => []
  }

  // The call itself, then the calls in the arguments after its first.
  function ArgSites(scan: Scan, args: seq<Token>, verb: string, write: bool, cfgs: seq<Raw>): seq<Site>
    decreases args, 3
  {
    var c := CommaAt(args, 0);
    match scan.parse(args[..c])
    case None => [BadTarget]
    case Some(t) =>
      [Reported(VerbCall(verb, write, t.expr, t.path, cfgs))] + Sites(scan, args[c..], cfgs)
  }

  function Calls(sites: seq<Site>): seq<VerbCall> {
    if sites == [] then []
    else if sites[0].BadTarget? then []
    else [sites[0].call] + Calls(sites[1..])
  }

  ghost predicate Readable(sites: seq<Site>) {
    forall k :: 0 <= k < |sites| ==> sites[k].Reported?
  }

  lemma ReadableCons(sites: seq<Site>)
    requires sites != []
    ensures Readable(sites) <==> sites[0].Reported? && Readable(sites[1..])
  {
    if sites[0].Reported? && Readable(sites[1..]) {
      assert forall k :: 0 < k < |sites| ==> sites[k] == sites[1..][k - 1];
    }
  }

  // ----------------------------------------------------- driving a callback

  // A callback may keep state, so its answer is a function of every call it
  // has been told about, the present one last.
  type Callback = seq<VerbCall> -> Reply

  // Tell the callback about the sites in order; the first refusal ends it.
  function Drive(onCall: Callback, history: seq<VerbCall>, sites: seq<Site>): (seq<VerbCall>, Status)
    decreases |sites|
  {
    if sites == [] then (history, Completed)
    else if sites[0].BadTarget? then (history, Rejected)
    else
      var h := history + [sites[0].call];
      match onCall(h)
      case Reject => (h, Rejected)
      case Panic => (h, Panicked)
      case _ => Drive(onCall, h, sites[1..])
  }

  lemma {:induction false} DriveAppend(onCall: Callback, history: seq<VerbCall>, a: seq<Site>, b: seq<Site>)
    ensures var d := Drive(onCall, history, a);
            Drive(onCall, history, a + b) == if d.1.Completed? then Drive(onCall, d.0, b) else d
    decreases |a|
  {
    if a == [] {
      assert a + b == b;
    } else {
      assert (a + b)[1..] == a[1..] + b;
      if a[0].Reported? {
        DriveAppend(onCall, history + [a[0].call], a[1..], b);
      }
    }
  }

  lemma {:induction false} CallsAppend(a: seq<Site>, b: seq<Site>)
    ensures Readable(a) ==> Calls(a + b) == Calls(a) + Calls(b)
  {
    if a == [] {
      assert a + b == b;
    } else {
      assert (a + b)[1..] == a[1..] + b;
      CallsAppend(a[1..], b);
    }
  }

  // What the callback is told depends on the body alone: a prefix of the
  // calls before the first unreadable argument, all of them on completion.
  lemma {:induction false} DriveReports(onCall: Callback, history: seq<VerbCall>, sites: seq<Site>)
    ensures var d := Drive(onCall, history, sites);
            && d.0 <= history + Calls(sites)
            && (d.1.Completed? ==> Readable(sites) && d.0 == history + Calls(sites))
    decreases |sites|
  {
    if sites != [] && sites[0].Reported? {
      var h := history + [sites[0].call];
      DriveReports(onCall, h, sites[1..]);
      assert h + Calls(sites[1..]) == history + Calls(sites);
      ReadableCons(sites);
    }
  }

  // Two passes over one body with different callbacks are told the same calls.
  lemma SameReports(first: Callback, second: Callback, scan: Scan, body: seq<Token>, inherited: seq<Raw>)
    ensures var d1 := Drive(first, [], Sites(scan, body, inherited));
            var d2 := Drive(second, [], Sites(scan, body, inherited));
            && (d1.1.Completed? ==> d2.0 <= d1.0)
            && (d1.1.Completed? && d2.1.Completed? ==> d1.0 == d2.0)
  {
    DriveReports(first, [], Sites(scan, body, inherited));
    DriveReports(second, [], Sites(scan, body, inherited));
    assert [] + Calls(Sites(scan, body, inherited)) == Calls(Sites(scan, body, inherited));
  }

  // The answer to the k-th of these calls lets the walk go on.
  predicate Accepts(onCall: Callback, history: seq<VerbCall>, calls: seq<VerbCall>, k: nat)
    requires k < |calls|
  {
    var reply := onCall(history + calls[..k + 1]);
    reply.Keep? || reply.Replace?
  }

  // A callback that accepts each of a body's calls completes.
  lemma {:induction false} DriveAccepts(onCall: Callback, history: seq<VerbCall>, sites: seq<Site>)
    requires Readable(sites)
    requires forall k :: 0 <= k < |Calls(sites)| ==> Accepts(onCall, history, Calls(sites), k)
    ensures Drive(onCall, history, sites).1.Completed?
    decreases |sites|
  {
    if sites != [] {
      assert sites[0].Reported?;
      var c := Calls(sites);
      var rest := Calls(sites[1..]);
      assert c == [sites[0].call] + rest;
      var h := history + [sites[0].call];
      assert history + c[..1] == h;
      forall k | 0 <= k < |rest|
        ensures Accepts(onCall, h, rest, k)
      {
        assert Accepts(onCall, history, c, k + 1);
        assert h + rest[..k + 1] == history + c[..k + 1 + 1];
      }
      DriveAccepts(onCall, h, sites[1..]);
      assert Accepts(onCall, history, c, 0);
    }
  }

  // -------------------------------------------------------------- the output

  // The tokens with each reported call's first argument replaced as the
  // callback answers, everything else kept.
  function Rebuild(scan: Scan, toks: seq<Token>, inherited: seq<Raw>, history: seq<VerbCall>,
                   onCall: Callback): seq<Token>
    decreases toks, 2
  {
    RebuildUpTo(scan, toks, inherited, history, onCall, |Steps(scan, toks, 0)|)
  }

  function RebuildUpTo(scan: Scan, toks: seq<Token>, inherited: seq<Raw>, history: seq<VerbCall>, onCall: Callback,
                       n: nat): seq<Token>
    requires n <= |Steps(scan, toks, 0)|
    decreases toks, 1, n
  {
    if n == 0 then []
    else
      var steps := Steps(scan, toks, 0);
      RebuildUpTo(scan, toks, inherited, history, onCall, n - 1)
      + RebuildStep(scan, toks, steps[n - 1], inherited + InForce(toks, steps, n - 1),
                    history + Calls(SitesUpTo(scan, toks, inherited, n - 1)), onCall)
  }

  function RebuildStep(scan: Scan, toks: seq<Token>, s: Step, cfgs: seq<Raw>, history: seq<VerbCall>,
                       onCall: Callback): seq<Token>
    requires InLevel(toks, s)
    decreases toks, 0
  {
    match s
    case Call(at, _, verb, write) =>
      toks[at..at + 3]
      + [Group(Parenthesis, RebuildArgs(scan, toks[at + 3].stream, verb, write, cfgs, history, onCall))]
    case Sub(at, _) => [Group(toks[at].delim, Rebuild(scan, toks[at].stream, cfgs, history, onCall))]
    case _ => toks[s.at..s.at + s.len]
  }

  function RebuildArgs(scan: Scan, args: seq<Token>, verb: string, write: bool, cfgs: seq<Raw>,
                       history: seq<VerbCall>, onCall: Callback): seq<Token>
    decreases args, 3
  {
    var c := CommaAt(args, 0);
    match scan.parse(args[..c])
    case None => args
    case Some(t) =>
      var h := history + [VerbCall(verb, write, t.expr, t.path, cfgs)];
      var first := match onCall(h) case Replace(ts) => ts case _ => args[..c];
      first + Rebuild(scan, args[c..], cfgs, h, onCall)
  }

  // The steps tile the level.
  lemma {:induction false} StepsTile(scan: Scan, toks: seq<Token>, i: nat, n: nat)
    requires i <= |toks| && n < |Steps(scan, toks, i)|
    ensures var steps := Steps(scan, toks, i);
            && steps[n].at < |toks|
            && steps[n] == StepAt(scan, toks, steps[n].at)
            && (n == 0 ==> steps[n].at == i)
            && (n + 1 < |steps| ==> steps[n + 1].at == steps[n].at + steps[n].len)
            && (n + 1 == |steps| ==> steps[n].at + steps[n].len == |toks|)
    decreases n
  {
    var s := StepAt(scan, toks, i);
    if n > 0 {
      StepsTile(scan, toks, i + s.len, n - 1);
    } else if i + s.len < |toks| {
      assert Steps(scan, toks, i + s.len)[0].at == i + s.len;
    }
  }

  // A callback that always answers `None` leaves the body as it was.
  lemma {:induction false} KeepIsIdentity(scan: Scan, toks: seq<Token>, inherited: seq<Raw>, history: seq<VerbCall>)
    ensures Rebuild(scan, toks, inherited, history, h => Keep) == toks
    decreases toks, 1
  {
    hide StepAt, InForce, Sites, SitesUpTo, Calls, RebuildStep, FnEnd;
    var steps := Steps(scan, toks, 0);
    var n := 0;
    ghost var at := 0;
    while n < |steps|
      invariant n <= |steps|
      invariant at == if n < |steps| then steps[n].at else |toks|
      invariant at <= |toks|
      invariant RebuildUpTo(scan, toks, inherited, history, h => Keep, n) == toks[..at]
    {
      StepsTile(scan, toks, 0, n);
      KeepStep(scan, toks, steps[n], inherited + InForce(toks, steps, n),
               history + Calls(SitesUpTo(scan, toks, inherited, n)));
      assert toks[..at] + toks[at..at + steps[n].len] == toks[..at + steps[n].len];
      at := at + steps[n].len;
      n := n + 1;
    }
    assert toks[..at] == toks;
  }

  lemma {:induction false} KeepStep(scan: Scan, toks: seq<Token>, s: Step, cfgs: seq<Raw>, history: seq<VerbCall>)
    requires InLevel(toks, s)
    ensures RebuildStep(scan, toks, s, cfgs, history, h => Keep) == toks[s.at..s.at + s.len]
    decreases toks, 0
  {
    hide Rebuild, Sites;
    match s
    case Call(at, _, verb, write) =>
      var args := toks[at + 3].stream;
      var c := CommaAt(args, 0);
      match scan.parse(args[..c]) {
        case None =>
        case Some(t) =>
          var h := history + [VerbCall(verb, write, t.expr, t.path, cfgs)];
          KeepIsIdentity(scan, args[c..], cfgs, h);
          assert args[..c] + args[c..] == args;
      }
      assert toks[at..at + 4] == toks[at..at + 3] + [toks[at + 3]];
    case Sub(at, _) =>
      KeepIsIdentity(scan, toks[at].stream, cfgs, history);
    case _ =>
  }

  // ------------------------------------------------------------- the walker

  // How the predicates in force move on by one step.
  lemma InForceNext(toks: seq<Token>, steps: seq<Step>, k: nat)
    requires k < |steps| && Level(toks, steps)
    ensures EndsSegment(toks, steps[k]) ==> InForce(toks, steps, k + 1) == []
    ensures !EndsSegment(toks, steps[k]) ==>
              InForce(toks, steps, k + 1) == InForce(toks, steps, k) + AttrPreds([steps[k]])
  {
    if !EndsSegment(toks, steps[k]) {
      var s := SegmentStart(toks, steps, k);
      assert steps[s..k + 1][..k - s] == steps[s..k];
      assert [steps[k]][..0] == [];
    }
  }

  // Once the callback refuses, the sites after it are never visited.
  lemma {:induction false} StopsThere(onCall: Callback, history: seq<VerbCall>, scan: Scan, toks: seq<Token>,
                                      inherited: seq<Raw>, n: nat)
    requires n <= |Steps(scan, toks, 0)|
    requires !Drive(onCall, history, SitesUpTo(scan, toks, inherited, n)).1.Completed?
    ensures Drive(onCall, history, Sites(scan, toks, inherited))
         == Drive(onCall, history, SitesUpTo(scan, toks, inherited, n))
    decreases |Steps(scan, toks, 0)| - n
  {
    hide Drive, InForce, StepSites;
    var steps := Steps(scan, toks, 0);
    if n < |steps| {
      var before := SitesUpTo(scan, toks, inherited, n);
      var here := StepSites(scan, toks, steps[n], inherited + InForce(toks, steps, n));
      assert SitesUpTo(scan, toks, inherited, n + 1) == before + here;
      DriveAppend(onCall, history, before, here);
      StopsThere(onCall, history, scan, toks, inherited, n + 1);
    }
  }

  // Where a walk stands after n steps, at token i: the predicates gathered,
  // the output, and what the callback has been told.
  ghost predicate Standing(scan: Scan, onCall: Callback, history: seq<VerbCall>, body: seq<Token>, inherited: seq<Raw>,
                           n: nat, i: nat, preds: seq<Raw>, out: seq<Token>, log: seq<VerbCall>)
  {
    var steps := Steps(scan, body, 0);
    && i <= |body| && n <= |steps|
    && steps[n..] == Steps(scan, body, i)
    && preds == InForce(body, steps, n)
    && Drive(onCall, history, SitesUpTo(scan, body, inherited, n)) == (log, Completed)
    && out == RebuildUpTo(scan, body, inherited, history, onCall, n)
  }

  lemma Advance(scan: Scan, onCall: Callback, history: seq<VerbCall>, body: seq<Token>, inherited: seq<Raw>,
                n: nat, i: nat, preds: seq<Raw>, out: seq<Token>, log: seq<VerbCall>)
      returns (s: Step, sites: seq<Site>, produced: seq<Token>)
    requires i < |body|
    requires Standing(scan, onCall, history, body, inherited, n, i, preds, out, log)
    ensures s == StepAt(scan, body, i)
    ensures sites == StepSites(scan, body, s, inherited + preds)
    ensures produced == RebuildStep(scan, body, s, inherited + preds, log, onCall)
    ensures var d := Drive(onCall, log, sites);
            var next := if EndsSegment(body, s) then [] else preds + AttrPreds([s]);
            if d.1.Completed? then
              Standing(scan, onCall, history, body, inherited, n + 1, i + s.len, next, out + produced, d.0)
            else
              Drive(onCall, history, Sites(scan, body, inherited)) == d
  {
    hide StepAt, StepSites, RebuildStep, InForce, AttrPreds, EndsSegment, Drive;
    var steps := Steps(scan, body, 0);
    s := StepAt(scan, body, i);
    assert steps[n..][0] == s;
    assert steps[n + 1..] == steps[n..][1..];
    sites := StepSites(scan, body, s, inherited + preds);
    produced := RebuildStep(scan, body, s, inherited + preds, log, onCall);
    InForceNext(body, steps, n);
    var before := SitesUpTo(scan, body, inherited, n);
    DriveReports(onCall, history, before);
    DriveAppend(onCall, history, before, sites);
    if !Drive(onCall, log, sites).1.Completed? {
      StopsThere(onCall, history, scan, body, inherited, n + 1);
    }
  }

  lemma Departs(scan: Scan, onCall: Callback, history: seq<VerbCall>, body: seq<Token>, inherited: seq<Raw>)
    ensures Standing(scan, onCall, history, body, inherited, 0, 0, [], [], history)
  {
  }

  lemma Arrives(scan: Scan, onCall: Callback, history: seq<VerbCall>, body: seq<Token>, inherited: seq<Raw>,
                n: nat, i: nat, preds: seq<Raw>, out: seq<Token>, log: seq<VerbCall>)
    requires i >= |body|
    requires Standing(scan, onCall, history, body, inherited, n, i, preds, out, log)
    ensures Drive(onCall, history, Sites(scan, body, inherited)) == (log, Completed)
    ensures out == Rebuild(scan, body, inherited, history, onCall)
  {
    hide StepAt, InForce, Drive, StepSites, RebuildStep;
    assert Steps(scan, body, 0)[n..] == [];
  }

  lemma NothingToReport(onCall: Callback, history: seq<VerbCall>)
    ensures Drive(onCall, history, []) == (history, Completed)
  {
  }

  // The step at token i, branch by branch as the loop takes them.
  lemma Branches(scan: Scan, onCall: Callback, body: seq<Token>, i: nat, cfgs: seq<Raw>, preds: seq<Raw>,
                 log: seq<VerbCall>)
      returns (next: seq<Raw>)
    requires i < |body|
    ensures var s := StepAt(scan, body, i);
            var sites := StepSites(scan, body, s, cfgs);
            var produced := RebuildStep(scan, body, s, cfgs, log, onCall);
            && next == (if EndsSegment(body, s) then [] else preds + AttrPreds([s]))
            && if IsAttr(body, i) then
                 var p := CfgAttrPredicate(body[i + 1]);
                 && s.len == 2 && sites == [] && produced == [body[i], body[i + 1]]
                 && next == if p.Some? then preds + [p.value] else preds
               else if IsNestedFn(body, i) then
                 && s.len == FnEnd(body, i) - i && sites == [] && produced == body[i..FnEnd(body, i)]
                 && next == []
               else if Matched(scan, body, i).Some? then
                 var m := Matched(scan, body, i).value;
                 var args := body[i + 3].stream;
                 && s.len == 4 && sites == ArgSites(scan, args, m.0, m.1, cfgs)
                 && produced == body[i..i + 3]
                      + [Group(Parenthesis, RebuildArgs(scan, args, m.0, m.1, cfgs, log, onCall))]
                 && next == preds
               else if body[i].Group? then
                 var inner := body[i].stream;
                 && s.len == 1 && sites == Sites(scan, inner, cfgs)
                 && produced == [Group(body[i].delim, Rebuild(scan, inner, cfgs, log, onCall))]
                 && next == if body[i].delim == Brace && !Continues(body, i + 1) then [] else preds
               else
                 && s.len == 1 && sites == [] && produced == [body[i]]
                 && next == if IsPunct(body[i], ';') || IsPunct(body[i], ',') then [] else preds
  {
    hide Sites, ArgSites, Rebuild, RebuildArgs;
    var s := StepAt(scan, body, i);
    assert [s][..0] == [];
    next := if EndsSegment(body, s) then [] else preds + AttrPreds([s]);
  }

  lemma AttrHasTwo(toks: seq<Token>, i: nat)
    requires i < |toks| && IsAttr(toks, i)
    ensures i + 1 < |toks|
  {
  }

  lemma GroupInLevel(t: Token, d: Delim)
    requires IsGroup(t, d)
    ensures t.Group?
  {
  }

  class Rewriter {
    const scan: Scan
    const onCall: Callback
    // Every call the callback has been told about.
    var log: seq<VerbCall>
    var status: Status

    constructor (scan: Scan, onCall: Callback)
      ensures this.scan == scan && this.onCall == onCall && log == [] && status == Completed
    {
      this.scan := scan;
      this.onCall := onCall;
      log := [];
      status := Completed;
    }

    // On a status other than Completed the walk returns at once, as `?` does.
    method RewriteVerbCallsIn(body: seq<Token>, inherited: seq<Raw>) returns (out: seq<Token>)
      requires status.Completed?
      modifies this
      ensures (log, status) == Drive(onCall, old(log), Sites(scan, body, inherited))
      ensures status.Completed? ==> out == Rebuild(scan, body, inherited, old(log), onCall)
      decreases body, 1
    {
      out := [];
      var i := 0;
      var pending: seq<Raw> := [];
      var current: seq<Raw> := [];
      ghost var n := 0;
      hide *;
      Departs(scan, onCall, log, body, inherited);
      assert current + pending == [];
      while i < |body|
        invariant status.Completed?
        invariant Standing(scan, onCall, old(log), body, inherited, n, i, current + pending, out, log)
        decreases |body| - i
      {
        ghost var preds := current + pending;
        ghost var s, sites, produced := Advance(scan, onCall, old(log), body, inherited, n, i, preds, out, log);
        ghost var next := Branches(scan, onCall, body, i, inherited + preds, preds, log);
        NothingToReport(onCall, log);
        ghost var written := out;
        n := n + 1;
        if IsAttr(body, i) {
          AttrHasTwo(body, i);
          var p := CfgAttrPredicate(body[i + 1]);
          match p {
            case Some(pred) => pending := pending + [pred];
            case None =>
          }
          out := out + [body[i], body[i + 1]];
          assert out == written + produced && current + pending == next;
          i := i + 2;
          continue;
        }
        if pending != [] {
          current, pending := current + pending, [];
        }
        assert current == preds && pending == [];
        if IsNestedFn(body, i) {
          out, i := CopyFn(body, i, out);
          current := [];
          assert out == written + produced && current + pending == next;
          continue;
        }
        var matched := Matched(scan, body, i);
        if matched.Some? {
          GroupInLevel(body[i + 3], Parenthesis);
          var args := RewriteFirstArg(body[i + 3].stream, matched.value.0, matched.value.1, inherited + current);
          if !status.Completed? {
            return;
          }
          out := out + body[i..i + 3] + [Group(Parenthesis, args)];
          assert out == written + produced && current + pending == next;
          i := i + 4;
          continue;
        }
        if body[i].Group? {
          var inner := RewriteVerbCallsIn(body[i].stream, inherited + current);
          if !status.Completed? {
            return;
          }
          out := out + [Group(body[i].delim, inner)];
          if body[i].delim == Brace && !Continues(body, i + 1) {
            current := [];
          }
        } else if IsPunct(body[i], ';') || IsPunct(body[i], ',') {
          out := out + [body[i]];
          current := [];
        } else {
          out := out + [body[i]];
        }
        assert out == written + produced && current + pending == next;
        i := i + 1;
      }
      Arrives(scan, onCall, old(log), body, inherited, n, i, current + pending, out, log);
    }

    // A nested fn is copied unread, to its body or its semicolon.
    method CopyFn(body: seq<Token>, start: nat, before: seq<Token>) returns (out: seq<Token>, i: nat)
      requires start < |body|
      ensures i == FnEnd(body, start) && out == before + body[start..i]
    {
      out, i := before, start;
      var done := false;
      while i < |body| && !done
        invariant start <= i <= |body|
        invariant out == before + body[start..i]
        invariant done ==> FnEnd(body, start) == i
        invariant !done ==> FnEnd(body, start) == FnEnd(body, i)
        decreases |body| - i
      {
        done := ClosesFn(body[i]);
        out := out + [body[i]];
        i := i + 1;
      }
    }

    method RewriteFirstArg(args: seq<Token>, verb: string, write: bool, cfgs: seq<Raw>) returns (out: seq<Token>)
      requires status.Completed?
      modifies this
      ensures (log, status) == Drive(onCall, old(log), ArgSites(scan, args, verb, write, cfgs))
      ensures status.Completed? ==>
                out == RebuildArgs(scan, args, verb, write, cfgs, old(log), onCall)
      decreases args, 2
    {
      out := [];
      var split := CommaAt(args, 0);
      var first, rest := args[..split], args[split..];
      match scan.parse(first) {
        case None =>
          status := Rejected;
        case Some(t) =>
          var call := VerbCall(verb, write, t.expr, t.path, cfgs);
          log := log + [call];
          match onCall(log) {
            case Reject =>
              status := Rejected;
            case Panic =>
              status := Panicked;
            case Keep =>
              var tail := RewriteVerbCallsIn(rest, cfgs);
              out := first + tail;
            case Replace(tokens) =>
              var tail := RewriteVerbCallsIn(rest, cfgs);
              out := tokens + tail;
          }
      }
    }
  }
}
