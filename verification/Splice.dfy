// What a walk's output is, without walking: the body with a hole for the first
// argument of each verb call, and one filling per reported call
// (supervisor-syntax/src/lib.rs:2010-2169).
module Splice {
  import opened Tokens
  import opened Walker

  datatype Part = Same(token: Token) | Nested(delim: Delim, parts: seq<Part>) | Hole

  function Holes(parts: seq<Part>): nat
    decreases parts
  {
    if parts == [] then 0
    else
      (match parts[0]
       case Same(_) => 0
       case Nested(_, inner) => Holes(inner)
       case Hole => 1) + Holes(parts[1..])
  }

  // The parts with their holes filled, in order.
  function Plug(parts: seq<Part>, fill: seq<seq<Token>>): seq<Token>
    requires |fill| == Holes(parts)
    decreases parts
  {
    if parts == [] then []
    else
      match parts[0]
      case Same(t) => [t] + Plug(parts[1..], fill)
      case Nested(d, inner) => [Group(d, Plug(inner, fill[..Holes(inner)]))] + Plug(parts[1..], fill[Holes(inner)..])
      case Hole => fill[0] + Plug(parts[1..], fill[1..])
  }

  function Sames(toks: seq<Token>): seq<Part> {
    seq(|toks|, k requires 0 <= k < |toks| => Same(toks[k]))
  }

  // ------------------------------------------------- a body, holes cut out

  function Template(scan: Scan, toks: seq<Token>): seq<Part>
    decreases toks, 2
  {
    TemplateUpTo(scan, toks, |Steps(scan, toks, 0)|)
  }

  function TemplateUpTo(scan: Scan, toks: seq<Token>, n: nat): seq<Part>
    requires n <= |Steps(scan, toks, 0)|
    decreases toks, 1, n
  {
    if n == 0 then [] else TemplateUpTo(scan, toks, n - 1) + TemplateStep(scan, toks, Steps(scan, toks, 0)[n - 1])
  }

  function TemplateStep(scan: Scan, toks: seq<Token>, s: Step): seq<Part>
    requires InLevel(toks, s)
    decreases toks, 0
  {
    match s
    case Call(at, _, _, _) => Sames(toks[at..at + 3]) + [Nested(Parenthesis, TemplateArgs(scan, toks[at + 3].stream))]
    case Sub(at, _) => [Nested(toks[at].delim, Template(scan, toks[at].stream))]
    case _ => Sames(toks[s.at..s.at + s.len])
  }

  function TemplateArgs(scan: Scan, args: seq<Token>): seq<Part>
    decreases args, 3
  {
    [Hole] + Template(scan, args[CommaAt(args, 0)..])
  }

  // The first arguments themselves, in the order the walk reports them.
  function FirstArgs(scan: Scan, toks: seq<Token>): seq<seq<Token>>
    decreases toks, 2
  {
    FirstArgsUpTo(scan, toks, |Steps(scan, toks, 0)|)
  }

  function FirstArgsUpTo(scan: Scan, toks: seq<Token>, n: nat): seq<seq<Token>>
    requires n <= |Steps(scan, toks, 0)|
    decreases toks, 1, n
  {
    if n == 0 then [] else FirstArgsUpTo(scan, toks, n - 1) + FirstArgsStep(scan, toks, Steps(scan, toks, 0)[n - 1])
  }

  function FirstArgsStep(scan: Scan, toks: seq<Token>, s: Step): seq<seq<Token>>
    requires InLevel(toks, s)
    decreases toks, 0
  {
    match s
    case Call(at, _, _, _) => FirstArgsOf(scan, toks[at + 3].stream)
    case Sub(at, _) => FirstArgs(scan, toks[at].stream)
    case _ => []
  }

  function FirstArgsOf(scan: Scan, args: seq<Token>): seq<seq<Token>>
    decreases args, 3
  {
    [args[..CommaAt(args, 0)]] + FirstArgs(scan, args[CommaAt(args, 0)..])
  }

  // What the callback puts in each hole: its replacement, or what was there.
  function Answers(onCall: Callback, history: seq<VerbCall>, calls: seq<VerbCall>,
                   args: seq<seq<Token>>): (r: seq<seq<Token>>)
    requires |args| == |calls|
    ensures |r| == |calls|
  {
    seq(|calls|, k requires 0 <= k < |calls| =>
      match onCall(history + calls[..k + 1]) case Replace(ts) => ts case _ => args[k])
  }

  // These parts are the source with `args` in the holes and the output with
  // the callback's answers; the k-th hole's argument is the k-th call's.
  ghost predicate Splices(scan: Scan, onCall: Callback, history: seq<VerbCall>, parts: seq<Part>, args: seq<seq<Token>>,
                          calls: seq<VerbCall>, source: seq<Token>, out: seq<Token>)
  {
    && Holes(parts) == |args| == |calls|
    && Plug(parts, args) == source
    && Plug(parts, Answers(onCall, history, calls, args)) == out
    && forall k :: 0 <= k < |calls| ==> Reads(scan, args[k], calls[k])
  }

  predicate Reads(scan: Scan, arg: seq<Token>, call: VerbCall) {
    scan.parse(arg) == Some(Target(call.target, call.path))
  }

  // ------------------------------------------------------- putting together

  function HolesIn(p: Part): nat {
    match p
    case Same(_) => 0
    case Nested(_, inner) => Holes(inner)
    case Hole => 1
  }

  function PlugOne(p: Part, fill: seq<seq<Token>>): seq<Token>
    requires |fill| == HolesIn(p)
  {
    match p
    case Same(t) => [t]
    case Nested(d, inner) => [Group(d, Plug(inner, fill))]
    case Hole => fill[0]
  }

  lemma PlugStep(parts: seq<Part>, fill: seq<seq<Token>>)
    requires parts != [] && |fill| == Holes(parts)
    ensures Holes(parts) == HolesIn(parts[0]) + Holes(parts[1..])
    ensures Plug(parts, fill)
            == PlugOne(parts[0], fill[..HolesIn(parts[0])]) + Plug(parts[1..], fill[HolesIn(parts[0])..])
  {
    assert fill[0..] == fill;
  }

  lemma PlugNothing()
    ensures Holes([]) == 0 && Plug([], []) == []
  {
  }

  lemma {:induction false} HolesAppend(a: seq<Part>, b: seq<Part>)
    ensures Holes(a + b) == Holes(a) + Holes(b)
    decreases |a|
  {
    if a == [] {
      assert a + b == b;
    } else {
      assert (a + b)[1..] == a[1..] + b && (a + b)[0] == a[0];
      HolesAppend(a[1..], b);
    }
  }

  lemma {:induction false} PlugAppend(a: seq<Part>, b: seq<Part>, f: seq<seq<Token>>, g: seq<seq<Token>>)
    requires |f| == Holes(a) && |g| == Holes(b)
    ensures Holes(a + b) == Holes(a) + Holes(b)
    ensures Plug(a + b, f + g) == Plug(a, f) + Plug(b, g)
    decreases |a|
  {
    hide *;
    HolesAppend(a, b);
    if a == [] {
      PlugNothing();
      assert a + b == b && f == [] && f + g == g;
    } else {
      PlugStep(a, f);
      PlugStep(a + b, f + g);
      var h := HolesIn(a[0]);
      assert (a + b)[1..] == a[1..] + b && (a + b)[0] == a[0];
      assert (f + g)[..h] == f[..h] && (f + g)[h..] == f[h..] + g;
      PlugAppend(a[1..], b, f[h..], g);
      var x, y, z := PlugOne(a[0], f[..h]), Plug(a[1..], f[h..]), Plug(b, g);
      assert x + (y + z) == x + y + z;
    }
  }

  lemma {:induction false} PlugSames(toks: seq<Token>)
    ensures Holes(Sames(toks)) == 0 && Plug(Sames(toks), []) == toks
  {
    if toks != [] {
      assert Sames(toks)[1..] == Sames(toks[1..]);
      PlugSames(toks[1..]);
    }
  }

  lemma AnswersAppend(onCall: Callback, history: seq<VerbCall>, c1: seq<VerbCall>, c2: seq<VerbCall>,
                      a1: seq<seq<Token>>, a2: seq<seq<Token>>)
    requires |a1| == |c1| && |a2| == |c2|
    ensures Answers(onCall, history, c1 + c2, a1 + a2)
            == Answers(onCall, history, c1, a1) + Answers(onCall, history + c1, c2, a2)
  {
    var all := Answers(onCall, history, c1 + c2, a1 + a2);
    var parts := Answers(onCall, history, c1, a1) + Answers(onCall, history + c1, c2, a2);
    forall k | 0 <= k < |all|
      ensures all[k] == parts[k]
    {
      if k < |c1| {
        assert (c1 + c2)[..k + 1] == c1[..k + 1];
      } else {
        var j := k - |c1|;
        assert (c1 + c2)[..k + 1] == c1 + c2[..j + 1];
        assert history + (c1 + c2[..j + 1]) == history + c1 + c2[..j + 1];
      }
    }
  }

  lemma SplicesAppend(scan: Scan, onCall: Callback, history: seq<VerbCall>,
                      p1: seq<Part>, a1: seq<seq<Token>>, c1: seq<VerbCall>, s1: seq<Token>, o1: seq<Token>,
                      p2: seq<Part>, a2: seq<seq<Token>>, c2: seq<VerbCall>, s2: seq<Token>, o2: seq<Token>)
    requires Splices(scan, onCall, history, p1, a1, c1, s1, o1)
    requires Splices(scan, onCall, history + c1, p2, a2, c2, s2, o2)
    ensures Splices(scan, onCall, history, p1 + p2, a1 + a2, c1 + c2, s1 + s2, o1 + o2)
  {
    hide Holes, Plug, Answers, Reads;
    PlugAppend(p1, p2, a1, a2);
    AnswersAppend(onCall, history, c1, c2, a1, a2);
    PlugAppend(p1, p2, Answers(onCall, history, c1, a1), Answers(onCall, history + c1, c2, a2));
  }

  lemma SplicesSame(scan: Scan, onCall: Callback, history: seq<VerbCall>, toks: seq<Token>)
    ensures Splices(scan, onCall, history, Sames(toks), [], [], toks, toks)
  {
    hide Holes, Plug, Sames;
    PlugSames(toks);
    assert Answers(onCall, history, [], []) == [];
  }

  lemma PlugNested(d: Delim, p: seq<Part>, f: seq<seq<Token>>)
    requires |f| == Holes(p)
    ensures Holes([Nested(d, p)]) == Holes(p) && Plug([Nested(d, p)], f) == [Group(d, Plug(p, f))]
  {
    assert f[..Holes(p)] == f && f[Holes(p)..] == [];
    assert [Nested(d, p)][1..] == [];
  }

  lemma SplicesNested(scan: Scan, onCall: Callback, history: seq<VerbCall>, d: Delim,
                      p: seq<Part>, a: seq<seq<Token>>, c: seq<VerbCall>, s: seq<Token>, o: seq<Token>)
    requires Splices(scan, onCall, history, p, a, c, s, o)
    ensures Splices(scan, onCall, history, [Nested(d, p)], a, c, [Group(d, s)], [Group(d, o)])
  {
    hide Holes, Plug, Answers, Reads;
    PlugNested(d, p, a);
    PlugNested(d, p, Answers(onCall, history, c, a));
  }

  lemma PlugHole(f: seq<Token>)
    ensures Holes([Hole]) == 1 && Plug([Hole], [f]) == f
  {
    assert [Hole][1..] == [] && [f][1..] == [];
  }

  lemma SplicesHole(scan: Scan, onCall: Callback, history: seq<VerbCall>, arg: seq<Token>, call: VerbCall)
    requires Reads(scan, arg, call)
    ensures Splices(scan, onCall, history, [Hole], [arg], [call], arg,
                    match onCall(history + [call]) case Replace(ts) => ts case _ => arg)
  {
    var answer := match onCall(history + [call]) case Replace(ts) => ts case _ => arg;
    hide Holes, Plug;
    PlugHole(arg);
    PlugHole(answer);
    assert [call][..1] == [call];
    assert Answers(onCall, history, [call], [arg]) == [answer];
  }

  // -------------------------------------------------------------- the result

  lemma {:induction false} ReadableParts(a: seq<Site>, b: seq<Site>)
    ensures Readable(a + b) <==> Readable(a) && Readable(b)
  {
    if a == [] {
      assert a + b == b;
    } else {
      assert (a + b)[1..] == a[1..] + b && (a + b)[0] == a[0];
      ReadableParts(a[1..], b);
      ReadableCons(a);
      ReadableCons(a + b);
    }
  }

  lemma {:induction false} ReadableUpTo(scan: Scan, toks: seq<Token>, inherited: seq<Raw>, n: nat)
    requires n <= |Steps(scan, toks, 0)| && Readable(Sites(scan, toks, inherited))
    ensures Readable(SitesUpTo(scan, toks, inherited, n))
    decreases |Steps(scan, toks, 0)| - n
  {
    hide Readable, StepSites, InForce;
    var steps := Steps(scan, toks, 0);
    if n < |steps| {
      ReadableUpTo(scan, toks, inherited, n + 1);
      ReadableParts(SitesUpTo(scan, toks, inherited, n),
          StepSites(scan, toks, steps[n], inherited + InForce(toks, steps, n)));
    }
  }

  // Where step n begins, or the end of the level.
  function Place(scan: Scan, toks: seq<Token>, n: nat): (at: nat)
    requires n <= |Steps(scan, toks, 0)|
    ensures at <= |toks|
  {
    if n < |Steps(scan, toks, 0)| then Steps(scan, toks, 0)[n].at else |toks|
  }

  lemma Unfolds(scan: Scan, toks: seq<Token>, inherited: seq<Raw>, history: seq<VerbCall>, onCall: Callback, n: nat)
      returns (s: Step, cfgs: seq<Raw>, told: seq<VerbCall>)
    requires n < |Steps(scan, toks, 0)|
    requires Readable(SitesUpTo(scan, toks, inherited, n + 1))
    ensures s == Steps(scan, toks, 0)[n] && InLevel(toks, s)
    ensures s.at == Place(scan, toks, n) && s.at + s.len == Place(scan, toks, n + 1)
    ensures told == history + Calls(SitesUpTo(scan, toks, inherited, n))
    ensures TemplateUpTo(scan, toks, n + 1) == TemplateUpTo(scan, toks, n) + TemplateStep(scan, toks, s)
    ensures FirstArgsUpTo(scan, toks, n + 1) == FirstArgsUpTo(scan, toks, n) + FirstArgsStep(scan, toks, s)
    ensures Readable(SitesUpTo(scan, toks, inherited, n)) && Readable(StepSites(scan, toks, s, cfgs))
    ensures Calls(SitesUpTo(scan, toks, inherited, n + 1))
            == Calls(SitesUpTo(scan, toks, inherited, n)) + Calls(StepSites(scan, toks, s, cfgs))
    ensures RebuildUpTo(scan, toks, inherited, history, onCall, n + 1)
         == RebuildUpTo(scan, toks, inherited, history, onCall, n) + RebuildStep(scan, toks, s, cfgs, told, onCall)
  {
    hide Readable, StepSites, InForce, Calls, RebuildStep, TemplateStep, FirstArgsStep;
    var steps := Steps(scan, toks, 0);
    s, cfgs := steps[n], inherited + InForce(toks, steps, n);
    told := history + Calls(SitesUpTo(scan, toks, inherited, n));
    StepsTile(scan, toks, 0, n);
    var before, here := SitesUpTo(scan, toks, inherited, n), StepSites(scan, toks, s, cfgs);
    assert SitesUpTo(scan, toks, inherited, n + 1) == before + here;
    ReadableParts(before, here);
    CallsAppend(before, here);
  }

  ghost predicate SplicedUpTo(scan: Scan, toks: seq<Token>, inherited: seq<Raw>, history: seq<VerbCall>,
                              onCall: Callback, n: nat)
    requires n <= |Steps(scan, toks, 0)|
  {
    Splices(scan, onCall, history, TemplateUpTo(scan, toks, n), FirstArgsUpTo(scan, toks, n),
        Calls(SitesUpTo(scan, toks, inherited, n)),
            toks[..Place(scan, toks, n)], RebuildUpTo(scan, toks, inherited, history, onCall, n))
  }

  lemma NothingSpliced(scan: Scan, toks: seq<Token>, inherited: seq<Raw>, history: seq<VerbCall>, onCall: Callback)
    ensures SplicedUpTo(scan, toks, inherited, history, onCall, 0)
  {
    assert toks[..Place(scan, toks, 0)] == [];
    assert Answers(onCall, history, [], []) == [];
  }

  lemma {:induction false} UpToIsSpliced(scan: Scan, toks: seq<Token>, inherited: seq<Raw>, history: seq<VerbCall>,
                                         onCall: Callback, n: nat)
    requires n <= |Steps(scan, toks, 0)| && Readable(SitesUpTo(scan, toks, inherited, n))
    ensures SplicedUpTo(scan, toks, inherited, history, onCall, n)
    decreases toks, 1, n
  {
    hide *;
    if n == 0 {
      NothingSpliced(scan, toks, inherited, history, onCall);
    } else {
      var s, cfgs, told := Unfolds(scan, toks, inherited, history, onCall, n - 1);
      UpToIsSpliced(scan, toks, inherited, history, onCall, n - 1);
      StepIsSpliced(scan, toks, s, cfgs, told, onCall);
      Extends(scan, toks, inherited, history, onCall, n - 1, s, cfgs, told);
    }
  }

  lemma Extends(scan: Scan, toks: seq<Token>, inherited: seq<Raw>, history: seq<VerbCall>, onCall: Callback, n: nat,
                s: Step, cfgs: seq<Raw>, told: seq<VerbCall>)
    requires n < |Steps(scan, toks, 0)| && SplicedUpTo(scan, toks, inherited, history, onCall, n)
    requires InLevel(toks, s) && s.at == Place(scan, toks, n) && s.at + s.len == Place(scan, toks, n + 1)
    requires told == history + Calls(SitesUpTo(scan, toks, inherited, n))
    requires TemplateUpTo(scan, toks, n + 1) == TemplateUpTo(scan, toks, n) + TemplateStep(scan, toks, s)
    requires FirstArgsUpTo(scan, toks, n + 1) == FirstArgsUpTo(scan, toks, n) + FirstArgsStep(scan, toks, s)
    requires Calls(SitesUpTo(scan, toks, inherited, n + 1))
             == Calls(SitesUpTo(scan, toks, inherited, n)) + Calls(StepSites(scan, toks, s, cfgs))
    requires RebuildUpTo(scan, toks, inherited, history, onCall, n + 1)
          == RebuildUpTo(scan, toks, inherited, history, onCall, n) + RebuildStep(scan, toks, s, cfgs, told, onCall)
    requires Splices(scan, onCall, told, TemplateStep(scan, toks, s), FirstArgsStep(scan, toks, s),
             Calls(StepSites(scan, toks, s, cfgs)),
                     toks[s.at..s.at + s.len], RebuildStep(scan, toks, s, cfgs, told, onCall))
    ensures SplicedUpTo(scan, toks, inherited, history, onCall, n + 1)
  {
    hide Splices, TemplateUpTo, TemplateStep, FirstArgsUpTo, FirstArgsStep, Calls, SitesUpTo, StepSites, RebuildUpTo,
         RebuildStep, Place;
    SplicesAppend(scan, onCall, history,
                  TemplateUpTo(scan, toks, n), FirstArgsUpTo(scan, toks, n),
                      Calls(SitesUpTo(scan, toks, inherited, n)), toks[..s.at],
                  RebuildUpTo(scan, toks, inherited, history, onCall, n),
                  TemplateStep(scan, toks, s), FirstArgsStep(scan, toks, s), Calls(StepSites(scan, toks, s, cfgs)),
                      toks[s.at..s.at + s.len],
                  RebuildStep(scan, toks, s, cfgs, told, onCall));
    assert toks[..s.at] + toks[s.at..s.at + s.len] == toks[..s.at + s.len];
  }

  lemma {:induction false} StepIsSpliced(scan: Scan, toks: seq<Token>, s: Step, cfgs: seq<Raw>,
                                         history: seq<VerbCall>, onCall: Callback)
    requires InLevel(toks, s) && Readable(StepSites(scan, toks, s, cfgs))
    ensures Splices(scan, onCall, history, TemplateStep(scan, toks, s), FirstArgsStep(scan, toks, s),
            Calls(StepSites(scan, toks, s, cfgs)),
                    toks[s.at..s.at + s.len], RebuildStep(scan, toks, s, cfgs, history, onCall))
    decreases toks, 0
  {
    hide Splices, Sites, ArgSites, Readable, Template, TemplateArgs, FirstArgs, FirstArgsOf, Rebuild, RebuildArgs;
    assert Calls([]) == [];
    hide Calls;
    match s
    case Call(at, _, verb, write) =>
      var args := toks[at + 3].stream;
      var sites, out := ArgSites(scan, args, verb, write, cfgs),
          RebuildArgs(scan, args, verb, write, cfgs, history, onCall);
      ArgsAreSpliced(scan, args, verb, write, cfgs, history, onCall);
      SplicesNested(scan, onCall, history, Parenthesis, TemplateArgs(scan, args), FirstArgsOf(scan, args),
          Calls(sites), args, out);
      SplicesSame(scan, onCall, history, toks[at..at + 3]);
      assert history + [] == history;
      SplicesAppend(scan, onCall, history, Sames(toks[at..at + 3]), [], [], toks[at..at + 3], toks[at..at + 3],
                    [Nested(Parenthesis, TemplateArgs(scan, args))], FirstArgsOf(scan, args), Calls(sites),
                    [Group(Parenthesis, args)], [Group(Parenthesis, out)]);
      assert toks[at..at + 4] == toks[at..at + 3] + [Group(Parenthesis, args)];
      assert [] + FirstArgsOf(scan, args) == FirstArgsOf(scan, args) && [] + Calls(sites) == Calls(sites);
    case Sub(at, _) =>
      var inner := toks[at].stream;
      OutputIsSpliced(scan, inner, cfgs, history, onCall);
      SplicesNested(scan, onCall, history, toks[at].delim, Template(scan, inner), FirstArgs(scan, inner),
          Calls(Sites(scan, inner, cfgs)),
                    inner, Rebuild(scan, inner, cfgs, history, onCall));
      assert toks[at..at + 1] == [Group(toks[at].delim, inner)];
    case _ =>
      SplicesSame(scan, onCall, history, toks[s.at..s.at + s.len]);
  }

  lemma {:induction false} ArgsAreSpliced(scan: Scan, args: seq<Token>, verb: string, write: bool, cfgs: seq<Raw>,
                                          history: seq<VerbCall>, onCall: Callback)
    requires Readable(ArgSites(scan, args, verb, write, cfgs))
    ensures Splices(scan, onCall, history, TemplateArgs(scan, args), FirstArgsOf(scan, args),
            Calls(ArgSites(scan, args, verb, write, cfgs)),
                    args, RebuildArgs(scan, args, verb, write, cfgs, history, onCall))
    decreases args, 3
  {
    hide Splices, Sites, Template, FirstArgs, Rebuild;
    var c := CommaAt(args, 0);
    var t := ReadableArg(scan, args, verb, write, cfgs);
    var call := VerbCall(verb, write, t.expr, t.path, cfgs);
    var answer := match onCall(history + [call]) case Replace(ts) => ts case _ => args[..c];
    hide ArgSites, Calls, Readable;
    SplicesHole(scan, onCall, history, args[..c], call);
    OutputIsSpliced(scan, args[c..], cfgs, history + [call], onCall);
    SplicesAppend(scan, onCall, history, [Hole], [args[..c]], [call], args[..c], answer,
                  Template(scan, args[c..]), FirstArgs(scan, args[c..]), Calls(Sites(scan, args[c..], cfgs)), args[c..],
                  Rebuild(scan, args[c..], cfgs, history + [call], onCall));
    assert args[..c] + args[c..] == args;
  }

  lemma ReadableArg(scan: Scan, args: seq<Token>, verb: string, write: bool, cfgs: seq<Raw>) returns (t: Target)
    requires Readable(ArgSites(scan, args, verb, write, cfgs))
    ensures var c := CommaAt(args, 0);
            var call := VerbCall(verb, write, t.expr, t.path, cfgs);
            && scan.parse(args[..c]) == Some(t) && Reads(scan, args[..c], call)
            && Readable(Sites(scan, args[c..], cfgs))
            && Calls(ArgSites(scan, args, verb, write, cfgs)) == [call] + Calls(Sites(scan, args[c..], cfgs))
  {
    hide Sites;
    var c := CommaAt(args, 0);
    var sites := ArgSites(scan, args, verb, write, cfgs);
    assert sites[0].Reported?;
    t := scan.parse(args[..c]).value;
    assert sites[1..] == Sites(scan, args[c..], cfgs);
    ReadableCons(sites);
  }

  // Main result: on a readable body a walk's output is the body itself but for
  // the reported calls' first arguments, the k-th of which holds the answer to
  // the k-th report.
  lemma {:induction false} OutputIsSpliced(scan: Scan, toks: seq<Token>, inherited: seq<Raw>, history: seq<VerbCall>,
                                           onCall: Callback)
    requires Readable(Sites(scan, toks, inherited))
    ensures Splices(scan, onCall, history, Template(scan, toks), FirstArgs(scan, toks),
            Calls(Sites(scan, toks, inherited)),
                    toks, Rebuild(scan, toks, inherited, history, onCall))
    decreases toks, 2
  {
    hide Splices, StepAt, StepSites, TemplateStep, FirstArgsStep, RebuildStep, Steps, Calls, Readable;
    UpToIsSpliced(scan, toks, inherited, history, onCall, |Steps(scan, toks, 0)|);
    assert toks[..|toks|] == toks;
  }
}
