// What the walk reports, as laws on the shape of the tokens alone: no steps,
// no segments, no predicates in force
// (supervisor-syntax/src/lib.rs:2010-2169).
module WalkLaws {
  import opened Tokens
  import opened Walker

  // ------------------------------------------------- the walk from one token

  function Next(toks: seq<Token>, s: Step, cur: seq<Raw>): seq<Raw>
    requires InLevel(toks, s)
  {
    if EndsSegment(toks, s) then [] else cur + AttrPreds([s])
  }

  // The sites from token i on, with these predicates in force there.
  function SitesFrom(scan: Scan, toks: seq<Token>, i: nat, inherited: seq<Raw>, cur: seq<Raw>): seq<Site>
    requires i <= |toks|
    decreases |toks| - i
  {
    if i == |toks| then []
    else
      var s := StepAt(scan, toks, i);
      StepSites(scan, toks, s, inherited + cur)
      + SitesFrom(scan, toks, i + s.len, inherited, Next(toks, s, cur))
  }

  function PlaceOf(toks: seq<Token>, steps: seq<Step>, n: nat): nat {
    if n < |steps| then steps[n].at else |toks|
  }

  lemma {:induction false} SitesSplit(scan: Scan, toks: seq<Token>, inherited: seq<Raw>, n: nat)
    requires n <= |Steps(scan, toks, 0)|
    ensures var steps := Steps(scan, toks, 0);
            && PlaceOf(toks, steps, n) <= |toks|
            && Sites(scan, toks, inherited)
            == SitesUpTo(scan, toks, inherited, n)
               + SitesFrom(scan, toks, PlaceOf(toks, steps, n), inherited, InForce(toks, steps, n))
    decreases |Steps(scan, toks, 0)| - n
  {
    hide StepAt, InForce, StepSites, EndsSegment, AttrPreds;
    var steps := Steps(scan, toks, 0);
    if n < |steps| {
      SitesSplit(scan, toks, inherited, n + 1);
      StepsTile(scan, toks, 0, n);
      InForceNext(toks, steps, n);
    }
  }

  lemma SitesAreFrom(scan: Scan, toks: seq<Token>, inherited: seq<Raw>)
    ensures Sites(scan, toks, inherited) == SitesFrom(scan, toks, 0, inherited, [])
  {
    SitesSplit(scan, toks, inherited, 0);
    var steps := Steps(scan, toks, 0);
    assert InForce(toks, steps, 0) == [] by { assert steps[0..0] == []; }
    if steps != [] {
      StepsTile(scan, toks, 0, 0);
    }
  }

  // ---------------------------------------------- the same tokens further on

  function Moved(s: Step, d: nat): Step { s.(at := s.at + d) }

  predicate Linking(t: Token) { IsPunct(t, '.') || IsPunct(t, ':') }

  lemma {:induction false} FnEndMoved(a: seq<Token>, b: seq<Token>, i: nat)
    requires i <= |b|
    ensures FnEnd(a + b, |a| + i) == |a| + FnEnd(b, i)
    decreases |b| - i
  {
    if i < |b| && !ClosesFn(b[i]) {
      FnEndMoved(a, b, i + 1);
    }
  }

  lemma OwnMoved(a: seq<Token>, b: seq<Token>, i: nat)
    requires i < |b| && (a == [] || !Linking(a[|a| - 1]))
    ensures OwnReceiver(a + b, |a| + i) == OwnReceiver(b, i)
  {
    if i > 0 {
      assert (a + b)[|a| + i - 1] == b[i - 1];
    } else if a != [] {
      assert (a + b)[|a| + i - 1] == a[|a| - 1];
    }
  }

  lemma MatchedMoved(scan: Scan, a: seq<Token>, b: seq<Token>, i: nat)
    requires i < |b| && (a == [] || !Linking(a[|a| - 1]))
    ensures Matched(scan, a + b, |a| + i) == Matched(scan, b, i)
  {
    OwnMoved(a, b, i);
    hide Direction, OwnReceiver, Linking, IsPunct, IsIdent, IsGroup;
    if i + 3 < |b| {
      assert (a + b)[|a| + i] == b[i] && (a + b)[|a| + i + 1] == b[i + 1];
      assert (a + b)[|a| + i + 2] == b[i + 2] && (a + b)[|a| + i + 3] == b[i + 3];
    }
  }

  lemma ShapeMoved(a: seq<Token>, b: seq<Token>, i: nat)
    requires i < |b|
    ensures (a + b)[|a| + i] == b[i] && (i + 1 < |b| ==> (a + b)[|a| + (i + 1)] == b[i + 1])
    ensures IsAttr(a + b, |a| + i) <==> IsAttr(b, i)
    ensures IsNestedFn(a + b, |a| + i) <==> IsNestedFn(b, i)
  {
  }

  lemma StepMoved(scan: Scan, a: seq<Token>, b: seq<Token>, i: nat)
    requires i < |b| && (a == [] || !Linking(a[|a| - 1]))
    ensures StepAt(scan, a + b, |a| + i) == Moved(StepAt(scan, b, i), |a|)
  {
    hide FnEnd, Matched, InLevel;
    FnEndMoved(a, b, i);
    ShapeMoved(a, b, i);
    MatchedMoved(scan, a, b, i);
    if IsAttr(b, i) {
      assert |a| + i + 1 == |a| + (i + 1);
    }
    hide IsAttr, IsNestedFn, CfgAttrPredicate;
  }

  // How a step moves the predicates in force on.
  lemma NextIs(toks: seq<Token>, s: Step, cur: seq<Raw>)
    requires InLevel(toks, s)
    ensures EndsSegment(toks, s) ==> Next(toks, s, cur) == []
    ensures !EndsSegment(toks, s) ==>
              Next(toks, s, cur) == if s.Attr? && s.pred.Some? then cur + [s.pred.value] else cur
  {
    hide EndsSegment, InLevel;
    assert [s][..0] == [] && [] + AttrPreds([]) == [];
    assert cur + [] == cur;
  }

  lemma OneMoved(scan: Scan, a: seq<Token>, b: seq<Token>, s: Step, cfgs: seq<Raw>, cur: seq<Raw>)
    requires InLevel(b, s)
    ensures var m := Moved(s, |a|);
            && InLevel(a + b, m)
            && StepSites(scan, a + b, m, cfgs) == StepSites(scan, b, s, cfgs)
            && Next(a + b, m, cur) == Next(b, s, cur)
  {
    hide Sites, ArgSites;
    assert forall k :: 0 <= k < |b| ==> (a + b)[|a| + k] == b[k];
    assert [s][..0] == [] && [Moved(s, |a|)][..0] == [];
  }

  lemma {:induction false} SitesMoved(scan: Scan, a: seq<Token>, b: seq<Token>, i: nat, inherited: seq<Raw>,
                                      cur: seq<Raw>)
    requires i <= |b| && (a == [] || !Linking(a[|a| - 1]))
    ensures SitesFrom(scan, a + b, |a| + i, inherited, cur) == SitesFrom(scan, b, i, inherited, cur)
    decreases |b| - i
  {
    hide StepAt, StepSites, InLevel, Next;
    if i < |b| {
      StepMoved(scan, a, b, i);
      var s := StepAt(scan, b, i);
      OneMoved(scan, a, b, s, inherited + cur, cur);
      StepInside(scan, b, i);
      SitesMoved(scan, a, b, i + s.len, inherited, Next(b, s, cur));
      assert |a| + i + s.len == |a| + (i + s.len);
    }
  }

  lemma StepInside(scan: Scan, b: seq<Token>, i: nat)
    requires i < |b|
    ensures i + StepAt(scan, b, i).len <= |b| && StepAt(scan, b, i).len > 0
  {
    hide StepAt;
  }

  // ------------------------------------------------------ where a cut is clean

  predicate NoFn(a: seq<Token>) { forall k :: 0 <= k < |a| ==> !IsIdent(a[k], "fn") }

  predicate Sealed(a: seq<Token>) {
    a != [] && var last := a[|a| - 1];
    IsPunct(last, ';') || ((IsPunct(last, ',') || IsGroup(last, Brace)) && NoFn(a))
  }

  // `else`, `.` or `?`.
  predicate GoesOn(b: seq<Token>) {
    b != [] && (IsIdent(b[0], "else") || IsPunct(b[0], '.') || IsPunct(b[0], '?'))
  }

  lemma {:induction false} FnEndWithin(a: seq<Token>, b: seq<Token>, i: nat)
    requires i < |a| && IsPunct(a[|a| - 1], ';')
    ensures FnEnd(a + b, i) == FnEnd(a, i) <= |a|
    decreases |a| - i
  {
    if !ClosesFn(a[i]) {
      FnEndWithin(a, b, i + 1);
    }
  }

  lemma StepWithin(scan: Scan, a: seq<Token>, b: seq<Token>, i: nat)
    requires Sealed(a) && i < |a|
    ensures StepAt(scan, a + b, i) == StepAt(scan, a, i)
  {
    hide FnEnd, Direction;
    if IsPunct(a[|a| - 1], ';') {
      FnEndWithin(a, b, i);
    }
    assert forall k :: 0 <= k < |a| ==> (a + b)[k] == a[k];
  }

  // The predicates in force behind a, did its last brace group not end them.
  function Held(scan: Scan, a: seq<Token>, i: nat, cur: seq<Raw>): seq<Raw>
    requires i <= |a|
    decreases |a| - i
  {
    if i == |a| then cur
    else
      var s := StepAt(scan, a, i);
      Held(scan, a, i + s.len, if i + s.len == |a| && s.Sub? then cur else Next(a, s, cur))
  }

  lemma LastStep(scan: Scan, a: seq<Token>, i: nat)
    requires Sealed(a) && i < |a| && i + StepAt(scan, a, i).len == |a|
    ensures var s, last := StepAt(scan, a, i), a[|a| - 1];
            && (IsPunct(last, ';') || IsPunct(last, ',') ==> EndsSegment(a, s) && !s.Sub?)
            && (IsGroup(last, Brace) ==> s == Sub(|a| - 1, 1))
  {
    hide FnEnd, Direction;
  }

  // A step that is not the last is the same with anything behind it.
  lemma OneWithin(scan: Scan, a: seq<Token>, b: seq<Token>, s: Step, cfgs: seq<Raw>, cur: seq<Raw>)
    requires InLevel(a, s)
    ensures InLevel(a + b, s) && StepSites(scan, a + b, s, cfgs) == StepSites(scan, a, s, cfgs)
    ensures s.at + s.len < |a| ==> Next(a + b, s, cur) == Next(a, s, cur)
  {
    hide Sites, ArgSites, AttrPreds;
    assert forall k :: 0 <= k < |a| ==> (a + b)[k] == a[k];
  }

  lemma LastWithin(scan: Scan, a: seq<Token>, b: seq<Token>, i: nat, cur: seq<Raw>)
    requires Sealed(a) && i < |a| && i + StepAt(scan, a, i).len == |a|
    ensures var s := StepAt(scan, a, i);
            && InLevel(a + b, s)
            && (s.Sub? ==> IsGroup(a[|a| - 1], Brace))
            && (IsGroup(a[|a| - 1], Brace) ==> s.Sub?)
            && Next(a + b, s, cur) == if s.Sub? && GoesOn(b) then cur else []
  {
    LastStep(scan, a, i);
    hide StepAt;
    var s := StepAt(scan, a, i);
    NoPredsOfGroup(s);
    assert forall k :: 0 <= k < |a| ==> (a + b)[k] == a[k];
    assert b != [] ==> (a + b)[|a|] == b[0];
  }

  lemma {:induction false} SealedSplit(scan: Scan, a: seq<Token>, b: seq<Token>, i: nat, inherited: seq<Raw>,
                                       cur: seq<Raw>)
    requires Sealed(a) && i < |a|
    ensures SitesFrom(scan, a + b, i, inherited, cur)
         == SitesFrom(scan, a, i, inherited, cur)
            + SitesFrom(scan, b, 0, inherited,
                        if IsGroup(a[|a| - 1], Brace) && GoesOn(b) then Held(scan, a, i, cur) else [])
    decreases |a| - i
  {
    hide StepAt, StepSites, InLevel, Next, IsGroup, IsPunct, IsIdent, GoesOn;
    StepWithin(scan, a, b, i);
    StepInside(scan, a, i);
    var s := StepAt(scan, a, i);
    OneWithin(scan, a, b, s, inherited + cur, cur);
    if i + s.len == |a| {
      LastWithin(scan, a, b, i, cur);
      SealedIsNotLinking(a);
      SitesMoved(scan, a, b, 0, inherited, Next(a + b, s, cur));
    } else {
      SealedSplit(scan, a, b, i + s.len, inherited, Next(a, s, cur));
    }
  }

  lemma SealedIsNotLinking(a: seq<Token>)
    requires Sealed(a)
    ensures !Linking(a[|a| - 1])
  {
  }

  lemma NoPredsOfGroup(s: Step)
    ensures s.Sub? ==> AttrPreds([s]) == []
  {
    assert [s][..0] == [];
  }

  // -------------------------------------------------------- statements apart

  function Semi(): Token { Punct(';') }

  function Comma(): Token { Punct(',') }

  // A `;` ends every statement: no predicate passes it, and the walk goes on
  // behind it as at the start of a body.
  lemma AfterSemicolon(scan: Scan, a: seq<Token>, b: seq<Token>, inherited: seq<Raw>)
    ensures Sites(scan, a + [Semi()] + b, inherited) == Sites(scan, a + [Semi()], inherited) + Sites(scan, b, inherited)
  {
    Apart(scan, a + [Semi()], b, inherited);
  }

  // So does a `,`, but inside the head of a nested fn.
  lemma AfterComma(scan: Scan, a: seq<Token>, b: seq<Token>, inherited: seq<Raw>)
    requires NoFn(a)
    ensures Sites(scan, a + [Comma()] + b, inherited)
         == Sites(scan, a + [Comma()], inherited) + Sites(scan, b, inherited)
  {
    assert NoFn(a + [Comma()]);
    Apart(scan, a + [Comma()], b, inherited);
  }

  // And a brace group, unless `else`, `.` or `?` comes right behind it.
  lemma AfterBlock(scan: Scan, a: seq<Token>, x: seq<Token>, b: seq<Token>, inherited: seq<Raw>)
    requires NoFn(a) && !GoesOn(b)
    ensures var head := a + [Group(Brace, x)];
            Sites(scan, head + b, inherited) == Sites(scan, head, inherited) + Sites(scan, b, inherited)
  {
    assert NoFn(a + [Group(Brace, x)]);
    Apart(scan, a + [Group(Brace, x)], b, inherited);
  }

  lemma Apart(scan: Scan, a: seq<Token>, b: seq<Token>, inherited: seq<Raw>)
    requires Sealed(a) && !(IsGroup(a[|a| - 1], Brace) && GoesOn(b))
    ensures Sites(scan, a + b, inherited) == Sites(scan, a, inherited) + Sites(scan, b, inherited)
  {
    hide Sites, SitesFrom, Held;
    SealedSplit(scan, a, b, 0, inherited, []);
    SitesAreFrom(scan, a + b, inherited);
    SitesAreFrom(scan, a, inherited);
    SitesAreFrom(scan, b, inherited);
  }

  // ---------------------------------------------------- under an attribute

  function CfgOf(p: Raw): seq<Token> { [Ident("cfg"), Group(Parenthesis, p)] }

  function Attribute(p: Raw): seq<Token> { [Punct('#'), Group(Bracket, CfgOf(p))] }

  // One statement or less: a separator or a brace group comes last, if at all.
  predicate Unbroken(b: seq<Token>) {
    NoFn(b) && forall k :: 0 <= k < |b| - 1 ==>
                 !(IsPunct(b[k], ';') || IsPunct(b[k], ',') || IsGroup(b[k], Brace))
  }

  lemma StepUnbroken(scan: Scan, b: seq<Token>, i: nat, p: seq<Raw>, cur: seq<Raw>)
    requires Unbroken(b) && i < |b| && i + StepAt(scan, b, i).len < |b|
    ensures var s := StepAt(scan, b, i); Next(b, s, p + cur) == p + Next(b, s, cur)
  {
    hide Direction, FnEnd, AttrPreds;
  }

  // Within a statement, predicates may as well be the enclosing group's.
  lemma {:induction false} Carry(scan: Scan, b: seq<Token>, i: nat, inherited: seq<Raw>, p: seq<Raw>, cur: seq<Raw>)
    requires Unbroken(b) && i <= |b|
    ensures SitesFrom(scan, b, i, inherited, p + cur) == SitesFrom(scan, b, i, inherited + p, cur)
    decreases |b| - i
  {
    hide StepAt, StepSites, InLevel, Next, Unbroken;
    if i < |b| {
      StepInside(scan, b, i);
      var s := StepAt(scan, b, i);
      assert inherited + (p + cur) == (inherited + p) + cur;
      if i + s.len < |b| {
        StepUnbroken(scan, b, i, p, cur);
        Carry(scan, b, i + s.len, inherited, p, Next(b, s, cur));
      }
    }
  }

  lemma FirstIsAttr(scan: Scan, toks: seq<Token>)
    requires |toks| >= 2 && toks[0] == Punct('#') && IsGroup(toks[1], Bracket)
    ensures StepAt(scan, toks, 0) == Attr(0, 2, CfgAttrPredicate(toks[1]))
  {
  }

  lemma AttributeShape(p: Raw, b: seq<Token>)
    ensures var toks := Attribute(p) + b;
            && |toks| >= 2 && toks[0] == Punct('#') && IsGroup(toks[1], Bracket)
            && CfgAttrPredicate(toks[1]) == Some(p)
            && InLevel(toks, Attr(0, 2, Some(p))) && !EndsSegment(toks, Attr(0, 2, Some(p)))
            && |Attribute(p)| == 2 && !Linking(Attribute(p)[1])
  {
  }

  lemma NothingFromAttr(scan: Scan, toks: seq<Token>, p: Raw, cfgs: seq<Raw>)
    requires InLevel(toks, Attr(0, 2, Some(p)))
    ensures StepSites(scan, toks, Attr(0, 2, Some(p)), cfgs) == []
  {
  }

  lemma AttributeFirst(scan: Scan, p: Raw, b: seq<Token>, inherited: seq<Raw>)
    ensures Sites(scan, Attribute(p) + b, inherited) == SitesFrom(scan, b, 0, inherited, [p])
  {
    hide *;
    var toks := Attribute(p) + b;
    AttributeShape(p, b);
    SitesAreFrom(scan, toks, inherited);
    FirstIsAttr(scan, toks);
    FromFirst(scan, toks, inherited);
    NextIs(toks, Attr(0, 2, Some(p)), []);
    NothingFromAttr(scan, toks, p, inherited);
    assert [] + [p] == [p];
    SitesMoved(scan, Attribute(p), b, 0, inherited, [p]);
  }

  lemma FromFirst(scan: Scan, toks: seq<Token>, inherited: seq<Raw>)
    requires toks != []
    ensures var s := StepAt(scan, toks, 0);
            && s.len <= |toks|
            && SitesFrom(scan, toks, 0, inherited, [])
               == StepSites(scan, toks, s, inherited) + SitesFrom(scan, toks, s.len, inherited, Next(toks, s, []))
  {
    StepInside(scan, toks, 0);
    hide StepAt, StepSites, Next, InLevel;
    assert inherited + [] == inherited;
  }

  // A `#[cfg]` governs the statement it stands before.
  lemma UnderAttribute(scan: Scan, p: Raw, b: seq<Token>, inherited: seq<Raw>)
    requires Unbroken(b)
    ensures Sites(scan, Attribute(p) + b, inherited) == Sites(scan, b, inherited + [p])
  {
    AttributeFirst(scan, p, b, inherited);
    Carry(scan, b, 0, inherited, [p], []);
    SitesAreFrom(scan, b, inherited + [p]);
    assert [p] + [] == [p];
  }

  // Any other attribute governs nothing.
  lemma OtherAttribute(scan: Scan, inner: seq<Token>, b: seq<Token>, inherited: seq<Raw>)
    requires forall p :: inner != CfgOf(p)
    ensures Sites(scan, [Punct('#'), Group(Bracket, inner)] + b, inherited) == Sites(scan, b, inherited)
  {
    var head := [Punct('#'), Group(Bracket, inner)];
    CfgIs(inner);
    FirstIsAttr(scan, head + b);
    hide *;
    assert CfgAttrPredicate((head + b)[1]) == None;
    FirstOff(scan, head, b, Attr(0, 2, None), inherited);
  }

  lemma CfgIs(inner: seq<Token>)
    ensures var c := CfgAttrPredicate(Group(Bracket, inner)); c.Some? ==> inner == CfgOf(c.value)
  {
  }

  // The walk past a first step that puts no predicate in force.
  lemma FirstOff(scan: Scan, a: seq<Token>, b: seq<Token>, s: Step, inherited: seq<Raw>)
    requires a != [] && StepAt(scan, a + b, 0) == s && s.len == |a| && (s.Attr? ==> s.pred.None?)
    requires !Linking(a[|a| - 1])
    ensures InLevel(a + b, s)
    ensures Sites(scan, a + b, inherited) == StepSites(scan, a + b, s, inherited) + Sites(scan, b, inherited)
  {
    SitesAreFrom(scan, a + b, inherited);
    SitesAreFrom(scan, b, inherited);
    NextIs(a + b, s, []);
    hide StepAt, Next, Sites, StepSites, Linking;
    SitesMoved(scan, a, b, 0, inherited, []);
    assert inherited + [] == inherited;
  }

  // No attribute, separator, brace group or nested fn.
  predicate Calm(a: seq<Token>) {
    NoFn(a) && forall k :: 0 <= k < |a| ==>
                 !(IsPunct(a[k], '#') || IsPunct(a[k], ';') || IsPunct(a[k], ',') || IsGroup(a[k], Brace))
  }

  lemma CalmStep(scan: Scan, a: seq<Token>, x: seq<Token>, i: nat, cur: seq<Raw>)
    requires Calm(a) && i <= |a|
    ensures var toks := a + [Group(Brace, x)]; var s := StepAt(scan, toks, i);
            && (i + s.len == |toks| ==> s.Sub?)
            && (i + s.len < |toks| ==> Next(toks, s, cur) == cur)
  {
    var toks := a + [Group(Brace, x)];
    assert forall k :: 0 <= k < |a| ==> toks[k] == a[k];
    NextIs(toks, StepAt(scan, toks, i), cur);
    hide Direction, FnEnd, Next;
  }

  lemma {:induction false} HeldCalm(scan: Scan, a: seq<Token>, x: seq<Token>, i: nat, cur: seq<Raw>)
    requires Calm(a) && i <= |a| + 1
    ensures Held(scan, a + [Group(Brace, x)], i, cur) == cur
    decreases |a| + 1 - i
  {
    hide StepAt, InLevel, Next, Calm;
    var toks := a + [Group(Brace, x)];
    if i <= |a| {
      CalmStep(scan, a, x, i, cur);
      StepInside(scan, toks, i);
      HeldCalm(scan, a, x, i + StepAt(scan, toks, i).len, cur);
    }
  }

  // What follows a block is reported under the statement's predicate exactly
  // when `else`, `.` or `?` comes right behind the block.
  lemma PastBlock(scan: Scan, p: Raw, a: seq<Token>, x: seq<Token>, b: seq<Token>, inherited: seq<Raw>)
    requires Calm(a) && Unbroken(b)
    ensures var head := Attribute(p) + (a + [Group(Brace, x)]);
            && Sites(scan, head, inherited) == Sites(scan, a + [Group(Brace, x)], inherited + [p])
            && Sites(scan, head + b, inherited)
               == Sites(scan, head, inherited)
                  + Sites(scan, b, if GoesOn(b) then inherited + [p] else inherited)
  {
    hide Sites, SitesFrom, Held, Attribute, GoesOn;
    var block := a + [Group(Brace, x)];
    var head := Attribute(p) + block;
    BlockShape(a, x);
    UnderAttribute(scan, p, block, inherited);
    AttributeFirst(scan, p, block + b, inherited);
    AttributeFirst(scan, p, block, inherited);
    assert head + b == Attribute(p) + (block + b);
    SealedSplit(scan, block, b, 0, inherited, [p]);
    HeldCalm(scan, a, x, 0, [p]);
    SitesAreFrom(scan, b, inherited);
    Carry(scan, b, 0, inherited, [p], []);
    SitesAreFrom(scan, b, inherited + [p]);
    assert [p] + [] == [p];
  }

  lemma BlockShape(a: seq<Token>, x: seq<Token>)
    requires Calm(a)
    ensures var block := a + [Group(Brace, x)];
            Unbroken(block) && Sealed(block) && IsGroup(block[|block| - 1], Brace)
  {
    var block := a + [Group(Brace, x)];
    assert forall k :: 0 <= k < |a| ==> block[k] == a[k];
    assert NoFn(block);
  }

  // ------------------------------------------------------------ one token on

  lemma {:induction false} FnEndIs(toks: seq<Token>, i: nat, end: nat)
    requires i < end <= |toks| && ClosesFn(toks[end - 1])
    requires forall k :: i <= k < end - 1 ==> !ClosesFn(toks[k])
    ensures FnEnd(toks, i) == end
    decreases end - i
  {
    if i + 1 < end {
      FnEndIs(toks, i + 1, end);
    }
  }

  // A nested fn is not read, up to its body or its `;`, and an attribute
  // before it governs nothing behind it.
  lemma NestedFnUnread(scan: Scan, name: string, mid: seq<Token>, close: Token, b: seq<Token>, inherited: seq<Raw>,
                       p: Raw)
    requires IsPunct(close, ';') || IsGroup(close, Brace)
    requires forall k :: 0 <= k < |mid| ==> !IsPunct(mid[k], ';') && !IsGroup(mid[k], Brace)
    ensures var item := [Ident("fn"), Ident(name)] + mid + [close];
            && Sites(scan, item + b, inherited) == Sites(scan, b, inherited)
            && Sites(scan, Attribute(p) + (item + b), inherited) == Sites(scan, b, inherited)
  {
    var item := [Ident("fn"), Ident(name)] + mid + [close];
    FirstIsFn(scan, name, mid, close, b);
    FirstOff(scan, item, b, NestedFn(0, |item|), inherited);
    AttributeFirst(scan, p, item + b, inherited);
    NextIs(item + b, NestedFn(0, |item|), [p]);
    SitesAreFrom(scan, b, inherited);
    hide StepAt, Next, Sites;
    SitesMoved(scan, item, b, 0, inherited, []);
  }

  lemma FirstIsFn(scan: Scan, name: string, mid: seq<Token>, close: Token, b: seq<Token>)
    requires IsPunct(close, ';') || IsGroup(close, Brace)
    requires forall k :: 0 <= k < |mid| ==> !IsPunct(mid[k], ';') && !IsGroup(mid[k], Brace)
    ensures var item := [Ident("fn"), Ident(name)] + mid + [close];
            StepAt(scan, item + b, 0) == NestedFn(0, |item|) && !Linking(item[|item| - 1])
  {
    var item := [Ident("fn"), Ident(name)] + mid + [close];
    var toks := item + b;
    assert forall k :: 0 <= k < |item| ==> toks[k] == item[k];
    FnEndIs(toks, 0, |item|);
    hide FnEnd, Matched;
  }

  lemma FirstIsCall(scan: Scan, toks: seq<Token>, verb: string, write: bool)
    requires |toks| >= 4 && toks[0] == Ident(scan.node) && toks[1] == Punct('.') && toks[2] == Ident(verb)
    requires IsGroup(toks[3], Parenthesis) && Direction(scan.custom, verb) == Some(write)
    ensures StepAt(scan, toks, 0) == Call(0, 4, verb, write)
  {
    hide Direction;
  }

  // A call of a known verb on the node is read.
  lemma CallRead(scan: Scan, verb: string, args: seq<Token>, write: bool, b: seq<Token>, inherited: seq<Raw>)
    requires Direction(scan.custom, verb) == Some(write)
    ensures var call := [Ident(scan.node), Punct('.'), Ident(verb), Group(Parenthesis, args)];
            Sites(scan, call + b, inherited) == ArgSites(scan, args, verb, write, inherited) + Sites(scan, b, inherited)
  {
    var call := [Ident(scan.node), Punct('.'), Ident(verb), Group(Parenthesis, args)];
    FirstIsCall(scan, call + b, verb, write);
    FirstOff(scan, call, b, Call(0, 4, verb, write), inherited);
    hide StepAt, Sites, ArgSites, Direction;
  }

  // Behind a `.` or a `:` the node's name is another's field or path.
  lemma NotTheNode(scan: Scan, d: Token, b: seq<Token>, inherited: seq<Raw>)
    requires Linking(d) && scan.node != "fn"
    ensures Sites(scan, [d, Ident(scan.node)] + b, inherited) == Sites(scan, b, inherited)
  {
    hide *;
    var head := [d, Ident(scan.node)];
    var toks := head + b;
    FirstTwoPlain(scan, d, b);
    SitesAreFrom(scan, toks, inherited);
    SitesAreFrom(scan, b, inherited);
    PlainOff(scan, toks, 0, inherited);
    PlainOff(scan, toks, 1, inherited);
    SitesMoved(scan, head, b, 0, inherited, []);
  }

  lemma PlainOff(scan: Scan, toks: seq<Token>, i: nat, inherited: seq<Raw>)
    requires i < |toks| && StepAt(scan, toks, i) == Plain(i, 1) && InLevel(toks, Plain(i, 1))
    requires !EndsSegment(toks, Plain(i, 1))
    ensures SitesFrom(scan, toks, i, inherited, []) == SitesFrom(scan, toks, i + 1, inherited, [])
  {
    NextIs(toks, Plain(i, 1), []);
    hide StepAt, EndsSegment, Next, InLevel;
  }

  lemma FirstTwoPlain(scan: Scan, d: Token, b: seq<Token>)
    requires Linking(d) && scan.node != "fn"
    ensures var toks := [d, Ident(scan.node)] + b;
            && StepAt(scan, toks, 0) == Plain(0, 1) && StepAt(scan, toks, 1) == Plain(1, 1)
            && InLevel(toks, Plain(0, 1)) && InLevel(toks, Plain(1, 1)) && !Linking(Ident(scan.node))
            && !EndsSegment(toks, Plain(0, 1)) && !EndsSegment(toks, Plain(1, 1))
  {
    hide Direction;
  }

  // Nor is it a call without a verb and its arguments right behind it.
  lemma NotACall(scan: Scan, b: seq<Token>, inherited: seq<Raw>)
    requires scan.node != "fn"
    requires !(|b| >= 3 && IsPunct(b[0], '.') && b[1].Ident? && Direction(scan.custom, b[1].name).Some?
               && IsGroup(b[2], Parenthesis))
    ensures Sites(scan, [Ident(scan.node)] + b, inherited) == Sites(scan, b, inherited)
  {
    var toks := [Ident(scan.node)] + b;
    assert StepAt(scan, toks, 0) == Plain(0, 1) by { hide Direction; }
    FirstOff(scan, [Ident(scan.node)], b, Plain(0, 1), inherited);
    hide StepAt, Sites;
  }

  // Any other word, literal or punctuation reports nothing.
  lemma Skipped(scan: Scan, t: Token, b: seq<Token>, inherited: seq<Raw>)
    requires !t.Group? && !IsPunct(t, '#') && !Linking(t) && !IsIdent(t, "fn") && !IsIdent(t, scan.node)
    ensures Sites(scan, [t] + b, inherited) == Sites(scan, b, inherited)
  {
    var toks := [t] + b;
    assert StepAt(scan, toks, 0) == Plain(0, 1) by { hide Direction; }
    FirstOff(scan, [t], b, Plain(0, 1), inherited);
    hide StepAt, Sites;
  }

  // A group is walked into.
  lemma GroupEntered(scan: Scan, d: Delim, x: seq<Token>, b: seq<Token>, inherited: seq<Raw>)
    ensures Sites(scan, [Group(d, x)] + b, inherited) == Sites(scan, x, inherited) + Sites(scan, b, inherited)
  {
    var toks := [Group(d, x)] + b;
    assert StepAt(scan, toks, 0) == Sub(0, 1) by { hide Direction; }
    FirstOff(scan, [Group(d, x)], b, Sub(0, 1), inherited);
    hide StepAt, Sites;
  }

  lemma CommaIs(first: seq<Token>, rest: seq<Token>, i: nat)
    requires i <= |first| && forall k :: 0 <= k < |first| ==> !IsPunct(first[k], ',')
    ensures CommaAt(first + [Comma()] + rest, i) == |first| && CommaAt(first, i) == |first|
  {
    var args := first + [Comma()] + rest;
    assert args[|first|] == Comma() && forall k :: 0 <= k < |first| ==> args[k] == first[k];
  }

  // A call is reported for its first argument, up to the first comma, and the
  // calls in the others come after it, under the same predicates; a first
  // argument that cannot be read is refused.
  lemma FirstArgument(scan: Scan, first: seq<Token>, rest: seq<Token>, verb: string, write: bool, cfgs: seq<Raw>)
    requires forall k :: 0 <= k < |first| ==> !IsPunct(first[k], ',')
    ensures match scan.parse(first)
            case None =>
              && ArgSites(scan, first + [Comma()] + rest, verb, write, cfgs) == [BadTarget]
              && ArgSites(scan, first, verb, write, cfgs) == [BadTarget]
            case Some(t) =>
              var call := Reported(VerbCall(verb, write, t.expr, t.path, cfgs));
              && ArgSites(scan, first + [Comma()] + rest, verb, write, cfgs) == [call] + Sites(scan, rest, cfgs)
              && ArgSites(scan, first, verb, write, cfgs) == [call]
  {
    var args := first + [Comma()] + rest;
    CommaIs(first, rest, 0);
    assert args[..|first|] == first && first[..|first|] == first && first[|first|..] == [];
    assert args[|first|..] == [Comma()] + rest;
    Skipped(scan, Comma(), rest, cfgs);
    SitesAreFrom(scan, [], cfgs);
    hide Sites;
  }

  // ----------------------------------------------------------------- the verbs

  lemma BuiltinVerbs(custom: seq<(string, bool)>)
    ensures forall verb :: verb in {"get", "reader", "open", "lease"} ==> Direction(custom, verb) == Some(false)
    ensures forall verb :: verb in {"put", "writer", "beat_put", "beat_writer", "retire", "veto"} ==>
              Direction(custom, verb) == Some(true)
  {
  }

  // Any other verb reads or writes as it was first registered, or not at all.
  lemma {:induction false} OtherVerbs(custom: seq<(string, bool)>, verb: string)
    requires verb !in {"get", "reader", "open", "lease", "put", "writer", "beat_put", "beat_writer", "retire", "veto"}
    ensures Direction(custom, verb).None? <==> forall k :: 0 <= k < |custom| ==> custom[k].0 != verb
    ensures forall k :: 0 <= k < |custom| && custom[k].0 == verb && (forall j :: 0 <= j < k ==> custom[j].0 != verb) ==>
              Direction(custom, verb) == Some(custom[k].1)
  {
    RegisteredIs(custom, verb);
  }

  lemma {:induction false} RegisteredIs(custom: seq<(string, bool)>, verb: string)
    ensures Registered(custom, verb).None? <==> forall k :: 0 <= k < |custom| ==> custom[k].0 != verb
    ensures forall k :: 0 <= k < |custom| && custom[k].0 == verb && (forall j :: 0 <= j < k ==> custom[j].0 != verb) ==>
              Registered(custom, verb) == Some(custom[k].1)
  {
    if custom != [] {
      RegisteredIs(custom[1..], verb);
      assert forall k :: 0 < k < |custom| ==> custom[k] == custom[1..][k - 1];
      assert forall k :: 0 <= k < |custom[1..]| ==> custom[1..][k] == custom[k + 1];
    }
  }
}
