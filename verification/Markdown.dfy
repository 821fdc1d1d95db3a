// The managed block of a markdown document
// (supervisor-tools/src/out.rs:119-149, without the file access).
module Markdown {
  import opened Tokens

  const START: string := "<!-- supervisor-mermaid:start -->"
  const END: string := "<!-- supervisor-mermaid:end -->"

  predicate MatchesAt(s: string, pat: string, i: nat) {
    i + |pat| <= |s| && s[i..i + |pat|] == pat
  }

  ghost predicate Contains(s: string, pat: string) {
    exists i: nat :: MatchesAt(s, pat, i)
  }

  // `str::find`: the first match.
  function Find(s: string, pat: string): (r: Option<nat>)
    ensures r.Some? ==> MatchesAt(s, pat, r.value) && forall i: nat :: i < r.value ==> !MatchesAt(s, pat, i)
    ensures r.None? <==> !Contains(s, pat)
  {
    FindFrom(s, pat, 0)
  }

  function FindFrom(s: string, pat: string, from: nat): (r: Option<nat>)
    requires from <= |s|
    ensures r.Some? ==> from <= r.value && MatchesAt(s, pat, r.value)
    ensures r.Some? ==> forall i: nat :: from <= i < r.value ==> !MatchesAt(s, pat, i)
    ensures r.None? ==> forall i: nat :: from <= i ==> !MatchesAt(s, pat, i)
    decreases |s| - from
  {
    if MatchesAt(s, pat, from) then Some(from)
    else if from == |s| then None
    else FindFrom(s, pat, from + 1)
  }

  function Managed(block: string): string { START + "\n" + block + END }

  function Separator(existing: string): string {
    if existing != [] && existing[|existing| - 1] == '\n' then "\n" else "\n\n"
  }

  // None is the "one marker without the other" error; END before START is one too.
  function Updated(existing: string, block: string): Option<string> {
    match (Find(existing, START), Find(existing, END))
    case (Some(s), Some(e)) =>
      if e >= s then Some(existing[..s] + Managed(block) + existing[e + |END|..]) else None
    case (None, None) => Some(existing + Separator(existing) + Managed(block) + "\n")
    case _ => None
  }

  // ------------------------------------------------- markers cannot overlap

  // Only a marker's first character is a `<`, and none is a line break, so no
  // two marker occurrences overlap and none straddles a line's end.
  predicate IsMarker(m: string) { m == START || m == END }

  lemma MarkerShape(m: string, k: nat)
    requires IsMarker(m) && k < |m|
    ensures m[k] == '<' <==> k == 0
    ensures m[k] != '\n'
  {
    assert |START| == 33 && |END| == 31;
  }

  lemma MarkersDiffer()
    ensures START[24] != END[24] && |START| == 33 && |END| == 31
  {
  }

  lemma Mismatch(s: string, m: string, i: nat, k: nat)
    requires k < |m| && (i + k >= |s| || s[i + k] != m[k])
    ensures !MatchesAt(s, m, i)
  {
    if i + |m| <= |s| {
      assert s[i..i + |m|][k] == s[i + k];
    }
  }

  lemma MatchInPart(s: string, m: string, i: nat, from: nat, to: nat)
    requires from <= i && i + |m| <= to <= |s|
    ensures MatchesAt(s, m, i) <==> MatchesAt(s[from..to], m, i - from)
  {
    var part, whole := s[from..to][i - from..i - from + |m|], s[i..i + |m|];
    assert |part| == |whole| && forall k :: 0 <= k < |m| ==> part[k] == whole[k];
    assert part == whole;
  }

  // A marker that begins before a `<` or a line break ends there or earlier.
  lemma NoStraddle(s: string, m: string, i: nat, at: nat)
    requires IsMarker(m) && i < at < |s| && (s[at] == '<' || s[at] == '\n')
    ensures MatchesAt(s, m, i) ==> i + |m| <= at
  {
    if i + |m| > at {
      MarkerShape(m, at - i);
      Mismatch(s, m, i, at - i);
    }
  }

  predicate Clean(text: string) {
    Find(text, START).None? && Find(text, END).None?
  }

  function Framed(pre: string, block: string, post: string): string {
    pre + Managed(block) + post
  }

  lemma CleanHasNone(text: string, m: string, i: nat)
    requires Clean(text) && IsMarker(m)
    ensures !MatchesAt(text, m, i)
  {
  }

  lemma NotInClean(pre: string, s: string, m: string, i: nat)
    requires Clean(pre) && IsMarker(m) && |pre| < |s| && s[..|pre|] == pre && i < |pre|
    requires s[|pre|] == '<' || s[|pre|] == '\n'
    ensures !MatchesAt(s, m, i)
  {
    hide *;
    NoStraddle(s, m, i, |pre|);
    if i + |m| <= |pre| {
      CleanHasNone(pre, m, i);
      MatchInPart(s, m, i, 0, |pre|);
      assert s[0..|pre|] == pre;
    }
  }

  lemma FrameParts(pre: string, block: string, post: string)
    ensures var s := Framed(pre, block, post);
            var at := |pre| + |START|;
            && |s| == at + 1 + |block| + |END| + |post|
            && s[..|pre|] == pre && s[|pre|] == '<'
            && s[|pre|..at] == START && s[at] == '\n'
            && s[at + 1..at + 1 + |block|] == block
            && s[at + 1 + |block|] == '<'
            && s[at + 1 + |block|..at + 1 + |block| + |END|] == END
            && s[at + 1 + |block| + |END|..] == post
  {
    MarkersDiffer();
    var s := Framed(pre, block, post);
    var at := |pre| + |START|;
    hide *;
    assert Managed(block) == START + "\n" + block + END && s == pre + Managed(block) + post by {
      FrameUnfolds(pre, block, post);
    }
    MarkerHeads();
  }

  lemma FrameUnfolds(pre: string, block: string, post: string)
    ensures Managed(block) == START + "\n" + block + END
    ensures Framed(pre, block, post) == pre + Managed(block) + post
  {
  }

  lemma MarkerHeads()
    ensures |START| == 33 && |END| == 31 && START[0] == '<' && END[0] == '<'
  {
  }

  lemma FindIs(s: string, m: string, at: nat)
    requires MatchesAt(s, m, at) && forall i: nat :: i < at ==> !MatchesAt(s, m, i)
    ensures Find(s, m) == Some(at)
  {
  }

  lemma BothMarkers()
    ensures IsMarker(START) && IsMarker(END)
  {
  }

  lemma FindsStart(pre: string, block: string, post: string)
    requires Clean(pre)
    ensures Find(Framed(pre, block, post), START) == Some(|pre|)
  {
    hide *;
    var s := Framed(pre, block, post);
    FrameParts(pre, block, post);
    BothMarkers();
    forall i: nat | i < |pre|
      ensures !MatchesAt(s, START, i)
    {
      NotInClean(pre, s, START, i);
    }
    MatchesSlice(s, START, |pre|);
    FindIs(s, START, |pre|);
  }

  lemma MatchesSlice(s: string, m: string, at: nat)
    requires at + |m| <= |s| && s[at..at + |m|] == m
    ensures MatchesAt(s, m, at)
  {
  }

  // Where the first END of a block's own text is, or its closing marker.
  function EndIn(block: string): (p: nat)
    ensures p <= |block|
    ensures Find(block, END).Some? ==> p + |END| <= |block| && MatchesAt(block, END, p)
    ensures Find(block, END).None? ==> p == |block|
    ensures forall i: nat :: i < p ==> !MatchesAt(block, END, i)
  {
    match Find(block, END)
    case Some(p) => p
    case None => |block|
  }

  lemma FindsEnd(pre: string, block: string, post: string)
    requires Clean(pre)
    ensures Find(Framed(pre, block, post), END) == Some(|pre| + |START| + 1 + EndIn(block))
  {
    hide *;
    var s := Framed(pre, block, post);
    var at := |pre| + |START|;
    FrameParts(pre, block, post);
    BothMarkers();
    MarkerHeads();
    var close := at + 1 + |block|;
    forall i: nat | i < at + 1 + EndIn(block)
      ensures !MatchesAt(s, END, i)
    {
      if i < |pre| {
        NotInClean(pre, s, END, i);
      } else if i <= at {
        NotInStart(pre, s, i);
      } else {
        NotInBlock(s, block, at + 1, i);
      }
    }
    if Find(block, END).Some? {
      MatchInPart(s, END, at + 1 + EndIn(block), at + 1, close);
    } else {
      MatchesSlice(s, END, close);
    }
    FindIs(s, END, at + 1 + EndIn(block));
  }

  lemma NotInStart(pre: string, s: string, i: nat)
    requires |pre| <= i <= |pre| + |START| < |s|
    requires s[|pre|..|pre| + |START|] == START && s[|pre| + |START|] == '\n'
    ensures !MatchesAt(s, END, i)
  {
    var at := |pre| + |START|;
    MarkersDiffer();
    MarkerHeads();
    BothMarkers();
    hide *;
    if i == |pre| {
      assert s[i + 24] == s[|pre|..at][24];
      Mismatch(s, END, i, 24);
    } else {
      if i < at {
        assert s[i] == s[|pre|..at][i - |pre|];
        MarkerShape(START, i - |pre|);
      }
      Mismatch(s, END, i, 0);
    }
  }

  lemma NotInBlock(s: string, block: string, from: nat, i: nat)
    requires from <= i < from + EndIn(block) && from + |block| < |s|
    requires s[from..from + |block|] == block && s[from + |block|] == '<'
    ensures !MatchesAt(s, END, i)
  {
    hide *;
    BothMarkers();
    NoStraddle(s, END, i, from + |block|);
    if i + |END| <= from + |block| {
      MatchInPart(s, END, i, from, from + |block|);
    }
  }

  // ---------------------------------------------------------------- results

  // Where an update puts the block: after text clean of markers.
  lemma UpdateFrames(existing: string, block: string) returns (pre: string, post: string)
    requires Updated(existing, block).Some?
    ensures Clean(pre)
    ensures forall other :: Updated(existing, other) == Some(Framed(pre, other, post))
  {
    hide Managed, START, END, FindFrom, Find;
    match Find(existing, START)
    case Some(s) =>
      var e := Find(existing, END).value;
      pre, post := existing[..s], existing[e + |END|..];
      CleanPrefix(existing, s);
    case None =>
      pre, post := existing + Separator(existing), "\n";
      CleanWithBreak(existing, Separator(existing));
      forall other
        ensures Updated(existing, other) == Some(Framed(pre, other, post))
      {
        assert existing + Separator(existing) + Managed(other) + "\n" == Framed(pre, other, post);
      }
  }

  lemma CleanPrefix(text: string, s: nat)
    requires s <= |text|
    requires forall i: nat :: i < s ==> !MatchesAt(text, START, i) && !MatchesAt(text, END, i)
    ensures Clean(text[..s])
  {
    forall m, i: nat | IsMarker(m)
      ensures !MatchesAt(text[..s], m, i)
    {
      MarkerHeads();
      if i + |m| <= s {
        MatchInPart(text, m, i, 0, s);
        assert text[0..s] == text[..s];
      }
    }
    NoMarkers(text[..s]);
  }

  lemma NoMarkers(text: string)
    requires forall m, i: nat :: IsMarker(m) ==> !MatchesAt(text, m, i)
    ensures Clean(text)
  {
    assert IsMarker(START) && IsMarker(END);
  }

  lemma CleanWithBreak(text: string, sep: string)
    requires Clean(text) && sep != [] && (forall k :: 0 <= k < |sep| ==> sep[k] == '\n')
    ensures Clean(text + sep)
  {
    hide *;
    var s := text + sep;
    forall m, i: nat | IsMarker(m)
      ensures !MatchesAt(s, m, i)
    {
      MarkerShape0(m);
      if i < |text| {
        NotInClean(text, s, m, i);
      } else {
        Mismatch(s, m, i, 0);
      }
    }
    NoMarkers(s);
  }

  lemma MarkerShape0(m: string)
    requires IsMarker(m)
    ensures m != [] && m[0] == '<'
  {
    MarkerHeads();
  }

  // An update of a framed document replaces up to the first END of the block.
  function Tail(block: string, post: string): string {
    if Find(block, END).None? then post else block[EndIn(block) + |END|..] + END + post
  }

  // What follows a place inside the block, for any framing text.
  lemma TailParts(pre: string, head: string, block: string, close: string, post: string, p: nat)
    requires p <= |block|
    ensures (pre + (head + "\n" + block + close) + post)[|pre| + |head| + 1 + p..] == block[p..] + (close + post)
    ensures (pre + (head + "\n" + block + close) + post)[|pre| + |head| + 1 + |block| + |close|..] == post
  {
    var s, a, c := pre + (head + "\n" + block + close) + post, pre + head + "\n", close + post;
    assert s == a + block + c;
    assert s == a + block + close + post;
  }

  lemma TailUnfolds(block: string, post: string)
    ensures Find(block, END).None? ==> EndIn(block) == |block| && Tail(block, post) == post
    ensures Find(block, END).Some? ==> EndIn(block) + |END| <= |block|
    ensures Find(block, END).Some? ==> Tail(block, post) == block[EndIn(block) + |END|..] + (END + post)
  {
    if Find(block, END).Some? {
      var rest := block[EndIn(block) + |END|..];
      assert rest + END + post == rest + (END + post);
    }
  }

  lemma FramedTail(pre: string, block: string, post: string)
    ensures var e := |pre| + |START| + 1 + EndIn(block);
            e + |END| <= |Framed(pre, block, post)| && Framed(pre, block, post)[e + |END|..] == Tail(block, post)
  {
    TailUnfolds(block, post);
    hide *;
    FrameUnfolds(pre, block, post);
    if Find(block, END).Some? {
      TailParts(pre, START, block, END, post, EndIn(block) + |END|);
    } else {
      TailParts(pre, START, block, END, post, 0);
    }
  }

  lemma UpdateFramed(pre: string, block: string, post: string, other: string)
    requires Clean(pre)
    ensures Updated(Framed(pre, block, post), other) == Some(Framed(pre, other, Tail(block, post)))
  {
    FindsStart(pre, block, post);
    FindsEnd(pre, block, post);
    FrameParts(pre, block, post);
    FramedTail(pre, block, post);
    hide Find, FindFrom, Managed, START, END, Tail, EndIn, Clean;
  }

  // Last write wins, in the replacing and the appending case alike, exactly
  // when the first block carries no end marker.
  lemma LastWriteWins(existing: string, x: string, y: string)
    requires Updated(existing, x).Some?
    ensures Updated(Updated(existing, x).value, y) == Updated(existing, y) <==> !Contains(x, END)
  {
    var pre, post := UpdateFrames(existing, x);
    assert Updated(existing, x) == Some(Framed(pre, x, post));
    assert Updated(existing, y) == Some(Framed(pre, y, post));
    UpdateFramed(pre, x, post, y);
    FrameParts(pre, y, Tail(x, post));
    FrameParts(pre, y, post);
    MarkerHeads();
    hide Framed, Updated, START, END, FindFrom, MatchesAt;
    assert Find(x, END).None? <==> !Contains(x, END);
    assert Find(x, END).Some? ==> |Tail(x, post)| > |post|;
  }

  // Text outside the markers never changes: whatever is written in what
  // order, a document keeps what stood before and after its managed block. A
  // block appended to an unmarked document follows a blank line.
  lemma OutsideUnchanged(existing: string, x: string) returns (pre: string, post: string)
    requires Updated(existing, x).Some?
    ensures Updated(existing, x) == Some(pre + Managed(x) + post)
    ensures match (Find(existing, START), Find(existing, END))
            case (Some(s), Some(e)) => s <= e && pre == existing[..s] && post == existing[e + |END|..]
            case (None, None) => existing <= pre && (forall k :: |existing| <= k < |pre| ==> pre[k] == '\n')
                                 && post == "\n"
                                 && |existing| < |pre| && |pre| >= 2 && pre[|pre| - 1] == pre[|pre| - 2] == '\n'
                                 && (|pre| == |existing| + 1
                                     <==> existing != [] && existing[|existing| - 1] == '\n')
                                 && |pre| <= |existing| + 2
            case _ => false
  {
    match (Find(existing, START), Find(existing, END))
    case (Some(s), Some(e)) => pre, post := existing[..s], existing[e + |END|..];
    case (None, None) => pre, post := existing + Separator(existing), "\n";
  }
}
