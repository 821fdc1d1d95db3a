// Crate paths in a fragment: `crate` is made `$crate` before the fragment is
// relayed, and `$crate` is replaced where a path has to be resolved
// (supervisor-syntax/src/lib.rs:1774-1836, supervisor-macros/src/lib.rs:3365-3385).
module Fragment {
  import opened Tokens

  predicate IsCrate(t: Token) { IsIdent(t, "crate") }

  predicate IsDollar(t: Token) { IsPunct(t, '$') }

  predicate DollarCrate(ts: seq<Token>, i: nat) {
    i + 1 < |ts| && IsDollar(ts[i]) && IsCrate(ts[i + 1])
  }

  const DOLLAR: Token := Punct('$')

  // ---------------------------------------------------------- specifications

  // Every `$` stands right before a `crate`, at every depth.
  predicate Accepted(ts: seq<Token>)
    decreases ts
  {
    && (forall k :: 0 <= k < |ts| && IsDollar(ts[k]) ==> DollarCrate(ts, k))
    && (forall k :: 0 <= k < |ts| && ts[k].Group? ==> Accepted(ts[k].stream))
  }

  // Every `crate` stands right after a `$`, at every depth.
  predicate Dollared(ts: seq<Token>)
    decreases ts
  {
    && (forall k :: 0 <= k < |ts| && IsCrate(ts[k]) ==> k > 0 && DollarCrate(ts, k - 1))
    && (forall k :: 0 <= k < |ts| && ts[k].Group? ==> Dollared(ts[k].stream))
  }

  // No `$` stands right before a `$crate`, at any depth.
  predicate Unstacked(ts: seq<Token>)
    decreases ts
  {
    && (forall k :: 0 <= k < |ts| && IsDollar(ts[k]) ==> !DollarCrate(ts, k + 1))
    && (forall k :: 0 <= k < |ts| && ts[k].Group? ==> Unstacked(ts[k].stream))
  }

  function Normalize(ts: seq<Token>): seq<Token>
    decreases ts
  {
    if ts == [] then []
    else if ts[0].Group? then [Group(ts[0].delim, Normalize(ts[0].stream))] + Normalize(ts[1..])
    else if DollarCrate(ts, 0) then ts[..2] + Normalize(ts[2..])
    else if IsCrate(ts[0]) then [DOLLAR, ts[0]] + Normalize(ts[1..])
    else [ts[0]] + Normalize(ts[1..])
  }

  function Substitute(ts: seq<Token>, replacement: seq<Token>): seq<Token>
    decreases ts
  {
    if ts == [] then []
    else if ts[0].Group? then
      [Group(ts[0].delim, Substitute(ts[0].stream, replacement))] + Substitute(ts[1..], replacement)
    else if DollarCrate(ts, 0) then replacement + Substitute(ts[2..], replacement)
    else [ts[0]] + Substitute(ts[1..], replacement)
  }

  // One token at a time, with no look at its neighbours: a `$` vanishes and a
  // `crate` becomes the replacement.
  function Resolve(ts: seq<Token>, replacement: seq<Token>): seq<Token>
    decreases ts
  {
    if ts == [] then []
    else
      (if ts[0].Group? then [Group(ts[0].delim, Resolve(ts[0].stream, replacement))]
       else if IsDollar(ts[0]) then []
       else if IsCrate(ts[0]) then replacement
       else [ts[0]])
      + Resolve(ts[1..], replacement)
  }

  // -------------------------------------------------------------- the loops

  method ValidateDollars(stream: seq<Token>) returns (ok: bool)
    ensures ok <==> Accepted(stream)
    decreases stream
  {
    var i := 0;
    while i < |stream|
      invariant i <= |stream|
      invariant forall k :: 0 <= k < i && IsDollar(stream[k]) ==> DollarCrate(stream, k)
      invariant forall k :: 0 <= k < i && stream[k].Group? ==> Accepted(stream[k].stream)
    {
      if stream[i].Group? {
        var inner := ValidateDollars(stream[i].stream);
        if !inner {
          return false;
        }
      } else if IsDollar(stream[i]) {
        if !(i + 1 < |stream| && IsCrate(stream[i + 1])) {
          return false;
        }
      }
      i := i + 1;
    }
    ok := true;
  }

  lemma Regroup(a: seq<Token>, b: seq<Token>, c: seq<Token>)
    ensures (a + b) + c == a + (b + c)
  {
  }

  method NormalizeFragmentCrate(stream: seq<Token>) returns (out: seq<Token>)
    ensures out == Normalize(stream)
    decreases stream
  {
    out := [];
    var i := 0;
    while i < |stream|
      invariant i <= |stream|
      invariant out + Normalize(stream[i..]) == Normalize(stream)
    {
      ghost var rest := stream[i..];
      assert rest[0] == stream[i] && rest[1..] == stream[i + 1..];
      var piece: seq<Token>;
      if stream[i].Group? {
        var inner := NormalizeFragmentCrate(stream[i].stream);
        piece := [Group(stream[i].delim, inner)];
        i := i + 1;
      } else if IsDollar(stream[i]) {
        piece := [stream[i]];
        i := i + 1;
        if i < |stream| && IsCrate(stream[i]) {
          piece := piece + [stream[i]];
          i := i + 1;
          assert rest[..2] == piece && rest[2..] == stream[i..];
        }
      } else if IsCrate(stream[i]) {
        piece := [DOLLAR, stream[i]];
        i := i + 1;
      } else {
        piece := [stream[i]];
        i := i + 1;
      }
      assert Normalize(rest) == piece + Normalize(stream[i..]);
      Regroup(out, piece, Normalize(stream[i..]));
      out := out + piece;
    }
  }

  method SubstituteDollarCrate(stream: seq<Token>, replacement: seq<Token>) returns (out: seq<Token>)
    ensures out == Substitute(stream, replacement)
    decreases stream
  {
    out := [];
    var i := 0;
    while i < |stream|
      invariant i <= |stream|
      invariant out + Substitute(stream[i..], replacement) == Substitute(stream, replacement)
    {
      ghost var rest := stream[i..];
      assert rest[0] == stream[i] && rest[1..] == stream[i + 1..];
      var piece: seq<Token>;
      if stream[i].Group? {
        var inner := SubstituteDollarCrate(stream[i].stream, replacement);
        piece := [Group(stream[i].delim, inner)];
        i := i + 1;
      } else if IsDollar(stream[i]) && i + 1 < |stream| && IsCrate(stream[i + 1]) {
        piece := replacement;
        i := i + 2;
        assert rest[2..] == stream[i..];
      } else {
        piece := [stream[i]];
        i := i + 1;
      }
      assert Substitute(rest, replacement) == piece + Substitute(stream[i..], replacement);
      Regroup(out, piece, Substitute(stream[i..], replacement));
      out := out + piece;
    }
  }

  // ---------------------------------------------------------------- results

  lemma DollaredConcat(a: seq<Token>, b: seq<Token>)
    requires Dollared(a) && Dollared(b)
    ensures Dollared(a + b)
  {
    var c := a + b;
    forall k | 0 <= k < |c| && IsCrate(c[k])
      ensures k > 0 && DollarCrate(c, k - 1)
    {
      if k < |a| {
        assert DollarCrate(a, k - 1);
      } else {
        assert DollarCrate(b, k - |a| - 1);
      }
    }
  }

  // After normalization every `crate` has its `$`, whatever the tree.
  lemma {:induction false} NormalizeDollars(ts: seq<Token>)
    ensures Dollared(Normalize(ts))
    decreases ts
  {
    if ts != [] {
      if ts[0].Group? {
        NormalizeDollars(ts[0].stream);
        NormalizeDollars(ts[1..]);
        DollaredConcat([Group(ts[0].delim, Normalize(ts[0].stream))], Normalize(ts[1..]));
      } else if DollarCrate(ts, 0) {
        NormalizeDollars(ts[2..]);
        assert DollarCrate(ts[..2], 0);
        DollaredConcat(ts[..2], Normalize(ts[2..]));
      } else if IsCrate(ts[0]) {
        NormalizeDollars(ts[1..]);
        assert DollarCrate([DOLLAR, ts[0]], 0);
        DollaredConcat([DOLLAR, ts[0]], Normalize(ts[1..]));
      } else {
        NormalizeDollars(ts[1..]);
        DollaredConcat([ts[0]], Normalize(ts[1..]));
      }
    }
  }

  lemma DollaredTail(ts: seq<Token>, n: nat)
    requires Dollared(ts) && n <= |ts| && (n == |ts| || !IsCrate(ts[n]))
    ensures Dollared(ts[n..])
  {
    var tail := ts[n..];
    forall k | 0 <= k < |tail| && IsCrate(tail[k])
      ensures k > 0 && DollarCrate(tail, k - 1)
    {
      assert DollarCrate(ts, n + k - 1);
    }
  }

  // Normalization changes nothing exactly where nothing is missing.
  lemma {:induction false} NormalizeFixes(ts: seq<Token>)
    ensures Normalize(ts) == ts <==> Dollared(ts)
    decreases ts
  {
    if Normalize(ts) == ts {
      NormalizeDollars(ts);
    }
    if Dollared(ts) {
      DollaredIsFixed(ts);
    }
  }

  lemma NoCrateAfter(ts: seq<Token>, n: nat)
    requires Dollared(ts) && 0 < n <= |ts| && !DollarCrate(ts, n - 1)
    ensures n == |ts| || !IsCrate(ts[n])
  {
  }

  lemma {:induction false} DollaredIsFixed(ts: seq<Token>)
    requires Dollared(ts)
    ensures Normalize(ts) == ts
    decreases ts
  {
    if ts != [] {
      if ts[0].Group? {
        DollaredIsFixed(ts[0].stream);
        NoCrateAfter(ts, 1);
        DollaredTail(ts, 1);
        DollaredIsFixed(ts[1..]);
      } else if DollarCrate(ts, 0) {
        NoCrateAfter(ts, 2);
        DollaredTail(ts, 2);
        DollaredIsFixed(ts[2..]);
        assert ts[..2] + ts[2..] == ts;
      } else {
        NoCrateAfter(ts, 1);
        DollaredTail(ts, 1);
        DollaredIsFixed(ts[1..]);
      }
    }
  }

  lemma {:induction false} NormalizeIdempotent(ts: seq<Token>)
    ensures Normalize(Normalize(ts)) == Normalize(ts)
  {
    NormalizeDollars(ts);
    DollaredIsFixed(Normalize(ts));
  }

  lemma AcceptedTail(ts: seq<Token>, n: nat)
    requires Accepted(ts) && n <= |ts|
    ensures Accepted(ts[n..])
  {
    var tail := ts[n..];
    forall k | 0 <= k < |tail| && IsDollar(tail[k])
      ensures DollarCrate(tail, k)
    {
      assert DollarCrate(ts, n + k);
    }
  }

  // On an accepted fragment the two context-sensitive rewrites together are
  // one token-by-token replacement.
  lemma {:induction false} SubstituteAfterNormalize(ts: seq<Token>, replacement: seq<Token>)
    requires Accepted(ts)
    ensures Substitute(Normalize(ts), replacement) == Resolve(ts, replacement)
    decreases ts
  {
    if ts != [] {
      var n := Normalize(ts);
      AcceptedTail(ts, 1);
      if ts[0].Group? {
        SubstituteAfterNormalize(ts[0].stream, replacement);
        SubstituteAfterNormalize(ts[1..], replacement);
        assert n[1..] == Normalize(ts[1..]);
      } else if IsDollar(ts[0]) {
        assert DollarCrate(ts, 0) && DollarCrate(n, 0);
        AcceptedTail(ts, 2);
        SubstituteAfterNormalize(ts[2..], replacement);
        assert n[2..] == Normalize(ts[2..]);
        assert ts[1..][1..] == ts[2..];
        assert Resolve(ts[1..], replacement) == replacement + Resolve(ts[2..], replacement);
        assert [] + Resolve(ts[1..], replacement) == Resolve(ts[1..], replacement);
      } else if IsCrate(ts[0]) {
        SubstituteAfterNormalize(ts[1..], replacement);
        assert DollarCrate(n, 0) && n[2..] == Normalize(ts[1..]);
      } else {
        SubstituteAfterNormalize(ts[1..], replacement);
        assert n[1..] == Normalize(ts[1..]);
      }
    }
  }

  // Substitution after normalization, for every tree: each `crate`, with the
  // `$` right before it if there is one, is replaced, and other `$`s stay.
  function Bare(ts: seq<Token>, replacement: seq<Token>): seq<Token>
    decreases ts
  {
    if ts == [] then []
    else if ts[0].Group? then [Group(ts[0].delim, Bare(ts[0].stream, replacement))] + Bare(ts[1..], replacement)
    else if DollarCrate(ts, 0) then replacement + Bare(ts[2..], replacement)
    else if IsCrate(ts[0]) then replacement + Bare(ts[1..], replacement)
    else [ts[0]] + Bare(ts[1..], replacement)
  }

  lemma NormalizeHead(ts: seq<Token>)
    ensures Normalize(ts) != [] ==> !IsCrate(Normalize(ts)[0])
  {
  }

  lemma {:induction false} SubstituteIsBare(ts: seq<Token>, replacement: seq<Token>)
    ensures Substitute(Normalize(ts), replacement) == Bare(ts, replacement)
    decreases ts
  {
    if ts != [] {
      var n := Normalize(ts);
      if ts[0].Group? {
        SubstituteIsBare(ts[0].stream, replacement);
        SubstituteIsBare(ts[1..], replacement);
        assert n[1..] == Normalize(ts[1..]);
      } else if DollarCrate(ts, 0) {
        SubstituteIsBare(ts[2..], replacement);
        assert DollarCrate(n, 0) && n[2..] == Normalize(ts[2..]);
      } else if IsCrate(ts[0]) {
        SubstituteIsBare(ts[1..], replacement);
        assert DollarCrate(n, 0) && n[2..] == Normalize(ts[1..]);
      } else {
        SubstituteIsBare(ts[1..], replacement);
        NormalizeHead(ts[1..]);
        assert n[1..] == Normalize(ts[1..]);
        assert !DollarCrate(n, 0);
      }
    }
  }

  const CRATE: Token := Ident("crate")

  // One round trip: resolved to `crate`, then normalized again.
  predicate RoundTrips(ts: seq<Token>) { Normalize(Bare(ts, [CRATE])) == Normalize(ts) }

  lemma BareHead(ts: seq<Token>)
    ensures Bare(ts, [CRATE]) != [] && IsCrate(Bare(ts, [CRATE])[0])
            <==> ts != [] && (IsCrate(ts[0]) || DollarCrate(ts, 0))
  {
  }

  lemma Cancels(front: seq<Token>, a: seq<Token>, b: seq<Token>)
    ensures front + a == front + b <==> a == b
  {
    if front + a == front + b {
      assert a == (front + a)[|front|..] == (front + b)[|front|..] == b;
    }
  }

  lemma GroupRoundTrips(ts: seq<Token>)
    requires ts != [] && ts[0].Group?
    ensures RoundTrips(ts) <==> RoundTrips(ts[0].stream) && RoundTrips(ts[1..])
  {
    var b, tail := Bare(ts, [CRATE]), Bare(ts[1..], [CRATE]);
    assert b[1..] == tail;
    var x, y := Normalize(b[0].stream), Normalize(ts[0].stream);
    assert Normalize(b) == [Group(ts[0].delim, x)] + Normalize(tail);
    if RoundTrips(ts) {
      assert Normalize(b)[0] == Normalize(ts)[0] && Normalize(b)[1..] == Normalize(ts)[1..];
    }
  }

  // A tree whose front and bare front normalize to the same piece.
  lemma PieceRoundTrips(ts: seq<Token>, rest: seq<Token>, piece: seq<Token>)
    requires Normalize(ts) == piece + Normalize(rest)
    requires Normalize(Bare(ts, [CRATE])) == piece + Normalize(Bare(rest, [CRATE]))
    ensures RoundTrips(ts) <==> RoundTrips(rest)
  {
    Cancels(piece, Normalize(Bare(rest, [CRATE])), Normalize(rest));
  }

  lemma CrateRoundTrips(ts: seq<Token>)
    requires ts != [] && (DollarCrate(ts, 0) || IsCrate(ts[0]))
    ensures RoundTrips(ts) <==> RoundTrips(ts[if IsCrate(ts[0]) then 1 else 2..])
  {
    var rest := ts[if IsCrate(ts[0]) then 1 else 2..];
    var b := Bare(ts, [CRATE]);
    assert b[0] == CRATE && b[1..] == Bare(rest, [CRATE]);
    if DollarCrate(ts, 0) {
      assert ts[..2] == [DOLLAR, CRATE];
    }
    PieceRoundTrips(ts, rest, [DOLLAR, CRATE]);
  }

  lemma OtherRoundTrips(ts: seq<Token>)
    requires ts != [] && !ts[0].Group? && !DollarCrate(ts, 0) && !IsCrate(ts[0])
    requires !(IsDollar(ts[0]) && DollarCrate(ts, 1))
    ensures RoundTrips(ts) <==> RoundTrips(ts[1..])
  {
    var b := Bare(ts, [CRATE]);
    BareHead(ts[1..]);
    assert b[1..] == Bare(ts[1..], [CRATE]);
    assert !DollarCrate(b, 0);
    PieceRoundTrips(ts, ts[1..], [ts[0]]);
  }

  // A `$` right before a `$crate` takes the `crate` that is left of it.
  lemma StackedRoundTrips(ts: seq<Token>)
    requires ts != [] && IsDollar(ts[0]) && DollarCrate(ts, 1)
    ensures !RoundTrips(ts)
  {
    var b := Bare(ts, [CRATE]);
    BareHead(ts[1..]);
    assert b[1..] == Bare(ts[1..], [CRATE]);
    assert DollarCrate(ts[1..], 0) && DollarCrate(b, 0);
    var n := Normalize(ts[1..]);
    assert n == ts[1..][..2] + Normalize(ts[1..][2..]) && n[0] == DOLLAR;
    assert Normalize(ts) == [ts[0]] + n;
    assert Normalize(b)[1] == CRATE && Normalize(ts)[1] == DOLLAR;
  }

  lemma {:induction false} RoundTripsExactly(ts: seq<Token>)
    ensures RoundTrips(ts) <==> Unstacked(ts)
    decreases ts
  {
    hide RoundTrips;
    if ts == [] {
      NothingRoundTrips();
    } else {
      if ts[0].Group? {
        GroupRoundTrips(ts);
        RoundTripsExactly(ts[0].stream);
        RoundTripsExactly(ts[1..]);
        UnstackedFrom(ts, 1);
      } else if DollarCrate(ts, 0) {
        CrateRoundTrips(ts);
        RoundTripsExactly(ts[2..]);
        UnstackedFrom(ts, 2);
      } else if IsCrate(ts[0]) {
        CrateRoundTrips(ts);
        RoundTripsExactly(ts[1..]);
        UnstackedFrom(ts, 1);
      } else if IsDollar(ts[0]) && DollarCrate(ts, 1) {
        StackedRoundTrips(ts);
        assert !Unstacked(ts);
      } else {
        OtherRoundTrips(ts);
        RoundTripsExactly(ts[1..]);
        UnstackedFrom(ts, 1);
      }
    }
  }

  lemma NothingRoundTrips()
    ensures RoundTrips([])
  {
  }

  // Dropping a front that is not stacked itself.
  lemma UnstackedFrom(ts: seq<Token>, n: nat)
    requires 1 <= n <= |ts| && (n == 1 || (n == 2 && DollarCrate(ts, 0)))
    requires n == 1 ==> !(IsDollar(ts[0]) && DollarCrate(ts, 1))
    ensures Unstacked(ts) <==> (ts[0].Group? ==> Unstacked(ts[0].stream)) && Unstacked(ts[n..])
  {
    var tail := ts[n..];
    assert forall k :: 0 <= k < |tail| ==> tail[k] == ts[n + k];
    forall k: nat
      ensures DollarCrate(tail, k) <==> DollarCrate(ts, n + k)
    {
    }
    if Unstacked(tail) && (ts[0].Group? ==> Unstacked(ts[0].stream)) {
      forall k | 0 <= k < |ts|
        ensures IsDollar(ts[k]) ==> !DollarCrate(ts, k + 1)
        ensures ts[k].Group? ==> Unstacked(ts[k].stream)
      {
        if k >= n {
          assert ts[k] == tail[k - n];
          assert DollarCrate(tail, k - n + 1) <==> DollarCrate(ts, n + (k - n + 1));
        }
      }
    }
    if Unstacked(ts) {
      forall k | 0 <= k < |tail|
        ensures IsDollar(tail[k]) ==> !DollarCrate(tail, k + 1)
      {
        assert IsDollar(ts[n + k]) ==> !DollarCrate(ts, n + k + 1);
        assert DollarCrate(tail, k + 1) <==> DollarCrate(ts, n + (k + 1));
      }
    }
  }

  // Resolving to `crate` and normalizing again gives back the relayed form
  // exactly when no `$` stands right before a `$crate`.
  lemma RelayRoundTrip(ts: seq<Token>)
    ensures Normalize(Substitute(Normalize(ts), [CRATE])) == Normalize(ts) <==> Unstacked(ts)
  {
    SubstituteIsBare(ts, [CRATE]);
    RoundTripsExactly(ts);
  }

  // An accepted fragment is such a tree.
  lemma {:induction false} AcceptedIsUnstacked(ts: seq<Token>)
    requires Accepted(ts)
    ensures Unstacked(ts)
    decreases ts
  {
    forall k | 0 <= k < |ts| && ts[k].Group?
      ensures Unstacked(ts[k].stream)
    {
      AcceptedIsUnstacked(ts[k].stream);
    }
  }

  // Without acceptance the round trip can lose a `$`.
  lemma StrayDollarIsLost()
    ensures var ts := [DOLLAR, DOLLAR, Ident("crate")];
            !Accepted(ts) && Normalize(Substitute(Normalize(ts), [Ident("crate")])) != Normalize(ts)
  {
    var c := Ident("crate");
    var ts := [DOLLAR, DOLLAR, c];
    assert !DollarCrate(ts, 0);
    assert ts[1..] == [DOLLAR, c];
    assert Normalize([DOLLAR, c]) == [DOLLAR, c] by {
      assert [DOLLAR, c][2..] == [] && [DOLLAR, c][..2] == [DOLLAR, c];
    }
    assert Normalize(ts) == ts;
    assert Substitute([DOLLAR, c], [c]) == [c] by {
      assert [DOLLAR, c][2..] == [];
    }
    assert Substitute(ts, [c]) == [DOLLAR, c];
  }
}
