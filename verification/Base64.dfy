// The mermaid.live link's encoder and the decoder its unit checks use
// (supervisor-tools/src/out.rs:24-43, 223-245).
module Base64 {
  import opened Machine

  function Upper(): string { "ABCDEFGHIJKLMNOPQRSTUVWXYZ" }

  function Lower(): string { "abcdefghijklmnopqrstuvwxyz" }

  function Alphabet(): string { Upper() + Lower() + "0123456789-_" }

  function Val(c: char): (v: nat)
    ensures v < 64
  {
    if 'A' <= c <= 'Z' then c as int - 'A' as int
    else if 'a' <= c <= 'z' then c as int - 'a' as int + 26
    else if '0' <= c <= '9' then c as int - '0' as int + 52
    else if c == '-' then 62
    else if c == '_' then 63
    else 0
  }

  lemma UpperAt(v: nat)
    requires v < 26
    ensures |Upper()| == 26 && Upper()[v] as int == 'A' as int + v
  {
  }

  lemma LowerAt(v: nat)
    requires v < 26
    ensures |Lower()| == 26 && Lower()[v] as int == 'a' as int + v
  {
  }

  lemma DigitAt(v: nat)
    requires v < 12
    ensures var d := "0123456789-_"; |d| == 12 && d[v] != '=' && Val(d[v]) == v + 52
  {
  }

  lemma AlphabetShape(v: nat)
    requires v < 64
    ensures |Alphabet()| == 64 && Alphabet()[v] != '=' && Val(Alphabet()[v]) == v
  {
    UpperAt(if v < 26 then v else 0);
    LowerAt(if 26 <= v < 52 then v - 26 else 0);
    DigitAt(if 52 <= v then v - 52 else 0);
  }

  // `<<` and `>>` by 18, 12, 6 and 0 bits.
  function Shift(i: nat): nat
    requires i < 4
  {
    if i == 0 then 0x40000 else if i == 1 then 0x1000 else if i == 2 then 0x40 else 1
  }

  // ---------------------------------------------------------------- encoder

  function Byte(c: seq<u8>, i: nat): nat { if i < |c| then c[i] as nat else 0 }

  // The 24-bit group of up to three bytes, absent ones zero.
  function Word(c: seq<u8>): (n: nat)
    ensures n < 0x100_0000
  {
    Byte(c, 0) * 0x10000 + Byte(c, 1) * 0x100 + Byte(c, 2)
  }

  function Sextet(n: nat, i: nat): (v: nat)
    requires i < 4
    ensures v < 64
  {
    n / Shift(i) % 64
  }

  function Letter(v: nat): (c: char)
    requires v < 64
    ensures c != '=' && Val(c) == v && c in Alphabet()
  {
    AlphabetShape(v);
    Alphabet()[v]
  }

  function Char(c: seq<u8>, i: nat): char
    requires i < 4
  {
    if i <= |c| then Letter(Sextet(Word(c), i)) else '='
  }

  function Quad(c: seq<u8>): string { [Char(c, 0), Char(c, 1), Char(c, 2), Char(c, 3)] }

  function Chunk<T>(s: seq<T>, size: nat): nat { if |s| < size then |s| else size }

  function Encoded(bytes: seq<u8>): string {
    if bytes == [] then [] else Quad(bytes[..Chunk(bytes, 3)]) + Encoded(bytes[Chunk(bytes, 3)..])
  }

  lemma QuadAt(c: seq<u8>, i: nat)
    requires i < 4
    ensures |Quad(c)| == 4 && Quad(c)[i] == if i <= |c| then Letter(Sextet(Word(c), i)) else '='
  {
  }

  lemma EncodedStep(bytes: seq<u8>)
    requires bytes != []
    ensures 1 <= Chunk(bytes, 3) <= 3 && Chunk(bytes, 3) <= |bytes|
    ensures Encoded(bytes) == Quad(bytes[..Chunk(bytes, 3)]) + Encoded(bytes[Chunk(bytes, 3)..])
    ensures |Quad(bytes[..Chunk(bytes, 3)])| == 4
  {
  }

  method Base64Url(bytes: seq<u8>) returns (out: string)
    ensures out == Encoded(bytes)
  {
    hide Quad, Encoded, Letter, Word, Sextet;
    out := [];
    var rest := bytes;
    NothingEncoded();
    while rest != []
      invariant out + Encoded(rest) == Encoded(bytes)
    {
      EncodedStep(rest);
      var size := Chunk(rest, 3);
      var chunk := rest[..size];
      var n := Word(chunk);
      ghost var before, tail := out, Encoded(rest[size..]);
      var i := 0;
      while i < 4
        invariant i <= 4
        invariant |Quad(chunk)| == 4
        invariant out == before + Quad(chunk)[..i]
      {
        QuadAt(chunk, i);
        ghost var q := Quad(chunk);
        assert q[..i + 1] == q[..i] + [q[i]];
        Regroup(before, q[..i], [q[i]]);
        if i <= |chunk| {
          out := out + [Letter(Sextet(n, i))];
        } else {
          out := out + ['='];
        }
        i := i + 1;
      }
      Regroup(before, Quad(chunk), tail);
      rest := rest[size..];
    }
  }

  lemma NothingEncoded()
    ensures Encoded([]) == []
  {
  }

  lemma Regroup(a: string, b: string, c: string)
    ensures a + b + c == a + (b + c)
  {
  }

  // ---------------------------------------------------------------- decoder

  function Data(s: string): (r: string)
    ensures |r| <= |s|
  {
    if s == [] then [] else if s[0] == '=' then Data(s[1..]) else [s[0]] + Data(s[1..])
  }

  function Sum(c: string, k: nat): nat
    requires k <= |c| <= 4
  {
    if k == 0 then 0 else Sum(c, k - 1) + Val(c[k - 1]) * Shift(k - 1)
  }

  function ThreeBytes(n: nat): seq<u8> {
    [(n / 0x10000 % 256) as u8, (n / 0x100 % 256) as u8, (n % 256) as u8]
  }

  function DecodeAll(s: string): seq<u8> {
    if s == [] then []
    else
      var size := Chunk(s, 4);
      ThreeBytes(Sum(s[..size], size))[..size - 1] + DecodeAll(s[size..])
  }

  function Decoded(s: string): seq<u8> { DecodeAll(Data(s)) }

  method Debase64Url(text: string) returns (out: seq<u8>)
    ensures out == Decoded(text)
  {
    out := [];
    var s := Data(text);
    while s != []
      invariant out + DecodeAll(s) == Decoded(text)
    {
      var size := Chunk(s, 4);
      var chunk := s[..size];
      var n, i := 0, 0;
      while i < size
        invariant i <= size && n == Sum(chunk, i)
      {
        n := n + Val(chunk[i]) * Shift(i);
        i := i + 1;
      }
      out := out + ThreeBytes(n)[..size - 1];
      s := s[size..];
    }
  }

  // ---------------------------------------------------------------- results

  lemma Shifted(n: nat)
    ensures n / 0x1000 == n / 64 / 64 && n / 0x40000 == n / 0x1000 / 64
  {
  }

  lemma SextetParts(n: nat)
    ensures Sextet(n, 0) == n / 0x40000 % 64 && Sextet(n, 1) == n / 0x1000 % 64
    ensures Sextet(n, 2) == n / 64 % 64 && Sextet(n, 3) == n % 64
  {
  }

  lemma Small(c: nat)
    requires c < 64
    ensures c % 64 == c
  {
  }

  lemma Sextets(n: nat)
    requires n < 0x100_0000
    ensures Sextet(n, 0) * 0x40000 + Sextet(n, 1) * 0x1000 + Sextet(n, 2) * 0x40 + Sextet(n, 3) == n
    ensures n % 0x100 == 0 ==> Sextet(n, 3) == 0
    ensures n % 0x10000 == 0 ==> Sextet(n, 2) == 0 && Sextet(n, 3) == 0
  {
    var a := n / 64;
    var b := a / 64;
    var c := b / 64;
    hide *;
    Shifted(n);
    SextetParts(n);
    Small(c);
    Recombined(n, a, b, c, n % 64, a % 64, b % 64);
    Multiples(n);
  }

  lemma Recombined(n: nat, a: nat, b: nat, c: nat, r0: nat, r1: nat, r2: nat)
    requires n == 64 * a + r0 && a == 64 * b + r1 && b == 64 * c + r2
    ensures c * 0x40000 + r2 * 0x1000 + r1 * 0x40 + r0 == n
  {
  }

  lemma Times64(k: nat)
    ensures 64 * k % 64 == 0 && 64 * k / 64 == k
  {
  }

  lemma Multiples(n: nat)
    ensures n % 0x100 == 0 ==> n % 64 == 0
    ensures n % 0x10000 == 0 ==> n % 64 == 0 && n / 64 % 64 == 0
  {
    if n % 0x10000 == 0 {
      var r := n / 0x10000;
      assert n == 64 * (1024 * r) && 1024 * r == 64 * (16 * r);
      Times64(1024 * r);
      Times64(16 * r);
    } else if n % 0x100 == 0 {
      var q := n / 0x100;
      assert n == 64 * (4 * q);
      Times64(4 * q);
    }
  }

  lemma WordTail(c: seq<u8>)
    ensures |c| <= 2 ==> Word(c) % 0x100 == 0
    ensures |c| <= 1 ==> Word(c) % 0x10000 == 0
  {
  }

  lemma SumOfQuad(c: seq<u8>, k: nat)
    requires 1 <= |c| <= 3 && k <= |c| + 1
    ensures Sum(Quad(c)[..|c| + 1], k) ==
              (if k > 0 then Sextet(Word(c), 0) * 0x40000 else 0) + (if k > 1 then Sextet(Word(c), 1) * 0x1000 else 0)
              + (if k > 2 then Sextet(Word(c), 2) * 0x40 else 0) + (if k > 3 then Sextet(Word(c), 3) else 0)
  {
    if k > 0 {
      SumOfQuad(c, k - 1);
      hide Sextet, Word, Letter, Val;
    }
  }

  // Four sextets name the same 24 bits as three bytes, and a shorter group
  // loses nothing to the sextets that padding replaces.
  lemma GroupKept(c: seq<u8>)
    requires 1 <= |c| <= 3
    ensures Sum(Quad(c)[..|c| + 1], |c| + 1) == Word(c)
  {
    SumOfQuad(c, |c| + 1);
    Sextets(Word(c));
    WordTail(c);
    hide *;
  }

  lemma WordBytes(c: seq<u8>)
    requires 1 <= |c| <= 3
    ensures ThreeBytes(Word(c))[..|c|] == c
  {
    Digits(Byte(c, 0), Byte(c, 1), Byte(c, 2));
  }

  lemma Digits(a: nat, b: nat, c: nat)
    requires a < 256 && b < 256 && c < 256
    ensures var n := a * 0x10000 + b * 0x100 + c; n / 0x10000 % 256 == a && n / 0x100 % 256 == b && n % 256 == c
  {
  }

  lemma DataStep(s: string)
    ensures s == [] ==> Data(s) == []
    ensures s != [] ==> Data(s) == if s[0] == '=' then Data(s[1..]) else [s[0]] + Data(s[1..])
  {
  }

  lemma {:induction false} DataAppends(s: string, t: string)
    ensures Data(s + t) == Data(s) + Data(t)
  {
    hide Data;
    DataStep(s);
    if s == [] {
      assert s + t == t;
    } else {
      DataStep(s + t);
      DataAppends(s[1..], t);
      assert (s + t)[1..] == s[1..] + t;
      var a, b, c := [s[0]], Data(s[1..]), Data(t);
      assert a + (b + c) == a + b + c;
    }
  }

  lemma DataOfQuad(c: seq<u8>, rest: string)
    requires 1 <= |c| <= 3
    ensures Data(Quad(c) + rest) == Quad(c)[..|c| + 1] + Data(rest)
  {
    hide *;
    CharIsPadding(c);
    TakeOfQuad(c);
    var w, x, y, z := Char(c, 0), Char(c, 1), Char(c, 2), Char(c, 3);
    DataAppends([w, x, y, z], rest);
    DataOfLetters(w, x, y, z);
  }

  lemma TakeOfQuad(c: seq<u8>)
    requires 1 <= |c| <= 3
    ensures Quad(c) == [Char(c, 0), Char(c, 1), Char(c, 2), Char(c, 3)]
    ensures |c| == 1 ==> Quad(c)[..|c| + 1] == [Char(c, 0), Char(c, 1)]
    ensures |c| == 2 ==> Quad(c)[..|c| + 1] == [Char(c, 0), Char(c, 1), Char(c, 2)]
    ensures |c| == 3 ==> Quad(c)[..|c| + 1] == [Char(c, 0), Char(c, 1), Char(c, 2), Char(c, 3)]
  {
    hide Char;
  }

  lemma DataOfLetters(a: char, b: char, c: char, d: char)
    requires a != '=' && b != '='
    ensures c != '=' && d != '=' ==> Data([a, b, c, d]) == [a, b, c, d]
    ensures c != '=' && d == '=' ==> Data([a, b, c, d]) == [a, b, c]
    ensures c == '=' && d == '=' ==> Data([a, b, c, d]) == [a, b]
  {
    var q := [a, b, c, d];
    assert q[1..] == [b, c, d] && q[1..][1..] == [c, d] && q[1..][1..][1..] == [d];
    hide Data;
    DataStep(q);
    DataStep(q[1..]);
    DataStep(q[1..][1..]);
    DataStep(q[1..][1..][1..]);
    DataStep([]);
  }

  lemma CharIsPadding(c: seq<u8>)
    ensures forall i: nat :: i < 4 ==> (Char(c, i) == '=' <==> i > |c|)
  {
  }

  // Decoding undoes encoding, for every byte sequence.
  lemma {:induction false} RoundTrip(bytes: seq<u8>)
    ensures Decoded(Encoded(bytes)) == bytes
  {
    hide *;
    if bytes == [] {
      NothingEncoded();
      DataStep([]);
      NothingDecoded();
    } else {
      EncodedStep(bytes);
      var size := Chunk(bytes, 3);
      var c, rest := bytes[..size], bytes[size..];
      RoundTrip(rest);
      LastChunk(bytes);
      NothingEncoded();
      DataStep([]);
      DataOfQuad(c, Encoded(rest));
      DecodeGroup(c, Data(Encoded(rest)));
      DecodedIs(Encoded(bytes));
      DecodedIs(Encoded(rest));
      assert c + rest == bytes;
    }
  }

  lemma LastChunk(bytes: seq<u8>)
    ensures Chunk(bytes, 3) < 3 ==> bytes[Chunk(bytes, 3)..] == []
  {
  }

  lemma NothingDecoded()
    ensures DecodeAll([]) == [] && Decoded([]) == DecodeAll(Data([]))
  {
  }

  lemma DecodedIs(s: string)
    ensures Decoded(s) == DecodeAll(Data(s))
  {
  }

  // Decoding a group of letters, then what follows it; only a whole group may
  // have anything after it.
  lemma DecodeGroup(c: seq<u8>, rest: string)
    requires 1 <= |c| <= 3 && (|c| < 3 ==> rest == [])
    ensures DecodeAll(Quad(c)[..|c| + 1] + rest) == c + DecodeAll(rest)
  {
    hide Quad, Sum, Word, ThreeBytes;
    QuadAt(c, 0);
    GroupKept(c);
    WordBytes(c);
    var q := Quad(c)[..|c| + 1];
    var s := q + rest;
    assert Chunk(s, 4) == |c| + 1 && s[..|c| + 1] == q && s[|c| + 1..] == rest;
  }

  // Section 5 of RFC 4648: every three bytes, the last group filled with zero
  // bits, are four letters of the 64-letter alphabet naming the same 24-bit
  // number; letters that stand for no input bits are `=`.
  ghost predicate Rfc4648(bytes: seq<u8>, out: string) {
    && |out| == (|bytes| + 2) / 3 * 4
    && forall g: nat :: 3 * g < |bytes| ==> Names(ByteGroup(bytes, g), LetterGroup(out, g))
  }

  function ByteGroup(bytes: seq<u8>, g: nat): seq<u8>
    requires 3 * g < |bytes|
  {
    bytes[3 * g..3 * g + Chunk(bytes[3 * g..], 3)]
  }

  function LetterGroup(out: string, g: nat): string {
    if 4 * g + 4 <= |out| then out[4 * g..4 * g + 4] else []
  }

  ghost predicate Names(c: seq<u8>, q: string) {
    && |q| == 4
    && (forall i: nat :: i < 4 ==> if i <= |c| then q[i] in Alphabet() && q[i] != '=' else q[i] == '=')
    && Val(q[0]) * 0x40000 + Val(q[1]) * 0x1000 + Val(q[2]) * 0x40 + Val(q[3])
         == Byte(c, 0) * 0x10000 + Byte(c, 1) * 0x100 + Byte(c, 2)
  }

  lemma CharValue(c: seq<u8>, i: nat)
    requires i < 4
    ensures if i <= |c| then Char(c, i) in Alphabet() && Char(c, i) != '=' && Val(Char(c, i)) == Sextet(Word(c), i)
            else Char(c, i) == '=' && Val(Char(c, i)) == 0
  {
  }

  lemma QuadNames(c: seq<u8>)
    requires 1 <= |c| <= 3
    ensures Names(c, Quad(c))
  {
    Sextets(Word(c));
    WordTail(c);
    assert Word(c) == Byte(c, 0) * 0x10000 + Byte(c, 1) * 0x100 + Byte(c, 2);
    CharValue(c, 0);
    CharValue(c, 1);
    CharValue(c, 2);
    CharValue(c, 3);
    assert Quad(c) == [Char(c, 0), Char(c, 1), Char(c, 2), Char(c, 3)];
    hide Word, Sextet, Char, Letter, Val, Byte, Alphabet, Quad, Names;
    NamesFrom(c, Quad(c));
  }

  lemma NamesFrom(c: seq<u8>, q: string)
    requires |q| == 4 && 1 <= |c| <= 3
    requires q[0] in Alphabet() && q[0] != '=' && q[1] in Alphabet() && q[1] != '='
    requires if 2 <= |c| then q[2] in Alphabet() && q[2] != '=' else q[2] == '='
    requires if 3 <= |c| then q[3] in Alphabet() && q[3] != '=' else q[3] == '='
    requires Val(q[0]) * 0x40000 + Val(q[1]) * 0x1000 + Val(q[2]) * 0x40 + Val(q[3])
             == Byte(c, 0) * 0x10000 + Byte(c, 1) * 0x100 + Byte(c, 2)
    ensures Names(c, q)
  {
    hide Val, Byte, Alphabet;
    forall i: nat | i < 4
      ensures if i <= |c| then q[i] in Alphabet() && q[i] != '=' else q[i] == '='
    {
      assert i == 0 || i == 1 || i == 2 || i == 3;
    }
  }

  lemma {:induction false} EncodesAsRfc4648(bytes: seq<u8>)
    ensures Rfc4648(bytes, Encoded(bytes))
  {
    if bytes != [] {
      EncodedStep(bytes);
      var size := Chunk(bytes, 3);
      var c, rest := bytes[..size], bytes[size..];
      EncodesAsRfc4648(rest);
      QuadNames(c);
      Length(bytes, rest, size);
      hide Quad, Names, Encoded, ByteGroup, LetterGroup;
      forall g: nat | 3 * g < |bytes|
        ensures Names(ByteGroup(bytes, g), LetterGroup(Encoded(bytes), g))
      {
        if g == 0 {
          FirstGroup(bytes, Quad(c), Encoded(rest));
        } else {
          GroupShifts(bytes, Quad(c), Encoded(rest), g);
        }
      }
    }
  }

  lemma Length(bytes: seq<u8>, rest: seq<u8>, size: nat)
    requires bytes != [] && size == Chunk(bytes, 3) && rest == bytes[size..]
    ensures (|bytes| + 2) / 3 * 4 == 4 + (|rest| + 2) / 3 * 4
  {
  }

  lemma FirstGroup(bytes: seq<u8>, q: string, tail: string)
    requires bytes != [] && |q| == 4
    ensures ByteGroup(bytes, 0) == bytes[..Chunk(bytes, 3)] && LetterGroup(q + tail, 0) == q
  {
    assert bytes[0..] == bytes;
  }

  lemma GroupShifts(bytes: seq<u8>, q: string, tail: string, g: nat)
    requires 1 <= g && 3 * g < |bytes| && |q| == 4
    ensures ByteGroup(bytes[3..], g - 1) == ByteGroup(bytes, g)
    ensures LetterGroup(tail, g - 1) == LetterGroup(q + tail, g)
  {
    var a, b := ByteGroup(bytes[3..], g - 1), ByteGroup(bytes, g);
    assert |a| == |b| && forall k :: 0 <= k < |a| ==> a[k] == b[k];
    var x, y := LetterGroup(tail, g - 1), LetterGroup(q + tail, g);
    assert |x| == |y| && forall k :: 0 <= k < |x| ==> x[k] == y[k];
  }
}
