// The one-sided-signal lint, from the stream of signal accesses a graph's
// declarations and scans note down (supervisor-tools/src/lint.rs:53-207, 230-234).
module Lint {
  import opened Tokens

  datatype Key = Key(text: string)

  datatype Node = Node(name: string)

  // An element key and the whole array it belongs to.
  datatype Link = Link(elem: Key, whole: Key)

  datatype Note = Note(key: Key, node: Node, write: bool, monitor: bool)

  datatype Sides = Sides(writers: seq<Node>, readers: seq<Node>, monitor: bool)

  datatype Categories = Categories(orphanReads: bool, deadWrites: bool)

  datatype Warning = OrphanRead(key: Key, readers: seq<Node>) | DeadWrite(key: Key, writers: seq<Node>)
      | Stale(allow: nat)

  // ------------------------------------------------------------- the notes

  function Add<T(==)>(list: seq<T>, name: T): seq<T> {
    if name in list then list else list + [name]
  }

  // The keys in the order they were first noted.
  function Order(notes: seq<Note>): seq<Key> {
    if notes == [] then [] else Add(Order(notes[..|notes| - 1]), notes[|notes| - 1].key)
  }

  // The nodes on one side of a key, in the order they were first noted.
  function Names(notes: seq<Note>, k: Key, write: bool): seq<Node> {
    if notes == [] then []
    else
      var last, rest := notes[|notes| - 1], Names(notes[..|notes| - 1], k, write);
      if last.key == k && last.write == write then Add(rest, last.node) else rest
  }

  function Monitored(notes: seq<Note>, k: Key): bool {
    exists n :: n in notes && n.key == k && n.monitor
  }

  function SidesOf(notes: seq<Note>, k: Key): Sides {
    Sides(Names(notes, k, true), Names(notes, k, false), Monitored(notes, k))
  }

  function Table(notes: seq<Note>): map<Key, Sides> {
    map k | k in Order(notes) :: SidesOf(notes, k)
  }

  ghost predicate Noted(notes: seq<Note>, k: Key, write: bool, node: Node) {
    exists n :: n in notes && n.key == k && n.write == write && n.node == node
  }

  lemma {:induction false} NamesAreNoted(notes: seq<Note>, k: Key, write: bool, node: Node)
    ensures node in Names(notes, k, write) <==> Noted(notes, k, write, node)
  {
    if notes != [] {
      var front, last := notes[..|notes| - 1], notes[|notes| - 1];
      NamesAreNoted(front, k, write, node);
      assert notes == front + [last];
    }
  }

  lemma {:induction false} OrderHolds(notes: seq<Note>, k: Key)
    ensures k in Order(notes) <==> exists n :: n in notes && n.key == k
    ensures forall i, j :: 0 <= i < j < |Order(notes)| ==> Order(notes)[i] != Order(notes)[j]
  {
    if notes != [] {
      var front, last := notes[..|notes| - 1], notes[|notes| - 1];
      OrderHolds(front, k);
      assert notes == front + [last];
    }
  }

  // What one more note does to a key's sides; an unseen key has none.
  lemma SidesAfter(front: seq<Note>, n: Note, k: Key)
    ensures var s, t := SidesOf(front, k), SidesOf(front + [n], k);
            && (n.key != k ==> t == s)
            && (n.key == k && n.write ==> t == Sides(Add(s.writers, n.node), s.readers, s.monitor || n.monitor))
            && (n.key == k && !n.write ==> t == Sides(s.writers, Add(s.readers, n.node), s.monitor || n.monitor))
    ensures k !in Order(front) ==> SidesOf(front, k) == Sides([], [], false)
  {
    var notes := front + [n];
    assert notes[..|notes| - 1] == front;
    OrderHolds(front, k);
    forall w, node: Node
      ensures node in Names(front, k, w) <==> Noted(front, k, w, node)
    {
      NamesAreNoted(front, k, w, node);
    }
    if k !in Order(front) {
      forall w
        ensures Names(front, k, w) == []
      {
        NoMembers(Names(front, k, w));
      }
    }
    MonitoredAfter(front, n, k);
  }

  lemma NoMembers(list: seq<Node>)
    ensures list == [] || list[0] in list
  {
  }

  lemma MonitoredAfter(front: seq<Note>, n: Note, k: Key)
    ensures Monitored(front + [n], k) <==> Monitored(front, k) || (n.key == k && n.monitor)
  {
    assert n in front + [n];
    assert forall m :: m in front ==> m in front + [n];
  }

  lemma TableStep(front: seq<Note>, n: Note)
    ensures Order(front + [n]) == Add(Order(front), n.key)
    ensures n.key !in Order(front) ==> SidesOf(front, n.key) == Sides([], [], false)
    ensures Table(front + [n]) == Table(front)[n.key := SidesOf(front + [n], n.key)]
  {
    assert (front + [n])[..|front|] == front;
    SidesAfter(front, n, n.key);
    forall k | n.key != k
      ensures SidesOf(front + [n], k) == SidesOf(front, k)
    {
      SidesAfter(front, n, k);
    }
    hide SidesOf;
    var order := Order(front);
    assert Order(front + [n]) == Add(order, n.key);
    hide Order;
    assert forall k :: k in Add(order, n.key) <==> k in order || k == n.key;
  }

  method Collect(notes: seq<Note>) returns (order: seq<Key>, sides: map<Key, Sides>)
    ensures order == Order(notes) && sides == Table(notes)
  {
    order, sides := [], map[];
    var i := 0;
    while i < |notes|
      invariant i <= |notes| && order == Order(notes[..i]) && sides == Table(notes[..i])
    {
      var n := notes[i];
      ghost var front := notes[..i];
      assert notes[..i + 1] == front + [n];
      assert n.key in sides <==> n.key in order;
      assert n.key in sides ==> sides[n.key] == SidesOf(front, n.key);
      hide *;
      TableStep(front, n);
      SidesAfter(front, n, n.key);
      var s := if n.key in sides then sides[n.key] else Sides([], [], false);
      if n.key !in sides {
        order := order + [n.key];
      }
      AddCases(Order(front), n.key);
      if n.write {
        s := s.(writers := Add(s.writers, n.node));
      } else {
        s := s.(readers := Add(s.readers, n.node));
      }
      sides := sides[n.key := s.(monitor := s.monitor || n.monitor)];
      i := i + 1;
    }
    assert notes[..i] == notes;
  }

  lemma AddCases<T>(list: seq<T>, name: T)
    ensures Add(list, name) == if name in list then list else list + [name]
  {
  }

  // --------------------------------------------------- elements and arrays

  predicate White(c: char) {
    var u := c as int;
    9 <= u <= 13 || u == 32 || u == 0x85 || u == 0xA0 || u == 0x1680 || 0x2000 <= u <= 0x200A
    || u == 0x2028 || u == 0x2029 || u == 0x202F || u == 0x205F || u == 0x3000
  }

  function TrimEnd(s: string): string {
    if s != [] && White(s[|s| - 1]) then TrimEnd(s[..|s| - 1]) else s
  }

  function BeforeBracket(key: string): string {
    if key == [] || key[0] == '[' then [] else [key[0]] + BeforeBracket(key[1..])
  }

  predicate EndsWith(s: string, tail: string) { |tail| <= |s| && s[|s| - |tail|..] == tail }

  // -------------------------------------------------------- paths as segments

  // A path's segments, each without a colon.
  predicate Segments(p: seq<string>) { p != [] && forall k :: 0 <= k < |p| ==> ':' !in p[k] }

  function Join(p: seq<string>): string
    requires p != []
  {
    if |p| == 1 then p[0] else Join(p[..|p| - 1]) + "::" + p[|p| - 1]
  }

  predicate SuffixOf(a: seq<string>, b: seq<string>) { |a| <= |b| && b[|b| - |a|..] == a }

  lemma LastColon(u: string, s: string)
    requires ':' !in s
    ensures var x := u + "::" + s;
            && |x| == |u| + 2 + |s| && x[|u| + 1] == ':'
            && (forall k :: |u| + 1 < k < |x| ==> x[k] != ':')
            && x[..|u|] == u && x[|u| + 2..] == s
  {
    var x := u + "::" + s;
    forall k | |u| + 1 < k < |x|
      ensures x[k] != ':'
    {
      assert x[k] == s[k - |u| - 2];
    }
  }

  // The same text cut at its last `::` is the same cut.
  lemma LastCut(u: string, s: string, v: string, t: string)
    requires ':' !in s && ':' !in t && u + "::" + s == v + "::" + t
    ensures u == v && s == t
  {
    LastColon(u, s);
    LastColon(v, t);
    assert |u| == |v|;
  }

  lemma JoinCut(p: seq<string>)
    requires Segments(p) && |p| > 1
    ensures Segments(p[..|p| - 1]) && ':' !in p[|p| - 1]
    ensures Join(p) == Join(p[..|p| - 1]) + "::" + p[|p| - 1]
    ensures ':' in Join(p)
  {
    var front := Join(p[..|p| - 1]);
    assert Join(p)[|front|] == ':';
  }

  lemma {:induction false} JoinsApart(p: seq<string>, q: seq<string>)
    requires Segments(p) && Segments(q) && Join(p) == Join(q)
    ensures p == q
    decreases |p|
  {
    if |p| > 1 {
      JoinCut(p);
    }
    if |q| > 1 {
      JoinCut(q);
    }
    if |p| > 1 && |q| > 1 {
      LastCut(Join(p[..|p| - 1]), p[|p| - 1], Join(q[..|q| - 1]), q[|q| - 1]);
      JoinsApart(p[..|p| - 1], q[..|q| - 1]);
      assert p == p[..|p| - 1] + [p[|p| - 1]] && q == q[..|q| - 1] + [q[|q| - 1]];
    }
  }

  lemma {:induction false} TailIsSuffix(p: seq<string>, q: seq<string>, head: string)
    requires Segments(p) && Segments(q) && Join(p) == head + "::" + Join(q)
    ensures |q| < |p| && SuffixOf(q, p)
    decreases |q|
  {
    assert Join(p)[|head|] == ':';
    assert |p| > 1;
    JoinCut(p);
    var front, last := p[..|p| - 1], p[|p| - 1];
    if |q| == 1 {
      LastCut(Join(front), last, head, Join(q));
    } else {
      JoinCut(q);
      var less := q[..|q| - 1];
      assert head + "::" + Join(q) == (head + "::" + Join(less)) + "::" + q[|q| - 1];
      LastCut(Join(front), last, head + "::" + Join(less), q[|q| - 1]);
      TailIsSuffix(front, less, head);
      assert q == less + [last] && p == front + [last];
      assert p[|p| - |q|..] == front[|front| - |less|..] + [last];
    }
  }

  lemma {:induction false} SuffixIsTail(p: seq<string>, q: seq<string>)
    requires Segments(p) && Segments(q) && |q| < |p| && SuffixOf(q, p)
    ensures EndsWith(Join(p), "::" + Join(q))
    decreases |q|
  {
    JoinCut(p);
    var front, last := p[..|p| - 1], p[|p| - 1];
    assert q[|q| - 1] == last;
    if |q| == 1 {
      assert Join(p) == Join(front) + ("::" + last);
    } else {
      JoinCut(q);
      var less := q[..|q| - 1];
      assert less == front[|front| - |less|..];
      SuffixIsTail(front, less);
      hide Join, EndsWith, SuffixOf;
      TailGrows(Join(front), "::" + Join(less), "::" + last);
      assert Join(p) == Join(front) + ("::" + last);
      assert "::" + Join(q) == ("::" + Join(less)) + ("::" + last);
    }
  }

  lemma TailGrows(s: string, tail: string, more: string)
    requires EndsWith(s, tail)
    ensures EndsWith(s + more, tail + more)
  {
    var head := s[..|s| - |tail|];
    assert s + more == head + (tail + more);
  }

  // One is the other, or ends in `::` and the other.
  predicate TailsMatch(a: string, b: string) { a == b || EndsWith(a, "::" + b) || EndsWith(b, "::" + a) }

  // Two paths match exactly when the segments of one end in the other's.
  lemma TailsMatchExactly(p: seq<string>, q: seq<string>)
    requires Segments(p) && Segments(q)
    ensures TailsMatch(Join(p), Join(q)) <==> SuffixOf(p, q) || SuffixOf(q, p)
  {
    if Join(p) == Join(q) {
      JoinsApart(p, q);
    }
    TailsEnd(p, q);
    TailsEnd(q, p);
    hide EndsWith, Join;
  }

  lemma TailsEnd(p: seq<string>, q: seq<string>)
    requires Segments(p) && Segments(q)
    ensures EndsWith(Join(p), "::" + Join(q)) <==> |q| < |p| && SuffixOf(q, p)
    ensures |p| == |q| && SuffixOf(q, p) ==> p == q
  {
    var tail := "::" + Join(q);
    if EndsWith(Join(p), tail) {
      var head := Join(p)[..|Join(p)| - |tail|];
      assert Join(p) == head + tail == head + "::" + Join(q);
      TailIsSuffix(p, q, head);
    }
    if |q| < |p| && SuffixOf(q, p) {
      SuffixIsTail(p, q);
    }
  }

  predicate IsElement(key: Key) { '[' in key.text }

  predicate IsWhole(o: Key, base: string) {
    !IsElement(o) && TailsMatch(o.text, base)
  }

  // A key is the whole array of a base exactly when it is no element and the
  // segments of one end in those of the other.
  lemma WholeExactly(o: seq<string>, base: seq<string>)
    requires Segments(o) && Segments(base)
    ensures IsWhole(Key(Join(o)), Join(base))
            <==> '[' !in Join(o) && (SuffixOf(o, base) || SuffixOf(base, o))
  {
    TailsMatchExactly(o, base);
    hide Join, SuffixOf, TailsMatch;
  }

  function FirstWhole(order: seq<Key>, base: string): Option<Key> {
    if order == [] then None else if IsWhole(order[0], base) then Some(order[0]) else FirstWhole(order[1..], base)
  }

  // The whole array an element key belongs to.
  function Linked(order: seq<Key>, key: Key): Option<Key> {
    if IsElement(key) then FirstWhole(order, TrimEnd(BeforeBracket(key.text))) else None
  }

  lemma {:induction false} FirstWholeIsWhole(order: seq<Key>, base: string)
    ensures var r := FirstWhole(order, base); r.Some? ==> r.value in order && !IsElement(r.value)
  {
    if order != [] && !IsWhole(order[0], base) {
      FirstWholeIsWhole(order[1..], base);
    }
  }

  // Only elements are linked, and only to whole arrays that were noted.
  lemma LinkedToWhole(order: seq<Key>, key: Key)
    ensures var r := Linked(order, key); r.Some? ==> IsElement(key) && r.value in order && !IsElement(r.value)
  {
    FirstWholeIsWhole(order, TrimEnd(BeforeBracket(key.text)));
  }

  lemma {:induction false} BeforeFirstBracket(base: string, rest: string)
    requires '[' !in base
    ensures BeforeBracket(base + "[" + rest) == base
  {
    var s := base + "[" + rest;
    if base != [] {
      BeforeFirstBracket(base[1..], rest);
      assert s[1..] == base[1..] + "[" + rest;
    }
  }

  // The code points with the Unicode property White_Space.
  lemma WhiteExactly(c: char)
    ensures White(c) <==>
            c in {'\t', '\n', '\U{B}', '\U{C}', '\r', ' ', '\U{85}', '\U{A0}', '\U{1680}', '\U{2028}', '\U{2029}',
              '\U{202F}', '\U{205F}', '\U{3000}'}
            || '\U{2000}' <= c <= '\U{200A}'
  {
  }

  lemma {:induction false} TrimGap(base: string, gap: string)
    requires forall k :: 0 <= k < |gap| ==> White(gap[k])
    requires base == [] || !White(base[|base| - 1])
    ensures TrimEnd(base + gap) == base
    decreases |gap|
  {
    hide White;
    if gap == [] {
      assert base + gap == base;
    } else {
      var less := gap[..|gap| - 1];
      TrimGap(base, less);
      assert (base + gap)[..|base + gap| - 1] == base + less;
    }
  }

  // An element `BASE [..]` is linked to the first key noted that is no element
  // and is BASE, or either's path ends in the other.
  lemma {:induction false} LinkedExactly(order: seq<Key>, base: string, gap: string, rest: string, w: Key)
    requires '[' !in base && '[' !in gap && forall k :: 0 <= k < |gap| ==> White(gap[k])
    requires base == [] || !White(base[|base| - 1])
    ensures Linked(order, Key(base + gap + "[" + rest)) == Some(w)
            <==> exists i :: 0 <= i < |order| && order[i] == w && IsWhole(w, base)
                             && forall j :: 0 <= j < i ==> !IsWhole(order[j], base)
  {
    var text := base + gap + "[" + rest;
    assert text[|base + gap|] == '[';
    BeforeFirstBracket(base + gap, rest);
    TrimGap(base, gap);
    FirstExactly(order, base, w);
    hide IsWhole, FirstWhole, BeforeBracket, TrimEnd, White;
  }

  lemma {:induction false} FirstExactly(order: seq<Key>, base: string, w: Key)
    ensures FirstWhole(order, base) == Some(w)
            <==> exists i :: 0 <= i < |order| && order[i] == w && IsWhole(w, base)
                             && forall j :: 0 <= j < i ==> !IsWhole(order[j], base)
  {
    hide IsWhole;
    if order != [] && !IsWhole(order[0], base) {
      FirstExactly(order[1..], base, w);
      if FirstWhole(order[1..], base) == Some(w) {
        var i :| 0 <= i < |order[1..]| && order[1..][i] == w && IsWhole(w, base)
                 && forall j :: 0 <= j < i ==> !IsWhole(order[1..][j], base);
        assert order[i + 1] == w && forall j :: 0 <= j < i + 1 ==> !IsWhole(order[j], base) by {
          assert forall j :: 0 < j < i + 1 ==> order[j] == order[1..][j - 1];
        }
      }
      if i :| 0 <= i < |order| && order[i] == w && IsWhole(w, base)
              && forall j :: 0 <= j < i ==> !IsWhole(order[j], base) {
        assert i > 0 && order[1..][i - 1] == w;
        assert forall j :: 0 <= j < i - 1 ==> order[1..][j] == order[j + 1];
      }
    }
  }

  function Links(order: seq<Key>, n: nat): seq<Link>
    requires n <= |order|
  {
    if n == 0 then []
    else
      match Linked(order, order[n - 1])
      case Some(whole) => Links(order, n - 1) + [Link(order[n - 1], whole)]
      case None => Links(order, n - 1)
  }

  function Union(dst: seq<Node>, src: seq<Node>): seq<Node>
  {
    if src == [] then dst
    else Add(Union(dst, src[..|src| - 1]), src[|src| - 1])
  }

  lemma {:induction false} UnionHas(dst: seq<Node>, src: seq<Node>, x: Node)
    ensures x in Union(dst, src) <==> x in dst || x in src
  {
    if src != [] {
      assert src == src[..|src| - 1] + [src[|src| - 1]];
      UnionHas(dst, src[..|src| - 1], x);
    }
  }

  function MergeInto(dst: Sides, src: Sides): Sides {
    Sides(Union(dst.writers, src.writers), Union(dst.readers, src.readers), dst.monitor)
  }

  function MergePair(sides: map<Key, Sides>, elem: Key, whole: Key): (r: map<Key, Sides>)
    ensures r.Keys == sides.Keys
  {
    if elem in sides && whole in sides then
      var s := sides[whole := MergeInto(sides[whole], sides[elem])];
      s[elem := MergeInto(s[elem], s[whole])]
    else sides
  }

  ghost predicate Covers(order: seq<Key>, sides: map<Key, Sides>) { forall x :: x in order ==> x in sides }

  // The sides once the first n keys' links are merged, both ways, in order.
  ghost function Merged(order: seq<Key>, n: nat, sides: map<Key, Sides>): (r: map<Key, Sides>)
    requires n <= |order| && Covers(order, sides)
    ensures r.Keys == sides.Keys
  {
    if n == 0 then sides
    else
      var before := Merged(order, n - 1, sides);
      match Linked(order, order[n - 1])
      case Some(whole) => MergePair(before, order[n - 1], whole)
      case None => before
  }

  ghost predicate Joins(links: seq<Link>, sides: map<Key, Sides>) {
    forall l :: l in links ==> l.elem in sides && l.whole in sides && l.elem != l.whole
  }

  ghost function MergedLinks(links: seq<Link>, sides: map<Key, Sides>): (r: map<Key, Sides>)
    requires Joins(links, sides)
    ensures r.Keys == sides.Keys
  {
    if links == [] then sides
    else
      var front, l := links[..|links| - 1], links[|links| - 1];
      MergePair(MergedLinks(front, sides), l.elem, l.whole)
  }

  lemma MergedStep(order: seq<Key>, n: nat, sides: map<Key, Sides>)
    requires 0 < n <= |order| && Covers(order, sides)
    ensures match Linked(order, order[n - 1])
            case Some(whole) =>
              Merged(order, n, sides) == MergePair(Merged(order, n - 1, sides), order[n - 1], whole)
              && Links(order, n) == Links(order, n - 1) + [Link(order[n - 1], whole)]
            case None => Merged(order, n, sides) == Merged(order, n - 1, sides)
                         && Links(order, n) == Links(order, n - 1)
  {
  }

  lemma LinksJoin(order: seq<Key>, n: nat, sides: map<Key, Sides>)
    requires n <= |order| && Covers(order, sides)
    ensures Joins(Links(order, n), sides)
  {
    if n > 0 {
      LinksJoin(order, n - 1, sides);
      LinkedToWhole(order, order[n - 1]);
    }
  }

  lemma MergedLinksStep(links: seq<Link>, l: Link, sides: map<Key, Sides>)
    requires Joins(links + [l], sides)
    ensures Joins(links, sides) && l.elem in sides && l.whole in sides && l.elem != l.whole
    ensures MergedLinks(links + [l], sides) == MergePair(MergedLinks(links, sides), l.elem, l.whole)
  {
    var all := links + [l];
    assert l in all && forall x :: x in links ==> x in all;
    assert all[..|all| - 1] == links && all[|all| - 1] == l;
    hide MergePair;
  }

  lemma NothingMerged(order: seq<Key>, sides: map<Key, Sides>)
    requires Covers(order, sides)
    ensures Joins([], sides) && MergedLinks([], sides) == sides == Merged(order, 0, sides) && Links(order, 0) == []
  {
  }

  lemma {:induction false} LinksMerge(order: seq<Key>, n: nat, sides: map<Key, Sides>)
    requires n <= |order| && Covers(order, sides)
    ensures Joins(Links(order, n), sides) && MergedLinks(Links(order, n), sides) == Merged(order, n, sides)
  {
    hide *;
    NothingMerged(order, sides);
    LinksJoin(order, n, sides);
    if n > 0 {
      LinksMerge(order, n - 1, sides);
      MergedStep(order, n, sides);
      match Linked(order, order[n - 1])
      case Some(whole) => MergedLinksStep(Links(order, n - 1), Link(order[n - 1], whole), sides);
      case None =>
    }
  }

  method MergeBothWays(start: map<Key, Sides>, elem: Key, whole: Key) returns (sides: map<Key, Sides>)
    requires elem in start && whole in start && elem != whole
    ensures sides == MergePair(start, elem, whole)
  {
    sides := start;
    sides := sides[whole := MergeInto(sides[whole], sides[elem])];
    sides := sides[elem := MergeInto(sides[elem], sides[whole])];
  }

  // Link every element noted to its array, then merge the links one by one.
  method Merge(order: seq<Key>, start: map<Key, Sides>) returns (sides: map<Key, Sides>)
    requires Covers(order, start)
    ensures sides == Merged(order, |order|, start)
  {
    hide *;
    var links: seq<Link> := [];
    NothingMerged(order, start);
    var n := 0;
    while n < |order|
      invariant n <= |order| && links == Links(order, n)
    {
      MergedStep(order, n + 1, start);
      match Linked(order, order[n]) {
        case Some(whole) => links := links + [Link(order[n], whole)];
        case None =>
      }
      n := n + 1;
    }
    sides := start;
    LinksMerge(order, |order|, start);
    var i := 0;
    while i < |links|
      invariant i <= |links| && Joins(links[..i], start) && sides == MergedLinks(links[..i], start)
    {
      TakeNext(links, i, start);
      sides := MergeBothWays(sides, links[i].elem, links[i].whole);
      i := i + 1;
    }
    assert links[..i] == links;
  }

  lemma TakeNext(links: seq<Link>, i: nat, sides: map<Key, Sides>)
    requires i < |links| && Joins(links, sides)
    ensures Joins(links[..i], sides) && Joins(links[..i + 1], sides)
    ensures links[i].elem in sides && links[i].whole in sides && links[i].elem != links[i].whole
    ensures MergedLinks(links[..i + 1], sides)
            == MergePair(MergedLinks(links[..i], sides), links[i].elem, links[i].whole)
  {
    assert links[..i + 1] == links[..i] + [links[i]];
    hide MergedLinks, MergePair;
    MergedLinksStep(links[..i], links[i], sides);
  }

  // Whose accesses end up counted for key k: its own; for a whole array its
  // elements'; for an element the array's and those of the elements of that
  // array noted no later than itself.
  ghost predicate Feeds(order: seq<Key>, n: nat, k: Key, f: Key)
    requires n <= |order|
  {
    || f == k
    || if IsElement(k) then exists j :: 0 <= j < n && FeedsElement(order, j, k, f) else ElementBefore(order, n, f, k)
  }

  ghost predicate ElementBefore(order: seq<Key>, n: nat, f: Key, whole: Key)
    requires n <= |order|
  {
    exists i :: 0 <= i < n && order[i] == f && Linked(order, f) == Some(whole)
  }

  ghost predicate FeedsElement(order: seq<Key>, j: nat, k: Key, f: Key)
    requires j < |order|
  {
    && order[j] == k && Linked(order, k).Some?
    && (f == Linked(order, k).value || ElementBefore(order, j + 1, f, Linked(order, k).value))
  }

  ghost predicate In(sides: map<Key, Sides>, k: Key, write: bool, node: Node)
    requires k in sides
  {
    node in if write then sides[k].writers else sides[k].readers
  }

  ghost predicate Sourced(order: seq<Key>, n: nat, sides: map<Key, Sides>, k: Key, write: bool, node: Node)
    requires n <= |order|
  {
    exists f :: Feeds(order, n, k, f) && f in sides && In(sides, f, write, node)
  }

  ghost predicate Distinct(order: seq<Key>) {
    forall i, j :: 0 <= i < j < |order| ==> order[i] != order[j]
  }

  ghost predicate Exact(order: seq<Key>, n: nat, sides: map<Key, Sides>, k: Key, write: bool, node: Node)
    requires n <= |order| && Covers(order, sides) && k in sides
  {
    && (In(Merged(order, n, sides), k, write, node) <==> Sourced(order, n, sides, k, write, node))
    && Merged(order, n, sides)[k].monitor == sides[k].monitor
  }

  lemma {:induction false} MergedExactly(order: seq<Key>, n: nat, sides: map<Key, Sides>, k: Key, write: bool,
                                         node: Node)
    requires n <= |order| && Distinct(order) && Covers(order, sides) && k in sides
    ensures Exact(order, n, sides, k, write, node)
  {
    hide *;
    if n == 0 {
      NothingMergedExactly(order, sides, k, write, node);
    } else {
      var elem := order[n - 1];
      MergedExactly(order, n - 1, sides, k, write, node);
      CoversAt(order, sides, elem);
      LinkedToWhole(order, elem);
      match Linked(order, elem)
      case None =>
        UnlinkedStep(order, n, sides, k, write, node);
      case Some(whole) =>
        CoversAt(order, sides, whole);
        MergedExactly(order, n - 1, sides, whole, write, node);
        MergedExactly(order, n - 1, sides, elem, write, node);
        LinkedStep(order, n, sides, k, write, node);
    }
  }

  lemma CoversAt(order: seq<Key>, sides: map<Key, Sides>, x: Key)
    requires Covers(order, sides) && x in order
    ensures x in sides
  {
  }

  lemma NothingMergedExactly(order: seq<Key>, sides: map<Key, Sides>, k: Key, write: bool, node: Node)
    requires Covers(order, sides) && k in sides
    ensures Exact(order, 0, sides, k, write, node)
  {
    assert Feeds(order, 0, k, k);
  }

  lemma UnlinkedStep(order: seq<Key>, n: nat, sides: map<Key, Sides>, k: Key, write: bool, node: Node)
    requires 0 < n <= |order| && Distinct(order) && Covers(order, sides) && k in sides
    requires Linked(order, order[n - 1]).None? && Exact(order, n - 1, sides, k, write, node)
    ensures Exact(order, n, sides, k, write, node)
  {
    MergedStep(order, n, sides);
    hide Feeds, In, Linked, Merged, Sourced, Distinct;
    SourcedSame(order, n, sides, k, write, node);
  }

  lemma SourcedSame(order: seq<Key>, n: nat, sides: map<Key, Sides>, k: Key, write: bool, node: Node)
    requires 0 < n <= |order| && Distinct(order) && Linked(order, order[n - 1]).None?
    ensures Sourced(order, n, sides, k, write, node) <==> Sourced(order, n - 1, sides, k, write, node)
  {
    hide Feeds, In, Linked, Distinct;
    if Sourced(order, n, sides, k, write, node) {
      var f :| Feeds(order, n, k, f) && f in sides && In(sides, f, write, node);
      FeedsStep(order, n, k, f);
    }
    if Sourced(order, n - 1, sides, k, write, node) {
      var f :| Feeds(order, n - 1, k, f) && f in sides && In(sides, f, write, node);
      FeedsStep(order, n, k, f);
    }
  }

  lemma LinkedStep(order: seq<Key>, n: nat, sides: map<Key, Sides>, k: Key, write: bool, node: Node)
    requires 0 < n <= |order| && Distinct(order) && Covers(order, sides) && k in sides
    requires Linked(order, order[n - 1]).Some? && Exact(order, n - 1, sides, k, write, node)
    requires Linked(order, order[n - 1]).value in sides
    requires Exact(order, n - 1, sides, order[n - 1], write, node)
    requires Exact(order, n - 1, sides, Linked(order, order[n - 1]).value, write, node)
    ensures Exact(order, n, sides, k, write, node)
  {
    LinkedToWhole(order, order[n - 1]);
    MergedStep(order, n, sides);
    hide Feeds, In, Linked, Merged, Sourced, Distinct, MergePair;
    MergePairIn(Merged(order, n - 1, sides), order[n - 1], Linked(order, order[n - 1]).value, k, write, node);
    SourcedStep(order, n, sides, k, write, node);
  }

  lemma MergePairIn(sides: map<Key, Sides>, elem: Key, whole: Key, k: Key, write: bool, node: Node)
    requires elem in sides && whole in sides && k in sides && elem != whole
    ensures MergePair(sides, elem, whole)[k].monitor == sides[k].monitor
    ensures In(MergePair(sides, elem, whole), k, write, node)
            <==> (In(sides, k, write, node)
                  || (k == whole && In(sides, elem, write, node))
                  || (k == elem && In(sides, whole, write, node)))
  {
    UnionHas(sides[whole].writers, sides[elem].writers, node);
    UnionHas(sides[whole].readers, sides[elem].readers, node);
    var w := MergeInto(sides[whole], sides[elem]);
    UnionHas(sides[elem].writers, w.writers, node);
    UnionHas(sides[elem].readers, w.readers, node);
    hide Union;
  }

  // What the n-th key's link adds to what feeds k.
  ghost predicate FeedsGrows(order: seq<Key>, n: nat, k: Key, f: Key)
    requires 0 < n <= |order|
  {
    var elem := order[n - 1];
    Feeds(order, n, k, f)
    <==> (Feeds(order, n - 1, k, f)
          || (Linked(order, elem) == Some(k) && f == elem)
          || (k == elem && Linked(order, elem).Some? && Feeds(order, n - 1, Linked(order, elem).value, f)))
  }

  lemma BeforeStep(order: seq<Key>, n: nat, f: Key, w: Key)
    requires 0 < n <= |order|
    ensures ElementBefore(order, n, f, w)
            <==> (ElementBefore(order, n - 1, f, w) || (order[n - 1] == f && Linked(order, f) == Some(w)))
  {
    hide Linked;
  }

  lemma NotYet(order: seq<Key>, n: nat, f: Key)
    requires 0 < n <= |order| && Distinct(order) && IsElement(order[n - 1])
    ensures Feeds(order, n - 1, order[n - 1], f) <==> f == order[n - 1]
  {
    hide Linked;
  }

  lemma FeedsStep(order: seq<Key>, n: nat, k: Key, f: Key)
    requires 0 < n <= |order| && Distinct(order)
    ensures FeedsGrows(order, n, k, f)
  {
    var elem := order[n - 1];
    var link := Linked(order, elem);
    hide Linked;
    LinkedToWhole(order, elem);
    if !IsElement(k) {
      BeforeStep(order, n, f, k);
    } else if k == elem {
      NotYet(order, n, f);
      if link.Some? {
        BeforeStep(order, n, f, link.value);
        assert Feeds(order, n, k, f) <==> (f == k || FeedsElement(order, n - 1, k, f)) by { LastElement(order, n, f); }
      } else {
        LastElement(order, n, f);
      }
    } else {
      OtherElement(order, n, k, f);
    }
  }

  lemma LastElement(order: seq<Key>, n: nat, f: Key)
    requires 0 < n <= |order| && Distinct(order) && IsElement(order[n - 1])
    ensures Feeds(order, n, order[n - 1], f) <==> (f == order[n - 1] || FeedsElement(order, n - 1, order[n - 1], f))
  {
    hide Linked, ElementBefore;
  }

  lemma OtherElement(order: seq<Key>, n: nat, k: Key, f: Key)
    requires 0 < n <= |order| && IsElement(k) && k != order[n - 1]
    ensures Feeds(order, n, k, f) <==> Feeds(order, n - 1, k, f)
  {
    hide Linked, ElementBefore;
  }

  lemma SourcedStep(order: seq<Key>, n: nat, sides: map<Key, Sides>, k: Key, write: bool, node: Node)
    requires 0 < n <= |order| && Distinct(order) && Linked(order, order[n - 1]).Some?
    requires order[n - 1] in sides
    ensures var elem, whole := order[n - 1], Linked(order, order[n - 1]).value;
            Sourced(order, n, sides, k, write, node)
            <==> (Sourced(order, n - 1, sides, k, write, node)
                  || (k == whole && Sourced(order, n - 1, sides, elem, write, node))
                  || (k == elem && Sourced(order, n - 1, sides, whole, write, node)))
  {
    var elem, whole := order[n - 1], Linked(order, order[n - 1]).value;
    forall f
      ensures FeedsGrows(order, n, k, f)
    {
      FeedsStep(order, n, k, f);
    }
    hide Feeds, In, Linked;
    if Sourced(order, n, sides, k, write, node) {
      var f :| Feeds(order, n, k, f) && f in sides && In(sides, f, write, node);
      assert FeedsGrows(order, n, k, f);
      NotYet(order, n, elem);
    }
    if k == whole && Sourced(order, n - 1, sides, elem, write, node) {
      var f :| Feeds(order, n - 1, elem, f) && f in sides && In(sides, f, write, node);
      NotYet(order, n, f);
      assert FeedsGrows(order, n, k, elem);
    }
    if k == elem && Sourced(order, n - 1, sides, whole, write, node) {
      var f :| Feeds(order, n - 1, whole, f) && f in sides && In(sides, f, write, node);
      assert FeedsGrows(order, n, k, f);
    }
    if Sourced(order, n - 1, sides, k, write, node) {
      var f :| Feeds(order, n - 1, k, f) && f in sides && In(sides, f, write, node);
      assert FeedsGrows(order, n, k, f);
    }
  }

  // -------------------------------------------------------------- reporting

  function StripCrate(s: string): string {
    if "crate::" <= s then s[|"crate::"|..] else s
  }

  predicate AllowMatches(key: Key, allowed: string) {
    var k, a := StripCrate(key.text), StripCrate(allowed);
    TailsMatch(k, a)
  }

  // A path without a leading `crate` that is not all of it.
  function NoCrate(p: seq<string>): seq<string> { if |p| > 1 && p[0] == "crate" then p[1..] else p }

  lemma {:induction false} JoinHead(p: seq<string>)
    requires Segments(p) && |p| > 1
    ensures Segments(p[1..]) && Join(p) == p[0] + "::" + Join(p[1..])
    decreases |p|
  {
    JoinCut(p);
    if |p| == 2 {
      assert p[..1] == [p[0]] && p[1..] == [p[1]];
    } else {
      var front := p[..|p| - 1];
      JoinHead(front);
      JoinCut(p[1..]);
      assert front[1..] == p[1..][..|p[1..]| - 1];
      assert Join(p) == (p[0] + "::" + Join(front[1..])) + "::" + p[|p| - 1];
    }
  }

  lemma StripsCrate(p: seq<string>)
    requires Segments(p)
    ensures Segments(NoCrate(p)) && StripCrate(Join(p)) == Join(NoCrate(p))
  {
    var s := Join(p);
    if |p| == 1 {
      assert "crate::"[5] == ':';
    } else {
      JoinHead(p);
      FirstCut(p[0], Join(p[1..]));
    }
  }

  lemma FirstCut(s: string, rest: string)
    requires ':' !in s
    ensures "crate::" <= s + "::" + rest <==> s == "crate"
    ensures (s + "::" + rest)[|s| + 2..] == rest
  {
    var x := s + "::" + rest;
    assert x[|s|] == ':' && forall k :: 0 <= k < |s| ==> x[k] == s[k];
    assert "crate::"[5] == ':' && forall k :: 0 <= k < 5 ==> "crate::"[k] != ':';
    assert "crate::" <= x ==> |s| == 5;
    assert "crate::"[..5] == "crate" && x[..|s|] == s;
  }

  // An allow entry matches a key exactly when, a leading `crate` aside, the
  // segments of one end in those of the other.
  lemma AllowMatchesExactly(key: seq<string>, allowed: seq<string>)
    requires Segments(key) && Segments(allowed)
    ensures AllowMatches(Key(Join(key)), Join(allowed))
            <==> SuffixOf(NoCrate(key), NoCrate(allowed)) || SuffixOf(NoCrate(allowed), NoCrate(key))
  {
    StripsCrate(key);
    StripsCrate(allowed);
    TailsMatchExactly(NoCrate(key), NoCrate(allowed));
    hide StripCrate, Join, SuffixOf, TailsMatch, NoCrate;
  }

  lemma JoinTwo(s: string, t: string)
    ensures Join([s]) == s && Join([s, t]) == s + "::" + t
  {
    assert [s, t][..1] == [s];
  }

  // So part of a segment matches nothing: an entry `TEMP` matches
  // `crate::TEMP` and not `crate::OVERTEMP`.
  lemma PartialNameUnmatched()
    ensures !AllowMatches(Key("crate" + "::" + "OVERTEMP"), "TEMP")
    ensures AllowMatches(Key("crate" + "::" + "TEMP"), "TEMP")
  {
    var k, a, t := ["crate", "OVERTEMP"], ["crate", "TEMP"], ["TEMP"];
    JoinTwo("crate", "OVERTEMP");
    JoinTwo("crate", "TEMP");
    JoinTwo("TEMP", "");
    assert "OVERTEMP"[0] != "TEMP"[0];
    hide AllowMatches, Join;
    AllowMatchesExactly(k, t);
    AllowMatchesExactly(a, t);
    assert k[1..] == ["OVERTEMP"] && a[1..] == ["TEMP"] && t[0..] == t;
  }

  // A leading `crate::` makes no difference on either side, and a path matches
  // any shorter tail of itself.
  lemma AllowIgnoresCrate(text: string, allowed: string)
    requires !("crate::" <= text) && !("crate::" <= allowed)
    ensures AllowMatches(Key("crate::" + text), allowed) == AllowMatches(Key(text), allowed)
    ensures AllowMatches(Key(text), "crate::" + allowed) == AllowMatches(Key(text), allowed)
  {
    assert StripCrate("crate::" + text) == text && StripCrate("crate::" + allowed) == allowed;
    hide StripCrate, EndsWith;
    NothingStripped(text);
    NothingStripped(allowed);
  }

  lemma NothingStripped(s: string)
    requires !("crate::" <= s)
    ensures StripCrate(s) == s
  {
  }

  lemma AllowMatchesTail(head: string, tail: string)
    requires !("crate::" <= head + "::" + tail) && !("crate::" <= tail)
    ensures AllowMatches(Key(head + "::" + tail), tail) && AllowMatches(Key(tail), head + "::" + tail)
  {
    var s, t := head + "::" + tail, "::" + tail;
    assert s == head + t && s[|s| - |t|..] == t;
  }

  // The first entry of the allow list that matches a key.
  function FirstAllow(allow: seq<string>, key: Key, i: nat): (r: Option<nat>)
    requires i <= |allow|
    ensures r.None? <==> forall j :: i <= j < |allow| ==> !AllowMatches(key, allow[j])
    ensures r.Some? ==> i <= r.value < |allow| && AllowMatches(key, allow[r.value])
    decreases |allow| - i
  {
    if i == |allow| then None else if AllowMatches(key, allow[i]) then Some(i) else FirstAllow(allow, key, i + 1)
  }

  predicate IsOrphan(cats: Categories, s: Sides) { cats.orphanReads && s.writers == [] && s.readers != [] }

  predicate IsDead(cats: Categories, s: Sides) {
    cats.deadWrites && s.readers == [] && s.writers != [] && !s.monitor
  }

  function Verdict(cats: Categories, key: Key, s: Sides): seq<Warning> {
    (if IsOrphan(cats, s) then [OrphanRead(key, s.readers)] else [])
    + (if IsDead(cats, s) then [DeadWrite(key, s.writers)] else [])
  }

  ghost function Reported(order: seq<Key>, n: nat, sides: map<Key, Sides>, cats: Categories,
                          allow: seq<string>): seq<Warning>
    requires n <= |order| && Covers(order, sides)
  {
    if n == 0 then []
    else
      var k := order[n - 1];
      Reported(order, n - 1, sides, cats, allow)
      + if FirstAllow(allow, k, 0).Some? then [] else Verdict(cats, k, sides[k])
  }

  ghost predicate Suppresses(order: seq<Key>, n: nat, sides: map<Key, Sides>, cats: Categories, allow: seq<string>,
                             i: nat)
    requires n <= |order| && Covers(order, sides)
  {
    exists j :: 0 <= j < n && SuppressedAt(order, j, sides, cats, allow, i)
  }

  ghost predicate SuppressedAt(order: seq<Key>, j: nat, sides: map<Key, Sides>, cats: Categories, allow: seq<string>,
                               i: nat)
    requires j < |order| && Covers(order, sides)
  {
    var s := sides[order[j]];
    (IsOrphan(cats, s) || IsDead(cats, s)) && FirstAllow(allow, order[j], 0) == Some(i)
  }

  method Report(order: seq<Key>, sides: map<Key, Sides>, cats: Categories, allow: seq<string>, hits: array<bool>)
    returns (warnings: seq<Warning>)
    requires Covers(order, sides) && hits.Length == |allow|
    modifies hits
    ensures warnings == Reported(order, |order|, sides, cats, allow)
    ensures forall i :: 0 <= i < hits.Length ==>
            (hits[i] <==> old(hits[i]) || Suppresses(order, |order|, sides, cats, allow, i))
  {
    hide *;
    NothingReported(order, sides, cats, allow);
    warnings := [];
    var n := 0;
    while n < |order|
      invariant n <= |order| && warnings == Reported(order, n, sides, cats, allow)
      invariant forall i :: 0 <= i < hits.Length ==>
                (hits[i] <==> old(hits[i]) || Suppresses(order, n, sides, cats, allow, i))
    {
      var key := order[n];
      CoversAt(order, sides, key);
      var s := sides[key];
      var orphan, dead := IsOrphan(cats, s), IsDead(cats, s);
      ReportStep(order, n, sides, cats, allow);
      SuppressesStep(order, n, sides, cats, allow);
      if orphan || dead {
        var first := FirstAllow(allow, key, 0);
        if first.Some? {
          hits[first.value] := true;
        } else {
          if orphan {
            warnings := warnings + [OrphanRead(key, s.readers)];
          }
          if dead {
            warnings := warnings + [DeadWrite(key, s.writers)];
          }
        }
      }
      n := n + 1;
    }
  }

  lemma NothingReported(order: seq<Key>, sides: map<Key, Sides>, cats: Categories, allow: seq<string>)
    requires Covers(order, sides)
    ensures Reported(order, 0, sides, cats, allow) == []
    ensures forall i :: !Suppresses(order, 0, sides, cats, allow, i)
  {
  }

  lemma ReportStep(order: seq<Key>, n: nat, sides: map<Key, Sides>, cats: Categories, allow: seq<string>)
    requires n < |order| && Covers(order, sides)
    ensures var k := order[n];
            var (before, after) := (Reported(order, n, sides, cats, allow), Reported(order, n + 1, sides, cats, allow));
            if FirstAllow(allow, k, 0).Some? then after == before
            else if IsOrphan(cats, sides[k])
            then !IsDead(cats, sides[k]) && after == before + [OrphanRead(k, sides[k].readers)]
            else if IsDead(cats, sides[k]) then after == before + [DeadWrite(k, sides[k].writers)]
            else after == before
  {
    hide FirstAllow;
  }

  lemma SuppressesStep(order: seq<Key>, n: nat, sides: map<Key, Sides>, cats: Categories, allow: seq<string>)
    requires n < |order| && Covers(order, sides)
    ensures var s := sides[order[n]];
            forall i: nat :: Suppresses(order, n + 1, sides, cats, allow, i)
              <==> (Suppresses(order, n, sides, cats, allow, i)
                    || ((IsOrphan(cats, s) || IsDead(cats, s)) && FirstAllow(allow, order[n], 0) == Some(i)))
  {
    hide FirstAllow, IsOrphan, IsDead, Covers;
    CoversAt(order, sides, order[n]);
    forall i: nat
      ensures SuppressedAt(order, n, sides, cats, allow, i)
              <==> ((IsOrphan(cats, sides[order[n]]) || IsDead(cats, sides[order[n]]))
                   && FirstAllow(allow, order[n], 0) == Some(i))
    {
    }
  }

  ghost function Final(notes: seq<Note>): (r: map<Key, Sides>)
    ensures Covers(Order(notes), r)
  {
    Merged(Order(notes), |Order(notes)|, Table(notes))
  }

  ghost function GraphWarnings(notes: seq<Note>, cats: Categories, allow: seq<string>): seq<Warning> {
    Reported(Order(notes), |Order(notes)|, Final(notes), cats, allow)
  }

  ghost predicate GraphSuppresses(notes: seq<Note>, cats: Categories, allow: seq<string>, i: nat) {
    Suppresses(Order(notes), |Order(notes)|, Final(notes), cats, allow, i)
  }

  method LintGraph(notes: seq<Note>, cats: Categories, allow: seq<string>, hits: array<bool>)
    returns (warnings: seq<Warning>)
    requires hits.Length == |allow|
    modifies hits
    ensures warnings == GraphWarnings(notes, cats, allow)
    ensures forall i :: 0 <= i < hits.Length ==> (hits[i] <==> old(hits[i]) || GraphSuppresses(notes, cats, allow, i))
  {
    hide Reported, Suppresses, Merged, Order;
    var order, sides := Collect(notes);
    sides := Merge(order, sides);
    warnings := Report(order, sides, cats, allow, hits);
  }

  ghost function AllWarnings(graphs: seq<seq<Note>>, cats: Categories, allow: seq<string>): seq<Warning> {
    if graphs == [] then []
    else AllWarnings(graphs[..|graphs| - 1], cats, allow) + GraphWarnings(graphs[|graphs| - 1], cats, allow)
  }

  ghost predicate AnySuppresses(graphs: seq<seq<Note>>, cats: Categories, allow: seq<string>, i: nat) {
    exists g :: 0 <= g < |graphs| && GraphSuppresses(graphs[g], cats, allow, i)
  }

  // The stale entries among the first n.
  ghost function Stales(graphs: seq<seq<Note>>, cats: Categories, allow: seq<string>, n: nat): seq<Warning> {
    if n == 0 then []
    else Stales(graphs, cats, allow, n - 1) + if AnySuppresses(graphs, cats, allow, n - 1) then [] else [Stale(n - 1)]
  }

  method DataflowLints(graphs: seq<seq<Note>>, cats: Categories, allow: seq<string>) returns (warnings: seq<Warning>)
    ensures warnings == AllWarnings(graphs, cats, allow) + Stales(graphs, cats, allow, |allow|)
  {
    hide GraphWarnings, GraphSuppresses;
    warnings := [];
    var hits := new bool[|allow|](_ => false);
    var g := 0;
    while g < |graphs|
      invariant g <= |graphs| && warnings == AllWarnings(graphs[..g], cats, allow)
      invariant forall i :: 0 <= i < hits.Length ==> (hits[i] <==> AnySuppresses(graphs[..g], cats, allow, i))
    {
      ghost var before := hits[..];
      var found := LintGraph(graphs[g], cats, allow, hits);
      warnings := warnings + found;
      assert graphs[..g + 1] == graphs[..g] + [graphs[g]] && graphs[..g + 1][..g] == graphs[..g];
      forall i: nat
        ensures AnySuppresses(graphs[..g + 1], cats, allow, i)
                <==> (AnySuppresses(graphs[..g], cats, allow, i) || GraphSuppresses(graphs[g], cats, allow, i))
      {
        AnyStep(graphs, g, cats, allow, i);
      }
      hide AnySuppresses;
      assert forall i :: 0 <= i < hits.Length ==>
             (hits[i] <==> before[i] || GraphSuppresses(graphs[g], cats, allow, i));
      g := g + 1;
    }
    assert graphs[..g] == graphs;
    hide AnySuppresses;
    ghost var all := warnings;
    var i := 0;
    while i < |allow|
      invariant i <= |allow| && warnings == all + Stales(graphs, cats, allow, i)
    {
      if !hits[i] {
        warnings := warnings + [Stale(i)];
      }
      i := i + 1;
    }
  }

  lemma AnyStep(graphs: seq<seq<Note>>, g: nat, cats: Categories, allow: seq<string>, i: nat)
    requires g < |graphs|
    ensures AnySuppresses(graphs[..g + 1], cats, allow, i)
            <==> (AnySuppresses(graphs[..g], cats, allow, i) || GraphSuppresses(graphs[g], cats, allow, i))
  {
    hide GraphSuppresses;
    if AnySuppresses(graphs[..g], cats, allow, i) {
      var h :| 0 <= h < g && GraphSuppresses(graphs[..g][h], cats, allow, i);
      assert graphs[..g + 1][h] == graphs[..g][h];
    }
    if GraphSuppresses(graphs[g], cats, allow, i) {
      assert graphs[..g + 1][g] == graphs[g];
    }
    if AnySuppresses(graphs[..g + 1], cats, allow, i) {
      var h :| 0 <= h < g + 1 && GraphSuppresses(graphs[..g + 1][h], cats, allow, i);
      assert h < g ==> graphs[..g][h] == graphs[..g + 1][h];
    }
  }

  // ---------------------------------------------------------------- results

  // Some access of this kind counts for key k; by this node.
  ghost predicate Reach(notes: seq<Note>, k: Key, write: bool) {
    exists n :: n in notes && n.write == write && Counts(notes, k, n.key)
  }

  ghost predicate ReachBy(notes: seq<Note>, k: Key, write: bool, node: Node) {
    exists n :: n in notes && n.write == write && n.node == node && Counts(notes, k, n.key)
  }

  ghost predicate Counts(notes: seq<Note>, k: Key, f: Key) { Feeds(Order(notes), |Order(notes)|, k, f) }

  // The merged sides name exactly the nodes whose accesses count for a key,
  // and only a key's own notes make it consumed by the monitor.
  lemma FinalExactly(notes: seq<Note>, k: Key, write: bool, node: Node)
    requires k in Order(notes)
    ensures k in Final(notes) && (In(Final(notes), k, write, node) <==> ReachBy(notes, k, write, node))
    ensures Final(notes)[k].monitor <==> Monitored(notes, k)
  {
    var order, table := Order(notes), Table(notes);
    OrderHolds(notes, k);
    MergedExactly(order, |order|, table, k, write, node);
    assert Final(notes) == Merged(order, |order|, table);
    SourcedByNote(notes, k, write, node);
    hide Sourced, Merged, Order, In, ReachBy;
  }

  lemma SourcedByNote(notes: seq<Note>, k: Key, write: bool, node: Node)
    ensures Sourced(Order(notes), |Order(notes)|, Table(notes), k, write, node) <==> ReachBy(notes, k, write, node)
  {
    hide Feeds, Order, Names;
    var order, table := Order(notes), Table(notes);
    if Sourced(order, |order|, table, k, write, node) {
      var f :| Feeds(order, |order|, k, f) && f in table && In(table, f, write, node);
      NamesAreNoted(notes, f, write, node);
      var n :| n in notes && n.key == f && n.write == write && n.node == node;
      assert Counts(notes, k, n.key);
    }
    if ReachBy(notes, k, write, node) {
      var n :| n in notes && n.write == write && n.node == node && Counts(notes, k, n.key);
      OrderHolds(notes, n.key);
      NamesAreNoted(notes, n.key, write, node);
      assert In(table, n.key, write, node);
    }
  }

  lemma EmptyExactly(notes: seq<Note>, k: Key)
    requires k in Order(notes)
    ensures k in Final(notes)
    ensures Final(notes)[k].writers == [] <==> !Reach(notes, k, true)
    ensures Final(notes)[k].readers == [] <==> !Reach(notes, k, false)
    ensures Final(notes)[k].monitor <==> Monitored(notes, k)
  {
    hide Final, Order, Counts, Monitored;
    forall write, node
      ensures k in Final(notes) && (In(Final(notes), k, write, node) <==> ReachBy(notes, k, write, node))
      ensures Final(notes)[k].monitor <==> Monitored(notes, k)
    {
      FinalExactly(notes, k, write, node);
    }
    FinalExactly(notes, k, true, Node(""));
    var s := Final(notes)[k];
    forall write
      ensures (if write then s.writers else s.readers) == [] <==> !Reach(notes, k, write)
    {
      var list := if write then s.writers else s.readers;
      NoMembers(list);
      if list != [] {
        assert In(Final(notes), k, write, list[0]);
      }
      if Reach(notes, k, write) {
        var n :| n in notes && n.write == write && Counts(notes, k, n.key);
        assert In(Final(notes), k, write, n.node) <==> ReachBy(notes, k, write, n.node);
      }
    }
  }

  ghost predicate WouldOrphan(notes: seq<Note>, cats: Categories, k: Key) {
    cats.orphanReads && k in Order(notes) && Reach(notes, k, false) && !Reach(notes, k, true)
  }

  ghost predicate WouldDie(notes: seq<Note>, cats: Categories, k: Key) {
    cats.deadWrites && k in Order(notes) && Reach(notes, k, true) && !Reach(notes, k, false) && !Monitored(notes, k)
  }

  ghost predicate Unallowed(allow: seq<string>, k: Key) {
    forall i :: 0 <= i < |allow| ==> !AllowMatches(k, allow[i])
  }

  lemma VerdictExactly(notes: seq<Note>, cats: Categories, k: Key)
    requires k in Order(notes)
    ensures k in Final(notes)
    ensures IsOrphan(cats, Final(notes)[k]) <==> WouldOrphan(notes, cats, k)
    ensures IsDead(cats, Final(notes)[k]) <==> WouldDie(notes, cats, k)
  {
    hide Final, Order, Reach, Monitored;
    EmptyExactly(notes, k);
  }

  ghost predicate WarnsAt(order: seq<Key>, j: nat, sides: map<Key, Sides>, cats: Categories, allow: seq<string>,
                          w: Warning)
    requires j < |order| && Covers(order, sides)
  {
    FirstAllow(allow, order[j], 0).None? && w in Verdict(cats, order[j], sides[order[j]])
  }

  lemma ReportedGrows(order: seq<Key>, n: nat, sides: map<Key, Sides>, cats: Categories, allow: seq<string>, w: Warning)
    requires n < |order| && Covers(order, sides)
    ensures w !in Reported(order, 0, sides, cats, allow)
    ensures w in Reported(order, n + 1, sides, cats, allow)
            <==> (w in Reported(order, n, sides, cats, allow) || WarnsAt(order, n, sides, cats, allow, w))
  {
    hide FirstAllow, Verdict;
  }

  lemma {:induction false} ReportedExactly(order: seq<Key>, n: nat, sides: map<Key, Sides>, cats: Categories,
                                           allow: seq<string>, w: Warning)
    requires n <= |order| && Covers(order, sides)
    ensures w in Reported(order, n, sides, cats, allow)
            <==> exists j :: 0 <= j < n && WarnsAt(order, j, sides, cats, allow, w)
  {
    hide *;
    if n == 0 {
      NothingReported(order, sides, cats, allow);
    } else {
      ReportedGrows(order, n - 1, sides, cats, allow, w);
      ReportedExactly(order, n - 1, sides, cats, allow, w);
    }
  }

  // An orphan read is reported for a key exactly when an access that counts
  // for it reads, none writes, and no allow entry matches; the report names
  // exactly the readers.
  lemma OrphanExactly(notes: seq<Note>, cats: Categories, allow: seq<string>, k: Key)
    ensures (exists readers :: OrphanRead(k, readers) in GraphWarnings(notes, cats, allow))
            <==> (WouldOrphan(notes, cats, k) && Unallowed(allow, k))
    ensures forall readers, node :: OrphanRead(k, readers) in GraphWarnings(notes, cats, allow)
                                    ==> (node in readers <==> ReachBy(notes, k, false, node))
  {
    WarningsExactly(notes, cats, allow, k);
    hide *;
    if WouldOrphan(notes, cats, k) && Unallowed(allow, k) {
      assert OrphanRead(k, Final(notes)[k].readers) in GraphWarnings(notes, cats, allow);
    }
    forall readers, node | OrphanRead(k, readers) in GraphWarnings(notes, cats, allow)
      ensures node in readers <==> ReachBy(notes, k, false, node)
    {
      ReadersExactly(notes, k, node);
    }
  }

  lemma DeadExactly(notes: seq<Note>, cats: Categories, allow: seq<string>, k: Key)
    ensures (exists writers :: DeadWrite(k, writers) in GraphWarnings(notes, cats, allow))
            <==> (WouldDie(notes, cats, k) && Unallowed(allow, k))
    ensures forall writers, node :: DeadWrite(k, writers) in GraphWarnings(notes, cats, allow)
                                    ==> (node in writers <==> ReachBy(notes, k, true, node))
  {
    WarningsExactly(notes, cats, allow, k);
    hide *;
    if WouldDie(notes, cats, k) && Unallowed(allow, k) {
      assert DeadWrite(k, Final(notes)[k].writers) in GraphWarnings(notes, cats, allow);
    }
    forall writers, node | DeadWrite(k, writers) in GraphWarnings(notes, cats, allow)
      ensures node in writers <==> ReachBy(notes, k, true, node)
    {
      ReadersExactly(notes, k, node);
    }
  }

  lemma ReadersExactly(notes: seq<Note>, k: Key, node: Node)
    requires k in Order(notes)
    ensures k in Final(notes)
    ensures node in Final(notes)[k].readers <==> ReachBy(notes, k, false, node)
    ensures node in Final(notes)[k].writers <==> ReachBy(notes, k, true, node)
  {
    hide Final, Order, ReachBy;
    FinalExactly(notes, k, false, node);
    FinalExactly(notes, k, true, node);
  }

  lemma WarningsExactly(notes: seq<Note>, cats: Categories, allow: seq<string>, k: Key)
    ensures forall list :: OrphanRead(k, list) in GraphWarnings(notes, cats, allow)
                           <==> (k in Order(notes) && WouldOrphan(notes, cats, k) && Unallowed(allow, k)
                                && k in Final(notes) && list == Final(notes)[k].readers)
    ensures forall list :: DeadWrite(k, list) in GraphWarnings(notes, cats, allow)
                           <==> (k in Order(notes) && WouldDie(notes, cats, k) && Unallowed(allow, k)
                                && k in Final(notes) && list == Final(notes)[k].writers)
    ensures WouldOrphan(notes, cats, k) || WouldDie(notes, cats, k) ==> k in Order(notes) && k in Final(notes)
  {
    hide *;
    forall w: Warning | w.OrphanRead? || w.DeadWrite?
      ensures w in GraphWarnings(notes, cats, allow)
              <==> (w.key in Order(notes) && Unallowed(allow, w.key) && w.key in Final(notes)
                   && w in Verdict(cats, w.key, Final(notes)[w.key]))
    {
      WarningExactly(notes, cats, allow, w);
    }
    if k in Order(notes) {
      VerdictExactly(notes, cats, k);
      VerdictHas(cats, k, Final(notes)[k]);
    }
    WouldIsOrdered(notes, cats, k);
  }

  lemma WouldIsOrdered(notes: seq<Note>, cats: Categories, k: Key)
    ensures WouldOrphan(notes, cats, k) || WouldDie(notes, cats, k) ==> k in Order(notes)
  {
  }

  lemma VerdictHas(cats: Categories, k: Key, s: Sides)
    ensures forall list :: OrphanRead(k, list) in Verdict(cats, k, s) <==> IsOrphan(cats, s) && list == s.readers
    ensures forall list :: DeadWrite(k, list) in Verdict(cats, k, s) <==> IsDead(cats, s) && list == s.writers
  {
  }

  lemma WarningExactly(notes: seq<Note>, cats: Categories, allow: seq<string>, w: Warning)
    requires w.OrphanRead? || w.DeadWrite?
    ensures w in GraphWarnings(notes, cats, allow)
            <==> (w.key in Order(notes) && Unallowed(allow, w.key) && w.key in Final(notes)
                 && w in Verdict(cats, w.key, Final(notes)[w.key]))
  {
    var order, final := Order(notes), Final(notes);
    ReportedExactly(order, |order|, final, cats, allow, w);
    assert Covers(order, final);
    hide Order, Final, Reported;
    forall j | 0 <= j < |order|
      ensures order[j] in final
      ensures WarnsAt(order, j, final, cats, allow, w)
              <==> (w.key == order[j] && Unallowed(allow, w.key) && w in Verdict(cats, w.key, final[w.key]))
    {
    }
  }

  // A key, the whole array it is an element of, and the elements linked to it
  // or to that array.
  ghost predicate InStar(order: seq<Key>, k: Key, f: Key) {
    || f == k
    || Linked(order, f) == Some(k)
    || (Linked(order, k).Some? && (f == Linked(order, k).value || Linked(order, f) == Linked(order, k)))
  }

  lemma CountsWithinStar(notes: seq<Note>, k: Key, f: Key)
    requires Counts(notes, k, f)
    ensures InStar(Order(notes), k, f)
  {
    hide Linked, Order;
  }

  lemma DirectCounts(notes: seq<Note>, k: Key, f: Key)
    requires k in Order(notes) && f in Order(notes)
    requires f == k || Linked(Order(notes), k) == Some(f) || Linked(Order(notes), f) == Some(k)
    ensures Counts(notes, k, f)
  {
    var order := Order(notes);
    hide Linked, Order;
    LinkedToWhole(order, k);
    LinkedToWhole(order, f);
    if Linked(order, k) == Some(f) {
      var j :| 0 <= j < |order| && order[j] == k;
      assert FeedsElement(order, j, k, f);
    } else if Linked(order, f) == Some(k) {
      var i :| 0 <= i < |order| && order[i] == f;
      assert ElementBefore(order, |order|, f, k);
    }
  }

  ghost predicate Accessed(notes: seq<Note>, f: Key, write: bool) {
    exists n :: n in notes && n.key == f && n.write == write
  }

  lemma AccessedBy(notes: seq<Note>, n: Note)
    requires n in notes
    ensures Accessed(notes, n.key, n.write)
  {
  }

  // An orphan read means no write on the key, on its whole array, or on an
  // element of it when it is one.
  lemma OrphanSound(notes: seq<Note>, cats: Categories, allow: seq<string>, k: Key, readers: seq<Node>, f: Key)
    requires OrphanRead(k, readers) in GraphWarnings(notes, cats, allow)
    requires f == k || Linked(Order(notes), k) == Some(f) || Linked(Order(notes), f) == Some(k)
    ensures !Accessed(notes, f, true)
  {
    OrphanExactly(notes, cats, allow, k);
    OrderHolds(notes, f);
    if Accessed(notes, f, true) {
      DirectCounts(notes, k, f);
    }
    hide Order, Linked, Counts, GraphWarnings;
  }

  // A read key with no write anywhere around its array is reported.
  lemma OrphanComplete(notes: seq<Note>, cats: Categories, allow: seq<string>, k: Key)
    requires cats.orphanReads && Accessed(notes, k, false) && Unallowed(allow, k)
    requires forall f :: InStar(Order(notes), k, f) ==> !Accessed(notes, f, true)
    ensures exists readers :: OrphanRead(k, readers) in GraphWarnings(notes, cats, allow)
  {
    OrphanExactly(notes, cats, allow, k);
    OrderHolds(notes, k);
    DirectCounts(notes, k, k);
    hide Order, Linked, Counts, GraphWarnings, InStar, Unallowed;
    if Reach(notes, k, true) {
      var n :| n in notes && n.write && Counts(notes, k, n.key);
      CountsWithinStar(notes, k, n.key);
      AccessedBy(notes, n);
    }
  }

  lemma DeadSound(notes: seq<Note>, cats: Categories, allow: seq<string>, k: Key, writers: seq<Node>, f: Key)
    requires DeadWrite(k, writers) in GraphWarnings(notes, cats, allow)
    requires f == k || Linked(Order(notes), k) == Some(f) || Linked(Order(notes), f) == Some(k)
    ensures !Accessed(notes, f, false) && !Monitored(notes, k)
  {
    DeadExactly(notes, cats, allow, k);
    OrderHolds(notes, f);
    if Accessed(notes, f, false) {
      DirectCounts(notes, k, f);
    }
    hide Order, Linked, Counts, GraphWarnings, Monitored;
  }

  lemma DeadComplete(notes: seq<Note>, cats: Categories, allow: seq<string>, k: Key)
    requires cats.deadWrites && Accessed(notes, k, true) && !Monitored(notes, k) && Unallowed(allow, k)
    requires forall f :: InStar(Order(notes), k, f) ==> !Accessed(notes, f, false)
    ensures exists writers :: DeadWrite(k, writers) in GraphWarnings(notes, cats, allow)
  {
    DeadExactly(notes, cats, allow, k);
    OrderHolds(notes, k);
    DirectCounts(notes, k, k);
    hide Order, Linked, Counts, GraphWarnings, InStar, Unallowed, Monitored;
    if Reach(notes, k, false) {
      var n :| n in notes && !n.write && Counts(notes, k, n.key);
      CountsWithinStar(notes, k, n.key);
      AccessedBy(notes, n);
    }
  }

  // The links are merged one by one, so of two elements of one array the later
  // noted sees the earlier one's accesses and not the other way round.
  lemma LaterSiblingUnseen(notes: seq<Note>, i: nat, j: nat)
    requires i < j < |Order(notes)|
    requires Linked(Order(notes), Order(notes)[i]).Some?
    requires Linked(Order(notes), Order(notes)[i]) == Linked(Order(notes), Order(notes)[j])
    ensures Counts(notes, Order(notes)[j], Order(notes)[i]) && !Counts(notes, Order(notes)[i], Order(notes)[j])
  {
    var order := Order(notes);
    OrderHolds(notes, order[i]);
    var a, b := order[i], order[j];
    hide Order, Linked;
    LinkedToWhole(order, a);
    LinkedToWhole(order, b);
    assert ElementBefore(order, j + 1, a, Linked(order, b).value);
    assert FeedsElement(order, j, b, a);
    forall m | 0 <= m < |order|
      ensures !FeedsElement(order, m, a, b)
    {
    }
  }

  // An allow entry is called stale exactly when it was never the first match
  // of a key that would have been reported.
  lemma StaleExactly(graphs: seq<seq<Note>>, cats: Categories, allow: seq<string>, i: nat)
    requires i < |allow|
    ensures Stale(i) in AllWarnings(graphs, cats, allow) + Stales(graphs, cats, allow, |allow|)
            <==> forall g, k :: 0 <= g < |graphs| && FirstAllow(allow, k, 0) == Some(i)
                   ==> !WouldOrphan(graphs[g], cats, k) && !WouldDie(graphs[g], cats, k)
  {
    NoStaleAmong(graphs, cats, allow, i);
    StalesExactly(graphs, cats, allow, |allow|, i);
    forall g, k | 0 <= g < |graphs|
      ensures FirstAllow(allow, k, 0) == Some(i) && (WouldOrphan(graphs[g], cats, k) || WouldDie(graphs[g], cats, k))
              ==> GraphSuppresses(graphs[g], cats, allow, i)
    {
      SuppressesExactly(graphs[g], cats, allow, i);
    }
    hide WouldOrphan, WouldDie, FirstAllow, GraphSuppresses, AllWarnings, Stales;
    if AnySuppresses(graphs, cats, allow, i) {
      var g :| 0 <= g < |graphs| && GraphSuppresses(graphs[g], cats, allow, i);
      SuppressesExactly(graphs[g], cats, allow, i);
    }
  }

  lemma SuppressesExactly(notes: seq<Note>, cats: Categories, allow: seq<string>, i: nat)
    ensures GraphSuppresses(notes, cats, allow, i)
            <==> exists k ::
                   FirstAllow(allow, k, 0) == Some(i) && (WouldOrphan(notes, cats, k) || WouldDie(notes, cats, k))
  {
    hide FirstAllow, Order, Final, Reach, Monitored, IsOrphan, IsDead;
    var order, final := Order(notes), Final(notes);
    forall j | 0 <= j < |order|
      ensures order[j] in final
      ensures IsOrphan(cats, final[order[j]]) <==> WouldOrphan(notes, cats, order[j])
      ensures IsDead(cats, final[order[j]]) <==> WouldDie(notes, cats, order[j])
    {
      VerdictExactly(notes, cats, order[j]);
    }
    if k :| FirstAllow(allow, k, 0) == Some(i) && (WouldOrphan(notes, cats, k) || WouldDie(notes, cats, k)) {
      var j :| 0 <= j < |order| && order[j] == k;
      assert SuppressedAt(order, j, final, cats, allow, i);
    }
  }

  lemma {:induction false} NoStaleAmong(graphs: seq<seq<Note>>, cats: Categories, allow: seq<string>, i: nat)
    ensures Stale(i) !in AllWarnings(graphs, cats, allow)
  {
    if graphs != [] {
      NoStaleAmong(graphs[..|graphs| - 1], cats, allow, i);
      var notes := graphs[|graphs| - 1];
      ReportedExactly(Order(notes), |Order(notes)|, Final(notes), cats, allow, Stale(i));
      hide Order, Final, FirstAllow;
    }
  }

  // Every graph's warnings are reported, and no others but the stale entries.
  lemma {:induction false} AllExactly(graphs: seq<seq<Note>>, cats: Categories, allow: seq<string>, w: Warning)
    ensures w in AllWarnings(graphs, cats, allow)
            <==> exists g :: 0 <= g < |graphs| && w in GraphWarnings(graphs[g], cats, allow)
  {
    hide GraphWarnings;
    if graphs != [] {
      var front := graphs[..|graphs| - 1];
      AllExactly(front, cats, allow, w);
      assert forall g :: 0 <= g < |front| ==> graphs[g] == front[g];
    }
  }

  lemma {:induction false} StalesExactly(graphs: seq<seq<Note>>, cats: Categories, allow: seq<string>, n: nat, i: nat)
    ensures Stale(i) in Stales(graphs, cats, allow, n) <==> i < n && !AnySuppresses(graphs, cats, allow, i)
  {
    hide AnySuppresses;
    if n > 0 {
      StalesExactly(graphs, cats, allow, n - 1, i);
    }
  }
}
