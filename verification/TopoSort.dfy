// The dependency order of a graph's slots, computed while it is compiled
// (supervisor/src/lib.rs:4734-4801): Kahn's algorithm over rows of `u8`
// indices, with a truncating `u8` count of unresolved dependencies.
module TopoSort {
  import opened Machine
  import opened Tokens
  import Layout

  type Rows = seq<seq<u8>>

  // ----------------------------------------------------------- specification

  function Nodes(n: nat): (s: set<nat>)
    ensures forall x: nat :: x in s <==> x < n
    ensures |s| == n
  {
    if n == 0 then {} else Nodes(n - 1) + {n - 1}
  }

  function Elems(s: seq<nat>): set<nat> { set x | x in s }

  // The nodes a row names, indices past the last node aside.
  function Named(row: seq<u8>, n: nat): set<nat> {
    set k | 0 <= k < |row| && row[k] as nat < n :: row[k] as nat
  }

  function Needs(deps: Rows, j: nat): set<nat>
    requires j < |deps|
  {
    Named(deps[j], |deps|)
  }

  function Degree(deps: Rows, j: nat): nat
    requires j < |deps|
  {
    |deps[j]| % 256
  }

  // The count `in_degree[j]` comes to once these nodes are produced.
  function Left(deps: Rows, done: set<nat>, j: nat): nat
    requires j < |deps|
  {
    var met := |Needs(deps, j) * done|;
    if met < Degree(deps, j) then Degree(deps, j) - met else 0
  }

  predicate Ready(deps: Rows, done: set<nat>, j: nat)
    requires j < |deps|
  {
    Left(deps, done, j) == 0
  }

  // The nodes below i that become ready, in index order.
  function Newly(deps: Rows, queue: seq<nat>, done: set<nat>, i: nat): seq<nat>
    requires i <= |deps|
  {
    if i == 0 then []
    else Newly(deps, queue, done, i - 1) + (if i - 1 !in queue && Ready(deps, done, i - 1) then [i - 1] else [])
  }

  // The queue once its first h nodes are produced.
  function Queue(deps: Rows, h: nat): seq<nat> {
    if h == 0 then Newly(deps, [], {}, |deps|)
    else
      var q := Queue(deps, h - 1);
      if h > |q| then q else q + Newly(deps, q, Elems(q[..h]), |deps|)
  }

  function Order(deps: Rows): seq<nat> { Queue(deps, |deps|) }

  predicate Distinct(s: seq<nat>) { forall i, j :: 0 <= i < j < |s| ==> s[i] != s[j] }

  predicate Below(s: seq<nat>, n: nat) { forall i :: 0 <= i < |s| ==> s[i] < n }

  // ------------------------------------------------------------ cardinalities

  lemma {:induction false} ElemsCount(s: seq<nat>)
    requires Distinct(s)
    ensures |Elems(s)| == |s|
  {
    if s != [] {
      var front, last := s[..|s| - 1], s[|s| - 1];
      ElemsCount(front);
      assert s == front + [last];
      assert Elems(s) == Elems(front) + {last};
    }
  }

  lemma SubsetCount(a: set<nat>, b: set<nat>)
    requires a <= b
    ensures |a| <= |b|
    ensures |a| == |b| ==> a == b
  {
    assert b == a + (b - a);
  }

  // Distinct nodes are no more than there are.
  lemma DistinctFits(s: seq<nat>, n: nat)
    requires Distinct(s) && Below(s, n)
    ensures |s| <= n
    ensures |s| == n ==> Elems(s) == Nodes(n)
  {
    ElemsCount(s);
    SubsetCount(Elems(s), Nodes(n));
  }

  // ----------------------------------------------------------- the algorithm

  lemma ReadyStays(deps: Rows, done: set<nat>, more: set<nat>, j: nat)
    requires j < |deps| && done <= more && Ready(deps, done, j)
    ensures Ready(deps, more, j)
  {
    SubsetCount(Needs(deps, j) * done, Needs(deps, j) * more);
  }

  // Producing one more node decrements the counts of its dependents.
  lemma LeftStep(deps: Rows, done: set<nat>, node: nat, j: nat)
    requires j < |deps| && node !in done
    ensures Left(deps, done + {node}, j)
         == if Left(deps, done, j) != 0 && node in Needs(deps, j) then Left(deps, done, j) - 1 else Left(deps, done, j)
  {
    var needs := Needs(deps, j);
    if node in needs {
      assert needs * (done + {node}) == needs * done + {node};
    } else {
      assert needs * (done + {node}) == needs * done;
    }
  }

  lemma {:induction false} NewlyIs(deps: Rows, queue: seq<nat>, done: set<nat>, i: nat)
    requires i <= |deps|
    ensures var more := Newly(deps, queue, done, i);
            && Distinct(more)
            && (forall x: nat :: x in more <==> x < i && x !in queue && Ready(deps, done, x))
            && Below(more, i)
  {
    hide Ready;
    if i > 0 {
      NewlyIs(deps, queue, done, i - 1);
    }
  }

  // What the queue holds once h of its nodes are produced: nodes, each once,
  // namely those that are ready.
  predicate Queued(deps: Rows, q: seq<nat>, done: set<nat>) {
    && Distinct(q)
    && Below(q, |deps|)
    && forall x: nat :: x < |deps| ==> (x in q <==> Ready(deps, done, x))
  }

  lemma DistinctConcat(q: seq<nat>, s: seq<nat>)
    requires Distinct(q) && Distinct(s) && forall x :: x in s ==> x !in q
    ensures Distinct(q + s)
  {
    forall i, j | 0 <= i < j < |q + s|
      ensures (q + s)[i] != (q + s)[j]
    {
      if i < |q| <= j {
        assert s[j - |q|] in s;
      }
    }
  }

  lemma QueuedMore(deps: Rows, q: seq<nat>, done: set<nat>, more: set<nat>)
    requires Queued(deps, q, done) && done <= more
    ensures Queued(deps, q + Newly(deps, q, more, |deps|), more)
  {
    NewlyIs(deps, q, more, |deps|);
    hide Ready, Newly;
    DistinctConcat(q, Newly(deps, q, more, |deps|));
    forall x: nat | x < |deps| && x in q
      ensures Ready(deps, more, x)
    {
      ReadyStays(deps, done, more, x);
    }
  }

  function Produced(deps: Rows, h: nat): seq<nat> {
    var q := Queue(deps, h);
    if h <= |q| then q[..h] else q
  }

  lemma NothingQueued(deps: Rows)
    ensures Queued(deps, Queue(deps, 0), {})
  {
    NewlyIs(deps, [], {}, |deps|);
    hide Ready, Newly;
  }

  lemma QueueNext(deps: Rows, h: nat)
    requires Queued(deps, Queue(deps, h), Elems(Produced(deps, h)))
    ensures Queued(deps, Queue(deps, h + 1), Elems(Produced(deps, h + 1)))
  {
    hide Ready, Newly, Queued;
    var q := Queue(deps, h);
    if h < |q| {
      assert Elems(q[..h]) <= Elems(q[..h + 1]);
      QueuedMore(deps, q, Elems(q[..h]), Elems(q[..h + 1]));
      assert Queue(deps, h + 1)[..h + 1] == q[..h + 1];
    } else {
      assert q[..|q|] == q;
    }
  }

  lemma {:induction false} QueueIs(deps: Rows, h: nat)
    ensures Queued(deps, Queue(deps, h), Elems(Produced(deps, h)))
  {
    hide Queued, Queue;
    if h == 0 {
      NothingQueued(deps);
      assert Elems(Produced(deps, 0)) == {};
    } else {
      QueueIs(deps, h - 1);
      QueueNext(deps, h - 1);
    }
  }

  // The queue while the dependents of its h-th node are being looked at.
  lemma Enqueues(deps: Rows, q: seq<nat>, now: set<nat>, j: nat)
    requires Distinct(q) && Below(q, |deps|) && j < |deps|
    ensures var s, t := q + Newly(deps, q, now, j), q + Newly(deps, q, now, j + 1);
            && |s| <= |t| <= |deps|
            && t == if j !in q && Ready(deps, now, j) then s + [j] else s
  {
    hide Ready;
    NewlyIs(deps, q, now, j + 1);
    EnqueuesFits(q, Newly(deps, q, now, j + 1), |deps|);
  }

  lemma EnqueuesFits(q: seq<nat>, s: seq<nat>, n: nat)
    requires Distinct(q) && Distinct(s) && Below(q, n) && Below(s, n) && forall x: nat :: x in s ==> x !in q
    ensures |q + s| <= n
  {
    DistinctConcat(q, s);
    DistinctFits(q + s, n);
  }

  lemma {:induction false} QueueStays(deps: Rows, h: nat, n: nat)
    requires |Queue(deps, h)| <= h <= n
    ensures Queue(deps, n) == Queue(deps, h)
    decreases n
  {
    if h < n {
      QueueStays(deps, h, n - 1);
    }
  }

  lemma QueueFits(deps: Rows, h: nat)
    ensures |Queue(deps, h)| <= |deps|
  {
    QueueIs(deps, h);
    DistinctFits(Queue(deps, h), |deps|);
  }

  predicate Holds(a: array<u8>, s: seq<nat>)
    reads a
  {
    |s| <= a.Length && forall k :: 0 <= k < |s| ==> a[k] as nat == s[k]
  }

  lemma LeftAtFirst(deps: Rows, j: nat)
    requires j < |deps|
    ensures Left(deps, {}, j) == AsU8(|deps[j]|) as nat
  {
    assert Needs(deps, j) * {} == {};
  }

  lemma NeedsIs(deps: Rows, j: nat, node: nat)
    requires j < |deps| && node < |deps|
    ensures node in Needs(deps, j) <==> exists m :: 0 <= m < |deps[j]| && deps[j][m] as nat == node
  {
  }

  lemma QueueBegins(deps: Rows)
    ensures Newly(deps, [], {}, 0) == [] && Queue(deps, 0) == Newly(deps, [], {}, |deps|)
    ensures Distinct([]) && Below([], |deps|) && Elems([]) == {}
  {
  }

  lemma RoundBegins(deps: Rows, h: nat)
    requires h < |Queue(deps, h)|
    ensures var q := Queue(deps, h);
            var was, now := Elems(q[..h]), Elems(q[..h + 1]);
            && Distinct(q) && Below(q, |deps|) && |q| <= |deps|
            && q[h] < |deps| && q[h] !in was && now == was + {q[h]}
            && (forall x: nat :: x < |deps| ==> (x in q <==> Ready(deps, was, x)))
            && Newly(deps, q, now, 0) == []
            && Queue(deps, h + 1) == q + Newly(deps, q, now, |deps|)
  {
    hide Ready;
    QueueIs(deps, h);
    QueueFits(deps, h);
    var q := Queue(deps, h);
    assert q[..h + 1] == q[..h] + [q[h]];
  }

  lemma SeedsNext(deps: Rows, i: nat)
    requires i < |deps|
    ensures var s, t := Newly(deps, [], {}, i), Newly(deps, [], {}, i + 1);
            && |s| <= |t| <= |deps|
            && t == if Ready(deps, {}, i) then s + [i] else s
  {
    hide Ready, Newly;
    QueueBegins(deps);
    Enqueues(deps, [], {}, i);
    assert [] + Newly(deps, [], {}, i) == Newly(deps, [], {}, i);
    assert [] + Newly(deps, [], {}, i + 1) == Newly(deps, [], {}, i + 1);
  }

  // The array holds every node's count once these are produced.
  ghost predicate Counts(deps: Rows, inDegree: array<u8>, done: set<nat>)
    reads inDegree
  {
    inDegree.Length == |deps| && forall k :: 0 <= k < |deps| ==> inDegree[k] as nat == Left(deps, done, k)
  }

  method Degrees(deps: Rows) returns (inDegree: array<u8>)
    ensures fresh(inDegree) && Counts(deps, inDegree, {})
  {
    hide Left, AsU8;
    var n := |deps|;
    inDegree := new u8[n];
    var i := 0;
    while i < n
      invariant i <= n && forall k :: 0 <= k < i ==> inDegree[k] as nat == Left(deps, {}, k)
    {
      LeftAtFirst(deps, i);
      inDegree[i] := AsU8(|deps[i]|);
      i := i + 1;
    }
  }

  method Seed(deps: Rows, inDegree: array<u8>) returns (queue: array<u8>, tail: nat)
    requires |deps| <= 256 && Counts(deps, inDegree, {})
    ensures fresh(queue) && queue.Length == |deps|
    ensures tail == |Queue(deps, 0)| <= |deps| && Holds(queue, Queue(deps, 0))
  {
    hide Left, Newly, Queue;
    var n := |deps|;
    queue := new u8[n];
    tail := 0;
    var i := 0;
    QueueBegins(deps);
    while i < n
      invariant i <= n && tail == |Newly(deps, [], {}, i)| <= n
      invariant Holds(queue, Newly(deps, [], {}, i))
    {
      SeedsNext(deps, i);
      if inDegree[i] == 0 {
        queue[tail] := i as u8;
        tail := tail + 1;
      }
      i := i + 1;
    }
  }

  method Depends(row: seq<u8>, node: u8) returns (depends: bool)
    ensures depends <==> exists m :: 0 <= m < |row| && row[m] as nat == node as nat
  {
    depends := false;
    var k := 0;
    while k < |row|
      invariant k <= |row|
      invariant depends <==> exists m :: 0 <= m < k && row[m] as nat == node as nat
    {
      if row[k] == node {
        depends := true;
      }
      k := k + 1;
    }
  }

  // The dependents of the h-th produced node are counted down.
  method Release(deps: Rows, ghost h: nat, node: u8, inDegree: array<u8>, queue: array<u8>, tail: nat)
      returns (end: nat)
    requires |deps| <= 256 && queue.Length == |deps| && inDegree != queue
    requires h < tail == |Queue(deps, h)| <= |deps| && Holds(queue, Queue(deps, h)) && node as nat == Queue(deps, h)[h]
    requires Counts(deps, inDegree, Elems(Queue(deps, h)[..h]))
    modifies inDegree, queue
    ensures end == |Queue(deps, h + 1)| && h < end <= |deps| && Holds(queue, Queue(deps, h + 1))
    ensures Queue(deps, h + 1)[..h + 1] == Queue(deps, h)[..h + 1]
    ensures Counts(deps, inDegree, Elems(Queue(deps, h + 1)[..h + 1]))
  {
    hide Left, Newly, Queue, Elems, Distinct, Below, Needs;
    var n := |deps|;
    ghost var q := Queue(deps, h);
    ghost var was, now := Elems(q[..h]), Elems(q[..h + 1]);
    RoundBegins(deps, h);
    end := tail;
    var j := 0;
    while j < n
      invariant j <= n && end == |q + Newly(deps, q, now, j)| <= n
      invariant Holds(queue, q + Newly(deps, q, now, j))
      invariant forall k :: 0 <= k < j ==> inDegree[k] as nat == Left(deps, now, k)
      invariant forall k :: j <= k < n ==> inDegree[k] as nat == Left(deps, was, k)
    {
      LeftStep(deps, was, node as nat, j);
      NeedsIs(deps, j, node as nat);
      Enqueues(deps, q, now, j);
      if inDegree[j] != 0 {
        var depends := Depends(deps[j], node);
        if depends {
          inDegree[j] := inDegree[j] - 1;
          if inDegree[j] == 0 {
            queue[end] := j as u8;
            end := end + 1;
          }
        }
      }
      j := j + 1;
    }
    assert Queue(deps, h + 1)[..h + 1] == q[..h + 1];
  }

  // None is the panic of the compilation.
  method TopoSortConst(deps: Rows) returns (r: Option<seq<u8>>)
    ensures r.Some? <==> |deps| <= 256 && |Order(deps)| == |deps|
    ensures r.Some? ==> |r.value| == |deps| && forall k :: 0 <= k < |deps| ==> r.value[k] as nat == Order(deps)[k]
  {
    hide Queue, Elems, Counts;
    var n := |deps|;
    if n > 256 {
      return None;
    }
    var inDegree := Degrees(deps);
    var queue, tail := Seed(deps, inDegree);
    var order := new u8[n];
    var produced, head := 0, 0;
    assert Elems(Queue(deps, 0)[..0]) == {} by { QueueBegins(deps); }
    while head < tail
      invariant produced == head <= tail <= n
      invariant tail == |Queue(deps, head)| && Holds(queue, Queue(deps, head))
      invariant Holds(order, Queue(deps, head)[..head])
      invariant Counts(deps, inDegree, Elems(Queue(deps, head)[..head]))
      decreases n - head
    {
      var node := queue[head];
      order[produced] := node;
      produced := produced + 1;
      tail := Release(deps, head, node, inDegree, queue, tail);
      head := head + 1;
    }
    QueueStays(deps, head, n);
    r := if produced != n then None else Some(order[..]);
  }

  // ---------------------------------------------------------------- results

  // Each of these nodes counts more dependencies than the row can meet from
  // outside the set, so none of them can be the first one produced.
  predicate Blocked(deps: Rows, s: set<nat>) {
    && s != {} && s <= Nodes(|deps|)
    && forall j :: j in s ==> |Needs(deps, j) * (Nodes(|deps|) - s)| < Degree(deps, j)
  }

  // What an order keeps: each node comes once, and not before as many of its
  // dependencies as are counted.
  predicate Kept(deps: Rows, q: seq<nat>) {
    Distinct(q) && Below(q, |deps|) && forall p :: 0 <= p < |q| ==> Ready(deps, Elems(q[..p]), q[p])
  }

  lemma KeptMore(deps: Rows, q: seq<nat>, h: nat)
    requires Kept(deps, q) && h <= |q|
    ensures Kept(deps, q + Newly(deps, q, Elems(q[..h]), |deps|))
  {
    hide Ready, Newly;
    var more := Newly(deps, q, Elems(q[..h]), |deps|);
    NewlyIs(deps, q, Elems(q[..h]), |deps|);
    DistinctConcat(q, more);
    var t := q + more;
    forall p | 0 <= p < |t|
      ensures Ready(deps, Elems(t[..p]), t[p])
    {
      if p < |q| {
        assert t[..p] == q[..p];
      } else {
        assert t[p] in more;
        assert forall x :: x in q[..h] ==> x in t[..p] by { assert q[..h] == t[..p][..h]; }
        ReadyStays(deps, Elems(q[..h]), Elems(t[..p]), t[p]);
      }
    }
  }

  lemma KeptAtFirst(deps: Rows)
    ensures Kept(deps, Queue(deps, 0))
  {
    hide Ready, Newly;
    var none: seq<nat> := [];
    assert Elems(none[..0]) == {};
    KeptMore(deps, none, 0);
    assert none + Newly(deps, none, {}, |deps|) == Queue(deps, 0);
  }

  lemma {:induction false} QueueKept(deps: Rows, h: nat)
    ensures Kept(deps, Queue(deps, h))
  {
    hide Kept, Newly;
    if h == 0 {
      KeptAtFirst(deps);
    } else {
      QueueKept(deps, h - 1);
      if h <= |Queue(deps, h - 1)| {
        KeptMore(deps, Queue(deps, h - 1), h);
      }
    }
  }

  lemma NotFromBlocked(deps: Rows, s: set<nat>, done: set<nat>, j: nat)
    requires Blocked(deps, s) && done <= Nodes(|deps|) && done !! s && j < |deps| && Ready(deps, done, j)
    ensures j !in s
  {
    hide Needs, Degree;
    SubsetCount(Needs(deps, j) * done, Needs(deps, j) * (Nodes(|deps|) - s));
  }

  // No node of a blocked set is ever produced.
  lemma {:induction false} BlockedStays(deps: Rows, s: set<nat>, q: seq<nat>, p: nat)
    requires Blocked(deps, s) && Kept(deps, q) && p <= |q|
    ensures Elems(q[..p]) <= Nodes(|deps|) && Elems(q[..p]) !! s
  {
    hide Blocked, Ready, Distinct, Nodes;
    if p > 0 {
      BlockedStays(deps, s, q, p - 1);
      var done, j := Elems(q[..p - 1]), q[p - 1];
      assert Ready(deps, done, j);
      NotFromBlocked(deps, s, done, j);
      assert q[..p] == q[..p - 1] + [j];
      assert Elems(q[..p]) == done + {j};
    }
  }

  // So a blocked set keeps the order from being complete.
  lemma BlockedIsShort(deps: Rows, s: set<nat>)
    requires Blocked(deps, s)
    ensures |Order(deps)| < |deps|
  {
    hide Queue, Ready, Needs, Degree;
    var q := Order(deps);
    QueueKept(deps, |deps|);
    BlockedStays(deps, s, q, |q|);
    assert q[..|q|] == q;
    ElemsCount(q);
    SubsetCount(Elems(q) + s, Nodes(|deps|));
  }

  // When the queue runs dry, the nodes that never entered it are blocked.
  lemma RestIsBlocked(deps: Rows)
    requires |Order(deps)| < |deps|
    ensures Blocked(deps, Nodes(|deps|) - Elems(Order(deps)))
  {
    var q, n := Order(deps), |deps|;
    QueueIs(deps, n);
    hide Queue, Needs, Degree;
    ElemsCount(q);
    var s := Nodes(n) - Elems(q);
    assert Elems(q) <= Nodes(n) && Nodes(n) - s == Elems(q);
    assert Nodes(n) == Elems(q) + s;
    forall j | j in s
      ensures |Needs(deps, j) * (Nodes(n) - s)| < Degree(deps, j)
    {
      assert !Ready(deps, Elems(q), j);
    }
  }

  // The compilation panics exactly when some nodes block each other, for every
  // table of rows, also rows so long that their count is truncated.
  lemma PanicsWhenBlocked(deps: Rows)
    ensures |Order(deps)| < |deps| <==> exists s :: Blocked(deps, s)
    ensures |Order(deps)| <= |deps|
  {
    hide Queue, Blocked, Distinct, Below;
    QueueFits(deps, |deps|);
    if |Order(deps)| < |deps| {
      RestIsBlocked(deps);
    }
    forall s | Blocked(deps, s)
      ensures |Order(deps)| < |deps|
    {
      BlockedIsShort(deps, s);
    }
  }

  // ------------------------------------------------ rows of fewer than 256

  predicate ShortRows(deps: Rows) { forall j :: 0 <= j < |deps| ==> |deps[j]| < 256 }

  // Indices of nodes, each once.
  predicate GoodRow(row: seq<u8>, n: nat) {
    && (forall k :: 0 <= k < |row| ==> row[k] as nat < n)
    && (forall i, k :: 0 <= i < k < |row| ==> row[i] != row[k])
  }

  lemma NamedStep(row: seq<u8>, n: nat, last: u8)
    ensures Named(row + [last], n) == Named(row, n) + (if last as nat < n then {last as nat} else {})
  {
    assert forall k :: 0 <= k < |row| ==> (row + [last])[k] == row[k];
    assert (row + [last])[|row|] == last;
  }

  lemma GoodStep(row: seq<u8>, n: nat, last: u8)
    ensures GoodRow(row + [last], n) <==> GoodRow(row, n) && last as nat < n && last as nat !in Named(row, n)
  {
    var more := row + [last];
    assert forall k :: 0 <= k < |row| ==> more[k] == row[k];
    assert more[|row|] == last;
    if GoodRow(row, n) {
      assert last as nat in Named(row, n) <==> last in row;
    }
  }

  lemma {:induction false} NamedCount(row: seq<u8>, n: nat)
    ensures |Named(row, n)| <= |row|
    ensures |Named(row, n)| == |row| <==> GoodRow(row, n)
    decreases |row|, 0
  {
    if row == [] {
      assert Named(row, n) == {};
    } else {
      CountStep(row[..|row| - 1], n, row[|row| - 1]);
      assert row == row[..|row| - 1] + [row[|row| - 1]];
    }
  }

  lemma {:induction false} CountStep(row: seq<u8>, n: nat, last: u8)
    ensures |Named(row + [last], n)| <= |row| + 1
    ensures |Named(row + [last], n)| == |row| + 1 <==> GoodRow(row + [last], n)
    decreases |row|, 1
  {
    hide Named, GoodRow;
    NamedCount(row, n);
    NamedStep(row, n, last);
    GoodStep(row, n, last);
  }

  // Each node depends on the next, and the last on the first.
  predicate Cycle(deps: Rows, p: seq<nat>) {
    && p != [] && Path(deps, p) && DependsOn(deps, p[|p| - 1], p[0])
  }

  predicate Path(deps: Rows, p: seq<nat>) {
    Below(p, |deps|) && forall k :: 0 < k < |p| ==> DependsOn(deps, p[k - 1], p[k])
  }

  predicate DependsOn(deps: Rows, j: nat, i: nat) { j < |deps| && i in Needs(deps, j) }

  lemma CycleBlocks(deps: Rows, p: seq<nat>)
    requires Cycle(deps, p) && ShortRows(deps)
    ensures Blocked(deps, Elems(p))
  {
    hide Needs;
    var s := Elems(p);
    forall j | j in s
      ensures |Needs(deps, j) * (Nodes(|deps|) - s)| < Degree(deps, j)
    {
      var k :| 0 <= k < |p| && p[k] == j;
      var next := if k + 1 < |p| then p[k + 1] else p[0];
      assert DependsOn(deps, j, next) by { assert k + 1 < |p| ==> DependsOn(deps, p[k + 1 - 1], p[k + 1]); }
      assert next in s;
      SubsetCount(Needs(deps, j) * (Nodes(|deps|) - s), Needs(deps, j) - {next});
      CountOfRow(deps, j);
    }
    assert p[0] in s;
  }

  lemma CountOfRow(deps: Rows, j: nat)
    requires j < |deps| && |deps[j]| < 256
    ensures |Needs(deps, j)| <= Degree(deps, j) == |deps[j]|
    ensures |Needs(deps, j)| == Degree(deps, j) <==> GoodRow(deps[j], |deps|)
  {
    NamedCount(deps[j], |deps|);
  }

  lemma BadRowBlocks(deps: Rows, j: nat)
    requires j < |deps| && |deps[j]| < 256 && !GoodRow(deps[j], |deps|)
    ensures Blocked(deps, {j})
  {
    CountOfRow(deps, j);
    hide Needs, Degree, GoodRow;
    SubsetCount(Needs(deps, j) * (Nodes(|deps|) - {j}), Needs(deps, j));
  }

  lemma PathCloses(deps: Rows, p: seq<nat>, i: nat)
    requires Path(deps, p) && i < |p| && DependsOn(deps, p[|p| - 1], p[i])
    ensures Cycle(deps, p[i..])
  {
    hide DependsOn;
    var c := p[i..];
    forall k | 0 < k < |c|
      ensures DependsOn(deps, c[k - 1], c[k])
    {
      assert DependsOn(deps, p[i + k - 1], p[i + k]);
    }
  }

  lemma PathGrows(deps: Rows, p: seq<nat>, next: nat)
    requires p != [] && Distinct(p) && Path(deps, p) && next < |deps| && next !in p
    requires DependsOn(deps, p[|p| - 1], next)
    ensures Distinct(p + [next]) && Path(deps, p + [next]) && Elems(p + [next]) == Elems(p) + {next}
  {
    hide DependsOn;
    var more := p + [next];
    forall k | 0 < k < |more|
      ensures DependsOn(deps, more[k - 1], more[k])
    {
      assert k < |p| ==> DependsOn(deps, p[k - 1], p[k]);
    }
  }

  // Does every node of the set depend on one of the set?
  predicate Turning(deps: Rows, s: set<nat>) {
    s <= Nodes(|deps|) && forall j :: j in s ==> Needs(deps, j) * s != {}
  }

  lemma NextInside(deps: Rows, s: set<nat>, j: nat) returns (next: nat)
    requires Turning(deps, s) && j in s
    ensures next in s && next < |deps| && DependsOn(deps, j, next)
  {
    hide Needs;
    next :| next in Needs(deps, j) * s;
  }

  // Walking from dependency to dependency inside a finite set comes round.
  lemma {:induction false} FindCycle(deps: Rows, s: set<nat>, p: seq<nat>) returns (c: seq<nat>)
    requires p != [] && Distinct(p) && Elems(p) <= s && Path(deps, p) && Turning(deps, s)
    ensures Cycle(deps, c)
    decreases |s| - |p|
  {
    hide Turning, Path, Cycle, DependsOn, Distinct;
    assert p[|p| - 1] in Elems(p);
    var next := NextInside(deps, s, p[|p| - 1]);
    if next in p {
      var i :| 0 <= i < |p| && p[i] == next;
      PathCloses(deps, p, i);
      c := p[i..];
    } else {
      PathGrows(deps, p, next);
      ElemsCount(p + [next]);
      SubsetCount(Elems(p + [next]), s);
      c := FindCycle(deps, s, p + [next]);
    }
  }

  lemma BlockedTurns(deps: Rows, s: set<nat>)
    requires Blocked(deps, s) && ShortRows(deps) && forall j :: 0 <= j < |deps| ==> GoodRow(deps[j], |deps|)
    ensures Turning(deps, s) && s != {}
  {
    forall j | j in s
      ensures Needs(deps, j) * s != {}
    {
      CountOfRow(deps, j);
      OutsideCount(Needs(deps, j), s, Nodes(|deps|));
    }
    hide Needs, Degree, GoodRow;
  }

  lemma OutsideCount(needs: set<nat>, s: set<nat>, all: set<nat>)
    requires needs <= all && |needs * (all - s)| < |needs|
    ensures needs * s != {}
  {
    assert needs == needs * (all - s) + needs * s;
  }

  lemma PathBegins(deps: Rows, s: set<nat>, j: nat)
    requires Turning(deps, s) && j in s
    ensures Distinct([j]) && Elems([j]) <= s && Path(deps, [j])
  {
    hide Needs;
  }

  lemma BlockedCycles(deps: Rows, s: set<nat>) returns (c: seq<nat>)
    requires Blocked(deps, s) && ShortRows(deps) && forall j :: 0 <= j < |deps| ==> GoodRow(deps[j], |deps|)
    ensures Cycle(deps, c)
  {
    hide *;
    BlockedTurns(deps, s);
    var j :| j in s;
    PathBegins(deps, s, j);
    c := FindCycle(deps, s, [j]);
  }

  // With rows of fewer than 256 entries the panic means just what its message
  // says, or a row that repeats an index or names no node.
  lemma PanicsExactly(deps: Rows)
    requires ShortRows(deps)
    ensures |Order(deps)| < |deps|
            <==> (exists c :: Cycle(deps, c)) || (exists j :: 0 <= j < |deps| && !GoodRow(deps[j], |deps|))
  {
    PanicsWhenBlocked(deps);
    hide Queue, Order, Blocked, Cycle, GoodRow;
    if c :| Cycle(deps, c) {
      CycleBlocks(deps, c);
    }
    if j :| 0 <= j < |deps| && !GoodRow(deps[j], |deps|) {
      BadRowBlocks(deps, j);
    }
    if |Order(deps)| < |deps| && forall j :: 0 <= j < |deps| ==> GoodRow(deps[j], |deps|) {
      var s :| Blocked(deps, s);
      var c := BlockedCycles(deps, s);
    }
  }

  // Otherwise the order holds every node once, and all a node depends on
  // before it.
  lemma DependenciesFirst(deps: Rows, p: nat, k: nat)
    requires |Order(deps)| == |deps| && p < |deps|
    requires Order(deps)[p] < |deps|
    requires |deps[Order(deps)[p]]| < 256 && k < |deps[Order(deps)[p]]|
    ensures exists i :: 0 <= i < p && Order(deps)[i] == deps[Order(deps)[p]][k] as nat
  {
    var q := Order(deps);
    var j := q[p];
    QueueKept(deps, |deps|);
    CountOfRow(deps, j);
    hide Queue, Degree, Distinct, Below;
    assert Ready(deps, Elems(q[..p]), q[p]);
    SubsetCount(Needs(deps, j) * Elems(q[..p]), Needs(deps, j));
    assert deps[j][k] as nat in Needs(deps, j);
    assert deps[j][k] as nat in q[..p];
  }

  lemma OrderIsPermutation(deps: Rows)
    requires |Order(deps)| == |deps|
    ensures Distinct(Order(deps)) && Elems(Order(deps)) == Nodes(|deps|)
  {
    QueueKept(deps, |deps|);
    DistinctFits(Order(deps), |deps|);
  }

  // A node that lists all 256, itself included, counts zero dependencies.
  function FullRow(): Rows {
    seq(256, j => if j == 0 then seq(256, k requires 0 <= k < 256 => k as u8) else [])
  }

  lemma NothingCounted(deps: Rows)
    requires forall j :: 0 <= j < |deps| ==> Degree(deps, j) == 0
    ensures |Order(deps)| == |deps|
  {
    PanicsWhenBlocked(deps);
    hide Order, Needs, Degree;
    forall s: set<nat>
      ensures !Blocked(deps, s)
    {
      if s != {} && s <= Nodes(|deps|) {
        var j :| j in s;
        assert Degree(deps, j) == 0;
      }
    }
  }

  lemma SelfCycle(deps: Rows, j: nat)
    requires j < |deps| && j in Needs(deps, j)
    ensures Cycle(deps, [j])
  {
    hide Needs;
  }

  // So its dependency on itself is not seen.
  lemma FullRowUnseen()
    ensures |FullRow()| == 256 && Cycle(FullRow(), [0]) && |Order(FullRow())| == 256
  {
    var deps := FullRow();
    assert deps[0][0] == 0;
    NeedsIs(deps, 0, 0);
    hide Order, Needs, Cycle;
    SelfCycle(deps, 0);
    NothingCounted(deps);
  }

  // ------------------------------------------- the rows a graph is built with

  // The entries of an emitted row a build keeps.
  function Compiled(row: seq<Layout.Entry>, v: string -> bool): seq<u8> {
    if row == [] then []
    else Compiled(row[..|row| - 1], v) + (if v(row[|row| - 1].cfg) then [row[|row| - 1].index] else [])
  }

  // Every entry kept names a slot, and no two name the same.
  predicate LiveApart(row: seq<Layout.Entry>, v: string -> bool, n: nat) {
    && (forall k :: 0 <= k < |row| && v(row[k].cfg) ==> row[k].index as nat < n)
    && (forall i, k :: 0 <= i < k < |row| && v(row[i].cfg) && v(row[k].cfg) ==> row[i].index != row[k].index)
  }

  lemma {:induction false} CompiledHas(row: seq<Layout.Entry>, v: string -> bool, x: u8)
    ensures x in Compiled(row, v) <==> exists k :: 0 <= k < |row| && v(row[k].cfg) && row[k].index == x
    ensures |Compiled(row, v)| <= |row|
  {
    if row != [] {
      CompiledHas(row[..|row| - 1], v, x);
    }
  }

  lemma GoodMore(row: seq<u8>, n: nat, last: u8)
    ensures GoodRow(row + [last], n) <==> GoodRow(row, n) && last as nat < n && last !in row
  {
    GoodStep(row, n, last);
    hide GoodRow;
    assert last as nat < n ==> (last as nat in Named(row, n) <==> last in row);
  }

  lemma LiveApartMore(row: seq<Layout.Entry>, v: string -> bool, n: nat, last: Layout.Entry)
    ensures LiveApart(row + [last], v, n) <==>
            (LiveApart(row, v, n)
             && (v(last.cfg) ==> last.index as nat < n && last.index !in Compiled(row, v)))
  {
    CompiledHas(row, v, last.index);
    hide Compiled;
    var more := row + [last];
    assert forall k :: 0 <= k < |row| ==> more[k] == row[k];
    assert more[|row|] == last;
    if LiveApart(more, v, n) {
      assert LiveApart(row, v, n);
    }
  }

  lemma {:induction false} CompiledIsGood(row: seq<Layout.Entry>, v: string -> bool, n: nat)
    ensures GoodRow(Compiled(row, v), n) <==> LiveApart(row, v, n)
  {
    hide GoodRow, LiveApart;
    if row == [] {
      NothingKept(v, n);
    } else {
      var front, last := row[..|row| - 1], row[|row| - 1];
      assert row == front + [last];
      CompiledIsGood(front, v, n);
      GoodMore(Compiled(front, v), n, last.index);
      LiveApartMore(front, v, n, last);
      assert Compiled(front, v) + [] == Compiled(front, v);
    }
  }

  lemma NothingKept(v: string -> bool, n: nat)
    ensures GoodRow(Compiled([], v), n) && LiveApart([], v, n)
  {
  }

  function GraphRows(slots: seq<Layout.Slot>, names: Layout.Names, v: string -> bool): Rows
    requires forall s :: 0 <= s < |slots| ==> Layout.Known(names, slots[s].deps)
  {
    seq(|slots|, s requires 0 <= s < |slots| => Compiled(Layout.Row(names, slots[s].deps), v))
  }

  // A build of an accepted graph panics exactly when its slots form a cycle,
  // or a dependency is live under two of its gates, or one is on an empty pool
  // declared last, whose index no slot has.
  lemma GraphPanicsExactly(slots: seq<Layout.Slot>, names: Layout.Names, v: string -> bool)
    requires forall s :: 0 <= s < |slots| ==> Layout.Known(names, slots[s].deps) && |slots[s].deps| < 256
    ensures var rows := GraphRows(slots, names, v);
            |Order(rows)| < |rows|
            <==> ((exists c :: Cycle(rows, c))
                  || (exists s :: 0 <= s < |slots| && !LiveApart(Layout.Row(names, slots[s].deps), v, |slots|)))
  {
    hide Order, Cycle, LiveApart, GoodRow, Compiled, Layout.Row;
    var rows := GraphRows(slots, names, v);
    forall s | 0 <= s < |slots|
      ensures |rows[s]| < 256
      ensures GoodRow(rows[s], |rows|) <==> LiveApart(Layout.Row(names, slots[s].deps), v, |slots|)
    {
      RowLength(names, slots[s].deps);
      CompiledHas(Layout.Row(names, slots[s].deps), v, 0);
      CompiledIsGood(Layout.Row(names, slots[s].deps), v, |slots|);
    }
    PanicsExactly(rows);
  }

  lemma RowLength(names: Layout.Names, deps: seq<Layout.Dep>)
    requires Layout.Known(names, deps)
    ensures |Layout.Row(names, deps)| == |deps|
  {
  }

  // B depends on A under two gates. The graph is accepted, and a build with
  // both gates on panics, reporting a cycle that is not there.
  function GatedDeps(): seq<Layout.Dep> { [Layout.Dep("A", "x"), Layout.Dep("A", "y")] }

  function TwoGates(): seq<Layout.Item> { [Layout.Node("A", None, []), Layout.Node("B", None, GatedDeps())] }

  function TwoSlots(): seq<Layout.Slot> { [Layout.Slot("A", 0, []), Layout.Slot("B", 0, GatedDeps())] }

  function TwoNames(): Layout.Names { map["A" := 0, "B" := 1] }

  lemma TwoGatesSlots()
    ensures Layout.AllSlots(TwoGates()) == TwoSlots()
    ensures Layout.Start(TwoGates(), 0) == 0 && Layout.Start(TwoGates(), 1) == 1
  {
    var a, b := TwoGates()[0], TwoGates()[1];
    assert TwoGates()[..1] == [a] && TwoGates()[..0] == [a][..0] == [];
    assert Layout.SlotsOf(a) == [TwoSlots()[0]] && Layout.SlotsOf(b) == [TwoSlots()[1]];
    assert Layout.AllSlots([a]) == [TwoSlots()[0]];
  }

  lemma TwoGatesNamed()
    ensures Layout.DistinctNames(TwoGates()) && Layout.Indexes(TwoNames(), TwoGates())
  {
    hide Layout.Start, Layout.AllSlots;
    TwoGatesSlots();
    Layout.NamedAt(TwoGates(), 0);
    Layout.NamedAt(TwoGates(), 1);
    assert "A"[0] != "B"[0];
  }

  lemma TwoGatesAccepted()
    ensures Layout.AllSlots(TwoGates()) == TwoSlots()
    ensures Layout.DistinctNames(TwoGates()) && Layout.Indexes(TwoNames(), TwoGates())
    ensures forall s :: 0 <= s < 2 ==> Layout.GoodRow(TwoNames(), TwoSlots()[s].deps)
  {
    hide Layout.Start, Layout.AllSlots, Layout.Indexes, Layout.DistinctNames;
    TwoGatesSlots();
    TwoGatesNamed();
    assert "x"[0] != "y"[0];
  }

  lemma TwoGatesRow(v: string -> bool)
    requires v("x") && v("y")
    ensures !LiveApart(Layout.Row(TwoNames(), TwoSlots()[1].deps), v, 2)
    ensures GraphRows(TwoSlots(), TwoNames(), v)[0] == []
    ensures forall x :: x in GraphRows(TwoSlots(), TwoNames(), v)[1] ==> x == 0
  {
    var row := Layout.Row(TwoNames(), TwoSlots()[1].deps);
    assert row == [Layout.Entry(0, "x"), Layout.Entry(0, "y")];
    forall x | x in Compiled(row, v)
      ensures x == 0
    {
      CompiledHas(row, v, x);
    }
    assert Layout.Row(TwoNames(), []) == [];
  }

  // Every edge goes from node 1 to node 0.
  lemma NoWayBack(rows: Rows, c: seq<nat>)
    requires |rows| == 2 && rows[0] == [] && forall x :: x in rows[1] ==> x == 0
    ensures !Cycle(rows, c)
  {
    forall j: nat, i: nat | DependsOn(rows, j, i)
      ensures j == 1 && i == 0
    {
      NeedsIs(rows, j, i);
      var k :| 0 <= k < |rows[j]| && rows[j][k] as nat == i;
      assert rows[j][k] in rows[j];
    }
    hide DependsOn, Needs;
    if |c| > 1 {
      assert Path(rows, c) ==> DependsOn(rows, c[1 - 1], c[1]);
    }
  }

  lemma TwoGatesPanic(v: string -> bool)
    requires v("x") && v("y")
    ensures forall s :: 0 <= s < 2 ==> Layout.Known(TwoNames(), TwoSlots()[s].deps)
    ensures var rows := GraphRows(TwoSlots(), TwoNames(), v);
            |Order(rows)| < |rows| && forall c :: !Cycle(rows, c)
  {
    hide Order, Cycle, LiveApart, Compiled, Layout.Row;
    TwoGatesAccepted();
    TwoGatesRow(v);
    GraphPanicsExactly(TwoSlots(), TwoNames(), v);
    forall c
      ensures !Cycle(GraphRows(TwoSlots(), TwoNames(), v), c)
    {
      NoWayBack(GraphRows(TwoSlots(), TwoNames(), v), c);
    }
  }
}
