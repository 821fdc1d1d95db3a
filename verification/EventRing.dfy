// The firmware's ring of the last sixteen lifecycle events
// (firmware/src/http.rs:400-497).
module Events {
  import opened Tokens

  datatype LifecycleKind = Started | Resumed | StopRequested | Stopped | Exited | Faulted | Later

  // A node, the low 32 bits of the tick it was stamped with and a kind code.
  datatype Event = Event(node: nat, tick: nat, code: nat)

  const SIZE: nat := 16

  function Code(kind: LifecycleKind): nat {
    match kind
    case Started => 0
    case Resumed => 1
    case StopRequested => 2
    case Stopped => 3
    case Exited => 4
    case Faulted => 5
    case Later => 6
  }

  // The wire names the reader looks the codes up in.
  function Kinds(): seq<string> {
    ["started", "resumed", "stop_requested", "stopped", "exited", "faulted", "unknown"]
  }

  // Every kind has its name, and no two share one.
  lemma KindsAreTold(a: LifecycleKind, b: LifecycleKind)
    ensures Code(a) < |Kinds()|
    ensures Kinds()[Code(a)] == Kinds()[Code(b)] <==> a == b
    ensures Kinds()[Code(Started)] == "started" && Kinds()[Code(Resumed)] == "resumed"
    ensures Kinds()[Code(StopRequested)] == "stop_requested" && Kinds()[Code(Stopped)] == "stopped"
    ensures Kinds()[Code(Exited)] == "exited"
    ensures Kinds()[Code(Faulted)] == "faulted" && Kinds()[Code(Later)] == "unknown"
  {
    var first := (k: LifecycleKind) => Kinds()[Code(k)];
    assert first(Started)[2] == 'a' && first(Resumed)[2] == 's' && first(Exited)[2] == 'i' && first(Faulted)[2] == 'u'
           && first(Later)[2] == 'k';
    assert |first(StopRequested)| == 14 && |first(Stopped)| == 7 && first(StopRequested)[2] == first(Stopped)[2] == 'o';
  }

  // The newest-first view of an unbounded log.
  function Newest(log: seq<Event>): (r: seq<Event>)
    ensures |r| == if |log| < SIZE then |log| else SIZE
    ensures forall j :: 0 <= j < |r| ==> r[j] == log[|log| - 1 - j]
  {
    var n := if |log| < SIZE then |log| else SIZE;
    seq(n, j requires 0 <= j < n => log[|log| - 1 - j])
  }

  // What the slot `k` places behind the cursor must hold.
  function Behind(log: seq<Event>, k: nat): Option<Event>
    requires 1 <= k
  {
    if k <= |log| then Some(log[|log| - k]) else None
  }

  lemma BehindAfter(log: seq<Event>, e: Event, k: nat)
    requires 1 <= k
    ensures Behind(log + [e], k + 1) == Behind(log, k) && Behind(log + [e], 1) == Some(e)
  {
  }

  // The slot k behind the cursor, as the reader computes it.
  function Slot(next: nat, k: nat): (r: nat)
    requires next < SIZE && k <= SIZE
    ensures r < SIZE && r == if k <= next then next - k else next + SIZE - k - (if k == 0 then SIZE else 0)
  {
    (next + SIZE - k) % SIZE
  }

  class EventRing {
    const events: array<Option<Event>>
    var next: nat
    ghost var log: seq<Event>

    ghost predicate Valid()
      reads this, events
    {
      && events.Length == SIZE && next < SIZE
      && forall k :: 1 <= k <= SIZE ==> events[Slot(next, k)] == Behind(log, k)
    }

    constructor ()
      ensures Valid() && log == [] && fresh(events)
    {
      events := new Option<Event>[SIZE](_ => None);
      next := 0;
      log := [];
    }

    // `record_lifecycle`'s write, under the ring's lock.
    method Record(node: nat, ticks: nat, kind: LifecycleKind)
      requires Valid()
      modifies this, events
      ensures Valid() && log == old(log) + [Event(node, ticks % 0x1_0000_0000, Code(kind))]
    {
      var e := Event(node, ticks % 0x1_0000_0000, Code(kind));
      var i := next;
      events[i] := Some(e);
      next := (i + 1) % events.Length;
      log := log + [e];
      forall k | 1 <= k <= SIZE
        ensures events[Slot(next, k)] == Behind(log, k)
      {
        if k > 1 {
          BehindAfter(old(log), e, k - 1);
          assert Slot(next, k) == Slot(i, k - 1) != i;
          assert old(events[Slot(i, k - 1)]) == Behind(old(log), k - 1);
        }
      }
    }

    // `build_events_json`'s read: whatever the number of events recorded, the
    // last sixteen of them, newest first.
    method NewestFirst() returns (r: seq<Event>)
      requires Valid()
      ensures r == Newest(log)
    {
      r := [];
      var n := events.Length;
      var k := 1;
      while k <= n
        invariant 1 <= k <= n + 1
        invariant |r| == if |log| < k then |log| else k - 1
        invariant forall j :: 0 <= j < |r| ==> r[j] == log[|log| - 1 - j]
      {
        var at := (next + n - k) % n;
        assert at == Slot(next, k) && events[at] == Behind(log, k);
        match events[at] {
          case Some(e) => r := r + [e];
          case None =>
        }
        k := k + 1;
      }
      assert |r| == |Newest(log)|;
    }
  }

  // An event stays readable, behind everything recorded since, for exactly
  // the next fifteen recordings.
  lemma ReadableForSixteen(log: seq<Event>, e: Event, later: seq<Event>)
    ensures var r := Newest(log + [e] + later);
            && (|later| < |r| <==> |later| < 16)
            && (|later| < 16 ==> r[|later|] == e)
  {
    var all := log + [e] + later;
    assert all[|log|] == e;
  }
}
