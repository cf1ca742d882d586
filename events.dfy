// The Event record of simulator/libc/simulation.hpp and the min-time priority
// queues the simulation keeps of them.
//
// A queue is held as the sequence of its events in insertion order. Its top
// is an event of least time; the heap the source uses leaves the order among
// equal times unspecified, and this model resolves such ties in favour of the
// earliest inserted event.
module Events {

  /** The event types. `Unlabelled` is the empty type string the source gives
      to the repair requests it parks on the wait queue. */
  datatype EventKind = DiskFail | DiskRepair | ChunkRepair | DiskReplacement | Unlabelled

  predicate IsRepairKind(k: EventKind) {
    k == DiskRepair || k == ChunkRepair
  }

  /** time: when it fires; disk: the element id; share: the repair bandwidth
      carried by a repair event. */
  datatype Event = Event(time: real, kind: EventKind, disk: int, share: real)

  /** The queue comparator: a precedes b when a's time is smaller. */
  predicate Earlier(a: Event, b: Event) {
    a.time < b.time
  }

  /** The position of the queue's top: an event of least time, the first such
      in insertion order. */
  function TopIndex(q: seq<Event>): (i: nat)
    requires |q| > 0
    ensures i < |q|
    ensures forall j :: 0 <= j < |q| ==> !Earlier(q[j], q[i])
    ensures forall j :: 0 <= j < i ==> Earlier(q[i], q[j])
  {
    if |q| == 1 then 0
    else
      var i := TopIndex(q[..|q| - 1]);
      if Earlier(q[|q| - 1], q[i]) then |q| - 1 else i
  }

  /** The queue after popping position i. */
  function RemoveAt(q: seq<Event>, i: nat): (r: seq<Event>)
    requires i < |q|
    ensures |r| == |q| - 1
  {
    q[..i] + q[i + 1..]
  }

  /** Removing position i takes exactly that event out of the queue. */
  lemma RemoveAtCount(q: seq<Event>, i: nat)
    requires i < |q|
    ensures multiset(RemoveAt(q, i)) + multiset{q[i]} == multiset(q)
  {
    assert q == q[..i] + [q[i]] + q[i + 1..];
  }

  /** The event at the top of a non-empty queue. */
  function Top(q: seq<Event>): (e: Event)
    requires |q| > 0
    ensures e in q
    ensures forall x :: x in q ==> e.time <= x.time
  {
    q[TopIndex(q)]
  }

  /** The queue after pop(). */
  function Pop(q: seq<Event>): (r: seq<Event>)
    requires |q| > 0
    ensures |r| == |q| - 1
  {
    RemoveAt(q, TopIndex(q))
  }

  /** pop() takes exactly the top out of the queue. */
  lemma PopCount(q: seq<Event>)
    requires |q| > 0
    ensures multiset(Pop(q)) + multiset{Top(q)} == multiset(q)
  {
    RemoveAtCount(q, TopIndex(q));
  }
}
