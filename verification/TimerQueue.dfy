/** The queue of the native timer driver in `sleep.rs`: a heap of deadlines with
    lazy deletion beside the map of timers still pending, and what each critical
    section of `arm`, `cancel` and `run` does to them. */
module TimerQueue {

  datatype Entry = Entry(deadline: int, id: nat)

  /** The heap's order: deadline first, then id, as tuples compare. */
  predicate Before(a: Entry, b: Entry) {
    a.deadline < b.deadline || (a.deadline == b.deadline && a.id < b.id)
  }

  ghost predicate Sorted(heap: seq<Entry>) {
    forall i, j :: 0 <= i < j < |heap| ==> Before(heap[i], heap[j])
  }

  /** `BinaryHeap` by its contract: the entries in the order `pop` yields them. */
  function HeapPush(heap: seq<Entry>, e: Entry): (r: seq<Entry>)
    ensures |r| == |heap| + 1
  {
    if heap == [] || Before(e, heap[0]) then [e] + heap else [heap[0]] + HeapPush(heap[1..], e)
  }

  lemma {:induction false} HeapPushAdds(heap: seq<Entry>, e: Entry)
    ensures forall x :: x in HeapPush(heap, e) <==> x in heap || x == e
  {
    if heap != [] && !Before(e, heap[0]) {
      HeapPushAdds(heap[1..], e);
      assert heap == [heap[0]] + heap[1..];
    }
  }

  lemma {:induction false} HeapPushSorts(heap: seq<Entry>, e: Entry)
    requires Sorted(heap) && forall i :: 0 <= i < |heap| ==> heap[i].id != e.id
    ensures Sorted(HeapPush(heap, e))
  {
    if heap != [] && !Before(e, heap[0]) {
      HeapPushSorts(heap[1..], e);
      HeapPushAdds(heap[1..], e);
      var r := HeapPush(heap[1..], e);
      forall x | x in r ensures Before(heap[0], x) {
        if x != e {
          var i :| 0 <= i < |heap[1..]| && heap[1..][i] == x;
          assert heap[i + 1] == x;
        }
      }
      forall i, j | 0 <= i < j < |r| + 1 ensures Before(([heap[0]] + r)[i], ([heap[0]] + r)[j]) {
        if i == 0 { assert r[j - 1] in r; }
      }
    }
  }

  /** Popping heap entries whose timer is no longer pending. */
  function DropStale<W>(heap: seq<Entry>, pending: map<nat, W>): (live: seq<Entry>)
    ensures live == [] || live[0].id in pending
  {
    if heap == [] || heap[0].id in pending then heap else DropStale(heap[1..], pending)
  }

  /** What the driver does with the lock in hand before it next gives it up. */
  datatype Verdict<W> =
    | WaitForever
    | WaitUntil(deadline: int)
    | Fire(id: nat, wake: W)

  function Decide<W>(heap: seq<Entry>, pending: map<nat, W>, now: int): Verdict<W> {
    var live := DropStale(heap, pending);
    if live == [] then WaitForever
    else if live[0].deadline > now then WaitUntil(live[0].deadline)
    else Fire(live[0].id, pending[live[0].id])
  }

  function HeapAfter<W>(heap: seq<Entry>, pending: map<nat, W>, now: int): seq<Entry> {
    var live := DropStale(heap, pending);
    if live != [] && live[0].deadline <= now then live[1..] else live
  }

  function PendingAfter<W>(heap: seq<Entry>, pending: map<nat, W>, now: int): map<nat, W> {
    var v := Decide(heap, pending, now);
    if v.Fire? then pending - {v.id} else pending
  }

  /** Every pending timer has its own entry, and there is one entry per id. */
  ghost predicate Agrees<W>(heap: seq<Entry>, pending: map<nat, W>, deadlineOf: map<nat, int>) {
    && Sorted(heap)
    && (forall i, j :: 0 <= i < j < |heap| ==> heap[i].id != heap[j].id)
    && (forall e :: e in heap ==> e.id in deadlineOf && deadlineOf[e.id] == e.deadline)
    && (forall id :: id in pending ==> id in deadlineOf && Entry(deadlineOf[id], id) in heap)
  }

  lemma ArmAgrees<W>(heap: seq<Entry>, pending: map<nat, W>, deadlineOf: map<nat, int>, id: nat, deadline: int, wake: W)
    requires Agrees(heap, pending, deadlineOf) && id !in deadlineOf
    ensures Agrees(HeapPush(heap, Entry(deadline, id)), pending[id := wake], deadlineOf[id := deadline])
  {
    var e := Entry(deadline, id);
    HeapPushAdds(heap, e);
    HeapPushSorts(heap, e);
    var r := HeapPush(heap, e);
    forall i, j | 0 <= i < j < |r| ensures r[i].id != r[j].id {
      assert Before(r[i], r[j]);
      assert r[i] in r && r[j] in r;
    }
  }

  lemma SuffixAgrees<W>(heap: seq<Entry>, cut: nat, pending: map<nat, W>, rest: map<nat, W>, deadlineOf: map<nat, int>)
    requires Agrees(heap, pending, deadlineOf) && cut <= |heap|
    requires forall id :: id in rest ==> id in pending
    requires forall i :: 0 <= i < cut ==> heap[i].id !in rest
    ensures Agrees(heap[cut..], rest, deadlineOf)
  {
    forall id | id in rest ensures Entry(deadlineOf[id], id) in heap[cut..] {
      var i :| 0 <= i < |heap| && heap[i] == Entry(deadlineOf[id], id);
      assert heap[cut..][i - cut] == heap[i];
    }
  }

  lemma {:induction false} StaleAreNotPending<W>(heap: seq<Entry>, pending: map<nat, W>)
    ensures var cut := |heap| - |DropStale(heap, pending)|;
      0 <= cut && DropStale(heap, pending) == heap[cut..] && forall i :: 0 <= i < cut ==> heap[i].id !in pending
  {
    if heap != [] && heap[0].id !in pending {
      StaleAreNotPending(heap[1..], pending);
      var cut := |heap| - |DropStale(heap, pending)|;
      forall i | 0 <= i < cut ensures heap[i].id !in pending {
        if i > 0 { assert heap[i] == heap[1..][i - 1]; }
      }
    }
  }

  lemma RoundAgrees<W>(heap: seq<Entry>, pending: map<nat, W>, deadlineOf: map<nat, int>, now: int)
    requires Agrees(heap, pending, deadlineOf)
    ensures Agrees(HeapAfter(heap, pending, now), PendingAfter(heap, pending, now), deadlineOf)
  {
    StaleAreNotPending(heap, pending);
    var cut := |heap| - |DropStale(heap, pending)|;
    var rest := PendingAfter(heap, pending, now);
    if Decide(heap, pending, now).Fire? {
      SuffixAgrees(heap, cut + 1, pending, rest, deadlineOf);
      assert heap[cut..][1..] == heap[cut + 1..];
    } else {
      SuffixAgrees(heap, cut, pending, rest, deadlineOf);
    }
  }

  /** What a round decides, in terms of the pending timers alone: it waits for ever
      only when there are none, waits until the earliest deadline, and fires only the
      earliest timer, of several the one armed first, and only when that is due. */
  lemma DecideIsEarliest<W>(heap: seq<Entry>, pending: map<nat, W>, deadlineOf: map<nat, int>, now: int)
    requires Agrees(heap, pending, deadlineOf)
    ensures match Decide(heap, pending, now)
      case WaitForever => pending == map[]
      case WaitUntil(d) =>
        && d > now
        && (exists id :: id in pending && deadlineOf[id] == d)
        && (forall id :: id in pending ==> d <= deadlineOf[id])
      case Fire(id, wake) =>
        && id in pending && pending[id] == wake
        && deadlineOf[id] <= now
        && (forall k :: k in pending ==> deadlineOf[id] < deadlineOf[k] || (deadlineOf[id] == deadlineOf[k] && id <= k))
  {
    StaleAreNotPending(heap, pending);
    var live := DropStale(heap, pending);
    forall id | id in pending
      ensures live != [] && (live[0].deadline < deadlineOf[id] || (live[0].deadline == deadlineOf[id] && live[0].id <= id))
    {
      var k :| 0 <= k < |heap| && heap[k] == Entry(deadlineOf[id], id);
      var i := k - (|heap| - |live|);
      assert live[i] == heap[k];
      if i > 0 {
        assert Before(live[0], live[i]);
      }
    }
    if live != [] {
      assert live[0] in heap;
    }
  }

  /** The driver's `Mutex<Queue>` contents. */
  class Queue<W> {
    var deadlines: seq<Entry>
    var pending: map<nat, W>
    ghost var deadlineOf: map<nat, int>     // of every timer ever armed

    ghost predicate Valid()
      reads this
    {
      Agrees(deadlines, pending, deadlineOf)
    }

    constructor ()
      ensures Valid() && deadlines == [] && pending == map[] && deadlineOf == map[]
    {
      deadlines, pending, deadlineOf := [], map[], map[];
    }

    /** The locked part of `Driver::arm`. Ids come from a counter, each once. */
    method Arm(id: nat, deadline: int, wake: W)
      requires Valid()
      modifies this
      ensures id !in old(deadlineOf) ==> Valid()
      ensures deadlineOf == old(deadlineOf)[id := deadline]
      ensures pending == old(pending)[id := wake]
      ensures deadlines == HeapPush(old(deadlines), Entry(deadline, id))
    {
      if id !in deadlineOf {
        ArmAgrees(deadlines, pending, deadlineOf, id, deadline, wake);
      }
      deadlineOf := deadlineOf[id := deadline];
      pending := pending[id := wake];
      deadlines := HeapPush(deadlines, Entry(deadline, id));
    }

    /** The locked part of `Driver::cancel`; `removed` says whether to notify. */
    method Cancel(id: nat) returns (removed: bool)
      requires Valid()
      modifies `pending
      ensures Valid()
      ensures removed == (id in old(pending))
      ensures pending == old(pending) - {id}
    {
      removed := id in pending;
      pending := pending - {id};
    }

    /** One round of `run`: from taking the lock to the wait or the wake it leads to. */
    method Round(now: int) returns (verdict: Verdict<W>)
      requires Valid()
      modifies `deadlines, `pending
      ensures Valid()
      ensures verdict == Decide(old(deadlines), old(pending), now)
      ensures deadlines == HeapAfter(old(deadlines), old(pending), now)
      ensures pending == PendingAfter(old(deadlines), old(pending), now)
    {
      RoundAgrees(deadlines, pending, deadlineOf, now);
      while deadlines != [] && deadlines[0].id !in pending
        invariant DropStale(deadlines, pending) == DropStale(old(deadlines), old(pending))
        invariant pending == old(pending)
        decreases |deadlines|
      {
        deadlines := deadlines[1..];
      }
      if deadlines == [] {
        return WaitForever;
      }
      var deadline, id := deadlines[0].deadline, deadlines[0].id;
      if deadline > now {
        return WaitUntil(deadline);
      }
      deadlines := deadlines[1..];
      var wake := pending[id];
      pending := pending - {id};
      return Fire(id, wake);
    }
  }
}
