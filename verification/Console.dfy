/** `ConsoleRing` of `console.rs`: the last console calls, read through cursors. */
module Console {

  const U64: nat := 0x1_0000_0000_0000_0000

  /** A sequence number and the message. */
  type Record<T> = (nat, T)

  datatype Snapshot<T> = Snapshot(records: seq<Record<T>>, nextCursor: nat, dropped: nat)

  /** What was pushed from number `from` on, with the numbers a 64-bit counter gives. */
  function Numbered<T>(history: seq<T>, from: nat): (r: seq<Record<T>>)
    requires from <= |history|
    ensures |r| == |history| - from && forall i :: 0 <= i < |r| ==> r[i] == ((from + i) % U64, history[from + i])
  {
    seq(|history| - from, i requires 0 <= i < |history| - from => ((from + i) % U64, history[from + i]))
  }

  /** The oldest push still held. A ring of capacity zero is never found full again after
      its first push, and so holds everything. */
  function Oldest(pushes: nat, capacity: nat): (o: nat)
    ensures o <= pushes
  {
    if capacity == 0 || pushes <= capacity then 0 else pushes - capacity
  }

  function Max(a: nat, b: nat): nat {
    if a < b then b else a
  }

  /** `filter(|record| record.sequence >= cursor)`. */
  function AtLeast<T>(records: seq<Record<T>>, cursor: nat): seq<Record<T>> {
    if records == [] then []
    else (if records[0].0 >= cursor then [records[0]] else []) + AtLeast(records[1..], cursor)
  }

  function OldestNumber<T>(records: seq<Record<T>>, nextSequence: nat): nat {
    if records == [] then nextSequence else records[0].0
  }

  lemma NumberedLast<T>(history: seq<T>, from: nat, message: T)
    requires from <= |history|
    ensures Numbered(history + [message], from) == Numbered(history, from) + [(|history| % U64, message)]
  {
  }

  lemma NumberedRest<T>(history: seq<T>, from: nat)
    requires from < |history|
    ensures Numbered(history, from)[1..] == Numbered(history, from + 1)
  {
  }

  /** Pushing out the oldest, if the ring is full, leaves the tail one longer history has. */
  lemma PushedTail<T>(history: seq<T>, capacity: nat, message: T)
    ensures var records := Numbered(history, Oldest(|history|, capacity));
      var kept := if |records| != capacity || records == [] then records else records[1..];
      kept + [(|history| % U64, message)] == Numbered(history + [message], Oldest(|history| + 1, capacity))
    ensures (|history| % U64 + 1) % U64 == (|history| + 1) % U64
  {
    hide Numbered;
    var from := Oldest(|history|, capacity);
    NumberedLast(history, Oldest(|history| + 1, capacity), message);
    if capacity > 0 && |history| >= capacity {
      NumberedRest(history, from);
    }
  }

  class Ring<T> {
    var records: seq<Record<T>>
    var nextSequence: nat
    const capacity: nat
    ghost var history: seq<T>

    /** The ring is a tail of the whole history, numbered in order. */
    ghost predicate Valid()
      reads this
    {
      && nextSequence == |history| % U64
      && records == Numbered(history, Oldest(|history|, capacity))
    }

    constructor (capacity: nat)
      ensures Valid() && history == [] && this.capacity == capacity
    {
      records, nextSequence := [], 0;
      this.capacity := capacity;
      history := [];
    }

    method Push(message: T)
      requires Valid()
      modifies this
      ensures Valid() && history == old(history) + [message]
    {
      hide Numbered, Oldest;
      PushedTail(history, capacity, message);
      if |records| == capacity {
        records := if records == [] then [] else records[1..];
      }
      records := records + [(nextSequence, message)];
      nextSequence := (nextSequence + 1) % U64;
      history := history + [message];
    }

    method Since(cursor: nat) returns (s: Snapshot<T>)
      requires Valid()
      ensures s == ReadOf(history, capacity, cursor)
    {
      hide AtLeast, Numbered;
      var oldest := if records == [] then nextSequence else records[0].0;
      var effective := Max(cursor, oldest);
      s := Snapshot(AtLeast(records, effective), nextSequence, if oldest < cursor then 0 else oldest - cursor);
    }
  }

  /** A read of what the ring holds after `history`, its counter wrapped or not. */
  function ReadOf<T>(history: seq<T>, capacity: nat, cursor: nat): Snapshot<T> {
    var records, next := Numbered(history, Oldest(|history|, capacity)), |history| % U64;
    var oldest := OldestNumber(records, next);
    Snapshot(AtLeast(records, Max(cursor, oldest)), next, if oldest < cursor then 0 else oldest - cursor)
  }

  /** What a read at `cursor` should show of a history: all of it from the cursor, save
      what the capacity has pushed out. */
  function View<T>(history: seq<T>, capacity: nat, cursor: nat): Snapshot<T> {
    var oldest := Oldest(|history|, capacity);
    Snapshot(if cursor <= |history| then Numbered(history, Max(cursor, oldest)) else [], |history|,
             if oldest < cursor then 0 else oldest - cursor)
  }

  lemma FirstNumbered<T>(history: seq<T>, from: nat)
    requires from < |history| < U64
    ensures Numbered(history, from) == [(from, history[from])] + Numbered(history, from + 1)
  {
  }

  lemma OneRecordMore<T>(r: Record<T>, rest: seq<Record<T>>, cursor: nat)
    ensures AtLeast([r] + rest, cursor) == (if r.0 >= cursor then [r] else []) + AtLeast(rest, cursor)
  {
  }

  lemma {:induction false} AtLeastOfNumbered<T>(history: seq<T>, from: nat, cursor: nat)
    requires from <= |history| < U64
    ensures AtLeast(Numbered(history, from), cursor) ==
      if cursor <= |history| then Numbered(history, Max(from, cursor)) else []
    decreases |history| - from
  {
    if from < |history| {
      hide AtLeast, Numbered;
      FirstNumbered(history, from);
      OneRecordMore((from, history[from]), Numbered(history, from + 1), cursor);
      AtLeastOfNumbered(history, from + 1, cursor);
    }
  }

  /** Until the counter wraps, a read is a view of the whole history. */
  lemma ReadIsView<T>(history: seq<T>, capacity: nat, cursor: nat)
    requires |history| < U64
    ensures ReadOf(history, capacity, cursor) == View(history, capacity, cursor)
  {
    hide AtLeast;
    var from := Oldest(|history|, capacity);
    OldestIsFrom(history, from);
    AtLeastOfNumbered(history, from, Max(cursor, from));
  }

  lemma OldestIsFrom<T>(history: seq<T>, from: nat)
    requires from <= |history| < U64
    ensures OldestNumber(Numbered(history, from), |history| % U64) == from
  {
  }

  // One reader among any number of writers.

  datatype Event<T> = Pushed(message: T) | Read

  /** What the reader has been given so far, how many it was told it missed, and the
      cursor it will pass next. */
  datatype Reader<T> = Reader(history: seq<T>, given: seq<Record<T>>, missed: nat, cursor: nat)

  function Step<T>(r: Reader<T>, capacity: nat, e: Event<T>): Reader<T> {
    match e
    case Pushed(message) => r.(history := r.history + [message])
    case Read =>
      var s := ReadOf(r.history, capacity, r.cursor);
      Reader(r.history, r.given + s.records, r.missed + s.dropped, s.nextCursor)
  }

  function Run<T>(capacity: nat, events: seq<Event<T>>): Reader<T> {
    if events == [] then Reader([], [], 0, 0)
    else Step(Run(capacity, events[..|events| - 1]), capacity, events[|events| - 1])
  }

  /** The records given are from before the cursor, in order, each the push of its number. */
  ghost predicate Honest<T>(given: seq<Record<T>>, history: seq<T>, cursor: nat) {
    && (forall i :: 0 <= i < |given| ==> given[i].0 < cursor <= |history| && given[i].1 == history[given[i].0])
    && (forall i, j :: 0 <= i < j < |given| ==> given[i].0 < given[j].0)
  }

  lemma NumbersArePlaces<T>(history: seq<T>, from: nat, i: nat)
    requires from <= |history| < U64 && i < |history| - from
    ensures Numbered(history, from)[i] == (from + i, history[from + i])
  {
  }

  lemma MoreIsHonest<T>(given: seq<Record<T>>, history: seq<T>, cursor: nat, from: nat)
    requires Honest(given, history, cursor) && cursor <= from <= |history| < U64
    ensures Honest(given + Numbered(history, from), history, |history|)
  {
    var records := Numbered(history, from);
    hide Numbered;
    forall i | 0 <= i < |records| ensures records[i] == (from + i, history[from + i]) {
      NumbersArePlaces(history, from, i);
    }
    var all := given + records;
    forall i | 0 <= i < |all| ensures all[i].0 < |history| && all[i].1 == history[all[i].0] {
      assert i >= |given| ==> all[i] == records[i - |given|];
    }
    forall i, j | 0 <= i < j < |all| ensures all[i].0 < all[j].0 {
      assert i >= |given| ==> all[i] == records[i - |given|];
      assert j >= |given| ==> all[j] == records[j - |given|];
    }
  }

  lemma ReadIsHonest<T>(r: Reader<T>, capacity: nat)
    requires |r.history| < U64 && r.cursor <= |r.history| && Honest(r.given, r.history, r.cursor)
    ensures var n := Step(r, capacity, Read);
      Honest(n.given, n.history, n.cursor) && |n.given| + n.missed == |r.given| + r.missed + (|r.history| - r.cursor)
  {
    hide ReadOf, AtLeast, Numbered, Honest;
    ReadIsView(r.history, capacity, r.cursor);
    MoreIsHonest(r.given, r.history, r.cursor, Max(r.cursor, Oldest(|r.history|, capacity)));
  }

  /** However reads and pushes interleave, a reader that passes back each cursor gets no
      record twice, gets them in order, and is given or told of every push before its
      cursor. */
  lemma {:induction false} EveryRecordOnceOrCounted<T>(capacity: nat, events: seq<Event<T>>)
    requires |Run(capacity, events).history| < U64
    ensures var r := Run(capacity, events);
      && r.cursor <= |r.history|
      && Honest(r.given, r.history, r.cursor)
      && |r.given| + r.missed == r.cursor
  {
    if events != [] {
      var r := Run(capacity, events[..|events| - 1]);
      EveryRecordOnceOrCounted(capacity, events[..|events| - 1]);
      if events[|events| - 1] == Read {
        ReadIsHonest(r, capacity);
      }
    }
  }

  /** A reader misses only what the capacity cannot hold. */
  lemma NothingMissedWithinCapacity<T>(r: Reader<T>, capacity: nat)
    requires r.cursor <= |r.history| < U64 && (capacity == 0 || |r.history| - r.cursor <= capacity)
    ensures Step(r, capacity, Read).missed == r.missed
    ensures |Step(r, capacity, Read).given| == |r.given| + (|r.history| - r.cursor)
  {
    ReadIsView(r.history, capacity, r.cursor);
    hide ReadOf;
  }

  lemma {:induction false} NoneAtLeast<T>(records: seq<Record<T>>, cursor: nat)
    requires forall i :: 0 <= i < |records| ==> records[i].0 < cursor
    ensures AtLeast(records, cursor) == []
  {
    if records != [] {
      NoneAtLeast(records[1..], cursor);
    }
  }

  lemma {:induction false} SomeAtLeast<T>(records: seq<Record<T>>, cursor: nat, i: nat)
    requires i < |records| && records[i].0 >= cursor
    ensures AtLeast(records, cursor) != []
  {
    if i > 0 {
      SomeAtLeast(records[1..], cursor, i - 1);
    }
  }

  /** The bound on the counter is needed, and this is exactly where: reading again at the
      cursor a read has just returned gives nothing, as it should, if and only if the
      counter has not wrapped since the oldest push still held. */
  lemma RereadGivesNothingExactly<T>(history: seq<T>, capacity: nat, cursor: nat)
    ensures var again := ReadOf(history, capacity, ReadOf(history, capacity, cursor).nextCursor);
      again.records == [] <==> Oldest(|history|, capacity) / U64 == |history| / U64
  {
    var from := Oldest(|history|, capacity);
    var records, next := Numbered(history, from), |history| % U64;
    var oldest := OldestNumber(records, next);
    if from / U64 == |history| / U64 {
      forall i | 0 <= i < |records| ensures records[i].0 < Max(next, oldest) {
        SameTurn(from, from + i, |history|);
      }
      NoneAtLeast(records, Max(next, oldest));
    } else {
      var last := |history| / U64 * U64 - 1;
      EarlierTurn(from, |history|);
      assert records[last - from].0 == U64 - 1;
      assert oldest <= U64 - 1;
      SomeAtLeast(records, Max(next, oldest), last - from);
    }
  }

  /** For instance, right at the wrap, whatever the capacity: all records come twice. */
  lemma AWrapGivesRecordsTwice<T>(history: seq<T>, capacity: nat)
    requires |history| == U64
    ensures var first := ReadOf(history, capacity, 0);
      ReadOf(history, capacity, first.nextCursor).records == first.records != []
  {
    RereadGivesNothingExactly(history, capacity, 0);
  }

  lemma SameTurn(from: nat, k: nat, end: nat)
    requires from <= k < end && from / U64 == end / U64
    ensures k % U64 < end % U64
  {
    assert k / U64 == end / U64;
  }

  lemma EarlierTurn(from: nat, end: nat)
    requires from <= end && from / U64 != end / U64
    ensures var last := end / U64 * U64 - 1; from <= last < end && last % U64 == U64 - 1
  {
    assert from / U64 < end / U64;
    assert (from / U64 + 1) * U64 > from;
  }
}
