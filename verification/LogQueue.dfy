/** `app/logging_config.py`: the queue of `CloudWatchLogsHandler`, with any number of emitting threads and one flushing
    thread (`_flush_lock`). A method is one atomic step of its thread, or calls `Others` between its atomic steps. */
module LogQueue {
  import opened Records

  const MAX_BATCH_EVENTS := 10000
  const MAX_BATCH_BYTES := 1000000
  const MAX_EVENT_BYTES := 250000
  const EVENT_OVERHEAD := 26
  const MAX_QUEUE_EVENTS := 50000
  const MAX_QUEUE_BYTES := 16777216

  newtype byte = n: int | 0 <= n < 256

  /** A queued record: its timestamp, its message in UTF-8 and its size. */
  datatype Item = Item(ts: int, message: seq<byte>, size: nat)

  /** Who holds `_bytes_lock`: nobody, or an emitter before `put_nowait` or before the count. */
  datatype Lock = Free | Entered(item: Item) | Counting(item: Item)

  function Bytes(items: seq<Item>): nat {
    if items == [] then 0 else Bytes(items[..|items| - 1]) + items[|items| - 1].size
  }

  function Carried(carry: Option<Item>): seq<Item> {
    if carry.Some? then [carry.value] else []
  }

  function Flatten(batches: seq<seq<Item>>): seq<Item> {
    if batches == [] then [] else Flatten(batches[..|batches| - 1]) + batches[|batches| - 1]
  }

  predicate Sized(item: Item) {
    item.size == |item.message| + EVENT_OVERHEAD && |item.message| <= MAX_EVENT_BYTES
  }

  /** Within both limits of a batch. */
  predicate BatchFits(batch: seq<Item>) {
    0 < |batch| <= MAX_BATCH_EVENTS && Bytes(batch) <= MAX_BATCH_BYTES
  }

  predicate AllFit(batches: seq<seq<Item>>) {
    forall i :: 0 <= i < |batches| ==> BatchFits(batches[i])
  }

  /** The batches after `_drain`: an empty run is no batch. */
  function Drained(batches: seq<seq<Item>>, run: seq<Item>): seq<seq<Item>> {
    if run == [] then batches else batches + [run]
  }

  lemma AllFitNext(batches: seq<seq<Item>>, run: seq<Item>)
    requires AllFit(batches) && (run != [] ==> BatchFits(run))
    ensures AllFit(Drained(batches, run))
  {
  }

  lemma {:induction false} BytesOfBoth(a: seq<Item>, b: seq<Item>)
    ensures Bytes(a + b) == Bytes(a) + Bytes(b)
    decreases |b|
  {
    if b == [] {
      assert a + b == a;
    } else {
      BytesOfBoth(a, b[..|b| - 1]);
      assert (a + b)[..|a + b| - 1] == a + b[..|b| - 1];
    }
  }

  lemma BytesOfOne(item: Item)
    ensures Bytes([item]) == item.size
  {
    assert [item][..0] == [];
  }

  lemma WaitingNext(ahead: seq<Item>, queue: seq<Item>, item: Item)
    ensures ahead + (queue + [item]) == ahead + queue + [item]
    ensures Bytes(ahead + (queue + [item])) == Bytes(ahead + queue) + item.size
  {
    assert ahead + (queue + [item]) == (ahead + queue) + [item];
    BytesOfBoth(ahead + queue, [item]);
    BytesOfOne(item);
  }

  lemma FlattenNext(batches: seq<seq<Item>>, batch: seq<Item>)
    ensures Flatten(batches + [batch]) == Flatten(batches) + batch
  {
    assert (batches + [batch])[..|batches|] == batches;
  }

  // ----- `events.sort(key=...)`: a stable sort -----

  function InsertByTime(sorted: seq<Item>, item: Item): seq<Item> {
    if sorted == [] || sorted[|sorted| - 1].ts <= item.ts then sorted + [item]
    else InsertByTime(sorted[..|sorted| - 1], item) + [sorted[|sorted| - 1]]
  }

  function ByTime(items: seq<Item>): seq<Item> {
    if items == [] then [] else InsertByTime(ByTime(items[..|items| - 1]), items[|items| - 1])
  }

  predicate Ordered(items: seq<Item>) {
    forall i, j :: 0 <= i < j < |items| ==> items[i].ts <= items[j].ts
  }

  /** The records with one timestamp, in order. */
  function At(items: seq<Item>, ts: int): seq<Item> {
    if items == [] then []
    else At(items[..|items| - 1], ts) + if items[|items| - 1].ts == ts then [items[|items| - 1]] else []
  }

  lemma {:induction false} InsertKeepsOrder(sorted: seq<Item>, item: Item)
    requires Ordered(sorted)
    ensures Ordered(InsertByTime(sorted, item))
    ensures forall i :: 0 <= i < |InsertByTime(sorted, item)| ==> InsertByTime(sorted, item)[i] in sorted || InsertByTime(sorted, item)[i] == item
    decreases |sorted|
  {
    if sorted != [] && sorted[|sorted| - 1].ts > item.ts {
      InsertKeepsOrder(sorted[..|sorted| - 1], item);
    }
  }

  lemma AtNext(items: seq<Item>, item: Item, ts: int)
    ensures At(items + [item], ts) == At(items, ts) + if item.ts == ts then [item] else []
  {
    assert (items + [item])[..|items|] == items;
  }

  lemma {:induction false} InsertAt(sorted: seq<Item>, item: Item, ts: int)
    ensures At(InsertByTime(sorted, item), ts) == if item.ts == ts then At(sorted, ts) + [item] else At(sorted, ts)
    decreases |sorted|
  {
    hide At;
    if sorted == [] || sorted[|sorted| - 1].ts <= item.ts {
      AtNext(sorted, item, ts);
    } else {
      var most, last := sorted[..|sorted| - 1], sorted[|sorted| - 1];
      InsertAt(most, item, ts);
      assert sorted == most + [last];
      AtNext(InsertByTime(most, item), last, ts);
      AtNext(most, last, ts);
    }
  }

  /** The sort orders a batch by timestamp and keeps the order of records with the same one. */
  lemma {:induction false} ByTimeIsStableSort(items: seq<Item>)
    ensures Ordered(ByTime(items)) && forall i, j :: 0 <= i < j < |ByTime(items)| ==> ByTime(items)[i].ts <= ByTime(items)[j].ts
    ensures forall ts :: At(ByTime(items), ts) == At(items, ts)
    decreases |items|
  {
    if items != [] {
      var most := items[..|items| - 1];
      ByTimeIsStableSort(most);
      InsertKeepsOrder(ByTime(most), items[|items| - 1]);
      forall ts
        ensures At(ByTime(items), ts) == At(items, ts)
      {
        InsertAt(ByTime(most), items[|items| - 1], ts);
      }
    }
  }

  // ----- the invariant -----

  /** Every accepted record is in exactly one drained batch or waiting, in order of acceptance. */
  predicate Complete(accepted: seq<Item>, batches: seq<seq<Item>>, waiting: seq<Item>) {
    accepted == Flatten(batches) + waiting && forall i :: 0 <= i < |accepted| ==> Sized(accepted[i])
  }

  /** The count is the waiting bytes, but for a record put and not yet counted; with what the lock's holder adds it is
      within the limit. */
  predicate Accounted(queuedBytes: int, bytesLock: Lock, waiting: seq<Item>) {
    && (!bytesLock.Free? ==> Sized(bytesLock.item))
    && queuedBytes + (if bytesLock.Counting? then bytesLock.item.size else 0) == Bytes(waiting)
    && 0 <= queuedBytes + (if bytesLock.Free? then 0 else bytesLock.item.size) <= MAX_QUEUE_BYTES
  }

  lemma PutKeeps(accepted: seq<Item>, batches: seq<seq<Item>>, ahead: seq<Item>, queue: seq<Item>, item: Item, queuedBytes: int)
    requires Complete(accepted, batches, ahead + queue) && Accounted(queuedBytes, Entered(item), ahead + queue)
    ensures Complete(accepted + [item], batches, ahead + (queue + [item]))
    ensures Accounted(queuedBytes, Counting(item), ahead + (queue + [item]))
  {
    WaitingNext(ahead, queue, item);
    assert accepted + [item] == Flatten(batches) + (ahead + queue + [item]);
  }

  lemma TakeKeeps(hand: seq<Item>, carry: Option<Item>, queue: seq<Item>)
    ensures carry.Some? ==> hand + [carry.value] + Carried(None) + queue == hand + Carried(carry) + queue
    ensures carry.None? && queue != [] ==> hand + [queue[0]] + Carried(None) + queue[1..] == hand + Carried(carry) + queue
  {
    if carry.None? && queue != [] {
      assert queue == [queue[0]] + queue[1..];
    }
  }

  lemma ReturnKeeps(hand: seq<Item>, item: Item, queue: seq<Item>)
    ensures hand + Carried(Some(item)) + queue == (hand + [item]) + Carried(None) + queue
  {
  }

  lemma Regroup(run: seq<Item>, carried: seq<Item>, queue: seq<Item>)
    ensures run + carried + queue == run + ([] + carried + queue)
  {
  }

  lemma DrainAccounts(run: seq<Item>, carry: Option<Item>, queue: seq<Item>, queuedBytes: int)
    requires Accounted(queuedBytes, Free, run + Carried(carry) + queue)
    ensures Accounted(queuedBytes - Bytes(run), Free, [] + Carried(carry) + queue)
  {
    Regroup(run, Carried(carry), queue);
    BytesOfBoth(run, [] + Carried(carry) + queue);
    hide Bytes;
  }

  lemma DrainCompletes(accepted: seq<Item>, batches: seq<seq<Item>>, run: seq<Item>, rest: seq<Item>)
    requires Complete(accepted, batches, run + rest)
    ensures Complete(accepted, Drained(batches, run), rest)
  {
    FlattenNext(batches, run);
    hide Flatten, Sized;
    assert Flatten(batches) + (run + rest) == Flatten(batches) + run + rest;
    assert run == [] ==> run + rest == rest;
  }

  lemma NothingElse(run: seq<Item>)
    ensures run + Carried(None) + [] == run
  {
  }

  /** A batch taken from what was waiting: either takes in the other's beginning. */
  lemma NextInLine(flat: seq<Item>, waiting: seq<Item>, run: seq<Item>, later: seq<Item>)
    requires flat + waiting <= flat + (run + later)
    ensures run <= waiting || waiting <= run
    ensures later == [] ==> waiting <= run
  {
    assert forall i :: 0 <= i < |waiting| ==> (flat + waiting)[|flat| + i] == waiting[i];
    assert forall i :: 0 <= i < |waiting| ==> (flat + (run + later))[|flat| + i] == (run + later)[i];
    assert forall i :: 0 <= i < |waiting| ==> waiting[i] == (run + later)[i];
  }

  lemma InLine(before: seq<Item>, accepted: seq<Item>, batches: seq<seq<Item>>, waiting: seq<Item>, run: seq<Item>, carry: Option<Item>,
               queue: seq<Item>)
    requires before <= accepted && Complete(before, batches, waiting) && Complete(accepted, batches, run + Carried(carry) + queue)
    ensures run <= waiting || waiting <= run
    ensures accepted == Flatten(batches) + run ==> waiting <= run
  {
    hide Flatten, Sized;
    var later := Carried(carry) + queue;
    assert run + Carried(carry) + queue == run + later;
    NextInLine(Flatten(batches), waiting, run, later);
    if accepted == Flatten(batches) + run {
      assert |later| == 0;
    }
  }

  lemma DrainedNext(before: seq<seq<Item>>, shipped: seq<seq<Item>>, run: seq<Item>)
    ensures Drained(before + shipped, run) == if run == [] then before + shipped else before + (shipped + [run])
    ensures before + (shipped + [run]) == before + shipped + [run] && before + shipped + [] == before + shipped
    ensures before + (shipped + [run]) + [] == before + (shipped + [run])
  {
  }

  lemma AllDrained(accepted: seq<Item>, batches: seq<seq<Item>>, waiting: seq<Item>)
    requires Complete(accepted, batches, waiting)
    ensures waiting == [] ==> accepted == Flatten(batches)
  {
  }

  lemma HeldIsSized(accepted: seq<Item>, batches: seq<seq<Item>>, run: seq<Item>, item: Item, rest: seq<Item>, queue: seq<Item>)
    requires Complete(accepted, batches, (run + [item]) + rest + queue)
    ensures Sized(item)
  {
    assert accepted[|Flatten(batches)| + |run|] == item;
  }

  // ----- the handler -----

  class CloudWatchLogsHandler {
    var queue: seq<Item>
    var queuedBytes: int
    var carry: Option<Item>
    var dropped: nat
    var failures: nat
    var bytesLock: Lock
    /** Every record put in the queue, in order; the records an unfinished `_drain` holds; the batches drained; the
        records that asked to be queued. */
    ghost var accepted: seq<Item>
    ghost var hand: seq<Item>
    ghost var batches: seq<seq<Item>>
    ghost var offered: nat

    /** The records waiting or held, in order of acceptance. */
    ghost function Waiting(): seq<Item>
      reads this
    {
      hand + Carried(carry) + queue
    }

    /** What holds after every atomic step: no record is lost or duplicated and every byte is accounted for. */
    ghost predicate Valid()
      reads this
    {
      && Complete(accepted, batches, Waiting()) && Accounted(queuedBytes, bytesLock, Waiting())
      && offered == |accepted| + dropped + (if bytesLock.Entered? then 1 else 0)
      && |queue| <= MAX_QUEUE_EVENTS
      && AllFit(batches)
    }

    /** What any thread may rely on at any time: every accepted record is in exactly one batch or waiting, in order; every record
        offered is accepted, dropped, or held before the queue; the count is the waiting bytes, but for a record not yet
        counted, and within its limit; the queue and every batch are within theirs. */
    lemma WhatHolds()
      requires Valid()
      ensures accepted == Flatten(batches) + hand + Carried(carry) + queue
      ensures offered == |accepted| + dropped + if bytesLock.Entered? then 1 else 0
      ensures queuedBytes == Bytes(hand + Carried(carry) + queue) - (if bytesLock.Counting? then bytesLock.item.size else 0)
      ensures queuedBytes <= 16777216 && |queue| <= 50000 && (bytesLock.Free? ==> queuedBytes >= 0)
      ensures forall i :: 0 <= i < |batches| ==> 0 < |batches[i]| <= 10000 && Bytes(batches[i]) <= 1000000
      ensures forall i :: 0 <= i < |accepted| ==> accepted[i].size == |accepted[i].message| + 26 && |accepted[i].message| <= 250000
    {
      assert Flatten(batches) + (hand + Carried(carry) + queue) == Flatten(batches) + hand + Carried(carry) + queue;
    }

    constructor ()
      ensures Valid() && accepted == [] && hand == [] && batches == [] && bytesLock == Free
      ensures queue == [] && queuedBytes == 0 && carry == None && dropped == 0 && failures == 0 && offered == 0
    {
      queue, queuedBytes, carry, dropped, failures, bytesLock := [], 0, None, 0, 0, Free;
      accepted, hand, batches, offered := [], [], [], 0;
    }

    /** `emit` up to the queue: the lock taken, and kept if the bytes fit. */
    method Enter(ts: int, encoded: seq<byte>)
      requires Valid() && bytesLock.Free?
      modifies this`dropped, this`bytesLock, this`offered
      ensures Valid() && offered == old(offered) + 1
      ensures var message := if |encoded| > MAX_EVENT_BYTES then encoded[..MAX_EVENT_BYTES] else encoded;
              var size := |message| + EVENT_OVERHEAD;
              if queuedBytes + size > MAX_QUEUE_BYTES then bytesLock.Free? && dropped == old(dropped) + 1
              else bytesLock == Entered(Item(ts, message, size)) && dropped == old(dropped)
    {
      var message := if |encoded| > MAX_EVENT_BYTES then encoded[..MAX_EVENT_BYTES] else encoded;
      var size := |message| + EVENT_OVERHEAD;
      offered := offered + 1;
      if queuedBytes + size > MAX_QUEUE_BYTES {
        dropped := dropped + 1;
      } else {
        bytesLock := Entered(Item(ts, message, size));
      }
    }

    /** `put_nowait`; a full queue drops the record. */
    method Put()
      requires Valid() && bytesLock.Entered?
      modifies this`queue, this`dropped, this`bytesLock, this`accepted
      ensures Valid()
      ensures if old(|queue|) >= MAX_QUEUE_EVENTS
              then queue == old(queue) && accepted == old(accepted) && bytesLock.Free? && dropped == old(dropped) + 1
              else queue == old(queue + [bytesLock.item]) && accepted == old(accepted + [bytesLock.item])
                   && bytesLock == old(Counting(bytesLock.item)) && dropped == old(dropped)
    {
      var item := bytesLock.item;
      if |queue| >= MAX_QUEUE_EVENTS {
        dropped := dropped + 1;
        bytesLock := Free;
      } else {
        PutKeeps(accepted, batches, hand + Carried(carry), queue, item, queuedBytes);
        hide Complete, Accounted, AllFit, Carried;
        queue := queue + [item];
        accepted := accepted + [item];
        bytesLock := Counting(item);
      }
    }

    /** The count, and the lock released. */
    method Count()
      requires Valid() && bytesLock.Counting?
      modifies this`queuedBytes, this`bytesLock
      ensures Valid() && bytesLock.Free? && queuedBytes == old(queuedBytes + bytesLock.item.size)
    {
      queuedBytes := queuedBytes + bytesLock.item.size;
      bytesLock := Free;
    }

    /** Any number of steps of other threads: each takes the lock to queue some record, or goes on inside it. */
    method Others()
      requires Valid()
      modifies this`queue, this`queuedBytes, this`dropped, this`bytesLock, this`accepted, this`offered
      ensures Valid() && old(queue) <= queue && old(accepted) <= accepted && old(dropped) <= dropped
    {
      var steps: nat :| true;
      for i := 0 to steps
        invariant Valid() && old(queue) <= queue && old(accepted) <= accepted && old(dropped) <= dropped
      {
        Step();
      }
    }

    method Step()
      requires Valid()
      modifies this`queue, this`queuedBytes, this`dropped, this`bytesLock, this`accepted, this`offered
      ensures Valid() && old(queue) <= queue && old(accepted) <= accepted && old(dropped) <= dropped
    {
      match bytesLock
      case Free =>
        var ts: int, encoded: seq<byte> :| true;
        Enter(ts, encoded);
      case Entered(_) => Put();
      case Counting(_) => Count();
    }

    /** Waiting for the lock: its holder leaves it after at most two more steps. */
    method Acquire()
      requires Valid()
      modifies this`queue, this`queuedBytes, this`dropped, this`bytesLock, this`accepted, this`offered
      ensures Valid() && bytesLock.Free? && old(queue) <= queue && old(accepted) <= accepted && old(dropped) <= dropped
    {
      Others();
      if bytesLock.Entered? {
        Put();
      }
      if bytesLock.Counting? {
        Count();
      }
    }

    /** The next waiting record, the carried one first. */
    method Take() returns (item: Option<Item>)
      requires Valid()
      modifies this`queue, this`carry, this`hand
      ensures Valid() && carry.None? && Waiting() == old(Waiting())
      ensures item.None? <==> old(carry.None? && queue == [])
      ensures hand == if item.Some? then old(hand) + [item.value] else old(hand)
    {
      TakeKeeps(hand, carry, queue);
      hide Complete, Accounted, AllFit, Carried;
      if carry.Some? {
        item := carry;
        carry, hand := None, hand + [item.value];
      } else if queue == [] {
        item := None;
      } else {
        item := Some(queue[0]);
        queue, hand := queue[1..], hand + [item.value];
      }
    }

    /** A round of the loop in `_drain`: the next record joins the batch, or ends it. */
    method Extend(run: seq<Item>, size: nat) returns (more: bool, next: seq<Item>, nextSize: nat)
      requires Valid() && hand == run && |run| < MAX_BATCH_EVENTS && (run != [] ==> carry.None?)
      requires size == Bytes(run) <= MAX_BATCH_BYTES
      modifies this`queue, this`queuedBytes, this`carry, this`dropped, this`bytesLock, this`accepted, this`hand, this`offered
      ensures Valid() && hand == next && nextSize == Bytes(next) <= MAX_BATCH_BYTES && old(accepted) <= accepted
      ensures if more then |next| == |run| + 1 && carry.None? else next == run
      ensures !more && carry.Some? ==> run != [] && Bytes(run) + carry.value.size > MAX_BATCH_BYTES
      ensures !more && carry.None? ==> accepted == Flatten(batches) + run
    {
      hide Bytes, Flatten, Accounted, AllFit;
      Others();
      var item := Take();
      if item.None? {
        NothingElse(run);
        return false, run, size;
      }
      HeldIsSized(accepted, batches, run, item.value, Carried(carry), queue);
      Others();
      if size + item.value.size > MAX_BATCH_BYTES && run != [] {
        ReturnKeeps(run, item.value, queue);
        hide Complete;
        carry, hand := item, run;
        return false, run, size;
      }
      BytesOfBoth(run, [item.value]);
      BytesOfOne(item.value);
      BytesOfNone();
      return true, run + [item.value], size + item.value.size;
    }

    /** `_drain`: the next batch, sorted by timestamp. `run` is the batch in order of acceptance: the records accepted
        next, as many as the limits allow, and at least all that were waiting unless a limit was reached; so the batch is
        empty only if none were. */
    method Drain() returns (events: seq<Item>, ghost run: seq<Item>)
      requires Valid() && hand == []
      modifies this`queue, this`queuedBytes, this`carry, this`dropped, this`bytesLock, this`accepted, this`hand, this`batches, this`offered
      ensures Valid() && hand == [] && bytesLock.Free? && old(accepted) <= accepted
      ensures batches == if run == [] then old(batches) else old(batches) + [run]
      ensures |run| <= 10000 && Bytes(run) <= 1000000
      ensures events == ByTime(run) && |events| == |run|
      ensures run <= old(Waiting()) || old(Waiting()) <= run
      ensures |run| == MAX_BATCH_EVENTS || old(Waiting()) <= run || (carry.Some? && Bytes(run) + carry.value.size > MAX_BATCH_BYTES)
      ensures run == [] ==> old(Waiting()) == []
    {
      hide ByTime, Bytes, Flatten, Complete, Accounted;
      ghost var waiting := Waiting();
      var list: seq<Item>, size, more := [], 0, true;
      BytesOfNone();
      while more && |list| < MAX_BATCH_EVENTS
        invariant Valid() && hand == list && |list| <= MAX_BATCH_EVENTS && batches == old(batches) && old(accepted) <= accepted
        invariant size == Bytes(list) <= MAX_BATCH_BYTES
        invariant more && list != [] ==> carry.None?
        invariant !more && carry.Some? ==> list != [] && Bytes(list) + carry.value.size > MAX_BATCH_BYTES
        invariant !more && carry.None? ==> accepted == Flatten(batches) + list
        decreases MAX_BATCH_EVENTS - |list|, more
      {
        more, list, size := Extend(list, size);
      }
      InLine(old(accepted), accepted, batches, waiting, list, carry, queue);
      Acquire();
      DrainCount(list, size);
      ByTimeLength(list);
      events, run := ByTime(list), list;
    }

    /** `flush`, for the given outcomes of its calls of the service (all it makes, or those it made so far): batches are
        sent in order, and the first that cannot be sent is lost and ends the flush. */
    method Flush(sends: seq<bool>) returns (ghost shipped: seq<seq<Item>>, ghost lost: seq<seq<Item>>)
      requires Valid() && hand == []
      modifies this`queue, this`queuedBytes, this`carry, this`dropped, this`bytesLock, this`accepted, this`hand, this`batches, this`offered, this`failures
      ensures Valid() && hand == [] && old(accepted) <= accepted
      ensures batches == old(batches) + shipped + lost && |lost| <= 1 && failures == old(failures) + |lost|
      ensures |shipped| <= |sends| && (forall i :: 0 <= i < |shipped| ==> sends[i])
      ensures lost != [] ==> |shipped| < |sends| && !sends[|shipped|]
      ensures lost == [] && |shipped| < |sends| ==> old(accepted) <= Flatten(batches)
    {
      hide Complete, Accounted, AllFit, Carried, Bytes, Flatten, ByTime, Drained;
      shipped, lost := [], [];
      for i := 0 to |sends|
        invariant Valid() && hand == [] && old(accepted) <= accepted
        invariant batches == old(batches) + shipped && failures == old(failures) && |shipped| == i
        invariant forall j :: 0 <= j < i ==> sends[j]
      {
        ghost var run;
        ghost var waiting := Waiting();
        var events;
        AllDrained(accepted, batches, waiting);
        events, run := Drain();
        DrainedNext(old(batches), shipped, run);
        if events == [] {
          return;
        }
        if !sends[i] {
          failures := failures + 1;
          lost := [run];
          return;
        }
        shipped := shipped + [run];
      }
    }

    /** The end of `_drain`, under the lock. */
    method DrainCount(run: seq<Item>, size: nat)
      requires Valid() && hand == run && size == Bytes(run) && bytesLock.Free? && (run != [] ==> BatchFits(run))
      modifies this`queuedBytes, this`hand, this`batches
      ensures Valid() && hand == [] && queuedBytes == old(queuedBytes) - size
      ensures batches == Drained(old(batches), run)
    {
      DrainAccounts(run, carry, queue, queuedBytes);
      Regroup(run, Carried(carry), queue);
      DrainCompletes(accepted, batches, run, [] + Carried(carry) + queue);
      AllFitNext(batches, run);
      hide Complete, Accounted, AllFit, BatchFits, Carried, Bytes, Flatten, Drained;
      queuedBytes := queuedBytes - size;
      batches := Drained(batches, run);
      hand := [];
    }
  }

  lemma BytesOfNone()
    ensures Bytes([]) == 0
  {
  }

  lemma {:induction false} ByTimeLength(items: seq<Item>)
    ensures |ByTime(items)| == |items|
    decreases |items|
  {
    if items != [] {
      ByTimeLength(items[..|items| - 1]);
      InsertLength(ByTime(items[..|items| - 1]), items[|items| - 1]);
    }
  }

  lemma {:induction false} InsertLength(sorted: seq<Item>, item: Item)
    ensures |InsertByTime(sorted, item)| == |sorted| + 1
    decreases |sorted|
  {
    if sorted != [] && sorted[|sorted| - 1].ts > item.ts {
      InsertLength(sorted[..|sorted| - 1], item);
    }
  }
}
