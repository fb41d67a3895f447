/**
 The batcher: messages wait in `pending` and leave it as a batch when it is full, when the oldest has waited
 long enough, or when a flush is asked for. Times are the clock readings the code takes.
 */
module Batchers {
  import opened Bytes
  import opened Options
  import opened Batch

  /** `detached` lists the batches in the order they left `pending`. */
  datatype State = State(pending: seq<bytes>, firstAdded: int, detached: seq<seq<bytes>>)

  datatype Event = Add(msg: bytes, now: int) | Tick(now: int) | Flush

  function Detach(s: State): State {
    s.(pending := [], detached := s.detached + [s.pending])
  }

  function Queue(s: State, msg: bytes, now: int): State {
    s.(pending := s.pending + [msg], firstAdded := if s.pending == [] then now else s.firstAdded)
  }

  function Handle(max: int, linger: int, s: State, e: Event): State {
    match e
    case Add(msg, now) =>
      var q := Queue(s, msg, now);
      if |q.pending| >= max then Detach(q) else q
    case Tick(now) => if s.pending != [] && now - s.firstAdded >= linger then Detach(s) else s
    case Flush => if s.pending != [] then Detach(s) else s
  }

  class Batcher {
    const maxBatchSize: int
    const maxLinger: int
    var pending: seq<bytes>
    var firstAdded: int
    ghost var detached: seq<seq<bytes>>

    ghost function Now(): State
      reads this
    {
      State(pending, firstAdded, detached)
    }

    constructor (maxBatchSize: int, maxLinger: int)
      ensures this.maxBatchSize == maxBatchSize && this.maxLinger == maxLinger && Now() == State([], 0, [])
    {
      this.maxBatchSize, this.maxLinger := maxBatchSize, maxLinger;
      pending, firstAdded, detached := [], 0, [];
    }

    /** The lock section of Add; `toFlush` is what is then encoded and written. */
    method AddMessage(msg: bytes, now: int) returns (toFlush: seq<bytes>)
      modifies this
      ensures Now() == Handle(maxBatchSize, maxLinger, old(Now()), Add(msg, now))
      ensures detached == old(detached) + if toFlush == [] then [] else [toFlush]
    {
      if |pending| == 0 { firstAdded := now; }
      pending := pending + [msg];
      toFlush := [];
      if |pending| >= maxBatchSize {
        toFlush := pending;
        Take();
      }
    }

    method Take()
      modifies this`pending, this`detached
      ensures Now() == Detach(old(Now()))
    {
      detached := detached + [pending];
      pending := [];
    }

    /** The lock section of one turn of lingerLoop. */
    method Linger(now: int) returns (toFlush: seq<bytes>)
      modifies this
      ensures Now() == Handle(maxBatchSize, maxLinger, old(Now()), Tick(now))
      ensures detached == old(detached) + if toFlush == [] then [] else [toFlush]
    {
      toFlush := [];
      if |pending| > 0 && now - firstAdded >= maxLinger {
        toFlush := pending;
        Take();
      }
    }

    method FlushNow() returns (toFlush: seq<bytes>)
      modifies this
      ensures Now() == Handle(maxBatchSize, maxLinger, old(Now()), Flush)
      ensures detached == old(detached) + if toFlush == [] then [] else [toFlush]
    {
      toFlush := pending;
      if toFlush != [] { Take(); }
    }
  }

  // ----- every run -----

  function Run(max: int, linger: int, events: seq<Event>): State {
    if events == [] then State([], 0, [])
    else Handle(max, linger, Run(max, linger, events[..|events| - 1]), events[|events| - 1])
  }

  /** The messages added, and when. */
  function Adds(events: seq<Event>): seq<(bytes, int)> {
    if events == [] then []
    else
      var rest, e := Adds(events[..|events| - 1]), events[|events| - 1];
      if e.Add? then rest + [(e.msg, e.now)] else rest
  }

  function Messages(adds: seq<(bytes, int)>): (msgs: seq<bytes>)
    ensures |msgs| == |adds| && forall i :: 0 <= i < |msgs| ==> msgs[i] == adds[i].0
  {
    seq(|adds|, i requires 0 <= i < |adds| => adds[i].0)
  }

  function Flat(batches: seq<seq<bytes>>): seq<bytes> {
    if batches == [] then [] else Flat(batches[..|batches| - 1]) + batches[|batches| - 1]
  }

  lemma FlatSnoc(batches: seq<seq<bytes>>, b: seq<bytes>)
    ensures Flat(batches + [b]) == Flat(batches) + b
  {
    assert (batches + [b])[..|batches|] == batches;
  }

  function Limit(max: int): nat {
    if max < 1 then 1 else max
  }

  /** Nothing is lost, repeated or reordered; every batch is nonempty and within the limit; fewer than the limit wait;
      and `firstAdded` is when the oldest waiting message came. */
  ghost predicate Accounted(max: int, s: State, adds: seq<(bytes, int)>) {
    && Flat(s.detached) + s.pending == Messages(adds)
    && (forall i :: 0 <= i < |s.detached| ==> 0 < |s.detached[i]| <= Limit(max))
    && |s.pending| < Limit(max)
    && (s.pending != [] ==> |Flat(s.detached)| < |adds| && s.firstAdded == adds[|Flat(s.detached)|].1)
  }

  lemma {:induction false} RunAccounted(max: int, linger: int, events: seq<Event>)
    ensures Accounted(max, Run(max, linger, events), Adds(events))
  {
    if events == [] {
      assert Messages([]) == [];
    } else {
      var before, e := events[..|events| - 1], events[|events| - 1];
      RunAccounted(max, linger, before);
      HandleAccounted(max, linger, Run(max, linger, before), Adds(before), e);
    }
  }

  lemma HandleAccounted(max: int, linger: int, s: State, adds: seq<(bytes, int)>, e: Event)
    requires Accounted(max, s, adds)
    ensures Accounted(max, Handle(max, linger, s, e), if e.Add? then adds + [(e.msg, e.now)] else adds)
  {
    match e
    case Add(msg, now) =>
      var q, adds' := Queue(s, msg, now), adds + [(msg, now)];
      assert Flat(s.detached) + (s.pending + [msg]) == Flat(s.detached) + s.pending + [msg] == Messages(adds');
      if |q.pending| >= max { DetachAccounted(max, q, adds'); }
    case Tick(now) => if s.pending != [] { DetachAccounted(max, s, adds); }
    case Flush => if s.pending != [] { DetachAccounted(max, s, adds); }
  }

  lemma DetachAccounted(max: int, s: State, adds: seq<(bytes, int)>)
    requires Flat(s.detached) + s.pending == Messages(adds) && 0 < |s.pending| <= Limit(max)
    requires forall i :: 0 <= i < |s.detached| ==> 0 < |s.detached[i]| <= Limit(max)
    ensures Accounted(max, Detach(s), adds)
  {
    FlatSnoc(s.detached, s.pending);
    var d := Detach(s);
    assert Flat(d.detached) + [] == Flat(d.detached);
  }

  /** Over every interleaving of adds, ticks and flushes: the batches in order, then what is pending, are the messages
      added; no batch is empty or over the limit. */
  lemma BatchesAreMessages(max: int, linger: int, events: seq<Event>)
    ensures var s := Run(max, linger, events);
            && Flat(s.detached) + s.pending == Messages(Adds(events))
            && |s.pending| < Limit(max)
            && forall i :: 0 <= i < |s.detached| ==> 0 < |s.detached[i]| <= Limit(max)
  {
    RunAccounted(max, linger, events);
  }

  /** After a tick, the oldest message still pending was added less than the linger time before it. */
  lemma LingerBound(max: int, linger: int, events: seq<Event>, now: int)
    ensures var s, adds := Run(max, linger, events + [Tick(now)]), Adds(events);
            s.pending != [] ==> |Flat(s.detached)| < |adds| && now - adds[|Flat(s.detached)|].1 < linger
  {
    var all := events + [Tick(now)];
    assert all[..|all| - 1] == events;
    RunAccounted(max, linger, events);
  }

  /** What event `e` makes leave, when `adds` were added so far. */
  ghost predicate Leaves(max: int, linger: int, adds: seq<(bytes, int)>, s: State, s': State, e: Event) {
    && |s.pending| <= |adds| && s.pending == Messages(adds)[|adds| - |s.pending|..]
    && match e
       case Add(msg, _) =>
         if |s.pending| + 1 == Limit(max) then s'.pending == [] && s'.detached == s.detached + [s.pending + [msg]]
         else s'.pending == s.pending + [msg] && s'.detached == s.detached
       case Tick(now) =>
         if s.pending != [] && now - adds[|adds| - |s.pending|].1 >= linger
         then s'.pending == [] && s'.detached == s.detached + [s.pending]
         else s' == s
       case Flush =>
         if s.pending != [] then s'.pending == [] && s'.detached == s.detached + [s.pending] else s' == s
  }

  lemma Waiting(max: int, s: State, adds: seq<(bytes, int)>)
    requires Accounted(max, s, adds)
    ensures |s.pending| <= |adds| && s.pending == Messages(adds)[|adds| - |s.pending|..]
    ensures s.pending != [] ==> s.firstAdded == adds[|adds| - |s.pending|].1
  {
    var out := Flat(s.detached);
    assert |out + s.pending| == |adds| && (out + s.pending)[|out|..] == s.pending;
  }

  lemma HandleLeaves(max: int, linger: int, adds: seq<(bytes, int)>, s: State, e: Event)
    requires |s.pending| <= |adds| && s.pending == Messages(adds)[|adds| - |s.pending|..] && |s.pending| < Limit(max)
    requires s.pending != [] ==> s.firstAdded == adds[|adds| - |s.pending|].1
    ensures Leaves(max, linger, adds, s, Handle(max, linger, s, e), e)
  {
  }

  /**
   When a batch leaves, after any run. A message is added to those waiting, and they leave only when they fill a batch.
   A tick takes them only if the oldest has waited for the linger time. A flush always does. The messages that wait are
   those added after the ones that left.
   */
  lemma LeavesExactly(max: int, linger: int, events: seq<Event>, e: Event)
    ensures Leaves(max, linger, Adds(events), Run(max, linger, events), Run(max, linger, events + [e]), e)
  {
    var s := Run(max, linger, events);
    RunAccounted(max, linger, events);
    Waiting(max, s, Adds(events));
    HandleLeaves(max, linger, Adds(events), s, e);
    assert (events + [e])[..|events|] == events;
  }

  /** What the readers of a run's blobs get, decoding each in turn. */
  function Delivered(batches: seq<seq<bytes>>, zip: bytes -> bytes, unzip: bytes -> Option<bytes>): seq<bytes> {
    if batches == [] then []
    else
      var rest := Delivered(batches[..|batches| - 1], zip, unzip);
      var d := Decode(Encoded(batches[|batches| - 1], zip), unzip);
      if d.Messages? then rest + d.msgs else rest
  }

  lemma {:induction false} DeliveredFlat(batches: seq<seq<bytes>>, zip: bytes -> bytes, unzip: bytes -> Option<bytes>)
    requires Lossless(zip, unzip) && forall i :: 0 <= i < |batches| ==> Carried(batches[i])
    ensures Delivered(batches, zip, unzip) == Flat(batches)
  {
    if batches == [] {
    } else {
      var n := |batches| - 1;
      DeliveredFlat(batches[..n], zip, unzip);
      RoundTrip(batches[n], zip, unzip);
    }
  }

  /** End to end: after a flush, decoding the blobs in order gives exactly the messages added, for messages and batch
      sizes the format can carry. */
  lemma FlushedDelivers(max: int, linger: int, events: seq<Event>, zip: bytes -> bytes, unzip: bytes -> Option<bytes>)
    requires Lossless(zip, unzip) && max < UINT32_LIMIT
    requires forall i :: 0 <= i < |Adds(events)| ==> |Adds(events)[i].0| < UINT32_LIMIT
    ensures Delivered(Run(max, linger, events + [Flush]).detached, zip, unzip) == Messages(Adds(events))
  {
    var all := events + [Flush];
    assert all[..|all| - 1] == events;
    RunAccounted(max, linger, all);
    var s := Run(max, linger, all);
    assert s.pending == [] && Flat(s.detached) + [] == Flat(s.detached);
    forall i | 0 <= i < |s.detached| ensures Carried(s.detached[i]) {
      forall k | 0 <= k < |s.detached[i]| ensures |s.detached[i][k]| < UINT32_LIMIT {
        var j := FlatHas(s.detached, i, k);
        assert Messages(Adds(events))[j] == Adds(events)[j].0;
      }
    }
    DeliveredFlat(s.detached, zip, unzip);
  }

  lemma {:induction false} FlatHas(batches: seq<seq<bytes>>, i: nat, k: nat) returns (j: nat)
    requires i < |batches| && k < |batches[i]|
    ensures j < |Flat(batches)| && Flat(batches)[j] == batches[i][k]
  {
    var n := |batches| - 1;
    if i < n {
      j := FlatHas(batches[..n], i, k);
    } else {
      j := |Flat(batches[..n])| + k;
    }
  }
}
