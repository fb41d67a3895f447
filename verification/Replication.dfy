/**
 A partition replica: a Raft peer's apply channel feeding a segmented log, a batch at a time or a message at a
 time; and what it means for a write to have been acknowledged.
 */
module Replication {
  import opened Sequences
  import opened Bytes
  import opened Options
  import opened RaftNode
  import opened RaftCluster
  import opened RaftSafety
  import RaftApply
  import Segments
  import L = SegmentedLog
  import LogTheorems
  import B = Batch
  import Storage

  type Unzip = bytes -> Option<bytes>

  // ----- the apply loop -----

  /** The messages one committed payload stands for: a batch's messages, or the payload itself. */
  function Unpacked(payload: bytes, unzip: Unzip): seq<bytes> {
    var d := B.Decode(payload, unzip);
    if d.Messages? then d.msgs else [payload]
  }

  function AppendAll(l: L.Log, msgs: seq<bytes>): (r: L.Log)
    requires L.Usable(l)
    ensures L.Usable(r)
  {
    if msgs == [] then l else L.AppendTo(AppendAll(l, msgs[..|msgs| - 1]), msgs[|msgs| - 1])
  }

  datatype Partition = Partition(log: L.Log, lastApplied: nat)

  function ApplyOne(p: Partition, msg: ApplyMsg, unzip: Unzip): (r: Partition)
    requires L.Usable(p.log)
    ensures L.Usable(r.log)
  {
    if msg.command.Payload? then Partition(AppendAll(p.log, Unpacked(msg.command.data, unzip)), msg.index) else p
  }

  /** storage.Open on an empty directory with the default segment size. */
  const EMPTY_LOG: L.Log := L.OpenLog(0, [0], L.NO_FILES, map[])

  /** A replica that has taken `msgs` off its apply channel. */
  function Replica(msgs: seq<ApplyMsg>, unzip: Unzip): (p: Partition)
    ensures L.Usable(p.log)
  {
    if msgs == [] then
      LogTheorems.OpenAllAt([0], map[], 0);
      Partition(EMPTY_LOG, 0)
    else ApplyOne(Replica(msgs[..|msgs| - 1], unzip), msgs[|msgs| - 1], unzip)
  }

  class ReplicatedPartition {
    const log: Storage.Log
    var lastAppliedRaftIndex: nat

    ghost function State(): Partition
      reads this, log, log.segments, log.dir, log.coldStore
    {
      Partition(log.State(), lastAppliedRaftIndex)
    }

    constructor (log: Storage.Log)
      ensures this.log == log && State() == Partition(log.State(), 0)
    {
      this.log := log;
      lastAppliedRaftIndex := 0;
    }

    /** One turn of applyLoop. */
    method ApplyMessage(msg: ApplyMsg, unzip: Unzip)
      requires log.Valid() && L.Usable(log.State())
      modifies this, log, log.segments, log.dir
      ensures log.Valid() && State() == ApplyOne(old(State()), msg, unzip)
    {
      if !msg.command.Payload? { return; }
      var payload := msg.command.data;
      var messages := [payload];
      var d := B.TryDecode(payload, unzip);
      if d.Messages? { messages := d.msgs; }
      AppendMessages(messages);
      lastAppliedRaftIndex := msg.index;
    }

    method AppendMessages(messages: seq<bytes>)
      requires log.Valid() && L.Usable(log.State())
      modifies log, log.segments, log.dir
      ensures log.Valid() && log.State() == AppendAll(old(log.State()), messages)
    {
      ghost var before := log.State();
      for k := 0 to |messages|
        invariant log.Valid() && log.State() == AppendAll(before, messages[..k])
        invariant forall s :: s in log.segments ==> s in old(log.segments) || fresh(s)
      {
        assert messages[..k + 1][..k] == messages[..k];
        assert log.active in log.segments;
        var offset := log.Append(messages[k]);
      }
      assert messages[..|messages|] == messages;
    }
  }

  // ----- what a plain payload becomes -----

  /** The payload is marked as a batch and unzips to a whole batch of `msgs`, with anything after it. */
  ghost predicate LooksLike(payload: bytes, msgs: seq<bytes>, unzip: Unzip) {
    && B.MAGIC <= payload && unzip(payload[4..]).Some?
    && B.Carried(msgs) && B.Body(msgs) <= unzip(payload[4..]).value
  }

  /** A payload is stored as it is exactly when it does not look like a batch of anything but itself; one that is marked
      but damaged is stored as it is too. */
  lemma PlainKeptExactly(payload: bytes, unzip: Unzip)
    ensures Unpacked(payload, unzip) == [payload] <==>
              forall msgs :: LooksLike(payload, msgs, unzip) ==> msgs == [payload]
  {
    forall msgs ensures LooksLike(payload, msgs, unzip) <==> B.Decode(payload, unzip) == B.Messages(msgs) {
      B.DecodeExactly(payload, msgs, unzip);
    }
    var d := B.Decode(payload, unzip);
    assert d.Messages? ==> LooksLike(payload, d.msgs, unzip);
  }

  /** And a payload that looks like a batch of `msgs` is stored as those. */
  lemma UnpackedExactly(payload: bytes, msgs: seq<bytes>, unzip: Unzip)
    requires LooksLike(payload, msgs, unzip)
    ensures Unpacked(payload, unzip) == msgs
  {
    B.DecodeExactly(payload, msgs, unzip);
  }

  /** So a message whose bytes are an encoded empty batch is stored nowhere. */
  lemma EmptyBatchVanishes(zip: bytes -> bytes, unzip: Unzip)
    requires B.Lossless(zip, unzip)
    ensures Unpacked(B.Encoded([], zip), unzip) == []
  {
    B.RoundTrip([], zip, unzip);
  }

  // ----- what a replica holds -----

  /** Every message of the payloads in `msgs`, in order. */
  function Contents(msgs: seq<ApplyMsg>, unzip: Unzip): seq<bytes> {
    if msgs == [] then []
    else
      var rest, command := Contents(msgs[..|msgs| - 1], unzip), msgs[|msgs| - 1].command;
      if command.Payload? then rest + Unpacked(command.data, unzip) else rest
  }

  lemma {:induction false} AppendAllHolds(l: L.Log, h: seq<bytes>, msgs: seq<bytes>)
    requires L.LogHolds(l, h) && Segments.Short(msgs)
    ensures L.LogHolds(AppendAll(l, msgs), h + msgs) && L.OldestOffset(AppendAll(l, msgs)) == L.OldestOffset(l)
  {
    if msgs == [] {
      assert h + msgs == h;
    } else {
      var front, last := msgs[..|msgs| - 1], msgs[|msgs| - 1];
      AppendAllHolds(l, h, front);
      LogTheorems.AppendHoldsLog(AppendAll(l, front), h + front, last);
      assert h + msgs == h + front + [last];
    }
  }

  /** The replica's log holds the contents of what it has applied, from offset 0 on. */
  lemma {:induction false} ReplicaHolds(msgs: seq<ApplyMsg>, unzip: Unzip)
    requires Segments.Short(Contents(msgs, unzip))
    ensures L.LogHolds(Replica(msgs, unzip).log, Contents(msgs, unzip)) && L.OldestOffset(Replica(msgs, unzip).log) == 0
  {
    if msgs == [] {
      EmptyHolds();
    } else {
      var front, last := msgs[..|msgs| - 1], msgs[|msgs| - 1];
      var before, h := Contents(front, unzip), Contents(msgs, unzip);
      assert forall i :: 0 <= i < |before| ==> before[i] == h[i];
      ReplicaHolds(front, unzip);
      if last.command.Payload? {
        var more := Unpacked(last.command.data, unzip);
        assert forall i :: 0 <= i < |more| ==> more[i] == h[|before| + i];
        AppendAllHolds(Replica(front, unzip).log, before, more);
      }
    }
  }

  lemma EmptyHolds()
    ensures L.LogHolds(EMPTY_LOG, []) && L.OldestOffset(EMPTY_LOG) == 0
  {
    LogTheorems.FirstHolds(0);
  }

  lemma {:induction false} ContentsPrefix(x: seq<ApplyMsg>, y: seq<ApplyMsg>, unzip: Unzip)
    requires x <= y
    ensures Contents(x, unzip) <= Contents(y, unzip)
    decreases |y|
  {
    if x == y {
    } else {
      ContentsPrefix(x, y[..|y| - 1], unzip);
    }
  }

  /** What peer `a` had put on its apply channel by moment `i`, as far as its replica has read it. */
  ghost function Taken(peers: seq<NodeId>, steps: seq<Step>, i: nat, a: NodeId, x: nat): seq<ApplyMsg>
    requires i <= |steps| && a in peers && x <= |NodeAt(peers, steps, i, a).applied|
  {
    NodeAt(peers, steps, i, a).applied[..x]
  }

  lemma TakenComparable(peers: seq<NodeId>, steps: seq<Step>, i: nat, a: NodeId, x: nat, j: nat, b: NodeId, y: nat)
    requires NoRepeats(peers) && i <= |steps| && a in peers && x <= |NodeAt(peers, steps, i, a).applied|
    requires j <= |steps| && b in peers && y <= |NodeAt(peers, steps, j, b).applied|
    ensures var s, t := Taken(peers, steps, i, a, x), Taken(peers, steps, j, b, y); s <= t || t <= s
  {
    if i <= j {
      RaftApply.StreamsPrefix(peers, steps, i, j, a, b);
    } else {
      RaftApply.StreamsPrefix(peers, steps, j, i, b, a);
    }
  }

  /**
   The bridge: two replicas of one group, at any moments of any run and however far each has read its channel, hold the
   same bytes at every offset both have.
   */
  lemma SameOffsetSameBytes(peers: seq<NodeId>, steps: seq<Step>, i: nat, a: NodeId, x: nat, j: nat, b: NodeId, y: nat,
                            unzip: Unzip, offset: int)
    requires NoRepeats(peers) && i <= |steps| && a in peers && x <= |NodeAt(peers, steps, i, a).applied|
    requires j <= |steps| && b in peers && y <= |NodeAt(peers, steps, j, b).applied|
    requires Segments.Short(Contents(Taken(peers, steps, i, a, x), unzip))
    requires Segments.Short(Contents(Taken(peers, steps, j, b, y), unzip))
    ensures var p := Replica(Taken(peers, steps, i, a, x), unzip).log;
            var q := Replica(Taken(peers, steps, j, b, y), unzip).log;
            0 <= offset < L.NextOffset(p) && offset < L.NextOffset(q) ==>
              L.Read(p, offset) == L.Read(q, offset) != None
  {
    var s, t := Taken(peers, steps, i, a, x), Taken(peers, steps, j, b, y);
    TakenComparable(peers, steps, i, a, x, j, b, y);
    if s <= t { ContentsPrefix(s, t, unzip); } else { ContentsPrefix(t, s, unzip); }
    ReplicaHolds(s, unzip);
    ReplicaHolds(t, unzip);
    LogTheorems.ReadServes(Replica(s, unzip).log, Contents(s, unzip), offset);
    LogTheorems.ReadServes(Replica(t, unzip).log, Contents(t, unzip), offset);
  }

  // ----- acknowledged writes -----

  /** WaitApplied's test. */
  predicate HasApplied(p: Partition, raftIndex: nat) {
    p.lastApplied >= raftIndex
  }

  lemma {:induction false} LastTaken(msgs: seq<ApplyMsg>, unzip: Unzip, raftIndex: nat)
    requires HasApplied(Replica(msgs, unzip), raftIndex) && raftIndex > 0
    ensures exists z :: 0 <= z < |msgs| && msgs[z].index >= raftIndex
  {
    var n := |msgs| - 1;
    if msgs[n].command.Payload? {
      assert msgs[n].index >= raftIndex;
    } else {
      LastTaken(msgs[..n], unzip, raftIndex);
      var z :| 0 <= z < n && msgs[..n][z].index >= raftIndex;
      assert msgs[z].index >= raftIndex;
    }
  }

  /** A replica past an index has read that index's message, at the place the whole channel has it. */
  lemma TakenHas(msgs: seq<ApplyMsg>, x: nat, unzip: Unzip, m: ApplyMsg) returns (z: nat)
    requires x <= |msgs| && RaftApply.Increasing(msgs) && m in msgs && m.index > 0
    requires HasApplied(Replica(msgs[..x], unzip), m.index)
    ensures z < x && msgs[z] == m
  {
    LastTaken(msgs[..x], unzip, m.index);
    var w :| 0 <= w < x && msgs[..x][w].index >= m.index;
    z :| 0 <= z < |msgs| && msgs[z] == m;
    assert msgs[w].index >= msgs[z].index;
  }

  lemma {:induction false} MarkIs(msgs: seq<ApplyMsg>, unzip: Unzip, z: nat)
    requires RaftApply.Increasing(msgs) && z < |msgs| && msgs[z].command.Payload?
    ensures Replica(msgs, unzip).lastApplied >= msgs[z].index
  {
    var n := |msgs| - 1;
    if !msgs[n].command.Payload? {
      MarkIs(msgs[..n], unzip, z);
    }
  }

  /** WaitApplied answers yes for a payload's index exactly when the replica has taken that payload off the channel. */
  lemma WaitAppliedExactly(msgs: seq<ApplyMsg>, x: nat, unzip: Unzip, m: ApplyMsg)
    requires x <= |msgs| && RaftApply.Increasing(msgs) && m in msgs && m.index > 0 && m.command.Payload?
    ensures HasApplied(Replica(msgs[..x], unzip), m.index) <==> m in msgs[..x]
  {
    if HasApplied(Replica(msgs[..x], unzip), m.index) {
      var z := TakenHas(msgs, x, unzip, m);
      assert msgs[..x][z] == m;
    }
    if m in msgs[..x] {
      var z :| 0 <= z < x && msgs[..x][z] == m;
      MarkIs(msgs[..x], unzip, z);
    }
  }

  /** The log has `msgs` at `start` and the offsets after it. */
  ghost predicate Serves(l: L.Log, start: nat, msgs: seq<bytes>) {
    forall m: nat :: m < |msgs| ==> L.Read(l, start + m) == Some(msgs[m])
  }

  lemma HoldsServes(l: L.Log, h: seq<bytes>, front: seq<bytes>, msgs: seq<bytes>)
    requires L.LogHolds(l, h) && L.OldestOffset(l) == 0 && front + msgs <= h
    ensures Serves(l, |front|, msgs)
  {
    forall m: nat | m < |msgs| ensures L.Read(l, |front| + m) == Some(msgs[m]) {
      LogTheorems.ReadServes(l, h, |front| + m);
      assert h[|front| + m] == (front + msgs)[|front| + m];
    }
  }

  /** The messages of the payload read at `z` lie at consecutive offsets, after those of everything before it. */
  lemma ServesAt(msgs: seq<ApplyMsg>, x: nat, z: nat, unzip: Unzip, data: bytes)
    requires z < x <= |msgs| && msgs[z].command == Payload(data)
    requires Segments.Short(Contents(msgs[..x], unzip))
    ensures Serves(Replica(msgs[..x], unzip).log, |Contents(msgs[..z], unzip)|, Unpacked(data, unzip))
  {
    assert msgs[..z + 1][..z] == msgs[..z];
    ContentsPrefix(msgs[..z + 1], msgs[..x], unzip);
    ReplicaHolds(msgs[..x], unzip);
    HoldsServes(Replica(msgs[..x], unzip).log, Contents(msgs[..x], unzip), Contents(msgs[..z], unzip),
                Unpacked(data, unzip));
  }

  lemma AppliedAt(peers: seq<NodeId>, steps: seq<Step>, i: nat, a: NodeId)
    requires NoRepeats(peers) && i <= |steps| && a in peers
    ensures var n := NodeAt(peers, steps, i, a);
            && n.lastApplied <= n.commitIndex < |n.log|
            && RaftApply.Increasing(n.applied) && RaftApply.FromLog(n.applied, n.log, n.lastApplied + 1)
            && RaftApply.Complete(n.applied, n.log, n.lastApplied + 1)
  {
    RaftApply.AppliedExactly(peers, steps[..i], a);
    assert steps[..i][..i] == steps[..i];
  }

  /** A replica past an index is the replica of a peer past it. */
  lemma PeerHasApplied(peers: seq<NodeId>, steps: seq<Step>, i: nat, a: NodeId, x: nat, unzip: Unzip, raftIndex: nat)
    requires NoRepeats(peers) && i <= |steps| && a in peers && x <= |NodeAt(peers, steps, i, a).applied|
    requires HasApplied(Replica(Taken(peers, steps, i, a, x), unzip), raftIndex) && raftIndex > 0
    ensures raftIndex <= NodeAt(peers, steps, i, a).lastApplied
  {
    AppliedAt(peers, steps, i, a);
    var s := Taken(peers, steps, i, a, x);
    LastTaken(s, unzip, raftIndex);
    var z :| 0 <= z < |s| && s[z].index >= raftIndex;
    assert s[z] == NodeAt(peers, steps, i, a).applied[z];
  }

  lemma SamePlace(s: seq<ApplyMsg>, t: seq<ApplyMsg>, z: nat, w: nat)
    requires (s <= t || t <= s) && RaftApply.Increasing(s) && RaftApply.Increasing(t)
    requires z < |s| && w < |t| && s[z] == t[w]
    ensures z == w && s[..z] == t[..w]
  {
  }

  lemma CommandTaken(peers: seq<NodeId>, steps: seq<Step>, i: nat, a: NodeId, x: nat, unzip: Unzip, m: ApplyMsg)
    returns (z: nat)
    requires NoRepeats(peers) && i <= |steps| && a in peers && x <= |NodeAt(peers, steps, i, a).applied|
    requires m.index > 0 && m.command != Nil && HasApplied(Replica(Taken(peers, steps, i, a, x), unzip), m.index)
    requires var log := NodeAt(peers, steps, i, a).log; m.index < |log| && log[m.index].command == m.command
    ensures z < x && NodeAt(peers, steps, i, a).applied[z] == m
  {
    PeerHasApplied(peers, steps, i, a, x, unzip, m.index);
    AppliedAt(peers, steps, i, a);
    var n := NodeAt(peers, steps, i, a);
    assert m == ApplyMsg(n.log[m.index].command, m.index);
    z := TakenHas(n.applied, x, unzip, m);
  }

  /** Start's answer to a leader's proposal at step `i`. */
  ghost function StartIndex(peers: seq<NodeId>, steps: seq<Step>, i: nat, a: NodeId): nat
    requires i <= |steps| && a in peers
  {
    |NodeAt(peers, steps, i, a).log|
  }

  ghost predicate Proposed(peers: seq<NodeId>, steps: seq<Step>, i: nat, a: NodeId, data: bytes) {
    && i < |steps| && a in peers
    && steps[i] == Propose(a, Payload(data)) && NodeAt(peers, steps, i, a).role == Leader
  }

  /** The entry peer `b` holds at the index Start returned has the term Start returned. */
  ghost predicate TermKept(peers: seq<NodeId>, steps: seq<Step>, i: nat, a: NodeId, j: nat, b: NodeId)
    requires i <= |steps| && j <= |steps| && a in peers && b in peers
  {
    var index, log := StartIndex(peers, steps, i, a), NodeAt(peers, steps, j, b).log;
    index < |log| && log[index].term == NodeAt(peers, steps, i, a).currentTerm
  }

  /**
   A write acknowledged at the level `all`, that is, once a replica has applied its index, is served by that replica and
   by every replica that ever applies the index, at the same offsets, provided the entry applied there has the term
   Start returned. `start` is the first of those offsets.
   */
  lemma AckedWriteServed(peers: seq<NodeId>, steps: seq<Step>, i: nat, a: NodeId, data: bytes,
                         j: nat, b: NodeId, x: nat, k: nat, d: NodeId, y: nat, unzip: Unzip) returns (start: nat)
    requires NoRepeats(peers) && i < j <= k <= |steps| && b in peers && d in peers && Proposed(peers, steps, i, a, data)
    requires x <= |NodeAt(peers, steps, j, b).applied| && y <= |NodeAt(peers, steps, k, d).applied|
    requires HasApplied(Replica(Taken(peers, steps, j, b, x), unzip), StartIndex(peers, steps, i, a))
    requires HasApplied(Replica(Taken(peers, steps, k, d, y), unzip), StartIndex(peers, steps, i, a))
    requires TermKept(peers, steps, i, a, j, b)
    requires Segments.Short(Contents(Taken(peers, steps, j, b, x), unzip))
    requires Segments.Short(Contents(Taken(peers, steps, k, d, y), unzip))
    ensures Serves(Replica(Taken(peers, steps, j, b, x), unzip).log, start, Unpacked(data, unzip))
    ensures Serves(Replica(Taken(peers, steps, k, d, y), unzip).log, start, Unpacked(data, unzip))
  {
    var z := AckedPlace(peers, steps, i, a, data, j, b, x, k, d, y, unzip);
    var s, t := NodeAt(peers, steps, j, b).applied, NodeAt(peers, steps, k, d).applied;
    start := |Contents(s[..z], unzip)|;
    ServesAt(s, x, z, unzip, data);
    ServesAt(t, y, z, unzip, data);
  }

  lemma AckedPlace(peers: seq<NodeId>, steps: seq<Step>, i: nat, a: NodeId, data: bytes,
                   j: nat, b: NodeId, x: nat, k: nat, d: NodeId, y: nat, unzip: Unzip) returns (z: nat)
    requires NoRepeats(peers) && i < j <= k <= |steps| && b in peers && d in peers && Proposed(peers, steps, i, a, data)
    requires x <= |NodeAt(peers, steps, j, b).applied| && y <= |NodeAt(peers, steps, k, d).applied|
    requires HasApplied(Replica(Taken(peers, steps, j, b, x), unzip), StartIndex(peers, steps, i, a))
    requires HasApplied(Replica(Taken(peers, steps, k, d, y), unzip), StartIndex(peers, steps, i, a))
    requires TermKept(peers, steps, i, a, j, b)
    ensures var s, t := NodeAt(peers, steps, j, b).applied, NodeAt(peers, steps, k, d).applied;
            && z < x && z < y && s[..z] == t[..z]
            && s[z] == t[z] == ApplyMsg(Payload(data), StartIndex(peers, steps, i, a))
  {
    var index := StartIndex(peers, steps, i, a);
    AppliedAt(peers, steps, i, a);
    PeerHasApplied(peers, steps, j, b, x, unzip, index);
    PeerHasApplied(peers, steps, k, d, y, unzip, index);
    AppliedAt(peers, steps, j, b);
    AppliedAt(peers, steps, k, d);
    RaftApply.AckedEntrySurvives(peers, steps, i, a, Payload(data), j, b, k, d);
    var m := ApplyMsg(Payload(data), index);
    z := CommandTaken(peers, steps, j, b, x, unzip, m);
    var w := CommandTaken(peers, steps, k, d, y, unzip, m);
    RaftApply.StreamsPrefix(peers, steps, j, k, b, d);
    SamePlace(NodeAt(peers, steps, j, b).applied, NodeAt(peers, steps, k, d).applied, z, w);
  }

  /** Without the term the acknowledgement says nothing: the entry applied at the index is the write exactly when it has
      the term Start returned, which neither Write nor WaitApplied looks at. */
  lemma AckedExactly(peers: seq<NodeId>, steps: seq<Step>, i: nat, a: NodeId, data: bytes, j: nat, b: NodeId, x: nat,
                     unzip: Unzip)
    requires NoRepeats(peers) && i < j <= |steps| && b in peers && Proposed(peers, steps, i, a, data)
    requires x <= |NodeAt(peers, steps, j, b).applied|
    requires HasApplied(Replica(Taken(peers, steps, j, b, x), unzip), StartIndex(peers, steps, i, a))
    ensures var index, n := StartIndex(peers, steps, i, a), NodeAt(peers, steps, j, b);
            var write := Entry(NodeAt(peers, steps, i, a).currentTerm, index, Payload(data));
            index < |n.log| && (n.log[index] == write <==> TermKept(peers, steps, i, a, j, b))
  {
    AppliedAt(peers, steps, i, a);
    PeerHasApplied(peers, steps, j, b, x, unzip, StartIndex(peers, steps, i, a));
    RaftApply.AckedEntrySurvives(peers, steps, i, a, Payload(data), j, b, j, b);
  }

  /** A check that Write could make: if GetState still gives the term Start returned when the wait ends, the write is
      there, and every replica that ever applies the index serves it at the same offsets. */
  lemma AckedInTerm(peers: seq<NodeId>, steps: seq<Step>, i: nat, a: NodeId, data: bytes,
                    j: nat, x: nat, k: nat, d: NodeId, y: nat, unzip: Unzip) returns (start: nat)
    requires NoRepeats(peers) && i < j <= k <= |steps| && d in peers && Proposed(peers, steps, i, a, data)
    requires x <= |NodeAt(peers, steps, j, a).applied| && y <= |NodeAt(peers, steps, k, d).applied|
    requires HasApplied(Replica(Taken(peers, steps, j, a, x), unzip), StartIndex(peers, steps, i, a))
    requires HasApplied(Replica(Taken(peers, steps, k, d, y), unzip), StartIndex(peers, steps, i, a))
    requires NodeAt(peers, steps, j, a).currentTerm == NodeAt(peers, steps, i, a).currentTerm
    requires Segments.Short(Contents(Taken(peers, steps, j, a, x), unzip))
    requires Segments.Short(Contents(Taken(peers, steps, k, d, y), unzip))
    ensures Serves(Replica(Taken(peers, steps, j, a, x), unzip).log, start, Unpacked(data, unzip))
    ensures Serves(Replica(Taken(peers, steps, k, d, y), unzip).log, start, Unpacked(data, unzip))
  {
    RaftApply.EntryKeptInTerm(peers, steps, i, a, Payload(data), j);
    start := AckedWriteServed(peers, steps, i, a, data, j, a, x, k, d, y, unzip);
  }
}
