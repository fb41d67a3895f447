/**
 A replicated document store: a Raft peer's apply channel feeding a write-ahead log and an MVCC store.
 Replicas collect garbage whenever they like, each on its own.
 */
module DocReplication {
  import opened Sequences
  import opened Bytes
  import opened Options
  import opened Documents
  import M = MVCCStore
  import T = MVCCTheorems
  import Q = MVCCQuery
  import opened RaftNode
  import opened RaftCluster
  import opened RaftSafety
  import RaftApply
  import opened Replication
  import L = SegmentedLog
  import LogTheorems
  import Segments
  import Storage

  /** DecodeTransaction: None if the payload is not a transaction. */
  type Decoder = bytes -> Option<seq<Mutation>>

  datatype DocStore = DocStore(wal: L.Log, store: M.Store, lastApplied: nat)

  /** One turn of applyLoop: every payload is logged, whether or not it decodes and whatever the store makes of it. */
  function ApplyDoc(r: DocStore, msg: ApplyMsg, show: M.Show, decode: Decoder): (r': DocStore)
    requires L.Usable(r.wal)
    ensures L.Usable(r'.wal)
  {
    if !msg.command.Payload? then r
    else
      var payload := msg.command.data;
      DocStore(L.AppendTo(r.wal, payload),
               if decode(payload).Some? then M.Apply(r.store, show, decode(payload).value, msg.index).0 else r.store,
               msg.index)
  }

  class ReplicatedDocStore {
    const wal: Storage.Log
    const store: M.MVCC
    var lastAppliedRaftIndex: nat

    ghost function State(): DocStore
      reads this, wal, wal.segments, wal.dir, wal.coldStore, store
    {
      DocStore(wal.State(), store.State(), lastAppliedRaftIndex)
    }

    constructor (wal: Storage.Log, store: M.MVCC)
      ensures this.wal == wal && this.store == store && State() == DocStore(wal.State(), store.State(), 0)
    {
      this.wal, this.store := wal, store;
      lastAppliedRaftIndex := 0;
    }

    method ApplyMessage(msg: ApplyMsg, decode: Decoder)
      requires wal.Valid() && L.Usable(wal.State())
      modifies this, wal, wal.segments, wal.dir, store
      ensures wal.Valid() && State() == ApplyDoc(old(State()), msg, store.show, decode)
    {
      if msg.command.Payload? {
        LogPayload(msg.command.data);
        ApplyPayload(msg.command.data, msg.index, decode);
        lastAppliedRaftIndex := msg.index;
      }
    }

    method LogPayload(payload: bytes)
      requires wal.Valid() && L.Usable(wal.State())
      modifies wal, wal.segments, wal.dir
      ensures wal.Valid() && wal.State() == L.AppendTo(old(wal.State()), payload)
      ensures store.State() == old(store.State())
    {
      assert wal.active in wal.segments;
      var offset := wal.Append(payload);
    }

    method ApplyPayload(payload: bytes, raftIndex: nat, decode: Decoder)
      requires wal.Valid()
      modifies store
      ensures wal.Valid() && wal.State() == old(wal.State())
      ensures store.State() == if decode(payload).Some?
                               then M.Apply(old(store.State()), store.show, decode(payload).value, raftIndex).0
                               else old(store.State())
    {
      var muts := decode(payload);
      if muts.Some? {
        var outcome := store.ApplyTransaction(muts.value, raftIndex);
      }
    }

    method GCBefore(raftIndex: int)
      modifies store
      ensures store.State() == M.Collect(old(store.State()), raftIndex)
    {
      store.GCBefore(raftIndex);
    }
  }

  // ----- a replica's life -----

  /** A replica takes the next message off its channel, or collects garbage. */
  datatype Event = Take(msg: ApplyMsg) | Collect(watermark: int)

  function RunDoc(events: seq<Event>, show: M.Show, field: string, decode: Decoder): (r: DocStore)
    ensures L.Usable(r.wal)
  {
    if events == [] then DocStore(Replica([], _ => None).log, M.Store(map[], map[], field, 0), 0)
    else
      var r := RunDoc(events[..|events| - 1], show, field, decode);
      match events[|events| - 1]
      case Take(msg) => ApplyDoc(r, msg, show, decode)
      case Collect(w) => r.(store := M.Collect(r.store, w))
  }

  /** The messages taken. */
  function TakenIn(events: seq<Event>): seq<ApplyMsg> {
    if events == [] then []
    else
      var rest, e := TakenIn(events[..|events| - 1]), events[|events| - 1];
      if e.Take? then rest + [e.msg] else rest
  }

  /** The transactions in what a replica took off its channel. */
  function Transactions(msgs: seq<ApplyMsg>, decode: Decoder): seq<T.Op> {
    if msgs == [] then []
    else
      var rest, m := Transactions(msgs[..|msgs| - 1], decode), msgs[|msgs| - 1];
      if m.command.Payload? && decode(m.command.data).Some?
      then rest + [T.Txn(decode(m.command.data).value, m.index)]
      else rest
  }

  /** The operations the store goes through. */
  function Ops(events: seq<Event>, decode: Decoder): seq<T.Op> {
    if events == [] then []
    else
      var rest := Ops(events[..|events| - 1], decode);
      match events[|events| - 1]
      case Take(m) =>
        if m.command.Payload? && decode(m.command.data).Some?
        then rest + [T.Txn(decode(m.command.data).value, m.index)]
        else rest
      case Collect(w) => rest + [T.GC(w)]
  }

  /** The index of the last payload taken. */
  function LastPayload(msgs: seq<ApplyMsg>): nat {
    if msgs == [] then 0
    else if msgs[|msgs| - 1].command.Payload? then msgs[|msgs| - 1].index
    else LastPayload(msgs[..|msgs| - 1])
  }

  lemma {:induction false} RunDocIs(events: seq<Event>, show: M.Show, field: string, decode: Decoder)
    ensures RunDoc(events, show, field, decode).store == T.RunStore(show, field, Ops(events, decode))
    ensures Only(Ops(events, decode)) == Transactions(TakenIn(events), decode)
    ensures RunDoc(events, show, field, decode).lastApplied == LastPayload(TakenIn(events))
  {
    if events == [] {
    } else {
      var before, e := events[..|events| - 1], events[|events| - 1];
      RunDocIs(before, show, field, decode);
      var ops, rest, taken := Ops(events, decode), Ops(before, decode), TakenIn(events);
      assert ops != rest ==> ops[..|ops| - 1] == rest;
      assert e.Take? ==> taken[..|taken| - 1] == TakenIn(before);
    }
  }

  /** The payloads of `msgs`: what the write-ahead log should hold. */
  function Payloads(msgs: seq<ApplyMsg>): seq<bytes> {
    if msgs == [] then []
    else
      var rest, command := Payloads(msgs[..|msgs| - 1]), msgs[|msgs| - 1].command;
      if command.Payload? then rest + [command.data] else rest
  }

  /** The write-ahead log holds every payload taken, those of rejected and undecodable transactions included. */
  lemma {:induction false} WalHolds(events: seq<Event>, show: M.Show, field: string, decode: Decoder)
    requires Segments.Short(Payloads(TakenIn(events)))
    ensures L.LogHolds(RunDoc(events, show, field, decode).wal, Payloads(TakenIn(events)))
  {
    if events == [] {
      EmptyHolds();
    } else {
      var before, e := events[..|events| - 1], events[|events| - 1];
      var h, h' := Payloads(TakenIn(before)), Payloads(TakenIn(events));
      if e.Take? {
        assert TakenIn(events)[..|TakenIn(before)|] == TakenIn(before);
      }
      assert h <= h' && forall i :: 0 <= i < |h| ==> h[i] == h'[i];
      WalHolds(before, show, field, decode);
      if e.Take? && e.msg.command.Payload? {
        assert h'[|h|] == e.msg.command.data;
        LogTheorems.AppendHoldsLog(RunDoc(before, show, field, decode).wal, h, e.msg.command.data);
      }
    }
  }

  /** `ops` without its garbage collections. */
  function Only(ops: seq<T.Op>): seq<T.Op> {
    if ops == [] then []
    else if ops[|ops| - 1].Txn? then Only(ops[..|ops| - 1]) + [ops[|ops| - 1]]
    else Only(ops[..|ops| - 1])
  }

  lemma {:induction false} OnlyMatters(ops: seq<T.Op>)
    ensures T.RunLocked(ops) == T.RunLocked(Only(ops)) && T.LastIndex(ops) == T.LastIndex(Only(ops))
    ensures T.Ascending(ops) <==> T.Ascending(Only(ops))
    ensures T.Dangling(ops) <==> T.Dangling(Only(ops))
  {
    if ops == [] {
    } else {
      OnlyMatters(ops[..|ops| - 1]);
      assert ops[|ops| - 1].Txn? ==> Only(ops)[..|Only(ops)| - 1] == Only(ops[..|ops| - 1]);
    }
  }

  lemma {:induction false} TransactionsAscend(msgs: seq<ApplyMsg>, decode: Decoder)
    requires RaftApply.Increasing(msgs) && forall i :: 0 <= i < |msgs| ==> msgs[i].index > 0
    ensures T.Ascending(Transactions(msgs, decode))
    ensures msgs == [] ==> T.LastIndex(Transactions(msgs, decode)) == 0
    ensures msgs != [] ==> T.LastIndex(Transactions(msgs, decode)) <= msgs[|msgs| - 1].index
  {
    if msgs == [] {
    } else {
      var front, m := msgs[..|msgs| - 1], msgs[|msgs| - 1];
      TransactionsAscend(front, decode);
      assert front != [] ==> front[|front| - 1].index < m.index;
      if m.command.Payload? && decode(m.command.data).Some? {
        var txns := Transactions(msgs, decode);
        assert txns[..|txns| - 1] == Transactions(front, decode);
      }
    }
  }

  // ----- replicas agree -----

  lemma {:induction false} LastPayloadBelow(msgs: seq<ApplyMsg>, index: nat)
    requires index > 0 && forall z :: 0 <= z < |msgs| ==> msgs[z].index < index
    ensures LastPayload(msgs) < index
  {
    if msgs == [] {
    } else {
      LastPayloadBelow(msgs[..|msgs| - 1], index);
    }
  }

  /** Messages that do not move lastAppliedRaftIndex hold no transaction. */
  lemma {:induction false} SameLastSameTransactions(s: seq<ApplyMsg>, t: seq<ApplyMsg>, decode: Decoder)
    requires s <= t && RaftApply.Increasing(t) && forall k :: 0 <= k < |t| ==> t[k].index > 0
    requires LastPayload(s) == LastPayload(t)
    ensures Transactions(s, decode) == Transactions(t, decode)
  {
    if s == t {
    } else {
      var n := |t| - 1;
      assert forall z :: 0 <= z < |s| ==> s[z].index == t[z].index < t[n].index;
      LastPayloadBelow(s, t[n].index);
      SameLastSameTransactions(s, t[..n], decode);
    }
  }

  lemma TakenMessages(peers: seq<NodeId>, steps: seq<Step>, i: nat, a: NodeId, x: nat)
    requires NoRepeats(peers) && i <= |steps| && a in peers && x <= |NodeAt(peers, steps, i, a).applied|
    ensures var s := Taken(peers, steps, i, a, x);
            RaftApply.Increasing(s) && forall k :: 0 <= k < |s| ==> s[k].index > 0
  {
    AppliedAt(peers, steps, i, a);
    var s := Taken(peers, steps, i, a, x);
    forall k | 0 <= k < |s| ensures s[k].index > 0 { assert s[k] == NodeAt(peers, steps, i, a).applied[k]; }
  }

  /** Replicas with the same lastAppliedRaftIndex have gone through the same transactions, in ascending order. */
  lemma SameLastSameOps(peers: seq<NodeId>, steps: seq<Step>, i: nat, a: NodeId, x: nat, j: nat, b: NodeId, y: nat,
                        events: seq<Event>, events': seq<Event>, show: M.Show, field: string, decode: Decoder)
    requires NoRepeats(peers) && i <= |steps| && a in peers && x <= |NodeAt(peers, steps, i, a).applied|
    requires j <= |steps| && b in peers && y <= |NodeAt(peers, steps, j, b).applied|
    requires TakenIn(events) == Taken(peers, steps, i, a, x) && TakenIn(events') == Taken(peers, steps, j, b, y)
    requires RunDoc(events, show, field, decode).lastApplied == RunDoc(events', show, field, decode).lastApplied
    ensures Only(Ops(events, decode)) == Only(Ops(events', decode))
    ensures T.Ascending(Ops(events, decode)) && T.Ascending(Ops(events', decode))
  {
    var s, t := TakenIn(events), TakenIn(events');
    TakenMessages(peers, steps, i, a, x);
    TakenMessages(peers, steps, j, b, y);
    RunDocIs(events, show, field, decode);
    RunDocIs(events', show, field, decode);
    TransactionsAscend(s, decode);
    TransactionsAscend(t, decode);
    OnlyMatters(Ops(events, decode));
    OnlyMatters(Ops(events', decode));
    TakenComparable(peers, steps, i, a, x, j, b, y);
    if s <= t {
      SameLastSameTransactions(s, t, decode);
    } else {
      SameLastSameTransactions(t, s, decode);
    }
  }

  /**
   Two replicas with the same lastAppliedRaftIndex answer alike, whatever garbage each has collected. The next
   transaction gets the same verdict from both. A fresh snapshot reads the same document for every id, unless a
   transaction since the last accepted one was cut short after taking effect.
   */
  lemma ReplicasAnswerAlike(peers: seq<NodeId>, steps: seq<Step>, i: nat, a: NodeId, x: nat, j: nat, b: NodeId, y: nat,
                            events: seq<Event>, events': seq<Event>, show: M.Show, field: string, decode: Decoder,
                            id: string, muts: seq<Mutation>, at: int)
    requires NoRepeats(peers) && i <= |steps| && a in peers && x <= |NodeAt(peers, steps, i, a).applied|
    requires j <= |steps| && b in peers && y <= |NodeAt(peers, steps, j, b).applied|
    requires TakenIn(events) == Taken(peers, steps, i, a, x) && TakenIn(events') == Taken(peers, steps, j, b, y)
    requires RunDoc(events, show, field, decode).lastApplied == RunDoc(events', show, field, decode).lastApplied
    ensures var s, s' := RunDoc(events, show, field, decode).store, RunDoc(events', show, field, decode).store;
            && M.Apply(s, show, muts, at).1 == M.Apply(s', show, muts, at).1
            && (!T.Dangling(Ops(events, decode)) ==> M.Read(s, s.commitIndex, id) == M.Read(s', s'.commitIndex, id))
  {
    SameLastSameOps(peers, steps, i, a, x, j, b, y, events, events', show, field, decode);
    RunDocIs(events, show, field, decode);
    RunDocIs(events', show, field, decode);
    SameTransactionsAnswerAlike(Ops(events, decode), Ops(events', decode), show, field, id, muts, at);
  }

  lemma SameTransactionsAnswerAlike(ops: seq<T.Op>, ops': seq<T.Op>, show: M.Show, field: string,
                                    id: string, muts: seq<Mutation>, at: int)
    requires Only(ops) == Only(ops') && T.Ascending(ops)
    ensures var s, s' := T.RunStore(show, field, ops), T.RunStore(show, field, ops');
            && M.Apply(s, show, muts, at).1 == M.Apply(s', show, muts, at).1
            && (!T.Dangling(ops) ==> M.Read(s, s.commitIndex, id) == M.Read(s', s'.commitIndex, id))
  {
    OnlyMatters(ops);
    OnlyMatters(ops');
    if !T.Dangling(ops) {
      T.FreshReadsAgree(show, field, ops, id);
      T.FreshReadsAgree(show, field, ops', id);
    }
    T.Refinement(show, field, ops);
    T.Refinement(show, field, ops');
  }

  lemma SameTransactionsListAlike(show: M.Show, field: string,
                                  ops: seq<T.Op>, i: nat, j: nat, moments: seq<nat>,
                                  ops': seq<T.Op>, i': nat, j': nat, moments': seq<nat>,
                                  value: string, id: string, found: seq<string>, found': seq<string>,
                                  listed: seq<string>, listed': seq<string>)
    requires Q.Schedule(show, field, ops, i, j, moments) && Q.Schedule(show, field, ops', i', j', moments')
    requires Only(ops[..i]) == Only(ops'[..i']) && !T.Dangling(ops[..i]) && field != "" && value != Q.NIL_TEXT
    requires Listing(show, field, ops, i, j, value, found, listed)
    requires Listing(show, field, ops', i', j', value, found', listed')
    ensures (id in found <==> id in found') && (id in listed <==> id in listed')
  {
    OnlyMatters(ops[..i]);
    OnlyMatters(ops'[..i']);
    Q.QueryAgrees(show, field, ops, i, j, moments, value, found, id);
    Q.QueryAgrees(show, field, ops', i', j', moments', value, found', id);
    Q.ScanAgrees(show, field, ops, i, j, moments, listed, id);
    Q.ScanAgrees(show, field, ops', i', j', moments', listed', id);
  }

  /** What a query and a scan return through a snapshot taken after `i` operations, having read the index and the ids
      after `j`. */
  ghost predicate Listing(show: M.Show, field: string, ops: seq<T.Op>, i: nat, j: nat, value: string,
                          found: seq<string>, listed: seq<string>)
    requires i <= |ops| && j <= |ops|
  {
    var at, s := T.RunStore(show, field, ops[..i]).commitIndex, T.RunStore(show, field, ops[..j]);
    Q.Answers(found, show, at, value, s) && Q.Lists(listed, at, s)
  }

  /**
   Queries and scans through snapshots of two replicas that had the same lastAppliedRaftIndex answer alike. While they
   run each replica goes on, applying what comes and collecting behind its snapshot: `ops` and `ops'` are the operations
   of the replicas, the first `|Ops(events, decode)|` and `|Ops(events', decode)|` of them before the snapshots. A query
   for the text nil prints as is left out.
   */
  lemma ReplicasListAlike(peers: seq<NodeId>, steps: seq<Step>, i: nat, a: NodeId, x: nat, j: nat, b: NodeId, y: nat,
                          events: seq<Event>, events': seq<Event>, show: M.Show, field: string, decode: Decoder,
                          ops: seq<T.Op>, k: nat, moments: seq<nat>, ops': seq<T.Op>, k': nat, moments': seq<nat>,
                          value: string, id: string, found: seq<string>, found': seq<string>,
                          listed: seq<string>, listed': seq<string>)
    requires NoRepeats(peers) && i <= |steps| && a in peers && x <= |NodeAt(peers, steps, i, a).applied|
    requires j <= |steps| && b in peers && y <= |NodeAt(peers, steps, j, b).applied|
    requires TakenIn(events) == Taken(peers, steps, i, a, x) && TakenIn(events') == Taken(peers, steps, j, b, y)
    requires RunDoc(events, show, field, decode).lastApplied == RunDoc(events', show, field, decode).lastApplied
    requires !T.Dangling(Ops(events, decode)) && field != "" && value != Q.NIL_TEXT
    requires Ops(events, decode) <= ops && Q.Schedule(show, field, ops, |Ops(events, decode)|, k, moments)
    requires Ops(events', decode) <= ops' && Q.Schedule(show, field, ops', |Ops(events', decode)|, k', moments')
    requires Listing(show, field, ops, |Ops(events, decode)|, k, value, found, listed)
    requires Listing(show, field, ops', |Ops(events', decode)|, k', value, found', listed')
    ensures (id in found <==> id in found') && (id in listed <==> id in listed')
  {
    var n, n' := |Ops(events, decode)|, |Ops(events', decode)|;
    assert ops[..n] == Ops(events, decode) && ops'[..n'] == Ops(events', decode);
    SameLastSameOps(peers, steps, i, a, x, j, b, y, events, events', show, field, decode);
    SameTransactionsListAlike(show, field, ops, n, k, moments, ops', n', k', moments', value, id, found, found',
                              listed, listed');
  }

  /**
   Replicas that differ only in garbage collected can part when a transaction was cut short. "a" is put at index 1; the
   transaction at index 2 puts "a" again and then fails to decode, so the commit index stays at 1. Then one replica
   collects at 2: its fresh snapshot no longer has "a", the other's does.
   */
  lemma CollectedReplicaParts(show: M.Show, field: string)
    ensures var put, bad := Mutation("put", "a", Some(map[]), None), Mutation("put", "b", None, None);
            var ops := [T.Txn([put], 1), T.Txn([put, bad], 2)];
            var s, s' := T.RunStore(show, field, ops), T.RunStore(show, field, ops + [T.GC(2)]);
            && T.Ascending(ops + [T.GC(2)]) && Only(ops) == Only(ops + [T.GC(2)])
            && M.Read(s, s.commitIndex, "a") == Some(map[]) && M.Read(s', s'.commitIndex, "a") == None
  {
    var put, bad := Mutation("put", "a", Some(map[]), None), Mutation("put", "b", None, None);
    var first, second := T.Txn([put], 1), T.Txn([put, bad], 2);
    var ops := [first, second];
    var s0 := T.RunStore(show, field, []);
    var l: Locked := T.RunLocked([]);
    assert ops[..1] == [first] && [first][..0] == [] && (ops + [T.GC(2)])[..2] == ops;
    T.JustPut(s0, show, put, 1);
    var s1 := T.RunStore(show, field, [first]);
    T.PutThenBad(s1, l, show, put, bad, 2);
    var s2 := T.RunStore(show, field, ops);
    var v1, v2 := M.Version(1, map[], 1, false), M.Version(2, map[], 2, false);
    assert M.ChainOf(s1, "a") == [v1];
    assert M.ChainOf(s2, "a") == [v1, v2] && s2.commitIndex == 1;
    CollectedPart(v1, v2);
    assert T.RunStore(show, field, ops + [T.GC(2)]) == M.Collect(s2, 2);
    assert T.Ascending([]) && T.Ascending([first]) && T.Ascending(ops);
    assert Only(ops + [T.GC(2)]) == Only(ops);
  }

  lemma CollectedPart(v1: M.Version, v2: M.Version)
    requires v1.committedAt == 1 && v2.committedAt == 2
    ensures M.VersionAt([v1, v2], 1) == Some(v1) && M.VersionAt(M.Prune([v1, v2], 2), 1) == None
  {
    M.VersionAtIs([v1, v2], 1, 1);
    assert M.Leading([v1, v2], 2) == 2;
    assert [v1, v2][1..] == [v2];
    M.VersionAtIs([v2], 1, 0);
  }
}
