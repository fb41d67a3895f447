/**
 One Raft peer as a value: the fields of the Go `Raft` struct and, for every section of code that
 holds the peer's mutex, the function from the state before to the state after.
 */
module RaftNode {
  import opened Bytes

  type NodeId = nat

  /** An `interface{}` command: nil, the byte slice every caller proposes, or any other value. */
  datatype Command = Nil | Payload(data: bytes) | Foreign(tag: int)

  datatype Entry = Entry(term: nat, index: nat, command: Command)

  datatype ApplyMsg = ApplyMsg(command: Command, index: nat)

  datatype Role = Follower | Candidate | Leader

  datatype VoteArgs = VoteArgs(term: nat, candidate: NodeId, lastLogIndex: nat, lastLogTerm: nat)

  datatype VoteReply = VoteReply(term: nat, granted: bool)

  datatype AppendArgs = AppendArgs(term: nat, leader: NodeId, prevLogIndex: nat, prevLogTerm: nat,
                                   entries: seq<Entry>, leaderCommit: nat)

  datatype AppendReply = AppendReply(term: nat, success: bool, conflictIndex: int, conflictTerm: int)

  /**
   `votes` and `awaiting` belong to the running election: the counter its goroutines share, and the
   peers whose goroutine has not finished. `applied` is everything pushed to applyCh so far.
   */
  datatype Node = Node(
    currentTerm: nat,
    votedFor: int,
    log: seq<Entry>,
    role: Role,
    commitIndex: nat,
    lastApplied: nat,
    nextIndex: map<NodeId, nat>,
    matchIndex: map<NodeId, nat>,
    votes: nat,
    awaiting: set<NodeId>,
    applied: seq<ApplyMsg>)

  const SENTINEL: Entry := Entry(0, 0, Nil)
  const NOBODY: int := -1

  const FRESH: Node :=
    Node(0, NOBODY, [SENTINEL], Follower, 0, 0, map[], map[], 0, {}, [])

  /** Every entry sits at the position its Index field names. */
  predicate Indexed(log: seq<Entry>) {
    && |log| > 0
    && forall i :: 0 <= i < |log| ==> log[i].index == i
  }

  function Last(log: seq<Entry>): Entry
    requires |log| > 0
  {
    log[|log| - 1]
  }

  /** A Go map read: absent keys read as zero. */
  function At(m: map<NodeId, nat>, k: NodeId): nat {
    if k in m then m[k] else 0
  }

  /** A Go map that holds `v` for every peer. */
  function Filled(peers: seq<NodeId>, v: nat): (m: map<NodeId, nat>)
    ensures forall p :: p in m <==> p in peers
    ensures forall p :: p in m ==> m[p] == v
  {
    if peers == [] then map[] else Filled(peers[..|peers| - 1], v)[peers[|peers| - 1] := v]
  }

  function Majority(peers: seq<NodeId>): nat {
    |peers| / 2 + 1
  }

  // ----- elections -----

  function BecomeFollower(n: Node, term: nat): Node {
    n.(role := Follower, currentTerm := term, votedFor := NOBODY)
  }

  function StepDown(n: Node, term: nat): Node {
    if term > n.currentTerm then BecomeFollower(n, term) else n
  }

  function StartElection(n: Node, me: NodeId, peers: seq<NodeId>): Node {
    n.(role := Candidate, currentTerm := n.currentTerm + 1, votedFor := me, votes := 1,
       awaiting := (set p | p in peers) - {me})
  }

  function VoteRequestOf(n: Node, me: NodeId): VoteArgs
    requires |n.log| > 0
  {
    VoteArgs(n.currentTerm, me, Last(n.log).index, Last(n.log).term)
  }

  /** Section 5.4.1: the candidate's last entry is at least as recent as the voter's. */
  predicate UpToDate(args: VoteArgs, log: seq<Entry>)
    requires |log| > 0
  {
    || args.lastLogTerm > Last(log).term
    || (args.lastLogTerm == Last(log).term && args.lastLogIndex >= Last(log).index)
  }

  predicate Grants(n: Node, args: VoteArgs)
    requires |n.log| > 0
  {
    var m := StepDown(n, args.term);
    && args.term >= m.currentTerm
    && (m.votedFor == NOBODY || m.votedFor == args.candidate)
    && UpToDate(args, n.log)
  }

  function HandleVote(n: Node, args: VoteArgs): (Node, VoteReply)
    requires |n.log| > 0
  {
    var m := StepDown(n, args.term);
    if Grants(n, args) then (m.(votedFor := args.candidate), VoteReply(m.currentTerm, true))
    else (m, VoteReply(m.currentTerm, false))
  }

  function BecomeLeader(n: Node, me: NodeId, peers: seq<NodeId>): Node
    requires |n.log| > 0
  {
    var noop := Last(n.log).index + 1;
    n.(role := Leader,
       nextIndex := Filled(peers, noop),
       matchIndex := Filled(peers, 0)[me := noop],
       log := n.log + [Entry(n.currentTerm, noop, Nil)])
  }

  function HandleVoteReply(n: Node, me: NodeId, peers: seq<NodeId>, from: NodeId, term: nat, reply: VoteReply): Node
    requires |n.log| > 0
  {
    if reply.term > n.currentTerm then BecomeFollower(n, reply.term)
    else if n.role != Candidate || n.currentTerm != term then n
    else
      var m := n.(awaiting := n.awaiting - {from});
      if !reply.granted then m
      else if m.votes + 1 >= Majority(peers) then BecomeLeader(m.(votes := m.votes + 1), me, peers)
      else m.(votes := m.votes + 1)
  }

  // ----- replication: the leader's side -----

  function BuildAppend(n: Node, me: NodeId, peer: NodeId): AppendArgs
    requires |n.log| > 0 && At(n.nextIndex, peer) <= |n.log|
  {
    var next := At(n.nextIndex, peer);
    var prev := if next == 0 then 0 else next - 1;
    AppendArgs(n.currentTerm, me, prev, n.log[prev].term,
               if next <= Last(n.log).index && next < |n.log| then n.log[next..] else [],
               n.commitIndex)
  }

  /** How many peers other than `me` have acknowledged index `k`. */
  function Replicas(matchIndex: map<NodeId, nat>, me: NodeId, peers: seq<NodeId>, k: nat): nat {
    if peers == [] then 0
    else
      Replicas(matchIndex, me, peers[..|peers| - 1], k) +
      (var p := peers[|peers| - 1]; if p != me && At(matchIndex, p) >= k then 1 else 0)
  }

  predicate Committable(n: Node, me: NodeId, peers: seq<NodeId>, k: nat)
    requires k < |n.log|
  {
    && n.log[k].term == n.currentTerm
    && 1 + Replicas(n.matchIndex, me, peers, k) >= Majority(peers)
  }

  /** The largest committable index in (commitIndex, k], or commitIndex if there is none. */
  function BestCommit(n: Node, me: NodeId, peers: seq<NodeId>, k: nat): nat
    requires k < |n.log|
  {
    if k <= n.commitIndex then n.commitIndex
    else if Committable(n, me, peers, k) then k
    else BestCommit(n, me, peers, k - 1)
  }

  function AdvanceCommit(n: Node, me: NodeId, peers: seq<NodeId>): Node
    requires |n.log| > 0
  {
    n.(commitIndex := BestCommit(n, me, peers, |n.log| - 1))
  }

  /** The position of the last entry of `term`, or -1. */
  function LastOfTerm(log: seq<Entry>, term: int): int {
    if log == [] then -1
    else if Last(log).term == term then |log| - 1
    else LastOfTerm(log[..|log| - 1], term)
  }

  /** Where the leader resumes after a rejection. */
  function Backtrack(log: seq<Entry>, reply: AppendReply): int {
    if reply.conflictTerm == -1 then reply.conflictIndex
    else if LastOfTerm(log, reply.conflictTerm) >= 0 then LastOfTerm(log, reply.conflictTerm) + 1
    else reply.conflictIndex
  }

  /** The reply is still meant for this leader: it was sent in the term the leader is leading now. */
  predicate Current(n: Node, args: AppendArgs, reply: AppendReply) {
    reply.term <= n.currentTerm && n.role == Leader && n.currentTerm == args.term
  }

  function HandleAppendReply(n: Node, me: NodeId, peers: seq<NodeId>, peer: NodeId,
                             args: AppendArgs, reply: AppendReply): Node
    requires |n.log| > 0
    requires Current(n, args, reply) && !reply.success ==> Backtrack(n.log, reply) >= 0
  {
    if reply.term > n.currentTerm then BecomeFollower(n, reply.term)
    else if n.role != Leader || n.currentTerm != args.term then n
    else if reply.success then
      var matched := args.prevLogIndex + |args.entries|;
      AdvanceCommit(
        n.(matchIndex := if matched > At(n.matchIndex, peer) then n.matchIndex[peer := matched] else n.matchIndex,
           nextIndex := n.nextIndex[peer := matched + 1]),
        me, peers)
    else n.(nextIndex := n.nextIndex[peer := Backtrack(n.log, reply)])
  }

  function ClientStart(n: Node, me: NodeId, command: Command): Node
    requires |n.log| > 0
  {
    if n.role != Leader then n
    else
      var index := Last(n.log).index + 1;
      n.(log := n.log + [Entry(n.currentTerm, index, command)], matchIndex := n.matchIndex[me := index])
  }

  // ----- replication: the follower's side -----

  /** How many leading `entries` the log already holds from position `at` on, comparing terms. */
  function Agreeing(log: seq<Entry>, at: nat, entries: seq<Entry>): (k: nat)
    ensures k <= |entries| && (at <= |log| ==> at + k <= |log|)
    ensures forall i :: 0 <= i < k ==> at + i < |log| && log[at + i].term == entries[i].term
    ensures k < |entries| && at + k < |log| ==> log[at + k].term != entries[k].term
    decreases |entries|
  {
    if entries == [] || at >= |log| || log[at].term != entries[0].term then 0
    else
      var k := Agreeing(log, at + 1, entries[1..]);
      assert forall i :: 0 < i < 1 + k ==> entries[i] == entries[1..][i - 1];
      1 + k
  }

  /** The log after a successful AppendEntries: the longest agreeing prefix, then what is new. */
  function Merge(log: seq<Entry>, prev: nat, entries: seq<Entry>): seq<Entry>
    requires prev < |log|
  {
    Splice(log, prev, entries, Agreeing(log, prev + 1, entries))
  }

  /** The first `k` entries are already in place after `prev`. */
  function Splice(log: seq<Entry>, prev: nat, entries: seq<Entry>, k: nat): seq<Entry>
    requires prev + k < |log| && k <= |entries|
  {
    if k == |entries| then log else log[..prev + 1 + k] + entries[k..]
  }

  /** The first index of the run of entries of log[i]'s term that ends at `i`. */
  function RunStart(log: seq<Entry>, i: nat): nat
    requires i < |log|
  {
    if i > 0 && log[i - 1].term == log[i].term then RunStart(log, i - 1) else i
  }

  function Min(a: nat, b: nat): nat {
    if a < b then a else b
  }

  predicate Accepts(n: Node, args: AppendArgs) {
    && args.term >= n.currentTerm
    && args.prevLogIndex < |n.log|
    && n.log[args.prevLogIndex].term == args.prevLogTerm
  }

  function HandleAppend(n: Node, args: AppendArgs): (Node, AppendReply)
    requires |n.log| > 0
  {
    var m := StepDown(n, args.term);
    if args.term < m.currentTerm then (m, AppendReply(m.currentTerm, false, 0, 0))
    else
      var f := m.(role := Follower);
      if args.prevLogIndex >= |f.log| then
        (f, AppendReply(f.currentTerm, false, |f.log|, -1))
      else if f.log[args.prevLogIndex].term != args.prevLogTerm then
        (f, AppendReply(f.currentTerm, false, RunStart(f.log, args.prevLogIndex), f.log[args.prevLogIndex].term))
      else
        var log := Merge(f.log, args.prevLogIndex, args.entries);
        (f.(log := log,
            commitIndex := if args.leaderCommit > f.commitIndex then Min(args.leaderCommit, |log| - 1)
                           else f.commitIndex),
         AppendReply(f.currentTerm, true, 0, 0))
  }

  // ----- applying -----

  /** What entries `lo` up to but excluding `hi` put on the apply channel: no-ops are skipped. */
  function Messages(log: seq<Entry>, lo: nat, hi: nat): seq<ApplyMsg>
    requires lo <= hi <= |log|
    decreases hi
  {
    if lo == hi then []
    else
      Messages(log, lo, hi - 1) +
      (if log[hi - 1].command == Nil then [] else [ApplyMsg(log[hi - 1].command, log[hi - 1].index)])
  }

  function ApplyCommitted(n: Node): Node
    requires n.commitIndex < |n.log|
  {
    if n.lastApplied >= n.commitIndex then n
    else n.(lastApplied := n.commitIndex, applied := n.applied + Messages(n.log, n.lastApplied + 1, n.commitIndex + 1))
  }
}
