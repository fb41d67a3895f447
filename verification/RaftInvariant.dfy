/**
 The inductive invariant behind Raft's safety, over a cluster and an auxiliary history of what has
 happened in it. The history is computed from the run and steers nothing.
 */
module RaftInvariant {
  import opened Sequences
  import opened RaftNode
  import opened RaftCluster

  /**
   For each term that had a leader: who it was and the longest log it ever held as leader. Also
   every vote cast, the log each candidate stood with, how far each peer acknowledged each leader's
   log, and every (term, index) committed by counting replicas.
   */
  datatype History = History(
    leaderOf: map<nat, NodeId>,
    termLog: map<nat, seq<Entry>>,
    votes: map<(NodeId, nat), NodeId>,
    candLog: map<(NodeId, nat), seq<Entry>>,
    acks: map<(NodeId, nat), nat>,
    commits: set<(nat, nat)>)

  const EMPTY: History := History(map[], map[], map[], map[], map[], {})

  function Acked(h: History, v: NodeId, t: nat): nat {
    if (v, t) in h.acks then h.acks[(v, t)] else 0
  }

  function Ack(h: History, v: NodeId, t: nat, k: nat): History {
    if k > Acked(h, v, t) then h.(acks := h.acks[(v, t) := k]) else h
  }

  /** The history after a step. */
  function Record(c: Cluster, h: History, step: Step): History
    requires Enabled(c, step) && InBounds(c, step)
  {
    var me := Actor(step);
    var n, m := c.nodes[me], React(c, step);
    match step
    case Timeout(_) =>
      h.(votes := h.votes[(me, m.currentTerm) := me], candLog := h.candLog[(me, m.currentTerm) := m.log])
    case Deliver(VoteRequest(_, _, args)) =>
      if Grants(n, args) then h.(votes := h.votes[(me, args.term) := args.candidate]) else h
    case Deliver(VoteResponse(_, _, _, _)) =>
      if n.role == Candidate && m.role == Leader then Lead(h, me, m) else h
    case Deliver(AppendRequest(_, _, args)) =>
      if Accepts(n, args) then Ack(h, me, args.term, args.prevLogIndex + |args.entries|) else h
    case Deliver(AppendResponse(_, _, _, _)) =>
      if m.commitIndex > n.commitIndex then h.(commits := h.commits + {(m.currentTerm, m.commitIndex)}) else h
    case Propose(_, _) =>
      if n.role == Leader then Lead(h, me, m) else h
    case SendAppend(_, _) => h
    case Apply(_) => h
  }

  /** `me` leads its term with log `n.log`, which it has acknowledged to itself. */
  function Lead(h: History, me: NodeId, n: Node): History {
    h.(leaderOf := h.leaderOf[n.currentTerm := me],
       termLog := h.termLog[n.currentTerm := n.log],
       acks := h.acks[(me, n.currentTerm) := if |n.log| == 0 then 0 else |n.log| - 1])
  }

  // ----- logs -----

  /** Both sequences reach index `k` and are equal up to and including it. */
  ghost predicate AgreeThrough(a: seq<Entry>, b: seq<Entry>, k: int) {
    k < |a| && k < |b| && forall i :: 0 <= i <= k ==> a[i] == b[i]
  }

  ghost predicate Shape(log: seq<Entry>) {
    && Indexed(log)
    && log[0] == SENTINEL
    && (forall i :: 1 <= i < |log| ==> log[i].term >= 1)
    && (forall i, j {:trigger Ordered(log, i, j)} :: Ordered(log, i, j))
  }

  ghost predicate Ordered(log: seq<Entry>, i: int, j: int) {
    0 <= i <= j < |log| ==> log[i].term <= log[j].term
  }

  /** Up to any of its entries, the log is a copy of the log of the leader that created the entry. */
  ghost predicate Matches(h: History, log: seq<Entry>) {
    forall i {:trigger MatchesAt(h, log, i)} :: 1 <= i < |log| ==> MatchesAt(h, log, i)
  }

  ghost predicate MatchesAt(h: History, log: seq<Entry>, i: int)
    requires 0 <= i < |log|
  {
    log[i].term in h.termLog && AgreeThrough(log, h.termLog[log[i].term], i)
  }

  // ----- quorums -----

  /** Term `t`'s leader created the entry at `k`. */
  ghost predicate Own(h: History, t: nat, k: nat) {
    t in h.termLog && k < |h.termLog[t]| && h.termLog[t][k].term == t
  }

  ghost function Ackers(c: Cluster, h: History, t: nat, k: nat): set<NodeId> {
    set v | v in c.nodes && Acked(h, v, t) >= k
  }

  /** Peers that have acknowledged index `k` of term `t`, or still could. */
  ghost function Possible(c: Cluster, h: History, t: nat, k: nat): set<NodeId> {
    set v | v in c.nodes && (Acked(h, v, t) >= k || c.nodes[v].currentTerm <= t)
  }

  ghost predicate Chosen(c: Cluster, h: History, t: nat, k: nat) {
    |Ackers(c, h, t, k)| >= Majority(c.peers)
  }

  ghost predicate Choosable(c: Cluster, h: History, t: nat, k: nat) {
    |Possible(c, h, t, k)| >= Majority(c.peers)
  }

  ghost function Backers(c: Cluster, h: History, v: NodeId, t: nat): set<NodeId> {
    set u | u in c.nodes && (u, t) in h.votes && h.votes[(u, t)] == v
  }

  /** Index `k` of `log` is covered by a commit of a term up to `t`. */
  ghost predicate Committed(h: History, log: seq<Entry>, k: nat, t: nat) {
    k == 0 || exists e :: e in h.commits && CoveredBy(h, log, k, t, e)
  }

  ghost predicate CoveredBy(h: History, log: seq<Entry>, k: nat, t: nat, e: (nat, nat)) {
    e.0 <= t && k <= e.1 && e.0 in h.termLog && AgreeThrough(log, h.termLog[e.0], k)
  }

  // ----- what holds of each peer -----

  ghost predicate LogOK(h: History, n: Node) {
    Shape(n.log) && Last(n.log).term <= n.currentTerm && Matches(h, n.log)
  }

  ghost predicate VotesOK(h: History, v: NodeId, n: Node) {
    && (forall t :: (v, t) in h.votes ==> t <= n.currentTerm)
    && ((v, n.currentTerm) in h.votes ==> n.votedFor == h.votes[(v, n.currentTerm)])
    && ((v, n.currentTerm) !in h.votes ==> n.votedFor == NOBODY)
  }

  ghost predicate AcksOK(h: History, v: NodeId, n: Node) {
    forall t: nat {:trigger AckAt(h, v, n, t)} :: AckAt(h, v, n, t)
  }

  ghost predicate AckAt(h: History, v: NodeId, n: Node, t: nat) {
    Acked(h, v, t) > 0 ==>
      && t in h.termLog && t <= n.currentTerm && Acked(h, v, t) < |h.termLog[t]|
      && (t == n.currentTerm ==> AgreeThrough(n.log, h.termLog[t], Acked(h, v, t)))
  }

  ghost predicate CandidateOK(c: Cluster, h: History, v: NodeId, n: Node) {
    n.role == Candidate ==>
      && n.currentTerm >= 1 && (v, n.currentTerm) in h.candLog && h.candLog[(v, n.currentTerm)] == n.log
      && n.votes <= |Backers(c, h, v, n.currentTerm) - n.awaiting|
      && n.awaiting <= c.nodes.Keys - {v}
  }

  ghost predicate LeaderOK(c: Cluster, h: History, v: NodeId, n: Node) {
    n.role == Leader ==>
      && n.currentTerm in h.termLog && n.currentTerm in h.leaderOf
      && h.leaderOf[n.currentTerm] == v && n.log == h.termLog[n.currentTerm]
      && Acked(h, v, n.currentTerm) == |n.log| - 1
      && n.nextIndex.Keys == c.nodes.Keys && n.matchIndex.Keys == c.nodes.Keys
      && forall p {:trigger PeerOK(h, n, p)} :: p in c.nodes ==> PeerOK(h, n, p)
  }

  /** matchIndex[p] was really acknowledged, and nextIndex[p] lies in [1, last + 1]. */
  ghost predicate PeerOK(h: History, n: Node, p: NodeId) {
    1 <= At(n.nextIndex, p) <= |n.log| && At(n.matchIndex, p) <= Acked(h, p, n.currentTerm)
  }

  ghost predicate CommitOK(h: History, n: Node) {
    && n.lastApplied <= n.commitIndex < |n.log|
    && Committed(h, n.log, n.commitIndex, n.currentTerm)
    && n.applied == Messages(n.log, 1, n.lastApplied + 1)
  }

  /** What a peer acknowledged and may still be chosen has not left its log. */
  ghost predicate Kept(c: Cluster, h: History, v: NodeId, log: seq<Entry>) {
    forall t: nat, k: nat {:trigger KeptAt(c, h, v, log, t, k)} :: KeptAt(c, h, v, log, t, k)
  }

  ghost predicate KeptAt(c: Cluster, h: History, v: NodeId, log: seq<Entry>, t: nat, k: nat) {
    Own(h, t, k) && k <= Acked(h, v, t) && Choosable(c, h, t, k) ==> AgreeThrough(log, h.termLog[t], k)
  }

  ghost predicate NodeOK(c: Cluster, h: History, v: NodeId)
    requires v in c.nodes
  {
    var n := c.nodes[v];
    && LogOK(h, n) && VotesOK(h, v, n) && AcksOK(h, v, n) && CandidateOK(c, h, v, n) && LeaderOK(c, h, v, n)
    && CommitOK(h, n) && Kept(c, h, v, n.log)
  }

  // ----- what holds of the history -----

  ghost predicate TermOK(c: Cluster, h: History, t: nat)
    requires t in h.termLog
  {
    && t >= 1 && Shape(h.termLog[t]) && Last(h.termLog[t]).term == t && Matches(h, h.termLog[t])
    && t in h.leaderOf && h.leaderOf[t] in c.nodes
    && |Backers(c, h, h.leaderOf[t], t)| >= Majority(c.peers)
    && (c.nodes[h.leaderOf[t]].currentTerm == t ==> c.nodes[h.leaderOf[t]].role != Candidate)
  }

  ghost predicate StandOK(c: Cluster, h: History, k: (NodeId, nat))
    requires k in h.candLog
  {
    Shape(h.candLog[k]) && Matches(h, h.candLog[k]) && k.0 in c.nodes && k.1 <= c.nodes[k.0].currentTerm
  }

  /** A vote for `u` in a term guards everything its voter had acknowledged before. */
  ghost predicate VoteOK(c: Cluster, h: History, k: (NodeId, nat))
    requires k in h.votes
  {
    && k.0 in c.nodes && (h.votes[k], k.1) in h.candLog
    && forall t: nat, i: nat {:trigger Guards(c, h, k.0, h.candLog[(h.votes[k], k.1)], t, i)} ::
         t < k.1 ==> Guards(c, h, k.0, h.candLog[(h.votes[k], k.1)], t, i)
  }

  /** If `v` acknowledged the entry and it may still be chosen, the candidate's log has it. */
  ghost predicate Guards(c: Cluster, h: History, v: NodeId, log: seq<Entry>, t: nat, i: nat) {
    Own(h, t, i) && i <= Acked(h, v, t) && Choosable(c, h, t, i) ==> AgreeThrough(h.termLog[t], log, i)
  }

  /** A later leader has everything an earlier leader may still commit. */
  ghost predicate Inherits(c: Cluster, h: History, t: nat, u: nat)
    requires t in h.termLog && u in h.termLog
  {
    forall i: nat {:trigger InheritsAt(c, h, t, u, i)} :: InheritsAt(c, h, t, u, i)
  }

  ghost predicate InheritsAt(c: Cluster, h: History, t: nat, u: nat, i: nat)
    requires t in h.termLog && u in h.termLog
  {
    Own(h, t, i) && Choosable(c, h, t, i) ==> AgreeThrough(h.termLog[t], h.termLog[u], i)
  }

  ghost predicate CommitEntryOK(c: Cluster, h: History, e: (nat, nat)) {
    Own(h, e.0, e.1) && Chosen(c, h, e.0, e.1)
  }

  ghost predicate HistoryOK(c: Cluster, h: History) {
    && (forall t {:trigger TermOK(c, h, t)} :: t in h.termLog ==> TermOK(c, h, t))
    && (forall k {:trigger StandOK(c, h, k)} :: k in h.candLog ==> StandOK(c, h, k))
    && (forall k {:trigger VoteOK(c, h, k)} :: k in h.votes ==> VoteOK(c, h, k))
    && (forall t, u {:trigger Inherits(c, h, t, u)} :: t in h.termLog && u in h.termLog && t < u ==>
         Inherits(c, h, t, u))
    && (forall e {:trigger CommitEntryOK(c, h, e)} :: e in h.commits ==> CommitEntryOK(c, h, e))
  }

  // ----- what holds of each message -----

  ghost predicate VoteArgsOK(h: History, from: NodeId, args: VoteArgs) {
    && args.candidate == from && (from, args.term) in h.candLog
    && var log := h.candLog[(from, args.term)];
       |log| > 0 && args.lastLogIndex == |log| - 1 && args.lastLogTerm == Last(log).term
  }

  /** The request is a slice of its leader's log, and reaches past the commit index it carries. */
  ghost predicate AppendArgsOK(h: History, args: AppendArgs) {
    && args.term in h.termLog
    && var log := h.termLog[args.term];
       && args.prevLogIndex + |args.entries| < |log|
       && args.prevLogTerm == log[args.prevLogIndex].term
       && (forall i :: 0 <= i < |args.entries| ==> args.entries[i] == log[args.prevLogIndex + 1 + i])
       && args.leaderCommit <= args.prevLogIndex + |args.entries|
       && Committed(h, log, args.leaderCommit, args.term)
  }

  /** A rejection's hint points at or below the rejected index, at an entry the leader lacks. */
  ghost predicate HintOK(h: History, args: AppendArgs, reply: AppendReply) {
    && 1 <= reply.conflictIndex <= args.prevLogIndex
    && (reply.conflictTerm == -1 ||
        (&& reply.conflictTerm >= 0 && reply.conflictTerm != args.prevLogTerm
         && Own(h, reply.conflictTerm, args.prevLogIndex)))
  }

  ghost predicate MessageOK(c: Cluster, h: History, m: Message) {
    && m.from in c.nodes && m.dest in c.nodes && m.from != m.dest
    && match m
       case VoteRequest(from, _, args) => VoteArgsOK(h, from, args)
       case VoteResponse(from, dest, args, reply) =>
         reply.granted ==>
           reply.term == args.term && (from, args.term) in h.votes && h.votes[(from, args.term)] == dest
       case AppendRequest(_, _, args) => AppendArgsOK(h, args)
       case AppendResponse(from, _, args, reply) =>
         && AppendArgsOK(h, args)
         && (reply.success ==> Acked(h, from, args.term) >= args.prevLogIndex + |args.entries|)
         && (!reply.success && reply.term <= args.term ==> HintOK(h, args, reply))
  }

  ghost predicate Inv(c: Cluster, h: History) {
    && |c.nodes| == |c.peers| && c.nodes.Keys == Elements(c.peers) && NoRepeats(c.peers)
    && (forall v {:trigger NodeOK(c, h, v)} :: v in c.nodes ==> NodeOK(c, h, v))
    && HistoryOK(c, h)
    && (forall m {:trigger MessageOK(c, h, m)} :: m in c.net ==> MessageOK(c, h, m))
  }

  // ----- basic facts -----

  /** Two majorities of the peers meet. */
  lemma QuorumsMeet(c: Cluster, a: set<NodeId>, b: set<NodeId>) returns (v: NodeId)
    requires |c.nodes| == |c.peers| && a <= c.nodes.Keys && b <= c.nodes.Keys
    requires |a| >= Majority(c.peers) && |b| >= Majority(c.peers)
    ensures v in a && v in b
  {
    if a !! b {
      assert |a + b| == |a| + |b|;
      Subset(a + b, c.nodes.Keys);
      assert false;
    }
    v :| v in a && v in b;
  }

  lemma {:induction false} Subset<T>(a: set<T>, b: set<T>)
    requires a <= b
    ensures |a| <= |b|
  {
    assert b == a + (b - a);
    assert |b| == |a| + |b - a|;
  }

  lemma StartInv(peers: seq<NodeId>)
    requires NoRepeats(peers)
    ensures Inv(Start(peers), EMPTY)
  {
    SizeExactly(peers);
    var c := Start(peers);
    assert c.nodes.Keys == Elements(peers);
    assert |c.nodes| == |c.nodes.Keys|;
  }
}
