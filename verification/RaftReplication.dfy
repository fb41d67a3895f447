/**
 The steps of log replication keep the invariant: building, handling and answering AppendEntries,
 proposing a command and applying committed entries.
 */
module RaftReplication {
  import opened Sequences
  import opened RaftNode
  import opened RaftCluster
  import opened RaftInvariant
  import opened RaftFrame
  import opened RaftAssemble

  // ----- building a request -----

  lemma SendAppendStep(c: Cluster, h: History, step: Step)
    requires Inv(c, h) && step.SendAppend? && Enabled(c, step) && InBounds(c, step)
    ensures Inv(Exec(c, step), Record(c, h, step))
  {
    var a, c' := step.node, Exec(c, step);
    assert NodeOK(c, h, a);
    assert step.peer in c.nodes;
    assert PeerOK(h, c.nodes[a], step.peer);
    BuiltArgs(c, h, a, step.peer);
    QuietStep(c, h, c', a);
  }

  /** Every request carries the leader's whole suffix, so its commit index lies within it. */
  lemma BuiltArgs(c: Cluster, h: History, a: NodeId, peer: NodeId)
    requires a in c.nodes && NodeOK(c, h, a) && c.nodes[a].role == Leader && PeerOK(h, c.nodes[a], peer)
    ensures AppendArgsOK(h, BuildAppend(c.nodes[a], a, peer))
  {
  }

  // ----- proposing -----

  lemma ProposeStep(c: Cluster, h: History, step: Step)
    requires Inv(c, h) && step.Propose? && Enabled(c, step) && InBounds(c, step)
    ensures Inv(Exec(c, step), Record(c, h, step))
  {
    var a, c', h' := step.node, Exec(c, step), Record(c, h, step);
    if c.nodes[a].role == Leader {
      Proposed(c, h, c', h', a, step.command);
    } else {
      assert c' == c;
    }
  }

  lemma Proposed(c: Cluster, h: History, c': Cluster, h': History, a: NodeId, command: Command)
    requires Inv(c, h) && a in c.nodes && a in c'.nodes && c.nodes[a].role == Leader && |c.nodes[a].log| > 0
    requires c'.peers == c.peers && c'.nodes == c.nodes[a := ClientStart(c.nodes[a], a, command)] && c'.net == c.net
    requires h' == Lead(h, a, c'.nodes[a])
    ensures Inv(c', h')
  {
    assert NodeOK(c, h, a);
    SentinelsFirst(c, h);
    assert TermOK(c, h, c.nodes[a].currentTerm);
    ProposedNode(c, h, c', h', a, command);
    ProposedTerm(c, h, c', h', a);
    Assemble(c, h, c', h', a);
  }

  lemma ProposedNode(c: Cluster, h: History, c': Cluster, h': History, a: NodeId, command: Command)
    requires a in c.nodes && a in c'.nodes && NodeOK(c, h, a) && SentinelFirst(h) && c.nodes[a].role == Leader
    requires c'.peers == c.peers && c'.nodes == c.nodes[a := ClientStart(c.nodes[a], a, command)]
    requires h' == Lead(h, a, c'.nodes[a]) && c.nodes[a].currentTerm >= 1
    ensures Extends(c, h, c', h', a) && NodeOK(c', h', a)
    ensures forall t :: t in h'.termLog && t != c'.nodes[a].currentTerm ==>
              t in h.termLog && h'.termLog[t] == h.termLog[t]
  {
    var n, n' := c.nodes[a], c'.nodes[a];
    AppendedShape(n.log, n'.log);
    LeadExtends(c, h, c', h', a);
    forall p | p in c.nodes
      ensures PeerOK(h', n', p)
    {
      assert PeerOK(h, n, p);
    }
    LeadNode(c, h, c', h', a);
  }

  lemma ProposedTerm(c: Cluster, h: History, c': Cluster, h': History, a: NodeId)
    requires Extends(c, h, c', h', a) && h' == Lead(h, a, c'.nodes[a]) && c'.nodes[a].role == Leader
    requires var t := c'.nodes[a].currentTerm; t in h.termLog && TermOK(c, h, t) && h.leaderOf[t] == a
    requires LogOK(h', c'.nodes[a]) && Last(c'.nodes[a].log).term == c'.nodes[a].currentTerm
    ensures NewTermsOK(c', h, h')
  {
    var t := c'.nodes[a].currentTerm;
    BackersGrow(c, h, c', h', a, a, t);
    assert TermOK(c', h', t);
    assert forall u :: Touched(h, h', u) ==> u == t;
  }

  // ----- applying -----

  lemma ApplyStep(c: Cluster, h: History, step: Step)
    requires Inv(c, h) && step.Apply? && Enabled(c, step) && InBounds(c, step)
    ensures Inv(Exec(c, step), Record(c, h, step))
  {
    Applied(c, h, Exec(c, step), step.node);
  }

  lemma Applied(c: Cluster, h: History, c': Cluster, a: NodeId)
    requires Inv(c, h) && a in c.nodes && c.nodes[a].commitIndex < |c.nodes[a].log|
    requires c' == c.(nodes := c.nodes[a := ApplyCommitted(c.nodes[a])])
    ensures Inv(c', h)
  {
    var n := c.nodes[a];
    assert NodeOK(c, h, a);
    if n.lastApplied < n.commitIndex {
      MessagesSplit(n.log, 1, n.lastApplied + 1, n.commitIndex + 1);
    }
    StillLeader(c, h, a, n, ApplyCommitted(n));
    CommitStep(c, h, c', h, a);
  }

  lemma StillLeader(c: Cluster, h: History, a: NodeId, n: Node, n': Node)
    requires LeaderOK(c, h, a, n)
    requires n'.role == n.role && n'.currentTerm == n.currentTerm && n'.log == n.log
    requires n'.nextIndex == n.nextIndex && n'.matchIndex == n.matchIndex
    ensures LeaderOK(c, h, a, n')
  {
    forall p | p in c.nodes && n.role == Leader
      ensures PeerOK(h, n', p)
    {
      assert PeerOK(h, n, p);
    }
  }

  lemma {:induction false} MessagesSplit(log: seq<Entry>, lo: nat, mid: nat, hi: nat)
    requires lo <= mid <= hi <= |log|
    ensures Messages(log, lo, hi) == Messages(log, lo, mid) + Messages(log, mid, hi)
    decreases hi
  {
    if mid == hi {
    } else {
      MessagesSplit(log, lo, mid, hi - 1);
    }
  }

  /** A step that leaves the actor's log and term alone and moves its commit or apply position. */
  lemma CommitStep(c: Cluster, h: History, c': Cluster, h': History, a: NodeId)
    requires Inv(c, h) && a in c.nodes && a in c'.nodes && c' == c.(nodes := c.nodes[a := c'.nodes[a]])
    requires h' == h.(commits := h'.commits) && h.commits <= h'.commits
    requires forall e {:trigger CommitEntryOK(c, h, e)} :: e in h'.commits && e !in h.commits ==> CommitEntryOK(c, h, e)
    requires var n, n' := c.nodes[a], c'.nodes[a];
             && n' == n.(commitIndex := n'.commitIndex, lastApplied := n'.lastApplied, applied := n'.applied,
                         nextIndex := n'.nextIndex, matchIndex := n'.matchIndex)
             && LeaderOK(c, h, a, n') && CommitOK(h', n')
    ensures Inv(c', h')
  {
    assert NodeOK(c, h, a);
    SentinelsFirst(c, h);
    CommitExtends(c, h, c', h', a);
    CommitNode(c, h, c', h', a);
    assert NotStandingAgain(c', h, a) by {
      if c'.nodes[a].currentTerm in h.termLog { assert TermOK(c, h, c'.nodes[a].currentTerm); }
    }
    Assemble(c, h, c', h', a);
  }

  lemma CommitExtends(c: Cluster, h: History, c': Cluster, h': History, a: NodeId)
    requires a in c.nodes && a in c'.nodes && c' == c.(nodes := c.nodes[a := c'.nodes[a]]) && SentinelFirst(h)
    requires h' == h.(commits := h'.commits) && h.commits <= h'.commits
    requires forall e {:trigger CommitEntryOK(c, h, e)} :: e in h'.commits && e !in h.commits ==> CommitEntryOK(c, h, e)
    requires c'.nodes[a].currentTerm == c.nodes[a].currentTerm
    ensures Extends(c, h, c', h', a) && NewTermsOK(c', h, h') && NewVotesOK(c', h, h') && SentinelFirst(h')
  {
    assert c'.nodes.Keys == c.nodes.Keys;
    forall t
      ensures LogGrows(h, h', t) && SentinelAt(h', t)
    {
      assert SentinelAt(h, t);
    }
    forall e | e in h'.commits && e !in h.commits
      ensures CommitEntryOK(c', h', e)
    {
      assert CommitEntryOK(c, h, e);
      assert Ackers(c', h', e.0, e.1) == Ackers(c, h, e.0, e.1);
    }
  }

  lemma CommitNode(c: Cluster, h: History, c': Cluster, h': History, a: NodeId)
    requires Extends(c, h, c', h', a) && NodeOK(c, h, a) && SentinelFirst(h') && h' == h.(commits := h'.commits)
    requires var n, n' := c.nodes[a], c'.nodes[a];
             && n'.log == n.log && n'.currentTerm == n.currentTerm && n'.votedFor == n.votedFor && n'.role == n.role
             && n'.votes == n.votes && n'.awaiting == n.awaiting
             && LeaderOK(c, h, a, n') && CommitOK(h', n')
    ensures NodeOK(c', h', a)
  {
    var n, n' := c.nodes[a], c'.nodes[a];
    MatchesKept(h, h', a, n'.currentTerm, n.log);
    KeptKept(c, h, c', h', a, a, n.log);
    assert Backers(c', h', a, n.currentTerm) == Backers(c, h, a, n.currentTerm);
    forall t: nat
      ensures AckAt(h', a, n', t)
    {
      assert AckAt(h, a, n, t);
    }
    forall p | p in c'.nodes && n'.role == Leader
      ensures PeerOK(h', n', p)
    {
      assert PeerOK(h, n', p);
    }
  }

  // ----- a reply to a request -----

  lemma AppendResponseStep(c: Cluster, h: History, step: Step)
    requires Inv(c, h) && step.Deliver? && step.msg.AppendResponse? && Enabled(c, step) && InBounds(c, step)
    ensures Inv(Exec(c, step), Record(c, h, step))
  {
    var a, c', h' := Actor(step), Exec(c, step), Record(c, h, step);
    assert MessageOK(c, h, step.msg);
    Answered(c, h, c', h', a, step.msg.from, step.msg.append, step.msg.appendReply);
  }

  lemma Answered(c: Cluster, h: History, c': Cluster, h': History, a: NodeId, p: NodeId, args: AppendArgs,
                 reply: AppendReply)
    requires Inv(c, h) && a in c.nodes && p in c.nodes && a in c'.nodes && a != p && |c.nodes[a].log| > 0
    requires Current(c.nodes[a], args, reply) && !reply.success ==> Backtrack(c.nodes[a].log, reply) >= 0
    requires AppendArgsOK(h, args)
    requires reply.success ==> Acked(h, p, args.term) >= args.prevLogIndex + |args.entries|
    requires !reply.success && reply.term <= args.term ==> HintOK(h, args, reply)
    requires c' == c.(nodes := c.nodes[a := HandleAppendReply(c.nodes[a], a, c.peers, p, args, reply)])
    requires h' == if c'.nodes[a].commitIndex > c.nodes[a].commitIndex
                   then h.(commits := h.commits + {(c'.nodes[a].currentTerm, c'.nodes[a].commitIndex)}) else h
    ensures Inv(c', h')
  {
    var n := c.nodes[a];
    if reply.term > n.currentTerm {
      AdoptTerm(c, h, c', a, reply.term);
    } else if !Current(n, args, reply) {
      assert c' == c;
    } else if reply.success {
      Acknowledged(c, h, c', h', a, p, args, reply);
    } else {
      assert NodeOK(c, h, a);
      Rejected(c, h, c', a, p, args, reply);
    }
  }

  lemma Rejected(c: Cluster, h: History, c': Cluster, a: NodeId, p: NodeId, args: AppendArgs, reply: AppendReply)
    requires Inv(c, h) && a in c.nodes && p in c.nodes && a in c'.nodes && NodeOK(c, h, a)
    requires Current(c.nodes[a], args, reply) && !reply.success && AppendArgsOK(h, args) && HintOK(h, args, reply)
    requires c' == c.(nodes := c.nodes[a := c'.nodes[a]]) && Backtrack(c.nodes[a].log, reply) >= 0
    requires c'.nodes[a] == c.nodes[a].(nextIndex := c.nodes[a].nextIndex[p := Backtrack(c.nodes[a].log, reply)])
    ensures Inv(c', h)
  {
    var n, n' := c.nodes[a], c'.nodes[a];
    BacktrackBounds(c, h, a, args, reply);
    forall q | q in c.nodes
      ensures PeerOK(h, n', q)
    {
      assert PeerOK(h, n, q);
    }
    QuietStep(c, h, c', a);
  }

  /** A rejection moves nextIndex to somewhere in [1, prevLogIndex], whatever the hint was. */
  lemma BacktrackBounds(c: Cluster, h: History, a: NodeId, args: AppendArgs, reply: AppendReply)
    requires Inv(c, h) && a in c.nodes && Current(c.nodes[a], args, reply) && !reply.success
    requires AppendArgsOK(h, args) && HintOK(h, args, reply)
    ensures 1 <= Backtrack(c.nodes[a].log, reply) <= args.prevLogIndex < |c.nodes[a].log|
  {
    assert NodeOK(c, h, a);
    if reply.conflictTerm in h.termLog { assert TermOK(c, h, reply.conflictTerm); }
    HintBounds(h, c.nodes[a].log, args, reply);
  }

  lemma HintBounds(h: History, log: seq<Entry>, args: AppendArgs, reply: AppendReply)
    requires Matches(h, log) && HintOK(h, args, reply) && AppendArgsOK(h, args) && args.prevLogIndex < |log|
    requires log[args.prevLogIndex].term == args.prevLogTerm && Shape(log)
    requires reply.conflictTerm in h.termLog ==> Shape(h.termLog[reply.conflictTerm])
    ensures 1 <= Backtrack(log, reply) <= args.prevLogIndex
  {
    LastOfTermIs(log, reply.conflictTerm);
    var i := LastOfTerm(log, reply.conflictTerm);
    if i >= 1 { assert MatchesAt(h, log, i); }
  }

  lemma {:induction false} LastOfTermIs(log: seq<Entry>, term: int)
    ensures var i := LastOfTerm(log, term);
            && -1 <= i < |log|
            && (i >= 0 ==> log[i].term == term)
            && (forall j :: i < j < |log| ==> log[j].term != term)
  {
    if log != [] && Last(log).term != term { LastOfTermIs(log[..|log| - 1], term); }
  }

  /** matchIndex and nextIndex after a success, before the commit index moves. */
  function WithMatch(n: Node, p: NodeId, matched: nat): Node {
    n.(matchIndex := if matched > At(n.matchIndex, p) then n.matchIndex[p := matched] else n.matchIndex,
       nextIndex := n.nextIndex[p := matched + 1])
  }

  lemma Acknowledged(c: Cluster, h: History, c': Cluster, h': History, a: NodeId, p: NodeId, args: AppendArgs,
                     reply: AppendReply)
    requires Inv(c, h) && a in c.nodes && p in c.nodes && a in c'.nodes && |c.nodes[a].log| > 0
    requires Current(c.nodes[a], args, reply) && reply.success && AppendArgsOK(h, args)
    requires Acked(h, p, args.term) >= args.prevLogIndex + |args.entries| && a != p
    requires c' == c.(nodes := c.nodes[a := c'.nodes[a]])
    requires c'.nodes[a] == AdvanceCommit(WithMatch(c.nodes[a], p, args.prevLogIndex + |args.entries|), a, c.peers)
    requires h' == if c'.nodes[a].commitIndex > c.nodes[a].commitIndex
                   then h.(commits := h.commits + {(c'.nodes[a].currentTerm, c'.nodes[a].commitIndex)}) else h
    ensures Inv(c', h')
  {
    assert NodeOK(c, h, a);
    AcknowledgedNode(c, h, c', h', a, p, args);
    CommitStep(c, h, c', h', a);
  }

  lemma AcknowledgedNode(c: Cluster, h: History, c': Cluster, h': History, a: NodeId, p: NodeId, args: AppendArgs)
    requires |c.nodes| == |c.peers| && c.nodes.Keys == Elements(c.peers) && NoRepeats(c.peers)
    requires a in c.nodes && p in c.nodes && a in c'.nodes && CommitOK(h, c.nodes[a])
    requires LeaderOK(c, h, a, c.nodes[a]) && c.nodes[a].role == Leader && AppendArgsOK(h, args)
    requires args.term == c.nodes[a].currentTerm && Acked(h, p, args.term) >= args.prevLogIndex + |args.entries|
    requires c'.nodes[a] == AdvanceCommit(WithMatch(c.nodes[a], p, args.prevLogIndex + |args.entries|), a, c.peers)
    requires h' == if c'.nodes[a].commitIndex > c.nodes[a].commitIndex
                   then h.(commits := h.commits + {(c'.nodes[a].currentTerm, c'.nodes[a].commitIndex)}) else h
    ensures LeaderOK(c, h, a, c'.nodes[a]) && CommitOK(h', c'.nodes[a])
    ensures forall e {:trigger CommitEntryOK(c, h, e)} :: e in h'.commits && e !in h.commits ==> CommitEntryOK(c, h, e)
  {
    var n, n' := c.nodes[a], c'.nodes[a];
    var m := WithMatch(n, p, args.prevLogIndex + |args.entries|);
    MatchTold(c, h, a, p, args);
    Advanced(c, h, a, m, n');
    StillLeader(c, h, a, m, n');
    AcknowledgedCommit(h, h', n, n');
  }

  lemma Advanced(c: Cluster, h: History, a: NodeId, m: Node, n': Node)
    requires |c.nodes| == |c.peers| && c.nodes.Keys == Elements(c.peers) && NoRepeats(c.peers)
    requires a in c.nodes && m.role == Leader && LeaderOK(c, h, a, m) && |m.log| > 0
    requires n' == AdvanceCommit(m, a, c.peers)
    requires m.commitIndex < |m.log|
    ensures m.commitIndex <= n'.commitIndex < |m.log|
    ensures n'.commitIndex > m.commitIndex ==> CommitEntryOK(c, h, (m.currentTerm, n'.commitIndex))
  {
    BestCommitIs(m, a, c.peers, |m.log| - 1);
    if n'.commitIndex > m.commitIndex {
      CountedCommit(c, h, a, m, n'.commitIndex);
    }
  }

  lemma MatchTold(c: Cluster, h: History, a: NodeId, p: NodeId, args: AppendArgs)
    requires a in c.nodes && p in c.nodes && LeaderOK(c, h, a, c.nodes[a]) && c.nodes[a].role == Leader
    requires AppendArgsOK(h, args) && args.term == c.nodes[a].currentTerm
    requires Acked(h, p, args.term) >= args.prevLogIndex + |args.entries|
    ensures LeaderOK(c, h, a, WithMatch(c.nodes[a], p, args.prevLogIndex + |args.entries|))
  {
    var n, m := c.nodes[a], WithMatch(c.nodes[a], p, args.prevLogIndex + |args.entries|);
    forall q | q in c.nodes
      ensures PeerOK(h, m, q)
    {
      assert PeerOK(h, n, q);
    }
  }

  /** advanceCommitIndex finds the largest index it may commit, if that is an advance. */
  lemma {:induction false} BestCommitIs(n: Node, me: NodeId, peers: seq<NodeId>, k: nat)
    requires k < |n.log|
    ensures var b := BestCommit(n, me, peers, k);
            && b >= n.commitIndex
            && (b > n.commitIndex ==> b <= k && Committable(n, me, peers, b))
            && (forall i :: b < i <= k ==> !Committable(n, me, peers, i))
  {
    if k > n.commitIndex && !Committable(n, me, peers, k) { BestCommitIs(n, me, peers, k - 1); }
  }

  lemma {:induction false} ReplicasCounted(matchIndex: map<NodeId, nat>, me: NodeId, peers: seq<NodeId>, k: nat,
                                           ackers: set<NodeId>)
    requires NoRepeats(peers) && forall p :: p in peers && p != me && At(matchIndex, p) >= k ==> p in ackers
    ensures Replicas(matchIndex, me, peers, k) <= |(ackers - {me}) * Elements(peers)|
  {
    if peers == [] {
    } else {
      var rest, last := peers[..|peers| - 1], peers[|peers| - 1];
      ReplicasCounted(matchIndex, me, rest, k, ackers);
      assert peers == rest + [last] && last !in rest;
      OneMore(ackers - {me}, rest, last);
    }
  }

  lemma OneMore(s: set<NodeId>, rest: seq<NodeId>, last: NodeId)
    requires last !in rest
    ensures |s * Elements(rest + [last])| == |s * Elements(rest)| + if last in s then 1 else 0
  {
    var a, b := s * Elements(rest), s * Elements(rest + [last]);
    assert b == if last in s then a + {last} else a;
  }

  /** Counting replicas finds a majority that really acknowledged the index. */
  lemma CountedCommit(c: Cluster, h: History, a: NodeId, m: Node, k: nat)
    requires |c.nodes| == |c.peers| && c.nodes.Keys == Elements(c.peers) && NoRepeats(c.peers)
    requires a in c.nodes && m.role == Leader && LeaderOK(c, h, a, m) && k < |m.log| && Committable(m, a, c.peers, k)
    ensures CommitEntryOK(c, h, (m.currentTerm, k))
  {
    var t, ackers := m.currentTerm, Ackers(c, h, m.currentTerm, k);
    forall p | p in c.peers && At(m.matchIndex, p) >= k
      ensures p in ackers
    {
      assert p in c.nodes && PeerOK(h, m, p);
    }
    ReplicasCounted(m.matchIndex, a, c.peers, k, ackers);
    assert a in ackers;
    assert (ackers - {a}) * Elements(c.peers) == ackers - {a};
  }

  lemma AcknowledgedCommit(h: History, h': History, n: Node, n': Node)
    requires CommitOK(h, n) && h' == h.(commits := h'.commits) && h.commits <= h'.commits
    requires n'.log == n.log && n'.currentTerm == n.currentTerm && n'.lastApplied == n.lastApplied
    requires n'.applied == n.applied
    requires n.commitIndex <= n'.commitIndex < |n'.log|
    requires n'.commitIndex > n.commitIndex ==>
      && (n'.currentTerm, n'.commitIndex) in h'.commits
      && n'.currentTerm in h.termLog && n'.log == h.termLog[n'.currentTerm]
    ensures CommitOK(h', n')
  {
    if n'.commitIndex > n.commitIndex {
      assert CoveredBy(h', n'.log, n'.commitIndex, n'.currentTerm, (n'.currentTerm, n'.commitIndex));
    } else if n.commitIndex != 0 {
      var e :| e in h.commits && CoveredBy(h, n.log, n.commitIndex, n.currentTerm, e);
      assert CoveredBy(h', n'.log, n'.commitIndex, n'.currentTerm, e);
    }
  }
}
