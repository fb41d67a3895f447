/**
 From what a step adds to the invariant for the whole cluster. What a step must show is gathered in the
 requires of `Assemble`.
 */
module RaftAssemble {
  import opened RaftNode
  import opened RaftCluster
  import opened RaftInvariant
  import opened RaftFrame

  // ----- putting a step together -----

  /** A leader's newest entries cannot be chosen any more once a later term has a leader. */
  lemma FreshNotChoosable(c: Cluster, h: History, c': Cluster, h': History, a: NodeId, t: nat, u: nat, i: nat)
    requires Extends(c, h, c', h', a) && |c'.nodes| == |c'.peers|
    requires forall v {:trigger NodeOK(c, h, v)} :: v in c.nodes ==> NodeOK(c, h, v)
    requires forall v {:trigger NodeOK(c', h', v)} :: v in c'.nodes ==> NodeOK(c', h', v)
    requires t in h'.termLog && u in h'.termLog && t < u && TermOK(c', h', u)
    requires Own(h', t, i) && i >= 1 && t == c'.nodes[a].currentTerm
    requires t in h.termLog ==> i >= |h.termLog[t]|
    ensures !Choosable(c', h', t, i)
  {
    var backers := Backers(c', h', h'.leaderOf[u], u);
    forall v | v in backers
      ensures v !in Possible(c', h', t, i)
    {
      assert NodeOK(c', h', v) && (v, u) in h'.votes;
      assert NodeOK(c, h, v) && AckAt(h, v, c.nodes[v], t);
      assert AckGrows(h, h', a, c'.nodes[a].currentTerm, v, t);
    }
    if Choosable(c', h', t, i) {
      var v := QuorumsMeet(c', Possible(c', h', t, i), backers);
    }
  }

  ghost predicate NewMessagesOK(c: Cluster, c': Cluster, h': History) {
    forall m {:trigger MessageOK(c', h', m)} :: m in c'.net && m !in c.net ==> MessageOK(c', h', m)
  }

  ghost predicate NewTermsOK(c': Cluster, h: History, h': History) {
    && (forall t {:trigger TermOK(c', h', t)} :: Touched(h, h', t) ==> TermOK(c', h', t))
    && (forall t, u {:trigger Inherits(c', h', t, u)} ::
          t in h.termLog && t in h'.termLog && u in h'.termLog && u !in h.termLog && t < u ==> Inherits(c', h', t, u))
  }

  ghost predicate NewVotesOK(c': Cluster, h: History, h': History) {
    && (forall k {:trigger StandOK(c', h', k)} :: k in h'.candLog && k !in h.candLog ==> StandOK(c', h', k))
    && (forall k {:trigger VoteOK(c', h', k)} :: k in h'.votes && k !in h.votes ==> VoteOK(c', h', k))
    && (forall e {:trigger CommitEntryOK(c', h', e)} :: e in h'.commits && e !in h.commits ==> CommitEntryOK(c', h', e))
  }

  ghost predicate NotStandingAgain(c': Cluster, h: History, a: NodeId)
    requires a in c'.nodes
  {
    c'.nodes[a].role == Candidate ==>
      c'.nodes[a].currentTerm in h.termLog && c'.nodes[a].currentTerm in h.leaderOf ==>
        h.leaderOf[c'.nodes[a].currentTerm] != a
  }

  lemma Assemble(c: Cluster, h: History, c': Cluster, h': History, a: NodeId)
    requires Inv(c, h) && Extends(c, h, c', h', a) && NodeOK(c', h', a) && NotStandingAgain(c', h, a)
    requires NewMessagesOK(c, c', h') && NewTermsOK(c', h, h') && NewVotesOK(c', h, h')
    ensures Inv(c', h')
  {
    Sentinels(c, h, c', h', a);
    forall v | v in c'.nodes
      ensures NodeOK(c', h', v)
    {
      if v != a { assert NodeOK(c, h, v); OtherNode(c, h, c', h', a, v); }
    }
    forall m | m in c'.net
      ensures MessageOK(c', h', m)
    {
      if m in c.net { assert MessageOK(c, h, m); OldMessage(c, h, c', h', a, m); }
    }
    AssembleTerms(c, h, c', h', a);
    AssembleVotes(c, h, c', h', a);
    assert |c'.nodes| == |c'.nodes.Keys| == |c.nodes.Keys| == |c.nodes|;
  }

  lemma Sentinels(c: Cluster, h: History, c': Cluster, h': History, a: NodeId)
    requires Inv(c, h) && NewTermsOK(c', h, h')
    ensures SentinelFirst(h')
  {
    forall t | t in h'.termLog
      ensures SentinelAt(h', t)
    {
      if Touched(h, h', t) { assert TermOK(c', h', t); } else { assert TermOK(c, h, t); }
    }
  }

  lemma AssembleTerms(c: Cluster, h: History, c': Cluster, h': History, a: NodeId)
    requires Inv(c, h) && Extends(c, h, c', h', a) && NewTermsOK(c', h, h') && NotStandingAgain(c', h, a)
    requires SentinelFirst(h') && forall v {:trigger NodeOK(c', h', v)} :: v in c'.nodes ==> NodeOK(c', h', v)
    ensures forall t {:trigger TermOK(c', h', t)} :: t in h'.termLog ==> TermOK(c', h', t)
    ensures forall t, u {:trigger Inherits(c', h', t, u)} :: t in h'.termLog && u in h'.termLog && t < u ==>
              Inherits(c', h', t, u)
  {
    forall t | t in h'.termLog
      ensures TermOK(c', h', t)
    {
      if !Touched(h, h', t) {
        assert TermOK(c, h, t);
        OldTerm(c, h, c', h', a, t);
      }
    }
    forall t, u | t in h'.termLog && u in h'.termLog && t < u
      ensures Inherits(c', h', t, u)
    {
      AssembleInherits(c, h, c', h', a, t, u);
    }
  }

  lemma AssembleInherits(c: Cluster, h: History, c': Cluster, h': History, a: NodeId, t: nat, u: nat)
    requires Inv(c, h) && Extends(c, h, c', h', a) && NewTermsOK(c', h, h')
    requires SentinelFirst(h') && forall v {:trigger NodeOK(c', h', v)} :: v in c'.nodes ==> NodeOK(c', h', v)
    requires t in h'.termLog && u in h'.termLog && t < u && TermOK(c', h', u)
    ensures Inherits(c', h', t, u)
  {
    assert |c'.nodes| == |c'.nodes.Keys| == |c.nodes.Keys| == |c.nodes|;
    if t !in h.termLog || u in h.termLog {
      forall i: nat
        ensures InheritsAt(c', h', t, u, i)
      {
        if Own(h', t, i) && Choosable(c', h', t, i) {
          if t in h.termLog && i < |h.termLog[t]| {
            assert Inherits(c, h, t, u);
            OldInherits(c, h, c', h', a, t, u, i);
          } else {
            assert SentinelAt(h', t) && Touched(h, h', t);
            FreshNotChoosable(c, h, c', h', a, t, u, i);
          }
        }
      }
    }
  }

  lemma AssembleVotes(c: Cluster, h: History, c': Cluster, h': History, a: NodeId)
    requires Inv(c, h) && Extends(c, h, c', h', a) && NewVotesOK(c', h, h') && SentinelFirst(h')
    ensures forall k {:trigger StandOK(c', h', k)} :: k in h'.candLog ==> StandOK(c', h', k)
    ensures forall k {:trigger VoteOK(c', h', k)} :: k in h'.votes ==> VoteOK(c', h', k)
    ensures forall e {:trigger CommitEntryOK(c', h', e)} :: e in h'.commits ==> CommitEntryOK(c', h', e)
  {
    forall k | k in h'.candLog
      ensures StandOK(c', h', k)
    {
      if k in h.candLog { assert StandOK(c, h, k); OldStand(c, h, c', h', a, k); }
    }
    forall k | k in h'.votes
      ensures VoteOK(c', h', k)
    {
      if k in h.votes {
        assert VoteOK(c, h, k);
        assert NodeOK(c, h, k.0);
        OldVote(c, h, c', h', a, k);
      }
    }
    forall e | e in h'.commits
      ensures CommitEntryOK(c', h', e)
    {
      if e in h.commits { assert CommitEntryOK(c, h, e); OldCommit(c, h, c', h', a, e); }
    }
  }

  // ----- the acting peer -----

  /** The step left the actor's log, commit index and acknowledgements alone. */
  lemma QuietLog(c: Cluster, h: History, c': Cluster, h': History, a: NodeId)
    requires Extends(c, h, c', h', a) && NodeOK(c, h, a) && SentinelFirst(h')
    requires var n, n' := c.nodes[a], c'.nodes[a];
             && n'.log == n.log && n'.commitIndex == n.commitIndex
             && n'.lastApplied == n.lastApplied && n'.applied == n.applied
    requires forall t :: Acked(h', a, t) == Acked(h, a, t)
    ensures var n' := c'.nodes[a];
            LogOK(h', n') && AcksOK(h', a, n') && CommitOK(h', n') && Kept(c', h', a, n'.log)
  {
    var n, n' := c.nodes[a], c'.nodes[a];
    MatchesKept(h, h', a, n'.currentTerm, n.log);
    CommittedKept(h, h', a, n'.currentTerm, n.log, n.commitIndex, n.currentTerm, n'.currentTerm);
    KeptKept(c, h, c', h', a, a, n.log);
    forall t: nat
      ensures AckAt(h', a, n', t)
    {
      assert AckAt(h, a, n, t) && LogGrows(h, h', t) && Acked(h', a, t) == Acked(h, a, t);
    }
  }

  /** A leader's peer was a candidate of that term, so it has reached the term. */
  lemma LeaderReached(c: Cluster, h: History, t: nat)
    requires Inv(c, h) && t in h.termLog
    ensures TermOK(c, h, t) && c.nodes[h.leaderOf[t]].currentTerm >= t
  {
    assert TermOK(c, h, t);
    var b := Backers(c, h, h.leaderOf[t], t);
    assert |b| > 0;
    var v :| v in b;
    assert (v, t) in h.votes && VoteOK(c, h, (v, t));
    assert StandOK(c, h, (h.leaderOf[t], t));
  }

  lemma SentinelsFirst(c: Cluster, h: History)
    requires Inv(c, h)
    ensures SentinelFirst(h)
  {
    forall t | t in h.termLog
      ensures SentinelAt(h, t)
    {
      assert TermOK(c, h, t);
    }
  }

  /** A step that only adds votes and candidacies of its actor. */
  lemma VotesExtend(c: Cluster, h: History, c': Cluster, h': History, a: NodeId)
    requires c'.peers == c.peers && a in c.nodes && a in c'.nodes && c'.nodes == c.nodes[a := c'.nodes[a]]
    requires c.nodes[a].currentTerm <= c'.nodes[a].currentTerm && SentinelFirst(h)
    requires h'.termLog == h.termLog && h'.leaderOf == h.leaderOf && h'.acks == h.acks && h'.commits == h.commits
    requires VotesGrow(h, h', a)
    ensures Extends(c, h, c', h', a) && NewTermsOK(c', h, h') && SentinelFirst(h')
  {
    assert c'.nodes.Keys == c.nodes.Keys;
    forall t
      ensures LogGrows(h, h', t) && SentinelAt(h', t)
    {
      assert SentinelAt(h, t);
    }
  }

  /** The actor keeps its role and what goes with it, or has become a follower. */
  lemma RoleKept(c: Cluster, h: History, c': Cluster, h': History, a: NodeId)
    requires Extends(c, h, c', h', a) && h'.termLog == h.termLog && h'.leaderOf == h.leaderOf && h'.acks == h.acks
    requires CandidateOK(c, h, a, c.nodes[a]) && LeaderOK(c, h, a, c.nodes[a])
    requires var n, n' := c.nodes[a], c'.nodes[a];
             || n'.role == Follower
             || n' == n.(votedFor := n'.votedFor)
    ensures CandidateOK(c', h', a, c'.nodes[a]) && LeaderOK(c', h', a, c'.nodes[a])
  {
    var n, n' := c.nodes[a], c'.nodes[a];
    if n'.role == Candidate {
      BackersGrow(c, h, c', h', a, a, n.currentTerm);
      Subset(Backers(c, h, a, n.currentTerm) - n.awaiting, Backers(c', h', a, n.currentTerm) - n.awaiting);
    }
    forall p | p in c'.nodes && n'.role == Leader
      ensures PeerOK(h', n', p)
    {
      assert PeerOK(h, n, p);
    }
  }

  lemma QuietNode(c: Cluster, h: History, c': Cluster, a: NodeId)
    requires a in c.nodes && a in c'.nodes && c'.peers == c.peers && c'.nodes == c.nodes[a := c'.nodes[a]]
    requires Inv(c, h) && SentinelFirst(h)
    requires var n, n' := c.nodes[a], c'.nodes[a];
             && n'.log == n.log && n'.commitIndex == n.commitIndex
             && n'.lastApplied == n.lastApplied && n'.applied == n.applied
             && n.currentTerm <= n'.currentTerm && VotesOK(h, a, n') && LeaderOK(c, h, a, n')
             && CandidateOK(c, h, a, n')
    ensures NodeOK(c', h, a)
  {
    assert NodeOK(c, h, a);
    QuietLog(c, h, c', h, a);
    var n' := c'.nodes[a];
    assert Backers(c', h, a, n'.currentTerm) == Backers(c, h, a, n'.currentTerm);
  }

  lemma QuietStanding(c: Cluster, h: History, c': Cluster, a: NodeId)
    requires Inv(c, h) && a in c.nodes && a in c'.nodes
    requires c'.nodes[a].role == Candidate ==>
               c.nodes[a].role == Candidate && c'.nodes[a].currentTerm == c.nodes[a].currentTerm
    ensures NotStandingAgain(c', h, a)
  {
    var t := c'.nodes[a].currentTerm;
    if t in h.termLog { assert TermOK(c, h, t); }
  }

  /** A step that changes neither the actor's log nor the history. */
  lemma QuietStep(c: Cluster, h: History, c': Cluster, a: NodeId)
    requires Inv(c, h) && a in c.nodes && a in c'.nodes && c'.peers == c.peers && c'.nodes == c.nodes[a := c'.nodes[a]]
    requires var n, n' := c.nodes[a], c'.nodes[a];
             && n'.log == n.log && n'.commitIndex == n.commitIndex
             && n'.lastApplied == n.lastApplied && n'.applied == n.applied
             && n.currentTerm <= n'.currentTerm && VotesOK(h, a, n') && LeaderOK(c, h, a, n')
             && CandidateOK(c, h, a, n')
             && (n'.role == Candidate ==> n.role == Candidate && n'.currentTerm == n.currentTerm)
    requires NewMessagesOK(c, c', h)
    ensures Inv(c', h)
  {
    SentinelsFirst(c, h);
    QuietNode(c, h, c', a);
    QuietStanding(c, h, c', a);
    VotesExtend(c, h, c', h, a);
    Assemble(c, h, c', h, a);
  }

  /** A peer that learns of a later term follows in it. */
  lemma AdoptTerm(c: Cluster, h: History, c': Cluster, a: NodeId, term: nat)
    requires Inv(c, h) && a in c.nodes && term > c.nodes[a].currentTerm
    requires c' == c.(nodes := c.nodes[a := BecomeFollower(c.nodes[a], term)])
    ensures Inv(c', h)
  {
    assert NodeOK(c, h, a);
    QuietStep(c, h, c', a);
  }

  // ----- a leader adding to its log -----

  lemma AppendedShape(log: seq<Entry>, log': seq<Entry>)
    requires Shape(log) && |log'| == |log| + 1 && log' == log + [log'[|log|]]
    requires log'[|log|].index == |log| && log'[|log|].term >= 1 && log'[|log|].term >= Last(log).term
    ensures Shape(log')
  {
    forall i, j | 0 <= i <= j < |log'|
      ensures Ordered(log', i, j)
    {
      assert Ordered(log, i, j) && Ordered(log, i, |log| - 1);
    }
  }

  /** The actor's log got one entry longer, and the history says so. */
  lemma LeadExtends(c: Cluster, h: History, c': Cluster, h': History, a: NodeId)
    requires c'.peers == c.peers && a in c.nodes && a in c'.nodes && c'.nodes == c.nodes[a := c'.nodes[a]]
    requires c'.nodes[a].currentTerm == c.nodes[a].currentTerm && SentinelFirst(h) && NodeOK(c, h, a)
    requires h' == Lead(h, a, c'.nodes[a])
    requires var n', t := c'.nodes[a], c'.nodes[a].currentTerm;
             && |n'.log| == |c.nodes[a].log| + 1 && n'.log[..|n'.log| - 1] == c.nodes[a].log
             && (t in h.termLog ==> h.termLog[t] == c.nodes[a].log && t in h.leaderOf && h.leaderOf[t] == a)
    ensures Extends(c, h, c', h', a)
    ensures forall t :: t in h'.termLog && t != c'.nodes[a].currentTerm ==>
              t in h.termLog && h'.termLog[t] == h.termLog[t]
  {
    var n', term := c'.nodes[a], c'.nodes[a].currentTerm;
    assert c'.nodes.Keys == c.nodes.Keys;
    forall t
      ensures LogGrows(h, h', t)
    {
      assert SentinelAt(h, t);
    }
    assert AckAt(h, a, c.nodes[a], term);
  }

  /** Messages already applied do not depend on what lies beyond them in the log. */
  lemma {:induction false} SameMessages(a: seq<Entry>, b: seq<Entry>, lo: nat, hi: nat)
    requires lo <= hi && hi >= 1 && AgreeThrough(a, b, hi - 1)
    ensures Messages(a, lo, hi) == Messages(b, lo, hi)
    decreases hi
  {
    if lo < hi && hi > 1 { SameMessages(a, b, lo, hi - 1); }
  }

  lemma LeadNode(c: Cluster, h: History, c': Cluster, h': History, a: NodeId)
    requires Extends(c, h, c', h', a) && NodeOK(c, h, a) && SentinelFirst(h)
    requires h' == Lead(h, a, c'.nodes[a]) && Shape(c'.nodes[a].log)
    requires var n, n' := c.nodes[a], c'.nodes[a];
             && n'.currentTerm == n.currentTerm && n'.votedFor == n.votedFor && n'.role == Leader
             && |n'.log| == |n.log| + 1 && n'.log[..|n'.log| - 1] == n.log && Last(n'.log).term == n'.currentTerm
             && n'.commitIndex == n.commitIndex && n'.lastApplied == n.lastApplied && n'.applied == n.applied
             && n'.nextIndex.Keys == c.nodes.Keys && n'.matchIndex.Keys == c.nodes.Keys
             && forall p :: p in c.nodes ==> PeerOK(h', n', p)
    ensures NodeOK(c', h', a) && Matches(h', c'.nodes[a].log)
  {
    var n, n' := c.nodes[a], c'.nodes[a];
    var t := n'.currentTerm;
    assert AgreeThrough(n.log, n'.log, |n.log| - 1);
    LeadMatches(c, h, c', h', a);
    SameMessages(n.log, n'.log, 1, n.lastApplied + 1);
    CommittedKept(h, h', a, t, n.log, n.commitIndex, t, t);
    if n.commitIndex != 0 {
      var e :| e in h'.commits && CoveredBy(h', n.log, n.commitIndex, t, e);
      assert CoveredBy(h', n'.log, n.commitIndex, t, e);
    }
    LeadKept(c, h, c', h', a);
    assert VotesOK(h', a, n');
  }

  lemma LeadMatches(c: Cluster, h: History, c': Cluster, h': History, a: NodeId)
    requires Extends(c, h, c', h', a) && NodeOK(c, h, a) && h' == Lead(h, a, c'.nodes[a])
    requires var n, n' := c.nodes[a], c'.nodes[a];
             && n'.currentTerm == n.currentTerm && |n'.log| == |n.log| + 1 && n'.log[..|n'.log| - 1] == n.log
             && Last(n'.log).term == n'.currentTerm
    ensures Matches(h', c'.nodes[a].log)
  {
    var n, n' := c.nodes[a], c'.nodes[a];
    MatchesKept(h, h', a, n'.currentTerm, n.log);
    forall i | 1 <= i < |n'.log|
      ensures MatchesAt(h', n'.log, i)
    {
      if i < |n.log| {
        assert MatchesAt(h', n.log, i);
        assert n'.log[i] == n.log[i];
      }
    }
  }

  lemma LeadKept(c: Cluster, h: History, c': Cluster, h': History, a: NodeId)
    requires Extends(c, h, c', h', a) && NodeOK(c, h, a) && SentinelFirst(h) && h' == Lead(h, a, c'.nodes[a])
    requires var n, n' := c.nodes[a], c'.nodes[a];
             n'.currentTerm == n.currentTerm && |n'.log| == |n.log| + 1 && n'.log[..|n'.log| - 1] == n.log
    ensures Kept(c', h', a, c'.nodes[a].log) && AcksOK(h', a, c'.nodes[a])
  {
    var n, n' := c.nodes[a], c'.nodes[a];
    var term := n'.currentTerm;
    assert AgreeThrough(n.log, n'.log, |n.log| - 1);
    forall t: nat
      ensures AckAt(h', a, n', t)
    {
      assert AckAt(h, a, n, t);
    }
    forall t: nat, k: nat
      ensures KeptAt(c', h', a, n'.log, t, k)
    {
      if t != term && Own(h', t, k) && k <= Acked(h', a, t) && Choosable(c', h', t, k) {
        ChoosableShrinks(c, h, c', h', a, t, k);
        assert Own(h, t, k) && KeptAt(c, h, a, n.log, t, k);
      }
    }
  }
}
