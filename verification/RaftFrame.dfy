/**
 What one step leaves alone: the other peers, the messages already sent, and everything the history
 has recorded. Only what the acting peer adds remains to be shown for each kind of step.
 */
module RaftFrame {
  import opened RaftNode
  import opened RaftCluster
  import opened RaftInvariant

  /** The recorded logs only get longer, and only the acting peer's own term is touched. */
  ghost predicate LogsGrow(h: History, h': History, a: NodeId, term: nat) {
    && (forall t {:trigger LogGrows(h, h', t)} :: LogGrows(h, h', t))
    && (forall t {:trigger Touched(h, h', t)} :: Touched(h, h', t) ==>
          t in h'.leaderOf && h'.leaderOf[t] == a && t == term)
  }

  ghost predicate LogGrows(h: History, h': History, t: nat) {
    t in h.termLog ==>
      && t in h'.termLog && AgreeThrough(h.termLog[t], h'.termLog[t], |h.termLog[t]| - 1)
      && (t in h.leaderOf ==> t in h'.leaderOf && h'.leaderOf[t] == h.leaderOf[t])
  }

  ghost predicate Touched(h: History, h': History, t: nat) {
    t in h'.termLog && (t !in h.termLog || h.termLog[t] != h'.termLog[t])
  }

  ghost predicate VotesGrow(h: History, h': History, a: NodeId) {
    && (forall k :: k in h.votes ==> k in h'.votes && h'.votes[k] == h.votes[k])
    && (forall k :: k in h'.votes && k !in h.votes ==> k.0 == a)
    && (forall k :: k in h.candLog ==> k in h'.candLog && h'.candLog[k] == h.candLog[k])
    && (forall k :: k in h'.candLog && k !in h.candLog ==> k.0 == a)
  }

  ghost predicate AcksGrow(h: History, h': History, a: NodeId, term: nat) {
    forall v, t {:trigger AckGrows(h, h', a, term, v, t)} :: AckGrows(h, h', a, term, v, t)
  }

  ghost predicate AckGrows(h: History, h': History, a: NodeId, term: nat, v: NodeId, t: nat) {
    Acked(h, v, t) <= Acked(h', v, t) && (Acked(h, v, t) < Acked(h', v, t) ==> v == a && t == term)
  }

  ghost predicate Extends(c: Cluster, h: History, c': Cluster, h': History, a: NodeId) {
    && c'.peers == c.peers && c'.nodes.Keys == c.nodes.Keys && a in c.nodes
    && c'.nodes == c.nodes[a := c'.nodes[a]]
    && c.nodes[a].currentTerm <= c'.nodes[a].currentTerm
    && LogsGrow(h, h', a, c'.nodes[a].currentTerm)
    && VotesGrow(h, h', a)
    && AcksGrow(h, h', a, c'.nodes[a].currentTerm)
    && h.commits <= h'.commits
  }

  lemma TermsGrow(c: Cluster, h: History, c': Cluster, h': History, a: NodeId, v: NodeId)
    requires Extends(c, h, c', h', a) && v in c.nodes
    ensures c.nodes[v].currentTerm <= c'.nodes[v].currentTerm
  {
  }

  /** What can be chosen after a step could be chosen before it. */
  lemma ChoosableShrinks(c: Cluster, h: History, c': Cluster, h': History, a: NodeId, t: nat, k: nat)
    requires Extends(c, h, c', h', a) && Choosable(c', h', t, k)
    ensures Choosable(c, h, t, k)
  {
    forall v | v in Possible(c', h', t, k)
      ensures v in Possible(c, h, t, k)
    {
      assert AckGrows(h, h', a, c'.nodes[a].currentTerm, v, t);
    }
    Subset(Possible(c', h', t, k), Possible(c, h, t, k));
  }

  lemma ChosenGrows(c: Cluster, h: History, c': Cluster, h': History, a: NodeId, t: nat, k: nat)
    requires Extends(c, h, c', h', a) && Chosen(c, h, t, k)
    ensures Chosen(c', h', t, k)
  {
    forall v | v in Ackers(c, h, t, k)
      ensures v in Ackers(c', h', t, k)
    {
      assert AckGrows(h, h', a, c'.nodes[a].currentTerm, v, t);
    }
    Subset(Ackers(c, h, t, k), Ackers(c', h', t, k));
  }

  lemma BackersGrow(c: Cluster, h: History, c': Cluster, h': History, a: NodeId, v: NodeId, t: nat)
    requires Extends(c, h, c', h', a)
    ensures Backers(c, h, v, t) <= Backers(c', h', v, t)
    ensures |Backers(c, h, v, t)| <= |Backers(c', h', v, t)|
  {
    assert forall u :: (u, t) in h.votes ==> (u, t) in h'.votes && h'.votes[(u, t)] == h.votes[(u, t)];
    Subset(Backers(c, h, v, t), Backers(c', h', v, t));
  }

  lemma OwnKept(h: History, h': History, a: NodeId, term: nat, t: nat, k: nat)
    requires LogsGrow(h, h', a, term) && t in h.termLog && k < |h.termLog[t]|
    ensures Own(h', t, k) == Own(h, t, k)
    ensures t in h'.termLog && AgreeThrough(h.termLog[t], h'.termLog[t], k)
  {
    assert LogGrows(h, h', t);
  }

  lemma MatchesKept(h: History, h': History, a: NodeId, term: nat, log: seq<Entry>)
    requires LogsGrow(h, h', a, term) && Matches(h, log)
    ensures Matches(h', log)
  {
    forall i | 1 <= i < |log|
      ensures MatchesAt(h', log, i)
    {
      assert MatchesAt(h, log, i) && LogGrows(h, h', log[i].term);
    }
  }

  lemma CommittedKept(h: History, h': History, a: NodeId, term: nat, log: seq<Entry>, k: nat, t: nat, t': nat)
    requires LogsGrow(h, h', a, term) && h.commits <= h'.commits && t <= t'
    requires Committed(h, log, k, t)
    ensures Committed(h', log, k, t')
  {
    if k != 0 {
      var e :| e in h.commits && CoveredBy(h, log, k, t, e);
      assert LogGrows(h, h', e.0);
      assert CoveredBy(h', log, k, t', e);
    }
  }

  lemma KeptKept(c: Cluster, h: History, c': Cluster, h': History, a: NodeId, v: NodeId, log: seq<Entry>)
    requires Extends(c, h, c', h', a) && Kept(c, h, v, log)
    requires forall t :: Acked(h', v, t) == Acked(h, v, t)
    requires v in c.nodes && AcksOK(h, v, c.nodes[v]) && SentinelFirst(h')
    ensures Kept(c', h', v, log)
  {
    forall t: nat, k: nat
      ensures KeptAt(c', h', v, log, t, k)
    {
      if Own(h', t, k) && k <= Acked(h', v, t) && Choosable(c', h', t, k) {
        assert SentinelAt(h', t) && AckAt(h, v, c.nodes[v], t);
        OwnKept(h, h', a, c'.nodes[a].currentTerm, t, k);
        ChoosableShrinks(c, h, c', h', a, t, k);
        assert KeptAt(c, h, v, log, t, k);
      }
    }
  }

  // ----- the invariant's parts that a step of another peer cannot break -----

  ghost predicate SentinelFirst(h: History) {
    forall t {:trigger SentinelAt(h, t)} :: SentinelAt(h, t)
  }

  ghost predicate SentinelAt(h: History, t: nat) {
    t in h.termLog ==> |h.termLog[t]| > 0 && h.termLog[t][0] == SENTINEL && t >= 1
  }

  lemma OtherNode(c: Cluster, h: History, c': Cluster, h': History, a: NodeId, v: NodeId)
    requires Extends(c, h, c', h', a) && v in c.nodes && v != a && NodeOK(c, h, v) && SentinelFirst(h')
    ensures NodeOK(c', h', v)
  {
    var n := c.nodes[v];
    MatchesKept(h, h', a, c'.nodes[a].currentTerm, n.log);
    CommittedKept(h, h', a, c'.nodes[a].currentTerm, n.log, n.commitIndex, n.currentTerm, n.currentTerm);
    OtherVotes(c, h, c', h', a, v);
    OtherAcks(c, h, c', h', a, v);
    KeptKept(c, h, c', h', a, v, n.log);
    OtherRole(c, h, c', h', a, v);
  }

  lemma OtherVotes(c: Cluster, h: History, c': Cluster, h': History, a: NodeId, v: NodeId)
    requires Extends(c, h, c', h', a) && v in c.nodes && v != a && VotesOK(h, v, c.nodes[v])
    ensures VotesOK(h', v, c'.nodes[v])
  {
    assert forall t :: (v, t) in h'.votes <==> (v, t) in h.votes;
  }

  lemma OtherAcks(c: Cluster, h: History, c': Cluster, h': History, a: NodeId, v: NodeId)
    requires Extends(c, h, c', h', a) && v in c.nodes && v != a && AcksOK(h, v, c.nodes[v])
    ensures AcksOK(h', v, c'.nodes[v])
    ensures forall t :: Acked(h', v, t) == Acked(h, v, t)
  {
    var term := c'.nodes[a].currentTerm;
    forall t
      ensures Acked(h', v, t) == Acked(h, v, t)
    {
      assert AckGrows(h, h', a, term, v, t);
    }
    forall t: nat
      ensures AckAt(h', v, c'.nodes[v], t)
    {
      assert AckAt(h, v, c.nodes[v], t) && LogGrows(h, h', t);
    }
  }

  lemma OtherRole(c: Cluster, h: History, c': Cluster, h': History, a: NodeId, v: NodeId)
    requires Extends(c, h, c', h', a) && v in c.nodes && v != a
    requires forall t :: Acked(h', v, t) == Acked(h, v, t)
    requires CandidateOK(c, h, v, c.nodes[v]) && LeaderOK(c, h, v, c.nodes[v])
    ensures CandidateOK(c', h', v, c'.nodes[v]) && LeaderOK(c', h', v, c'.nodes[v])
  {
    var n := c.nodes[v];
    assert LogGrows(h, h', n.currentTerm) && !(n.role == Leader && Touched(h, h', n.currentTerm));
    BackersGrow(c, h, c', h', a, v, n.currentTerm);
    Subset(Backers(c, h, v, n.currentTerm) - n.awaiting, Backers(c', h', v, n.currentTerm) - n.awaiting);
    forall p | p in c.nodes && n.role == Leader
      ensures PeerOK(h', n, p)
    {
      assert PeerOK(h, n, p) && AckGrows(h, h', a, c'.nodes[a].currentTerm, p, n.currentTerm);
    }
  }

  lemma OldMessage(c: Cluster, h: History, c': Cluster, h': History, a: NodeId, m: Message)
    requires Extends(c, h, c', h', a) && MessageOK(c, h, m)
    ensures MessageOK(c', h', m)
  {
    if m.AppendRequest? || m.AppendResponse? {
      OldArgs(c, h, c', h', a, m.append);
    }
    if m.AppendResponse? {
      assert AckGrows(h, h', a, c'.nodes[a].currentTerm, m.from, m.append.term);
      if HintOK(h, m.append, m.appendReply) && m.appendReply.conflictTerm != -1 {
        OwnKept(h, h', a, c'.nodes[a].currentTerm, m.appendReply.conflictTerm, m.append.prevLogIndex);
      }
    }
  }

  lemma OldArgs(c: Cluster, h: History, c': Cluster, h': History, a: NodeId, args: AppendArgs)
    requires Extends(c, h, c', h', a) && AppendArgsOK(h, args)
    ensures AppendArgsOK(h', args)
  {
    assert LogGrows(h, h', args.term);
    var log, log' := h.termLog[args.term], h'.termLog[args.term];
    CommittedKept(h, h', a, c'.nodes[a].currentTerm, log, args.leaderCommit, args.term, args.term);
    if args.leaderCommit != 0 {
      var e :| e in h'.commits && CoveredBy(h', log, args.leaderCommit, args.term, e);
      assert CoveredBy(h', log', args.leaderCommit, args.term, e);
    }
  }

  // ----- the history's own parts -----

  lemma OldTerm(c: Cluster, h: History, c': Cluster, h': History, a: NodeId, t: nat)
    requires Extends(c, h, c', h', a) && t in h.termLog && TermOK(c, h, t) && t in h'.termLog
    requires h'.termLog[t] == h.termLog[t]
    requires h.leaderOf[t] == a && c'.nodes[a].currentTerm == t ==> c'.nodes[a].role != Candidate
    ensures TermOK(c', h', t)
  {
    assert LogGrows(h, h', t);
    MatchesKept(h, h', a, c'.nodes[a].currentTerm, h.termLog[t]);
    BackersGrow(c, h, c', h', a, h.leaderOf[t], t);
  }

  lemma OldStand(c: Cluster, h: History, c': Cluster, h': History, a: NodeId, k: (NodeId, nat))
    requires Extends(c, h, c', h', a) && k in h.candLog && StandOK(c, h, k)
    ensures StandOK(c', h', k)
  {
    MatchesKept(h, h', a, c'.nodes[a].currentTerm, h.candLog[k]);
    TermsGrow(c, h, c', h', a, k.0);
  }

  lemma OldVote(c: Cluster, h: History, c': Cluster, h': History, a: NodeId, k: (NodeId, nat))
    requires Extends(c, h, c', h', a) && k in h.votes && VoteOK(c, h, k)
    requires VotesOK(h, k.0, c.nodes[k.0]) && AcksOK(h, k.0, c.nodes[k.0]) && SentinelFirst(h')
    ensures VoteOK(c', h', k)
  {
    var log := h.candLog[(h.votes[k], k.1)];
    forall t: nat, i: nat | t < k.1
      ensures Guards(c', h', k.0, log, t, i)
    {
      assert (k.0, k.1) == k;
      TermsGrow(c, h, c', h', a, k.0);
      assert AckGrows(h, h', a, c'.nodes[a].currentTerm, k.0, t);
      if Own(h', t, i) && i <= Acked(h', k.0, t) && Choosable(c', h', t, i) {
        assert SentinelAt(h', t) && AckAt(h, k.0, c.nodes[k.0], t);
        OwnKept(h, h', a, c'.nodes[a].currentTerm, t, i);
        ChoosableShrinks(c, h, c', h', a, t, i);
        assert Guards(c, h, k.0, log, t, i);
      }
    }
  }

  /** Inheritance between terms both recorded before, for entries the earlier term had before. */
  lemma OldInherits(c: Cluster, h: History, c': Cluster, h': History, a: NodeId, t: nat, u: nat, i: nat)
    requires Extends(c, h, c', h', a) && t in h.termLog && u in h.termLog && Inherits(c, h, t, u)
    requires i < |h.termLog[t]| && Own(h', t, i) && Choosable(c', h', t, i)
    ensures u in h'.termLog && AgreeThrough(h'.termLog[t], h'.termLog[u], i)
  {
    OwnKept(h, h', a, c'.nodes[a].currentTerm, t, i);
    ChoosableShrinks(c, h, c', h', a, t, i);
    assert InheritsAt(c, h, t, u, i) && LogGrows(h, h', u);
  }

  lemma OldCommit(c: Cluster, h: History, c': Cluster, h': History, a: NodeId, e: (nat, nat))
    requires Extends(c, h, c', h', a) && CommitEntryOK(c, h, e)
    ensures CommitEntryOK(c', h', e)
  {
    OwnKept(h, h', a, c'.nodes[a].currentTerm, e.0, e.1);
    ChosenGrows(c, h, c', h', a, e.0, e.1);
  }
}
