/**
 The steps of an election keep the invariant: a timeout, a vote request and a vote reply.
 */
module RaftElection {
  import opened Sequences
  import opened RaftNode
  import opened RaftCluster
  import opened RaftInvariant
  import opened RaftFrame
  import opened RaftAssemble

  // ----- Timeout -----

  lemma TimeoutStep(c: Cluster, h: History, step: Step)
    requires Inv(c, h) && step.Timeout? && Enabled(c, step) && InBounds(c, step)
    ensures Inv(Exec(c, step), Record(c, h, step))
  {
    var a, c', h' := step.node, Exec(c, step), Record(c, h, step);
    assert NodeOK(c, h, a);
    TimeoutMessages(c, h', c', step);
    TimeoutRest(c, h, c', h', a);
  }

  lemma TimeoutRest(c: Cluster, h: History, c': Cluster, h': History, a: NodeId)
    requires Inv(c, h) && a in c.nodes && a in c'.nodes && c'.peers == c.peers && c'.nodes == c.nodes[a := c'.nodes[a]]
    requires c'.nodes[a] == StartElection(c.nodes[a], a, c.peers) && NewMessagesOK(c, c', h')
    requires var k := (a, c'.nodes[a].currentTerm);
             h' == h.(votes := h.votes[k := a], candLog := h.candLog[k := c'.nodes[a].log])
    ensures Inv(c', h')
  {
    TimeoutFresh(c, h, a);
    VotesExtend(c, h, c', h', a);
    TimeoutNode(c, h, c', h', a);
    Assemble(c, h, c', h', a);
  }

  /** The new term is one the peer has neither voted, stood nor led in. */
  lemma TimeoutFresh(c: Cluster, h: History, a: NodeId)
    requires Inv(c, h) && a in c.nodes
    ensures var k := (a, c.nodes[a].currentTerm + 1); k !in h.votes && k !in h.candLog
    ensures var t := c.nodes[a].currentTerm + 1; t in h.termLog && t in h.leaderOf ==> h.leaderOf[t] != a
    ensures NodeOK(c, h, a) && SentinelFirst(h)
  {
    var t := c.nodes[a].currentTerm + 1;
    SentinelsFirst(c, h);
    assert NodeOK(c, h, a);
    forall k | k in h.candLog && k.0 == a
      ensures k.1 < t
    {
      assert StandOK(c, h, k);
    }
    if t in h.termLog { LeaderReached(c, h, t); }
  }

  lemma TimeoutNode(c: Cluster, h: History, c': Cluster, h': History, a: NodeId)
    requires Extends(c, h, c', h', a) && NodeOK(c, h, a) && SentinelFirst(h')
    requires c.nodes.Keys == Elements(c.peers)
    requires c'.nodes[a] == StartElection(c.nodes[a], a, c.peers)
    requires var k := (a, c'.nodes[a].currentTerm);
             h' == h.(votes := h.votes[k := a], candLog := h.candLog[k := c'.nodes[a].log])
    ensures NodeOK(c', h', a) && NewVotesOK(c', h, h')
  {
    var n' := c'.nodes[a];
    assert forall v, t :: Acked(h', v, t) == Acked(h, v, t);
    QuietLog(c, h, c', h', a);
    assert a in Backers(c', h', a, n'.currentTerm) - n'.awaiting;
    Subset({a}, Backers(c', h', a, n'.currentTerm) - n'.awaiting);
    TimeoutVote(c, h, c', h', a);
  }

  /** A candidate's vote for itself is safe because its own log keeps what it acknowledged. */
  lemma TimeoutVote(c: Cluster, h: History, c': Cluster, h': History, a: NodeId)
    requires a in c.nodes && a in c'.nodes && h'.commits == h.commits
    requires var t := c'.nodes[a].currentTerm;
             h'.votes == h.votes[(a, t) := a] && h'.candLog == h.candLog[(a, t) := c'.nodes[a].log]
    requires LogOK(h', c'.nodes[a]) && Kept(c', h', a, c'.nodes[a].log)
    ensures NewVotesOK(c', h, h')
  {
    assert StandOK(c', h', (a, c'.nodes[a].currentTerm));
    forall t: nat, i: nat
      ensures Guards(c', h', a, c'.nodes[a].log, t, i)
    {
      assert KeptAt(c', h', a, c'.nodes[a].log, t, i);
    }
    assert VoteOK(c', h', (a, c'.nodes[a].currentTerm));
  }

  lemma TimeoutMessages(c: Cluster, h': History, c': Cluster, step: Step)
    requires step.Timeout? && Enabled(c, step) && InBounds(c, step) && c' == Exec(c, step)
    requires c.nodes.Keys == Elements(c.peers) && Indexed(c.nodes[step.node].log)
    requires var k := (step.node, c'.nodes[step.node].currentTerm);
             k in h'.candLog && h'.candLog[k] == c.nodes[step.node].log
    ensures NewMessagesOK(c, c', h')
  {
  }

  // ----- a vote request -----

  lemma VoteRequestStep(c: Cluster, h: History, step: Step)
    requires Inv(c, h) && step.Deliver? && step.msg.VoteRequest? && Enabled(c, step) && InBounds(c, step)
    ensures Inv(Exec(c, step), Record(c, h, step))
  {
    var a, c', h' := Actor(step), Exec(c, step), Record(c, h, step);
    assert NodeOK(c, h, a) && MessageOK(c, h, step.msg);
    VoteRequested(c, h, c', h', a, step.msg.from, step.msg.vote);
  }

  lemma VoteRequested(c: Cluster, h: History, c': Cluster, h': History, a: NodeId, from: NodeId, args: VoteArgs)
    requires Inv(c, h) && a in c.nodes && from in c.nodes && a != from && NodeOK(c, h, a) && VoteArgsOK(h, from, args)
    requires c' == c.(nodes := c.nodes[a := HandleVote(c.nodes[a], args).0],
                      net := c.net + {VoteResponse(a, from, args, HandleVote(c.nodes[a], args).1)})
    requires h' == if Grants(c.nodes[a], args) then h.(votes := h.votes[(a, args.term) := args.candidate]) else h
    ensures Inv(c', h')
  {
    SentinelsFirst(c, h);
    VotesExtend(c, h, c', h', a);
    VoteRequestNode(c, h, c', h', a, args);
    if Grants(c.nodes[a], args) { GrantSafe(c, h, a, args); }
    GrantVote(c, h, c', h', a, args);
    VoteRequestRest(c, h, c', h', a, from, args);
    Assemble(c, h, c', h', a);
  }

  lemma VoteRequestRest(c: Cluster, h: History, c': Cluster, h': History, a: NodeId, from: NodeId, args: VoteArgs)
    requires Inv(c, h) && a in c.nodes && from in c.nodes && a != from && NodeOK(c, h, a) && VoteArgsOK(h, from, args)
    requires c' == c.(nodes := c.nodes[a := HandleVote(c.nodes[a], args).0],
                      net := c.net + {VoteResponse(a, from, args, HandleVote(c.nodes[a], args).1)})
    requires h' == if Grants(c.nodes[a], args) then h.(votes := h.votes[(a, args.term) := args.candidate]) else h
    ensures NewMessagesOK(c, c', h') && NotStandingAgain(c', h, a)
  {
    var t := c'.nodes[a].currentTerm;
    if t in h.termLog { assert TermOK(c, h, t); }
  }

  lemma VoteRequestNode(c: Cluster, h: History, c': Cluster, h': History, a: NodeId, args: VoteArgs)
    requires Extends(c, h, c', h', a) && NodeOK(c, h, a) && SentinelFirst(h')
    requires c'.nodes[a] == HandleVote(c.nodes[a], args).0
    requires h' == if Grants(c.nodes[a], args) then h.(votes := h.votes[(a, args.term) := args.candidate]) else h
    ensures NodeOK(c', h', a)
  {
    QuietLog(c, h, c', h', a);
    RoleKept(c, h, c', h', a);
  }

  /** Section 5.4.1: a log at least as up to date holds everything the voter may have to keep. */
  lemma GrantSafe(c: Cluster, h: History, v: NodeId, args: VoteArgs)
    requires Inv(c, h) && v in c.nodes && |c.nodes[v].log| > 0 && VoteArgsOK(h, args.candidate, args)
    requires UpToDate(args, c.nodes[v].log)
    ensures var log := h.candLog[(args.candidate, args.term)];
            forall t: nat, i: nat {:trigger Guards(c, h, v, log, t, i)} :: Guards(c, h, v, log, t, i)
  {
    var log, mine := h.candLog[(args.candidate, args.term)], c.nodes[v].log;
    assert NodeOK(c, h, v) && StandOK(c, h, (args.candidate, args.term));
    forall t: nat, i: nat
      ensures Guards(c, h, v, log, t, i)
    {
      if Own(h, t, i) && i <= Acked(h, v, t) && Choosable(c, h, t, i) {
        assert TermOK(c, h, t) && KeptAt(c, h, v, mine, t, i);
        assert 1 <= i < |mine| && mine[i].term == t;
        UpToDateHolds(c, h, log, mine, t, i);
      }
    }
  }

  lemma UpToDateHolds(c: Cluster, h: History, log: seq<Entry>, mine: seq<Entry>, t: nat, i: nat)
    requires Shape(log) && Matches(h, log) && Shape(mine) && Matches(h, mine)
    requires HistoryOK(c, h)
    requires Own(h, t, i) && Choosable(c, h, t, i) && AgreeThrough(mine, h.termLog[t], i)
    requires 1 <= i < |mine| && mine[i].term == t >= 1
    requires Last(log).term > Last(mine).term || (Last(log).term == Last(mine).term && |log| >= |mine|)
    ensures AgreeThrough(h.termLog[t], log, i)
  {
    assert Ordered(mine, i, |mine| - 1);
    var u, j := Last(log).term, |log| - 1;
    assert j >= 1 && MatchesAt(h, log, j);
    if u == Last(mine).term {
      assert MatchesAt(h, mine, |mine| - 1);
    } else {
      assert Inherits(c, h, t, u) && InheritsAt(c, h, t, u, i);
      assert TermOK(c, h, u) && Ordered(h.termLog[u], j, i);
    }
  }

  lemma GrantVote(c: Cluster, h: History, c': Cluster, h': History, a: NodeId, args: VoteArgs)
    requires a in c.nodes && |c.nodes[a].log| > 0 && Extends(c, h, c', h', a)
    requires (args.candidate, args.term) in h.candLog
    requires h' == if Grants(c.nodes[a], args) then h.(votes := h.votes[(a, args.term) := args.candidate]) else h
    requires var log := h.candLog[(args.candidate, args.term)];
             Grants(c.nodes[a], args) ==>
               forall t: nat, i: nat {:trigger Guards(c, h, a, log, t, i)} :: Guards(c, h, a, log, t, i)
    ensures NewVotesOK(c', h, h')
  {
    var log := h.candLog[(args.candidate, args.term)];
    forall t: nat, i: nat | Grants(c.nodes[a], args)
      ensures Guards(c', h', a, log, t, i)
    {
      if Choosable(c', h', t, i) { ChoosableShrinks(c, h, c', h', a, t, i); }
      assert Guards(c, h, a, log, t, i);
    }
  }

  // ----- a vote reply -----

  lemma VoteResponseStep(c: Cluster, h: History, step: Step)
    requires Inv(c, h) && step.Deliver? && step.msg.VoteResponse? && Enabled(c, step) && InBounds(c, step)
    ensures Inv(Exec(c, step), Record(c, h, step))
  {
    var a, c', h' := Actor(step), Exec(c, step), Record(c, h, step);
    var n, m := c.nodes[a], step.msg;
    assert NodeOK(c, h, a) && MessageOK(c, h, m);
    if m.voteReply.term > n.currentTerm {
      AdoptTerm(c, h, c', a, m.voteReply.term);
    } else if n.role != Candidate || n.currentTerm != m.vote.term {
      assert c' == c;
    } else {
      var counted := Counted(n, a, c.peers, m.from, m.vote.term, m.voteReply);
      CountVote(c, h, a, m.from, counted);
      VoteCounted(c, h, c', h', a, counted);
    }
  }

  /** The candidate's state with the reply counted, before it may become leader. */
  lemma Counted(n: Node, me: NodeId, peers: seq<NodeId>, from: NodeId, term: nat, reply: VoteReply)
    returns (counted: Node)
    requires |n.log| > 0 && n.role == Candidate && n.currentTerm == term && reply.term <= term
    ensures counted == n.(awaiting := n.awaiting - {from}, votes := if reply.granted then n.votes + 1 else n.votes)
    ensures var n' := HandleVoteReply(n, me, peers, from, term, reply);
            || (n' == counted && n'.role == Candidate)
            || (counted.votes >= Majority(peers) && n' == BecomeLeader(counted, me, peers) && n'.role == Leader)
  {
    counted := n.(awaiting := n.awaiting - {from}, votes := if reply.granted then n.votes + 1 else n.votes);
  }

  lemma VoteCounted(c: Cluster, h: History, c': Cluster, h': History, a: NodeId, counted: Node)
    requires Inv(c, h) && a in c.nodes && c.nodes[a].role == Candidate && |counted.log| > 0
    requires counted == c.nodes[a].(awaiting := counted.awaiting, votes := counted.votes)
    requires CandidateOK(c, h, a, counted)
    requires a in c'.nodes && c' == c.(nodes := c.nodes[a := c'.nodes[a]])
    requires || (c'.nodes[a] == counted && h' == h)
             || (&& counted.votes >= Majority(c.peers)
                 && c'.nodes[a] == BecomeLeader(counted, a, c.peers) && h' == Lead(h, a, c'.nodes[a]))
    ensures Inv(c', h')
  {
    if c'.nodes[a].role == Leader {
      Elected(c, h, c', h', a, counted);
    } else {
      assert NodeOK(c, h, a);
      QuietStep(c, h, c', a);
    }
  }

  /** The counter never exceeds the number of distinct peers that voted for the candidate. */
  lemma CountVote(c: Cluster, h: History, a: NodeId, from: NodeId, counted: Node)
    requires a in c.nodes && CandidateOK(c, h, a, c.nodes[a]) && c.nodes[a].role == Candidate
    requires from in c.nodes[a].awaiting && from in c.nodes
    requires counted == c.nodes[a].(awaiting := c.nodes[a].awaiting - {from}, votes := counted.votes)
    requires || counted.votes == c.nodes[a].votes
             || (counted.votes == c.nodes[a].votes + 1 && from in Backers(c, h, a, counted.currentTerm))
    ensures CandidateOK(c, h, a, counted)
  {
    var backers, n := Backers(c, h, a, counted.currentTerm), c.nodes[a];
    if counted.votes == n.votes {
      Subset(backers - n.awaiting, backers - counted.awaiting);
    } else {
      assert backers - counted.awaiting == (backers - n.awaiting) + {from};
    }
  }

  /** No other peer leads the candidate's term, and the candidate does not lead it yet. */
  lemma TermUnled(c: Cluster, h: History, a: NodeId, t: nat)
    requires Inv(c, h) && a in c.nodes && c.nodes[a].currentTerm == t && c.nodes[a].role == Candidate
    requires |Backers(c, h, a, t)| >= Majority(c.peers)
    ensures t !in h.termLog
  {
    if t in h.termLog {
      assert TermOK(c, h, t);
      var v := QuorumsMeet(c, Backers(c, h, a, t), Backers(c, h, h.leaderOf[t], t));
    }
  }

  lemma Elected(c: Cluster, h: History, c': Cluster, h': History, a: NodeId, counted: Node)
    requires Inv(c, h) && a in c.nodes && a in c'.nodes && c.nodes[a].role == Candidate
    requires counted == c.nodes[a].(awaiting := counted.awaiting, votes := counted.votes)
    requires CandidateOK(c, h, a, counted) && counted.votes >= Majority(c.peers) && |counted.log| > 0
    requires c'.peers == c.peers && c'.nodes == c.nodes[a := BecomeLeader(counted, a, c.peers)] && c'.net == c.net
    requires h' == Lead(h, a, c'.nodes[a])
    ensures Inv(c', h')
  {
    var t := counted.currentTerm;
    assert NodeOK(c, h, a);
    Subset(Backers(c, h, a, t) - counted.awaiting, Backers(c, h, a, t));
    TermUnled(c, h, a, t);
    SentinelsFirst(c, h);
    ElectedNode(c, h, c', h', a, counted);
    ElectedTerm(c, h, c', h', a, t);
    Assemble(c, h, c', h', a);
  }

  lemma ElectedNode(c: Cluster, h: History, c': Cluster, h': History, a: NodeId, counted: Node)
    requires a in c.nodes && a in c'.nodes && NodeOK(c, h, a) && SentinelFirst(h) && c.nodes.Keys == Elements(c.peers)
    requires counted == c.nodes[a].(awaiting := counted.awaiting, votes := counted.votes)
    requires counted.currentTerm !in h.termLog && counted.currentTerm >= 1
    requires c'.peers == c.peers && c'.nodes == c.nodes[a := BecomeLeader(counted, a, c.peers)]
    requires h' == Lead(h, a, c'.nodes[a])
    ensures Extends(c, h, c', h', a) && NodeOK(c', h', a)
    ensures forall t :: t in h'.termLog && t != counted.currentTerm ==> t in h.termLog && h'.termLog[t] == h.termLog[t]
  {
    AppendedShape(counted.log, c'.nodes[a].log);
    LeadExtends(c, h, c', h', a);
    LeadNode(c, h, c', h', a);
  }

  lemma ElectedTerm(c: Cluster, h: History, c': Cluster, h': History, a: NodeId, u: nat)
    requires Inv(c, h) && Extends(c, h, c', h', a) && u !in h.termLog && u == c'.nodes[a].currentTerm >= 1
    requires a in c.nodes && (a, u) in h.candLog && h.candLog[(a, u)] <= c'.nodes[a].log
    requires |Backers(c, h, a, u)| >= Majority(c.peers) && h' == Lead(h, a, c'.nodes[a])
    requires c'.nodes[a].role == Leader && LogOK(h', c'.nodes[a]) && Last(c'.nodes[a].log).term == u
    ensures NewTermsOK(c', h, h')
  {
    BackersGrow(c, h, c', h', a, a, u);
    assert TermOK(c', h', u);
    ElectedInherits(c, h, c', h', a, u);
  }

  /** Section 5.4.3: whoever wins a majority holds everything that may still be chosen. */
  lemma ElectedInherits(c: Cluster, h: History, c': Cluster, h': History, a: NodeId, u: nat)
    requires Inv(c, h) && Extends(c, h, c', h', a) && u in h'.termLog && u !in h.termLog
    requires a in c.nodes && (a, u) in h.candLog && h.candLog[(a, u)] <= h'.termLog[u]
    requires |Backers(c, h, a, u)| >= Majority(c.peers)
    requires forall t :: t in h'.termLog && t != u ==> t in h.termLog && h'.termLog[t] == h.termLog[t]
    ensures forall t {:trigger Inherits(c', h', t, u)} :: t in h.termLog && t in h'.termLog && t < u ==>
              Inherits(c', h', t, u)
  {
    forall t, i: nat | t in h.termLog && t in h'.termLog && t < u
      ensures InheritsAt(c', h', t, u, i)
    {
      if Own(h', t, i) && Choosable(c', h', t, i) {
        ChoosableShrinks(c, h, c', h', a, t, i);
        var v := QuorumsMeet(c, Possible(c, h, t, i), Backers(c, h, a, u));
        assert (v, u) in h.votes && NodeOK(c, h, v) && VoteOK(c, h, (v, u));
        assert Own(h, t, i) && Guards(c, h, v, h.candLog[(a, u)], t, i);
      }
    }
  }
}
