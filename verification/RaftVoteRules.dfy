/**
 How a peer votes and what an election changes, over any run, in terms of logs and of the votes the messages show rather
 than of the functions that compute them.
 */
module RaftVoteRules {
  import opened Sequences
  import opened RaftNode
  import opened RaftCluster
  import opened RaftInvariant
  import opened RaftSafety

  // ----- votes -----

  /** Message `m` shows that `v` gave its vote of term `t` to `u`: an answer that grants it, or, for the vote a
      candidate gives itself, its own request. */
  ghost predicate VoteShows(m: Message, v: NodeId, t: nat, u: NodeId) {
    || (m.VoteResponse? && m.from == v && m.dest == u && m.vote.term == t && m.voteReply.granted)
    || (m.VoteRequest? && m.from == v == u && m.vote.term == t)
  }

  ghost predicate Voted(c: Cluster, v: NodeId, t: nat, u: NodeId) {
    exists m :: m in c.net && VoteShows(m, v, t, u)
  }

  ghost predicate Recorded(h: History, v: NodeId, t: nat, u: NodeId) {
    (v, t) in h.votes && h.votes[(v, t)] == u
  }

  lemma RecordKept(c: Cluster, h: History, step: Step, v: NodeId, t: nat, u: NodeId)
    requires Inv(c, h) && Enabled(c, step) && InBounds(c, step)
    ensures var h' := Record(c, h, step);
            && (Recorded(h, v, t, u) ==> Recorded(h', v, t, u))
            && (Recorded(h', v, t, u) && !Recorded(h, v, t, u) ==> v == Actor(step) && NewVote(c, step, t, u))
  {
    assert NodeOK(c, h, Actor(step));
    if step.Deliver? && step.msg.VoteRequest? { assert MessageOK(c, h, step.msg); }
    RecordIs(c, h, step, v, t, u);
  }

  lemma RecordIs(c: Cluster, h: History, step: Step, v: NodeId, t: nat, u: NodeId)
    requires Enabled(c, step) && InBounds(c, step) && VotesOK(h, Actor(step), c.nodes[Actor(step)])
    requires step.Deliver? && step.msg.VoteRequest? ==> step.msg.vote.candidate == step.msg.from
    ensures var h' := Record(c, h, step);
            && (Recorded(h, v, t, u) ==> Recorded(h', v, t, u))
            && (Recorded(h', v, t, u) && !Recorded(h, v, t, u) ==> v == Actor(step) && NewVote(c, step, t, u))
  {
  }

  /** The step records a vote of its actor: it stands, or it grants a request. */
  ghost predicate NewVote(c: Cluster, step: Step, t: nat, u: NodeId)
    requires Enabled(c, step) && InBounds(c, step)
  {
    match step
    case Timeout(me) => t == c.nodes[me].currentTerm + 1 && u == me
    case Deliver(VoteRequest(from, me, args)) => t == args.term && u == from && HandleVote(c.nodes[me], args).1.granted
    case _ => false
  }

  lemma NewVoteShown(c: Cluster, h: History, step: Step, t: nat, u: NodeId)
    requires Inv(c, h) && Enabled(c, step) && InBounds(c, step) && |c.peers| >= 2 && NewVote(c, step, t, u)
    ensures Voted(Exec(c, step), Actor(step), t, u)
  {
    var me, c' := Actor(step), Exec(c, step);
    if step.Timeout? {
      var p := Another(c.peers, me);
      assert VoteRequest(me, p, VoteRequestOf(React(c, step), me)) in c'.net;
    } else {
      var m := step.msg;
      assert VoteResponse(me, m.from, m.vote, HandleVote(c.nodes[me], m.vote).1) in c'.net;
    }
  }

  lemma Another(peers: seq<NodeId>, a: NodeId) returns (p: NodeId)
    requires NoRepeats(peers) && |peers| >= 2
    ensures p in peers && p != a
  {
    p := if peers[0] != a then peers[0] else peers[1];
  }

  lemma ShownRecorded(c: Cluster, h: History, step: Step, m: Message, v: NodeId, t: nat, u: NodeId)
    requires Inv(c, h) && Enabled(c, step) && InBounds(c, step) && m in Sent(c, step) && VoteShows(m, v, t, u)
    ensures Recorded(Record(c, h, step), v, t, u)
  {
    if step.Deliver? { assert MessageOK(c, h, step.msg); }
  }

  lemma {:induction false} VotesShown(peers: seq<NodeId>, steps: seq<Step>, v: NodeId, t: nat, u: NodeId)
    requires NoRepeats(peers) && |peers| >= 2
    ensures Recorded(RunHistory(peers, steps), v, t, u) <==> Voted(Run(peers, steps), v, t, u)
  {
    if steps == [] {
    } else {
      var before, step := steps[..|steps| - 1], steps[|steps| - 1];
      VotesShown(peers, before, v, t, u);
      RunInv(peers, before);
      PeersKept(peers, before);
      var c, h := Run(peers, before), RunHistory(peers, before);
      if Enabled(c, step) && InBounds(c, step) { VotesShownStep(c, h, step, v, t, u); }
    }
  }

  lemma VotesShownStep(c: Cluster, h: History, step: Step, v: NodeId, t: nat, u: NodeId)
    requires Inv(c, h) && Enabled(c, step) && InBounds(c, step) && |c.peers| >= 2
    requires Recorded(h, v, t, u) <==> Voted(c, v, t, u)
    ensures Recorded(Record(c, h, step), v, t, u) <==> Voted(Exec(c, step), v, t, u)
  {
    var c' := Exec(c, step);
    RecordKept(c, h, step, v, t, u);
    if Recorded(h, v, t, u) {
      var m :| m in c.net && VoteShows(m, v, t, u);
      assert m in c'.net;
    } else if Recorded(Record(c, h, step), v, t, u) {
      NewVoteShown(c, h, step, t, u);
    }
    if Voted(c', v, t, u) {
      var m :| m in c'.net && VoteShows(m, v, t, u);
      if m in c.net { assert Voted(c, v, t, u); } else { ShownRecorded(c, h, step, m, v, t, u); }
    }
  }

  /** Delivering `m` sends `answer` and nothing else. */
  ghost predicate SentInReply(c: Cluster, m: Message, answer: Message) {
    && Enabled(c, Deliver(m)) && InBounds(c, Deliver(m)) && Sent(c, Deliver(m)) == {answer}
    && Exec(c, Deliver(m)).net == c.net + {answer}
  }

  /** The candidate's last entry is at least as recent as the last of `log`. */
  ghost predicate Recent(args: VoteArgs, log: seq<Entry>)
    requires |log| > 0
  {
    var last := log[|log| - 1];
    args.lastLogTerm > last.term || (args.lastLogTerm == last.term && args.lastLogIndex >= last.index)
  }

  /** The answer `reply` and the new state `n'` of a peer in state `n`, which is `free` to vote for the candidate or
      not. */
  ghost predicate AnswersVote(n: Node, args: VoteArgs, free: bool, n': Node, reply: VoteReply)
    requires |n.log| > 0
  {
    && (reply.granted <==> args.term >= n.currentTerm && Recent(args, n.log) && free)
    && reply.term == n'.currentTerm == (if args.term > n.currentTerm then args.term else n.currentTerm)
    && n' == n.(currentTerm := n'.currentTerm, role := n'.role, votedFor := n'.votedFor)
    && n'.role == (if args.term > n.currentTerm then Follower else n.role)
  }

  /** The peer has given its vote of the request's term to nobody else. */
  ghost predicate Free(c: Cluster, m: Message)
    requires m.VoteRequest?
  {
    forall u :: u != m.from ==> !Voted(c, m.dest, m.vote.term, u)
  }

  ghost predicate FreeBy(h: History, v: NodeId, t: nat, u: NodeId) {
    (v, t) in h.votes ==> h.votes[(v, t)] == u
  }

  lemma HandleVoteIs(h: History, v: NodeId, n: Node, args: VoteArgs)
    requires VotesOK(h, v, n) && |n.log| > 0
    ensures AnswersVote(n, args, FreeBy(h, v, args.term, args.candidate), HandleVote(n, args).0, HandleVote(n, args).1)
  {
  }

  lemma FreeIs(c: Cluster, h: History, m: Message)
    requires m.VoteRequest? && forall u :: Recorded(h, m.dest, m.vote.term, u) <==> Voted(c, m.dest, m.vote.term, u)
    ensures Free(c, m) <==> FreeBy(h, m.dest, m.vote.term, m.from)
  {
    var k := (m.dest, m.vote.term);
    if k in h.votes { assert Recorded(h, m.dest, m.vote.term, h.votes[k]); }
  }

  /**
   After any run a vote request reaches a peer. The peer grants it if and only if the request's term is not earlier than
   the peer's, the candidate's last entry is at least as recent as the peer's, and the peer has given its vote of that
   term to nobody else. Either way it answers with the later of the two terms and is in that term afterwards.
   */
  lemma VoteExactly(peers: seq<NodeId>, steps: seq<Step>, m: Message)
    requires NoRepeats(peers) && m in Run(peers, steps).net && m.VoteRequest?
    ensures var c, c' := Run(peers, steps), Exec(Run(peers, steps), Deliver(m));
            && m.dest in c.nodes && m.dest in c'.nodes && c'.nodes == c.nodes[m.dest := c'.nodes[m.dest]]
            && |c.nodes[m.dest].log| > 0
            && exists reply ::
                 && SentInReply(c, m, VoteResponse(m.dest, m.from, m.vote, reply))
                 && AnswersVote(c.nodes[m.dest], m.vote, Free(c, m), c'.nodes[m.dest], reply)
  {
    var c, h := Run(peers, steps), RunHistory(peers, steps);
    RunInv(peers, steps);
    PeersKept(peers, steps);
    TwoPeers(c, h, m);
    forall u ensures Recorded(h, m.dest, m.vote.term, u) <==> Voted(c, m.dest, m.vote.term, u) {
      VotesShown(peers, steps, m.dest, m.vote.term, u);
    }
    FreeIs(c, h, m);
    VoteIs(c, h, m);
  }

  lemma VoteIs(c: Cluster, h: History, m: Message)
    requires Inv(c, h) && m in c.net && m.VoteRequest? && (Free(c, m) <==> FreeBy(h, m.dest, m.vote.term, m.from))
    ensures m.dest in c.nodes && |c.nodes[m.dest].log| > 0
    ensures var c', r := Exec(c, Deliver(m)), HandleVote(c.nodes[m.dest], m.vote);
            && c'.nodes == c.nodes[m.dest := r.0] && SentInReply(c, m, VoteResponse(m.dest, m.from, m.vote, r.1))
            && AnswersVote(c.nodes[m.dest], m.vote, Free(c, m), r.0, r.1)
  {
    assert MessageOK(c, h, m);
    assert NodeOK(c, h, m.dest);
    HandleVoteIs(h, m.dest, c.nodes[m.dest], m.vote);
  }

  lemma TwoPeers(c: Cluster, h: History, m: Message)
    requires Inv(c, h) && m in c.net
    ensures |c.peers| >= 2
  {
    assert MessageOK(c, h, m);
    Subset({m.from, m.dest}, c.nodes.Keys);
  }

  // ----- standing and being elected -----

  /** The peer `a` of `c` stands: it is a candidate of the next term and has asked every other peer, naming the last
      entry of its log. */
  ghost predicate Stands(c: Cluster, c': Cluster, a: NodeId) {
    && a in c.nodes && a in c'.nodes && |c.nodes[a].log| > 0 && c'.nodes == c.nodes[a := c'.nodes[a]]
    && var n, n' := c.nodes[a], c'.nodes[a];
       var request := VoteArgs(n.currentTerm + 1, a, |n.log| - 1, n.log[|n.log| - 1].term);
       && n'.role == Candidate && n'.currentTerm == n.currentTerm + 1 && n'.log == n.log
       && n'.commitIndex == n.commitIndex && n'.lastApplied == n.lastApplied && n'.applied == n.applied
       && c'.net == c.net + (set p | p in c.peers && p != a :: VoteRequest(a, p, request))
  }

  lemma StandIs(c: Cluster, a: NodeId)
    requires a in c.nodes && Indexed(c.nodes[a].log)
    ensures Stands(c, Exec(c, Timeout(a)), a)
  {
    var n, c' := c.nodes[a], Exec(c, Timeout(a));
    var request := VoteArgs(n.currentTerm + 1, a, |n.log| - 1, n.log[|n.log| - 1].term);
    assert VoteRequestOf(React(c, Timeout(a)), a) == request;
    assert Sent(c, Timeout(a)) == set p | p in c.peers && p != a :: VoteRequest(a, p, request);
  }

  /** Standing for election, after any run. */
  lemma StandExactly(peers: seq<NodeId>, steps: seq<Step>, a: NodeId)
    requires NoRepeats(peers) && a in peers
    ensures Stands(Run(peers, steps), Exec(Run(peers, steps), Timeout(a)), a)
  {
    RunInv(peers, steps);
    PeersKept(peers, steps);
    StandInv(Run(peers, steps), RunHistory(peers, steps), a);
  }

  lemma StandInv(c: Cluster, h: History, a: NodeId)
    requires Inv(c, h) && a in c.peers
    ensures Stands(c, Exec(c, Timeout(a)), a)
  {
    assert a in Elements(c.peers);
    assert NodeOK(c, h, a);
    StandIs(c, a);
  }

  /**
   What an answer to a vote request does to the peer that asked. A later term makes it a follower of that term. An
   answer to an election that is over changes nothing. Otherwise the vote is counted if it is granted, and a majority
   makes a leader.
   */
  ghost predicate TakesVote(n: Node, n': Node, me: NodeId, peers: seq<NodeId>, from: NodeId, term: nat,
                            reply: VoteReply) {
    && n'.commitIndex == n.commitIndex && n'.lastApplied == n.lastApplied && n'.applied == n.applied
    && if reply.term > n.currentTerm then
         n'.role == Follower && n'.currentTerm == reply.term && n'.log == n.log && n'.votedFor == NOBODY
       else if n.role != Candidate || n.currentTerm != term then n' == n
       else
         && n'.currentTerm == n.currentTerm && n'.votedFor == n.votedFor && from !in n'.awaiting
         && n'.votes == n.votes + (if reply.granted then 1 else 0)
         && if reply.granted && n'.votes >= |peers| / 2 + 1 then n'.role == Leader && NewLeader(n, n', me, peers)
            else n'.role == Candidate && n'.log == n.log
  }

  lemma TakesVoteIs(n: Node, me: NodeId, peers: seq<NodeId>, from: NodeId, term: nat, reply: VoteReply)
    requires Indexed(n.log) && me in peers
    ensures TakesVote(n, HandleVoteReply(n, me, peers, from, term, reply), me, peers, from, term, reply)
  {
  }

  lemma VoteReplyExactly(peers: seq<NodeId>, steps: seq<Step>, m: Message)
    requires NoRepeats(peers) && m in Run(peers, steps).net && m.VoteResponse? && Enabled(Run(peers, steps), Deliver(m))
    ensures var c, c' := Run(peers, steps), Exec(Run(peers, steps), Deliver(m));
            && m.dest in c'.nodes && c'.nodes == c.nodes[m.dest := c'.nodes[m.dest]] && c'.net == c.net
            && TakesVote(c.nodes[m.dest], c'.nodes[m.dest], m.dest, peers, m.from, m.vote.term, m.voteReply)
  {
    var c, h := Run(peers, steps), RunHistory(peers, steps);
    RunInv(peers, steps);
    PeersKept(peers, steps);
    assert m.dest in Elements(peers);
    assert NodeOK(c, h, m.dest);
    TakesVoteIs(c.nodes[m.dest], m.dest, peers, m.from, m.vote.term, m.voteReply);
    InvInBounds(c, h, Deliver(m));
  }

  /** A new leader has one more entry, a no-op of its term, expects every follower to need that entry next, and knows of
      nothing the others hold. */
  ghost predicate NewLeader(n: Node, n': Node, me: NodeId, peers: seq<NodeId>) {
    && n'.log == n.log + [Entry(n.currentTerm, |n.log|, Nil)]
    && (forall p :: p in peers ==> At(n'.nextIndex, p) == |n.log|)
    && (forall p :: p in peers && p != me ==> At(n'.matchIndex, p) == 0) && At(n'.matchIndex, me) == |n.log|
  }
}
