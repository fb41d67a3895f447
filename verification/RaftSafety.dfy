/**
 The invariant holds in every reachable state, and the history it speaks of only grows. Also: no
 section of the code ever indexes a log out of range.
 */
module RaftSafety {
  import opened Sequences
  import opened RaftNode
  import opened RaftCluster
  import opened RaftInvariant
  import opened RaftFrame
  import opened RaftAssemble
  import opened RaftElection
  import opened RaftReplication
  import opened RaftAppend

  // ----- the invariant holds throughout every run -----

  ghost function RunHistory(peers: seq<NodeId>, steps: seq<Step>): History {
    if steps == [] then EMPTY
    else
      var c, h := Run(peers, steps[..|steps| - 1]), RunHistory(peers, steps[..|steps| - 1]);
      var step := steps[|steps| - 1];
      if Enabled(c, step) && InBounds(c, step) then Record(c, h, step) else h
  }

  lemma StepInv(c: Cluster, h: History, step: Step)
    requires Inv(c, h) && Enabled(c, step) && InBounds(c, step)
    ensures Inv(Exec(c, step), Record(c, h, step))
  {
    match step
    case Timeout(_) => TimeoutStep(c, h, step);
    case Deliver(VoteRequest(_, _, _)) => VoteRequestStep(c, h, step);
    case Deliver(VoteResponse(_, _, _, _)) => VoteResponseStep(c, h, step);
    case Deliver(AppendRequest(_, _, _)) => AppendRequestStep(c, h, step);
    case Deliver(AppendResponse(_, _, _, _)) => AppendResponseStep(c, h, step);
    case SendAppend(_, _) => SendAppendStep(c, h, step);
    case Propose(_, _) => ProposeStep(c, h, step);
    case Apply(_) => ApplyStep(c, h, step);
  }

  lemma {:induction false} RunInv(peers: seq<NodeId>, steps: seq<Step>)
    requires NoRepeats(peers)
    ensures Inv(Run(peers, steps), RunHistory(peers, steps))
  {
    if steps == [] {
      StartInv(peers);
    } else {
      var before, step := steps[..|steps| - 1], steps[|steps| - 1];
      RunInv(peers, before);
      var c, h := Run(peers, before), RunHistory(peers, before);
      if Enabled(c, step) && InBounds(c, step) { StepInv(c, h, step); }
    }
  }

  /** No section of the code ever indexes a log out of range. */
  lemma NoPanic(peers: seq<NodeId>, steps: seq<Step>, step: Step)
    requires NoRepeats(peers) && Enabled(Run(peers, steps), step)
    ensures InBounds(Run(peers, steps), step)
  {
    RunInv(peers, steps);
    InvInBounds(Run(peers, steps), RunHistory(peers, steps), step);
  }

  lemma InvInBounds(c: Cluster, h: History, step: Step)
    requires Inv(c, h) && Enabled(c, step)
    ensures InBounds(c, step)
  {
    var n := c.nodes[Actor(step)];
    assert NodeOK(c, h, Actor(step));
    match step
    case Deliver(m) =>
      assert MessageOK(c, h, m);
      if m.AppendResponse? && Current(n, m.append, m.appendReply) && !m.appendReply.success {
        BacktrackBounds(c, h, Actor(step), m.append, m.appendReply);
      }
    case SendAppend(_, peer) => assert PeerOK(h, n, peer);
    case _ =>
  }

  // ----- the history only grows -----

  ghost predicate Later(h: History, h': History) {
    (forall t {:trigger LogGrows(h, h', t)} :: LogGrows(h, h', t)) && h.commits <= h'.commits
  }

  /** A peer that wins an election leads a term nobody led before. */
  lemma NewlyLed(c: Cluster, h: History, step: Step)
    requires Inv(c, h) && Enabled(c, step) && InBounds(c, step)
    requires step.Deliver? && step.msg.VoteResponse? && Record(c, h, step) != h
    ensures c.nodes[Actor(step)].currentTerm !in h.termLog
  {
    var a := Actor(step);
    var n := c.nodes[a];
    assert NodeOK(c, h, a);
    assert MessageOK(c, h, step.msg);
    var counted := Counted(n, a, c.peers, step.msg.from, step.msg.vote.term, step.msg.voteReply);
    CountVote(c, h, a, step.msg.from, counted);
    Subset(Backers(c, h, a, n.currentTerm) - counted.awaiting, Backers(c, h, a, n.currentTerm));
    TermUnled(c, h, a, n.currentTerm);
  }

  lemma StepLater(c: Cluster, h: History, step: Step)
    requires Inv(c, h) && Enabled(c, step) && InBounds(c, step)
    ensures Later(h, Record(c, h, step))
  {
    SentinelsFirst(c, h);
    assert NodeOK(c, h, Actor(step));
    if step.Deliver? && step.msg.VoteResponse? && Record(c, h, step) != h { NewlyLed(c, h, step); }
    LaterRecord(c, h, step);
  }

  lemma LaterRecord(c: Cluster, h: History, step: Step)
    requires Enabled(c, step) && InBounds(c, step) && SentinelFirst(h)
    requires var n := c.nodes[Actor(step)];
             && (n.role == Leader ==> LeaderOK(c, h, Actor(step), n))
             && (step.Deliver? && step.msg.VoteResponse? && Record(c, h, step) != h ==> n.currentTerm !in h.termLog)
    ensures Later(h, Record(c, h, step))
  {
    forall t
      ensures LogGrows(h, Record(c, h, step), t)
    {
      assert SentinelAt(h, t);
    }
  }

  lemma LaterTransitive(h: History, h': History, h'': History)
    requires Later(h, h') && Later(h', h'')
    ensures Later(h, h'')
  {
    forall t
      ensures LogGrows(h, h'', t)
    {
      assert LogGrows(h, h', t) && LogGrows(h', h'', t);
    }
  }

  lemma {:induction false} RunLater(peers: seq<NodeId>, steps: seq<Step>, i: nat, j: nat)
    requires NoRepeats(peers) && i <= j <= |steps|
    ensures Later(RunHistory(peers, steps[..i]), RunHistory(peers, steps[..j]))
    decreases j
  {
    if i == j {
      RunInv(peers, steps[..i]);
      var h := RunHistory(peers, steps[..i]);
      SentinelsFirst(Run(peers, steps[..i]), h);
      forall t
        ensures LogGrows(h, h, t)
      {
        assert SentinelAt(h, t);
      }
    } else {
      RunLater(peers, steps, i, j - 1);
      var before, step := steps[..j - 1], steps[j - 1];
      assert steps[..j][..j - 1] == before;
      RunInv(peers, before);
      var c, h := Run(peers, before), RunHistory(peers, before);
      if Enabled(c, step) && InBounds(c, step) {
        StepLater(c, h, step);
        LaterTransitive(RunHistory(peers, steps[..i]), h, RunHistory(peers, steps[..j]));
      }
    }
  }

  lemma AcksRecord(c: Cluster, h: History, step: Step, v: NodeId, t: nat)
    requires Enabled(c, step) && InBounds(c, step)
    requires var a, n := Actor(step), c.nodes[Actor(step)];
             && (n.role == Leader ==> Acked(h, a, n.currentTerm) == |n.log| - 1)
             && (step.Deliver? && step.msg.VoteResponse? && Record(c, h, step) != h ==> Acked(h, a, n.currentTerm) == 0)
    ensures Acked(h, v, t) <= Acked(Record(c, h, step), v, t)
  {
  }

  lemma StepAcks(c: Cluster, h: History, step: Step, v: NodeId, t: nat)
    requires Inv(c, h) && Enabled(c, step) && InBounds(c, step)
    ensures Acked(h, v, t) <= Acked(Record(c, h, step), v, t)
  {
    var a := Actor(step);
    assert NodeOK(c, h, a);
    if step.Deliver? && step.msg.VoteResponse? && Record(c, h, step) != h {
      NewlyLed(c, h, step);
      assert AckAt(h, a, c.nodes[a], c.nodes[a].currentTerm);
    }
    AcksRecord(c, h, step, v, t);
  }

  /** What a peer has acknowledged to a leader it never takes back. */
  lemma {:induction false} RunAcks(peers: seq<NodeId>, steps: seq<Step>, i: nat, j: nat, v: NodeId, t: nat)
    requires NoRepeats(peers) && i <= j <= |steps|
    ensures Acked(RunHistory(peers, steps[..i]), v, t) <= Acked(RunHistory(peers, steps[..j]), v, t)
    decreases j
  {
    if i == j {
    } else {
      RunAcks(peers, steps, i, j - 1, v, t);
      var before, step := steps[..j - 1], steps[j - 1];
      assert steps[..j][..j - 1] == before;
      RunInv(peers, before);
      var c, h := Run(peers, before), RunHistory(peers, before);
      if Enabled(c, step) && InBounds(c, step) { StepAcks(c, h, step, v, t); }
    }
  }

  lemma MatchesLater(h: History, h': History, log: seq<Entry>)
    requires Later(h, h') && Matches(h, log)
    ensures Matches(h', log)
  {
    forall i | 1 <= i < |log|
      ensures MatchesAt(h', log, i)
    {
      assert MatchesAt(h, log, i) && LogGrows(h, h', log[i].term);
    }
  }

  lemma CommittedLater(h: History, h': History, log: seq<Entry>, k: nat, t: nat)
    requires Later(h, h') && Committed(h, log, k, t)
    ensures Committed(h', log, k, t)
  {
    if k != 0 {
      var e :| e in h.commits && CoveredBy(h, log, k, t, e);
      assert LogGrows(h, h', e.0);
      assert CoveredBy(h', log, k, t, e);
    }
  }

  // ----- moments of a run -----

  /** Peer `a` after the first `i` steps. */
  ghost function NodeAt(peers: seq<NodeId>, steps: seq<Step>, i: nat, a: NodeId): Node
    requires i <= |steps| && a in peers
  {
    PeersKept(peers, steps[..i]);
    Run(peers, steps[..i]).nodes[a]
  }

  lemma MomentInv(peers: seq<NodeId>, steps: seq<Step>, i: nat, a: NodeId)
    requires NoRepeats(peers) && i <= |steps| && a in peers
    ensures var c, h := Run(peers, steps[..i]), RunHistory(peers, steps[..i]);
            Inv(c, h) && a in c.nodes && c.nodes[a] == NodeAt(peers, steps, i, a) && NodeOK(c, h, a)
  {
    PeersKept(peers, steps[..i]);
    RunInv(peers, steps[..i]);
    assert NodeOK(Run(peers, steps[..i]), RunHistory(peers, steps[..i]), a);
  }
}
