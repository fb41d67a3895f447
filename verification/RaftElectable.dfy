/**
 Leaders can be elected: from every reachable state of a group of two or more peers, any peer whose log is as recent as
 the others' can become leader.
 */
module RaftElectable {
  import opened Sequences
  import opened RaftNode
  import opened RaftCluster
  import opened RaftInvariant
  import opened RaftSafety
  import opened RaftProgress
  import opened RaftTheorems

  // ----- who can win -----

  /** The up-to-date check of section 5.4.1, between logs. */
  ghost predicate AsRecent(x: seq<Entry>, y: seq<Entry>)
    requires |x| > 0 && |y| > 0
  {
    Last(x).term > Last(y).term || (Last(x).term == Last(y).term && Last(x).index >= Last(y).index)
  }

  ghost predicate HasLogs(c: Cluster) {
    forall p :: p in c.nodes ==> |c.nodes[p].log| > 0
  }

  ghost predicate MostRecent(c: Cluster, a: NodeId) {
    a in c.nodes && HasLogs(c) && forall p :: p in c.nodes ==> AsRecent(c.nodes[a].log, c.nodes[p].log)
  }

  lemma {:induction false} Freshest(c: Cluster, among: seq<NodeId>) returns (a: NodeId)
    requires HasLogs(c) && among != [] && forall p :: p in among ==> p in c.nodes
    ensures a in among && forall p :: p in among ==> AsRecent(c.nodes[a].log, c.nodes[p].log)
  {
    var front, last := among[..|among| - 1], among[|among| - 1];
    if front == [] {
      a := last;
    } else {
      var b := Freshest(c, front);
      a := if AsRecent(c.nodes[b].log, c.nodes[last].log) then b else last;
    }
  }

  lemma {:induction false} HighestTerm(c: Cluster, among: seq<NodeId>) returns (t: nat)
    requires forall p :: p in among ==> p in c.nodes
    ensures forall p :: p in among ==> c.nodes[p].currentTerm <= t
  {
    if among == [] {
      t := 0;
    } else {
      var front, last := among[..|among| - 1], among[|among| - 1];
      var u := HighestTerm(c, front);
      t := if c.nodes[last].currentTerm <= u then u else c.nodes[last].currentTerm;
    }
  }

  // ----- gathering votes -----

  /** No peer is in a term later than `t`. */
  ghost predicate NotAhead(c: Cluster, t: nat) {
    forall p :: p in c.nodes ==> c.nodes[p].currentTerm <= t
  }

  /** Peer `a` stands in term `t` with `votes` votes, and the peers of `todo` can still give it theirs. */
  ghost predicate Standing(c: Cluster, a: NodeId, t: nat, todo: seq<NodeId>, votes: nat) {
    && a in c.nodes && HasLogs(c)
    && c.nodes[a].role == Candidate && c.nodes[a].currentTerm == t && c.nodes[a].votes == votes
    && forall p :: p in todo ==> Waiting(c, a, p)
  }

  /** The candidate's request is on its way to a peer of an earlier term with a log no more recent. */
  ghost predicate Waiting(c: Cluster, a: NodeId, p: NodeId)
    requires a in c.nodes && HasLogs(c)
  {
    && p in c.nodes && p != a && p in c.nodes[a].awaiting && c.nodes[p].currentTerm < c.nodes[a].currentTerm
    && AsRecent(c.nodes[a].log, c.nodes[p].log) && VoteRequest(a, p, VoteRequestOf(c.nodes[a], a)) in c.net
  }

  lemma Campaign(c: Cluster, a: NodeId, todo: seq<NodeId>)
    requires MostRecent(c, a) && NotAhead(c, c.nodes[a].currentTerm)
    requires forall p :: p in todo ==> p in c.peers && p in c.nodes && p != a
    ensures var c' := Exec(c, Timeout(a));
            && Standing(c', a, c.nodes[a].currentTerm + 1, todo, 1)
            && c'.peers == c.peers && c'.nodes == c.nodes[a := c'.nodes[a]] && c'.nodes[a].log == c.nodes[a].log
  {
    var c' := Exec(c, Timeout(a));
    forall p | p in todo ensures Waiting(c', a, p) {
    }
  }

  /** A peer of an earlier term grants its vote. */
  lemma Granted(c: Cluster, a: NodeId, p: NodeId)
    requires a in c.nodes && HasLogs(c) && Waiting(c, a, p)
    ensures var args := VoteRequestOf(c.nodes[a], a);
            var c' := Exec(c, Deliver(VoteRequest(a, p, args)));
            && c'.peers == c.peers && p in c'.nodes && c'.nodes == c.nodes[p := c'.nodes[p]]
            && c'.nodes[p].currentTerm == args.term && c'.nodes[p].log == c.nodes[p].log
            && c.net <= c'.net && VoteResponse(p, a, args, VoteReply(args.term, true)) in c'.net
  {
  }

  /** The vote is counted, and decides the election if it makes a majority. */
  lemma Counted(c: Cluster, a: NodeId, p: NodeId, args: VoteArgs)
    requires a in c.nodes && VoteResponse(p, a, args, VoteReply(args.term, true)) in c.net
    requires var n := c.nodes[a];
             n.role == Candidate && n.currentTerm == args.term && |n.log| > 0 && p in n.awaiting
    ensures var c', n := Exec(c, Deliver(VoteResponse(p, a, args, VoteReply(args.term, true)))), c.nodes[a];
            && c'.peers == c.peers && c.net <= c'.net && a in c'.nodes && c'.nodes == c.nodes[a := c'.nodes[a]]
            && if n.votes + 1 >= Majority(c.peers) then
                 && c'.nodes[a].role == Leader && c'.nodes[a].currentTerm == n.currentTerm
                 && c'.nodes[a].log == n.log + [Entry(n.currentTerm, Last(n.log).index + 1, Nil)]
               else c'.nodes[a] == n.(votes := n.votes + 1, awaiting := n.awaiting - {p})
  {
  }

  /** Peer `a` leads and no peer is in a later term. */
  ghost predicate Established(c: Cluster, a: NodeId) {
    a in c.nodes && c.nodes[a].role == Leader && NotAhead(c, c.nodes[a].currentTerm)
  }

  /** The candidate of `c` leads in `c'`, and nobody has passed its term. */
  ghost predicate Won(c: Cluster, c': Cluster, a: NodeId) {
    && a in c.nodes && c'.peers == c.peers && c'.nodes.Keys == c.nodes.Keys && Established(c', a)
    && c.nodes[a].log <= c'.nodes[a].log
  }

  /** A request and its answer. */
  lemma OneVote(c: Cluster, a: NodeId, t: nat, todo: seq<NodeId>, votes: nat) returns (s: seq<Step>, c': Cluster)
    requires Standing(c, a, t, todo, votes) && NotAhead(c, t) && todo != [] && NoRepeats(todo)
    ensures |s| == 2 && c' == Exec(Exec(c, s[0]), s[1]) && NotAhead(c', t)
    ensures c'.peers == c.peers && c'.nodes.Keys == c.nodes.Keys
    ensures if votes + 1 >= Majority(c.peers) then Won(c, c', a)
            else Standing(c', a, t, todo[1..], votes + 1) && c'.nodes[a].log == c.nodes[a].log
  {
    var p, args := todo[0], VoteRequestOf(c.nodes[a], a);
    assert p in todo && Waiting(c, a, p);
    s := [Deliver(VoteRequest(a, p, args)), Deliver(VoteResponse(p, a, args, VoteReply(t, true)))];
    var c1 := Exec(c, s[0]);
    c' := Exec(c1, s[1]);
    Granted(c, a, p);
    Counted(c1, a, p, args);
    if votes + 1 < Majority(c.peers) {
      forall q | q in todo[1..] ensures Waiting(c', a, q) { StillWaiting(c, a, todo, q); }
    }
  }

  lemma StillWaiting(c: Cluster, a: NodeId, todo: seq<NodeId>, q: NodeId)
    requires a in c.nodes && HasLogs(c) && todo != [] && NoRepeats(todo) && q in todo[1..]
    requires forall p :: p in todo ==> Waiting(c, a, p)
    ensures q != todo[0] && Waiting(c, a, q)
  {
    assert q in todo;
  }

  /** Asking the peers of `todo` one by one makes the candidate leader, if they are enough. */
  lemma {:induction false} Gather(c: Cluster, a: NodeId, t: nat, todo: seq<NodeId>, votes: nat)
    returns (steps: seq<Step>)
    requires Standing(c, a, t, todo, votes) && NotAhead(c, t) && NoRepeats(todo)
    requires votes < Majority(c.peers) <= votes + |todo|
    ensures Won(c, ExecAll(c, steps), a)
    decreases |todo|
  {
    var s, c' := OneVote(c, a, t, todo, votes);
    if votes + 1 >= Majority(c.peers) {
      steps := s + [];
      TwoSteps(c, s, []);
      assert ExecAll(c', []) == c';
    } else {
      var more := Gather(c', a, t, todo[1..], votes + 1);
      steps := s + more;
      TwoSteps(c, s, more);
    }
  }

  lemma TwoSteps(c: Cluster, s: seq<Step>, more: seq<Step>)
    requires |s| == 2
    ensures ExecAll(c, s + more) == ExecAll(Exec(Exec(c, s[0]), s[1]), more)
  {
    var all := s + more;
    assert all[1..] == [s[1]] + more && all[1..][1..] == more;
  }

  /** The other peers. */
  function Others(peers: seq<NodeId>, a: NodeId): seq<NodeId> {
    if peers == [] then []
    else
      var rest, p := Others(peers[..|peers| - 1], a), peers[|peers| - 1];
      if p == a then rest else rest + [p]
  }

  lemma {:induction false} OthersAre(peers: seq<NodeId>, a: NodeId)
    requires NoRepeats(peers)
    ensures NoRepeats(Others(peers, a)) && forall p :: p in Others(peers, a) <==> p in peers && p != a
    ensures |Others(peers, a)| == |peers| - if a in peers then 1 else 0
  {
    if peers == [] {
    } else {
      var front, p := peers[..|peers| - 1], peers[|peers| - 1];
      OthersAre(front, a);
      assert peers == front + [p] && p !in front;
      assert p !in Others(front, a);
    }
  }

  // ----- from any state -----

  /** Elections that fail raise the candidate's term to `t`. */
  lemma {:induction false} RaiseTerm(c: Cluster, a: NodeId, t: nat) returns (steps: seq<Step>)
    requires a in c.nodes && |c.nodes[a].log| > 0 && c.nodes[a].currentTerm <= t
    ensures var c' := ExecAll(c, steps);
            && c'.peers == c.peers && a in c'.nodes && c'.nodes == c.nodes[a := c'.nodes[a]]
            && c'.nodes[a].log == c.nodes[a].log && c'.nodes[a].currentTerm == t
    decreases t - c.nodes[a].currentTerm
  {
    if c.nodes[a].currentTerm == t {
      steps := [];
    } else {
      var more := RaiseTerm(Exec(c, Timeout(a)), a, t);
      steps := [Timeout(a)] + more;
      assert steps[1..] == more;
    }
  }

  /** The candidate stands in a term later than every peer's. */
  lemma Stand(c: Cluster, a: NodeId, t: nat, todo: seq<NodeId>) returns (steps: seq<Step>, c': Cluster)
    requires MostRecent(c, a) && NotAhead(c, t) && forall p :: p in todo ==> p in c.peers && p in c.nodes && p != a
    ensures c' == ExecAll(c, steps) && c'.peers == c.peers && c'.nodes.Keys == c.nodes.Keys
    ensures Standing(c', a, t + 1, todo, 1) && NotAhead(c', t + 1) && c'.nodes[a].log == c.nodes[a].log
  {
    var raise := RaiseTerm(c, a, t);
    var c1 := ExecAll(c, raise);
    Campaign(c1, a, todo);
    steps := raise + [Timeout(a)];
    c' := Exec(c1, Timeout(a));
    ExecAllAppend(c, raise, [Timeout(a)]);
    OneStep(c1, Timeout(a));
  }

  lemma OneStep(c: Cluster, step: Step)
    ensures ExecAll(c, [step]) == Exec(c, step)
  {
    assert [step][1..] == [];
    assert ExecAll(Exec(c, step), []) == Exec(c, step);
  }

  lemma Elect(c: Cluster, a: NodeId) returns (steps: seq<Step>)
    requires MostRecent(c, a) && |c.peers| >= 2 && NoRepeats(c.peers) && c.nodes.Keys == Elements(c.peers)
    ensures Won(c, ExecAll(c, steps), a)
  {
    assert forall p :: p in c.nodes <==> p in Elements(c.peers);
    var t := HighestTerm(c, c.peers);
    var todo := Others(c.peers, a);
    OthersAre(c.peers, a);
    var stand, c1 := Stand(c, a, t, todo);
    var gather := Gather(c1, a, t + 1, todo, 1);
    steps := stand + gather;
    ExecAllAppend(c, stand, gather);
  }

  /** A leader that some peer has passed finds out from that peer's answer. */
  lemma FindOut(c: Cluster, h: History, a: NodeId, p: NodeId) returns (steps: seq<Step>)
    requires Inv(c, h) && a in c.nodes && p in c.nodes && c.nodes[a].role == Leader
    requires c.nodes[p].currentTerm > c.nodes[a].currentTerm
    ensures var c' := ExecAll(c, steps);
            c'.peers == c.peers && c'.nodes == c.nodes[a := BecomeFollower(c.nodes[a], c.nodes[p].currentTerm)]
  {
    assert NodeOK(c, h, a) && NodeOK(c, h, p) && PeerOK(h, c.nodes[a], p);
    var args := BuildAppend(c.nodes[a], a, p);
    var reply := HandleAppend(c.nodes[p], args).1;
    steps := [SendAppend(a, p), Deliver(AppendRequest(a, p, args)), Deliver(AppendResponse(p, a, args, reply))];
    var c1 := Exec(c, steps[0]);
    var c2 := Exec(c1, steps[1]);
    PassedAnswer(c, c1, a, p, args);
    assert c2.nodes == c.nodes;
    ThreeSteps(c, steps);
  }

  lemma PassedAnswer(c: Cluster, c1: Cluster, a: NodeId, p: NodeId, args: AppendArgs)
    requires a in c.nodes && p in c.nodes && a != p && p in c.peers && c.nodes[a].role == Leader
    requires |c.nodes[a].log| > 0 && |c.nodes[p].log| > 0 && At(c.nodes[a].nextIndex, p) <= |c.nodes[a].log|
    requires args == BuildAppend(c.nodes[a], a, p) && c1 == Exec(c, SendAppend(a, p))
    requires c.nodes[p].currentTerm > c.nodes[a].currentTerm
    ensures var c2, reply := Exec(c1, Deliver(AppendRequest(a, p, args))), HandleAppend(c.nodes[p], args).1;
            && c2.peers == c.peers && c2.nodes == c.nodes && AppendResponse(p, a, args, reply) in c2.net
            && reply.term == c.nodes[p].currentTerm
  {
    assert c1.nodes == c.nodes && AppendRequest(a, p, args) in c1.net;
    assert HandleAppend(c.nodes[p], args).0 == c.nodes[p];
  }

  /** The peer leads already with nobody ahead, or finds out that it does not lead, or stands: in the end it leads. */
  lemma Install(c: Cluster, h: History, a: NodeId) returns (steps: seq<Step>)
    requires Inv(c, h) && MostRecent(c, a) && |c.peers| >= 2
    ensures Won(c, ExecAll(c, steps), a)
  {
    if Established(c, a) {
      steps := [];
    } else if c.nodes[a].role == Leader {
      var p :| p in c.nodes && c.nodes[p].currentTerm > c.nodes[a].currentTerm;
      var learn := FindOut(c, h, a, p);
      var c1 := ExecAll(c, learn);
      var more := Elect(c1, a);
      steps := learn + more;
      ExecAllAppend(c, learn, more);
    } else {
      steps := Elect(c, a);
    }
  }

  /** After any run of two or more peers, a peer whose log is as recent as every other's can be made leader by further
      steps, with nobody in a later term. */
  lemma Electable(peers: seq<NodeId>, steps: seq<Step>, a: NodeId) returns (more: seq<Step>)
    requires NoRepeats(peers) && |peers| >= 2 && MostRecent(Run(peers, steps), a)
    ensures var c, c' := Run(peers, steps), Run(peers, steps + more);
            Established(c', a) && c.nodes[a].log <= c'.nodes[a].log
  {
    RunInv(peers, steps);
    PeersKept(peers, steps);
    more := Install(Run(peers, steps), RunHistory(peers, steps), a);
    RunOn(peers, steps, more);
  }

  /** So every run of two or more peers can go on to one with a leader. */
  lemma AlwaysElectable(peers: seq<NodeId>, steps: seq<Step>) returns (a: NodeId, more: seq<Step>)
    requires NoRepeats(peers) && |peers| >= 2
    ensures a in peers && Established(Run(peers, steps + more), a)
  {
    a := SomeMostRecent(peers, steps);
    more := Electable(peers, steps, a);
  }

  lemma SomeMostRecent(peers: seq<NodeId>, steps: seq<Step>) returns (a: NodeId)
    requires NoRepeats(peers) && peers != []
    ensures a in peers && MostRecent(Run(peers, steps), a)
  {
    var c, h := Run(peers, steps), RunHistory(peers, steps);
    RunInv(peers, steps);
    PeersKept(peers, steps);
    forall p | p in c.nodes ensures |c.nodes[p].log| > 0 { assert NodeOK(c, h, p); }
    assert forall p :: p in c.nodes <==> p in Elements(peers);
    a := Freshest(c, peers);
  }

  ghost predicate Leads(peers: seq<NodeId>, steps: seq<Step>, a: NodeId) {
    a in Run(peers, steps).nodes && Run(peers, steps).nodes[a].role == Leader
  }

  /** A peer of a group can ever become leader exactly when the group has another peer. */
  lemma ElectableExactly(peers: seq<NodeId>, a: NodeId)
    requires NoRepeats(peers) && a in peers
    ensures (exists steps :: Leads(peers, steps, a)) <==> |peers| >= 2
  {
    if |peers| >= 2 {
      var steps := Electable(peers, [], a);
      assert [] + steps == steps && Leads(peers, steps, a);
    } else {
      assert peers == [a];
      forall steps ensures !Leads(peers, steps, a) {
        LonePeerNeverLeads(a, steps);
      }
    }
  }
}
