/**
 No reachable state is stuck: from every one a command can still be committed and applied by every peer, and then all of
 them have the same log and have applied all of it.
 */
module RaftConverge {
  import opened Sequences
  import opened RaftNode
  import opened RaftCluster
  import opened RaftInvariant
  import opened RaftSafety
  import opened RaftProgress
  import opened RaftElectable

  lemma {:induction false} ExecAllInv(c: Cluster, h: History, steps: seq<Step>) returns (h': History)
    requires Inv(c, h)
    ensures Inv(ExecAll(c, steps), h')
    decreases |steps|
  {
    if steps == [] {
      h' := h;
    } else if Enabled(c, steps[0]) {
      var c1, h1 := Execute(c, h, steps[0]);
      h' := ExecAllInv(c1, h1, steps[1..]);
    } else {
      h' := ExecAllInv(c, h, steps[1..]);
    }
  }

  // ----- every follower catches up -----

  /** Peer `p` is in the leader's term with the leader's log, and the leader knows. */
  ghost predicate Level(c: Cluster, a: NodeId, p: NodeId)
    requires a in c.nodes
  {
    p in c.nodes && c.nodes[p].currentTerm == c.nodes[a].currentTerm && CaughtUp(c.nodes[a], c.nodes[p], p)
  }

  /** The leader is the same, with the same log, and the peers that were level are. */
  ghost predicate Onward(c: Cluster, c': Cluster, a: NodeId) {
    && a in c.nodes && a in c'.nodes && c'.peers == c.peers && c'.nodes.Keys == c.nodes.Keys
    && c'.nodes[a].role == Leader && c'.nodes[a].log == c.nodes[a].log
    && c'.nodes[a].currentTerm == c.nodes[a].currentTerm
    && (forall p :: p in c.nodes && p != a && Level(c, a, p) ==> Level(c', a, p))
  }

  lemma CatchUpOne(c: Cluster, h: History, a: NodeId, p: NodeId) returns (more: seq<Step>)
    requires Inv(c, h) && Established(c, a) && p in c.peers && p != a
    ensures var c' := ExecAll(c, more); Established(c', a) && Onward(c, c', a) && Level(c', a, p)
  {
    assert p in Elements(c.peers);
    more := ProbeUntilCaughtUp(c, h, a, p);
  }

  lemma {:induction false} CatchUpAll(c: Cluster, h: History, a: NodeId, todo: seq<NodeId>) returns (more: seq<Step>)
    requires Inv(c, h) && Established(c, a) && forall p :: p in todo ==> p in c.peers && p != a
    ensures var c' := ExecAll(c, more);
            Established(c', a) && Onward(c, c', a) && forall p :: p in todo ==> Level(c', a, p)
    decreases |todo|
  {
    if todo == [] {
      more := [];
    } else {
      var one := CatchUpOne(c, h, a, todo[0]);
      var h1 := ExecAllInv(c, h, one);
      var rest := CatchUpAll(ExecAll(c, one), h1, a, todo[1..]);
      more := one + rest;
      ExecAllAppend(c, one, rest);
      forall p | p in todo ensures Level(ExecAll(c, more), a, p) {
        assert p == todo[0] || p in todo[1..];
      }
    }
  }

  // ----- a heartbeat to a follower that is level -----

  /** A level follower after a heartbeat: it has committed what the leader had when it sent. */
  function Following(f: Node, l: Node): Node {
    f.(role := Follower, commitIndex := if l.commitIndex > f.commitIndex then l.commitIndex else f.commitIndex)
  }

  lemma BeatAnswer(f: Node, l: Node, a: NodeId, p: NodeId)
    requires Indexed(l.log) && f.log == l.log && f.currentTerm == l.currentTerm && 1 <= At(l.nextIndex, p) <= |l.log|
    requires l.commitIndex < |l.log|
    ensures HandleAppend(f, BuildAppend(l, a, p)) ==
            (Following(f, l), AppendReply(l.currentTerm, true, 0, 0))
    ensures var args := BuildAppend(l, a, p); args.prevLogIndex + |args.entries| == |l.log| - 1
  {
    var args := BuildAppend(l, a, p);
    var k := Agreeing(f.log, args.prevLogIndex + 1, args.entries);
    assert k == |args.entries|;
  }

  lemma BeatAct(l: Node, a: NodeId, peers: seq<NodeId>, p: NodeId, args: AppendArgs)
    requires |l.log| > 0 && l.role == Leader && args.term == l.currentTerm && At(l.matchIndex, p) == |l.log| - 1
    requires args.prevLogIndex + |args.entries| == |l.log| - 1
    ensures HandleAppendReply(l, a, peers, p, args, AppendReply(l.currentTerm, true, 0, 0)) ==
            AdvanceCommit(l.(nextIndex := l.nextIndex[p := |l.log|]), a, peers)
  {
  }

  lemma {:induction false} AllCounted(matchIndex: map<NodeId, nat>, a: NodeId, peers: seq<NodeId>, k: nat)
    requires forall p :: p in peers && p != a ==> At(matchIndex, p) >= k
    ensures Replicas(matchIndex, a, peers, k) == |Others(peers, a)|
  {
    if peers == [] {
    } else {
      AllCounted(matchIndex, a, peers[..|peers| - 1], k);
    }
  }

  /** With every follower level the leader commits its whole log. */
  lemma CommitsAll(l: Node, a: NodeId, peers: seq<NodeId>)
    requires NoRepeats(peers) && a in peers && |l.log| > 0 && l.commitIndex < |l.log|
    requires Last(l.log).term == l.currentTerm
    requires forall p :: p in peers && p != a ==> At(l.matchIndex, p) == |l.log| - 1
    ensures AdvanceCommit(l, a, peers) == l.(commitIndex := |l.log| - 1)
  {
    AllCounted(l.matchIndex, a, peers, |l.log| - 1);
    OthersAre(peers, a);
  }

  /** Every follower is level. */
  ghost predicate AllLevel(c: Cluster, a: NodeId) {
    Established(c, a) && forall p :: p in c.peers && p != a ==> Level(c, a, p)
  }

  ghost predicate CommittedAll(c: Cluster, a: NodeId, p: NodeId)
    requires a in c.nodes
  {
    p in c.nodes && c.nodes[p].commitIndex == |c.nodes[a].log| - 1
  }

  lemma LeaderFacts(c: Cluster, h: History, a: NodeId, p: NodeId)
    requires Inv(c, h) && a in c.nodes && p in c.nodes && c.nodes[a].role == Leader
    ensures Indexed(c.nodes[a].log) && 1 <= At(c.nodes[a].nextIndex, p) <= |c.nodes[a].log|
    ensures c.nodes[a].commitIndex < |c.nodes[a].log| && Last(c.nodes[a].log).term == c.nodes[a].currentTerm
    ensures c.nodes[p].commitIndex < |c.nodes[p].log|
  {
    assert NodeOK(c, h, a) && NodeOK(c, h, p) && PeerOK(h, c.nodes[a], p) && TermOK(c, h, c.nodes[a].currentTerm);
  }

  /** The leader after the answer: it has committed everything. */
  function Leading(l: Node, p: NodeId): Node
    requires |l.log| > 0
  {
    l.(nextIndex := l.nextIndex[p := |l.log|], commitIndex := |l.log| - 1)
  }

  lemma BeatNodes(c: Cluster, h: History, a: NodeId, p: NodeId)
    requires Inv(c, h) && AllLevel(c, a) && a in c.peers && p in c.peers && p != a
    ensures MayProbe(c, a, p) && |c.nodes[a].log| > 0 && |c.nodes[p].log| > 0
    ensures At(c.nodes[a].nextIndex, p) <= |c.nodes[a].log|
    ensures var l, f := c.nodes[a], c.nodes[p];
            var args, reply := BuildAppend(l, a, p), AppendReply(l.currentTerm, true, 0, 0);
            && HandleAppend(f, args) == (Following(f, l), reply)
            && HandleAppendReply(l, a, c.peers, p, args, reply) == Leading(l, p)
            && Current(l, args, reply)
  {
    var l, f := c.nodes[a], c.nodes[p];
    assert Level(c, a, p);
    LeaderFacts(c, h, a, p);
    BeatAnswer(f, l, a, p);
    BeatAct(l, a, c.peers, p, BuildAppend(l, a, p));
    forall q | q in c.peers && q != a ensures At(l.matchIndex, q) == |l.log| - 1 { assert Level(c, a, q); }
    CommitsAll(l.(nextIndex := l.nextIndex[p := |l.log|]), a, c.peers);
  }

  lemma Beat(c: Cluster, h: History, a: NodeId, p: NodeId) returns (s: seq<Step>)
    requires Inv(c, h) && AllLevel(c, a) && a in c.peers && p in c.peers && p != a
    ensures |c.nodes[a].log| > 0
    ensures var c' := ExecAll(c, s);
            && c'.peers == c.peers
            && c'.nodes == c.nodes[p := Following(c.nodes[p], c.nodes[a])][a := Leading(c.nodes[a], p)]
  {
    BeatNodes(c, h, a, p);
    var s0, args, c1, h1 := Ask(c, h, a, p);
    var s1, c2, h2 := Answer(c1, h1, a, p, args);
    var s2, c3, h3 := Act(c2, h2, a, p, args, AppendReply(c.nodes[a].currentTerm, true, 0, 0));
    s := [s0, s1, s2];
    ThreeSteps(c, s);
  }

  /** After a heartbeat every follower is still level, and no commit index has fallen. */
  lemma BeatKeeps(c: Cluster, h: History, a: NodeId, p: NodeId) returns (s: seq<Step>)
    requires Inv(c, h) && AllLevel(c, a) && a in c.peers && p in c.peers && p != a
    ensures var c' := ExecAll(c, s);
            && AllLevel(c', a) && c'.peers == c.peers && c'.nodes[a].log == c.nodes[a].log && CommittedAll(c', a, a)
            && (CommittedAll(c, a, a) ==> CommittedAll(c', a, p))
            && (forall q :: q in c.peers && q != p && CommittedAll(c, a, q) ==> CommittedAll(c', a, q))
  {
    s := Beat(c, h, a, p);
    LeaderFacts(c, h, a, p);
    var c' := ExecAll(c, s);
    forall q | q in c'.peers && q != a ensures Level(c', a, q) { assert Level(c, a, q); }
    assert Level(c, a, p);
  }

  lemma {:induction false} BeatAll(c: Cluster, h: History, a: NodeId, todo: seq<NodeId>) returns (more: seq<Step>)
    requires Inv(c, h) && AllLevel(c, a) && a in c.peers && CommittedAll(c, a, a)
    requires NoRepeats(todo) && forall p :: p in todo ==> p in c.peers && p != a
    ensures var c' := ExecAll(c, more);
            && AllLevel(c', a) && c'.peers == c.peers && c'.nodes[a].log == c.nodes[a].log && CommittedAll(c', a, a)
            && (forall p :: p in todo ==> CommittedAll(c', a, p))
            && (forall q :: q in c.peers && q !in todo && CommittedAll(c, a, q) ==> CommittedAll(c', a, q))
    decreases |todo|
  {
    if todo == [] {
      more := [];
    } else {
      var one := BeatKeeps(c, h, a, todo[0]);
      var h1 := ExecAllInv(c, h, one);
      var rest := BeatAll(ExecAll(c, one), h1, a, todo[1..]);
      more := one + rest;
      ExecAllAppend(c, one, rest);
      assert todo[0] !in todo[1..];
    }
  }

  // ----- applying -----

  lemma {:induction false} ApplyAll(c: Cluster, todo: seq<NodeId>) returns (more: seq<Step>)
    requires forall p :: p in todo ==> p in c.nodes && c.nodes[p].commitIndex < |c.nodes[p].log|
    ensures var c' := ExecAll(c, more);
            && c'.peers == c.peers && c'.nodes.Keys == c.nodes.Keys
            && (forall p :: p in c.nodes ==> SameButApplied(c.nodes[p], c'.nodes[p]))
            && (forall p :: p in todo ==> c'.nodes[p].lastApplied >= c'.nodes[p].commitIndex)
    decreases |todo|
  {
    if todo == [] {
      more := [];
    } else {
      var p, c1 := todo[0], Exec(c, Apply(todo[0]));
      assert p in todo && c1.nodes == c.nodes[p := ApplyCommitted(c.nodes[p])];
      var rest := ApplyAll(c1, todo[1..]);
      more := [Apply(p)] + rest;
      assert more[1..] == rest;
    }
  }

  /** Applying touches nothing else, and does not go back. */
  ghost predicate SameButApplied(n: Node, n': Node) {
    n' == n.(lastApplied := n'.lastApplied, applied := n'.applied) && n.lastApplied <= n'.lastApplied
  }

  // ----- a command goes through -----

  /** Peer `a` leads, `command` is the last entry of its log, and every peer has that log and has applied all of it. */
  ghost predicate Converged(c: Cluster, a: NodeId, command: Command) {
    && a in c.nodes && c.nodes[a].role == Leader && |c.nodes[a].log| > 1 && Last(c.nodes[a].log).command == command
    && forall p :: p in c.nodes ==> AppliedAll(c.nodes[p], c.nodes[a].log)
  }

  ghost predicate AppliedAll(n: Node, log: seq<Entry>)
    requires |log| > 0
  {
    n.log == log && n.lastApplied == n.commitIndex == |log| - 1 && n.applied == Messages(log, 1, |log|)
  }

  lemma Take(c: Cluster, h: History, a: NodeId, command: Command) returns (c': Cluster, h': History)
    requires Inv(c, h) && Established(c, a)
    ensures c' == ExecAll(c, [Propose(a, command)]) && Inv(c', h') && Established(c', a) && c'.peers == c.peers
    ensures |c'.nodes[a].log| > 1 && Last(c'.nodes[a].log).command == command
  {
    assert NodeOK(c, h, a);
    Taken(c, a, command);
    c', h' := Execute(c, h, Propose(a, command));
    OneStep(c, Propose(a, command));
  }

  lemma Taken(c: Cluster, a: NodeId, command: Command)
    requires Established(c, a) && |c.nodes[a].log| > 0
    ensures var c' := Exec(c, Propose(a, command));
            && Established(c', a) && c'.peers == c.peers
            && |c'.nodes[a].log| > 1 && Last(c'.nodes[a].log).command == command
  {
  }

  /** Every follower gets the leader's log. */
  lemma LevelAll(c: Cluster, h: History, a: NodeId) returns (more: seq<Step>, c': Cluster, h': History)
    requires Inv(c, h) && Established(c, a)
    ensures c' == ExecAll(c, more) && Inv(c', h') && AllLevel(c', a) && c'.peers == c.peers
    ensures c'.nodes[a].log == c.nodes[a].log
  {
    OthersAre(c.peers, a);
    more := CatchUpAll(c, h, a, Others(c.peers, a));
    c' := ExecAll(c, more);
    h' := ExecAllInv(c, h, more);
  }

  /** Then everybody commits it. */
  lemma CommitAll(c: Cluster, h: History, a: NodeId) returns (more: seq<Step>, c': Cluster, h': History)
    requires Inv(c, h) && AllLevel(c, a) && |c.peers| >= 2
    ensures c' == ExecAll(c, more) && Inv(c', h') && AllLevel(c', a) && c'.peers == c.peers
    ensures c'.nodes[a].log == c.nodes[a].log && forall p :: p in c.peers ==> CommittedAll(c', a, p)
  {
    var todo := Others(c.peers, a);
    OthersAre(c.peers, a);
    assert a in Elements(c.peers);
    var first := BeatKeeps(c, h, a, todo[0]);
    var c1 := ExecAll(c, first);
    var h1 := ExecAllInv(c, h, first);
    var rest := BeatAll(c1, h1, a, todo);
    more := first + rest;
    ExecAllAppend(c, first, rest);
    c' := ExecAll(c, more);
    h' := ExecAllInv(c, h, more);
  }

  lemma FullyApplied(n: Node, n': Node, log: seq<Entry>)
    requires SameButApplied(n, n') && n.log == log && |log| > 0 && n.commitIndex == |log| - 1
    requires n'.lastApplied == n'.commitIndex && n'.applied == Messages(n'.log, 1, n'.lastApplied + 1)
    ensures AppliedAll(n', log)
  {
  }

  lemma PeerApplied(c: Cluster, c': Cluster, h': History, a: NodeId, p: NodeId)
    requires a in c.nodes && p in c.nodes && p in c'.nodes && Inv(c', h') && SameButApplied(c.nodes[p], c'.nodes[p])
    requires CommittedAll(c, a, p) && (p != a ==> Level(c, a, p)) && c'.nodes[p].lastApplied >= c'.nodes[p].commitIndex
    ensures |c.nodes[a].log| > 0 && AppliedAll(c'.nodes[p], c.nodes[a].log)
  {
    assert NodeOK(c', h', p);
    FullyApplied(c.nodes[p], c'.nodes[p], c.nodes[a].log);
  }

  /** And everybody applies it. */
  lemma ApplyEverywhere(c: Cluster, h: History, a: NodeId, command: Command) returns (more: seq<Step>)
    requires Inv(c, h) && AllLevel(c, a) && forall p :: p in c.peers ==> CommittedAll(c, a, p)
    requires |c.nodes[a].log| > 1 && Last(c.nodes[a].log).command == command
    ensures Converged(ExecAll(c, more), a, command)
  {
    forall p | p in c.nodes ensures p in c.peers && c.nodes[p].commitIndex < |c.nodes[p].log| {
      assert p in Elements(c.peers) && NodeOK(c, h, p);
    }
    more := ApplyAll(c, c.peers);
    var c' := ExecAll(c, more);
    var h' := ExecAllInv(c, h, more);
    assert SameButApplied(c.nodes[a], c'.nodes[a]);
    forall p | p in c'.nodes ensures AppliedAll(c'.nodes[p], c'.nodes[a].log) { PeerApplied(c, c', h', a, p); }
  }

  lemma Converge(c: Cluster, h: History, a: NodeId, command: Command) returns (more: seq<Step>)
    requires Inv(c, h) && Established(c, a) && |c.peers| >= 2
    ensures Converged(ExecAll(c, more), a, command)
  {
    var take := [Propose(a, command)];
    var c1, h1 := Take(c, h, a, command);
    var level, c2, h2 := LevelAll(c1, h1, a);
    var commit, c3, h3 := CommitAll(c2, h2, a);
    var apply := ApplyEverywhere(c3, h3, a, command);
    more := take + (level + (commit + apply));
    ExecAllAppend(c, take, level + (commit + apply));
    ExecAllAppend(c1, level, commit + apply);
    ExecAllAppend(c2, commit, apply);
  }

  lemma ConvergeRun(peers: seq<NodeId>, steps: seq<Step>, a: NodeId, command: Command) returns (more: seq<Step>)
    requires NoRepeats(peers) && |peers| >= 2 && Established(Run(peers, steps), a)
    ensures Converged(Run(peers, steps + more), a, command)
  {
    RunInv(peers, steps);
    PeersKept(peers, steps);
    more := Converge(Run(peers, steps), RunHistory(peers, steps), a, command);
    RunOn(peers, steps, more);
  }

  /** Whatever has happened to a group of two or more, it can go on so that a given command is committed and every peer
      has applied the same log, the command at its end. */
  lemma NeverStuck(peers: seq<NodeId>, steps: seq<Step>, command: Command) returns (a: NodeId, more: seq<Step>)
    requires NoRepeats(peers) && |peers| >= 2
    ensures Converged(Run(peers, steps + more), a, command)
  {
    var elect;
    a, elect := AlwaysElectable(peers, steps);
    var go := ConvergeRun(peers, steps + elect, a, command);
    more := elect + go;
    assert steps + more == steps + elect + go;
  }
}
