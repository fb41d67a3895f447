/**
 What a leader knows about its followers is true, rejected probes move strictly backwards, and a
 follower is brought up to date in a bounded number of them.
 */
module RaftProgress {
  import opened Sequences
  import opened RaftNode
  import opened RaftCluster
  import opened RaftInvariant
  import opened RaftReplication
  import opened RaftAppend
  import opened RaftSafety

  /** A leader's view of one follower: nextIndex is in range, and while the follower is in the leader's term its log
      agrees with the leader's through matchIndex. */
  ghost predicate TrueView(l: Node, p: NodeId, f: Node) {
    && 1 <= At(l.nextIndex, p) <= |l.log|
    && At(l.matchIndex, p) < |l.log|
    && (At(l.matchIndex, p) > 0 ==> f.currentTerm >= l.currentTerm)
    && (f.currentTerm == l.currentTerm && At(l.matchIndex, p) > 0 ==>
          At(l.matchIndex, p) < |f.log| && f.log[..At(l.matchIndex, p) + 1] == l.log[..At(l.matchIndex, p) + 1])
  }

  /** matchIndex tells the truth in every reachable state, however replies were lost, delayed or reordered. */
  lemma MatchIndexTruth(peers: seq<NodeId>, steps: seq<Step>, a: NodeId, p: NodeId)
    requires NoRepeats(peers) && a in peers && p in peers
    requires NodeAt(peers, steps, |steps|, a).role == Leader
    ensures TrueView(NodeAt(peers, steps, |steps|, a), p, NodeAt(peers, steps, |steps|, p))
  {
    MomentInv(peers, steps, |steps|, a);
    MomentInv(peers, steps, |steps|, p);
    ViewIsTrue(Run(peers, steps[..|steps|]), RunHistory(peers, steps[..|steps|]), a, p);
  }

  lemma ViewIsTrue(c: Cluster, h: History, a: NodeId, p: NodeId)
    requires a in c.nodes && p in c.nodes && c.nodes[a].role == Leader
    requires LeaderOK(c, h, a, c.nodes[a]) && LogOK(h, c.nodes[a]) && AcksOK(h, p, c.nodes[p])
    ensures TrueView(c.nodes[a], p, c.nodes[p])
  {
    var l := c.nodes[a];
    assert PeerOK(h, l, p) && AckAt(h, p, c.nodes[p], l.currentTerm);
  }

  /** A rejection the leader acts on moves nextIndex into [1, prevLogIndex of the rejected request]. */
  lemma RejectionMovesBack(peers: seq<NodeId>, steps: seq<Step>, m: Message)
    requires NoRepeats(peers) && m in Run(peers, steps).net && m.AppendResponse? && m.dest in Run(peers, steps).nodes
    requires Current(Run(peers, steps).nodes[m.dest], m.append, m.appendReply) && !m.appendReply.success
    ensures 1 <= Backtrack(Run(peers, steps).nodes[m.dest].log, m.appendReply) <= m.append.prevLogIndex
    ensures var c' := Exec(Run(peers, steps), Deliver(m));
            m.dest in c'.nodes && At(c'.nodes[m.dest].nextIndex, m.from) <= m.append.prevLogIndex
  {
    RunInv(peers, steps);
    var c, h := Run(peers, steps), RunHistory(peers, steps);
    assert MessageOK(c, h, m);
    BacktrackBounds(c, h, m.dest, m.append, m.appendReply);
    InvInBounds(c, h, Deliver(m));
  }

  // ----- where a refusal leads -----

  /** Both logs have an entry of the same term at `k`, and so, in reachable logs, the same entries through `k`. */
  ghost predicate Shared(l: seq<Entry>, f: seq<Entry>, k: nat) {
    k < |l| && k < |f| && l[k].term == f[k].term
  }

  ghost function Terms(log: seq<Entry>): set<nat> {
    set i | 0 <= i < |log| :: log[i].term
  }

  /** How many probes can be needed from `next` on: one for each term of the follower's log up to there, one that
      succeeds, and one more if the log is shorter. */
  ghost function Probes(f: seq<Entry>, next: nat): nat {
    if next > |f| then |Terms(f)| + 2 else |Terms(f[..next])| + 1
  }

  lemma FewerTerms(f: seq<Entry>, next: nat, next': nat)
    requires next' <= next <= |f| && next > 0 && forall i :: 0 <= i < next' ==> f[i].term != f[next - 1].term
    ensures Probes(f, next') < Probes(f, next)
  {
    var few, all := Terms(f[..next']), Terms(f[..next]);
    assert f[..next][next - 1].term in all && f[next - 1].term !in few;
    assert few <= all - {f[next - 1].term} by {
      forall t | t in few ensures t in all {
        var i :| 0 <= i < next' && f[..next'][i].term == t;
        assert f[..next][i].term == t;
      }
    }
    Subset(few, all - {f[next - 1].term});
  }

  /** The refusal of a probe at `next - 1`. */
  ghost predicate Refusal(f: seq<Entry>, next: nat, reply: AppendReply) {
    && next > 0
    && if next > |f| then reply.conflictTerm == -1 && reply.conflictIndex == |f|
       else reply.conflictTerm == f[next - 1].term && reply.conflictIndex == RunStart(f, next - 1)
  }

  lemma RunBefore(f: seq<Entry>, i: nat, j: nat)
    requires Shape(f) && i < |f| && j < RunStart(f, i)
    ensures RunStart(f, i) <= i && f[j].term < f[i].term
  {
    RunStartIs(f, i);
    assert Ordered(f, j, RunStart(f, i) - 1) && Ordered(f, RunStart(f, i) - 1, i);
  }

  /** The leader never resumes below an entry both logs have, and never needs as many probes as before unless the next
      one succeeds. */
  lemma RefusalLeads(h: History, l: seq<Entry>, f: seq<Entry>, next: nat, reply: AppendReply)
    requires Shape(l) && Shape(f) && Matches(h, l) && Matches(h, f)
    requires 1 <= next <= |l| && !Shared(l, f, next - 1) && Refusal(f, next, reply)
    ensures var next' := Backtrack(l, reply);
            && 0 < next' < next
            && (forall k: nat :: k < next && Shared(l, f, k) ==> k < next')
            && (Shared(l, f, next' - 1) || Probes(f, next') < Probes(f, next))
  {
    if next > |f| {
      assert f[..|f|] == f;
    } else {
      LastOfTermIs(l, reply.conflictTerm);
      RunStartIs(f, next - 1);
      if LastOfTerm(l, reply.conflictTerm) >= 0 {
        TermKnown(h, l, f, next, LastOfTerm(l, reply.conflictTerm));
      } else {
        TermUnknown(l, f, next);
      }
    }
  }

  lemma TermUnknown(l: seq<Entry>, f: seq<Entry>, next: nat)
    requires Shape(l) && Shape(f) && 1 <= next <= |f| && forall i :: 0 <= i < |l| ==> l[i].term != f[next - 1].term
    ensures var s := RunStart(f, next - 1);
            0 < s < next && (forall k: nat :: k < next && Shared(l, f, k) ==> k < s) && Probes(f, s) < Probes(f, next)
  {
    RunStartIs(f, next - 1);
    var s := RunStart(f, next - 1);
    assert l[0].term == f[0].term;
    forall i: nat | i < s ensures f[i].term != f[next - 1].term { RunBefore(f, next - 1, i); }
    FewerTerms(f, next, s);
  }

  lemma TermKnown(h: History, l: seq<Entry>, f: seq<Entry>, next: nat, j: nat)
    requires Shape(l) && Shape(f) && Matches(h, l) && Matches(h, f) && 1 <= next <= |f| && next <= |l|
    requires !Shared(l, f, next - 1) && j < |l| && l[j].term == f[next - 1].term
    requires forall i :: j < i < |l| ==> l[i].term != f[next - 1].term
    ensures j + 1 < next && (forall k: nat :: k < next && Shared(l, f, k) ==> k <= j)
    ensures Shared(l, f, j) || Probes(f, j + 1) < Probes(f, next)
  {
    var t, s := f[next - 1].term, RunStart(f, next - 1);
    if j >= next { LaterTerm(h, l, f, next - 1, j); }
    forall k: nat | k < next && Shared(l, f, k) ensures k <= j { assert Ordered(f, k, next - 1) && Ordered(l, j, k); }
    if !Shared(l, f, j) {
      RunStartIs(f, next - 1);
      forall i: nat | i <= j ensures f[i].term != t { RunBefore(f, next - 1, i); }
      FewerTerms(f, next, j + 1);
    }
  }

  /** If the leader had an entry of the term further on, it would have the follower's entry too. */
  lemma LaterTerm(h: History, l: seq<Entry>, f: seq<Entry>, i: nat, j: nat)
    requires Shape(l) && Shape(f) && Matches(h, l) && Matches(h, f) && i < |f| && i < j < |l| && l[j].term == f[i].term
    ensures Shared(l, f, i)
  {
    assert MatchesAt(h, l, j);
    if i > 0 { assert MatchesAt(h, f, i); }
  }

  // ----- catching a follower up -----

  function ExecAll(c: Cluster, steps: seq<Step>): Cluster
    decreases |steps|
  {
    if steps == [] then c else ExecAll(Exec(c, steps[0]), steps[1..])
  }

  lemma {:induction false} RunOn(peers: seq<NodeId>, steps: seq<Step>, more: seq<Step>)
    ensures Run(peers, steps + more) == ExecAll(Run(peers, steps), more)
    decreases |more|
  {
    if more == [] {
      assert steps + more == steps;
    } else {
      var first := steps + [more[0]];
      assert first[..|first| - 1] == steps;
      assert steps + more == first + more[1..];
      RunOn(peers, first, more[1..]);
    }
  }

  /** The follower's log is the leader's, and the leader knows it. */
  ghost predicate CaughtUp(l: Node, f: Node, p: NodeId) {
    f.log == l.log && At(l.matchIndex, p) == |l.log| - 1
  }

  ghost predicate MayProbe(c: Cluster, a: NodeId, p: NodeId) {
    && a in c.nodes && p in c.nodes && a != p && c.nodes[a].role == Leader && p in c.peers
    && c.nodes[p].currentTerm <= c.nodes[a].currentTerm
  }

  /** Nothing but peers `a` and `p` has changed, nor what `a` knows about the others. */
  ghost predicate Aside(c: Cluster, c': Cluster, a: NodeId, p: NodeId)
    requires a in c.nodes && a in c'.nodes
  {
    && c'.peers == c.peers && c'.nodes.Keys == c.nodes.Keys
    && (forall q :: q in c.nodes && q != a && q != p ==> c'.nodes[q] == c.nodes[q])
    && (forall q :: q != p ==> At(c'.nodes[a].matchIndex, q) == At(c.nodes[a].matchIndex, q))
  }

  lemma Execute(c: Cluster, h: History, step: Step) returns (c': Cluster, h': History)
    requires Inv(c, h) && Enabled(c, step)
    ensures InBounds(c, step) && c' == Exec(c, step) && h' == Record(c, h, step) && Inv(c', h')
  {
    InvInBounds(c, h, step);
    StepInv(c, h, step);
    c', h' := Exec(c, step), Record(c, h, step);
  }

  /** The leader asks. */
  lemma Ask(c: Cluster, h: History, a: NodeId, p: NodeId)
    returns (step: Step, args: AppendArgs, c': Cluster, h': History)
    requires Inv(c, h) && MayProbe(c, a, p)
    ensures c' == Exec(c, step) && Inv(c', h') && c'.nodes == c.nodes && c'.peers == c.peers
    ensures |c.nodes[a].log| > 0 && 1 <= At(c.nodes[a].nextIndex, p) <= |c.nodes[a].log|
    ensures args == BuildAppend(c.nodes[a], a, p) && AppendRequest(a, p, args) in c'.net
  {
    assert NodeOK(c, h, a);
    assert PeerOK(h, c.nodes[a], p);
    step := SendAppend(a, p);
    c', h' := Execute(c, h, step);
    args := Asked(c, a, p);
  }

  lemma Asked(c: Cluster, a: NodeId, p: NodeId) returns (args: AppendArgs)
    requires MayProbe(c, a, p) && |c.nodes[a].log| > 0 && At(c.nodes[a].nextIndex, p) <= |c.nodes[a].log|
    ensures var c' := Exec(c, SendAppend(a, p));
            && c'.nodes == c.nodes && c'.peers == c.peers
            && args == BuildAppend(c.nodes[a], a, p) && AppendRequest(a, p, args) in c'.net
  {
    args := BuildAppend(c.nodes[a], a, p);
  }

  /** The follower answers. */
  lemma Answer(c: Cluster, h: History, a: NodeId, p: NodeId, args: AppendArgs)
    returns (step: Step, c': Cluster, h': History)
    requires Inv(c, h) && p in c.nodes && AppendRequest(a, p, args) in c.net
    ensures c' == Exec(c, step) && Inv(c', h') && c'.peers == c.peers && |c.nodes[p].log| > 0
    ensures c'.nodes == c.nodes[p := HandleAppend(c.nodes[p], args).0]
    ensures AppendResponse(p, a, args, HandleAppend(c.nodes[p], args).1) in c'.net
  {
    assert NodeOK(c, h, p);
    step := Deliver(AppendRequest(a, p, args));
    c', h' := Execute(c, h, step);
  }

  /** The leader acts on the answer. */
  lemma Act(c: Cluster, h: History, a: NodeId, p: NodeId, args: AppendArgs, reply: AppendReply)
    returns (step: Step, c': Cluster, h': History)
    requires Inv(c, h) && a in c.nodes && AppendResponse(p, a, args, reply) in c.net && Current(c.nodes[a], args, reply)
    ensures c' == Exec(c, step) && Inv(c', h') && c'.peers == c.peers
    ensures |c.nodes[a].log| > 0 && Last(c.nodes[a].log).index == |c.nodes[a].log| - 1
    ensures !reply.success ==> 0 <= Backtrack(c.nodes[a].log, reply) <= args.prevLogIndex
    ensures c'.nodes == c.nodes[a := HandleAppendReply(c.nodes[a], a, c.peers, p, args, reply)]
  {
    assert NodeOK(c, h, a);
    step := Deliver(AppendResponse(p, a, args, reply));
    assert MessageOK(c, h, step.msg);
    if !reply.success { BacktrackBounds(c, h, a, args, reply); }
    c', h' := Execute(c, h, step);
  }

  /** What a probe does: it succeeds if the logs share the entry it is about, or else leads further back. */
  ghost predicate Probed(l: Node, f: Node, l': Node, f': Node, p: NodeId) {
    var next, next' := At(l.nextIndex, p), At(l'.nextIndex, p);
    next > 0 &&
    if Shared(l.log, f.log, next - 1) then CaughtUp(l', f', p)
    else
      && f'.log == f.log && 0 < next' < next
      && (forall k: nat :: k < next && Shared(l.log, f.log, k) ==> k < next')
      && (Shared(l.log, f.log, next' - 1) || Probes(f.log, next') < Probes(f.log, next))
  }

  /** The second and third step of a probe. */
  lemma AnswerAndAct(c: Cluster, h: History, a: NodeId, p: NodeId, args: AppendArgs)
    returns (s: seq<Step>, c': Cluster, h': History)
    requires Inv(c, h) && MayProbe(c, a, p) && AppendRequest(a, p, args) in c.net && |c.nodes[a].log| > 0
    requires 1 <= At(c.nodes[a].nextIndex, p) <= |c.nodes[a].log| && args == BuildAppend(c.nodes[a], a, p)
    ensures |s| == 2 && c' == Exec(Exec(c, s[0]), s[1]) && Inv(c', h') && MayProbe(c', a, p) && Aside(c, c', a, p)
    ensures c'.nodes[a].log == c.nodes[a].log && |c.nodes[p].log| > 0
    ensures c'.nodes[a].currentTerm == c.nodes[a].currentTerm == c'.nodes[p].currentTerm
    ensures var r := HandleAppend(c.nodes[p], args);
            if r.1.success then CaughtUp(c'.nodes[a], c'.nodes[p], p)
            else c'.nodes[p].log == r.0.log && At(c'.nodes[a].nextIndex, p) == Backtrack(c.nodes[a].log, r.1)
  {
    var s1, c2, h2 := Answer(c, h, a, p, args);
    var reply := HandleAppend(c.nodes[p], args).1;
    AnswerTerm(c.nodes[p], args);
    var s2;
    s2, c', h' := Act(c2, h2, a, p, args, reply);
    s := [s1, s2];
    ActKeeps(c.nodes[a], a, c.peers, p, args, reply);
    if reply.success { Success(c', h', a, p); }
  }

  lemma ProbedIs(c: Cluster, h: History, a: NodeId, p: NodeId, l': Node, f': Node)
    requires Inv(c, h) && MayProbe(c, a, p) && |c.nodes[a].log| > 0 && |c.nodes[p].log| > 0
    requires 1 <= At(c.nodes[a].nextIndex, p) <= |c.nodes[a].log|
    requires var r := HandleAppend(c.nodes[p], BuildAppend(c.nodes[a], a, p));
             if r.1.success then CaughtUp(l', f', p)
             else f'.log == r.0.log && At(l'.nextIndex, p) == Backtrack(c.nodes[a].log, r.1)
    ensures Probed(c.nodes[a], c.nodes[p], l', f', p)
  {
    AnswerShared(c.nodes[a], c.nodes[p], a, p);
    var reply := HandleAppend(c.nodes[p], BuildAppend(c.nodes[a], a, p)).1;
    if reply.success {
      SuccessProbed(c.nodes[a], c.nodes[p], l', f', p);
    } else {
      RefusalProbed(c, h, a, p, reply, l', f');
    }
  }

  lemma SuccessProbed(l: Node, f: Node, l': Node, f': Node, p: NodeId)
    requires At(l.nextIndex, p) > 0 && Shared(l.log, f.log, At(l.nextIndex, p) - 1) && CaughtUp(l', f', p)
    ensures Probed(l, f, l', f', p)
  {
  }

  lemma RefusalProbed(c: Cluster, h: History, a: NodeId, p: NodeId, reply: AppendReply, l': Node, f': Node)
    requires Inv(c, h) && a in c.nodes && p in c.nodes && 1 <= At(c.nodes[a].nextIndex, p) <= |c.nodes[a].log|
    requires var l, f, next := c.nodes[a].log, c.nodes[p].log, At(c.nodes[a].nextIndex, p);
             !Shared(l, f, next - 1) && Refusal(f, next, reply)
    requires f'.log == c.nodes[p].log && At(l'.nextIndex, p) == Backtrack(c.nodes[a].log, reply)
    ensures Probed(c.nodes[a], c.nodes[p], l', f', p)
  {
    assert NodeOK(c, h, a) && NodeOK(c, h, p);
    RefusalLeads(h, c.nodes[a].log, c.nodes[p].log, At(c.nodes[a].nextIndex, p), reply);
  }

  /** The follower accepts exactly when the logs share the entry the request is about. */
  lemma AnswerShared(l: Node, f: Node, a: NodeId, p: NodeId)
    requires |l.log| > 0 && |f.log| > 0 && f.currentTerm <= l.currentTerm && 1 <= At(l.nextIndex, p) <= |l.log|
    ensures var r := HandleAppend(f, BuildAppend(l, a, p));
            && (r.1.success <==> Shared(l.log, f.log, At(l.nextIndex, p) - 1))
            && (!r.1.success ==> r.0.log == f.log && Refusal(f.log, At(l.nextIndex, p), r.1))
  {
  }

  lemma AnswerTerm(n: Node, args: AppendArgs)
    requires |n.log| > 0 && n.currentTerm <= args.term
    ensures HandleAppend(n, args).0.currentTerm == args.term == HandleAppend(n, args).1.term
  {
  }

  lemma ActKeeps(n: Node, me: NodeId, peers: seq<NodeId>, p: NodeId, args: AppendArgs, reply: AppendReply)
    requires |n.log| > 0 && Last(n.log).index == |n.log| - 1 && Current(n, args, reply)
    requires !reply.success ==> Backtrack(n.log, reply) >= 0
    requires 1 <= At(n.nextIndex, p) <= |n.log| && args == BuildAppend(n, me, p)
    ensures var n' := HandleAppendReply(n, me, peers, p, args, reply);
            && n'.role == Leader && n'.log == n.log && n'.currentTerm == n.currentTerm
            && (reply.success ==> At(n'.matchIndex, p) >= |n.log| - 1)
            && (!reply.success ==> At(n'.nextIndex, p) == Backtrack(n.log, reply))
            && args.prevLogIndex == At(n.nextIndex, p) - 1
            && forall q :: q != p ==> At(n'.matchIndex, q) == At(n.matchIndex, q)
  {
  }

  /** A follower in the leader's term that has acknowledged the leader's last entry has exactly the leader's log. */
  lemma Success(c: Cluster, h: History, a: NodeId, p: NodeId)
    requires Inv(c, h) && a in c.nodes && p in c.nodes && c.nodes[a].role == Leader
    requires c.nodes[p].currentTerm == c.nodes[a].currentTerm && At(c.nodes[a].matchIndex, p) >= |c.nodes[a].log| - 1
    ensures CaughtUp(c.nodes[a], c.nodes[p], p)
  {
    assert NodeOK(c, h, a);
    assert NodeOK(c, h, p);
    assert TermOK(c, h, c.nodes[a].currentTerm);
    ViewIsTrue(c, h, a, p);
    SameWholeLog(h, c.nodes[a].log, c.nodes[p]);
  }

  lemma SameWholeLog(h: History, log: seq<Entry>, f: Node)
    requires LogOK(h, f) && f.currentTerm in h.termLog && log == h.termLog[f.currentTerm]
    requires 2 <= |log| <= |f.log| && Last(log).term == f.currentTerm && f.log[..|log|] == log
    ensures f.log == log
  {
    assert f.log[|log| - 1] == log[|log| - 1];
    assert Ordered(f.log, |log| - 1, |f.log| - 1) && MatchesAt(h, f.log, |f.log| - 1);
  }

  lemma ProbeRound(c: Cluster, h: History, a: NodeId, p: NodeId) returns (probe: seq<Step>, c': Cluster, h': History)
    requires Inv(c, h) && MayProbe(c, a, p)
    ensures |probe| == 3 && c' == ExecAll(c, probe) && Inv(c', h') && MayProbe(c', a, p) && Aside(c, c', a, p)
    ensures c'.nodes[a].log == c.nodes[a].log
    ensures c'.nodes[a].currentTerm == c.nodes[a].currentTerm == c'.nodes[p].currentTerm
    ensures Probed(c.nodes[a], c.nodes[p], c'.nodes[a], c'.nodes[p], p)
  {
    var s0, args, c1, h1 := Ask(c, h, a, p);
    var rest;
    rest, c', h' := AnswerAndAct(c1, h1, a, p, args);
    probe := [s0] + rest;
    ThreeSteps(c, probe);
    ProbedIs(c, h, a, p, c'.nodes[a], c'.nodes[p]);
  }

  lemma ThreeSteps(c: Cluster, s: seq<Step>)
    requires |s| == 3
    ensures ExecAll(c, s) == Exec(Exec(Exec(c, s[0]), s[1]), s[2])
  {
    assert s[1..][1..] == s[2..] && s[2..][1..] == [];
    assert ExecAll(Exec(Exec(c, s[0]), s[1]), s[2..]) == Exec(Exec(Exec(c, s[0]), s[1]), s[2]);
  }

  lemma {:induction false} ExecAllAppend(c: Cluster, s: seq<Step>, t: seq<Step>)
    ensures ExecAll(c, s + t) == ExecAll(ExecAll(c, s), t)
    decreases |s|
  {
    if s == [] {
      assert s + t == t;
    } else {
      assert (s + t)[1..] == s[1..] + t;
      ExecAllAppend(Exec(c, s[0]), s[1..], t);
    }
  }

  /** The most probes that can be needed. */
  ghost function ProbesLeft(l: Node, f: Node, p: NodeId): nat {
    var next := At(l.nextIndex, p);
    if next == 0 || Shared(l.log, f.log, next - 1) then 1 else Probes(f.log, next)
  }

  lemma FewerProbes(l: Node, f: Node, l': Node, f': Node, p: NodeId)
    requires |f.log| > 0 && l'.log == l.log && Probed(l, f, l', f', p) && !CaughtUp(l', f', p)
    ensures At(l'.nextIndex, p) < At(l.nextIndex, p) && ProbesLeft(l', f', p) < ProbesLeft(l, f, p)
  {
    var next := At(l.nextIndex, p);
    assert next <= |f.log| ==> f.log[..next][0].term in Terms(f.log[..next]);
    assert f.log[0].term in Terms(f.log);
  }

  lemma ProbeStart(c: Cluster, h: History, a: NodeId, p: NodeId)
    requires Inv(c, h) && MayProbe(c, a, p)
    ensures |c.nodes[p].log| > 0 && At(c.nodes[a].nextIndex, p) >= 1 && ProbesLeft(c.nodes[a], c.nodes[p], p) >= 1
  {
    assert NodeOK(c, h, a) && NodeOK(c, h, p) && PeerOK(h, c.nodes[a], p);
  }

  lemma {:induction false} ProbeUntilCaughtUp(c: Cluster, h: History, a: NodeId, p: NodeId) returns (more: seq<Step>)
    requires Inv(c, h) && MayProbe(c, a, p)
    ensures |more| <= 3 * ProbesLeft(c.nodes[a], c.nodes[p], p) && |more| <= 3 * At(c.nodes[a].nextIndex, p)
    ensures var c' := ExecAll(c, more);
            && a in c'.nodes && p in c'.nodes && CaughtUp(c'.nodes[a], c'.nodes[p], p) && Aside(c, c', a, p)
            && c'.nodes[a].log == c.nodes[a].log && c'.nodes[a].role == Leader
            && c'.nodes[a].currentTerm == c.nodes[a].currentTerm == c'.nodes[p].currentTerm
    decreases At(c.nodes[a].nextIndex, p)
  {
    var probe, c', h' := ProbeRound(c, h, a, p);
    more := probe;
    ProbeStart(c, h, a, p);
    if CaughtUp(c'.nodes[a], c'.nodes[p], p) {
    } else {
      FewerProbes(c.nodes[a], c.nodes[p], c'.nodes[a], c'.nodes[p], p);
      var rest := ProbeUntilCaughtUp(c', h', a, p);
      ExecAllAppend(c, probe, rest);
      more := probe + rest;
    }
  }

  /** From any reachable state, a few probes in a row give a follower that is not ahead in term exactly the leader's
      log, and tell the leader so: at most nextIndex of them, and at most two more than there are terms in the
      follower's log. */
  lemma CatchUp(peers: seq<NodeId>, steps: seq<Step>, a: NodeId, p: NodeId) returns (more: seq<Step>)
    requires NoRepeats(peers) && MayProbe(Run(peers, steps), a, p)
    ensures |more| <= 3 * At(Run(peers, steps).nodes[a].nextIndex, p)
    ensures |more| <= 3 * (|Terms(Run(peers, steps).nodes[p].log)| + 2)
    ensures var c, c' := Run(peers, steps), Run(peers, steps + more);
            && a in c'.nodes && p in c'.nodes && CaughtUp(c'.nodes[a], c'.nodes[p], p)
            && c'.nodes[a].log == c.nodes[a].log && c'.nodes[a].role == Leader
  {
    RunInv(peers, steps);
    more := ProbeUntilCaughtUp(Run(peers, steps), RunHistory(peers, steps), a, p);
    RunOn(peers, steps, more);
    var f, next := Run(peers, steps).nodes[p].log, At(Run(peers, steps).nodes[a].nextIndex, p);
    if next <= |f| { TermsPrefix(f, next); }
  }

  lemma TermsPrefix(f: seq<Entry>, next: nat)
    requires next <= |f|
    ensures |Terms(f[..next])| <= |Terms(f)|
  {
    forall t | t in Terms(f[..next]) ensures t in Terms(f) {
      var i :| 0 <= i < next && f[..next][i].term == t;
      assert f[i].term == t;
    }
    Subset(Terms(f[..next]), Terms(f));
  }

  /** A refused probe never leads below an entry both logs have: what the follower shares is not sent again. */
  lemma RefusalKeepsShared(peers: seq<NodeId>, steps: seq<Step>, a: NodeId, p: NodeId, k: nat)
    returns (probe: seq<Step>)
    requires NoRepeats(peers) && MayProbe(Run(peers, steps), a, p)
    requires var c := Run(peers, steps);
             Shared(c.nodes[a].log, c.nodes[p].log, k) && k < At(c.nodes[a].nextIndex, p)
    ensures |probe| == 3 && a in Run(peers, steps + probe).nodes && p in Run(peers, steps + probe).nodes
    ensures var c' := Run(peers, steps + probe);
            CaughtUp(c'.nodes[a], c'.nodes[p], p) || k < At(c'.nodes[a].nextIndex, p)
  {
    RunInv(peers, steps);
    var c', h';
    probe, c', h' := ProbeRound(Run(peers, steps), RunHistory(peers, steps), a, p);
    RunOn(peers, steps, probe);
  }
}
