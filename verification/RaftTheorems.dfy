/**
 The safety theorems of Raft, for any list of distinct peers and any run. `NodeAt(peers, steps, i, a)`
 is peer `a` after the first `i` steps, so a theorem about `i` and `j` speaks of two moments of one run.
 */
module RaftTheorems {
  import opened Sequences
  import opened RaftNode
  import opened RaftCluster
  import opened RaftInvariant
  import opened RaftFrame
  import opened RaftReplication
  import opened RaftAppend
  import opened RaftSafety

  // ----- election safety -----

  /** At most one peer is ever leader in a given term. */
  lemma ElectionSafety(peers: seq<NodeId>, steps: seq<Step>, i: nat, j: nat, a: NodeId, b: NodeId)
    requires NoRepeats(peers) && i <= |steps| && j <= |steps| && a in peers && b in peers
    requires var n, m := NodeAt(peers, steps, i, a), NodeAt(peers, steps, j, b);
             n.role == Leader && m.role == Leader && n.currentTerm == m.currentTerm
    ensures a == b
  {
    MomentInv(peers, steps, i, a);
    MomentInv(peers, steps, j, b);
    var h, h' := RunHistory(peers, steps[..i]), RunHistory(peers, steps[..j]);
    var t := NodeAt(peers, steps, i, a).currentTerm;
    if i <= j {
      RunLater(peers, steps, i, j);
      assert LogGrows(h, h', t);
    } else {
      RunLater(peers, steps, j, i);
      assert LogGrows(h', h, t);
    }
  }

  /** A leader needs a vote it did not cast itself, so a group of one peer never has a leader. */
  lemma LonePeerNeverLeads(peer: NodeId, steps: seq<Step>)
    ensures Run([peer], steps).nodes.Keys == {peer}
    ensures Run([peer], steps).nodes[peer].role != Leader
  {
    PeersKept([peer], steps);
    assert Elements([peer]) == {peer};
    LoneInvariant(peer, steps);
  }

  lemma {:induction false} LoneInvariant(peer: NodeId, steps: seq<Step>)
    ensures peer in Run([peer], steps).nodes
    ensures Run([peer], steps).nodes[peer].role != Leader && Run([peer], steps).net == {}
  {
    PeersKept([peer], steps);
    assert peer in Elements([peer]);
    if steps == [] {
    } else {
      LoneInvariant(peer, steps[..|steps| - 1]);
      PeersKept([peer], steps[..|steps| - 1]);
      var c, step := Run([peer], steps[..|steps| - 1]), steps[|steps| - 1];
      assert c.nodes.Keys == Elements([peer]) == {peer};
      assert forall p :: p in c.peers ==> p == peer;
    }
  }

  // ----- log matching -----

  /** Every log is indexed by position and sorted by term. */
  lemma LogsWellFormed(peers: seq<NodeId>, steps: seq<Step>, a: NodeId, i: nat, j: nat)
    requires NoRepeats(peers) && a in peers
    requires var log := NodeAt(peers, steps, |steps|, a).log; i <= j < |log|
    ensures var n := NodeAt(peers, steps, |steps|, a);
            n.log[i].index == i && n.log[i].term <= n.log[j].term <= n.currentTerm
  {
    MomentInv(peers, steps, |steps|, a);
    SortedLog(RunHistory(peers, steps[..|steps|]), NodeAt(peers, steps, |steps|, a), i, j);
  }

  lemma SortedLog(h: History, n: Node, i: nat, j: nat)
    requires LogOK(h, n) && i <= j < |n.log|
    ensures n.log[i].index == i && n.log[i].term <= n.log[j].term <= n.currentTerm
  {
    assert Ordered(n.log, i, j) && Ordered(n.log, j, |n.log| - 1);
  }

  /** If two logs, at any two moments, have entries of the same term at index `k`, they are equal through `k`. */
  lemma LogMatching(peers: seq<NodeId>, steps: seq<Step>, i: nat, j: nat, a: NodeId, b: NodeId, k: nat)
    requires NoRepeats(peers) && i <= j <= |steps| && a in peers && b in peers
    requires var x, y := NodeAt(peers, steps, i, a).log, NodeAt(peers, steps, j, b).log;
             k < |x| && k < |y| && x[k].term == y[k].term
    ensures NodeAt(peers, steps, i, a).log[..k + 1] == NodeAt(peers, steps, j, b).log[..k + 1]
  {
    MomentInv(peers, steps, i, a);
    MomentInv(peers, steps, j, b);
    RunLater(peers, steps, i, j);
    var h, h' := RunHistory(peers, steps[..i]), RunHistory(peers, steps[..j]);
    MatchesLater(h, h', NodeAt(peers, steps, i, a).log);
    SameTermSlices(h', NodeAt(peers, steps, i, a).log, NodeAt(peers, steps, j, b).log, k);
  }

  lemma SameTermSlices(h: History, x: seq<Entry>, y: seq<Entry>, k: nat)
    requires Shape(x) && Shape(y) && Matches(h, x) && Matches(h, y)
    requires k < |x| && k < |y| && x[k].term == y[k].term
    ensures x[..k + 1] == y[..k + 1]
  {
    SameTermSameLog(h, x, y, k);
  }

  // ----- committed entries -----

  /** Any two committed prefixes agree. */
  lemma CommitsAgree(c: Cluster, h: History, n: Node, m: Node, k: nat)
    requires HistoryOK(c, h) && k <= n.commitIndex < |n.log| && k <= m.commitIndex < |m.log|
    requires Committed(h, n.log, n.commitIndex, n.currentTerm) && Committed(h, m.log, m.commitIndex, m.currentTerm)
    requires n.log[0] == m.log[0]
    ensures n.log[..k + 1] == m.log[..k + 1]
  {
    assert AgreeThrough(n.log, m.log, k) by {
      if k != 0 {
        var e :| e in h.commits && CoveredBy(h, n.log, n.commitIndex, n.currentTerm, e);
        var f :| f in h.commits && CoveredBy(h, m.log, m.commitIndex, m.currentTerm, f);
        ChosenAgree(c, h, e, f, k);
      }
    }
  }

  lemma ChosenAgree(c: Cluster, h: History, e: (nat, nat), f: (nat, nat), k: nat)
    requires HistoryOK(c, h) && e in h.commits && f in h.commits && k <= e.1 && k <= f.1
    ensures e.0 in h.termLog && f.0 in h.termLog && AgreeThrough(h.termLog[e.0], h.termLog[f.0], k)
  {
    assert CommitEntryOK(c, h, e) && CommitEntryOK(c, h, f);
    if e.0 < f.0 {
      ChosenInherited(c, h, e, f.0);
    } else if f.0 < e.0 {
      ChosenInherited(c, h, f, e.0);
    }
  }

  /** A later leader's log holds what an earlier leader committed. */
  lemma ChosenInherited(c: Cluster, h: History, e: (nat, nat), u: nat)
    requires HistoryOK(c, h) && e in h.commits && u in h.termLog && e.0 < u
    ensures e.0 in h.termLog && AgreeThrough(h.termLog[e.0], h.termLog[u], e.1)
  {
    assert CommitEntryOK(c, h, e);
    Subset(Ackers(c, h, e.0, e.1), Possible(c, h, e.0, e.1));
    assert Inherits(c, h, e.0, u) && InheritsAt(c, h, e.0, u, e.1);
  }

  /** State machine safety: at any two moments, peers whose commit indexes reach `k` hold the same log through `k`. */
  lemma StateMachineSafety(peers: seq<NodeId>, steps: seq<Step>, i: nat, j: nat, a: NodeId, b: NodeId, k: nat)
    requires NoRepeats(peers) && i <= j <= |steps| && a in peers && b in peers
    requires k <= NodeAt(peers, steps, i, a).commitIndex && k <= NodeAt(peers, steps, j, b).commitIndex
    ensures k < |NodeAt(peers, steps, i, a).log| && k < |NodeAt(peers, steps, j, b).log|
    ensures NodeAt(peers, steps, i, a).log[..k + 1] == NodeAt(peers, steps, j, b).log[..k + 1]
  {
    CommittedAt(peers, steps, i, j, a);
    CommittedAt(peers, steps, j, j, b);
    RunInv(peers, steps[..j]);
    CommitsAgree(Run(peers, steps[..j]), RunHistory(peers, steps[..j]), NodeAt(peers, steps, i, a),
                 NodeAt(peers, steps, j, b), k);
  }

  /** What a peer had committed at moment `i` is covered by the history of moment `j`. */
  lemma CommittedAt(peers: seq<NodeId>, steps: seq<Step>, i: nat, j: nat, a: NodeId)
    requires NoRepeats(peers) && i <= j <= |steps| && a in peers
    ensures var n := NodeAt(peers, steps, i, a);
            && n.lastApplied <= n.commitIndex < |n.log| && n.log[0] == SENTINEL
            && Committed(RunHistory(peers, steps[..j]), n.log, n.commitIndex, n.currentTerm)
  {
    MomentInv(peers, steps, i, a);
    RunLater(peers, steps, i, j);
    var n := NodeAt(peers, steps, i, a);
    CommittedLater(RunHistory(peers, steps[..i]), RunHistory(peers, steps[..j]), n.log, n.commitIndex, n.currentTerm);
  }

  /** Leader completeness: whatever some peer has committed at moment `i`, every leader of a higher term holds, even one
      seen before that moment, and so does every leader of its own term seen at or after it. */
  lemma LeaderCompleteness(peers: seq<NodeId>, steps: seq<Step>, i: nat, j: nat, a: NodeId, b: NodeId)
    requires NoRepeats(peers) && i <= |steps| && j <= |steps| && a in peers && b in peers
    requires var n, m := NodeAt(peers, steps, i, a), NodeAt(peers, steps, j, b);
             m.role == Leader && (m.currentTerm > n.currentTerm || (m.currentTerm == n.currentTerm && i <= j))
    ensures var n, m := NodeAt(peers, steps, i, a), NodeAt(peers, steps, j, b);
            && n.commitIndex < |n.log| && n.commitIndex < |m.log|
            && m.log[..n.commitIndex + 1] == n.log[..n.commitIndex + 1]
  {
    LeaderAt(peers, steps, j, b);
    if i <= j {
      CommittedAt(peers, steps, i, j, a);
      LeaderHolds(Run(peers, steps[..j]), RunHistory(peers, steps[..j]), NodeAt(peers, steps, i, a), b);
    } else {
      CommittedAt(peers, steps, i, i, a);
      HistoryAt(peers, steps, j, i);
      EarlierLeaderHolds(Run(peers, steps[..j]), RunHistory(peers, steps[..j]), Run(peers, steps[..i]),
                         RunHistory(peers, steps[..i]), NodeAt(peers, steps, i, a), NodeAt(peers, steps, j, b));
    }
  }

  lemma HistoryAt(peers: seq<NodeId>, steps: seq<Step>, j: nat, i: nat)
    requires NoRepeats(peers) && j <= i <= |steps|
    ensures HistoryOK(Run(peers, steps[..j]), RunHistory(peers, steps[..j]))
    ensures HistoryOK(Run(peers, steps[..i]), RunHistory(peers, steps[..i]))
    ensures Later(RunHistory(peers, steps[..j]), RunHistory(peers, steps[..i]))
  {
    RunInv(peers, steps[..j]);
    RunInv(peers, steps[..i]);
    RunLater(peers, steps, j, i);
  }

  /** A leader of a higher term was elected with everything that may be chosen in lower ones already in its log. */
  lemma EarlierLeaderHolds(c: Cluster, h: History, c': Cluster, h': History, n: Node, m: Node)
    requires n.currentTerm < m.currentTerm && n.commitIndex < |n.log| && n.log[0] == SENTINEL
    requires HistoryOK(c, h) && HistoryOK(c', h') && Later(h, h')
    requires Committed(h', n.log, n.commitIndex, n.currentTerm)
    requires m.currentTerm in h.termLog && m.log == h.termLog[m.currentTerm]
    ensures n.commitIndex < |m.log| && m.log[..n.commitIndex + 1] == n.log[..n.commitIndex + 1]
  {
    var t := m.currentTerm;
    assert TermOK(c, h, t);
    assert AgreeThrough(n.log, m.log, n.commitIndex) by {
      if n.commitIndex != 0 {
        var e :| e in h'.commits && CoveredBy(h', n.log, n.commitIndex, n.currentTerm, e);
        assert LogGrows(h, h', t) && TermOK(c', h', t) && CommitEntryOK(c', h', e);
        ChosenInherited(c', h', e, t);
        assert Ordered(h'.termLog[t], |m.log| - 1, e.1);
      }
    }
  }

  lemma LeaderAt(peers: seq<NodeId>, steps: seq<Step>, j: nat, b: NodeId)
    requires NoRepeats(peers) && j <= |steps| && b in peers
    ensures var c, h := Run(peers, steps[..j]), RunHistory(peers, steps[..j]);
            && HistoryOK(c, h) && b in c.nodes && c.nodes[b] == NodeAt(peers, steps, j, b)
            && LeaderOK(c, h, b, c.nodes[b]) && Shape(c.nodes[b].log)
  {
    MomentInv(peers, steps, j, b);
  }

  lemma LeaderHolds(c: Cluster, h: History, n: Node, b: NodeId)
    requires HistoryOK(c, h) && Committed(h, n.log, n.commitIndex, n.currentTerm) && n.commitIndex < |n.log|
    requires b in c.nodes && LeaderOK(c, h, b, c.nodes[b]) && c.nodes[b].role == Leader
    requires n.currentTerm <= c.nodes[b].currentTerm
    requires n.log[0] == SENTINEL && Shape(c.nodes[b].log)
    ensures var log := c.nodes[b].log; n.commitIndex < |log| && log[..n.commitIndex + 1] == n.log[..n.commitIndex + 1]
  {
    var m := c.nodes[b];
    assert AgreeThrough(n.log, m.log, n.commitIndex) by {
      if n.commitIndex != 0 {
        var e :| e in h.commits && CoveredBy(h, n.log, n.commitIndex, n.currentTerm, e);
        if e.0 < m.currentTerm { ChosenInherited(c, h, e, m.currentTerm); }
      }
    }
  }

  /** A peer's commit index never falls, and what lies at or below it is never truncated or replaced. */
  lemma {:induction false} CommittedPrefixStays(peers: seq<NodeId>, steps: seq<Step>, i: nat, j: nat, a: NodeId)
    requires NoRepeats(peers) && i <= j <= |steps| && a in peers
    ensures var n, m := NodeAt(peers, steps, i, a), NodeAt(peers, steps, j, a);
            && n.lastApplied <= n.commitIndex <= m.commitIndex < |m.log|
            && n.commitIndex < |n.log| && m.log[..n.commitIndex + 1] == n.log[..n.commitIndex + 1]
  {
    CommitIndexGrows(peers, steps, i, j, a);
    CommittedAt(peers, steps, i, i, a);
    CommittedAt(peers, steps, j, j, a);
    StateMachineSafety(peers, steps, i, j, a, a, NodeAt(peers, steps, i, a).commitIndex);
  }

  lemma {:induction false} CommitIndexGrows(peers: seq<NodeId>, steps: seq<Step>, i: nat, j: nat, a: NodeId)
    requires NoRepeats(peers) && i <= j <= |steps| && a in peers
    ensures NodeAt(peers, steps, i, a).commitIndex <= NodeAt(peers, steps, j, a).commitIndex
    decreases j
  {
    if i == j {
    } else {
      CommitIndexGrows(peers, steps, i, j - 1, a);
      MomentInv(peers, steps, j - 1, a);
      assert steps[..j][..j - 1] == steps[..j - 1];
      CommitStepGrows(Run(peers, steps[..j - 1]), RunHistory(peers, steps[..j - 1]), steps[j - 1], a);
    }
  }

  lemma CommitStepGrows(c: Cluster, h: History, step: Step, a: NodeId)
    requires Inv(c, h) && a in c.nodes
    ensures a in Exec(c, step).nodes && c.nodes[a].commitIndex <= Exec(c, step).nodes[a].commitIndex
  {
    if Enabled(c, step) && InBounds(c, step) && a == Actor(step) {
      if step.Deliver? && step.msg.AppendResponse? {
        ReplyCommitGrows(c.nodes[a], a, c.peers, step.msg.from, step.msg.append, step.msg.appendReply);
      } else if step.Deliver? && step.msg.AppendRequest? {
        assert NodeOK(c, h, a);
        assert MessageOK(c, h, step.msg);
        AppendCommitGrows(c, h, c.nodes[a], step.msg.append);
      } else {
        OtherCommitStays(c, step);
      }
    }
  }

  lemma OtherCommitStays(c: Cluster, step: Step)
    requires Enabled(c, step) && InBounds(c, step)
    requires step.Deliver? ==> !step.msg.AppendResponse? && !step.msg.AppendRequest?
    ensures React(c, step).commitIndex == c.nodes[Actor(step)].commitIndex
  {
  }

  lemma ReplyCommitGrows(n: Node, me: NodeId, peers: seq<NodeId>, p: NodeId, args: AppendArgs, reply: AppendReply)
    requires |n.log| > 0 && (Current(n, args, reply) && !reply.success ==> Backtrack(n.log, reply) >= 0)
    ensures n.commitIndex <= HandleAppendReply(n, me, peers, p, args, reply).commitIndex
  {
    var w := WithMatch(n, p, args.prevLogIndex + |args.entries|);
    BestCommitIs(w, me, peers, |n.log| - 1);
  }

  lemma AppendCommitGrows(c: Cluster, h: History, n: Node, args: AppendArgs)
    requires HistoryOK(c, h) && LogOK(h, n) && CommitOK(h, n) && AppendArgsOK(h, args)
    ensures n.commitIndex <= HandleAppend(n, args).0.commitIndex
  {
    if Accepts(n, args) { ClampNeverCuts(c, h, n, HandleAppend(n, args).0, args); }
  }

  /** Figure 2's index of the last new entry. */
  function LastNew(args: AppendArgs): nat {
    args.prevLogIndex + |args.entries|
  }

  /** The new entries are in place, and the commit index is the one Figure 2 asks for: the leader's, clamped to the
      last new entry. */
  ghost predicate CommitsByFigure2(n: Node, n': Node, args: AppendArgs) {
    && LastNew(args) < |n'.log| && n'.log[args.prevLogIndex + 1..LastNew(args) + 1] == args.entries
    && n'.commitIndex == if args.leaderCommit > n.commitIndex then Min(args.leaderCommit, LastNew(args))
                         else n.commitIndex
  }

  /** The follower's clamp to its own last index gives what Figure 2's clamp to the last new entry gives. */
  lemma ClampNeverCuts(c: Cluster, h: History, n: Node, n': Node, args: AppendArgs)
    requires HistoryOK(c, h) && LogOK(h, n) && AppendArgsOK(h, args) && Accepts(n, args)
    requires n' == HandleAppend(n, args).0
    ensures CommitsByFigure2(n, n', args)
  {
    assert TermOK(c, h, args.term);
    AcceptedIs(n, args);
    AppendedLog(c, h, n, n', args);
    ClampIs(h.termLog[args.term], n, n', args);
  }

  lemma ClampIs(log: seq<Entry>, n: Node, n': Node, args: AppendArgs)
    requires IsAppended(n, n', args) && AgreeThrough(n'.log, log, LastNew(args)) && args.leaderCommit <= LastNew(args)
    requires forall i :: 0 <= i < |args.entries| ==> args.entries[i] == log[args.prevLogIndex + 1 + i]
    ensures CommitsByFigure2(n, n', args)
  {
  }

  /** Every request ever sent reaches past the commit index it carries, so a follower that accepts it commits by
      Figure 2's rule and never commits a stale tail entry of its own. */
  lemma FollowerCommitRule(peers: seq<NodeId>, steps: seq<Step>, m: Message)
    requires NoRepeats(peers) && m in Run(peers, steps).net && m.AppendRequest?
    ensures m.append.leaderCommit <= LastNew(m.append)
    ensures var c := Run(peers, steps);
            && m.dest in c.nodes && |c.nodes[m.dest].log| > 0
            && var n := c.nodes[m.dest];
               Accepts(n, m.append) ==> CommitsByFigure2(n, HandleAppend(n, m.append).0, m.append)
  {
    RunInv(peers, steps);
    RequestRule(Run(peers, steps), RunHistory(peers, steps), m);
  }

  lemma RequestRule(c: Cluster, h: History, m: Message)
    requires Inv(c, h) && m in c.net && m.AppendRequest?
    ensures m.append.leaderCommit <= LastNew(m.append) && m.dest in c.nodes && |c.nodes[m.dest].log| > 0
    ensures var n := c.nodes[m.dest];
            Accepts(n, m.append) ==> CommitsByFigure2(n, HandleAppend(n, m.append).0, m.append)
  {
    assert MessageOK(c, h, m);
    assert NodeOK(c, h, m.dest);
    var n := c.nodes[m.dest];
    if Accepts(n, m.append) { ClampNeverCuts(c, h, n, HandleAppend(n, m.append).0, m.append); }
  }

  /** The entries of every request ever sent carry the indexes that follow its PrevLogIndex, and the peer it is for has
      a log indexed by position: what AppendEntries takes for granted of its arguments and its log. */
  lemma RequestsIndexed(peers: seq<NodeId>, steps: seq<Step>, m: Message, i: nat)
    requires NoRepeats(peers) && m in Run(peers, steps).net && m.AppendRequest? && i < |m.append.entries|
    ensures m.append.entries[i].index == m.append.prevLogIndex + 1 + i
    ensures m.dest in Run(peers, steps).nodes && Indexed(Run(peers, steps).nodes[m.dest].log)
  {
    RunInv(peers, steps);
    var c, h := Run(peers, steps), RunHistory(peers, steps);
    assert MessageOK(c, h, m);
    assert TermOK(c, h, m.append.term) && NodeOK(c, h, m.dest);
  }
}
