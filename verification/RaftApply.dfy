/**
 What the group puts on its peers' apply channels, and what an acknowledged proposal is worth.
 */
module RaftApply {
  import opened Sequences
  import opened RaftNode
  import opened RaftCluster
  import opened RaftInvariant
  import opened RaftFrame
  import opened RaftAssemble
  import opened RaftReplication
  import opened RaftSafety
  import opened RaftTheorems

  /** Messages come in strictly increasing index order, so none comes twice. */
  ghost predicate Increasing(stream: seq<ApplyMsg>) {
    forall x, y :: 0 <= x < y < |stream| ==> stream[x].index < stream[y].index
  }

  /** Every message is the command its index holds in the log. */
  ghost predicate FromLog(stream: seq<ApplyMsg>, log: seq<Entry>, hi: nat) {
    forall x :: 0 <= x < |stream| ==>
      1 <= stream[x].index < hi && stream[x].index < |log| && stream[x].command == log[stream[x].index].command != Nil
  }

  /** Every command below `hi` is in the stream. */
  ghost predicate Complete(stream: seq<ApplyMsg>, log: seq<Entry>, hi: nat) {
    forall k :: 1 <= k < hi && k < |log| && log[k].command != Nil ==> ApplyMsg(log[k].command, k) in stream
  }

  lemma {:induction false} MessagesAre(log: seq<Entry>, hi: nat)
    requires Indexed(log) && 1 <= hi <= |log|
    ensures var s := Messages(log, 1, hi); Increasing(s) && FromLog(s, log, hi) && Complete(s, log, hi)
  {
    if hi > 1 { MessagesAre(log, hi - 1); }
  }

  /** A peer has pushed exactly the non-nil commands of its log through lastApplied, each once and in order. */
  lemma AppliedExactly(peers: seq<NodeId>, steps: seq<Step>, a: NodeId)
    requires NoRepeats(peers) && a in peers
    ensures var n := NodeAt(peers, steps, |steps|, a);
            && n.lastApplied <= n.commitIndex < |n.log|
            && Increasing(n.applied) && FromLog(n.applied, n.log, n.lastApplied + 1)
            && Complete(n.applied, n.log, n.lastApplied + 1)
  {
    MomentInv(peers, steps, |steps|, a);
    var n := NodeAt(peers, steps, |steps|, a);
    MessagesAre(n.log, n.lastApplied + 1);
  }

  /** The streams of two peers, at any two moments: the one that applied less is a prefix of the other. */
  lemma StreamsPrefix(peers: seq<NodeId>, steps: seq<Step>, i: nat, j: nat, a: NodeId, b: NodeId)
    requires NoRepeats(peers) && i <= j <= |steps| && a in peers && b in peers
    ensures var n, m := NodeAt(peers, steps, i, a), NodeAt(peers, steps, j, b);
            && (n.lastApplied <= m.lastApplied ==> n.applied <= m.applied)
            && (m.lastApplied <= n.lastApplied ==> m.applied <= n.applied)
  {
    AppliedIs(peers, steps, i, a);
    AppliedIs(peers, steps, j, b);
    var n, m := NodeAt(peers, steps, i, a), NodeAt(peers, steps, j, b);
    StateMachineSafety(peers, steps, i, j, a, b, Min(n.lastApplied, m.lastApplied));
    if n.lastApplied <= m.lastApplied { PrefixOf(n.log, m.log, n.lastApplied, m.lastApplied); }
    if m.lastApplied <= n.lastApplied { PrefixOf(m.log, n.log, m.lastApplied, n.lastApplied); }
  }

  lemma AppliedIs(peers: seq<NodeId>, steps: seq<Step>, i: nat, a: NodeId)
    requires NoRepeats(peers) && i <= |steps| && a in peers
    ensures var n := NodeAt(peers, steps, i, a);
            n.lastApplied <= n.commitIndex < |n.log| && n.applied == Messages(n.log, 1, n.lastApplied + 1)
  {
    MomentInv(peers, steps, i, a);
  }

  lemma PrefixOf(x: seq<Entry>, y: seq<Entry>, p: nat, q: nat)
    requires p <= q < |y| && p < |x| && x[..p + 1] == y[..p + 1]
    ensures Messages(x, 1, p + 1) <= Messages(y, 1, q + 1)
  {
    assert AgreeThrough(x, y, p) by {
      assert forall i :: 0 <= i <= p ==> x[i] == x[..p + 1][i] && y[i] == y[..p + 1][i];
    }
    SameMessages(x, y, 1, p + 1);
    MessagesSplit(y, 1, p + 1, q + 1);
  }

  /** Streams that end at the same index are equal. */
  lemma SameLastSameStream(peers: seq<NodeId>, steps: seq<Step>, a: NodeId, b: NodeId)
    requires NoRepeats(peers) && a in peers && b in peers
    requires var x, y := NodeAt(peers, steps, |steps|, a).applied, NodeAt(peers, steps, |steps|, b).applied;
             x != [] && y != [] && x[|x| - 1].index == y[|y| - 1].index
    ensures NodeAt(peers, steps, |steps|, a).applied == NodeAt(peers, steps, |steps|, b).applied
  {
    StreamsPrefix(peers, steps, |steps|, |steps|, a, b);
    AppliedExactly(peers, steps, a);
    AppliedExactly(peers, steps, b);
  }

  // ----- what an acknowledgement means -----

  /**
   Peer `a`, leader after step `i`, is given a command; Start answers with an index and a term. Later peer `b` has
   applied that index. The entry there is the proposed one exactly when it carries the term Start returned, and then
   every peer that ever commits that index holds it too.
   */
  lemma AckedEntrySurvives(peers: seq<NodeId>, steps: seq<Step>, i: nat, a: NodeId, command: Command,
                           j: nat, b: NodeId, k: nat, d: NodeId)
    requires NoRepeats(peers) && i < j <= k <= |steps| && a in peers && b in peers && d in peers
    requires steps[i] == Propose(a, command) && NodeAt(peers, steps, i, a).role == Leader
    requires |NodeAt(peers, steps, i, a).log| <= NodeAt(peers, steps, j, b).lastApplied
    ensures var index, term := |NodeAt(peers, steps, i, a).log|, NodeAt(peers, steps, i, a).currentTerm;
            var n, m := NodeAt(peers, steps, j, b), NodeAt(peers, steps, k, d);
            && index < |n.log|
            && (n.log[index] == Entry(term, index, command) <==> n.log[index].term == term)
            && (n.log[index].term == term && index <= m.commitIndex ==>
                  index < |m.log| && m.log[index] == Entry(term, index, command))
  {
    var index := |NodeAt(peers, steps, i, a).log|;
    MomentInv(peers, steps, j, b);
    MomentInv(peers, steps, k, d);
    ProposedEntry(peers, steps, i, a, command);
    var x, y := NodeAt(peers, steps, i + 1, a).log, NodeAt(peers, steps, j, b).log;
    if y[index].term == x[index].term {
      LogMatching(peers, steps, i + 1, j, a, b, index);
      assert x[index] == x[..index + 1][index] == y[..index + 1][index] == y[index];
      if index <= NodeAt(peers, steps, k, d).commitIndex {
        StateMachineSafety(peers, steps, j, k, b, d, index);
        var z := NodeAt(peers, steps, k, d).log;
        assert y[index] == y[..index + 1][index] == z[..index + 1][index] == z[index];
      }
    }
  }

  lemma ProposedEntry(peers: seq<NodeId>, steps: seq<Step>, i: nat, a: NodeId, command: Command)
    requires NoRepeats(peers) && i < |steps| && a in peers
    requires steps[i] == Propose(a, command) && NodeAt(peers, steps, i, a).role == Leader
    ensures var n, m := NodeAt(peers, steps, i, a), NodeAt(peers, steps, i + 1, a);
            && m.log == n.log + [Entry(n.currentTerm, |n.log|, command)]
            && m.role == Leader && m.currentTerm == n.currentTerm
  {
    MomentInv(peers, steps, i, a);
    assert steps[..i + 1][..i] == steps[..i];
    ProposeAppends(Run(peers, steps[..i]), a, command);
  }

  lemma ProposeAppends(c: Cluster, a: NodeId, command: Command)
    requires a in c.nodes && c.nodes[a].role == Leader && Indexed(c.nodes[a].log)
    ensures var n, c' := c.nodes[a], Exec(c, Propose(a, command));
            && a in c'.nodes && c'.nodes[a].log == n.log + [Entry(n.currentTerm, |n.log|, command)]
            && c'.nodes[a].role == Leader && c'.nodes[a].currentTerm == n.currentTerm
  {
  }

  lemma AckedStays(h: History, h': History, a: NodeId, n: Node, k: nat)
    requires var t := n.currentTerm;
             && t in h.termLog && 0 < k < |h.termLog[t]| && k <= Acked(h', a, t)
             && LogGrows(h, h', t) && AckAt(h', a, n, t)
    ensures k < |n.log| && n.log[k] == h.termLog[n.currentTerm][k]
  {
  }

  /** While the proposing peer stays in the term Start returned, the proposed entry stays where Start said. */
  lemma EntryKeptInTerm(peers: seq<NodeId>, steps: seq<Step>, i: nat, a: NodeId, command: Command, j: nat)
    requires NoRepeats(peers) && i < j <= |steps| && a in peers
    requires steps[i] == Propose(a, command) && NodeAt(peers, steps, i, a).role == Leader
    requires NodeAt(peers, steps, j, a).currentTerm == NodeAt(peers, steps, i, a).currentTerm
    ensures var n, m := NodeAt(peers, steps, i, a), NodeAt(peers, steps, j, a);
            |n.log| < |m.log| && m.log[|n.log|] == Entry(n.currentTerm, |n.log|, command)
  {
    var n, t := NodeAt(peers, steps, i, a), NodeAt(peers, steps, i, a).currentTerm;
    ProposedEntry(peers, steps, i, a, command);
    MomentInv(peers, steps, i + 1, a);
    MomentInv(peers, steps, j, a);
    RunAcks(peers, steps, i + 1, j, a, t);
    RunLater(peers, steps, i + 1, j);
    var h, h' := RunHistory(peers, steps[..i + 1]), RunHistory(peers, steps[..j]);
    assert LogGrows(h, h', t) && AckAt(h', a, NodeAt(peers, steps, j, a), t);
    AckedStays(h, h', a, NodeAt(peers, steps, j, a), |n.log|);
  }
}
