/**
 What sending entries answers and changes, on both sides and over any run, in terms of logs and acknowledgements rather
 than of the functions that compute it.
 */
module RaftAppendRules {
  import opened Sequences
  import opened RaftNode
  import opened RaftCluster
  import opened RaftInvariant
  import opened RaftReplication
  import opened RaftAppend
  import opened RaftSafety
  import opened RaftVoteRules

  // ----- committing by counting -----

  /** The peers of `peers` known to hold index `k`: the leader, and those whose matchIndex reaches it. */
  ghost function Holders(n: Node, me: NodeId, peers: seq<NodeId>, k: nat): set<NodeId> {
    set p | p in peers && (p == me || At(n.matchIndex, p) >= k)
  }

  lemma OneMoreHolder(n: Node, me: NodeId, rest: seq<NodeId>, last: NodeId, k: nat)
    requires last !in rest
    ensures |Holders(n, me, rest + [last], k) - {me}| ==
              |Holders(n, me, rest, k) - {me}| + if last != me && At(n.matchIndex, last) >= k then 1 else 0
  {
    var a, b := Holders(n, me, rest, k) - {me}, Holders(n, me, rest + [last], k) - {me};
    if last != me && At(n.matchIndex, last) >= k {
      assert b == a + {last};
    } else {
      assert b == a;
    }
  }

  lemma OneMoreReplica(n: Node, me: NodeId, rest: seq<NodeId>, last: NodeId, k: nat)
    ensures Replicas(n.matchIndex, me, rest + [last], k) ==
              Replicas(n.matchIndex, me, rest, k) + if last != me && At(n.matchIndex, last) >= k then 1 else 0
  {
    assert (rest + [last])[..|rest|] == rest;
  }

  lemma {:induction false} ReplicasAre(n: Node, me: NodeId, peers: seq<NodeId>, k: nat)
    requires NoRepeats(peers)
    ensures Replicas(n.matchIndex, me, peers, k) == |Holders(n, me, peers, k) - {me}|
  {
    if peers == [] {
      assert Holders(n, me, peers, k) - {me} == {};
    } else {
      var rest, last := peers[..|peers| - 1], peers[|peers| - 1];
      ReplicasAre(n, me, rest, k);
      assert forall i :: 0 <= i < |rest| ==> rest[i] == peers[i] != last;
      OneMoreHolder(n, me, rest, last, k);
      OneMoreReplica(n, me, rest, last, k);
      assert peers == rest + [last];
    }
  }

  /** Index `k` may be committed by counting: an entry of the leader's own term that a majority is known to hold. */
  ghost predicate Held(n: Node, me: NodeId, peers: seq<NodeId>, k: nat) {
    k < |n.log| && n.log[k].term == n.currentTerm && |Holders(n, me, peers, k)| >= |peers| / 2 + 1
  }

  lemma HeldIs(n: Node, me: NodeId, peers: seq<NodeId>, k: nat)
    requires NoRepeats(peers) && me in peers && k < |n.log|
    ensures Held(n, me, peers, k) <==> Committable(n, me, peers, k)
  {
    ReplicasAre(n, me, peers, k);
    var s := Holders(n, me, peers, k);
    assert s == (s - {me}) + {me};
  }

  lemma CommitIs(n: Node, me: NodeId, peers: seq<NodeId>)
    requires NoRepeats(peers) && me in peers && |n.log| > 0
    ensures var n' := AdvanceCommit(n, me, peers);
            && n' == n.(commitIndex := n'.commitIndex)
            && (n'.commitIndex == n.commitIndex ||
               (n'.commitIndex > n.commitIndex && Held(n, me, peers, n'.commitIndex)))
            && forall k: nat :: Held(n, me, peers, k) ==> k <= n'.commitIndex
  {
    var n' := AdvanceCommit(n, me, peers);
    BestCommitIs(n, me, peers, |n.log| - 1);
    if n'.commitIndex > n.commitIndex { HeldIs(n, me, peers, n'.commitIndex); }
    forall k: nat | Held(n, me, peers, k) ensures k <= n'.commitIndex { HeldIs(n, me, peers, k); }
  }

  /** A reply the leader acts on: it leads the term the request was sent in, and the reply's term is not later. */
  ghost predicate ActedOn(c: Cluster, m: Message) {
    && m in c.net && m.AppendResponse? && m.dest in c.nodes
    && c.nodes[m.dest].role == Leader && c.nodes[m.dest].currentTerm == m.append.term
    && m.appendReply.term <= c.nodes[m.dest].currentTerm
  }

  /**
   After any run a leader acts on a success. What the follower is known to hold is the most it ever acknowledged, the
   next request starts after what this one carried, and the commit index becomes the largest index of the leader's own
   term that a majority is known to hold, unless it was there already.
   */
  lemma SuccessExactly(peers: seq<NodeId>, steps: seq<Step>, m: Message)
    requires NoRepeats(peers) && ActedOn(Run(peers, steps), m) && m.appendReply.success
    ensures var c' := Exec(Run(peers, steps), Deliver(m));
            m.dest in c'.nodes &&
            var n, n', last := Run(peers, steps).nodes[m.dest], c'.nodes[m.dest],
              m.append.prevLogIndex + |m.append.entries|;
            && c'.nodes == Run(peers, steps).nodes[m.dest := n'] && c'.net == Run(peers, steps).net
            && n'.role == Leader && n'.log == n.log && n'.currentTerm == n.currentTerm
            && At(n'.matchIndex, m.from) == (if last > At(n.matchIndex, m.from) then last else At(n.matchIndex, m.from))
            && At(n'.nextIndex, m.from) == last + 1
            && (forall p :: p != m.from ==>
                  At(n'.matchIndex, p) == At(n.matchIndex, p) && At(n'.nextIndex, p) == At(n.nextIndex, p))
            && (n'.commitIndex == n.commitIndex ||
                (n'.commitIndex > n.commitIndex && Held(n', m.dest, peers, n'.commitIndex)))
            && forall k: nat :: Held(n', m.dest, peers, k) ==> k <= n'.commitIndex
  {
    var c, h := Run(peers, steps), RunHistory(peers, steps);
    RunInv(peers, steps);
    PeersKept(peers, steps);
    assert NodeOK(c, h, m.dest);
    assert m.dest in Elements(peers);
    SuccessIs(c.nodes[m.dest], m.dest, peers, m.from, m.append, m.appendReply);
  }

  lemma SuccessIs(n: Node, me: NodeId, peers: seq<NodeId>, p: NodeId, args: AppendArgs, reply: AppendReply)
    requires NoRepeats(peers) && me in peers && |n.log| > 0 && reply.success && reply.term <= n.currentTerm
    requires n.role == Leader && n.currentTerm == args.term
    ensures var n', last := HandleAppendReply(n, me, peers, p, args, reply), args.prevLogIndex + |args.entries|;
            && n'.role == Leader && n'.log == n.log && n'.currentTerm == n.currentTerm
            && At(n'.matchIndex, p) == (if last > At(n.matchIndex, p) then last else At(n.matchIndex, p))
            && At(n'.nextIndex, p) == last + 1
            && (forall q :: q != p ==>
                  At(n'.matchIndex, q) == At(n.matchIndex, q) && At(n'.nextIndex, q) == At(n.nextIndex, q))
            && (n'.commitIndex == n.commitIndex ||
                (n'.commitIndex > n.commitIndex && Held(n', me, peers, n'.commitIndex)))
            && forall k: nat :: Held(n', me, peers, k) ==> k <= n'.commitIndex
  {
    var last := args.prevLogIndex + |args.entries|;
    var m := n.(matchIndex := if last > At(n.matchIndex, p) then n.matchIndex[p := last] else n.matchIndex,
                nextIndex := n.nextIndex[p := last + 1]);
    var n' := HandleAppendReply(n, me, peers, p, args, reply);
    assert n' == AdvanceCommit(m, me, peers);
    CommitIs(m, me, peers);
    forall k: nat ensures Held(n', me, peers, k) <==> Held(m, me, peers, k) {
      assert Holders(n', me, peers, k) == Holders(m, me, peers, k);
    }
  }

  // ----- the follower's answer -----

  /** Where a run of equal terms that ends at `i` starts. */
  ghost predicate StartsRun(log: seq<Entry>, s: int, i: nat) {
    && 0 <= s <= i < |log| && (forall j :: s <= j <= i ==> log[j].term == log[i].term)
    && (s > 0 ==> log[s - 1].term != log[i].term)
  }

  /** The log after an accepted request: untouched if it has the entries, else cut after prevLogIndex and continued. */
  ghost predicate Adopted(log: seq<Entry>, log': seq<Entry>, prev: nat, entries: seq<Entry>)
    requires prev < |log|
  {
    log' == if entries <= log[prev + 1..] then log else log[..prev + 1] + entries
  }

  lemma SpliceExactly(mine: seq<Entry>, prev: nat, entries: seq<Entry>, k: nat)
    requires prev + k < |mine| && k <= |entries|
    requires forall i :: 0 <= i < k ==> mine[prev + 1 + i] == entries[i]
    requires k < |entries| && prev + 1 + k < |mine| ==> mine[prev + 1 + k] != entries[k]
    ensures Adopted(mine, Splice(mine, prev, entries, k), prev, entries)
  {
    var tail := mine[prev + 1..];
    if k == |entries| {
      assert entries <= tail;
    } else {
      assert k < |tail| ==> tail[k] != entries[k];
      assert mine[..prev + 1 + k] + entries[k..] == mine[..prev + 1] + entries;
    }
  }

  lemma MergeExactly(h: History, log: seq<Entry>, mine: seq<Entry>, prev: nat, entries: seq<Entry>)
    requires Shape(log) && Shape(mine) && Matches(h, log) && Matches(h, mine) && Fits(log, mine, prev, entries)
    ensures Adopted(mine, Merge(mine, prev, entries), prev, entries)
  {
    var k := Agreeing(mine, prev + 1, entries);
    AgreeingTerms(log, mine, prev, entries);
    SameTermSameLog(h, mine, log, prev + k);
    assert forall i :: 0 <= i < k ==> mine[prev + 1 + i] == log[prev + 1 + i] == entries[i];
    SpliceExactly(mine, prev, entries, k);
  }

  /** The answer `reply` and the new state `n'` of a follower in state `n`. */
  ghost predicate AnswersAppend(n: Node, args: AppendArgs, n': Node, reply: AppendReply) {
    var prev := args.prevLogIndex;
    && n'.lastApplied == n.lastApplied && n'.applied == n.applied
    && (reply.success <==> args.term >= n.currentTerm && prev < |n.log| && n.log[prev].term == args.prevLogTerm)
    && if args.term < n.currentTerm then n' == n && reply.term == n.currentTerm
       else
         && n'.role == Follower && n'.currentTerm == reply.term == args.term
         && if reply.success then
              && Adopted(n.log, n'.log, prev, args.entries)
              && n'.commitIndex == if args.leaderCommit > n.commitIndex then args.leaderCommit else n.commitIndex
            else
              && n'.log == n.log && n'.commitIndex == n.commitIndex
              && if prev >= |n.log| then reply.conflictTerm == -1 && reply.conflictIndex == |n.log|
                 else reply.conflictTerm == n.log[prev].term && StartsRun(n.log, reply.conflictIndex, prev)
  }

  lemma RefusalIs(n: Node, args: AppendArgs)
    requires |n.log| > 0
    requires args.prevLogIndex < |n.log| && args.term >= n.currentTerm ==>
               n.log[args.prevLogIndex].term != args.prevLogTerm
    ensures AnswersAppend(n, args, HandleAppend(n, args).0, HandleAppend(n, args).1)
  {
    if args.prevLogIndex < |n.log| { RunStartIs(n.log, args.prevLogIndex); }
  }

  lemma AcceptanceIs(c: Cluster, h: History, n: Node, args: AppendArgs)
    requires HistoryOK(c, h) && LogOK(h, n) && AppendArgsOK(h, args) && args.term >= n.currentTerm
    requires args.prevLogIndex < |n.log| && n.log[args.prevLogIndex].term == args.prevLogTerm
    ensures AnswersAppend(n, args, HandleAppend(n, args).0, HandleAppend(n, args).1)
  {
    assert TermOK(c, h, args.term);
    var log := h.termLog[args.term];
    MergeExactly(h, log, n.log, args.prevLogIndex, args.entries);
    MergeAgrees(h, log, n.log, args.prevLogIndex, args.entries);
    AcceptedAnswer(n, args);
  }

  lemma AcceptedAnswer(n: Node, args: AppendArgs)
    requires |n.log| > 0 && args.term >= n.currentTerm && args.leaderCommit <= args.prevLogIndex + |args.entries|
    requires args.prevLogIndex < |n.log| && n.log[args.prevLogIndex].term == args.prevLogTerm
    requires var log := Merge(n.log, args.prevLogIndex, args.entries);
             Adopted(n.log, log, args.prevLogIndex, args.entries) && args.prevLogIndex + |args.entries| < |log|
    ensures AnswersAppend(n, args, HandleAppend(n, args).0, HandleAppend(n, args).1)
  {
    AcceptedIs(n, args);
  }

  lemma AnswerIs(c: Cluster, h: History, n: Node, args: AppendArgs)
    requires HistoryOK(c, h) && LogOK(h, n) && AppendArgsOK(h, args)
    ensures AnswersAppend(n, args, HandleAppend(n, args).0, HandleAppend(n, args).1)
  {
    if args.term >= n.currentTerm && args.prevLogIndex < |n.log| &&
       n.log[args.prevLogIndex].term == args.prevLogTerm {
      AcceptanceIs(c, h, n, args);
    } else {
      RefusalIs(n, args);
    }
  }

  /**
   After any run a request to append reaches a peer. It is accepted if and only if its term is not earlier and the
   peer's log has an entry of PrevLogTerm at PrevLogIndex. Accepted, the new entries follow that entry, and nothing that
   was there already is cut; the commit index moves to the leader's if that is higher. Refused, the answer is the length
   of a log that is too short, or else the term found and where its run starts. A request of the peer's own term or a
   later one makes it a follower of that term.
   */
  lemma AppendExactly(peers: seq<NodeId>, steps: seq<Step>, m: Message)
    requires NoRepeats(peers) && m in Run(peers, steps).net && m.AppendRequest?
    ensures var c, c' := Run(peers, steps), Exec(Run(peers, steps), Deliver(m));
            && m.dest in c.nodes && m.dest in c'.nodes && c'.nodes == c.nodes[m.dest := c'.nodes[m.dest]]
            && exists reply ::
                 && SentInReply(c, m, AppendResponse(m.dest, m.from, m.append, reply))
                 && AnswersAppend(c.nodes[m.dest], m.append, c'.nodes[m.dest], reply)
  {
    var c, h := Run(peers, steps), RunHistory(peers, steps);
    RunInv(peers, steps);
    assert MessageOK(c, h, m);
    assert NodeOK(c, h, m.dest);
    AnswerIs(c, h, c.nodes[m.dest], m.append);
  }

  // ----- the leader acts on a refusal -----

  /** Where the leader resumes: after its last entry of the term the follower found, or, if it has none, where the
      follower said. */
  ghost predicate Resumes(log: seq<Entry>, reply: AppendReply, next: int) {
    if reply.conflictTerm != -1 && exists i :: 0 <= i < |log| && log[i].term == reply.conflictTerm then
      && 1 <= next <= |log| && log[next - 1].term == reply.conflictTerm
      && forall i :: next <= i < |log| ==> log[i].term != reply.conflictTerm
    else next == reply.conflictIndex
  }

  lemma BacktrackIs(log: seq<Entry>, reply: AppendReply)
    ensures Resumes(log, reply, Backtrack(log, reply))
  {
    LastOfTermIs(log, reply.conflictTerm);
  }

  /** After any run a leader acts on a refusal: it resumes as the hint says, at an earlier index than it probed, and
      nothing else changes. */
  lemma RejectionExactly(peers: seq<NodeId>, steps: seq<Step>, m: Message)
    requires NoRepeats(peers) && ActedOn(Run(peers, steps), m) && !m.appendReply.success
    ensures var c, c' := Run(peers, steps), Exec(Run(peers, steps), Deliver(m));
            && m.dest in c'.nodes && c'.net == c.net
            && var n, n' := c.nodes[m.dest], c'.nodes[m.dest];
               && c'.nodes == c.nodes[m.dest := n.(nextIndex := n.nextIndex[m.from := At(n'.nextIndex, m.from)])]
               && Resumes(n.log, m.appendReply, At(n'.nextIndex, m.from))
               && 1 <= At(n'.nextIndex, m.from) <= m.append.prevLogIndex
  {
    var c, h := Run(peers, steps), RunHistory(peers, steps);
    RunInv(peers, steps);
    assert NodeOK(c, h, m.dest);
    assert MessageOK(c, h, m);
    InvInBounds(c, h, Deliver(m));
    BacktrackBounds(c, h, m.dest, m.append, m.appendReply);
    BacktrackIs(c.nodes[m.dest].log, m.appendReply);
  }

  /** An answer that is not acted on: one of a later term makes the peer a follower of that term, any other changes
      nothing. */
  lemma StaleReplyExactly(peers: seq<NodeId>, steps: seq<Step>, m: Message)
    requires NoRepeats(peers) && m in Run(peers, steps).net && m.AppendResponse? && !ActedOn(Run(peers, steps), m)
    ensures var c, c' := Run(peers, steps), Exec(Run(peers, steps), Deliver(m));
            && m.dest in c.nodes && m.dest in c'.nodes && c'.net == c.net
            && var n, n' := c.nodes[m.dest], c'.nodes[m.dest];
               && c'.nodes == c.nodes[m.dest := n']
               && if m.appendReply.term > n.currentTerm then
                    && n' == n.(role := Follower, currentTerm := m.appendReply.term, votedFor := n'.votedFor)
                    && n'.votedFor == NOBODY
                  else n' == n
  {
    var c, h := Run(peers, steps), RunHistory(peers, steps);
    RunInv(peers, steps);
    assert MessageOK(c, h, m);
    assert NodeOK(c, h, m.dest);
    InvInBounds(c, h, Deliver(m));
  }

  // ----- what a leader knows of itself -----

  ghost predicate KnowsItself(c: Cluster, a: NodeId) {
    a in c.nodes && c.nodes[a].role == Leader ==> At(c.nodes[a].matchIndex, a) == |c.nodes[a].log| - 1
  }

  lemma KnowsItselfStep(c: Cluster, h: History, step: Step, a: NodeId)
    requires Inv(c, h) && Enabled(c, step) && InBounds(c, step) && KnowsItself(c, a)
    ensures KnowsItself(Exec(c, step), a)
  {
    assert NodeOK(c, h, Actor(step));
    if step.Deliver? { assert MessageOK(c, h, step.msg); }
    StepKnows(c, step, a);
  }

  lemma StepKnows(c: Cluster, step: Step, a: NodeId)
    requires Enabled(c, step) && InBounds(c, step) && KnowsItself(c, a) && Indexed(c.nodes[Actor(step)].log)
    requires step.Deliver? ==> step.msg.from != step.msg.dest
    ensures KnowsItself(Exec(c, step), a)
  {
  }

  /** In every reachable state a leader's own matchIndex is its last index. */
  lemma {:induction false} OwnMatchIndex(peers: seq<NodeId>, steps: seq<Step>, a: NodeId)
    requires NoRepeats(peers)
    ensures KnowsItself(Run(peers, steps), a)
  {
    if steps == [] {
    } else {
      var before, step := steps[..|steps| - 1], steps[|steps| - 1];
      OwnMatchIndex(peers, before, a);
      RunInv(peers, before);
      var c, h := Run(peers, before), RunHistory(peers, before);
      if Enabled(c, step) && InBounds(c, step) { KnowsItselfStep(c, h, step, a); }
    }
  }
}
