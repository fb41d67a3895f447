/**
 Handling AppendEntries keeps the invariant: what the follower truncates was never acknowledged and
 can never be chosen, and what it commits is the leader's.
 */
module RaftAppend {
  import opened RaftNode
  import opened RaftCluster
  import opened RaftInvariant
  import opened RaftFrame
  import opened RaftAssemble

  // ----- what merging does to a log -----

  /** Entries at the same index with the same term are the same, and so is everything before them. */
  lemma SameTermSameLog(h: History, a: seq<Entry>, b: seq<Entry>, i: nat)
    requires Shape(a) && Shape(b) && Matches(h, a) && Matches(h, b)
    requires i < |a| && i < |b| && a[i].term == b[i].term
    ensures AgreeThrough(a, b, i)
  {
    if i > 0 { assert MatchesAt(h, a, i) && MatchesAt(h, b, i); }
  }

  /** The request is a slice of `log`, and the follower's log passes its consistency check. */
  ghost predicate Fits(log: seq<Entry>, mine: seq<Entry>, prev: nat, entries: seq<Entry>) {
    && prev + |entries| < |log| && prev < |mine| && mine[prev].term == log[prev].term
    && forall i :: 0 <= i < |entries| ==> entries[i] == log[prev + 1 + i]
  }

  /** The merged log agrees with the leader's through the last new entry, and is either untouched or
      a prefix of the leader's log. */
  lemma MergeAgrees(h: History, log: seq<Entry>, mine: seq<Entry>, prev: nat, entries: seq<Entry>)
    requires Shape(log) && Shape(mine) && Matches(h, log) && Matches(h, mine) && Fits(log, mine, prev, entries)
    ensures var m := Merge(mine, prev, entries);
            && AgreeThrough(m, log, prev + |entries|)
            && (m == mine || |m| == prev + 1 + |entries|)
  {
    var k := Agreeing(mine, prev + 1, entries);
    AgreeingTerms(log, mine, prev, entries);
    SameTermSameLog(h, mine, log, prev + k);
    Spliced(log, mine, prev, entries, k);
  }

  lemma AgreeingTerms(log: seq<Entry>, mine: seq<Entry>, prev: nat, entries: seq<Entry>)
    requires Fits(log, mine, prev, entries)
    ensures var i := prev + Agreeing(mine, prev + 1, entries); i < |mine| && i < |log| && mine[i].term == log[i].term
  {
    var k := Agreeing(mine, prev + 1, entries);
    assert k > 0 ==> mine[prev + 1 + (k - 1)].term == entries[k - 1].term == log[prev + 1 + (k - 1)].term;
  }

  lemma Spliced(log: seq<Entry>, mine: seq<Entry>, prev: nat, entries: seq<Entry>, k: nat)
    requires prev + |entries| < |log| && k <= |entries| && AgreeThrough(mine, log, prev + k)
    requires forall i :: 0 <= i < |entries| ==> entries[i] == log[prev + 1 + i]
    ensures var m := Splice(mine, prev, entries, k);
            && AgreeThrough(m, log, prev + |entries|)
            && (m == mine || |m| == prev + 1 + |entries|)
  {
    if k < |entries| {
      var m := Splice(mine, prev, entries, k);
      forall i | 0 <= i <= prev + |entries|
        ensures m[i] == log[i]
      {
        if i > prev + k { assert m[i] == entries[i - (prev + 1)]; }
      }
    }
  }

  /** `m` agrees with the leader's log through `last` and wherever `mine` did. */
  ghost predicate Merged(log: seq<Entry>, mine: seq<Entry>, m: seq<Entry>, last: nat) {
    && AgreeThrough(m, log, last)
    && forall j: nat :: AgreeThrough(mine, log, j) ==> AgreeThrough(m, log, j)
  }

  /** Merging adopts the leader's entries and keeps every prefix that already agrees with the leader. */
  lemma MergeKeeps(h: History, log: seq<Entry>, mine: seq<Entry>, prev: nat, entries: seq<Entry>)
    requires Shape(log) && Shape(mine) && Matches(h, log) && Matches(h, mine) && Fits(log, mine, prev, entries)
    ensures Merged(log, mine, Merge(mine, prev, entries), prev + |entries|)
  {
    MergeAgrees(h, log, mine, prev, entries);
    Disagreeing(log, mine, prev, entries);
    KeepsAgreeing(log, mine, Merge(mine, prev, entries), prev + |entries|,
                  prev + 1 + Agreeing(mine, prev + 1, entries));
  }

  lemma Disagreeing(log: seq<Entry>, mine: seq<Entry>, prev: nat, entries: seq<Entry>)
    requires Fits(log, mine, prev, entries)
    ensures var q := prev + 1 + Agreeing(mine, prev + 1, entries);
            || Merge(mine, prev, entries) == mine
            || (q <= prev + |entries| && (q < |mine| && q < |log| ==> mine[q] != log[q]))
  {
    var k := Agreeing(mine, prev + 1, entries);
    assert k < |entries| ==> entries[k] == log[prev + 1 + k];
  }

  lemma KeepsAgreeing(log: seq<Entry>, mine: seq<Entry>, m: seq<Entry>, last: nat, q: nat)
    requires AgreeThrough(m, log, last)
    requires m == mine || (q <= last && (q < |mine| && q < |log| ==> mine[q] != log[q]))
    ensures Merged(log, mine, m, last)
  {
    forall j: nat | AgreeThrough(mine, log, j) ensures AgreeThrough(m, log, j) {
      assert m != mine ==> j < q;
    }
  }

  lemma MergeShape(h: History, log: seq<Entry>, mine: seq<Entry>, prev: nat, entries: seq<Entry>)
    requires Shape(log) && Shape(mine) && Matches(h, log) && Matches(h, mine) && Fits(log, mine, prev, entries)
    ensures var m := Merge(mine, prev, entries);
            Shape(m) && Matches(h, m) && (Last(m).term <= Last(mine).term || Last(m).term <= Last(log).term)
  {
    MergeAgrees(h, log, mine, prev, entries);
    var m := Merge(mine, prev, entries);
    if m != mine {
      PrefixShape(h, log, m);
    }
  }

  lemma PrefixShape(h: History, log: seq<Entry>, m: seq<Entry>)
    requires Shape(log) && Matches(h, log) && |m| > 0 && AgreeThrough(m, log, |m| - 1)
    ensures Shape(m) && Matches(h, m) && Last(m).term <= Last(log).term
  {
    forall i, j
      ensures Ordered(m, i, j)
    {
      assert Ordered(log, i, j);
    }
    forall i | 1 <= i < |m|
      ensures MatchesAt(h, m, i)
    {
      assert MatchesAt(h, log, i);
    }
    assert Ordered(log, |m| - 1, |log| - 1);
  }

  // ----- the step -----

  lemma AppendRequestStep(c: Cluster, h: History, step: Step)
    requires Inv(c, h) && step.Deliver? && step.msg.AppendRequest? && Enabled(c, step) && InBounds(c, step)
    ensures Inv(Exec(c, step), Record(c, h, step))
  {
    var a, c', h' := Actor(step), Exec(c, step), Record(c, h, step);
    assert NodeOK(c, h, a) && MessageOK(c, h, step.msg);
    AppendRequested(c, h, c', h', a, step.msg.from, step.msg.append);
  }

  lemma AppendRequested(c: Cluster, h: History, c': Cluster, h': History, a: NodeId, from: NodeId, args: AppendArgs)
    requires Inv(c, h) && a in c.nodes && from in c.nodes && a != from && NodeOK(c, h, a) && AppendArgsOK(h, args)
    requires c' == c.(nodes := c.nodes[a := HandleAppend(c.nodes[a], args).0],
                      net := c.net + {AppendResponse(a, from, args, HandleAppend(c.nodes[a], args).1)})
    requires h' == if Accepts(c.nodes[a], args) then Ack(h, a, args.term, args.prevLogIndex + |args.entries|) else h
    ensures Inv(c', h')
  {
    if Accepts(c.nodes[a], args) {
      AcceptedIs(c.nodes[a], args);
      Appended(c, h, c', h', a, from, args, HandleAppend(c.nodes[a], args).1);
    } else {
      Refused(c, h, c', a, from, args);
    }
  }

  /** A refusal changes at most the term and the role, and its hint is usable. */
  lemma Refused(c: Cluster, h: History, c': Cluster, a: NodeId, from: NodeId, args: AppendArgs)
    requires Inv(c, h) && a in c.nodes && from in c.nodes && a != from && NodeOK(c, h, a) && AppendArgsOK(h, args)
    requires !Accepts(c.nodes[a], args)
    requires c' == c.(nodes := c.nodes[a := HandleAppend(c.nodes[a], args).0],
                      net := c.net + {AppendResponse(a, from, args, HandleAppend(c.nodes[a], args).1)})
    ensures Inv(c', h)
  {
    var n := c.nodes[a];
    RefusalHint(c, h, n, args);
    QuietStep(c, h, c', a);
  }

  lemma RefusalHint(c: Cluster, h: History, n: Node, args: AppendArgs)
    requires LogOK(h, n) && AppendArgsOK(h, args) && !Accepts(n, args) && TermOK(c, h, args.term)
    ensures var reply := HandleAppend(n, args).1;
            !reply.success && (reply.term <= args.term ==> HintOK(h, args, reply))
  {
    var prev := args.prevLogIndex;
    if args.term >= n.currentTerm && prev < |n.log| {
      assert prev >= 1;
      assert MatchesAt(h, n.log, prev);
      RunStartIs(n.log, prev);
    }
  }

  lemma {:induction false} RunStartIs(log: seq<Entry>, i: nat)
    requires i < |log|
    ensures RunStart(log, i) <= i && log[RunStart(log, i)].term == log[i].term
    ensures forall j :: RunStart(log, i) <= j <= i ==> log[j].term == log[i].term
    ensures RunStart(log, i) > 0 ==> log[RunStart(log, i) - 1].term != log[i].term
  {
    if i > 0 && log[i - 1].term == log[i].term { RunStartIs(log, i - 1); }
  }

  lemma Appended(c: Cluster, h: History, c': Cluster, h': History, a: NodeId, from: NodeId, args: AppendArgs,
                 reply: AppendReply)
    requires Inv(c, h) && a in c.nodes && from in c.nodes && a != from && AppendArgsOK(h, args)
    requires Accepts(c.nodes[a], args)
    requires a in c'.nodes && c'.peers == c.peers && c'.nodes == c.nodes[a := c'.nodes[a]]
    requires c'.net == c.net + {AppendResponse(a, from, args, reply)} && reply.success
    requires IsAppended(c.nodes[a], c'.nodes[a], args)
    requires c'.nodes[a].log == Merge(c.nodes[a].log, args.prevLogIndex, args.entries)
    requires h' == Ack(h, a, args.term, args.prevLogIndex + |args.entries|)
    ensures Inv(c', h')
  {
    assert NodeOK(c, h, a) && TermOK(c, h, args.term);
    SentinelsFirst(c, h);
    AckExtends(c, h, c', h', a, args.prevLogIndex + |args.entries|);
    AppendedLog(c, h, c.nodes[a], c'.nodes[a], args);
    AppendedNode(c, h, c', h', a, args);
    AppendedReply(c, h, c', h', a, from, args, reply);
    Assemble(c, h, c', h', a);
  }

  lemma AckExtends(c: Cluster, h: History, c': Cluster, h': History, a: NodeId, k: nat)
    requires c'.peers == c.peers && a in c.nodes && a in c'.nodes && c'.nodes == c.nodes[a := c'.nodes[a]]
    requires c.nodes[a].currentTerm <= c'.nodes[a].currentTerm && SentinelFirst(h)
    requires h' == Ack(h, a, c'.nodes[a].currentTerm, k)
    ensures Extends(c, h, c', h', a) && NewTermsOK(c', h, h') && NewVotesOK(c', h, h') && SentinelFirst(h')
  {
    assert c'.nodes.Keys == c.nodes.Keys;
    forall t
      ensures LogGrows(h, h', t) && SentinelAt(h', t)
    {
      assert SentinelAt(h, t);
    }
  }

  lemma AppendedReply(c: Cluster, h: History, c': Cluster, h': History, a: NodeId, from: NodeId, args: AppendArgs,
                      reply: AppendReply)
    requires Extends(c, h, c', h', a) && a in c.nodes && from in c.nodes && a != from && AppendArgsOK(h, args)
    requires c'.net == c.net + {AppendResponse(a, from, args, reply)} && reply.success
    requires Acked(h', a, args.term) >= args.prevLogIndex + |args.entries|
    ensures NewMessagesOK(c, c', h')
  {
    OldArgs(c, h, c', h', a, args);
  }

  /** The follower's fields after an accepted request. */
  ghost predicate IsAppended(n: Node, n': Node, args: AppendArgs) {
    && args.term >= n.currentTerm && n'.currentTerm == args.term && n'.role == Follower
    && n'.lastApplied == n.lastApplied && n'.applied == n.applied
    && n'.commitIndex == (if args.leaderCommit <= n.commitIndex then n.commitIndex
                          else if args.leaderCommit < |n'.log| then args.leaderCommit
                          else |n'.log| - 1)
    && (n'.currentTerm == n.currentTerm ==> n'.votedFor == n.votedFor)
    && (n'.currentTerm > n.currentTerm ==> n'.votedFor == NOBODY)
  }

  lemma AcceptedIs(n: Node, args: AppendArgs)
    requires |n.log| > 0 && Accepts(n, args)
    ensures IsAppended(n, HandleAppend(n, args).0, args) && HandleAppend(n, args).1.success
    ensures HandleAppend(n, args).0.log == Merge(n.log, args.prevLogIndex, args.entries)
  {
  }

  /** What an accepted request leaves the follower with. */
  lemma AppendedNode(c: Cluster, h: History, c': Cluster, h': History, a: NodeId, args: AppendArgs)
    requires Inv(c, h) && Extends(c, h, c', h', a) && SentinelFirst(h') && a in c.nodes && NodeOK(c, h, a)
    requires AppendArgsOK(h, args) && IsAppended(c.nodes[a], c'.nodes[a], args) && TermOK(c, h, args.term)
    requires Merged(h.termLog[args.term], c.nodes[a].log, c'.nodes[a].log, args.prevLogIndex + |args.entries|)
    requires LogOK(h, c'.nodes[a]) && h' == Ack(h, a, args.term, args.prevLogIndex + |args.entries|)
    ensures NodeOK(c', h', a)
  {
    var n, n' := c.nodes[a], c'.nodes[a];
    MatchesKept(h, h', a, n'.currentTerm, n'.log);
    CommittedAgrees(c, h, n, args.term);
    AppendedCommit(h, h', n, n', args);
    AppendedAcks(h, h', a, n, n', args);
    AppendedKept(c, h, c', h', a, args);
    AppendedVotes(h, h', a, n, n', args);
  }

  /** The follower's new log, seen from the leader's. */
  lemma AppendedLog(c: Cluster, h: History, n: Node, n': Node, args: AppendArgs)
    requires LogOK(h, n) && AppendArgsOK(h, args) && TermOK(c, h, args.term) && Accepts(n, args)
    requires n'.log == Merge(n.log, args.prevLogIndex, args.entries) && n'.currentTerm == args.term
    ensures LogOK(h, n') && Merged(h.termLog[args.term], n.log, n'.log, args.prevLogIndex + |args.entries|)
  {
    var log := h.termLog[args.term];
    assert Fits(log, n.log, args.prevLogIndex, args.entries);
    MergeShape(h, log, n.log, args.prevLogIndex, args.entries);
    MergeKeeps(h, log, n.log, args.prevLogIndex, args.entries);
  }

  lemma AppendedVotes(h: History, h': History, a: NodeId, n: Node, n': Node, args: AppendArgs)
    requires VotesOK(h, a, n) && h'.votes == h.votes && IsAppended(n, n', args)
    ensures VotesOK(h', a, n')
  {
  }

  /** Whatever a peer has committed, every leader of its term or a later one holds. */
  lemma CommittedAgrees(c: Cluster, h: History, n: Node, t: nat)
    requires HistoryOK(c, h) && CommitOK(h, n) && n.currentTerm <= t && t in h.termLog && Shape(n.log)
    ensures AgreeThrough(n.log, h.termLog[t], n.commitIndex)
  {
    assert TermOK(c, h, t);
    if n.commitIndex != 0 {
      var e :| e in h.commits && CoveredBy(h, n.log, n.commitIndex, n.currentTerm, e);
      assert CommitEntryOK(c, h, e);
      if e.0 < t {
        Subset(Ackers(c, h, e.0, e.1), Possible(c, h, e.0, e.1));
        assert Inherits(c, h, e.0, t) && InheritsAt(c, h, e.0, t, e.1);
      }
    }
  }

  /** The follower never truncates what it committed, and commits nothing but the leader's prefix. */
  lemma AppendedCommit(h: History, h': History, n: Node, n': Node, args: AppendArgs)
    requires AppendArgsOK(h, args) && IsAppended(n, n', args) && CommitOK(h, n)
    requires Merged(h.termLog[args.term], n.log, n'.log, args.prevLogIndex + |args.entries|)
    requires AgreeThrough(n.log, h.termLog[args.term], n.commitIndex)
    requires h'.commits == h.commits && h'.termLog == h.termLog
    ensures CommitOK(h', n')
  {
    var log := h.termLog[args.term];
    SameMessages(n.log, n'.log, 1, n.lastApplied + 1);
    if args.leaderCommit > n.commitIndex {
      assert n'.commitIndex == args.leaderCommit;
      CommittedCopy(h, h', log, n'.log, args.leaderCommit, args.term, n'.currentTerm);
    } else {
      CommittedCopy(h, h', n.log, n'.log, n.commitIndex, n.currentTerm, n'.currentTerm);
    }
  }

  lemma CommittedCopy(h: History, h': History, log: seq<Entry>, log': seq<Entry>, k: nat, t: nat, t': nat)
    requires Committed(h, log, k, t) && AgreeThrough(log, log', k) && t <= t'
    requires h'.commits == h.commits && h'.termLog == h.termLog
    ensures Committed(h', log', k, t')
  {
    if k != 0 {
      var e :| e in h.commits && CoveredBy(h, log, k, t, e);
      assert CoveredBy(h', log', k, t', e);
    }
  }

  lemma AppendedAcks(h: History, h': History, a: NodeId, n: Node, n': Node, args: AppendArgs)
    requires AcksOK(h, a, n) && AppendArgsOK(h, args) && IsAppended(n, n', args)
    requires Merged(h.termLog[args.term], n.log, n'.log, args.prevLogIndex + |args.entries|)
    requires h' == Ack(h, a, args.term, args.prevLogIndex + |args.entries|)
    ensures AcksOK(h', a, n')
  {
    forall t: nat
      ensures AckAt(h', a, n', t)
    {
      assert AckAt(h, a, n, t);
    }
  }

  /** What the follower acknowledged to earlier leaders and may still be chosen stays in its log. */
  lemma AppendedKept(c: Cluster, h: History, c': Cluster, h': History, a: NodeId, args: AppendArgs)
    requires HistoryOK(c, h) && Extends(c, h, c', h', a) && SentinelFirst(h')
    requires AcksOK(h, a, c.nodes[a]) && Kept(c, h, a, c.nodes[a].log) && AcksOK(h', a, c'.nodes[a])
    requires args.term in h.termLog && IsAppended(c.nodes[a], c'.nodes[a], args)
    requires Merged(h.termLog[args.term], c.nodes[a].log, c'.nodes[a].log, args.prevLogIndex + |args.entries|)
    requires h' == Ack(h, a, args.term, args.prevLogIndex + |args.entries|)
    ensures Kept(c', h', a, c'.nodes[a].log)
  {
    var n, n', log := c.nodes[a], c'.nodes[a], h.termLog[args.term];
    forall t: nat, k: nat
      ensures KeptAt(c', h', a, n'.log, t, k)
    {
      if Own(h', t, k) && k <= Acked(h', a, t) && Choosable(c', h', t, k) {
        assert SentinelAt(h', t) && AckAt(h', a, n', t);
        if t != args.term {
          ChoosableShrinks(c, h, c', h', a, t, k);
          assert AckAt(h, a, n, t) && KeptAt(c, h, a, n.log, t, k);
          KeptInherited(c, h, n.log, t, args.term, k);
        }
      }
    }
  }

  /** What a log keeps of term `t`, the log of every later term has inherited. */
  lemma KeptInherited(c: Cluster, h: History, log: seq<Entry>, t: nat, u: nat, k: nat)
    requires HistoryOK(c, h) && t < u && u in h.termLog && Own(h, t, k) && Choosable(c, h, t, k)
    requires AgreeThrough(log, h.termLog[t], k)
    ensures AgreeThrough(log, h.termLog[u], k)
  {
    assert Inherits(c, h, t, u) && InheritsAt(c, h, t, u, k);
  }
}
