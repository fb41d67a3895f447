/**
 The Go `Raft` struct and its methods, with the loops the code runs. Each method is proved to do to
 the struct exactly what the function of the same step does to a `Node`, so the theorems about runs of
 the group are theorems about this code.
 */
module RaftPeer {
  import opened RaftNode

  class Raft {
    const me: NodeId
    const peers: seq<NodeId>

    var currentTerm: nat
    var votedFor: int
    var log: seq<Entry>
    var role: Role
    var commitIndex: nat
    var lastApplied: nat
    var nextIndex: map<NodeId, nat>
    var matchIndex: map<NodeId, nat>

    // the running election: the counter its goroutines share and the peers not heard from
    var votes: nat
    var awaiting: set<NodeId>

    // everything pushed to applyCh
    var applied: seq<ApplyMsg>

    ghost function State(): Node
      reads this
    {
      Node(currentTerm, votedFor, log, role, commitIndex, lastApplied, nextIndex, matchIndex, votes, awaiting, applied)
    }

    constructor (me: NodeId, peers: seq<NodeId>)
      ensures State() == FRESH && this.me == me && this.peers == peers
    {
      this.me, this.peers := me, peers;
      currentTerm, votedFor, log, role := 0, NOBODY, [SENTINEL], Follower;
      commitIndex, lastApplied, nextIndex, matchIndex := 0, 0, map[], map[];
      votes, awaiting, applied := 0, {}, [];
    }

    // ----- elections -----

    method BecomeFollower(term: nat)
      modifies this
      ensures State() == RaftNode.BecomeFollower(old(State()), term)
    {
      role := Follower;
      currentTerm := term;
      votedFor := NOBODY;
    }

    /** The locked part of startElection, with the request its goroutines send. */
    method StartElection() returns (args: VoteArgs)
      requires |log| > 0
      modifies this
      ensures State() == RaftNode.StartElection(old(State()), me, peers)
      ensures args == VoteRequestOf(State(), me)
    {
      role := Candidate;
      currentTerm := currentTerm + 1;
      votedFor := me;
      votes := 1;
      awaiting := (set p | p in peers) - {me};
      args := VoteArgs(currentTerm, me, log[|log| - 1].index, log[|log| - 1].term);
    }

    method RequestVote(args: VoteArgs) returns (reply: VoteReply)
      requires |log| > 0
      modifies this
      ensures (State(), reply) == HandleVote(old(State()), args)
    {
      if args.term > currentTerm {
        BecomeFollower(args.term);
      }
      if args.term < currentTerm {
        return VoteReply(currentTerm, false);
      }
      var last := log[|log| - 1];
      var logOK := args.lastLogTerm > last.term || (args.lastLogTerm == last.term && args.lastLogIndex >= last.index);
      var canVote := votedFor == NOBODY || votedFor == args.candidate;
      if canVote && logOK {
        votedFor := args.candidate;
        reply := VoteReply(currentTerm, true);
      } else {
        reply := VoteReply(currentTerm, false);
      }
    }

    method BecomeLeader()
      requires |log| > 0
      modifies this
      ensures State() == RaftNode.BecomeLeader(old(State()), me, peers)
    {
      role := Leader;
      nextIndex, matchIndex := map[], map[];
      var lastIndex := log[|log| - 1].index;
      for i := 0 to |peers|
        invariant nextIndex == Filled(peers[..i], lastIndex + 1) && matchIndex == Filled(peers[..i], 0)
        invariant State() == old(State()).(role := Leader, nextIndex := nextIndex, matchIndex := matchIndex)
      {
        assert peers[..i + 1][..i] == peers[..i];
        nextIndex := nextIndex[peers[i] := lastIndex + 1];
        matchIndex := matchIndex[peers[i] := 0];
      }
      assert peers[..|peers|] == peers;
      var noopIndex := lastIndex + 1;
      log := log + [Entry(currentTerm, noopIndex, Nil)];
      matchIndex := matchIndex[me := noopIndex];
    }

    /** What a vote goroutine of the election in `term` does with its reply. */
    method HandleVoteReply(from: NodeId, term: nat, reply: VoteReply)
      requires |log| > 0
      modifies this
      ensures State() == RaftNode.HandleVoteReply(old(State()), me, peers, from, term, reply)
    {
      if reply.term > currentTerm {
        BecomeFollower(reply.term);
        return;
      }
      if role != Candidate || currentTerm != term {
        return;
      }
      awaiting := awaiting - {from};
      if reply.granted {
        votes := votes + 1;
        if votes >= |peers| / 2 + 1 {
          BecomeLeader();
        }
      }
    }

    // ----- replication -----

    /** Positions of equal terms down from `i`: the ConflictIndex loop. */
    method FirstOfRun(i: nat) returns (idx: nat)
      requires i < |log|
      ensures idx == RunStart(log, i)
    {
      var conflictTerm := log[i].term;
      idx := i;
      while idx > 0 && log[idx - 1].term == conflictTerm
        invariant idx <= i && log[idx].term == conflictTerm
        invariant RunStart(log, i) == RunStart(log, idx)
      {
        idx := idx - 1;
      }
    }

    /** The first of the two loops: cut the log at the first entry that differs from the leader's. */
    method TruncateConflict(insertAt: nat, entries: seq<Entry>)
      requires Indexed(log) && 1 <= insertAt <= |log|
      modifies this`log
      ensures Indexed(log)
      ensures var k := Agreeing(old(log), insertAt, entries);
              log == if k < |entries| then old(log)[..insertAt + k] else old(log)
    {
      ghost var k := Agreeing(log, insertAt, entries);
      var i := 0;
      while i < |entries|
        invariant 0 <= i <= |entries| && log == old(log)
        invariant i <= k || insertAt + k == |log|
      {
        var idx := insertAt + i;
        if idx <= log[|log| - 1].index && log[idx].term != entries[i].term {
          log := log[..idx];
          break;
        }
        i := i + 1;
      }
      assert old(log)[..|old(log)|] == old(log);
    }

    /** The second loop: append what lies beyond the end of the log. */
    method AppendMissing(insertAt: nat, entries: seq<Entry>)
      requires Indexed(log) && 1 <= insertAt <= |log|
      requires forall i :: 0 <= i < |entries| ==> entries[i].index == insertAt + i
      modifies this`log
      ensures Indexed(log)
      ensures var have := |old(log)| - insertAt;
              log == if have < |entries| then old(log) + entries[have..] else old(log)
    {
      ghost var have := |log| - insertAt;
      for i := 0 to |entries|
        invariant Indexed(log)
        invariant log == if have < i then old(log) + entries[have..i] else old(log)
      {
        var idx := insertAt + i;
        if idx > log[|log| - 1].index {
          log := log + [entries[i]];
        }
      }
    }

    /** Both loops together keep the longest agreeing prefix and take the rest from the leader. */
    method MergeEntries(prev: nat, entries: seq<Entry>)
      requires Indexed(log) && prev < |log|
      requires forall i :: 0 <= i < |entries| ==> entries[i].index == prev + 1 + i
      modifies this`log
      ensures Indexed(log) && log == Merge(old(log), prev, entries)
    {
      ghost var k := Agreeing(log, prev + 1, entries);
      TruncateConflict(prev + 1, entries);
      assert k < |entries| ==> |log| == prev + 1 + k;
      AppendMissing(prev + 1, entries);
    }

    /** The part of AppendEntries behind the consistency check. */
    method AdoptEntries(args: AppendArgs)
      requires Indexed(log) && args.prevLogIndex < |log|
      requires forall i :: 0 <= i < |args.entries| ==> args.entries[i].index == args.prevLogIndex + 1 + i
      modifies this`log, this`commitIndex
      ensures Indexed(log) && log == Merge(old(log), args.prevLogIndex, args.entries)
      ensures commitIndex == if args.leaderCommit > old(commitIndex) then Min(args.leaderCommit, |log| - 1)
                             else old(commitIndex)
    {
      MergeEntries(args.prevLogIndex, args.entries);
      if args.leaderCommit > commitIndex {
        var lastNewIndex := log[|log| - 1].index;
        if args.leaderCommit < lastNewIndex {
          commitIndex := args.leaderCommit;
        } else {
          commitIndex := lastNewIndex;
        }
      }
    }

    method AppendEntries(args: AppendArgs) returns (reply: AppendReply)
      requires Indexed(log)
      requires forall i :: 0 <= i < |args.entries| ==> args.entries[i].index == args.prevLogIndex + 1 + i
      modifies this
      ensures Indexed(log)
      ensures (State(), reply) == HandleAppend(old(State()), args)
    {
      if args.term > currentTerm {
        BecomeFollower(args.term);
      }
      if args.term < currentTerm {
        return AppendReply(currentTerm, false, 0, 0);
      }
      role := Follower;
      var lastIndex := log[|log| - 1].index;
      if args.prevLogIndex > lastIndex {
        return AppendReply(currentTerm, false, lastIndex + 1, -1);
      }
      if log[args.prevLogIndex].term != args.prevLogTerm {
        var idx := FirstOfRun(args.prevLogIndex);
        return AppendReply(currentTerm, false, idx, log[args.prevLogIndex].term);
      }
      AdoptEntries(args);
      reply := AppendReply(currentTerm, true, 0, 0);
    }

    /** The locked part of sendAppendEntriesTo that builds the request. */
    method BuildAppendEntries(peer: NodeId) returns (args: AppendArgs)
      requires |log| > 0 && At(nextIndex, peer) <= |log|
      ensures args == BuildAppend(State(), me, peer)
    {
      var next := if peer in nextIndex then nextIndex[peer] else 0;
      var prevLogIndex := next - 1;
      if prevLogIndex < 0 {
        prevLogIndex := 0;
      }
      var entries := [];
      if next <= log[|log| - 1].index && next < |log| {
        entries := log[next..];
      }
      args := AppendArgs(currentTerm, me, prevLogIndex, log[prevLogIndex].term, entries, commitIndex);
    }

    /** How many peers, counting itself, have the entry at `n`. */
    method CountReplicas(n: nat) returns (count: nat)
      ensures count == 1 + Replicas(matchIndex, me, peers, n)
    {
      count := 1;
      for i := 0 to |peers|
        invariant count == 1 + Replicas(matchIndex, me, peers[..i], n)
      {
        assert peers[..i + 1][..i] == peers[..i];
        if peers[i] != me && At(matchIndex, peers[i]) >= n {
          count := count + 1;
        }
      }
      assert peers[..|peers|] == peers;
    }

    method AdvanceCommitIndex()
      requires Indexed(log) && commitIndex < |log|
      modifies this
      ensures State() == AdvanceCommit(old(State()), me, peers)
    {
      var n := log[|log| - 1].index;
      while n > commitIndex
        invariant 0 <= n < |log| && State() == old(State()) && n >= commitIndex
        invariant BestCommit(State(), me, peers, |log| - 1) == BestCommit(State(), me, peers, n)
      {
        if log[n].term != currentTerm {
          n := n - 1;
          continue;
        }
        var count := CountReplicas(n);
        if count >= |peers| / 2 + 1 {
          commitIndex := n;
          break;
        }
        n := n - 1;
      }
    }

    method FindLastOfTerm(term: int) returns (last: int)
      ensures last == LastOfTerm(log, term)
    {
      last := -1;
      assert log[..|log|] == log;
      var i := |log| - 1;
      while i >= 0
        invariant -1 <= i < |log| && last == -1
        invariant LastOfTerm(log, term) == LastOfTerm(log[..i + 1], term)
      {
        assert log[..i + 1][..i] == log[..i];
        if log[i].term == term {
          last := i;
          break;
        }
        i := i - 1;
      }
    }

    /** What sendAppendEntriesTo does with the reply to `args`. */
    method HandleAppendReply(peer: NodeId, args: AppendArgs, reply: AppendReply)
      requires Indexed(log) && commitIndex < |log|
      requires Current(State(), args, reply) && !reply.success ==> Backtrack(log, reply) >= 0
      modifies this
      ensures State() == RaftNode.HandleAppendReply(old(State()), me, peers, peer, args, reply)
    {
      if reply.term > currentTerm {
        BecomeFollower(reply.term);
        return;
      }
      if role != Leader || currentTerm != args.term {
        return;
      }
      if reply.success {
        var newMatch := args.prevLogIndex + |args.entries|;
        if newMatch > At(matchIndex, peer) {
          matchIndex := matchIndex[peer := newMatch];
        }
        nextIndex := nextIndex[peer := newMatch + 1];
        AdvanceCommitIndex();
        return;
      }
      if reply.conflictTerm == -1 {
        nextIndex := nextIndex[peer := reply.conflictIndex];
        return;
      }
      var lastIdxOfTerm := FindLastOfTerm(reply.conflictTerm);
      if lastIdxOfTerm >= 0 {
        nextIndex := nextIndex[peer := lastIdxOfTerm + 1];
      } else {
        nextIndex := nextIndex[peer := reply.conflictIndex];
      }
    }

    /** The index a command will have if it commits, the current term, and whether this peer leads. */
    method Start(command: Command) returns (index: int, term: nat, isLeader: bool)
      requires |log| > 0
      modifies this
      ensures State() == ClientStart(old(State()), me, command)
      ensures term == old(currentTerm) && isLeader == old(role == Leader)
      ensures if isLeader then index >= 0 && log == old(log) + [Entry(term, index, command)] else index == -1
    {
      if role != Leader {
        return -1, currentTerm, false;
      }
      var next := log[|log| - 1].index + 1;
      log := log + [Entry(currentTerm, next, command)];
      matchIndex := matchIndex[me := next];
      return next, currentTerm, true;
    }

    /** One round of applyTicker. */
    method ApplyCommitted()
      requires Indexed(log) && commitIndex < |log|
      modifies this
      ensures State() == RaftNode.ApplyCommitted(old(State()))
    {
      var msgs: seq<ApplyMsg> := [];
      while lastApplied < commitIndex
        invariant old(lastApplied) <= lastApplied <= commitIndex || (lastApplied == old(lastApplied) && msgs == [])
        invariant State() == old(State()).(lastApplied := lastApplied)
        invariant lastApplied <= commitIndex ==> msgs == Messages(log, old(lastApplied) + 1, lastApplied + 1)
      {
        lastApplied := lastApplied + 1;
        var entry := log[lastApplied];
        if entry.command == Nil {
          continue;
        }
        msgs := msgs + [ApplyMsg(entry.command, entry.index)];
      }
      applied := applied + msgs;
    }
  }
}
