/**
 A write acknowledged at the level `all` and then gone. Peer 0 leads term 1 and takes the write at index 2 but
 replicates it to nobody; peer 1 is elected for term 2, puts another write at index 2, and replicates that to
 peer 0. Peer 0 then has applied index 2, which is all WaitApplied looks at.
 */
module AckLoss {
  import opened Bytes
  import opened RaftNode
  import opened RaftCluster
  import opened RaftSafety
  import opened Replication

  const PEERS: seq<NodeId> := [0, 1, 2]
  const LOST: bytes := [1]
  const KEPT: bytes := [2]

  // What is sent.
  const VOTE1: VoteArgs := VoteArgs(1, 0, 0, 0)
  const VOTE2: VoteArgs := VoteArgs(2, 1, 0, 0)
  const APPEND1: AppendArgs := AppendArgs(2, 1, 0, 0, [Entry(2, 1, Nil), Entry(2, 2, Payload(KEPT))], 0)
  const APPEND2: AppendArgs := AppendArgs(2, 1, 2, 2, [], 2)
  const ACCEPTED: AppendReply := AppendReply(2, true, 0, 0)

  // The logs on the way.
  const LOG1: seq<Entry> := [SENTINEL, Entry(1, 1, Nil), Entry(1, 2, Payload(LOST))]
  const LOG2: seq<Entry> := [SENTINEL, Entry(2, 1, Nil), Entry(2, 2, Payload(KEPT))]

  const STEPS: seq<Step> :=
    [ Timeout(0),
      Deliver(VoteRequest(0, 1, VOTE1)),
      Deliver(VoteResponse(1, 0, VOTE1, VoteReply(1, true))),
      Propose(0, Payload(LOST)),
      Timeout(1),
      Deliver(VoteRequest(1, 2, VOTE2)),
      Deliver(VoteResponse(2, 1, VOTE2, VoteReply(2, true))),
      Propose(1, Payload(KEPT)),
      SendAppend(1, 0),
      Deliver(AppendRequest(1, 0, APPEND1)),
      Deliver(AppendResponse(0, 1, APPEND1, ACCEPTED)),
      SendAppend(1, 0),
      Deliver(AppendRequest(1, 0, APPEND2)),
      Apply(0) ]

  lemma RunNext(k: nat)
    requires k < |STEPS|
    ensures Run(PEERS, STEPS[..k + 1]) == Exec(Run(PEERS, STEPS[..k]), STEPS[k])
  {
    assert STEPS[..k + 1][..k] == STEPS[..k];
  }

  // The peers on the way: C campaigning, F voted, L leading, T has taken a write, G and H after an append, D applied.
  const C0: Node := Node(1, 0, [SENTINEL], Candidate, 0, 0, map[], map[], 1, {1, 2}, [])
  const F1: Node := Node(1, 0, [SENTINEL], Follower, 0, 0, map[], map[], 0, {}, [])
  const L0: Node :=
    Node(1, 0, LOG1[..2], Leader, 0, 0, map[0 := 1, 1 := 1, 2 := 1], map[0 := 1, 1 := 0, 2 := 0], 2, {2}, [])
  const T0: Node := L0.(log := LOG1, matchIndex := map[0 := 2, 1 := 0, 2 := 0])
  const C1: Node := Node(2, 1, [SENTINEL], Candidate, 0, 0, map[], map[], 1, {0, 2}, [])
  const F2: Node := Node(2, 1, [SENTINEL], Follower, 0, 0, map[], map[], 0, {}, [])
  const L1: Node :=
    Node(2, 1, LOG2[..2], Leader, 0, 0, map[0 := 1, 1 := 1, 2 := 1], map[0 := 0, 1 := 1, 2 := 0], 2, {0}, [])
  const T1: Node := L1.(log := LOG2, matchIndex := map[0 := 0, 1 := 2, 2 := 0])
  const G0: Node := T0.(currentTerm := 2, votedFor := NOBODY, role := Follower, log := LOG2)
  const M1: Node :=
    T1.(matchIndex := map[0 := 2, 1 := 2, 2 := 0], nextIndex := map[0 := 3, 1 := 1, 2 := 1], commitIndex := 2)
  const H0: Node := G0.(commitIndex := 2)
  const D0: Node := H0.(lastApplied := 2, applied := [ApplyMsg(Payload(KEPT), 2)])

  // What each section of code makes of them.

  lemma Campaigns()
    ensures StartElection(FRESH, 0, PEERS) == C0 && StartElection(F1, 1, PEERS) == C1
  {
    var ids := set p | p in PEERS;
    assert ids - {0} == {1, 2} && ids - {1} == {0, 2};
  }

  lemma AllFilled(v: nat)
    ensures Filled(PEERS, v) == map[0 := v, 1 := v, 2 := v]
  {
  }

  lemma FirstElected()
    ensures HandleVoteReply(C0, 0, PEERS, 1, 1, VoteReply(1, true)) == L0
  {
    AllFilled(1);
    AllFilled(0);
    assert [SENTINEL] + [Entry(1, 1, Nil)] == LOG1[..2] && {1, 2} - {1} == {2};
  }

  lemma SecondElected()
    ensures HandleVoteReply(C1, 1, PEERS, 2, 2, VoteReply(2, true)) == L1
  {
    AllFilled(1);
    AllFilled(0);
    assert [SENTINEL] + [Entry(2, 1, Nil)] == LOG2[..2] && {0, 2} - {2} == {0};
  }

  lemma Taken1()
    ensures ClientStart(L0, 0, Payload(LOST)) == T0
  {
    assert LOG1[..2] + [Entry(1, 2, Payload(LOST))] == LOG1;
  }

  lemma Taken2()
    ensures ClientStart(L1, 1, Payload(KEPT)) == T1
  {
    assert LOG2[..2] + [Entry(2, 2, Payload(KEPT))] == LOG2;
  }

  lemma Overwritten()
    ensures HandleAppend(T0, APPEND1) == (G0, ACCEPTED)
  {
    assert Agreeing(LOG1, 1, APPEND1.entries) == 0;
    assert LOG1[..1] + APPEND1.entries[0..] == LOG2;
  }

  lemma CommitsKept()
    ensures HandleAppendReply(T1, 1, PEERS, 0, APPEND1, ACCEPTED) == M1
  {
    var n := M1.(commitIndex := 0);
    assert [0, 1, 2][..2] == [0, 1] && [0, 1][..1] == [0];
    assert Replicas(n.matchIndex, 1, [0], 2) == 1;
    assert Replicas(n.matchIndex, 1, [0, 1], 2) == 1;
    assert Replicas(n.matchIndex, 1, PEERS, 2) == 1;
    assert Committable(n, 1, PEERS, 2);
    assert AdvanceCommit(n, 1, PEERS) == M1;
    assert T1.(matchIndex := T1.matchIndex[0 := 2], nextIndex := T1.nextIndex[0 := 3]) == n;
  }

  lemma AppliesKept()
    ensures ApplyCommitted(H0) == D0
  {
    assert Messages(LOG2, 1, 2) == [];
    assert Messages(LOG2, 1, 3) == [ApplyMsg(Payload(KEPT), 2)];
  }

  /** The group after `k` steps. */
  ghost predicate After(k: nat, n0: Node, n1: Node, n2: Node)
    requires k <= |STEPS|
  {
    var c := Run(PEERS, STEPS[..k]);
    c.peers == PEERS && c.nodes == map[0 := n0, 1 := n1, 2 := n2]
  }

  ghost predicate OnNet(k: nat, m: Message)
    requires k <= |STEPS|
  {
    m in Run(PEERS, STEPS[..k]).net
  }

  lemma After1()
    ensures After(1, C0, FRESH, FRESH) && OnNet(1, VoteRequest(0, 1, VOTE1))
  {
    RunNext(0);
    Campaigns();
    assert STEPS[..0] == [];
    var c := Start(PEERS);
    assert c.nodes == map[0 := FRESH, 1 := FRESH, 2 := FRESH];
  }

  lemma After2()
    ensures After(2, C0, F1, FRESH) && OnNet(2, VoteResponse(1, 0, VOTE1, VoteReply(1, true)))
  {
    After1();
    RunNext(1);
  }

  lemma CountsVote(c: Cluster, a: NodeId, b: NodeId, args: VoteArgs, n: Node, n': Node)
    requires a in c.nodes && c.nodes[a] == n && |n.log| > 0 && b in n.awaiting && c.peers == PEERS
    requires VoteResponse(b, a, args, VoteReply(args.term, true)) in c.net
    requires n' == HandleVoteReply(n, a, PEERS, b, args.term, VoteReply(args.term, true))
    ensures var c' := Exec(c, Deliver(VoteResponse(b, a, args, VoteReply(args.term, true))));
            c'.peers == PEERS && c'.nodes == c.nodes[a := n']
  {
  }

  lemma Updated(n0: Node, n1: Node, n2: Node, n: Node)
    ensures map[0 := n0, 1 := n1, 2 := n2][0 := n] == map[0 := n, 1 := n1, 2 := n2]
    ensures map[0 := n0, 1 := n1, 2 := n2][1 := n] == map[0 := n0, 1 := n, 2 := n2]
  {
  }

  lemma After3()
    ensures After(3, L0, F1, FRESH)
  {
    After2();
    RunNext(2);
    FirstElected();
    CountsVote(Run(PEERS, STEPS[..2]), 0, 1, VOTE1, C0, L0);
    Updated(C0, F1, FRESH, L0);
  }

  lemma After4()
    ensures After(4, T0, F1, FRESH)
  {
    After3();
    RunNext(3);
    Taken1();
  }

  lemma After5()
    ensures After(5, T0, C1, FRESH) && OnNet(5, VoteRequest(1, 2, VOTE2))
  {
    After4();
    RunNext(4);
    Campaigns();
  }

  lemma After6()
    ensures After(6, T0, C1, F2) && OnNet(6, VoteResponse(2, 1, VOTE2, VoteReply(2, true)))
  {
    After5();
    RunNext(5);
  }

  lemma After7()
    ensures After(7, T0, L1, F2)
  {
    After6();
    RunNext(6);
    SecondElected();
    CountsVote(Run(PEERS, STEPS[..6]), 1, 2, VOTE2, C1, L1);
    Updated(T0, C1, F2, L1);
  }

  lemma After8()
    ensures After(8, T0, T1, F2)
  {
    After7();
    RunNext(7);
    Taken2();
  }

  lemma After9()
    ensures After(9, T0, T1, F2) && OnNet(9, AppendRequest(1, 0, APPEND1))
  {
    After8();
    RunNext(8);
  }

  lemma After10()
    ensures After(10, G0, T1, F2) && OnNet(10, AppendResponse(0, 1, APPEND1, ACCEPTED))
  {
    After9();
    RunNext(9);
    Overwritten();
  }

  lemma After11()
    ensures After(11, G0, M1, F2)
  {
    After10();
    RunNext(10);
    CommitsKept();
  }

  lemma After12()
    ensures After(12, G0, M1, F2) && OnNet(12, AppendRequest(1, 0, APPEND2))
  {
    After11();
    RunNext(11);
  }

  lemma After13()
    ensures After(13, H0, M1, F2)
  {
    After12();
    RunNext(12);
  }

  lemma After14()
    ensures After(14, D0, M1, F2)
  {
    After13();
    RunNext(13);
    AppliesKept();
  }

  /**
   Peer 0, asked by Write, got index 2 for the lost write. It has applied index 2, so WaitApplied answers yes and Write
   reports success; but its log holds only the other write.
   */
  lemma AckedWriteLost(unzip: Unzip)
    ensures Proposed(PEERS, STEPS, 3, 0, LOST)
    ensures var p := Replica(NodeAt(PEERS, STEPS, |STEPS|, 0).applied, unzip);
            HasApplied(p, StartIndex(PEERS, STEPS, 3, 0)) && p == Replica([ApplyMsg(Payload(KEPT), 2)], unzip)
    ensures !TermKept(PEERS, STEPS, 3, 0, |STEPS|, 0)
    ensures Contents(NodeAt(PEERS, STEPS, |STEPS|, 0).applied, unzip) == [KEPT]
  {
    After3();
    After14();
    assert STEPS[..|STEPS|] == STEPS == STEPS[..14];
    assert NodeAt(PEERS, STEPS, 3, 0) == L0 && NodeAt(PEERS, STEPS, |STEPS|, 0) == D0;
    var m := ApplyMsg(Payload(KEPT), 2);
    assert [m][..0] == [];
    assert Unpacked(KEPT, unzip) == [KEPT];
    assert Replica([m], unzip) == ApplyOne(Replica([], unzip), m, unzip);
  }
}
