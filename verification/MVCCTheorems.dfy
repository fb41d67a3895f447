/**
 What the MVCC store promises: it decides and answers as the locked store does, a snapshot never
 changes, and garbage collection behind a snapshot is invisible to it.
 */
module MVCCTheorems {
  import opened Documents
  import opened Options
  import opened MVCCStore

  // ----- what a commit does to one chain -----

  /** `newer` is `older` followed by versions stamped `at`. */
  ghost predicate Grown(older: Chain, newer: Chain, at: int) {
    && |older| <= |newer| && newer[..|older|] == older
    && forall i :: |older| <= i < |newer| ==> newer[i].committedAt == at
  }

  lemma OneGrows(s: Store, show: Show, m: Mutation, at: int, id: string)
    requires !Bad(m)
    ensures var r := CommitOne(s, show, m, at);
            Grown(ChainOf(s, id), ChainOf(r, id), at) && r.commitIndex == s.commitIndex && r.indexField == s.indexField
  {
  }

  lemma GrownTwice(a: Chain, b: Chain, c: Chain, at: int)
    requires Grown(a, b, at) && Grown(b, c, at)
    ensures Grown(a, c, at)
  {
    assert c[..|a|] == b[..|a|];
    forall i | |a| <= i < |c| ensures c[i].committedAt == at {
      if i < |b| { assert c[i] == c[..|b|][i]; }
    }
  }

  lemma {:induction false} CommitGrows(s: Store, show: Show, muts: seq<Mutation>, at: int, id: string)
    requires forall i :: 0 <= i < |muts| ==> !Bad(muts[i])
    ensures Grown(ChainOf(s, id), ChainOf(CommitAll(s, show, muts, at), id), at)
    ensures CommitAll(s, show, muts, at).commitIndex == s.commitIndex
    ensures CommitAll(s, show, muts, at).indexField == s.indexField
  {
    if muts == [] {
    } else {
      var before := muts[..|muts| - 1];
      var r := CommitAll(s, show, before, at);
      CommitGrows(s, show, before, at, id);
      OneGrows(r, show, muts[|muts| - 1], at, id);
      GrownTwice(ChainOf(s, id), ChainOf(r, id), ChainOf(CommitAll(s, show, muts, at), id), at);
    }
  }

  lemma ApplyGrows(s: Store, show: Show, muts: seq<Mutation>, at: int, id: string)
    ensures Grown(ChainOf(s, id), ChainOf(Apply(s, show, muts, at).0, id), at)
    ensures Apply(s, show, muts, at).0.indexField == s.indexField
    ensures Apply(s, show, muts, at).0.commitIndex == if Apply(s, show, muts, at).1 == Done then at else s.commitIndex
  {
    CommitGrows(s, show, muts[..GoodPrefix(muts)], at, id);
  }

  // ----- snapshots -----

  lemma {:induction false} LaterInvisible(older: Chain, newer: Chain, stamp: int, at: int)
    requires Grown(older, newer, stamp) && at < stamp
    ensures VersionAt(newer, at) == VersionAt(older, at)
    decreases |newer|
  {
    if |newer| > |older| {
      LaterInvisible(older, newer[..|newer| - 1], stamp, at);
    } else {
      assert newer[..|older|] == newer;
    }
  }

  /** A transaction at a later index changes nothing a snapshot reads, whether it is accepted, rejected or cut short. */
  lemma SnapshotStable(s: Store, show: Show, muts: seq<Mutation>, raftIndex: int, at: int, id: string)
    requires at < raftIndex
    ensures Read(Apply(s, show, muts, raftIndex).0, at, id) == Read(s, at, id)
  {
    ApplyGrows(s, show, muts, raftIndex, id);
    LaterInvisible(ChainOf(s, id), ChainOf(Apply(s, show, muts, raftIndex).0, id), raftIndex, at);
  }

  /** Garbage collection preserves what a snapshot sees of a chain exactly when the version it keeps as the oldest is
      one the snapshot could already see, or there was nothing to see. */
  lemma PruneExactly(chain: Chain, w: int, at: int)
    requires Sorted(chain)
    ensures var k := Leading(chain, w);
            VersionAt(Prune(chain, w), at) == VersionAt(chain, at) <==>
            k <= 1 || chain[k - 1].committedAt <= at || VersionAt(chain, at) == None
  {
    var k, n := Leading(chain, w), Leading(chain, at);
    assert forall i :: n <= i < |chain| ==> chain[i].committedAt > at;
    VersionAtIs(chain, at, n);
    if k > 1 { SuffixVersion(chain, k - 1, at, n); }
  }

  /** What a snapshot sees of a chain without its first `k` versions, if it sees `n` of the whole. */
  lemma SuffixVersion(chain: Chain, k: nat, at: int, n: nat)
    requires Sorted(chain) && k < |chain| && n <= |chain|
    requires forall i :: 0 <= i < n ==> chain[i].committedAt <= at
    requires forall i :: n <= i < |chain| ==> chain[i].committedAt > at
    ensures VersionAt(chain[k..], at) == if k < n then Some(chain[n - 1]) else None
  {
    VersionAtIs(chain[k..], at, if k < n then n - k else 0);
  }

  /** In particular, collecting at or below a snapshot's point is invisible to it. */
  lemma CollectStable(s: Store, w: int, at: int, id: string)
    requires AllSorted(s) && w <= at
    ensures Read(Collect(s, w), at, id) == Read(s, at, id)
  {
    if id in s.chains { PruneExactly(s.chains[id], w, at); }
  }

  // ----- refinement of the locked store -----

  function LatestDoc(chain: Chain): Option<Document> {
    if chain == [] || chain[|chain| - 1].deleted then None else Some(chain[|chain| - 1].data)
  }

  function LockedGet(l: Locked, id: string): Option<Document> {
    if id in l.docs then Some(l.docs[id]) else None
  }

  /** For every document the end of its chain is what the locked store holds. */
  ghost predicate Refines(s: Store, l: Locked) {
    forall id {:trigger RefinesAt(s, l, id)} :: RefinesAt(s, l, id)
  }

  ghost predicate RefinesAt(s: Store, l: Locked, id: string) {
    LatestVersion(ChainOf(s, id)) == LockedVersion(l, id) && LatestDoc(ChainOf(s, id)) == LockedGet(l, id)
  }

  lemma CommitOneRefines(s: Store, l: Locked, show: Show, m: Mutation, at: int)
    requires Refines(s, l) && !Bad(m)
    ensures Refines(CommitOne(s, show, m, at), LockedOne(l, m))
  {
    forall id
      ensures RefinesAt(CommitOne(s, show, m, at), LockedOne(l, m), id)
    {
      assert RefinesAt(s, l, id) && RefinesAt(s, l, m.id);
      if id == m.id { CommitOneRefinesHere(s, l, show, m, at); }
    }
  }

  lemma CommitOneRefinesHere(s: Store, l: Locked, show: Show, m: Mutation, at: int)
    requires RefinesAt(s, l, m.id) && !Bad(m)
    ensures RefinesAt(CommitOne(s, show, m, at), LockedOne(l, m), m.id)
  {
  }

  lemma {:induction false} CommitAllRefines(s: Store, l: Locked, show: Show, muts: seq<Mutation>, at: int)
    requires Refines(s, l) && forall i :: 0 <= i < |muts| ==> !Bad(muts[i])
    ensures Refines(CommitAll(s, show, muts, at), LockedAll(l, muts))
  {
    if muts == [] {
    } else {
      CommitAllRefines(s, l, show, muts[..|muts| - 1], at);
      CommitOneRefines(CommitAll(s, show, muts[..|muts| - 1], at), LockedAll(l, muts[..|muts| - 1]), show,
                       muts[|muts| - 1], at);
    }
  }

  /** Both stores give the same verdict on every transaction and stay in step, even on one that is cut short. */
  lemma ApplyRefines(s: Store, l: Locked, show: Show, muts: seq<Mutation>, at: int)
    requires Refines(s, l)
    ensures Apply(s, show, muts, at).1 == LockedApply(l, muts).1
    ensures Refines(Apply(s, show, muts, at).0, LockedApply(l, muts).0)
  {
    assert Admits(s, muts) <==> LockedAdmits(l, muts) by {
      forall i | 0 <= i < |muts|
        ensures LatestVersion(ChainOf(s, muts[i].id)) == LockedVersion(l, muts[i].id)
      {
        assert RefinesAt(s, l, muts[i].id);
      }
    }
    var good := muts[..GoodPrefix(muts)];
    CommitAllRefines(s, l, show, good, at);
    forall id
      ensures RefinesAt(Apply(s, show, muts, at).0, LockedApply(l, muts).0, id)
    {
      assert RefinesAt(s, l, id) && RefinesAt(CommitAll(s, show, good, at), LockedAll(l, good), id);
    }
  }

  /** Garbage collection at any watermark keeps the end of every chain. */
  lemma CollectRefines(s: Store, l: Locked, w: int)
    requires Refines(s, l)
    ensures Refines(Collect(s, w), l)
  {
    forall id
      ensures RefinesAt(Collect(s, w), l, id)
    {
      assert RefinesAt(s, l, id);
      PruneEnd(ChainOf(s, id), w);
      assert ChainOf(Collect(s, w), id) == if id in s.chains then Prune(s.chains[id], w) else [];
    }
  }

  lemma PruneEnd(chain: Chain, w: int)
    ensures LatestVersion(Prune(chain, w)) == LatestVersion(chain) && LatestDoc(Prune(chain, w)) == LatestDoc(chain)
  {
  }

  // ----- atomicity -----

  lemma {:induction false} NoEffect(s: Store, show: Show, muts: seq<Mutation>, at: int)
    requires forall i :: 0 <= i < |muts| ==> !Bad(muts[i]) && !Effective(muts[i])
    ensures CommitAll(s, show, muts, at) == s
  {
    if muts == [] {
    } else {
      NoEffect(s, show, muts[..|muts| - 1], at);
    }
  }

  lemma {:induction false} SomeEffect(s: Store, show: Show, muts: seq<Mutation>, at: int, i: nat)
    requires forall j :: 0 <= j < |muts| ==> !Bad(muts[j])
    requires i < |muts| && Effective(muts[i])
    ensures |ChainOf(CommitAll(s, show, muts, at), muts[i].id)| > |ChainOf(s, muts[i].id)|
  {
    var rest := muts[..|muts| - 1];
    if i < |rest| {
      SomeEffect(s, show, rest, at, i);
    } else {
      CommitGrows(s, show, rest, at, muts[i].id);
    }
  }

  /**
   A transaction that fails leaves the store unchanged exactly when it failed validation or nothing took effect before
   the put that does not decode. The design promises the former without the condition.
   */
  lemma FailureAtomicExactly(s: Store, show: Show, muts: seq<Mutation>, at: int)
    requires Apply(s, show, muts, at).1 != Done
    ensures Apply(s, show, muts, at).0 == s <==> !Admits(s, muts) || AllOrNothing(muts)
  {
    var good := muts[..GoodPrefix(muts)];
    if Admits(s, muts) {
      if AllOrNothing(muts) {
        NoEffect(s, show, good, at);
      } else {
        var i :| 0 <= i < GoodPrefix(muts) && Effective(muts[i]);
        SomeEffect(s, show, good, at, i);
      }
    }
  }

  /** A failed transaction that moved a document: its first put landed, its second does not decode. */
  lemma FailureNotAtomic(show: Show)
    ensures var put := Mutation("put", "a", Some(map[]), None);
            var bad := Mutation("put", "b", None, None);
            var s := Store(map[], map[], "", 0);
            var after := Apply(s, show, [put, bad], 1);
            after.1 == BadData && after.0 != s && after.0.commitIndex == 0
  {
    var put := Mutation("put", "a", Some(map[]), None);
    var bad := Mutation("put", "b", None, None);
    var s := Store(map[], map[], "", 0);
    PutThenBad(s, Locked(map[], map[]), show, put, bad, 1);
    assert "a" in Apply(s, show, [put, bad], 1).0.chains;
  }

  // ----- whole runs -----

  datatype Op = Txn(muts: seq<Mutation>, raftIndex: int) | GC(watermark: int)

  function RunStore(show: Show, field: string, ops: seq<Op>): Store {
    if ops == [] then Store(map[], map[], field, 0)
    else
      var s := RunStore(show, field, ops[..|ops| - 1]);
      match ops[|ops| - 1]
      case Txn(muts, raftIndex) => Apply(s, show, muts, raftIndex).0
      case GC(w) => Collect(s, w)
  }

  function RunLocked(ops: seq<Op>): Locked {
    if ops == [] then Locked(map[], map[])
    else
      var l := RunLocked(ops[..|ops| - 1]);
      match ops[|ops| - 1]
      case Txn(muts, _) => LockedApply(l, muts).0
      case GC(_) => l
  }

  /** The last Raft index used so far. */
  function LastIndex(ops: seq<Op>): int {
    if ops == [] then 0
    else if ops[|ops| - 1].Txn? then ops[|ops| - 1].raftIndex
    else LastIndex(ops[..|ops| - 1])
  }

  /** Transactions come at strictly increasing Raft indexes, as the apply channel delivers them. */
  ghost predicate Ascending(ops: seq<Op>) {
    ops == [] ||
    (Ascending(ops[..|ops| - 1]) && (ops[|ops| - 1].Txn? ==> ops[|ops| - 1].raftIndex > LastIndex(ops[..|ops| - 1])))
  }

  /** Every chain is sorted and no stamp is past `hi`. */
  ghost predicate StampedBy(s: Store, hi: int) {
    forall id {:trigger StampedAt(s, hi, id)} :: StampedAt(s, hi, id)
  }

  ghost predicate StampedAt(s: Store, hi: int, id: string) {
    Sorted(ChainOf(s, id)) && forall i :: 0 <= i < |ChainOf(s, id)| ==> ChainOf(s, id)[i].committedAt <= hi
  }

  lemma SortedFrom(s: Store, hi: int)
    requires StampedBy(s, hi)
    ensures AllSorted(s)
  {
    forall id | id in s.chains
      ensures Sorted(s.chains[id])
    {
      assert StampedAt(s, hi, id);
    }
  }

  lemma ApplyStamped(s: Store, show: Show, muts: seq<Mutation>, at: int, hi: int)
    requires StampedBy(s, hi) && hi < at
    ensures StampedBy(Apply(s, show, muts, at).0, at)
  {
    forall id
      ensures StampedAt(Apply(s, show, muts, at).0, at, id)
    {
      assert StampedAt(s, hi, id);
      ApplyGrows(s, show, muts, at, id);
      var older, newer := ChainOf(s, id), ChainOf(Apply(s, show, muts, at).0, id);
      assert forall i :: 0 <= i < |older| ==> newer[i] == newer[..|older|][i] == older[i];
    }
  }

  lemma CollectStamped(s: Store, w: int, hi: int)
    requires StampedBy(s, hi)
    ensures StampedBy(Collect(s, w), hi)
  {
    forall id
      ensures StampedAt(Collect(s, w), hi, id)
    {
      assert StampedAt(s, hi, id);
    }
  }

  lemma {:induction false} RunStamped(show: Show, field: string, ops: seq<Op>)
    requires Ascending(ops)
    ensures StampedBy(RunStore(show, field, ops), LastIndex(ops))
    ensures RunStore(show, field, ops).commitIndex <= LastIndex(ops) && RunStore(show, field, ops).indexField == field
  {
    if ops == [] {
    } else {
      var before := ops[..|ops| - 1];
      RunStamped(show, field, before);
      var s := RunStore(show, field, before);
      match ops[|ops| - 1]
      case Txn(muts, at) =>
        ApplyStamped(s, show, muts, at, LastIndex(before));
        ApplyGrows(s, show, muts, at, "");
      case GC(w) => CollectStamped(s, w, LastIndex(before));
    }
  }

  /** The store refines the locked store over every run, with garbage collection at any watermark anywhere in it:
      version numbers and latest documents agree, and the next transaction gets the same verdict from both. */
  lemma {:induction false} Refinement(show: Show, field: string, ops: seq<Op>)
    ensures Refines(RunStore(show, field, ops), RunLocked(ops))
    ensures forall muts, at :: Apply(RunStore(show, field, ops), show, muts, at).1 ==
              LockedApply(RunLocked(ops), muts).1
  {
    if ops == [] {
      forall id
        ensures RefinesAt(RunStore(show, field, ops), RunLocked(ops), id)
      {
      }
    } else {
      var before := ops[..|ops| - 1];
      Refinement(show, field, before);
      match ops[|ops| - 1]
      case Txn(muts, at) => ApplyRefines(RunStore(show, field, before), RunLocked(before), show, muts, at);
      case GC(w) => CollectRefines(RunStore(show, field, before), RunLocked(before), w);
    }
    forall muts, at
      ensures Apply(RunStore(show, field, ops), show, muts, at).1 == LockedApply(RunLocked(ops), muts).1
    {
      ApplyRefines(RunStore(show, field, ops), RunLocked(ops), show, muts, at);
    }
  }

  /** Some transaction since the last accepted one was cut short after taking effect. */
  ghost predicate Dangling(ops: seq<Op>) {
    if ops == [] then false
    else
      var before := ops[..|ops| - 1];
      match ops[|ops| - 1]
      case GC(_) => Dangling(before)
      case Txn(muts, _) =>
        if !LockedAdmits(RunLocked(before), muts) then Dangling(before)
        else GoodPrefix(muts) < |muts| && (!AllOrNothing(muts) || Dangling(before))
  }

  /** A snapshot taken now sees the last version of the document. */
  ghost predicate SeesEnd(s: Store, id: string) {
    var chain := ChainOf(s, id);
    chain != [] ==> VersionAt(chain, s.commitIndex) == Some(chain[|chain| - 1])
  }

  ghost predicate SeesEnds(s: Store) {
    forall id {:trigger SeesEnd(s, id)} :: SeesEnd(s, id)
  }

  lemma {:induction false} RunSettled(show: Show, field: string, ops: seq<Op>)
    requires Ascending(ops) && !Dangling(ops)
    ensures StampedBy(RunStore(show, field, ops), RunStore(show, field, ops).commitIndex)
  {
    if ops == [] {
    } else {
      var before := ops[..|ops| - 1];
      RunStamped(show, field, before);
      Refinement(show, field, before);
      var s := RunStore(show, field, before);
      match ops[|ops| - 1]
      case Txn(muts, at) =>
        ApplyGrows(s, show, muts, at, "");
        if Apply(s, show, muts, at).1 == Done {
          ApplyStamped(s, show, muts, at, LastIndex(before));
        } else {
          assert Apply(s, show, muts, at).1 == LockedApply(RunLocked(before), muts).1;
          RunSettled(show, field, before);
          FailureAtomicExactly(s, show, muts, at);
        }
      case GC(w) =>
        RunSettled(show, field, before);
        CollectStamped(s, w, s.commitIndex);
    }
  }

  /** The last version of `id` is stamped past the commit index. */
  ghost predicate Hidden(s: Store, id: string) {
    var chain := ChainOf(s, id);
    chain != [] && chain[|chain| - 1].committedAt > s.commitIndex
  }

  lemma {:induction false} RunDangles(show: Show, field: string, ops: seq<Op>) returns (id: string)
    requires Ascending(ops) && Dangling(ops)
    ensures Hidden(RunStore(show, field, ops), id)
  {
    var before := ops[..|ops| - 1];
    RunStamped(show, field, before);
    Refinement(show, field, before);
    var s := RunStore(show, field, before);
    match ops[|ops| - 1]
    case Txn(muts, at) =>
      assert Apply(s, show, muts, at).1 == LockedApply(RunLocked(before), muts).1 != Done;
      if LockedAdmits(RunLocked(before), muts) && !AllOrNothing(muts) {
        id := CutShortHides(s, show, muts, at);
      } else {
        id := RunDangles(show, field, before);
        ApplyGrows(s, show, muts, at, id);
        StaysHidden(s, Apply(s, show, muts, at).0, at, id);
      }
    case GC(w) => id := RunDangles(show, field, before);
  }

  lemma CutShortHides(s: Store, show: Show, muts: seq<Mutation>, at: int) returns (id: string)
    requires Apply(s, show, muts, at).1 == BadData && !AllOrNothing(muts) && s.commitIndex < at
    ensures Hidden(Apply(s, show, muts, at).0, id)
  {
    var i :| 0 <= i < GoodPrefix(muts) && Effective(muts[i]);
    id := muts[i].id;
    SomeEffect(s, show, muts[..GoodPrefix(muts)], at, i);
    ApplyGrows(s, show, muts, at, id);
  }

  lemma StaysHidden(s: Store, t: Store, at: int, id: string)
    requires Hidden(s, id) && Grown(ChainOf(s, id), ChainOf(t, id), at) && t.commitIndex == s.commitIndex < at
    ensures Hidden(t, id)
  {
    var older, newer := ChainOf(s, id), ChainOf(t, id);
    assert |newer| == |older| ==> newer[..|older|] == newer;
  }

  /** A fresh snapshot sees the last version of every document exactly when no transaction since the last accepted one
      was cut short after taking effect. */
  lemma FreshSeesEndsExactly(show: Show, field: string, ops: seq<Op>)
    requires Ascending(ops)
    ensures SeesEnds(RunStore(show, field, ops)) <==> !Dangling(ops)
  {
    var s := RunStore(show, field, ops);
    if Dangling(ops) {
      var id := RunDangles(show, field, ops);
      VersionStamp(ChainOf(s, id), s.commitIndex);
      assert SeesEnds(s) ==> SeesEnd(s, id);
    } else {
      RunSettled(show, field, ops);
      forall id ensures SeesEnd(s, id) {
        assert StampedAt(s, s.commitIndex, id);
        VersionAtIs(ChainOf(s, id), s.commitIndex, |ChainOf(s, id)|);
      }
    }
  }

  lemma {:induction false} VersionStamp(chain: Chain, at: int)
    ensures VersionAt(chain, at).Some? ==> VersionAt(chain, at).value.committedAt <= at
    decreases |chain|
  {
    if chain != [] && chain[|chain| - 1].committedAt > at { VersionStamp(chain[..|chain| - 1], at); }
  }

  lemma FreshIsLatest(s: Store, id: string)
    requires StampedBy(s, s.commitIndex)
    ensures Read(s, s.commitIndex, id) == LatestDoc(ChainOf(s, id))
  {
    assert StampedAt(s, s.commitIndex, id);
    var chain := ChainOf(s, id);
    VersionAtIs(chain, s.commitIndex, |chain|);
  }

  /** Then a fresh snapshot answers every read as the locked store would. */
  lemma FreshReadsAgree(show: Show, field: string, ops: seq<Op>, id: string)
    requires Ascending(ops) && !Dangling(ops)
    ensures var s := RunStore(show, field, ops);
            Read(s, s.commitIndex, id) == LockedGet(RunLocked(ops), id)
  {
    RunSettled(show, field, ops);
    FreshIsLatest(RunStore(show, field, ops), id);
    Refinement(show, field, ops);
    assert RefinesAt(RunStore(show, field, ops), RunLocked(ops), id);
  }

  /** Every garbage collection from step `i` on stays at or below `at`. */
  ghost predicate CollectsBelow(ops: seq<Op>, i: nat, at: int) {
    forall j :: i <= j < |ops| && ops[j].GC? ==> ops[j].watermark <= at
  }

  /** From a moment on whose last index is at least `at`, reads at `at` stay the same. Later transactions may do
      anything, even fail halfway; later collections must stay at or below `at`. */
  lemma {:induction false} ReadsStay(show: Show, field: string, ops: seq<Op>, i: nat, at: int, id: string)
    requires Ascending(ops) && i <= |ops| && at <= LastIndex(ops[..i]) && CollectsBelow(ops, i, at)
    ensures Read(RunStore(show, field, ops), at, id) == Read(RunStore(show, field, ops[..i]), at, id)
    decreases |ops|
  {
    if i == |ops| {
      assert ops[..i] == ops;
    } else {
      var before := ops[..|ops| - 1];
      assert before[..i] == ops[..i];
      ReadsStay(show, field, before, i, at, id);
      RunStamped(show, field, before);
      AscendingPrefix(before, i);
      var s := RunStore(show, field, before);
      SortedFrom(s, LastIndex(before));
      match ops[|ops| - 1]
      case Txn(muts, raftIndex) => SnapshotStable(s, show, muts, raftIndex, at, id);
      case GC(w) => CollectStable(s, w, at, id);
    }
  }

  /**
   A snapshot taken after the first `i` operations reads, for ever after, exactly what the locked store held at that
   moment: all of every transaction accepted before it and nothing of any later one.
   */
  lemma SnapshotsAreMoments(show: Show, field: string, ops: seq<Op>, i: nat, id: string)
    requires Ascending(ops) && i <= |ops| && !Dangling(ops[..i])
    requires CollectsBelow(ops, i, RunStore(show, field, ops[..i]).commitIndex)
    ensures Read(RunStore(show, field, ops), RunStore(show, field, ops[..i]).commitIndex, id) ==
              LockedGet(RunLocked(ops[..i]), id)
  {
    AscendingPrefix(ops, i);
    RunStamped(show, field, ops[..i]);
    ReadsStay(show, field, ops, i, RunStore(show, field, ops[..i]).commitIndex, id);
    FreshReadsAgree(show, field, ops[..i], id);
  }

  /** Without that condition the two stores part: after the failed transaction above the locked store has the document
      and a fresh snapshot of this one does not. */
  lemma FreshReadsPart(show: Show, field: string)
    ensures var put, bad := Mutation("put", "a", Some(map[]), None), Mutation("put", "b", None, None);
            var ops := [Txn([put, bad], 1)];
            var s := RunStore(show, field, ops);
            Ascending(ops) && Read(s, s.commitIndex, "a") == None && LockedGet(RunLocked(ops), "a") == Some(map[])
  {
    var put, bad := Mutation("put", "a", Some(map[]), None), Mutation("put", "b", None, None);
    var ops := [Txn([put, bad], 1)];
    var s, l := RunStore(show, field, []), RunLocked([]);
    assert ops[..0] == [];
    PutThenBad(s, l, show, put, bad, 1);
    var after := RunStore(show, field, ops);
    var v := Version(1, map[], 1, false);
    assert ChainOf(after, "a") == [v] && after.commitIndex == 0;
    VersionAtIs([v], 0, 0);
    assert RunLocked(ops) == LockedOne(l, put);
  }

  /** A put followed by one that does not decode: the first lands in both stores, and the commit index stays. */
  lemma PutThenBad(s: Store, l: Locked, show: Show, put: Mutation, bad: Mutation, at: int)
    requires put.op == "put" && put.body.Some? && put.expected.None? && Bad(bad) && bad.expected.None?
    ensures Apply(s, show, [put, bad], at) == (CommitOne(s, show, put, at), BadData)
    ensures LockedApply(l, [put, bad]) == (LockedOne(l, put), BadData)
    ensures GoodPrefix([put, bad]) == 1
  {
    var muts := [put, bad];
    assert GoodPrefix(muts[1..]) == 0;
    assert muts[..1] == [put] && [put][..0] == [];
    assert CommitAll(s, show, [put], at) == CommitOne(s, show, put, at);
    assert LockedAll(l, [put]) == LockedOne(l, put);
  }

  /** One put that decodes. */
  lemma JustPut(s: Store, show: Show, put: Mutation, at: int)
    requires put.op == "put" && put.body.Some? && put.expected.None?
    ensures Apply(s, show, [put], at) == (CommitOne(s, show, put, at).(commitIndex := at), Done)
  {
    assert GoodPrefix([put][1..]) == 0;
    assert [put][..1] == [put] && [put][..0] == [];
    assert CommitAll(s, show, [put], at) == CommitOne(s, show, put, at);
  }

  lemma {:induction false} AscendingPrefix(ops: seq<Op>, i: nat)
    requires Ascending(ops) && i <= |ops|
    ensures Ascending(ops[..i]) && LastIndex(ops[..i]) <= LastIndex(ops)
    decreases |ops|
  {
    if i == |ops| {
      assert ops[..i] == ops;
    } else {
      assert ops[..|ops| - 1][..i] == ops[..i];
      AscendingPrefix(ops[..|ops| - 1], i);
    }
  }
}
