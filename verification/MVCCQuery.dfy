/**
 Queries by the indexed field and full scans. The index is an unversioned superset read once; every
 candidate is then checked against the snapshot in a lock section of its own, with any writes in between.
 */
module MVCCQuery {
  import opened Documents
  import opened Options
  import opened Sequences
  import opened MVCCStore
  import opened MVCCTheorems

  /** What fmt.Sprintf("%v", nil) prints, and so what a missing field prints as. */
  const NIL_TEXT: string := "<nil>"

  function Print(show: Show, doc: Document, field: string): string {
    if field in doc then show(doc[field]) else NIL_TEXT
  }

  /** The snapshot's document for `id` prints `value` at the indexed field. */
  predicate Prints(s: Store, show: Show, at: int, id: string, value: string) {
    var doc := Read(s, at, id);
    doc.Some? && Print(show, doc.value, s.indexField) == value
  }

  /** The snapshot's document for `id` has the indexed field, with a value that prints as `value`. */
  predicate Holds(s: Store, show: Show, at: int, id: string, value: string) {
    var doc := Read(s, at, id);
    doc.Some? && s.indexField in doc.value && show(doc.value[s.indexField]) == value
  }

  /** The stores the re-checks see: same indexed field, same answers at the snapshot's point. */
  ghost predicate SameReads(first: Store, checks: seq<Store>, at: int) {
    forall k, id {:trigger SameRead(first, checks[k], at, id)} :: 0 <= k < |checks| ==>
      SameRead(first, checks[k], at, id)
  }

  ghost predicate SameRead(first: Store, check: Store, at: int, id: string) {
    check.indexField == first.indexField && Read(check, at, id) == Read(first, at, id)
  }

  /** `result` is the candidates that print `value` in the snapshot, each once. */
  ghost predicate Answers(result: seq<string>, show: Show, at: int, value: string, first: Store) {
    && NoRepeats(result)
    && forall id :: id in result <==> id in Candidates(first, value) && Prints(first, show, at, id, value)
  }

  /** `result` is the ids that exist in the snapshot, each once. */
  ghost predicate Lists(result: seq<string>, at: int, first: Store) {
    && NoRepeats(result)
    && forall id :: id in result <==> Read(first, at, id).Some?
  }

  /** Snapshot.QueryByIndex. Candidates come from `first`; the k-th one is checked against `checks[k]`. */
  method QueryByIndex(show: Show, at: int, value: string, first: Store, checks: seq<Store>)
    returns (result: seq<string>)
    requires |checks| == |Candidates(first, value)| && SameReads(first, checks, at)
    ensures Answers(result, show, at, value, first)
  {
    var candidates := Candidates(first, value);
    var seen: set<string> := {};
    result := [];
    for k := 0 to |candidates|
      invariant seen == set id | id in candidates[..k]
      invariant NoRepeats(result)
      invariant forall id :: id in result <==> id in seen && Prints(first, show, at, id, value)
    {
      var id := candidates[k];
      assert candidates[..k + 1] == candidates[..k] + [id];
      if id in seen {
        continue;
      }
      seen := seen + {id};
      assert SameRead(first, checks[k], at, id);
      var doc := Read(checks[k], at, id);
      if doc.None? {
        continue;
      }
      if Print(show, doc.value, checks[k].indexField) == value {
        result := result + [id];
      }
    }
    assert candidates[..|candidates|] == candidates;
  }

  /** Snapshot.Scan, over the ids the collection held when it was listed, in any order. */
  method Scan(at: int, ids: seq<string>, first: Store, checks: seq<Store>) returns (result: seq<string>)
    requires NoRepeats(ids) && (forall id :: id in ids <==> id in first.chains)
    requires |checks| == |ids| && SameReads(first, checks, at)
    ensures Lists(result, at, first)
  {
    result := [];
    for k := 0 to |ids|
      invariant NoRepeats(result)
      invariant forall id :: id in result <==> id in ids[..k] && Read(first, at, id).Some?
    {
      assert ids[..k + 1] == ids[..k] + [ids[k]] && ids[k] !in ids[..k];
      assert SameRead(first, checks[k], at, ids[k]);
      if Read(checks[k], at, ids[k]).Some? {
        result := result + [ids[k]];
      }
    }
    assert ids[..|ids|] == ids;
  }

  // ----- the index covers every version -----

  ghost predicate Covered(s: Store, show: Show) {
    forall id {:trigger CoveredAt(s, show, id)} :: CoveredAt(s, show, id)
  }

  ghost predicate CoveredAt(s: Store, show: Show, id: string) {
    forall i :: 0 <= i < |ChainOf(s, id)| ==> CoveredVersion(s, show, id, ChainOf(s, id)[i])
  }

  ghost predicate CoveredVersion(s: Store, show: Show, id: string, v: Version) {
    !v.deleted && s.indexField != "" && s.indexField in v.data ==> id in Candidates(s, show(v.data[s.indexField]))
  }

  lemma CommitOneCovered(s: Store, show: Show, m: Mutation, at: int)
    requires Covered(s, show) && !Bad(m)
    ensures Covered(CommitOne(s, show, m, at), show)
  {
    var t := CommitOne(s, show, m, at);
    forall id
      ensures CoveredAt(t, show, id)
    {
      assert CoveredAt(s, show, id);
      var older, newer := ChainOf(s, id), ChainOf(t, id);
      forall i | 0 <= i < |newer|
        ensures CoveredVersion(t, show, id, newer[i])
      {
        if i < |older| { assert newer[i] == older[i] && CoveredVersion(s, show, id, older[i]); }
      }
    }
  }

  lemma {:induction false} CommitAllCovered(s: Store, show: Show, muts: seq<Mutation>, at: int)
    requires Covered(s, show) && forall i :: 0 <= i < |muts| ==> !Bad(muts[i])
    ensures Covered(CommitAll(s, show, muts, at), show)
  {
    if muts == [] {
    } else {
      CommitAllCovered(s, show, muts[..|muts| - 1], at);
      CommitOneCovered(CommitAll(s, show, muts[..|muts| - 1], at), show, muts[|muts| - 1], at);
    }
  }

  lemma ApplyCovered(s: Store, show: Show, muts: seq<Mutation>, at: int)
    requires Covered(s, show)
    ensures Covered(Apply(s, show, muts, at).0, show)
  {
    var t, good := Apply(s, show, muts, at).0, CommitAll(s, show, muts[..GoodPrefix(muts)], at);
    CommitAllCovered(s, show, muts[..GoodPrefix(muts)], at);
    if Admits(s, muts) {
      forall id
        ensures CoveredAt(t, show, id)
      {
        assert CoveredAt(good, show, id);
        forall i | 0 <= i < |ChainOf(t, id)|
          ensures CoveredVersion(t, show, id, ChainOf(t, id)[i])
        {
          assert CoveredVersion(good, show, id, ChainOf(good, id)[i]);
        }
      }
    }
  }

  lemma {:induction false} RunCovered(show: Show, field: string, ops: seq<Op>)
    ensures Covered(RunStore(show, field, ops), show)
  {
    if ops == [] {
      assert forall id :: ChainOf(RunStore(show, field, ops), id) == [];
    } else {
      RunCovered(show, field, ops[..|ops| - 1]);
      var s, t := RunStore(show, field, ops[..|ops| - 1]), RunStore(show, field, ops);
      match ops[|ops| - 1]
      case Txn(muts, at) =>
        ApplyCovered(s, show, muts, at);
      case GC(w) => CollectCovered(s, show, w);
    }
  }

  lemma CollectCovered(s: Store, show: Show, w: int)
    requires Covered(s, show)
    ensures Covered(Collect(s, w), show)
  {
    var t := Collect(s, w);
    forall id
      ensures CoveredAt(t, show, id)
    {
      assert CoveredAt(s, show, id);
      var older, newer := ChainOf(s, id), ChainOf(t, id);
      forall i | 0 <= i < |newer|
        ensures CoveredVersion(t, show, id, newer[i])
      {
        var j := i + (|older| - |newer|);
        assert newer[i] == older[j] && CoveredVersion(s, show, id, older[j]);
      }
    }
  }

  // ----- what a query answers -----

  lemma {:induction false} VersionInChain(chain: Chain, at: int)
    ensures VersionAt(chain, at).Some? ==> VersionAt(chain, at).value in chain
    decreases |chain|
  {
    if chain != [] && chain[|chain| - 1].committedAt > at { VersionInChain(chain[..|chain| - 1], at); }
  }

  /** Whoever holds the value is a candidate. */
  lemma HolderIsCandidate(s: Store, show: Show, at: int, id: string, value: string)
    requires Covered(s, show) && s.indexField != "" && Holds(s, show, at, id, value)
    ensures id in Candidates(s, value)
  {
    VersionInChain(ChainOf(s, id), at);
    assert CoveredAt(s, show, id);
  }

  /** A candidate whose document at the snapshot has lost the field. */
  ghost predicate Stray(s: Store, show: Show, at: int, id: string, value: string) {
    id in Candidates(s, value) && Read(s, at, id).Some? && s.indexField !in Read(s, at, id).value
  }

  /**
   The ids a query returns are exactly the holders of the value, unless the value is the text a missing field prints
   as and some candidate has lost the field. In particular every other value is always answered exactly.
   */
  lemma QueryExactly(s: Store, show: Show, at: int, value: string)
    requires Covered(s, show) && s.indexField != ""
    ensures (forall id :: id in Candidates(s, value) && Prints(s, show, at, id, value) <==>
              Holds(s, show, at, id, value))
            <==> (value == NIL_TEXT ==> forall id :: !Stray(s, show, at, id, value))
  {
    forall id | Holds(s, show, at, id, value)
      ensures id in Candidates(s, value)
    {
      HolderIsCandidate(s, show, at, id, value);
    }
    if value == NIL_TEXT && exists id :: Stray(s, show, at, id, value) {
      var id :| Stray(s, show, at, id, value);
      assert Prints(s, show, at, id, value) && !Holds(s, show, at, id, value);
    } else {
      forall id
        ensures id in Candidates(s, value) && Prints(s, show, at, id, value) <==> Holds(s, show, at, id, value)
      {
        assert value == NIL_TEXT ==> !Stray(s, show, at, id, value);
      }
    }
  }

  /** Such a candidate exists: a document first has the field with a null value and then loses it. The query for the
      text null prints as returns it, although it no longer has the field. */
  lemma StrayExists(show: Show)
    requires show(Null) == NIL_TEXT
    ensures var ops := [Txn([Mutation("put", "a", Some(map["f" := Null]), None)], 1),
                        Txn([Mutation("put", "a", Some(map[]), None)], 2)];
            Stray(RunStore(show, "f", ops), show, 2, "a", NIL_TEXT)
  {
    var one, two := Mutation("put", "a", Some(map["f" := Null]), None), Mutation("put", "a", Some(map[]), None);
    var ops := [Txn([one], 1), Txn([two], 2)];
    var s := Store(map[], map[], "f", 0);
    assert ops[..1] == [Txn([one], 1)] && ops[..1][..0] == [];
    JustPut(s, show, one, 1);
    JustPut(Apply(s, show, [one], 1).0, show, two, 2);
    assert RunStore(show, "f", ops[..1]) == Apply(s, show, [one], 1).0;
  }

  /** The store after each of the given numbers of operations. */
  ghost function StoresAt(show: Show, field: string, ops: seq<Op>, moments: seq<nat>): (r: seq<Store>)
    requires forall k :: 0 <= k < |moments| ==> moments[k] <= |ops|
    ensures |r| == |moments| && forall k :: 0 <= k < |r| ==> r[k] == RunStore(show, field, ops[..moments[k]])
  {
    if moments == [] then []
    else StoresAt(show, field, ops, moments[..|moments| - 1]) + [RunStore(show, field, ops[..moments[|moments| - 1]])]
  }

  /** Whatever commits between the candidate read and the re-checks, the re-checks see the snapshot: candidates are read
      after `j` operations and the k-th re-check runs after `moments[k]`. */
  lemma RechecksSeeSnapshot(show: Show, field: string, ops: seq<Op>, j: nat, moments: seq<nat>, at: int)
    requires Ascending(ops) && j <= |ops| && at <= LastIndex(ops[..j]) && CollectsBelow(ops, j, at)
    requires forall k :: 0 <= k < |moments| ==> j <= moments[k] <= |ops|
    ensures SameReads(RunStore(show, field, ops[..j]), StoresAt(show, field, ops, moments), at)
  {
    var first, checks := RunStore(show, field, ops[..j]), StoresAt(show, field, ops, moments);
    forall k, id | 0 <= k < |checks|
      ensures SameRead(first, checks[k], at, id)
    {
      RecheckSees(show, field, ops, j, moments[k], at, id);
    }
  }

  lemma RecheckSees(show: Show, field: string, ops: seq<Op>, j: nat, k: nat, at: int, id: string)
    requires Ascending(ops) && j <= k <= |ops| && at <= LastIndex(ops[..j]) && CollectsBelow(ops, j, at)
    ensures SameRead(RunStore(show, field, ops[..j]), RunStore(show, field, ops[..k]), at, id)
  {
    var later := ops[..k];
    assert later[..j] == ops[..j];
    AscendingPrefix(ops, k);
    AscendingPrefix(ops, j);
    ReadsStay(show, field, later, j, at, id);
    RunStamped(show, field, later);
    RunStamped(show, field, ops[..j]);
  }

  // ----- queries over a run -----

  /** A snapshot is taken after `i` operations; a query or scan through it makes its first read after `j` and the others
      at `moments`, with any transactions in between and collections at or below the snapshot's point. */
  ghost predicate Schedule(show: Show, field: string, ops: seq<Op>, i: nat, j: nat, moments: seq<nat>) {
    && Ascending(ops) && i <= j <= |ops| && (forall k :: 0 <= k < |moments| ==> j <= moments[k] <= |ops|)
    && CollectsBelow(ops, i, RunStore(show, field, ops[..i]).commitIndex)
  }

  /** The first read and every later one find what the locked store held when the snapshot was taken. */
  lemma ScheduleReads(show: Show, field: string, ops: seq<Op>, i: nat, j: nat, moments: seq<nat>)
    requires Schedule(show, field, ops, i, j, moments) && !Dangling(ops[..i])
    ensures var at, first := RunStore(show, field, ops[..i]).commitIndex, RunStore(show, field, ops[..j]);
            && SameReads(first, StoresAt(show, field, ops, moments), at)
            && forall id :: Read(first, at, id) == LockedGet(RunLocked(ops[..i]), id)
  {
    var at := RunStore(show, field, ops[..i]).commitIndex;
    AscendingPrefix(ops, i);
    AscendingPrefix(ops, j);
    RunStamped(show, field, ops[..i]);
    assert ops[..j][..i] == ops[..i];
    AscendingPrefix(ops[..j], i);
    RechecksSeeSnapshot(show, field, ops, j, moments, at);
    forall id ensures Read(RunStore(show, field, ops[..j]), at, id) == LockedGet(RunLocked(ops[..i]), id) {
      SnapshotsAreMoments(show, field, ops[..j], i, id);
    }
  }

  /** The locked store holds a document for `id` whose field prints as `value`. */
  ghost predicate LockedHolds(l: Locked, show: Show, field: string, id: string, value: string) {
    var doc := LockedGet(l, id);
    doc.Some? && field in doc.value && show(doc.value[field]) == value
  }

  /** It holds one without the field. */
  ghost predicate LockedLacks(l: Locked, field: string, id: string) {
    var doc := LockedGet(l, id);
    doc.Some? && field !in doc.value
  }

  /**
   Index agreement. Whatever commits while a query runs, any answer within QueryByIndex's contract is exactly the ids
   whose document, in the locked store of the moment the snapshot was taken, has the field with that value. Only the
   text nil prints as can also bring candidates that lack the field.
   */
  lemma QueryAgrees(show: Show, field: string, ops: seq<Op>, i: nat, j: nat, moments: seq<nat>, value: string,
                    result: seq<string>, id: string)
    requires Schedule(show, field, ops, i, j, moments) && !Dangling(ops[..i]) && field != ""
    requires Answers(result, show, RunStore(show, field, ops[..i]).commitIndex, value, RunStore(show, field, ops[..j]))
    ensures SameReads(RunStore(show, field, ops[..j]), StoresAt(show, field, ops, moments),
                      RunStore(show, field, ops[..i]).commitIndex)
    ensures id in result <==>
              LockedHolds(RunLocked(ops[..i]), show, field, id, value) ||
              (value == NIL_TEXT && id in Candidates(RunStore(show, field, ops[..j]), value) &&
               LockedLacks(RunLocked(ops[..i]), field, id))
  {
    var at, first := RunStore(show, field, ops[..i]).commitIndex, RunStore(show, field, ops[..j]);
    ScheduleReads(show, field, ops, i, j, moments);
    AscendingPrefix(ops, j);
    RunStamped(show, field, ops[..j]);
    RunCovered(show, field, ops[..j]);
    assert Read(first, at, id) == LockedGet(RunLocked(ops[..i]), id);
    if Holds(first, show, at, id, value) { HolderIsCandidate(first, show, at, id, value); }
  }

  /** A scan's answer is exactly the ids of the documents the locked store held when the snapshot was taken. */
  lemma ScanAgrees(show: Show, field: string, ops: seq<Op>, i: nat, j: nat, moments: seq<nat>, result: seq<string>,
                   id: string)
    requires Schedule(show, field, ops, i, j, moments) && !Dangling(ops[..i])
    requires Lists(result, RunStore(show, field, ops[..i]).commitIndex, RunStore(show, field, ops[..j]))
    ensures SameReads(RunStore(show, field, ops[..j]), StoresAt(show, field, ops, moments),
                      RunStore(show, field, ops[..i]).commitIndex)
    ensures id in result <==> id in RunLocked(ops[..i]).docs
  {
    ScheduleReads(show, field, ops, i, j, moments);
    var at, first := RunStore(show, field, ops[..i]).commitIndex, RunStore(show, field, ops[..j]);
    assert Read(first, at, id) == LockedGet(RunLocked(ops[..i]), id);
  }
}
