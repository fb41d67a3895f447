/**
 What the two document stores hold and answer, told from the transactions of the run alone: which mutations took effect,
 what the verdict on a transaction is, and what it leaves.
 */
module DocHistory {
  import opened Documents
  import opened Options
  import opened MVCCStore
  import opened MVCCTheorems

  // ----- which mutations take effect -----

  /** The mutations a transaction that passes validation comes to: all before the first put without a document. */
  function Reached(muts: seq<Mutation>): seq<Mutation> {
    if muts == [] || (muts[0].op == "put" && muts[0].body.None?) then [] else [muts[0]] + Reached(muts[1..])
  }

  /** The puts and deletes of `id`. */
  function EffectsOn(muts: seq<Mutation>, id: string): seq<Mutation> {
    if muts == [] then []
    else
      var rest, m := EffectsOn(muts[..|muts| - 1], id), muts[|muts| - 1];
      if m.id == id && (m.op == "put" || m.op == "delete") then rest + [m] else rest
  }

  /** The puts and deletes of `id` that took effect in a run. */
  ghost function Landed(ops: seq<Op>, id: string): seq<Mutation>
    decreases |ops|, 0
  {
    if ops == [] then []
    else
      var before, op := ops[..|ops| - 1], ops[|ops| - 1];
      if op.Txn? && Expected(before, op.muts) then Landed(before, id) + EffectsOn(Reached(op.muts), id)
      else Landed(before, id)
  }

  /** Every version a transaction expects is the number of puts and deletes of that document so far. */
  ghost predicate Expected(ops: seq<Op>, muts: seq<Mutation>)
    decreases |ops|, 1
  {
    forall i :: 0 <= i < |muts| && muts[i].expected.Some? ==> muts[i].expected.value == |Landed(ops, muts[i].id)|
  }

  /** The document a history of puts and deletes leaves. */
  function Outlook(landed: seq<Mutation>): Option<Document> {
    if landed == [] || landed[|landed| - 1].op != "put" then None else landed[|landed| - 1].body
  }

  // ----- the locked store -----

  lemma {:induction false} ReachedIs(muts: seq<Mutation>)
    ensures Reached(muts) == muts[..GoodPrefix(muts)]
    ensures |Reached(muts)| == |muts| <==> forall i :: 0 <= i < |muts| && muts[i].op == "put" ==> muts[i].body.Some?
  {
    if muts == [] || Bad(muts[0]) {
    } else {
      ReachedIs(muts[1..]);
      assert forall i :: 0 < i < |muts| ==> muts[i] == muts[1..][i - 1];
    }
  }

  lemma {:induction false} LockedAllLands(l: Locked, muts: seq<Mutation>, id: string, landed: seq<Mutation>)
    requires forall i :: 0 <= i < |muts| ==> !Bad(muts[i])
    requires LockedVersion(l, id) == |landed| && LockedGet(l, id) == Outlook(landed)
    ensures var l', all := LockedAll(l, muts), landed + EffectsOn(muts, id);
            LockedVersion(l', id) == |all| && LockedGet(l', id) == Outlook(all)
  {
    if muts == [] {
      assert landed + [] == landed;
    } else {
      var front, m := muts[..|muts| - 1], muts[|muts| - 1];
      LockedAllLands(l, front, id, landed);
      assert m.id == id && (m.op == "put" || m.op == "delete") ==>
          landed + EffectsOn(muts, id) == landed + EffectsOn(front, id) + [m];
    }
  }

  lemma ExpectedIs(ops: seq<Op>, muts: seq<Mutation>)
    requires forall id :: LockedVersion(RunLocked(ops), id) == |Landed(ops, id)|
    ensures LockedAdmits(RunLocked(ops), muts) <==> Expected(ops, muts)
  {
  }

  /** Version counts the puts and deletes of a document that took effect, and Get gives the last of them: the body of a
      put, nothing after a delete. */
  lemma {:induction false} LockedIsHistory(ops: seq<Op>, id: string)
    ensures LockedVersion(RunLocked(ops), id) == |Landed(ops, id)|
    ensures LockedGet(RunLocked(ops), id) == Outlook(Landed(ops, id))
  {
    if ops == [] {
    } else {
      var before := ops[..|ops| - 1];
      forall other ensures LockedVersion(RunLocked(before), other) == |Landed(before, other)| {
        LockedIsHistory(before, other);
      }
      LockedIsHistory(before, id);
      match ops[|ops| - 1]
      case Txn(muts, _) =>
        ExpectedIs(before, muts);
        ReachedIs(muts);
        LockedAllLands(RunLocked(before), muts[..GoodPrefix(muts)], id, Landed(before, id));
      case GC(_) =>
    }
  }

  // ----- verdicts -----

  /**
   After any run both stores give a transaction the same verdict: a conflict if some version it expects is not the
   number of puts and deletes of that document so far, bad data if a put has no document, and success otherwise. A
   delete needs no data, and an unknown operation never fails.
   */
  lemma VerdictExactly(show: Show, field: string, ops: seq<Op>, muts: seq<Mutation>, at: int)
    ensures Apply(RunStore(show, field, ops), show, muts, at).1 == LockedApply(RunLocked(ops), muts).1 ==
              if !Expected(ops, muts) then Conflict
              else if forall i :: 0 <= i < |muts| && muts[i].op == "put" ==> muts[i].body.Some? then Done
              else BadData
  {
    Refinement(show, field, ops);
    forall id ensures LockedVersion(RunLocked(ops), id) == |Landed(ops, id)| { LockedIsHistory(ops, id); }
    ExpectedIs(ops, muts);
    ReachedIs(muts);
  }

  /** Mutation `k` is the last put or delete of its document in `muts`. */
  ghost predicate LastOn(muts: seq<Mutation>, k: nat) {
    && k < |muts| && (muts[k].op == "put" || muts[k].op == "delete")
    && forall i :: k < i < |muts| && (muts[i].op == "put" || muts[i].op == "delete") ==> muts[i].id != muts[k].id
  }

  lemma {:induction false} LastEffect(muts: seq<Mutation>, k: nat)
    requires LastOn(muts, k)
    ensures EffectsOn(muts, muts[k].id) != []
    ensures var e := EffectsOn(muts, muts[k].id); e[|e| - 1] == muts[k]
  {
    var n := |muts| - 1;
    if k == n {
    } else {
      LastEffect(muts[..n], k);
    }
  }

  /** A transaction that succeeds leaves of every document it puts or deletes what its last put or delete says, in the
      locked store and in a fresh snapshot of the other: the new document, or none. */
  lemma DoneLeaves(show: Show, field: string, ops: seq<Op>, muts: seq<Mutation>, at: int, k: nat)
    requires Ascending(ops + [Txn(muts, at)]) && LastOn(muts, k)
    requires Apply(RunStore(show, field, ops), show, muts, at).1 == Done
    ensures var all := ops + [Txn(muts, at)];
            var s := RunStore(show, field, all);
            && LockedGet(RunLocked(all), muts[k].id) == (if muts[k].op == "put" then muts[k].body else None)
            && Read(s, s.commitIndex, muts[k].id) == LockedGet(RunLocked(all), muts[k].id)
  {
    var all, id := ops + [Txn(muts, at)], muts[k].id;
    assert all[..|ops|] == ops;
    VerdictExactly(show, field, ops, muts, at);
    ReachedIs(muts);
    assert Reached(muts) == muts;
    LastEffect(muts, k);
    LockedIsHistory(all, id);
    assert !Dangling(all);
    FreshReadsAgree(show, field, all, id);
  }

  // ----- the index -----

  /** A put that has the indexed field with a value that prints as `key`. */
  ghost predicate Enters(m: Mutation, show: Show, field: string, key: string) {
    m.op == "put" && m.body.Some? && field in m.body.value && show(m.body.value[field]) == key
  }

  /** The ids of the mutations that enter `key`, in order. */
  ghost function EntriesOf(muts: seq<Mutation>, show: Show, field: string, key: string): seq<string> {
    if muts == [] then []
    else
      var rest, m := EntriesOf(muts[..|muts| - 1], show, field, key), muts[|muts| - 1];
      if Enters(m, show, field, key) then rest + [m.id] else rest
  }

  /** What the index should hold under `key`: an id for every put that took effect and has the value, in order. */
  ghost function Entries(ops: seq<Op>, show: Show, field: string, key: string): seq<string> {
    if ops == [] then []
    else
      var before, op := ops[..|ops| - 1], ops[|ops| - 1];
      if op.Txn? && Expected(before, op.muts)
      then Entries(before, show, field, key) + EntriesOf(Reached(op.muts), show, field, key)
      else Entries(before, show, field, key)
  }

  lemma {:induction false} CommitAllEnters(s: Store, show: Show, muts: seq<Mutation>, at: int, key: string)
    requires forall i :: 0 <= i < |muts| ==> !Bad(muts[i])
    ensures var s' := CommitAll(s, show, muts, at);
            && s'.indexField == s.indexField
            && (s.indexField != "" ==>
                  Candidates(s', key) == Candidates(s, key) + EntriesOf(muts, show, s.indexField, key))
            && (s.indexField == "" ==> s'.index == s.index)
  {
    if muts == [] {
      assert Candidates(s, key) + [] == Candidates(s, key);
    } else {
      var front, m := muts[..|muts| - 1], muts[|muts| - 1];
      CommitAllEnters(s, show, front, at, key);
      CommitOneEnters(CommitAll(s, show, front, at), show, m, at, key);
    }
  }

  lemma CommitOneEnters(s: Store, show: Show, m: Mutation, at: int, key: string)
    requires !Bad(m)
    ensures var s' := CommitOne(s, show, m, at);
            && s'.indexField == s.indexField
            && (s.indexField != "" ==>
                  Candidates(s', key) ==
                    Candidates(s, key) + if Enters(m, show, s.indexField, key) then [m.id] else [])
            && (s.indexField == "" ==> s'.index == s.index)
  {
    assert Candidates(s, key) + [] == Candidates(s, key);
  }

  /** After any run the index has, under every key, the ids of the puts that took effect and gave the indexed field a
      value that prints as the key, in order and whatever was collected since. Without an indexed field it is empty. */
  lemma {:induction false} IndexExactly(show: Show, field: string, ops: seq<Op>, key: string)
    ensures var s := RunStore(show, field, ops);
            && s.indexField == field
            && (field != "" ==> Candidates(s, key) == Entries(ops, show, field, key))
            && (field == "" ==> s.index == map[])
  {
    if ops == [] {
    } else {
      var before := ops[..|ops| - 1];
      var s := RunStore(show, field, before);
      IndexExactly(show, field, before, key);
      match ops[|ops| - 1]
      case Txn(muts, at) =>
        VerdictExactly(show, field, before, muts, at);
        ReachedIs(muts);
        if Expected(before, muts) { CommitAllEnters(s, show, Reached(muts), at, key); }
      case GC(_) =>
    }
  }

  // ----- garbage collection -----

  /** `kept` is the end of `chain` from the last version stamped at or before `w` on, or all of it if there is none. */
  ghost predicate KeptFrom(chain: Chain, kept: Chain, w: int) {
    && |kept| <= |chain| && kept == chain[|chain| - |kept|..]
    && (forall i :: 0 < i < |kept| ==> kept[i].committedAt > w)
    && (|kept| < |chain| ==> kept != [] && kept[0].committedAt <= w)
  }

  lemma PruneKeeps(chain: Chain, w: int)
    requires Sorted(chain)
    ensures KeptFrom(chain, Prune(chain, w), w)
  {
    var k := Leading(chain, w);
    assert k <= 1 ==> chain[|chain| - |chain|..] == chain;
    assert forall i :: k <= i < |chain| ==> chain[k].committedAt <= chain[i].committedAt;
  }

  lemma CollectKeeps(s: Store, w: int, id: string)
    requires Sorted(ChainOf(s, id))
    ensures KeptFrom(ChainOf(s, id), ChainOf(Collect(s, w), id), w)
  {
    PruneKeeps(ChainOf(s, id), w);
    PruneKeeps([], w);
  }

  /**
   Collecting at `w` after any run keeps of every document the versions stamped after `w` and the last one before, which
   a snapshot at `w` reads, and nothing else.
   */
  lemma CollectExactly(show: Show, field: string, ops: seq<Op>, w: int, id: string)
    requires Ascending(ops)
    ensures KeptFrom(ChainOf(RunStore(show, field, ops), id), ChainOf(RunStore(show, field, ops + [GC(w)]), id), w)
  {
    var s := RunStore(show, field, ops);
    RunStamped(show, field, ops);
    assert StampedAt(s, LastIndex(ops), id);
    CollectKeeps(s, w, id);
    var all := ops + [GC(w)];
    assert all[..|ops|] == ops && RunStore(show, field, all) == Collect(s, w);
  }
}
