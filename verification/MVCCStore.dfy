/**
 The MVCC document store: a chain of versions per document, each stamped with the Raft index it was
 committed at, and an unversioned index of which documents ever had a field value.
 */
module MVCCStore {
  import opened Documents
  import opened Options
  import opened GoSort

  datatype Version = Version(version: nat, data: Document, committedAt: int, deleted: bool)

  type Chain = seq<Version>

  /** `show` is fmt.Sprintf("%v", ...), which the store uses to turn a field value into an index key. */
  datatype Store = Store(
    chains: map<string, Chain>,
    index: map<string, seq<string>>,
    indexField: string,
    commitIndex: int)

  type Show = Value -> string

  function ChainOf(s: Store, id: string): Chain {
    if id in s.chains then s.chains[id] else []
  }

  function Candidates(s: Store, key: string): seq<string> {
    if key in s.index then s.index[key] else []
  }

  function LatestVersion(chain: Chain): nat {
    if chain == [] then 0 else chain[|chain| - 1].version
  }

  // ----- transactions -----

  predicate Admits(s: Store, muts: seq<Mutation>) {
    forall i :: 0 <= i < |muts| && muts[i].expected.Some? ==>
      LatestVersion(ChainOf(s, muts[i].id)) == muts[i].expected.value
  }

  function Push(s: Store, id: string, data: Document, at: int, deleted: bool): Store {
    var chain := ChainOf(s, id);
    s.(chains := s.chains[id := chain + [Version(LatestVersion(chain) + 1, data, at, deleted)]])
  }

  function Indexed(s: Store, show: Show, id: string, doc: Document): Store {
    if s.indexField != "" && s.indexField in doc then
      var key := show(doc[s.indexField]);
      s.(index := s.index[key := Candidates(s, key) + [id]])
    else s
  }

  function CommitOne(s: Store, show: Show, m: Mutation, at: int): Store
    requires !Bad(m)
  {
    if m.op == "put" then Indexed(Push(s, m.id, m.body.value, at, false), show, m.id, m.body.value)
    else if m.op == "delete" then Push(s, m.id, map[], at, true)
    else s
  }

  function CommitAll(s: Store, show: Show, muts: seq<Mutation>, at: int): Store
    requires forall i :: 0 <= i < |muts| ==> !Bad(muts[i])
  {
    if muts == [] then s else CommitOne(CommitAll(s, show, muts[..|muts| - 1], at), show, muts[|muts| - 1], at)
  }

  /** Validate everything, then commit everything; a put that does not decode stops the commit where it stands. */
  function Apply(s: Store, show: Show, muts: seq<Mutation>, at: int): (Store, Outcome) {
    if !Admits(s, muts) then (s, Conflict)
    else
      var k := GoodPrefix(muts);
      var t := CommitAll(s, show, muts[..k], at);
      if k == |muts| then (t.(commitIndex := at), Done) else (t, BadData)
  }

  // ----- garbage collection -----

  /** How many leading versions are stamped at or before `w`. */
  function Leading(chain: Chain, w: int): (k: nat)
    ensures k <= |chain|
    ensures forall i :: 0 <= i < k ==> chain[i].committedAt <= w
    ensures k < |chain| ==> chain[k].committedAt > w
  {
    if chain == [] || chain[0].committedAt > w then 0
    else
      var k := Leading(chain[1..], w);
      assert forall i :: 0 < i < 1 + k ==> chain[i] == chain[1..][i - 1];
      1 + k
  }

  function Prune(chain: Chain, w: int): Chain {
    var k := Leading(chain, w);
    if k > 1 then chain[k - 1..] else chain
  }

  function Collect(s: Store, w: int): Store {
    s.(chains := map id | id in s.chains :: Prune(s.chains[id], w))
  }

  // ----- reading -----

  /** The last version stamped at or before `at`, by looking at every version from the newest down. */
  function VersionAt(chain: Chain, at: int): Option<Version> {
    if chain == [] then None
    else if chain[|chain| - 1].committedAt <= at then Some(chain[|chain| - 1])
    else VersionAt(chain[..|chain| - 1], at)
  }

  function Read(s: Store, at: int, id: string): Option<Document> {
    match VersionAt(ChainOf(s, id), at)
    case None => None
    case Some(v) => if v.deleted then None else Some(v.data)
  }

  /** Stamps do not decrease along a chain; equal stamps come from one transaction. */
  ghost predicate Sorted(chain: Chain) {
    forall i, j :: 0 <= i <= j < |chain| ==> chain[i].committedAt <= chain[j].committedAt
  }

  ghost predicate AllSorted(s: Store) {
    forall id :: id in s.chains ==> Sorted(s.chains[id])
  }

  lemma {:induction false} VersionAtIs(chain: Chain, at: int, n: nat)
    requires n <= |chain| && (forall i :: 0 <= i < n ==> chain[i].committedAt <= at)
    requires forall i :: n <= i < |chain| ==> chain[i].committedAt > at
    ensures VersionAt(chain, at) == if n == 0 then None else Some(chain[n - 1])
    decreases |chain|
  {
    if n == |chain| {
    } else {
      VersionAtIs(chain[..|chain| - 1], at, n);
    }
  }

  class MVCC {
    const show: Show
    const indexField: string
    var chains: map<string, Chain>
    var index: map<string, seq<string>>
    var commitIndex: int

    ghost function State(): Store
      reads this
    {
      Store(chains, index, indexField, commitIndex)
    }

    constructor (indexField: string, show: Show)
      ensures State() == Store(map[], map[], indexField, 0) && this.show == show
    {
      this.indexField, this.show := indexField, show;
      chains, index, commitIndex := map[], map[], 0;
    }

    method LatestVersionLocked(id: string) returns (v: nat)
      ensures v == LatestVersion(ChainOf(State(), id))
    {
      var chain := if id in chains then chains[id] else [];
      v := if |chain| == 0 then 0 else chain[|chain| - 1].version;
    }

    method AppendVersion(id: string, data: Document, at: int, deleted: bool)
      modifies this`chains
      ensures State() == Push(old(State()), id, data, at, deleted)
    {
      var latest := LatestVersionLocked(id);
      var chain := if id in chains then chains[id] else [];
      chains := chains[id := chain + [Version(latest + 1, data, at, deleted)]];
    }

    method ApplyTransaction(muts: seq<Mutation>, raftIndex: int) returns (outcome: Outcome)
      modifies this
      ensures (State(), outcome) == Apply(old(State()), show, muts, raftIndex)
    {
      for i := 0 to |muts|
        invariant forall j :: 0 <= j < i && muts[j].expected.Some? ==>
                    LatestVersion(ChainOf(State(), muts[j].id)) == muts[j].expected.value
        invariant State() == old(State())
      {
        var v := LatestVersionLocked(muts[i].id);
        if muts[i].expected.Some? && v != muts[i].expected.value {
          return Conflict;
        }
      }
      outcome := CommitMutations(muts, raftIndex);
      if outcome == Done {
        commitIndex := raftIndex;
      }
    }

    /** The commit loop of ApplyTransaction. */
    method CommitMutations(muts: seq<Mutation>, raftIndex: int) returns (outcome: Outcome)
      modifies this
      ensures State() == CommitAll(old(State()), show, muts[..GoodPrefix(muts)], raftIndex)
      ensures outcome == if GoodPrefix(muts) == |muts| then Done else BadData
    {
      ghost var k := GoodPrefix(muts);
      for i := 0 to |muts|
        invariant i <= k && State() == CommitAll(old(State()), show, muts[..i], raftIndex)
      {
        assert muts[..i + 1][..i] == muts[..i];
        if muts[i].op == "put" && muts[i].body.None? {
          return BadData;
        }
        CommitMutation(muts[i], raftIndex);
      }
      assert muts[..|muts|] == muts;
      outcome := Done;
    }

    method CommitMutation(m: Mutation, raftIndex: int)
      requires !Bad(m)
      modifies this
      ensures State() == CommitOne(old(State()), show, m, raftIndex)
    {
      if m.op == "put" {
        var doc := m.body.value;
        AppendVersion(m.id, doc, raftIndex, false);
        if indexField != "" && indexField in doc {
          var key := show(doc[indexField]);
          if key !in index {
            index := index[key := []];
          }
          index := index[key := index[key] + [m.id]];
        }
      } else if m.op == "delete" {
        AppendVersion(m.id, map[], raftIndex, true);
      }
    }

    /** The inner loop of GCBefore. */
    static method KeepFrom(chain: Chain, w: int) returns (keepFrom: nat)
      ensures keepFrom == if Leading(chain, w) > 1 then Leading(chain, w) - 1 else 0
    {
      keepFrom := 0;
      var i := 0;
      while i < |chain|
        invariant 0 <= i <= Leading(chain, w)
        invariant keepFrom == if i > 1 then i - 1 else 0
      {
        if chain[i].committedAt <= w {
          keepFrom := i;
        } else {
          break;
        }
        i := i + 1;
      }
    }

    method GCBefore(raftIndex: int)
      modifies this`chains
      ensures State() == Collect(old(State()), raftIndex)
    {
      chains := PruneAll(chains, raftIndex);
      assert chains == Collect(old(State()), raftIndex).chains;
    }

    /** The outer loop of GCBefore, over the chains in any order. */
    static method PruneAll(chains: map<string, Chain>, w: int) returns (pruned: map<string, Chain>)
      ensures pruned.Keys == chains.Keys && forall id :: id in chains ==> pruned[id] == Prune(chains[id], w)
    {
      pruned := chains;
      var todo := chains.Keys;
      while todo != {}
        invariant todo <= chains.Keys == pruned.Keys
        invariant forall id :: id in todo ==> pruned[id] == chains[id]
        invariant forall id :: id in chains && id !in todo ==> pruned[id] == Prune(chains[id], w)
      {
        var id :| id in todo;
        var keepFrom := KeepFrom(pruned[id], w);
        if keepFrom > 0 {
          pruned := pruned[id := pruned[id][keepFrom..]];
        }
        todo := todo - {id};
      }
    }

    /** The point a snapshot taken now is pinned to. */
    method Snapshot() returns (at: int)
      ensures at == commitIndex
    {
      at := commitIndex;
    }

    /** Snapshot.Get: the binary search finds what the scan would. */
    method Get(at: int, id: string) returns (doc: Option<Document>)
      requires AllSorted(State())
      ensures doc == Read(State(), at, id)
    {
      var chain := if id in chains then chains[id] else [];
      var later := (i: nat) requires i < |chain| => chain[i].committedAt > at;
      var n := Search(|chain|, later);
      forall i: nat | i < |chain|
        ensures i < n <==> chain[i].committedAt <= at
      {
        assert i < n <==> !later(i);
      }
      VersionAtIs(chain, at, n);
      if n == 0 || chain[n - 1].deleted {
        return None;
      }
      return Some(chain[n - 1].data);
    }
  }
}
