/**
 Documents and mutations, and the naive locked store that the MVCC store is compared with.
 */
module Documents {

  import opened Options

  /** What encoding/json decodes into an `interface{}`. */
  datatype Value =
    | Null
    | Bool(b: bool)
    | Number(text: string)
    | Text(s: string)
    | Array(items: seq<Value>)
    | Object(fields: map<string, Value>)

  type Document = map<string, Value>

  /** `body` is what json.Unmarshal makes of the mutation's raw data: None if it fails. */
  datatype Mutation = Mutation(op: string, id: string, body: Option<Document>, expected: Option<int>)

  /** How ApplyTransaction ends: success, a failed version precondition, or a put whose data does not decode. */
  datatype Outcome = Done | Conflict | BadData

  /** A put whose data does not decode. Every other mutation is carried out or, if its op is unknown, ignored. */
  predicate Bad(m: Mutation) {
    m.op == "put" && m.body.None?
  }

  predicate Effective(m: Mutation) {
    m.op == "put" || m.op == "delete"
  }

  /** How many mutations come before the first bad one. */
  function GoodPrefix(muts: seq<Mutation>): (k: nat)
    ensures k <= |muts| && (k < |muts| ==> Bad(muts[k]))
    ensures forall i :: 0 <= i < k ==> !Bad(muts[i])
  {
    if muts == [] || Bad(muts[0]) then 0
    else
      var k := GoodPrefix(muts[1..]);
      assert forall i :: 0 < i < 1 + k ==> muts[i] == muts[1..][i - 1];
      1 + k
  }

  /** Either every put decodes, or nothing takes effect before the first that does not. A proposer can check this. */
  ghost predicate AllOrNothing(muts: seq<Mutation>) {
    GoodPrefix(muts) < |muts| ==> forall i :: 0 <= i < GoodPrefix(muts) ==> !Effective(muts[i])
  }

  // ----- the locked store -----

  datatype Locked = Locked(docs: map<string, Document>, version: map<string, nat>)

  function LockedVersion(s: Locked, id: string): nat {
    if id in s.version then s.version[id] else 0
  }

  predicate LockedAdmits(s: Locked, muts: seq<Mutation>) {
    forall i :: 0 <= i < |muts| && muts[i].expected.Some? ==> LockedVersion(s, muts[i].id) == muts[i].expected.value
  }

  function LockedOne(s: Locked, m: Mutation): Locked
    requires !Bad(m)
  {
    var next := s.version[m.id := LockedVersion(s, m.id) + 1];
    if m.op == "put" then Locked(s.docs[m.id := m.body.value], next)
    else if m.op == "delete" then Locked(s.docs - {m.id}, next)
    else s
  }

  function LockedAll(s: Locked, muts: seq<Mutation>): Locked
    requires forall i :: 0 <= i < |muts| ==> !Bad(muts[i])
  {
    if muts == [] then s else LockedOne(LockedAll(s, muts[..|muts| - 1]), muts[|muts| - 1])
  }

  function LockedApply(s: Locked, muts: seq<Mutation>): (Locked, Outcome) {
    if !LockedAdmits(s, muts) then (s, Conflict)
    else
      var k := GoodPrefix(muts);
      (LockedAll(s, muts[..k]), if k == |muts| then Done else BadData)
  }

  class LockedStore {
    var docs: map<string, Document>
    var version: map<string, nat>

    ghost function State(): Locked
      reads this
    {
      Locked(docs, version)
    }

    constructor ()
      ensures State() == Locked(map[], map[])
    {
      docs, version := map[], map[];
    }

    method Version(id: string) returns (v: nat)
      ensures v == LockedVersion(State(), id)
    {
      v := if id in version then version[id] else 0;
    }

    method Get(id: string) returns (doc: Option<Document>)
      ensures doc == if id in docs then Some(docs[id]) else None
    {
      doc := if id in docs then Some(docs[id]) else None;
    }

    method ApplyTransaction(muts: seq<Mutation>) returns (outcome: Outcome)
      modifies this
      ensures (State(), outcome) == LockedApply(old(State()), muts)
    {
      for i := 0 to |muts|
        invariant forall j :: 0 <= j < i && muts[j].expected.Some? ==>
                    LockedVersion(State(), muts[j].id) == muts[j].expected.value
        invariant State() == old(State())
      {
        var v := Version(muts[i].id);
        if muts[i].expected.Some? && v != muts[i].expected.value {
          return Conflict;
        }
      }
      ghost var k := GoodPrefix(muts);
      for i := 0 to |muts|
        invariant i <= k && State() == LockedAll(old(State()), muts[..i])
      {
        assert muts[..i + 1][..i] == muts[..i];
        var m := muts[i];
        if m.op == "put" {
          if m.body.None? {
            return BadData;
          }
          docs := docs[m.id := m.body.value];
          version := version[m.id := (if m.id in version then version[m.id] else 0) + 1];
        } else if m.op == "delete" {
          docs := docs - {m.id};
          version := version[m.id := (if m.id in version then version[m.id] else 0) + 1];
        }
      }
      assert muts[..|muts|] == muts;
      outcome := Done;
    }
  }
}
