/**
 Consumer groups: the coordinator deals partitions out to the live members, in turn over their sorted ids,
 and deals again whenever the membership changes.
 */
module ConsumerGroup {
  import opened Sequences
  import opened Sorting

  // ----- the order of ids -----

  /** sort.Strings' order. */
  predicate StringLess(a: string, b: string) {
    if b == [] then false
    else if a == [] then true
    else if a[0] != b[0] then a[0] < b[0]
    else StringLess(a[1..], b[1..])
  }

  lemma {:induction false} StringsCompare(a: string, b: string)
    ensures StringLess(a, b) ==> !StringLess(b, a)
    ensures StringLess(a, b) || StringLess(b, a) || a == b
  {
    if a != [] && b != [] && a[0] == b[0] {
      StringsCompare(a[1..], b[1..]);
      assert a == [a[0]] + a[1..] && b == [b[0]] + b[1..];
    }
  }

  lemma {:induction false} StringsChain(a: string, b: string, c: string)
    requires StringLess(a, b) && StringLess(b, c)
    ensures StringLess(a, c)
  {
    if a != [] && a[0] == b[0] && b[0] == c[0] { StringsChain(a[1..], b[1..], c[1..]); }
  }

  lemma StringLessTotal()
    ensures TotalOrder(StringLess)
  {
    forall a, b ensures (StringLess(a, b) ==> !StringLess(b, a)) && (StringLess(a, b) || StringLess(b, a) || a == b) {
      StringsCompare(a, b);
    }
    forall a, b, c | StringLess(a, b) && StringLess(b, c) ensures StringLess(a, c) { StringsChain(a, b, c); }
  }

  // ----- the assignment -----

  /** The members' partitions after dealing the first `n` to `live`, in turn. */
  function DealTo(live: seq<string>, n: nat, id: string): seq<nat>
    requires id in live
  {
    if n == 0 then []
    else
      var before := DealTo(live, n - 1, id);
      if live[(n - 1) % |live|] == id then before + [n - 1] else before
  }

  function Deal(live: seq<string>, n: nat): (a: map<string, seq<nat>>)
    ensures forall id :: id in a <==> id in live
  {
    map id | id in live :: DealTo(live, n, id)
  }

  /** The assignment for a live set, whatever the order its members were met in. */
  ghost function Assign(live: set<string>, n: nat): map<string, seq<nat>> {
    StringLessTotal();
    Deal(Ascending(live, StringLess), n)
  }

  // ----- the coordinator -----

  datatype Group = Group(lastHeartbeat: map<string, int>, assignment: map<string, seq<nat>>)

  datatype Event = Join(id: string, now: int) | Heartbeat(id: string, now: int) | Leave(id: string) | Tick(now: int)

  ghost function Rebalance(n: nat, beats: map<string, int>): Group {
    Group(beats, Assign(beats.Keys, n))
  }

  /** The members whose last heartbeat is not older than the timeout. */
  function Unexpired(beats: map<string, int>, now: int, timeout: int): map<string, int> {
    map id | id in beats && now - beats[id] <= timeout :: beats[id]
  }

  ghost function Handle(n: nat, timeout: int, g: Group, e: Event): Group {
    match e
    case Join(id, now) => Rebalance(n, g.lastHeartbeat[id := now])
    case Heartbeat(id, now) => if id in g.lastHeartbeat then g.(lastHeartbeat := g.lastHeartbeat[id := now]) else g
    case Leave(id) => Rebalance(n, g.lastHeartbeat - {id})
    case Tick(now) =>
      var kept := Unexpired(g.lastHeartbeat, now, timeout);
      if kept == g.lastHeartbeat then g else Rebalance(n, kept)
  }

  const DEFAULT_TIMEOUT: int := 500

  class Coordinator {
    const numPartitions: nat
    const heartbeatTimeout: int
    var lastHeartbeat: map<string, int>
    var assignment: map<string, seq<nat>>

    function Now(): Group
      reads this
    {
      Group(lastHeartbeat, assignment)
    }

    /** Times are in milliseconds. No partition is dealt when the number given is negative. */
    constructor (numPartitions: int, heartbeatTimeout: int)
      ensures this.numPartitions == (if numPartitions < 0 then 0 else numPartitions)
      ensures this.heartbeatTimeout == (if heartbeatTimeout <= 0 then 500 else heartbeatTimeout)
      ensures Now() == Group(map[], map[])
    {
      this.numPartitions := if numPartitions < 0 then 0 else numPartitions;
      this.heartbeatTimeout := if heartbeatTimeout <= 0 then DEFAULT_TIMEOUT else heartbeatTimeout;
      lastHeartbeat, assignment := map[], map[];
    }

    method JoinGroup(id: string, now: int)
      modifies this
      ensures Now() == Handle(numPartitions, heartbeatTimeout, old(Now()), Join(id, now))
    {
      lastHeartbeat := lastHeartbeat[id := now];
      RebalanceLocked();
    }

    method Beat(id: string, now: int)
      modifies this`lastHeartbeat
      ensures Now() == Handle(numPartitions, heartbeatTimeout, old(Now()), Heartbeat(id, now))
    {
      if id in lastHeartbeat {
        lastHeartbeat := lastHeartbeat[id := now];
      }
    }

    method LeaveGroup(id: string)
      modifies this
      ensures Now() == Handle(numPartitions, heartbeatTimeout, old(Now()), Leave(id))
    {
      lastHeartbeat := lastHeartbeat - {id};
      RebalanceLocked();
    }

    method RebalanceLocked()
      modifies this`assignment
      ensures Now() == Rebalance(numPartitions, lastHeartbeat)
    {
      StringLessTotal();
      var live := SortedKeys(lastHeartbeat.Keys, StringLess);
      assignment := DealAll(live, numPartitions);
    }

    static method DealAll(live: seq<string>, n: nat) returns (dealt: map<string, seq<nat>>)
      ensures dealt == Deal(live, n)
    {
      dealt := map[];
      for k := 0 to |live|
        invariant forall id :: id in dealt <==> id in live[..k]
        invariant forall id :: id in dealt ==> dealt[id] == []
      {
        dealt := dealt[live[k] := []];
      }
      assert live[..|live|] == live;
      assert dealt == Deal(live, 0);
      var p := 0;
      while p < n && |live| > 0
        invariant 0 <= p <= n && dealt == Deal(live, p)
      {
        var owner := live[p % |live|];
        dealt := dealt[owner := dealt[owner] + [p]];
        p := p + 1;
        assert dealt == Deal(live, p);
      }
      assert |live| == 0 ==> dealt == Deal(live, n);
    }

    /** The lock section of one turn of expiryLoop. */
    method Expire(now: int)
      modifies this
      ensures Now() == Handle(numPartitions, heartbeatTimeout, old(Now()), Tick(now))
    {
      var kept := DropExpired(lastHeartbeat, now, heartbeatTimeout);
      var changed := kept != lastHeartbeat;
      lastHeartbeat := kept;
      if changed {
        RebalanceLocked();
      }
    }

    static method DropExpired(beats: map<string, int>, now: int, timeout: int) returns (kept: map<string, int>)
      ensures kept == Unexpired(beats, now, timeout)
    {
      kept := beats;
      var rest := beats.Keys;
      while rest != {}
        invariant rest <= beats.Keys
        invariant forall id :: id in kept <==> id in beats && (id in rest || now - beats[id] <= timeout)
        invariant forall id :: id in kept ==> kept[id] == beats[id]
      {
        var id :| id in rest;
        if now - beats[id] > timeout {
          kept := kept - {id};
        }
        rest := rest - {id};
      }
    }
  }

  // ----- what is assigned -----

  /** The partitions below `n` that are `j` modulo `c`, in order: an independent account of one member's share. */
  function Share(n: nat, c: nat, j: nat): (s: seq<nat>)
    requires c > 0
    ensures forall p: nat :: p in s <==> p < n && p % c == j
    ensures forall i, k :: 0 <= i < k < |s| ==> s[i] < s[k]
  {
    if n == 0 then []
    else
      var rest := Share(n - 1, c, j);
      if (n - 1) % c == j then
        assert forall i :: 0 <= i < |rest| ==> rest[i] in rest;
        rest + [n - 1]
      else rest
  }

  lemma Multiples(k: int, c: int)
    requires c > 0
    ensures k >= 1 ==> k * c >= c
    ensures k <= -1 ==> k * c <= -c
  {
    assert k >= 1 ==> (k - 1) * c >= 0;
    assert k <= -1 ==> (k + 1) * c <= 0;
  }

  lemma DivModUnique(n: nat, c: nat, q: nat, r: nat)
    requires c > 0 && n == q * c + r && r < c
    ensures n / c == q && n % c == r
  {
    var q', r' := n / c, n % c;
    assert n == q' * c + r';
    assert (q - q') * c == r' - r;
    Multiples(q - q', c);
  }

  lemma {:induction false} ShareSize(n: nat, c: nat, j: nat)
    requires j < c
    ensures |Share(n, c, j)| == n / c + if j < n % c then 1 else 0
  {
    if n == 0 {
      DivModUnique(0, c, 0, 0);
    } else {
      ShareSize(n - 1, c, j);
      var q, r := (n - 1) / c, (n - 1) % c;
      assert n - 1 == q * c + r;
      if r + 1 < c {
        DivModUnique(n, c, q, r + 1);
      } else {
        assert n == (q + 1) * c + 0;
        DivModUnique(n, c, q + 1, 0);
      }
    }
  }

  lemma {:induction false} DealtShare(live: seq<string>, n: nat, j: nat)
    requires j < |live| && NoRepeats(live)
    ensures DealTo(live, n, live[j]) == Share(n, |live|, j)
  {
    if n == 0 {
    } else {
      DealtShare(live, n - 1, j);
    }
  }

  ghost predicate Owns(a: map<string, seq<nat>>, id: string, p: nat) {
    id in a && p in a[id]
  }

  ghost predicate Owned(a: map<string, seq<nat>>, p: nat) {
    exists id :: Owns(a, id, p)
  }

  /** Exactly the live members are assigned to; each partition has exactly one owner, which lists it once; and a member
      has the average number of partitions, rounded down or up. */
  ghost predicate Fair(a: map<string, seq<nat>>, live: set<string>, n: nat) {
    && a.Keys == live
    && (forall p: nat, id :: Owns(a, id, p) ==> p < n)
    && (live != {} ==> forall p: nat :: p < n ==> Owned(a, p))
    && (forall p: nat, id, id' :: Owns(a, id, p) && Owns(a, id', p) ==> id == id')
    && (forall id :: id in a ==> forall i, k :: 0 <= i < k < |a[id]| ==> a[id][i] < a[id][k])
    && (forall id :: id in a ==> Rounded(|a[id]|, n, |live|))
  }

  /** `k` is n / c, rounded down or up. */
  ghost predicate Rounded(k: nat, n: nat, c: nat) {
    c > 0 && (k == n / c || (n % c > 0 && k == n / c + 1))
  }

  lemma AssignFair(live: set<string>, n: nat)
    ensures Fair(Assign(live, n), live, n)
  {
    StringLessTotal();
    var ids, a := Ascending(live, StringLess), Assign(live, n);
    IdsDistinct(ids);
    SizeExactly(ids);
    assert forall id :: id in ids <==> id in Elements(ids);
    assert a.Keys == live;
    DealFair(ids, n, live);
  }

  lemma DealFair(ids: seq<string>, n: nat, live: set<string>)
    requires NoRepeats(ids) && |live| == |ids| && Deal(ids, n).Keys == live
    ensures Fair(Deal(ids, n), live, n)
  {
    var a := Deal(ids, n);
    forall id | id in a
      ensures Rounded(|a[id]|, n, |live|) && forall i, k :: 0 <= i < k < |a[id]| ==> a[id][i] < a[id][k]
    {
      var j := ShareOf(ids, n, id);
      ShareSize(n, |ids|, j);
    }
    forall p: nat, id | Owns(a, id, p) ensures p < n && id == ids[p % |ids|] {
      var j := ShareOf(ids, n, id);
    }
    forall p: nat | live != {} && p < n ensures Owned(a, p) {
      var j := ShareOf(ids, n, ids[p % |ids|]);
      assert Owns(a, ids[p % |ids|], p);
    }
  }

  lemma ShareOf(ids: seq<string>, n: nat, id: string) returns (j: nat)
    requires NoRepeats(ids) && id in ids
    ensures j < |ids| && ids[j] == id && Deal(ids, n)[id] == Share(n, |ids|, j)
    ensures forall k: nat :: k < |ids| && ids[k] == id ==> k == j
  {
    j :| 0 <= j < |ids| && ids[j] == id;
    DealtShare(ids, n, j);
  }

  lemma IdsDistinct(ids: seq<string>)
    requires Increasing(ids, StringLess)
    ensures NoRepeats(ids)
  {
    forall i, k | 0 <= i < k < |ids| ensures ids[i] != ids[k] {
      StringsCompare(ids[i], ids[k]);
    }
  }

  // ----- every run -----

  ghost function Run(n: nat, timeout: int, events: seq<Event>): Group {
    if events == [] then Group(map[], map[])
    else Handle(n, timeout, Run(n, timeout, events[..|events| - 1]), events[|events| - 1])
  }

  /** After any run of joins, leaves, heartbeats and expiries the assignment is the one the live set determines,
      whatever order the members came in. */
  lemma {:induction false} AssignedByLiveSet(n: nat, timeout: int, events: seq<Event>)
    ensures var g := Run(n, timeout, events); g.assignment == Assign(g.lastHeartbeat.Keys, n)
  {
    if events == [] {
      StringLessTotal();
      SomeElement(Ascending({}, StringLess));
      assert Assign({}, n) == map[];
    } else {
      var before, e := events[..|events| - 1], events[|events| - 1];
      AssignedByLiveSet(n, timeout, before);
      var g := Run(n, timeout, before);
      if e.Heartbeat? && e.id in g.lastHeartbeat {
        assert g.lastHeartbeat[e.id := e.now].Keys == g.lastHeartbeat.Keys;
      }
    }
  }

  lemma AlwaysFair(n: nat, timeout: int, events: seq<Event>)
    ensures var g := Run(n, timeout, events); Fair(g.assignment, g.lastHeartbeat.Keys, n)
  {
    AssignedByLiveSet(n, timeout, events);
    AssignFair(Run(n, timeout, events).lastHeartbeat.Keys, n);
  }

  // ----- who owns what -----

  /** `a` comes before `b` in byte order: it is a proper prefix, or smaller at the first place where they differ. */
  ghost predicate Before(a: string, b: string) {
    exists i :: DiffersAt(a, b, i)
  }

  ghost predicate DiffersAt(a: string, b: string, i: int) {
    0 <= i <= |a| && i < |b| && a[..i] == b[..i] && (i == |a| || a[i] < b[i])
  }

  lemma {:induction false} StringLessIs(a: string, b: string)
    ensures StringLess(a, b) <==> Before(a, b)
  {
    if b == [] {
    } else if a == [] {
      assert DiffersAt(a, b, 0);
    } else if a[0] != b[0] {
      FirstDiffers(a, b);
    } else {
      StringLessIs(a[1..], b[1..]);
      if Before(a[1..], b[1..]) {
        var i :| DiffersAt(a[1..], b[1..], i);
        assert a[..i + 1] == [a[0]] + a[1..][..i] && b[..i + 1] == [b[0]] + b[1..][..i];
        assert DiffersAt(a, b, i + 1);
      }
      if Before(a, b) {
        var i :| DiffersAt(a, b, i);
        assert a[1..][..i - 1] == a[..i][1..] && b[1..][..i - 1] == b[..i][1..];
        assert DiffersAt(a[1..], b[1..], i - 1);
      }
    }
  }

  lemma FirstDiffers(a: string, b: string)
    requires a != [] && b != [] && a[0] != b[0]
    ensures Before(a, b) <==> a[0] < b[0]
  {
    if a[0] < b[0] { assert DiffersAt(a, b, 0); }
    if Before(a, b) {
      var i :| DiffersAt(a, b, i);
      if i > 0 { SameFirst(a, b, i); }
    }
  }

  lemma SameFirst(a: string, b: string, i: int)
    requires DiffersAt(a, b, i) && i > 0
    ensures a[0] == b[0]
  {
    assert a[0] == a[..i][0] && b[0] == b[..i][0];
  }

  /** How many live members come before `id`. */
  ghost function Rank(live: set<string>, id: string): nat {
    |set x | x in live && Before(x, id)|
  }

  lemma RankIs(live: set<string>, ids: seq<string>, j: nat)
    requires Increasing(ids, StringLess) && Elements(ids) == live && j < |ids|
    ensures Rank(live, ids[j]) == j
  {
    IdsDistinct(ids);
    SizeExactly(ids[..j]);
    forall x ensures x in live && Before(x, ids[j]) <==> x in Elements(ids[..j]) {
      StringLessIs(x, ids[j]);
      if x in live {
        assert x in ids;
        var k :| 0 <= k < |ids| && ids[k] == x;
        if k < j { assert ids[..j][k] == x; }
        if k > j { StringsCompare(ids[j], ids[k]); }
        if k == j { StringsCompare(x, x); }
      }
    }
    assert (set x | x in live && Before(x, ids[j])) == Elements(ids[..j]);
  }

  /** After any run a live member owns exactly the partitions whose number, modulo the number of members, is how many
      live members come before it. */
  lemma OwnsExactly(n: nat, timeout: int, events: seq<Event>, id: string, p: nat)
    requires id in Run(n, timeout, events).lastHeartbeat
    ensures var g := Run(n, timeout, events);
            var live := g.lastHeartbeat.Keys;
            Owns(g.assignment, id, p) <==> p < n && p % |live| == Rank(live, id)
  {
    AssignedByLiveSet(n, timeout, events);
    AssignOwns(Run(n, timeout, events).lastHeartbeat.Keys, n, id, p);
  }

  lemma AssignOwns(live: set<string>, n: nat, id: string, p: nat)
    requires id in live
    ensures |live| > 0 && (Owns(Assign(live, n), id, p) <==> p < n && p % |live| == Rank(live, id))
  {
    StringLessTotal();
    var ids := Ascending(live, StringLess);
    IdsDistinct(ids);
    SizeExactly(ids);
    assert id in Elements(ids);
    var j := ShareOf(ids, n, id);
    RankIs(live, ids, j);
  }

  // ----- who is live -----

  predicate Signs(e: Event, id: string) {
    (e.Join? || e.Heartbeat?) && e.id == id
  }

  /** When `id` last joined or sent a heartbeat in the first `k` events; 0 if it never did. */
  function LastSign(events: seq<Event>, k: nat, id: string): int
    requires k <= |events|
  {
    if k == 0 then 0
    else if Signs(events[k - 1], id) then events[k - 1].now
    else LastSign(events, k - 1, id)
  }

  /** Event `k` does not remove `id`: it is not its leaving, nor a tick that finds its last sign too old. */
  ghost predicate Survives(timeout: int, events: seq<Event>, k: nat, id: string)
    requires k < |events|
  {
    && events[k] != Leave(id)
    && (events[k].Tick? ==> events[k].now - LastSign(events, k, id) <= timeout)
  }

  /** `id` joined at event `j` and nothing has removed it since. */
  ghost predicate StaysSince(timeout: int, events: seq<Event>, j: nat, id: string) {
    && j < |events| && events[j].Join? && events[j].id == id
    && forall k: nat {:trigger Survives(timeout, events, k, id)} :: j < k < |events| ==>
         Survives(timeout, events, k, id)
  }

  ghost predicate Member(timeout: int, events: seq<Event>, id: string) {
    exists j: nat :: StaysSince(timeout, events, j, id)
  }

  lemma {:induction false} LastSignPrefix(events: seq<Event>, more: seq<Event>, k: nat, id: string)
    requires k <= |events|
    ensures LastSign(events + more, k, id) == LastSign(events, k, id)
  {
    if k == 0 {
    } else {
      LastSignPrefix(events, more, k - 1, id);
    }
  }

  lemma SurvivesPrefix(timeout: int, events: seq<Event>, e: Event, k: nat, id: string)
    requires k < |events|
    ensures Survives(timeout, events + [e], k, id) <==> Survives(timeout, events, k, id)
  {
    LastSignPrefix(events, [e], k, id);
  }

  lemma MemberStep(timeout: int, events: seq<Event>, e: Event, id: string)
    ensures Member(timeout, events + [e], id) <==>
            (e.Join? && e.id == id) || (Member(timeout, events, id) && Survives(timeout, events + [e], |events|, id))
  {
    var all, n := events + [e], |events|;
    forall k: nat | k < n ensures Survives(timeout, all, k, id) <==> Survives(timeout, events, k, id) {
      SurvivesPrefix(timeout, events, e, k, id);
    }
    forall j: nat | j < n
      ensures StaysSince(timeout, all, j, id) <==> StaysSince(timeout, events, j, id) && Survives(timeout, all, n, id)
    {
      if StaysSince(timeout, all, j, id) {
        forall k: nat | j < k < n ensures Survives(timeout, events, k, id) { assert Survives(timeout, all, k, id); }
        assert Survives(timeout, all, n, id);
      }
    }
    if e.Join? && e.id == id { assert StaysSince(timeout, all, n, id); }
    if Member(timeout, events, id) && Survives(timeout, all, n, id) {
      var j: nat :| StaysSince(timeout, events, j, id);
      assert StaysSince(timeout, all, j, id);
    }
    if Member(timeout, all, id) {
      var j: nat :| StaysSince(timeout, all, j, id);
    }
  }

  /** The live members are exactly those that joined and have neither left nor missed their heartbeats since; each one's
      recorded heartbeat is its last sign of life. */
  lemma {:induction false} LiveExactly(n: nat, timeout: int, events: seq<Event>, id: string)
    ensures var beats := Run(n, timeout, events).lastHeartbeat;
            && (id in beats <==> Member(timeout, events, id))
            && (id in beats ==> beats[id] == LastSign(events, |events|, id))
  {
    if events == [] {
    } else {
      var before, e := events[..|events| - 1], events[|events| - 1];
      LiveExactly(n, timeout, before, id);
      assert before + [e] == events;
      LastSignPrefix(before, [e], |before|, id);
      MemberStep(timeout, before, e, id);
    }
  }
}
