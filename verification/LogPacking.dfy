/**
 How the log is cut into segments, told from the payloads alone: a segment is closed when the next record would have
 made it too large, and not before. Also what compaction keeps and when tiering is on.
 */
module LogPacking {
  import opened Bytes
  import opened Segments
  import opened SegmentedLog
  import opened LogTheorems

  /** The size limit a log is opened with: 4 MiB unless a positive one is given. */
  function SizeLimit(max: int): int {
    if max <= 0 then 4 * 1024 * 1024 else max
  }

  /** Every restart of the run opens the log with the same limit. */
  ghost predicate KeepsLimit(max: int, ops: seq<Op>) {
    forall i :: 0 <= i < |ops| && ops[i].Restart? ==> SizeLimit(ops[i].max) == SizeLimit(max)
  }

  /** Segment `i` of a log of payloads `h`. If it is closed, the record after it would not have fitted; if it has more
      than one record, they fit. */
  ghost predicate PackedAt(segs: seq<Seg>, h: seq<bytes>, limit: int, i: nat)
    requires i < |segs|
  {
    var base, next := segs[i].base, segs[i].next;
    && base <= next <= |h|
    && (i + 1 < |segs| ==> next < |h| && |Records(h[base..next])| + 4 + |h[next]| > limit)
    && (next - base > 1 ==> |Records(h[base..next])| <= limit)
  }

  ghost predicate Packed(segs: seq<Seg>, h: seq<bytes>, limit: int) {
    forall i: nat {:trigger PackedAt(segs, h, limit, i)} :: i < |segs| ==> PackedAt(segs, h, limit, i)
  }

  // ----- every operation keeps it -----

  lemma PackedLonger(s: Seg, h: seq<bytes>, p: bytes)
    requires s.base <= s.next <= |h|
    ensures (h + [p])[s.base..s.next] == h[s.base..s.next]
    ensures s.next < |h| ==> (h + [p])[s.next] == h[s.next]
    ensures s.next == |h| ==> (h + [p])[s.next] == p
  {
  }

  lemma ActiveSize(l: Log, h: seq<bytes>)
    requires LogHolds(l, h)
    ensures Active(l).base <= Active(l).next == |h|
    ensures Active(l).size == |Records(h[Active(l).base..|h|])| && (Active(l).size > 0 <==> Active(l).base < |h|)
  {
    assert SegAt(l, h, |l.segs| - 1);
    RecordsSize(h[Active(l).base..|h|]);
  }

  lemma RollPacked(l: Log, h: seq<bytes>, p: bytes)
    requires LogHolds(l, h) && Packed(l.segs, h, l.max) && Rolls(l, p)
    ensures var segs := AppendTo(l, p).segs; Packed(segs, h + [p], l.max)
  {
    var l', h', n := AppendTo(l, p), h + [p], |l.segs| - 1;
    ActiveSize(l, h);
    Rolled(l, h);
    ActiveSize(Roll(l), h);
    forall i: nat | i < |l'.segs| ensures PackedAt(l'.segs, h', l.max, i) {
      if i <= n {
        assert PackedAt(l.segs, h, l.max, i) && l'.segs[i] == l.segs[i];
        PackedLonger(l.segs[i], h, p);
      }
    }
  }

  lemma StayPacked(l: Log, h: seq<bytes>, p: bytes)
    requires LogHolds(l, h) && Packed(l.segs, h, l.max) && !Rolls(l, p)
    ensures Packed(AppendTo(l, p).segs, h + [p], l.max)
  {
    var l', h', n := AppendTo(l, p), h + [p], |l.segs| - 1;
    ActiveSize(l, h);
    var base := Active(l).base;
    forall i: nat | i < |l'.segs| ensures PackedAt(l'.segs, h', l.max, i) {
      assert PackedAt(l.segs, h, l.max, i);
      PackedLonger(l.segs[i], h, p);
      if i == n {
        assert h'[base..|h| + 1] == h[base..|h|] + [p];
        RecordsSnoc(h[base..|h|], p);
      }
    }
  }

  /** The same offsets, segment by segment. */
  ghost predicate SameSpans(a: seq<Seg>, b: seq<Seg>) {
    |a| == |b| && forall i :: 0 <= i < |a| ==> a[i].base == b[i].base && a[i].next == b[i].next
  }

  lemma {:induction false} TierSpans(l: Log, i: nat, n: nat, uploads: nat -> Upload)
    ensures var r := TierFrom(l, i, n, uploads).log; SameSpans(r.segs, l.segs) && r.max == l.max
    decreases |l.segs| - i
  {
    if i >= |l.segs| {
    } else if i == |l.segs| - 1 || l.segs[i].tiered {
      TierSpans(l, i + 1, n, uploads);
    } else if uploads(l.segs[i].base).Stored? {
      TierSpans(TierOut(l, i, uploads(l.segs[i].base)), i + 1, n + 1, uploads);
    }
  }

  lemma SpansPacked(a: seq<Seg>, b: seq<Seg>, h: seq<bytes>, limit: int)
    requires SameSpans(a, b) && Packed(b, h, limit)
    ensures Packed(a, h, limit)
  {
    forall i: nat | i < |a| ensures PackedAt(a, h, limit, i) { assert PackedAt(b, h, limit, i); }
  }

  lemma SuffixPacked(segs: seq<Seg>, h: seq<bytes>, limit: int, t: nat)
    requires t <= |segs| && Packed(segs, h, limit)
    ensures Packed(segs[t..], h, limit)
  {
    forall i: nat | i < |segs[t..]| ensures PackedAt(segs[t..], h, limit, i) { assert PackedAt(segs, h, limit, t + i); }
  }

  lemma DoPacked(l: Log, h: seq<bytes>, op: Op)
    requires LogHolds(l, h) && Within(op) && Packed(l.segs, h, l.max)
    requires op.Restart? ==> SizeLimit(op.max) == l.max
    ensures var l' := Do(l, op); l'.max == l.max && Packed(l'.segs, if op.Append? then h + [op.payload] else h, l.max)
  {
    match op
    case Append(p) => if Rolls(l, p) { RollPacked(l, h, p); } else { StayPacked(l, h, p); }
    case Compaction(keep) => SuffixPacked(l.segs, h, l.max, ToRemove(l, keep));
    case EnableTiering =>
    case Tier(uploads) =>
      TierSpans(l, 0, 0, uploads);
      if l.tiering { SpansPacked(TierSegments(l, uploads).log.segs, l.segs, h, l.max); }
    case Restart(max) =>
      ReopenRecovers(l, h, max);
      SuffixPacked(l.segs, h, l.max, Tiered(l.segs));
  }

  lemma {:induction false} RunPacked(max: int, ops: seq<Op>)
    requires max <= UINT32_LIMIT && AllWithin(ops) && KeepsLimit(max, ops)
    ensures var l := RunLog(max, ops); l.max == SizeLimit(max) && Packed(l.segs, Payloads(ops), SizeLimit(max))
  {
    if ops == [] {
      FirstLog(max);
      var l := RunLog(max, ops);
      assert |l.segs| == 1 && PackedAt(l.segs, [], SizeLimit(max), 0) by { ActiveSize(l, []); }
    } else {
      var before, op := ops[..|ops| - 1], ops[|ops| - 1];
      RunPacked(max, before);
      DoPacked(RunLog(max, before), Payloads(before), op);
    }
  }

  /**
   After any run whose restarts keep the limit. The record after a closed segment would have made that segment larger
   than the limit, and a segment of more than one record is no larger.
   */
  lemma RollsExactly(max: int, ops: seq<Op>, i: nat)
    requires max <= UINT32_LIMIT && AllWithin(ops) && KeepsLimit(max, ops) && i < |RunLog(max, ops).segs|
    ensures var segs, h := RunLog(max, ops).segs, Payloads(ops);
            var base, next := segs[i].base, segs[i].next;
            && base <= next <= |h|
            && (i + 1 < |segs| ==> next < |h| && |Records(h[base..next])| + 4 + |h[next]| > SizeLimit(max))
            && (next - base > 1 ==> |Records(h[base..next])| <= SizeLimit(max))
  {
    RunPacked(max, ops);
    assert PackedAt(RunLog(max, ops).segs, Payloads(ops), SizeLimit(max), i);
  }

  // ----- compaction -----

  /** Compaction keeps the last `keep` segments, at least one, and all of them if there are no more: then it changes
      nothing. */
  lemma CompactExactly(l: Log, h: seq<bytes>, keep: int)
    requires LogHolds(l, h)
    ensures var k, l' := if keep < 1 then 1 else keep, Compact(l, keep);
            if |l.segs| <= k then l' == l else |l'.segs| == k && l'.segs == l.segs[|l.segs| - k..]
  {
    assert l.segs[0..] == l.segs && l.segs[..0] == [];
  }

  // ----- tiering is off until it is enabled -----

  /** Tiering was enabled since the last restart. */
  ghost predicate TieringOn(ops: seq<Op>) {
    exists i :: 0 <= i < |ops| && ops[i].EnableTiering? && forall j :: i < j < |ops| ==> !ops[j].Restart?
  }

  lemma TieringStep(ops: seq<Op>, op: Op)
    ensures TieringOn(ops + [op]) <==> op.EnableTiering? || (TieringOn(ops) && !op.Restart?)
  {
    var all := ops + [op];
    if op.EnableTiering? { assert all[|ops|].EnableTiering?; }
    if TieringOn(ops) && !op.Restart? {
      var i :| 0 <= i < |ops| && ops[i].EnableTiering? && forall j :: i < j < |ops| ==> !ops[j].Restart?;
      assert all[i].EnableTiering?;
    }
    if TieringOn(all) && !op.EnableTiering? {
      var i :| 0 <= i < |all| && all[i].EnableTiering? && forall j :: i < j < |all| ==> !all[j].Restart?;
      assert all[|ops|] == op && forall j :: 0 <= j < |ops| ==> ops[j] == all[j];
    }
  }

  lemma {:induction false} TierKeepsSwitch(l: Log, i: nat, n: nat, uploads: nat -> Upload)
    ensures TierFrom(l, i, n, uploads).log.tiering == l.tiering
    decreases |l.segs| - i
  {
    if i >= |l.segs| {
    } else if i == |l.segs| - 1 || l.segs[i].tiered {
      TierKeepsSwitch(l, i + 1, n, uploads);
    } else if uploads(l.segs[i].base).Stored? {
      TierKeepsSwitch(TierOut(l, i, uploads(l.segs[i].base)), i + 1, n + 1, uploads);
    }
  }

  lemma {:induction false} TieringIs(max: int, ops: seq<Op>)
    requires max <= UINT32_LIMIT && AllWithin(ops)
    ensures RunLog(max, ops).tiering <==> TieringOn(ops)
  {
    if ops == [] {
    } else {
      var before, op := ops[..|ops| - 1], ops[|ops| - 1];
      TieringIs(max, before);
      TieringStep(before, op);
      assert ops == before + [op];
      if op.Tier? { TierKeepsSwitch(RunLog(max, before), 0, 0, op.uploads); }
    }
  }

  /** After any run TierSegments fails and changes nothing unless tiering was enabled since the last restart. If it was,
      the local closed segments before the first failing upload are tiered and counted; it succeeds if none fails. */
  lemma TieringExactly(max: int, ops: seq<Op>, uploads: nat -> Upload)
    requires max <= UINT32_LIMIT && AllWithin(ops)
    ensures var l := RunLog(max, ops);
            var r, t := TierSegments(l, uploads), Tiered(l.segs);
            if !TieringOn(ops) then !r.ok && r.tiered == 0 && r.log == l
            else
              var f := t + r.tiered;
              && t <= f < |l.segs| == |r.log.segs| && TieredUpTo(r.log.segs, f)
              && (forall i :: t <= i < f ==> uploads(l.segs[i].base) == Stored)
              && (r.ok <==> f == |l.segs| - 1) && (!r.ok ==> uploads(l.segs[f].base) != Stored)
              && (forall i :: f <= i < |l.segs| ==> r.log.segs[i] == l.segs[i])
  {
    TieringIs(max, ops);
    var l := RunLog(max, ops);
    if TieringOn(ops) {
      TiersUpToFailure(l, Payloads(ops), uploads);
      SomeLocal(l, Payloads(ops));
      FirstFailureIs(l.segs, Tiered(l.segs), uploads);
      var f := FirstFailure(l.segs, Tiered(l.segs), uploads);
      forall i | f <= i < |l.segs| ensures TierSegments(l, uploads).log.segs[i] == l.segs[i] {
        assert TierSegments(l, uploads).log.segs[f..][i - f] == l.segs[f..][i - f];
      }
    }
  }

  lemma {:induction false} FirstFailureIs(segs: seq<Seg>, i: nat, uploads: nat -> Upload)
    requires i < |segs|
    ensures var f := FirstFailure(segs, i, uploads);
            && (forall j :: i <= j < f ==> uploads(segs[j].base) == Stored)
            && (f < |segs| - 1 ==> uploads(segs[f].base) != Stored)
    decreases |segs| - i
  {
    if i == |segs| - 1 || !uploads(segs[i].base).Stored? {
    } else {
      FirstFailureIs(segs, i + 1, uploads);
    }
  }
}
