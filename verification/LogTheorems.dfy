/**
 The segmented log is a plain sequence of payloads: whatever mixture of appends, compactions, tierings with
 failing uploads and reopenings it goes through, reading an offset gives the payload that was assigned it.
 */
module LogTheorems {
  import opened Bytes
  import opened Options
  import opened Segments
  import opened Sequences
  import opened Sorting
  import opened SegmentedLog

  // ----- segments in order -----

  lemma {:induction false} BasesIncrease(l: Log, h: seq<bytes>, i: nat, j: nat)
    requires LogHolds(l, h) && i < j < |l.segs|
    ensures l.segs[i].base < l.segs[i].next <= l.segs[j].base
  {
    assert SegAt(l, h, i) && SegAt(l, h, j - 1);
    if i == j - 1 {
    } else {
      BasesIncrease(l, h, i, j - 1);
    }
  }

  lemma SegHoldsLonger(s: Seg, cold: map<nat, Blob>, h: seq<bytes>, p: bytes)
    requires SegHolds(s, cold, h)
    ensures SegHolds(s, cold, h + [p])
  {
    assert (h + [p])[s.base..s.next] == h[s.base..s.next];
  }

  ghost predicate Ordered(segs: seq<Seg>) {
    forall j, k :: 0 <= j < k < |segs| ==> segs[j].base < segs[k].base
  }

  lemma SegsOrdered(l: Log, h: seq<bytes>)
    requires LogHolds(l, h)
    ensures Ordered(l.segs)
  {
    forall j, k | 0 <= j < k < |l.segs| ensures l.segs[j].base < l.segs[k].base { BasesIncrease(l, h, j, k); }
  }

  // ----- the directory -----

  lemma WrittenMirrors(dir: Dir, segs: seq<Seg>, s: Seg)
    requires segs != [] && Mirrors(dir, segs) && Ordered(segs) && !s.tiered
    requires var last := segs[|segs| - 1]; !last.tiered && last.base == s.base
    ensures Mirrors(Written(dir, s), segs[|segs| - 1 := s])
  {
    var n, segs' := |segs| - 1, segs[|segs| - 1 := s];
    forall b | b in Written(dir, s).logs || b in Written(dir, s).indexes ensures Belongs(segs', b) {
      if b == s.base {
        assert segs'[n].base == b;
      } else {
        assert Belongs(segs, b);
        var i :| 0 <= i < |segs| && !segs[i].tiered && segs[i].base == b;
        assert segs'[i] == segs[i];
      }
    }
  }

  lemma CreatedMirrors(dir: Dir, segs: seq<Seg>, s: Seg)
    requires Mirrors(dir, segs) && !s.tiered && forall i :: 0 <= i < |segs| ==> segs[i].base != s.base
    ensures Mirrors(Written(dir, s), segs + [s])
  {
    var segs' := segs + [s];
    forall b | b in Written(dir, s).logs || b in Written(dir, s).indexes ensures Belongs(segs', b) {
      if b == s.base {
        assert segs'[|segs|].base == b;
      } else {
        assert Belongs(segs, b);
        var i :| 0 <= i < |segs| && !segs[i].tiered && segs[i].base == b;
        assert segs'[i] == segs[i];
      }
    }
  }

  lemma TieredMirrors(dir: Dir, segs: seq<Seg>, i: nat, s: Seg)
    requires Mirrors(dir, segs) && Ordered(segs) && i < |segs| && s.tiered && s.base == segs[i].base
    ensures Mirrors(Erased(dir, s.base), segs[i := s])
  {
    var segs' := segs[i := s];
    forall b | b in Erased(dir, s.base).logs || b in Erased(dir, s.base).indexes ensures Belongs(segs', b) {
      assert Belongs(segs, b);
      var j :| 0 <= j < |segs| && !segs[j].tiered && segs[j].base == b;
      assert segs'[j] == segs[j];
    }
  }

  lemma TailMirrors(dir: Dir, segs: seq<Seg>)
    requires segs != [] && Mirrors(dir, segs) && Ordered(segs)
    ensures Mirrors(if segs[0].tiered then dir else Erased(dir, segs[0].base), segs[1..])
  {
    var dir' := if segs[0].tiered then dir else Erased(dir, segs[0].base);
    forall b | b in dir'.logs || b in dir'.indexes ensures Belongs(segs[1..], b) {
      assert Belongs(segs, b);
      var i :| 0 <= i < |segs| && !segs[i].tiered && segs[i].base == b;
      assert segs[1..][i - 1] == segs[i];
    }
  }

  lemma {:induction false} RemovedMirrors(dir: Dir, segs: seq<Seg>, n: nat)
    requires n <= |segs| && Mirrors(dir, segs) && Ordered(segs)
    ensures Mirrors(WithoutFiles(dir, segs[..n]), segs[n..])
  {
    if n == 0 {
      assert segs[0..] == segs;
    } else {
      RemovedMirrors(dir, segs, n - 1);
      assert segs[..n][..n - 1] == segs[..n - 1];
      TailMirrors(WithoutFiles(dir, segs[..n - 1]), segs[n - 1..]);
      assert segs[n - 1..][1..] == segs[n..];
    }
  }

  lemma {:induction false} OpenedFiles(dir: Dir, segs: seq<Seg>, i: nat)
    requires i < |segs| && Ordered(segs)
    ensures FilesOf(Opened(dir, segs), segs[i])
  {
    var n := |segs| - 1;
    if i == n {
    } else {
      OpenedFiles(dir, segs[..n], i);
    }
  }

  lemma {:induction false} OpenedKeys(dir: Dir, segs: seq<Seg>, b: nat)
    requires b in Opened(dir, segs).logs || b in Opened(dir, segs).indexes
    ensures b in dir.logs || b in dir.indexes || exists i :: 0 <= i < |segs| && segs[i].base == b
  {
    if segs == [] {
    } else {
      var n := |segs| - 1;
      if segs[n].base != b {
        OpenedKeys(dir, segs[..n], b);
        if i :| 0 <= i < n && segs[..n][i].base == b { assert segs[i].base == b; }
      }
    }
  }

  /** Opening a directory whose every file is one of the segments opened leaves their files and nothing else. */
  lemma OpenedMirrors(dir: Dir, segs: seq<Seg>)
    requires Ordered(segs) && (forall i :: 0 <= i < |segs| ==> !segs[i].tiered)
    requires forall b :: b in dir.logs || b in dir.indexes ==> Belongs(segs, b)
    ensures Mirrors(Opened(dir, segs), segs)
  {
    forall i | 0 <= i < |segs| ensures FilesOf(Opened(dir, segs), segs[i]) { OpenedFiles(dir, segs, i); }
    forall b | b in Opened(dir, segs).logs || b in Opened(dir, segs).indexes ensures Belongs(segs, b) {
      OpenedKeys(dir, segs, b);
    }
  }

  // ----- appending -----

  lemma FitsSnoc(ps: seq<bytes>, p: bytes)
    requires Fits(ps) && |p| < UINT32_LIMIT && |Records(ps)| < UINT32_LIMIT
    ensures Fits(ps + [p])
  {
    var all := ps + [p];
    forall i | 0 <= i < |all| ensures |all[i]| < UINT32_LIMIT && |Records(all[..i])| < UINT32_LIMIT {
      if i < |ps| {
        assert all[..i] == ps[..i] && all[i] == ps[i];
      } else {
        assert all[..i] == ps;
      }
    }
  }

  lemma SegAppended(s: Seg, cold: map<nat, Blob>, h: seq<bytes>, p: bytes)
    requires SegHolds(s, cold, h) && !s.tiered && s.next == |h|
    requires |p| < UINT32_LIMIT && s.size < UINT32_LIMIT
    ensures SegHolds(AppendRecord(s, p), cold, h + [p])
  {
    var part := h[s.base..s.next];
    assert (h + [p])[s.base..s.next + 1] == part + [p];
    FitsSnoc(part, p);
    AppendHolds(s, part, p);
  }

  lemma ActiveAppended(l: Log, h: seq<bytes>, p: bytes)
    requires LogHolds(l, h) && |p| < UINT32_LIMIT && Active(l).size < UINT32_LIMIT
    ensures LogHolds(AppendActive(l, p), h + [p])
  {
    var n, l', h' := |l.segs| - 1, AppendActive(l, p), h + [p];
    assert SegAt(l, h, n);
    SegAppended(l.segs[n], l.cold, h, p);
    SegsOrdered(l, h);
    WrittenMirrors(l.dir, l.segs, AppendRecord(Active(l), p));
    forall i: nat | i < |l'.segs| ensures SegAt(l', h', i) {
      assert SegAt(l, h, i);
      if i < n { SegHoldsLonger(l.segs[i], l.cold, h, p); }
    }
  }

  /** Rolling opens a file that does not exist yet. */
  lemma Rolled(l: Log, h: seq<bytes>)
    requires LogHolds(l, h) && Active(l).size > 0
    ensures NextOffset(l) !in l.dir.logs && NextOffset(l) !in l.dir.indexes
    ensures LogHolds(Roll(l), h) && Active(Roll(l)).size == 0
  {
    var n, base := |l.segs| - 1, NextOffset(l);
    assert SegAt(l, h, n);
    assert h[Active(l).base..base] != [];
    forall i: nat | i < |l.segs| ensures l.segs[i].base != base {
      if i < n { BasesIncrease(l, h, i, n); }
    }
    assert !Belongs(l.segs, base);
    RecoveryIsHistory(base, []);
    var l' := Roll(l);
    assert Active(l') == OpenSeg(base, []) && h[base..base] == [];
    CreatedMirrors(l.dir, l.segs, OpenSeg(base, []));
    RolledSegs(l, l', h);
  }

  lemma RolledSegs(l: Log, l': Log, h: seq<bytes>)
    requires LogHolds(l, h) && Active(l).base < Active(l).next && l'.cold == l.cold
    requires |l'.segs| == |l.segs| + 1 && l'.segs[..|l.segs|] == l.segs && Active(l').base == |h|
    requires SegHolds(Active(l'), l.cold, h) && !Active(l').tiered
    ensures forall i: nat {:trigger SegAt(l', h, i)} :: i < |l'.segs| ==> SegAt(l', h, i)
  {
    forall i: nat | i < |l'.segs| ensures SegAt(l', h, i) {
      if i < |l.segs| { assert SegAt(l, h, i) && l'.segs[i] == l.segs[i]; }
    }
  }

  /** Append puts the payload at the end, at the offset NextOffset gave. */
  lemma AppendHoldsLog(l: Log, h: seq<bytes>, p: bytes)
    requires LogHolds(l, h) && |p| < UINT32_LIMIT
    ensures Usable(l) && LogHolds(AppendTo(l, p), h + [p])
    ensures NextOffset(l) == |h| && OldestOffset(AppendTo(l, p)) == OldestOffset(l)
  {
    assert SegAt(l, h, |l.segs| - 1);
    if Rolls(l, p) {
      Rolled(l, h);
      ActiveAppended(Roll(l), h, p);
    } else {
      ActiveAppended(l, h, p);
    }
  }

  // ----- reading -----

  lemma {:induction false} Covering(l: Log, h: seq<bytes>, offset: nat, n: nat) returns (i: nat)
    requires LogHolds(l, h) && n < |l.segs| && OldestOffset(l) <= offset < l.segs[n].next
    ensures i <= n && l.segs[i].base <= offset < l.segs[i].next
  {
    assert SegAt(l, h, n);
    if l.segs[n].base <= offset {
      i := n;
    } else {
      assert SegAt(l, h, n - 1);
      i := Covering(l, h, offset, n - 1);
    }
  }

  lemma {:induction false} UpperIs(segs: seq<Seg>, offset: int, u: nat)
    requires u <= |segs|
    requires forall i :: 0 <= i < u ==> segs[i].base <= offset
    requires forall i :: u <= i < |segs| ==> segs[i].base > offset
    ensures Upper(segs, offset) == u
  {
    if segs == [] {
    } else {
      var n := |segs| - 1;
      UpperIs(segs[..n], offset, if u <= n then u else n);
    }
  }

  lemma FoundSegment(l: Log, h: seq<bytes>, offset: int, i: nat)
    requires LogHolds(l, h) && i < |l.segs| && l.segs[i].base <= offset < l.segs[i].next
    ensures FindSegment(l.segs, offset) == Some(i)
  {
    forall j: nat | j < |l.segs| ensures j <= i ==> l.segs[j].base <= offset
                                 ensures j > i ==> l.segs[j].base > offset {
      if j < i { BasesIncrease(l, h, j, i); }
      if j > i { BasesIncrease(l, h, i, j); }
    }
    UpperIs(l.segs, offset, i + 1);
  }

  lemma PartReads(s: Seg, part: seq<bytes>, i: nat)
    requires i < |part| == s.next - s.base && Fits(part)
    ensures ReadSeg(s, Records(part), IndexOf(part), s.base + i) == Some(part[i])
  {
    CountFits(part, i);
    LookupHit(part, i);
    ReadIsLookup(s, Records(part), IndexOf(part), i);
  }

  lemma SegReads(s: Seg, cold: map<nat, Blob>, h: seq<bytes>, offset: nat)
    requires SegHolds(s, cold, h) && s.base <= offset < s.next
    ensures ReadIn(s, cold, offset) == Some(h[offset])
  {
    PartReads(s, h[s.base..s.next], offset - s.base);
  }

  /** Reading gives exactly the payload assigned the offset, or fails outside the range the log still holds. */
  lemma ReadServes(l: Log, h: seq<bytes>, offset: int)
    requires LogHolds(l, h)
    ensures Read(l, offset) == if OldestOffset(l) <= offset < NextOffset(l) then Some(h[offset]) else None
  {
    if OldestOffset(l) <= offset < NextOffset(l) {
      var i := Covering(l, h, offset, |l.segs| - 1);
      FoundSegment(l, h, offset, i);
      assert SegAt(l, h, i);
      SegReads(l.segs[i], l.cold, h, offset);
    } else {
      match FindSegment(l.segs, offset)
      case None =>
      case Some(i) => Inside(l, h, i);
    }
  }

  lemma Inside(l: Log, h: seq<bytes>, i: nat)
    requires LogHolds(l, h) && i < |l.segs|
    ensures OldestOffset(l) <= l.segs[i].base && l.segs[i].next <= NextOffset(l)
  {
    assert SegAt(l, h, i);
    if i > 0 { BasesIncrease(l, h, 0, i); }
  }

  // ----- compaction -----

  lemma {:induction false} BlobKept(cold: map<nat, Blob>, segs: seq<Seg>, base: nat)
    requires forall i :: 0 <= i < |segs| ==> segs[i].base != base
    ensures base in WithoutBlobs(cold, segs) <==> base in cold
    ensures base in cold ==> WithoutBlobs(cold, segs)[base] == cold[base]
  {
    if segs == [] {
    } else {
      BlobKept(cold, segs[..|segs| - 1], base);
    }
  }

  lemma CompactHolds(l: Log, h: seq<bytes>, keep: int)
    requires LogHolds(l, h)
    ensures LogHolds(Compact(l, keep), h)
    ensures OldestOffset(Compact(l, keep)) == l.segs[ToRemove(l, keep)].base >= OldestOffset(l)
  {
    var n, l' := ToRemove(l, keep), Compact(l, keep);
    forall i: nat | i < |l'.segs| ensures SegAt(l', h, i) {
      assert SegAt(l, h, n + i);
      forall j | 0 <= j < n ensures l.segs[..n][j].base != l.segs[n + i].base {
        BasesIncrease(l, h, j, n + i);
      }
      BlobKept(l.cold, l.segs[..n], l.segs[n + i].base);
    }
    SegsOrdered(l, h);
    RemovedMirrors(l.dir, l.segs, n);
    Inside(l, h, n);
  }

  lemma {:induction false} BlobLeft(cold: map<nat, Blob>, segs: seq<Seg>, i: nat)
    requires i < |segs| && Ordered(segs)
    ensures segs[i].base in WithoutBlobs(cold, segs) <==> !segs[i].tiered && segs[i].base in cold
  {
    var n := |segs| - 1;
    if i == n {
      BlobKept(cold, segs[..n], segs[n].base);
    } else {
      BlobLeft(cold, segs[..n], i);
      assert segs[i].base < segs[n].base;
    }
  }

  /** Compaction keeps the last `keep` segments, never fewer than one, and no file of the others is left in the
      directory. A blob of theirs is left in the cold store exactly when the segment was local and something was stored
      under its key, as a failed upload may have done. */
  lemma CompactFrees(l: Log, h: seq<bytes>, keep: int, i: nat)
    requires LogHolds(l, h) && i < ToRemove(l, keep)
    ensures var l' := Compact(l, keep);
            && |l'.segs| == (if keep < 1 then 1 else keep)
            && l.segs[i].base !in l'.dir.logs && l.segs[i].base !in l'.dir.indexes
            && (l.segs[i].base in l'.cold <==> !l.segs[i].tiered && l.segs[i].base in l.cold)
  {
    var n, l' := ToRemove(l, keep), Compact(l, keep);
    SegsOrdered(l, h);
    BlobLeft(l.cold, l.segs[..n], i);
    CompactHolds(l, h, keep);
    forall j: nat | j < |l'.segs| ensures l'.segs[j].base != l.segs[i].base {
      BasesIncrease(l, h, i, n + j);
    }
    assert !Belongs(l'.segs, l.segs[i].base);
  }

  // ----- tiering -----

  lemma TierOutHolds(l: Log, h: seq<bytes>, i: nat, upload: Upload)
    requires LogHolds(l, h) && i < |l.segs| - 1 && !l.segs[i].tiered
    requires i > 0 ==> l.segs[i - 1].tiered
    ensures LogHolds(TierOut(l, i, upload), h)
  {
    var l' := TierOut(l, i, upload);
    SegsOrdered(l, h);
    if upload.Stored? { TieredMirrors(l.dir, l.segs, i, l.segs[i].(log := [], index := [], tiered := true)); }
    forall k: nat | k < |l'.segs| ensures SegAt(l', h, k) {
      assert SegAt(l, h, k);
      if k == i {
        SegTiered(l.segs[i], l.cold, h, upload);
      } else {
        if k < i { BasesIncrease(l, h, k, i); } else { BasesIncrease(l, h, i, k); }
        SegUntouched(l.segs[k], l.cold, h, l.segs[i].base, Blob(l.segs[i].log, l.segs[i].index), upload);
      }
    }
  }

  lemma SegTiered(s: Seg, cold: map<nat, Blob>, h: seq<bytes>, upload: Upload)
    requires SegHolds(s, cold, h) && !s.tiered
    ensures var cold' := Put(cold, s.base, Blob(s.log, s.index), upload);
            SegHolds(if upload.Stored? then s.(log := [], index := [], tiered := true) else s, cold', h)
  {
  }

  lemma SegUntouched(s: Seg, cold: map<nat, Blob>, h: seq<bytes>, key: nat, blob: Blob, upload: Upload)
    requires SegHolds(s, cold, h) && s.base != key
    ensures SegHolds(s, Put(cold, key, blob, upload), h)
  {
  }

  /** However many uploads fail, and whatever a failed one leaves behind, the log still holds every payload. */
  lemma {:induction false} TierFromHolds(l: Log, h: seq<bytes>, i: nat, n: nat, uploads: nat -> Upload)
    requires LogHolds(l, h) && i <= |l.segs|
    requires forall k :: 0 <= k < i && k < |l.segs| - 1 ==> l.segs[k].tiered
    ensures var r := TierFrom(l, i, n, uploads).log; LogHolds(r, h) && OldestOffset(r) == OldestOffset(l)
    decreases |l.segs| - i
  {
    if i == |l.segs| {
    } else if i == |l.segs| - 1 || l.segs[i].tiered {
      TierFromHolds(l, h, i + 1, n, uploads);
    } else {
      var upload := uploads(l.segs[i].base);
      TierOutHolds(l, h, i, upload);
      if upload.Stored? { TierFromHolds(TierOut(l, i, upload), h, i + 1, n + 1, uploads); }
    }
  }

  // ----- reopening -----

  /** How many leading segments are tiered. */
  function Tiered(segs: seq<Seg>): (t: nat)
    ensures t <= |segs| && (forall i :: 0 <= i < t ==> segs[i].tiered) && (t < |segs| ==> !segs[t].tiered)
  {
    if segs == [] || !segs[0].tiered then 0 else 1 + Tiered(segs[1..])
  }

  lemma SomeLocal(l: Log, h: seq<bytes>)
    requires LogHolds(l, h)
    ensures Tiered(l.segs) < |l.segs|
  {
    assert !l.segs[|l.segs| - 1].tiered;
  }

  lemma {:induction false} LocalAfter(l: Log, h: seq<bytes>, i: nat)
    requires LogHolds(l, h) && Tiered(l.segs) <= i < |l.segs|
    ensures !l.segs[i].tiered
  {
    if i == Tiered(l.segs) {
    } else {
      LocalAfter(l, h, i - 1);
      assert SegAt(l, h, i - 1);
    }
  }

  function Bases(segs: seq<Seg>): (b: seq<nat>)
    ensures |b| == |segs| && forall i :: 0 <= i < |b| ==> b[i] == segs[i].base
  {
    seq(|segs|, i requires 0 <= i < |segs| => segs[i].base)
  }

  ghost predicate TieredUpTo(segs: seq<Seg>, i: nat) {
    i <= |segs| && forall k :: 0 <= k < |segs| ==> (segs[k].tiered <==> k < i)
  }

  lemma LocalKeys(dir: Dir, segs: seq<Seg>, t: nat)
    requires TieredUpTo(segs, t) && Mirrors(dir, segs)
    ensures Elements(Bases(segs[t..])) == dir.logs.Keys
  {
    var bases, local := Bases(segs[t..]), segs[t..];
    forall b ensures b in bases <==> b in dir.logs {
      if b in bases {
        var i :| 0 <= i < |local| && bases[i] == b;
        assert local[i] == segs[t + i] && FilesOf(dir, segs[t + i]);
      }
      if b in dir.logs {
        assert Belongs(segs, b);
        var i :| 0 <= i < |segs| && !segs[i].tiered && segs[i].base == b;
        assert bases[i - t] == b;
      }
    }
  }

  /** The directory lists the segments that were not tiered, in order. */
  lemma DirectoryLists(l: Log, h: seq<bytes>)
    requires LogHolds(l, h)
    ensures TotalOrder(NatLess)
    ensures Ascending(l.dir.logs.Keys, NatLess) == Bases(l.segs[Tiered(l.segs)..])
  {
    NatLessTotal();
    var t := Tiered(l.segs);
    SegsOrdered(l, h);
    forall i: nat | t <= i < |l.segs| ensures !l.segs[i].tiered { LocalAfter(l, h, i); }
    LocalKeys(l.dir, l.segs, t);
    SuffixIncreasing(l.segs, t);
    AscendingUnique(Ascending(l.dir.logs.Keys, NatLess), Bases(l.segs[t..]), NatLess);
  }

  lemma SuffixIncreasing(segs: seq<Seg>, t: nat)
    requires t <= |segs| && Ordered(segs)
    ensures Increasing(Bases(segs[t..]), NatLess)
  {
    var bases := Bases(segs[t..]);
    forall i, j | 0 <= i < j < |bases| ensures NatLess(bases[i], bases[j]) {
      assert bases[i] == segs[t + i].base && bases[j] == segs[t + j].base;
    }
  }

  lemma {:induction false} OpenAllAt(bases: seq<nat>, files: map<nat, bytes>, i: nat)
    requires i < |bases|
    ensures OpenAll(bases, files)[i] == OpenSeg(bases[i], FileAt(files, bases[i]))
  {
    if i == |bases| - 1 {
    } else {
      OpenAllAt(bases[..|bases| - 1], files, i);
    }
  }

  /** Opening a local segment again finds the very segment that was closed. */
  lemma SegReopens(s: Seg, cold: map<nat, Blob>, h: seq<bytes>)
    requires SegHolds(s, cold, h) && !s.tiered
    ensures OpenSeg(s.base, s.log) == s
  {
    RecoveryIsHistory(s.base, h[s.base..s.next]);
  }

  /** Reopening recovers exactly the segments that were not tiered, index and counters included, and no others. */
  lemma ReopenRecovers(l: Log, h: seq<bytes>, max: int)
    requires LogHolds(l, h) && max <= UINT32_LIMIT
    ensures Reopen(l, max).segs == l.segs[Tiered(l.segs)..] && Reopen(l, max).cold == l.cold
    ensures LogHolds(Reopen(l, max), h)
  {
    var t := Tiered(l.segs);
    DirectoryLists(l, h);
    AllOpenedAgain(l, h, t);
    SuffixMirrors(l, h, t);
    SuffixHolds(l, h, t, Reopen(l, max));
  }

  lemma AllOpenedAgain(l: Log, h: seq<bytes>, t: nat)
    requires LogHolds(l, h) && t == Tiered(l.segs)
    ensures OpenAll(Bases(l.segs[t..]), l.dir.logs) == l.segs[t..]
  {
    var bases, files, local := Bases(l.segs[t..]), l.dir.logs, l.segs[t..];
    forall i: nat | i < |local| ensures OpenAll(bases, files)[i] == local[i] {
      OpenedAgain(l, h, t + i);
      OpenAllAt(bases, files, i);
    }
  }

  lemma OpenedAgain(l: Log, h: seq<bytes>, i: nat)
    requires LogHolds(l, h) && Tiered(l.segs) <= i < |l.segs|
    ensures OpenSeg(l.segs[i].base, FileAt(l.dir.logs, l.segs[i].base)) == l.segs[i]
  {
    LocalAfter(l, h, i);
    assert FilesOf(l.dir, l.segs[i]);
    assert SegAt(l, h, i);
    SegReopens(l.segs[i], l.cold, h);
  }

  lemma SuffixMirrors(l: Log, h: seq<bytes>, t: nat)
    requires LogHolds(l, h) && t == Tiered(l.segs)
    ensures Mirrors(Opened(l.dir, l.segs[t..]), l.segs[t..])
  {
    var local := l.segs[t..];
    SegsOrdered(l, h);
    forall i: nat | i < |local| ensures !local[i].tiered { LocalAfter(l, h, t + i); }
    forall b | b in l.dir.logs || b in l.dir.indexes ensures Belongs(local, b) {
      assert Belongs(l.segs, b);
      var i :| 0 <= i < |l.segs| && !l.segs[i].tiered && l.segs[i].base == b;
      assert local[i - t] == l.segs[i];
    }
    OpenedMirrors(l.dir, local);
  }

  lemma SuffixHolds(l: Log, h: seq<bytes>, t: nat, r: Log)
    requires LogHolds(l, h) && t < |l.segs| && r.segs == l.segs[t..] && r.cold == l.cold && 0 < r.max <= UINT32_LIMIT
    requires Mirrors(r.dir, r.segs)
    ensures LogHolds(r, h)
  {
    forall i: nat | i < |r.segs| ensures SegAt(r, h, i) {
      assert SegAt(l, h, t + i);
    }
  }

  /** The oldest offset survives reopening exactly when nothing was tiered. */
  lemma ReopenKeepsOldest(l: Log, h: seq<bytes>, max: int)
    requires LogHolds(l, h) && max <= UINT32_LIMIT
    ensures OldestOffset(Reopen(l, max)) == OldestOffset(l) <==> Tiered(l.segs) == 0
    ensures NextOffset(Reopen(l, max)) == NextOffset(l) && OldestOffset(Reopen(l, max)) >= OldestOffset(l)
  {
    ReopenRecovers(l, h, max);
    if Tiered(l.segs) > 0 { BasesIncrease(l, h, 0, Tiered(l.segs)); }
  }

  // ----- what one tiering does -----

  /** The first local closed segment, from `i` on, whose upload fails; the active segment's index if there is none. */
  function FirstFailure(segs: seq<Seg>, i: nat, uploads: nat -> Upload): (f: nat)
    requires i < |segs|
    ensures i <= f < |segs|
    decreases |segs| - i
  {
    if i == |segs| - 1 || !uploads(segs[i].base).Stored? then i else FirstFailure(segs, i + 1, uploads)
  }

  lemma {:induction false} SkipsTiered(l: Log, i: nat, t: nat, n: nat, uploads: nat -> Upload)
    requires i <= t <= |l.segs| && forall k :: i <= k < t ==> l.segs[k].tiered
    ensures TierFrom(l, i, n, uploads) == TierFrom(l, t, n, uploads)
    decreases t - i
  {
    if i == t {
    } else {
      SkipsTiered(l, i + 1, t, n, uploads);
    }
  }

  lemma OneMoreTiered(l: Log, i: nat, upload: Upload)
    requires i < |l.segs| && TieredUpTo(l.segs, i) && upload.Stored?
    ensures var segs := TierOut(l, i, upload).segs;
            && |segs| == |l.segs| && TieredUpTo(segs, i + 1) && forall k :: i < k < |segs| ==> segs[k] == l.segs[k]
  {
  }

  /** Tiering `segs` from `i`, of which `n` were counted before, stopped at `f`. */
  ghost predicate StoppedAt(r: Tiering, segs: seq<Seg>, i: nat, n: nat, f: nat) {
    && i <= f < |segs| == |r.log.segs| && r.ok == (f == |segs| - 1) && r.tiered == n + (f - i)
    && TieredUpTo(r.log.segs, f) && forall k :: f <= k < |segs| ==> r.log.segs[k] == segs[k]
  }

  lemma {:induction false} TierStops(l: Log, i: nat, n: nat, uploads: nat -> Upload)
    requires i < |l.segs| && TieredUpTo(l.segs, i)
    ensures StoppedAt(TierFrom(l, i, n, uploads), l.segs, i, n, FirstFailure(l.segs, i, uploads))
    decreases |l.segs| - i
  {
    if i == |l.segs| - 1 {
      assert TierFrom(l, i, n, uploads) == TierFrom(l, i + 1, n, uploads) == Tiering(l, n, true);
    } else {
      var upload := uploads(l.segs[i].base);
      if upload.Stored? {
        var l' := TierOut(l, i, upload);
        OneMoreTiered(l, i, upload);
        SameFailure(l.segs, l'.segs, i + 1, uploads);
        TierStops(l', i + 1, n + 1, uploads);
      }
    }
  }

  lemma {:induction false} SameFailure(a: seq<Seg>, b: seq<Seg>, i: nat, uploads: nat -> Upload)
    requires |a| == |b| && i < |a| && forall k :: i <= k < |a| ==> a[k] == b[k]
    ensures FirstFailure(a, i, uploads) == FirstFailure(b, i, uploads)
    decreases |a| - i
  {
    if i == |a| - 1 {
    } else {
      SameFailure(a, b, i + 1, uploads);
    }
  }

  /** TierSegments tiers exactly the local closed segments before the first failing upload, counts them, and leaves that
      segment and every later one as they were. */
  lemma TiersUpToFailure(l: Log, h: seq<bytes>, uploads: nat -> Upload)
    requires LogHolds(l, h) && l.tiering
    ensures var r, f := TierSegments(l, uploads), FirstFailure(l.segs, Tiered(l.segs), uploads);
            && r.ok == (f == |l.segs| - 1) && r.tiered == f - Tiered(l.segs)
            && TieredUpTo(r.log.segs, f) && |r.log.segs| == |l.segs| && r.log.segs[f..] == l.segs[f..]
  {
    var t := Tiered(l.segs);
    forall k: nat | t <= k < |l.segs| ensures !l.segs[k].tiered { LocalAfter(l, h, k); }
    SkipsTiered(l, 0, t, 0, uploads);
    TierStops(l, t, 0, uploads);
  }

  // ----- every run -----

  datatype Op =
    | Append(payload: bytes)
    | Compaction(keep: int)
    | EnableTiering
    | Tier(uploads: nat -> Upload)
    | Restart(max: int)

  ghost function Do(l: Log, op: Op): Log
    requires Usable(l)
  {
    match op
    case Append(p) => AppendTo(l, p)
    case Compaction(keep) => Compact(l, keep)
    case EnableTiering => l.(tiering := true)
    case Tier(uploads) => TierSegments(l, uploads).log
    case Restart(max) => Reopen(l, max)
  }

  /** The format's limits: payloads below 2^32 bytes, segments of at most 2^32. */
  ghost predicate Within(op: Op) {
    match op
    case Append(p) => |p| < UINT32_LIMIT
    case Restart(max) => max <= UINT32_LIMIT
    case _ => true
  }

  ghost predicate AllWithin(ops: seq<Op>) {
    forall i :: 0 <= i < |ops| ==> Within(ops[i])
  }

  function Payloads(ops: seq<Op>): seq<bytes> {
    if ops == [] then []
    else
      var rest, op := Payloads(ops[..|ops| - 1]), ops[|ops| - 1];
      if op.Append? then rest + [op.payload] else rest
  }

  /** A log opened in an empty directory, then `ops`. */
  ghost function RunLog(max: int, ops: seq<Op>): (l: Log)
    requires max <= UINT32_LIMIT && AllWithin(ops)
    ensures LogHolds(l, Payloads(ops))
  {
    if ops == [] then
      StartHolds(max);
      OpenLog(max, BasesIn(map[]), NO_FILES, map[])
    else
      var l, op := RunLog(max, ops[..|ops| - 1]), ops[|ops| - 1];
      DoHolds(l, Payloads(ops[..|ops| - 1]), op);
      Do(l, op)
  }

  lemma StartHolds(max: int)
    requires max <= UINT32_LIMIT
    ensures LogHolds(OpenLog(max, BasesIn(map[]), NO_FILES, map[]), [])
  {
    NatLessTotal();
    var files: map<nat, bytes> := map[];
    SomeElement(Ascending(files.Keys, NatLess));
    FirstHolds(max);
  }

  lemma EmptySegment()
    ensures OpenAll([0], NO_FILES.logs) == [OpenSeg(0, [])] && SegHolds(OpenSeg(0, []), map[], [])
    ensures OpenSeg(0, []).base == OpenSeg(0, []).next == 0 && !OpenSeg(0, []).tiered
  {
    var none: seq<bytes> := [];
    RecoveryIsHistory(0, none);
    assert none[0..0] == none;
    OpenAllAt([0], NO_FILES.logs, 0);
  }

  lemma OneSegment(l: Log, s: Seg)
    requires l.segs == [s] && l.dir == Opened(NO_FILES, [s]) && l.cold == map[] && l.max > 0 && l.max <= UINT32_LIMIT
    requires s.base == s.next == 0 && !s.tiered && SegHolds(s, map[], [])
    ensures LogHolds(l, [])
  {
    OpenedMirrors(NO_FILES, l.segs);
    assert SegAt(l, [], 0);
  }

  lemma FirstHolds(max: int)
    requires max <= UINT32_LIMIT
    ensures LogHolds(OpenLog(max, [0], NO_FILES, map[]), []) && OldestOffset(OpenLog(max, [0], NO_FILES, map[])) == 0
  {
    EmptySegment();
    OneSegment(OpenLog(max, [0], NO_FILES, map[]), OpenSeg(0, []));
  }

  lemma DoHolds(l: Log, h: seq<bytes>, op: Op)
    requires LogHolds(l, h) && Within(op)
    ensures LogHolds(Do(l, op), if op.Append? then h + [op.payload] else h)
    ensures OldestOffset(Do(l, op)) >= OldestOffset(l)
    ensures !op.Compaction? && !op.Restart? ==> OldestOffset(Do(l, op)) == OldestOffset(l)
  {
    match op
    case Append(p) => AppendHoldsLog(l, h, p);
    case Compaction(keep) => CompactHolds(l, h, keep);
    case EnableTiering => Enabled(l, h);
    case Tier(uploads) => TierFromHolds(l, h, 0, 0, uploads);
    case Restart(max) => ReopenRecovers(l, h, max); ReopenKeepsOldest(l, h, max);
  }

  lemma Enabled(l: Log, h: seq<bytes>)
    requires LogHolds(l, h)
    ensures LogHolds(l.(tiering := true), h)
  {
    var l' := l.(tiering := true);
    forall i: nat | i < |l'.segs| ensures SegAt(l', h, i) { assert SegAt(l, h, i); }
  }

  /**
   The log refines a sequence. After any run of appends, compactions, tierings and restarts, offsets are handed out in
   append order without gaps, reading any offset still in range returns the payload assigned to it byte for byte, and
   reading any other fails.
   */
  lemma LogIsSequence(max: int, ops: seq<Op>, offset: int)
    requires max <= UINT32_LIMIT && AllWithin(ops)
    ensures var l, h := RunLog(max, ops), Payloads(ops);
            && NextOffset(l) == |h|
            && Read(l, offset) == if OldestOffset(l) <= offset < |h| then Some(h[offset]) else None
  {
    ReadServes(RunLog(max, ops), Payloads(ops), offset);
  }

  /** Only compaction and restarting drop anything: without them every offset from 0 on is readable. */
  lemma {:induction false} NothingDropped(max: int, ops: seq<Op>)
    requires max <= UINT32_LIMIT && AllWithin(ops)
    requires forall i :: 0 <= i < |ops| ==> !ops[i].Compaction? && !ops[i].Restart?
    ensures OldestOffset(RunLog(max, ops)) == 0
  {
    if ops == [] {
      NatLessTotal();
      var none: map<nat, bytes> := map[];
      SomeElement(Ascending(none.Keys, NatLess));
      FirstHolds(max);
    } else {
      var before, op := ops[..|ops| - 1], ops[|ops| - 1];
      NothingDropped(max, before);
      DoHolds(RunLog(max, before), Payloads(before), op);
    }
  }

  /** A restart makes the oldest offset unreadable if its segment was tiered. */
  lemma TieredForgotten(l: Log, h: seq<bytes>, max: int)
    requires LogHolds(l, h) && Tiered(l.segs) > 0 && max <= UINT32_LIMIT
    ensures OldestOffset(l) < |h| && Read(l, OldestOffset(l)) == Some(h[OldestOffset(l)])
    ensures Read(Reopen(l, max), OldestOffset(l)) == None
  {
    assert SegAt(l, h, 0);
    ReadServes(l, h, OldestOffset(l));
    ReopenRecovers(l, h, max);
    ReopenKeepsOldest(l, h, max);
    ReadServes(Reopen(l, max), h, OldestOffset(l));
  }

  /** Segments stay contiguous, with strictly increasing bases and no empty segment but the last. */
  lemma SegmentsContiguous(max: int, ops: seq<Op>, i: nat)
    requires max <= UINT32_LIMIT && AllWithin(ops) && i + 1 < |RunLog(max, ops).segs|
    ensures var segs := RunLog(max, ops).segs; segs[i].base < segs[i].next == segs[i + 1].base
  {
    assert SegAt(RunLog(max, ops), Payloads(ops), i);
  }

  // ----- a run that forgets -----

  function AlwaysStored(base: nat): Upload {
    Stored
  }

  lemma {:induction false} NoFailure(segs: seq<Seg>, i: nat)
    requires i < |segs|
    ensures FirstFailure(segs, i, AlwaysStored) == |segs| - 1
    decreases |segs| - i
  {
    if i == |segs| - 1 {
    } else {
      NoFailure(segs, i + 1);
    }
  }

  /** When no upload fails every segment but the active one is tiered. */
  lemma AllTiered(l: Log, h: seq<bytes>)
    requires LogHolds(l, h)
    ensures Tiered(TierSegments(l.(tiering := true), AlwaysStored).log.segs) == |l.segs| - 1
  {
    var l' := l.(tiering := true);
    Enabled(l, h);
    TiersUpToFailure(l', h, AlwaysStored);
    NoFailure(l'.segs, Tiered(l'.segs));
  }

  lemma Extended(max: int, ops: seq<Op>, op: Op)
    requires max <= UINT32_LIMIT && AllWithin(ops) && Within(op)
    ensures AllWithin(ops + [op]) && Usable(RunLog(max, ops))
    ensures RunLog(max, ops + [op]) == Do(RunLog(max, ops), op)
    ensures Payloads(ops + [op]) == if op.Append? then Payloads(ops) + [op.payload] else Payloads(ops)
  {
    assert (ops + [op])[..|ops|] == ops;
  }

  lemma FirstLog(max: int)
    requires max <= UINT32_LIMIT
    ensures RunLog(max, []) == OpenLog(max, [0], NO_FILES, map[]) && OldestOffset(RunLog(max, [])) == 0
  {
    NatLessTotal();
    var none: map<nat, bytes> := map[];
    SomeElement(Ascending(none.Keys, NatLess));
    FirstHolds(max);
  }

  lemma FirstRecord(l: Log, p: bytes)
    requires LogHolds(l, []) && |l.segs| == 1 && l.max == 5 && |p| == 1
    ensures var r := AppendTo(l, p); |r.segs| == 1 && Active(r).size == 5 && r.max == 5 && !Active(r).tiered
  {
    assert SegAt(l, [], 0);
  }

  lemma SecondRecord(l: Log, p: bytes)
    requires Usable(l) && |l.segs| == 1 && Active(l).size == 5 && l.max == 5 && !Active(l).tiered && |p| == 1
    ensures |AppendTo(l, p).segs| == 2 && !AppendTo(l, p).segs[0].tiered
  {
  }

  lemma TwoTooLarge(one: seq<Op>, two: seq<Op>)
    requires one == [] + [Append([1])] && two == one + [Append([2])]
    ensures AllWithin(two) && |RunLog(5, two).segs| == 2 && !RunLog(5, two).segs[0].tiered
    ensures Payloads(two) == [[1], [2]] && OldestOffset(RunLog(5, two)) == 0
  {
    FirstLog(5);
    FirstRecord(RunLog(5, []), [1]);
    Extended(5, [], Append([1]));
    SecondRecord(RunLog(5, one), [2]);
    Extended(5, one, Append([2]));
    DoHolds(RunLog(5, []), [], Append([1]));
    DoHolds(RunLog(5, one), Payloads(one), Append([2]));
  }

  lemma ThenTiered(two: seq<Op>, three: seq<Op>, four: seq<Op>)
    requires AllWithin(two) && |RunLog(5, two).segs| == 2 && OldestOffset(RunLog(5, two)) == 0
    requires three == two + [EnableTiering] && four == three + [Tier(AlwaysStored)]
    ensures AllWithin(four) && Tiered(RunLog(5, four).segs) == 1
    ensures Payloads(four) == Payloads(two) && OldestOffset(RunLog(5, four)) == 0
  {
    Extended(5, two, EnableTiering);
    Extended(5, three, Tier(AlwaysStored));
    AllTiered(RunLog(5, two), Payloads(two));
    DoHolds(RunLog(5, three), Payloads(three), Tier(AlwaysStored));
  }

  /** Two records too large for one segment are appended and the first is tiered. Offset 0 is readable while its segment
      is in the cold store, and no longer after a restart. */
  lemma RestartForgetsTiered()
    ensures var ops := [Append([1]), Append([2]), EnableTiering, Tier(AlwaysStored)];
            && AllWithin(ops) && AllWithin(ops + [Restart(5)])
            && Read(RunLog(5, ops), 0) == Some([1]) && Read(RunLog(5, ops + [Restart(5)]), 0) == None
  {
    var one := [] + [Append([1])];
    var two := one + [Append([2])];
    var three := two + [EnableTiering];
    var four := three + [Tier(AlwaysStored)];
    assert four == [Append([1]), Append([2]), EnableTiering, Tier(AlwaysStored)];
    TwoTooLarge(one, two);
    ThenTiered(two, three, four);
    Extended(5, four, Restart(5));
    TieredForgotten(RunLog(5, four), Payloads(four), 5);
  }

  // ----- compaction does not delete what a failed upload left -----

  /** The upload of the first local segment fails and leaves something under its key; compaction drops the segment. */
  lemma FailedUploadStays(l: Log, h: seq<bytes>, uploads: nat -> Upload, keep: int)
    requires LogHolds(l, h) && l.tiering && Tiered(l.segs) < ToRemove(l, keep)
    requires var upload := uploads(l.segs[Tiered(l.segs)].base); upload.Failed? && upload.left.Some?
    ensures var l', base := TierSegments(l, uploads).log, l.segs[Tiered(l.segs)].base;
            && l'.segs == l.segs
            && base in Compact(l', keep).cold && base < OldestOffset(Compact(l', keep))
  {
    var t, l' := Tiered(l.segs), TierSegments(l, uploads).log;
    SkipsTiered(l, 0, t, 0, uploads);
    TierFromHolds(l, h, 0, 0, uploads);
    CompactFrees(l', h, keep, t);
    CompactHolds(l', h, keep);
    BasesIncrease(l', h, t, ToRemove(l', keep));
  }

  const LEFTOVER: Blob := Blob([], [])

  function AlwaysFails(base: nat): Upload {
    Failed(Some(LEFTOVER))
  }

  /** Two records too large for one segment are appended, the upload of the first segment fails after storing something,
      and compaction keeps one segment. Nothing of the first is readable, and its key is still in the cold store. */
  lemma CompactionLeavesBlob()
    ensures var ops := [Append([1]), Append([2]), EnableTiering, Tier(AlwaysFails), Compaction(1)];
            && AllWithin(ops) && 0 < OldestOffset(RunLog(5, ops)) && 0 in RunLog(5, ops).cold
  {
    var one := [] + [Append([1])];
    var two := one + [Append([2])];
    var three := two + [EnableTiering];
    var four := three + [Tier(AlwaysFails)];
    assert four + [Compaction(1)] == [Append([1]), Append([2]), EnableTiering, Tier(AlwaysFails), Compaction(1)];
    TwoTooLarge(one, two);
    Extended(5, two, EnableTiering);
    Extended(5, three, Tier(AlwaysFails));
    Extended(5, four, Compaction(1));
    FailedUploadStays(RunLog(5, three), Payloads(three), AlwaysFails, 1);
  }
}
