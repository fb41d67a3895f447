/** A process that stops in the middle of an append: what the next opening of the directory finds, after any run. */
module LogCrash {
  import opened Bytes
  import opened Options
  import opened Sequences
  import opened Segments
  import opened Sorting
  import opened SegmentedLog
  import opened LogTheorems

  function ReadyFor(l: Log, p: bytes): Log
    requires l.segs != []
  {
    if Rolls(l, p) then Roll(l) else l
  }

  /** The active segment's .log file has `cut` bytes of the record; the .index file and the counters have none of it. */
  function StoppedAppending(l: Log, p: bytes, cut: nat): Log
    requires l.segs != [] && cut <= |Record(p)|
  {
    var r := ReadyFor(l, p);
    r.(dir := r.dir.(logs := r.dir.logs[Active(r).base := Active(r).log + Record(p)[..cut]]))
  }

  lemma ReadyHolds(l: Log, h: seq<bytes>, p: bytes)
    requires LogHolds(l, h)
    ensures LogHolds(ReadyFor(l, p), h) && ReadyFor(l, p).cold == l.cold && Active(ReadyFor(l, p)).size < UINT32_LIMIT
    ensures l.segs <= ReadyFor(l, p).segs
  {
    if Rolls(l, p) { Rolled(l, h); }
  }

  lemma SameTiered(a: seq<Seg>, b: seq<Seg>)
    requires a <= b && Tiered(a) < |a|
    ensures Tiered(b) == Tiered(a)
  {
    assert forall i :: 0 <= i < |a| ==> a[i] == b[i];
    assert b[Tiered(a)] == a[Tiered(a)];
  }

  lemma SameOldest(l: Log, h: seq<bytes>, p: bytes, max: int)
    requires LogHolds(l, h) && max <= UINT32_LIMIT
    ensures OldestOffset(Reopen(ReadyFor(l, p), max)) == OldestOffset(Reopen(l, max))
  {
    var r := ReadyFor(l, p);
    ReadyHolds(l, h, p);
    SomeLocal(l, h);
    SameTiered(l.segs, r.segs);
    ReopenRecovers(l, h, max);
    ReopenRecovers(r, h, max);
  }

  /** Only the .log files and the cold store are looked at. */
  lemma SameLogs(a: Log, b: Log, max: int, offset: int)
    requires a.dir.logs == b.dir.logs && a.cold == b.cold
    ensures Reopen(a, max).segs == Reopen(b, max).segs && Read(Reopen(a, max), offset) == Read(Reopen(b, max), offset)
  {
  }

  lemma {:induction false} OpenAllFrame(bases: seq<nat>, files: map<nat, bytes>, base: nat, file: bytes)
    requires base !in bases
    ensures OpenAll(bases, files[base := file]) == OpenAll(bases, files)
  {
    if bases == [] {
    } else {
      OpenAllFrame(bases[..|bases| - 1], files, base, file);
    }
  }

  lemma LastReplaced(bases: seq<nat>, files: map<nat, bytes>, file: bytes)
    requires bases != [] && Increasing(bases, NatLess)
    ensures var n := |bases| - 1;
            OpenAll(bases, files[bases[n] := file]) == OpenAll(bases, files)[n := OpenSeg(bases[n], file)]
  {
    var n := |bases| - 1;
    assert bases[n] !in bases[..n] by {
      forall i | 0 <= i < n ensures bases[i] != bases[n] { assert NatLess(bases[i], bases[n]); }
    }
    OpenAllFrame(bases[..n], files, bases[n], file);
  }

  lemma TornBases(r: Log, h: seq<bytes>, file: bytes)
    requires LogHolds(r, h)
    ensures var bases := BasesIn(r.dir.logs);
            && BasesIn(r.dir.logs[Active(r).base := file]) == bases
            && Increasing(bases, NatLess) && bases[|bases| - 1] == Active(r).base
  {
    var t, base := Tiered(r.segs), Active(r).base;
    SomeLocal(r, h);
    DirectoryLists(r, h);
    SegsOrdered(r, h);
    SuffixIncreasing(r.segs, t);
    var bases := Bases(r.segs[t..]);
    assert bases[|bases| - 1] == base && bases != [];
    assert base in Elements(Ascending(r.dir.logs.Keys, NatLess));
    assert r.dir.logs[base := file].Keys == r.dir.logs.Keys;
  }

  lemma LastOpens(r: Log, x: Log, file: bytes, max: int)
    requires var bases := BasesIn(r.dir.logs);
             && Increasing(bases, NatLess) && BasesIn(x.dir.logs) == bases
             && x.dir.logs == r.dir.logs[bases[|bases| - 1] := file]
    ensures var segs, bases := Reopen(r, max).segs, BasesIn(r.dir.logs);
            Reopen(x, max).segs == segs[|segs| - 1 := OpenSeg(bases[|bases| - 1], file)]
  {
    LastReplaced(BasesIn(r.dir.logs), r.dir.logs, file);
  }

  /** The reopened log, but for its last segment, is the one an undisturbed process would have found. */
  lemma TornOpens(r: Log, h: seq<bytes>, file: bytes, x: Log, max: int)
    requires LogHolds(r, h)
    requires x.dir.logs == r.dir.logs[Active(r).base := file] && x.cold == r.cold
    ensures var segs := Reopen(r, max).segs;
            Reopen(x, max).segs == segs[|segs| - 1 := OpenSeg(Active(r).base, file)]
  {
    TornBases(r, h, file);
    LastOpens(r, x, file, max);
  }

  lemma {:induction false} UpperSame(a: seq<Seg>, b: seq<Seg>, offset: int)
    requires |a| == |b| && forall i :: 0 <= i < |a| ==> a[i].base == b[i].base
    ensures Upper(a, offset) == Upper(b, offset)
  {
    if a == [] {
    } else {
      UpperSame(a[..|a| - 1], b[..|b| - 1], offset);
    }
  }

  lemma BeforeLast(l: Log, x: Log, s: Seg, offset: int)
    requires l.segs != [] && x.segs == l.segs[|l.segs| - 1 := s] && x.cold == l.cold
    requires s.base == Active(l).base > offset
    ensures Read(x, offset) == Read(l, offset)
  {
    UpperSame(x.segs, l.segs, offset);
  }

  lemma AtLast(x: Log, offset: int)
    requires x.segs != [] && Ordered(x.segs) && Active(x).base <= offset
    ensures Read(x, offset) == if offset < Active(x).next then ReadIn(Active(x), x.cold, offset) else None
  {
    UpperIs(x.segs, offset, |x.segs|);
  }

  lemma TornPart(s: Seg, h: seq<bytes>, offset: int)
    requires s.base <= offset < s.next && s.base <= |h| && KeepsAllButLast(s, s.base, h[s.base..])
    ensures ReadSeg(s, s.log, s.index, offset) == if offset < |h| then Some(h[offset]) else None
  {
    var i := offset - s.base;
    assert offset == s.base + i;
    if offset < |h| { assert h[s.base..][i] == h[offset]; }
  }

  /** With the last segment's record cut short, every offset before it is served and nothing else is. */
  lemma TornReads(l: Log, h: seq<bytes>, s: Seg, x: Log, offset: int)
    requires LogHolds(l, h) && KeepsAllButLast(s, Active(l).base, h[Active(l).base..]) && !s.tiered
    requires x.segs == l.segs[|l.segs| - 1 := s] && x.cold == l.cold
    ensures OldestOffset(x) == OldestOffset(l) && NextOffset(x) == |h| + 1
    ensures Read(x, offset) == if OldestOffset(l) <= offset < |h| then Some(h[offset]) else None
  {
    Inside(l, h, |l.segs| - 1);
    if offset < s.base {
      BeforeLast(l, x, s, offset);
      ReadServes(l, h, offset);
    } else {
      SegsOrdered(l, h);
      AtLast(x, offset);
      if offset < s.next { TornPart(s, h, offset); }
    }
  }

  lemma PartFits(l: Log, h: seq<bytes>, p: bytes)
    requires LogHolds(l, h) && |p| < UINT32_LIMIT && Active(l).size < UINT32_LIMIT
    ensures var base := Active(l).base; base <= |h| && Active(l).log == Records(h[base..]) && Fits(h[base..] + [p])
  {
    var s := Active(l);
    assert SegAt(l, h, |l.segs| - 1);
    assert h[s.base..] == h[s.base..|h|];
    SegAppended(s, l.cold, h, p);
    assert (h + [p])[s.base..|h| + 1] == h[s.base..] + [p];
  }

  lemma TornAppend(r: Log, h: seq<bytes>, p: bytes, cut: nat, x: Log, max: int, offset: int)
    requires LogHolds(r, h) && Active(r).size < UINT32_LIMIT
    requires |p| < UINT32_LIMIT && max <= UINT32_LIMIT && 0 < cut < |Record(p)|
    requires x.dir.logs == r.dir.logs[Active(r).base := Active(r).log + Record(p)[..cut]] && x.cold == r.cold
    ensures var b := Reopen(x, max);
            && OldestOffset(b) == OldestOffset(Reopen(r, max)) && NextOffset(b) == |h| + 1
            && Read(b, offset) == if OldestOffset(b) <= offset < |h| then Some(h[offset]) else None
  {
    var file, base := Active(r).log + Record(p)[..cut], Active(r).base;
    TornOpens(r, h, file, x, max);
    SomeLocal(r, h);
    ReopenRecovers(r, h, max);
    PartFits(r, h, p);
    CrashRecovery(base, h[base..], p, cut);
    TornReads(Reopen(r, max), h, OpenSeg(base, file), Reopen(x, max), offset);
  }

  lemma WholeAppend(r: Log, h: seq<bytes>, p: bytes, x: Log, max: int, offset: int)
    requires LogHolds(r, h) && Active(r).size < UINT32_LIMIT && |p| < UINT32_LIMIT && max <= UINT32_LIMIT
    requires x.dir.logs == r.dir.logs[Active(r).base := Active(r).log + Record(p)] && x.cold == r.cold
    ensures var b := Reopen(x, max);
            && OldestOffset(b) == OldestOffset(Reopen(r, max)) && NextOffset(b) == |h| + 1
            && Read(b, offset) == if OldestOffset(b) <= offset < |h| + 1 then Some((h + [p])[offset]) else None
  {
    var a := AppendActive(r, p);
    ActiveAppended(r, h, p);
    SameLogs(a, x, max, offset);
    ReopenRecovers(a, h + [p], max);
    ReadServes(Reopen(a, max), h + [p], offset);
    ReopenRecovers(r, h, max);
    SomeLocal(r, h);
    ActiveTiered(r, p);
  }

  lemma ActiveTiered(r: Log, p: bytes)
    requires Usable(r) && Tiered(r.segs) < |r.segs| && !Active(r).tiered
    ensures Tiered(AppendActive(r, p).segs) == Tiered(r.segs)
    ensures AppendActive(r, p).segs[Tiered(r.segs)].base == r.segs[Tiered(r.segs)].base
  {
    var t, segs := Tiered(r.segs), AppendActive(r, p).segs;
    assert forall i :: 0 <= i < |segs| ==> segs[i].tiered == r.segs[i].tiered;
    assert !segs[t].tiered;
  }

  /**
   A process stops after writing `cut` bytes of a record, and the directory is opened again. What was appended before is
   all there, from the first offset that was not tiered. The record is there exactly when its last byte was written;
   when only some of it was, its offset is counted and cannot be read.
   */
  lemma CrashedAppend(l: Log, h: seq<bytes>, p: bytes, cut: nat, max: int, offset: int)
    requires LogHolds(l, h) && |p| < UINT32_LIMIT && cut <= |Record(p)| && max <= UINT32_LIMIT
    ensures var b := Reopen(StoppedAppending(l, p, cut), max);
            var kept := if cut == |Record(p)| then h + [p] else h;
            && OldestOffset(b) == OldestOffset(Reopen(l, max)) && NextOffset(b) == |h| + (if cut == 0 then 0 else 1)
            && Read(b, offset) == if OldestOffset(b) <= offset < |kept| then Some(kept[offset]) else None
  {
    var r, x := ReadyFor(l, p), StoppedAppending(l, p, cut);
    ReadyHolds(l, h, p);
    SameOldest(l, h, p, max);
    if cut == 0 {
      NothingWritten(r, h, x);
      SameLogs(r, x, max, offset);
      ReopenRecovers(r, h, max);
      ReadServes(Reopen(r, max), h, offset);
    } else if cut < |Record(p)| {
      TornAppend(r, h, p, cut, x, max, offset);
    } else {
      assert Record(p)[..cut] == Record(p);
      WholeAppend(r, h, p, x, max, offset);
    }
  }

  lemma NothingWritten(r: Log, h: seq<bytes>, x: Log)
    requires LogHolds(r, h) && x.dir.logs == r.dir.logs[Active(r).base := Active(r).log + []]
    ensures x.dir.logs == r.dir.logs
  {
    assert FilesOf(r.dir, Active(r));
    assert Active(r).log + [] == Active(r).log;
  }

  /** The same of a process that stops in the append after any run. */
  lemma CrashedRun(max: int, ops: seq<Op>, p: bytes, cut: nat, max': int, offset: int)
    requires max <= UINT32_LIMIT && AllWithin(ops) && |p| < UINT32_LIMIT && cut <= |Record(p)| && max' <= UINT32_LIMIT
    ensures var l, h := RunLog(max, ops), Payloads(ops);
            var b, kept := Reopen(StoppedAppending(l, p, cut), max'), if cut == |Record(p)| then h + [p] else h;
            && OldestOffset(b) == OldestOffset(Reopen(l, max')) && NextOffset(b) == |h| + (if cut == 0 then 0 else 1)
            && Read(b, offset) == if OldestOffset(b) <= offset < |kept| then Some(kept[offset]) else None
  {
    CrashedAppend(RunLog(max, ops), Payloads(ops), p, cut, max', offset);
  }

  // ----- appending after a crash -----

  /** The log's last segment was opened from `file`, and the directory has no file of a later base. */
  ghost predicate LastOpened(b: Log, base: nat, file: bytes) {
    && b.segs != [] && Ordered(b.segs) && Active(b) == OpenSeg(base, file)
    && 0 < b.max <= UINT32_LIMIT && forall k :: k in b.dir.logs ==> k <= base
  }

  lemma AppendsThere(b: Log, base: nat, file: bytes, q: bytes)
    requires LastOpened(b, base, file) && Usable(b) && !Rolls(b, q) && |q| < UINT32_LIMIT
    ensures Read(AppendTo(b, q), NextOffset(b)) == Some(q) <==> WholeFile(file)
  {
    var b' := AppendTo(b, q);
    assert b' == AppendActive(b, q) && Ordered(b'.segs);
    AtLast(b', NextOffset(b));
    AppendAfterOpenExactly(base, file, q);
  }

  lemma FirstReads(n: nat, q: bytes)
    requires |q| < UINT32_LIMIT
    ensures var s := OpenSeg(n, []); s.base == s.next == n && !s.tiered
    ensures var t := AppendRecord(OpenSeg(n, []), q); t.next == n + 1 && ReadSeg(t, t.log, t.index, n) == Some(q)
  {
    assert WholeFile([]) by { assert Records([]) == [] && Short([]); }
    RecoveryExactly(n, []);
    AppendAfterOpenExactly(n, [], q);
  }

  lemma AppendsRolled(b: Log, base: nat, file: bytes, q: bytes)
    requires LastOpened(b, base, file) && base < NextOffset(b) && Rolls(b, q) && |q| < UINT32_LIMIT
    ensures Read(AppendTo(b, q), NextOffset(b)) == Some(q)
  {
    var n := NextOffset(b);
    assert n !in b.dir.logs;
    FirstReads(n, q);
    assert Ordered(b.segs + [AppendRecord(OpenSeg(n, []), q)]);
    assert AppendTo(b, q).segs == b.segs + [AppendRecord(OpenSeg(n, []), q)];
    AtLast(AppendTo(b, q), n);
  }

  lemma FileWhole(base: nat, part: seq<bytes>, p: bytes, cut: nat)
    requires Fits(part + [p]) && cut <= |Record(p)|
    ensures WholeFile(Records(part) + Record(p)[..cut]) <==> cut == 0 || cut == |Record(p)|
    ensures OpenSeg(base, Records(part) + Record(p)[..cut]).size > 0 ==>
              OpenSeg(base, Records(part) + Record(p)[..cut]).next > base
  {
    var file := Records(part) + Record(p)[..cut];
    FitsFront(part, p);
    if cut == 0 {
      assert file == Records(part);
      RecoveryIsHistory(base, part);
      assert Short(part);
    } else if cut < |Record(p)| {
      CrashRecovery(base, part, p, cut);
      RecoveryExactly(base, file);
    } else {
      RecordsSnoc(part, p);
      assert file == Records(part + [p]);
      RecoveryIsHistory(base, part + [p]);
      assert Short(part + [p]);
    }
  }

  lemma LastReplacedOrdered(segs: seq<Seg>, s: Seg)
    requires segs != [] && Ordered(segs) && s.base == segs[|segs| - 1].base
    ensures var t := segs[|segs| - 1 := s]; Ordered(t) && forall i :: 0 <= i < |t| ==> t[i].base <= s.base
  {
  }

  lemma KeysUpTo(dir: Dir, segs: seq<Seg>, base: nat, k: nat)
    requires forall b :: b in dir.logs || b in dir.indexes ==> b <= base
    requires (forall i :: 0 <= i < |segs| ==> segs[i].base <= base) && k in Opened(dir, segs).logs
    ensures k <= base
  {
    OpenedKeys(dir, segs, k);
  }

  lemma CrashOpensLast(r: Log, h: seq<bytes>, file: bytes, x: Log, max: int)
    requires LogHolds(r, h) && max <= UINT32_LIMIT
    requires x.dir == r.dir.(logs := r.dir.logs[Active(r).base := file]) && x.cold == r.cold
    ensures LastOpened(Reopen(x, max), Active(r).base, file)
  {
    var b, base := Reopen(x, max), Active(r).base;
    LastOrdered(r, h, file, x, max);
    forall k | k in x.dir.logs || k in x.dir.indexes ensures k <= base { BasesUpTo(r, h, k); }
    forall k | k in b.dir.logs ensures k <= base { KeysUpTo(x.dir, b.segs, base, k); }
  }

  lemma LastOrdered(r: Log, h: seq<bytes>, file: bytes, x: Log, max: int)
    requires LogHolds(r, h) && max <= UINT32_LIMIT
    requires x.dir == r.dir.(logs := r.dir.logs[Active(r).base := file]) && x.cold == r.cold
    ensures var b := Reopen(x, max);
            && Ordered(b.segs) && Active(b) == OpenSeg(Active(r).base, file)
            && forall i :: 0 <= i < |b.segs| ==> b.segs[i].base <= Active(r).base
  {
    TornOpens(r, h, file, x, max);
    SomeLocal(r, h);
    ReopenRecovers(r, h, max);
    SegsOrdered(Reopen(r, max), h);
    LastReplacedOrdered(Reopen(r, max).segs, OpenSeg(Active(r).base, file));
  }

  lemma BasesUpTo(r: Log, h: seq<bytes>, k: nat)
    requires LogHolds(r, h)
    ensures k in r.dir.logs || k in r.dir.indexes ==> k <= Active(r).base
  {
    if k in r.dir.logs || k in r.dir.indexes {
      assert Belongs(r.segs, k);
      SegsOrdered(r, h);
    }
  }

  /** After the crash and the reopening `q` is appended. It reads back exactly when the record was written in whole or
      not at all, or the phantom size makes the append roll. */
  lemma CrashThenAppend(l: Log, h: seq<bytes>, p: bytes, cut: nat, max: int, q: bytes)
    requires LogHolds(l, h) && |p| < UINT32_LIMIT && cut <= |Record(p)| && max <= UINT32_LIMIT && |q| < UINT32_LIMIT
    ensures var b := Reopen(StoppedAppending(l, p, cut), max);
            && Usable(b)
            && (Read(AppendTo(b, q), NextOffset(b)) == Some(q) <==> cut == 0 || cut == |Record(p)| || Rolls(b, q))
  {
    var r, x := ReadyFor(l, p), StoppedAppending(l, p, cut);
    var base, file, b := Active(r).base, Active(r).log + Record(p)[..cut], Reopen(x, max);
    ReadyHolds(l, h, p);
    CrashOpensLast(r, h, file, x, max);
    PartFits(r, h, p);
    FileWhole(base, h[base..], p, cut);
    if Rolls(b, q) {
      AppendsRolled(b, base, file, q);
    } else {
      AppendsThere(b, base, file, q);
    }
  }

  /** The same after any run. */
  lemma CrashedRunAppends(max: int, ops: seq<Op>, p: bytes, cut: nat, max': int, q: bytes)
    requires max <= UINT32_LIMIT && AllWithin(ops) && |p| < UINT32_LIMIT && cut <= |Record(p)|
    requires max' <= UINT32_LIMIT && |q| < UINT32_LIMIT
    ensures var b := Reopen(StoppedAppending(RunLog(max, ops), p, cut), max');
            && Usable(b)
            && (Read(AppendTo(b, q), NextOffset(b)) == Some(q) <==> cut == 0 || cut == |Record(p)| || Rolls(b, q))
  {
    CrashThenAppend(RunLog(max, ops), Payloads(ops), p, cut, max', q);
  }
}
