/**
 One segment of the log: a .log file of length-prefixed records, a .index file of fixed-width entries,
 and what is rebuilt from the .log file alone when a segment is opened.
 */
module Segments {
  import opened Bytes
  import opened Options

  // A length prefix is 4 bytes; an index entry is 8: the record's number in the segment, then its position.

  // ----- the file format -----

  function Record(p: bytes): bytes {
    PutUint32(|p|) + p
  }

  function Records(ps: seq<bytes>): bytes {
    if ps == [] then [] else Records(ps[..|ps| - 1]) + Record(ps[|ps| - 1])
  }

  function IndexEntry(rel: nat, position: nat): (e: bytes)
    ensures |e| == 8
  {
    PutUint32(rel) + PutUint32(position)
  }

  /** The index the appends of `ps` leave behind: one entry per record, holding where the record starts. */
  function IndexOf(ps: seq<bytes>): bytes {
    if ps == [] then []
    else IndexOf(ps[..|ps| - 1]) + IndexEntry(|ps| - 1, |Records(ps[..|ps| - 1])|)
  }

  /** Every payload's length and every record's position fit a uint32. */
  ghost predicate Fits(ps: seq<bytes>) {
    && (forall i :: 0 <= i < |ps| ==> |ps[i]| < UINT32_LIMIT)
    && (forall i :: 0 <= i < |ps| ==> |Records(ps[..i])| < UINT32_LIMIT)
  }

  /** A record can be read back from its own bytes exactly when its payload is shorter than 2^32. */
  lemma RecordRoundTrip(p: bytes)
    ensures |Record(p)| == 4 + |p|
    ensures 4 + Uint32(Record(p)[..4]) == |Record(p)| <==> |p| < UINT32_LIMIT
    ensures |p| < UINT32_LIMIT ==> Record(p)[4..4 + Uint32(Record(p)[..4])] == p
  {
    assert Record(p)[..4] == PutUint32(|p|);
    Uint32RoundTrip(|p|);
  }

  /** An index entry gives back its record's position exactly when that position is below 2^32. */
  lemma PositionRoundTrip(rel: nat, position: nat)
    ensures Uint32(IndexEntry(rel, position)[4..8]) == position <==> position < UINT32_LIMIT
  {
    assert IndexEntry(rel, position)[4..8] == PutUint32(position);
    Uint32RoundTrip(position);
  }

  // ----- a segment -----

  /** `log` and `index` are the local files; a tiered segment has none and is read from the cold store. */
  datatype Seg = Seg(base: nat, next: nat, size: nat, log: bytes, index: bytes, tiered: bool)

  function AppendRecord(s: Seg, p: bytes): Seg
    requires s.next >= s.base
  {
    s.(log := s.log + Record(p),
       index := s.index + IndexEntry(s.next - s.base, s.size),
       size := s.size + 4 + |p|,
       next := s.next + 1)
  }

  /** Resolving an index entry to a payload, with every out-of-range read an error. Local files and bytes fetched from
      the cold store are read by the same rule. */
  function Lookup(log: bytes, index: bytes, entryPos: nat): Option<bytes> {
    if entryPos + 8 > |index| then None
    else
      var position := Uint32(index[entryPos + 4..entryPos + 8]);
      if position + 4 > |log| then None
      else
        var start := position + 4;
        var recLen := Uint32(log[position..start]);
        if start + recLen > |log| then None else Some(log[start..start + recLen])
  }

  /** segment.read, given the files to read from. */
  function ReadSeg(s: Seg, log: bytes, index: bytes, offset: int): Option<bytes> {
    if offset < s.base || offset >= s.next then None
    else Lookup(log, index, ToUint32(offset - s.base) * 8)
  }

  /** The segment's files and counters are what appending `ps` to an empty segment leaves. */
  ghost predicate Holds(s: Seg, ps: seq<bytes>) {
    && s.next == s.base + |ps| && s.size == |Records(ps)|
    && s.log == Records(ps) && s.index == IndexOf(ps)
  }

  lemma AppendHolds(s: Seg, ps: seq<bytes>, p: bytes)
    requires Holds(s, ps)
    ensures Holds(AppendRecord(s, p), ps + [p])
  {
    assert (ps + [p])[..|ps|] == ps;
  }

  // ----- where records lie -----

  /** `p`'s record lies at `at` in `log`. */
  ghost predicate RecordIn(log: bytes, at: nat, p: bytes) {
    at + |Record(p)| <= |log| && log[at..at + |Record(p)|] == Record(p)
  }

  /** Entry number `i` of `index` gives `position`. */
  ghost predicate EntryIn(index: bytes, i: nat, position: nat) {
    8 * i + 8 <= |index| && index[8 * i..8 * i + 8] == IndexEntry(i, position)
  }

  lemma RecordStays(log: bytes, tail: bytes, at: nat, p: bytes)
    requires RecordIn(log, at, p)
    ensures RecordIn(log + tail, at, p)
  {
    assert (log + tail)[at..at + |Record(p)|] == log[at..at + |Record(p)|];
  }

  lemma EntryStays(index: bytes, tail: bytes, i: nat, position: nat)
    requires EntryIn(index, i, position)
    ensures EntryIn(index + tail, i, position)
  {
    assert (index + tail)[8 * i..8 * i + 8] == index[8 * i..8 * i + 8];
  }

  lemma {:induction false} RecordsAt(ps: seq<bytes>, i: nat)
    requires i < |ps|
    ensures RecordIn(Records(ps), |Records(ps[..i])|, ps[i])
  {
    var rest, last := ps[..|ps| - 1], ps[|ps| - 1];
    if i == |rest| {
    } else {
      RecordsAt(rest, i);
      assert rest[..i] == ps[..i];
      RecordStays(Records(rest), Record(last), |Records(ps[..i])|, ps[i]);
    }
  }

  lemma {:induction false} IndexAt(ps: seq<bytes>, i: nat)
    requires i < |ps|
    ensures EntryIn(IndexOf(ps), i, |Records(ps[..i])|)
  {
    var rest := ps[..|ps| - 1];
    IndexSize(rest);
    if i == |rest| {
    } else {
      IndexAt(rest, i);
      assert rest[..i] == ps[..i];
      EntryStays(IndexOf(rest), IndexEntry(|rest|, |Records(rest)|), i, |Records(ps[..i])|);
    }
  }

  lemma {:induction false} IndexSize(ps: seq<bytes>)
    ensures |IndexOf(ps)| == 8 * |ps|
  {
    if ps == [] {
    } else {
      IndexSize(ps[..|ps| - 1]);
    }
  }

  lemma {:induction false} RecordsSize(ps: seq<bytes>)
    ensures |Records(ps)| >= 4 * |ps|
  {
    if ps == [] {
    } else {
      RecordsSize(ps[..|ps| - 1]);
    }
  }

  /** Every record of a segment is found again, byte for byte. */
  lemma LookupHit(ps: seq<bytes>, i: nat)
    requires i < |ps| && Fits(ps)
    ensures Lookup(Records(ps), IndexOf(ps), i * 8) == Some(ps[i])
  {
    RecordsAt(ps, i);
    IndexAt(ps, i);
    LookupRecord(Records(ps), IndexOf(ps), i, |Records(ps[..i])|, ps[i]);
  }

  lemma CountFits(ps: seq<bytes>, i: nat)
    requires i < |ps| && Fits(ps)
    ensures ToUint32(i) == i && ToUint32(i + 1) == i + 1
  {
    RecordsSize(ps[..i]);
    ToUint32Small(i);
    ToUint32Small(i + 1);
  }

  lemma LookupRecord(log: bytes, index: bytes, i: nat, position: nat, p: bytes)
    requires EntryIn(index, i, position) && position < UINT32_LIMIT
    requires RecordIn(log, position, p) && |p| < UINT32_LIMIT
    ensures Lookup(log, index, i * 8) == Some(p)
  {
    var at := 8 * i;
    assert index[at + 4..at + 8] == index[at..at + 8][4..] == PutUint32(position);
    Uint32RoundTrip(position);
    RecordRoundTrip(p);
    var rec := log[position..position + |Record(p)|];
    assert log[position..position + 4] == rec[..4] == PutUint32(|p|);
    Uint32RoundTrip(|p|);
    assert log[position + 4..position + 4 + |p|] == rec[4..] == p;
  }

  // ----- rebuilding the index -----

  datatype Scanned = Scanned(index: bytes, size: nat, count: nat)

  /** The scan's results with one more record of `recLen` payload bytes; records are counted in a uint32. */
  function Counted(acc: Scanned, recLen: nat): Scanned {
    Scanned(acc.index + IndexEntry(acc.count, acc.size), acc.size + 4 + recLen, ToUint32(acc.count + 1))
  }

  /** Reading a length prefix: at the end of the file only part of the four-byte buffer is filled, and the rest of it
      keeps what the previous read left there. */
  function Turn(file: bytes, at: nat, lenBuf: bytes): (buf: bytes)
    requires |lenBuf| == 4 && at < |file|
    ensures |buf| == 4
    ensures at + 4 <= |file| ==> buf == file[at..at + 4]
  {
    var n := if |file| - at < 4 then |file| - at else 4;
    file[at..at + n] + lenBuf[n..]
  }

  /** The loop of rebuildIndex; a torn prefix counts as a record all the same. */
  function Scan(file: bytes, filePos: nat, lenBuf: bytes, acc: Scanned): Scanned
    requires |lenBuf| == 4
    decreases |file| - filePos
  {
    if filePos >= |file| then acc
    else
      var n := if |file| - filePos < 4 then |file| - filePos else 4;
      var buf := Turn(file, filePos, lenBuf);
      var recLen := Uint32(buf);
      Scan(file, filePos + n + recLen, buf, Counted(acc, recLen))
  }

  const ZEROS: bytes := [0, 0, 0, 0]

  /** openSegment: everything but the .log bytes is recomputed; the old index is truncated away. */
  function OpenSeg(base: nat, file: bytes): Seg {
    var r := Scan(file, 0, ZEROS, Scanned([], 0, 0));
    Seg(base, base + r.count, r.size, file, r.index, false)
  }

  /** What the scan has found after the first `i` records. */
  function Upto(ps: seq<bytes>, i: nat): Scanned
    requires i <= |ps|
  {
    Scanned(IndexOf(ps[..i]), |Records(ps[..i])|, i)
  }

  lemma UptoStep(ps: seq<bytes>, i: nat)
    requires i < |ps| && Fits(ps)
    ensures Counted(Upto(ps, i), |ps[i]|) == Upto(ps, i + 1)
  {
    CountFits(ps, i);
    assert ps[..i + 1][..i] == ps[..i];
  }

  /** Scanning from either record boundary ends in the same result. */
  ghost predicate SameScan(file: bytes, buf: bytes, acc: Scanned, buf': bytes, acc': Scanned) {
    |buf| == 4 == |buf'| && Scan(file, acc.size, buf, acc) == Scan(file, acc'.size, buf', acc')
  }

  lemma SameScanTrans(file: bytes, b0: bytes, a0: Scanned, b1: bytes, a1: Scanned, b2: bytes, a2: Scanned)
    requires SameScan(file, b0, a0, b1, a1) && SameScan(file, b1, a1, b2, a2)
    ensures SameScan(file, b0, a0, b2, a2)
  {
  }

  lemma UptoScan(ps: seq<bytes>, file: bytes, i: nat, lenBuf: bytes)
    requires i < |ps| && Fits(ps) && |lenBuf| == 4 && Records(ps) <= file
    ensures SameScan(file, lenBuf, Upto(ps, i), PutUint32(|ps[i]|), Upto(ps, i + 1))
  {
    UptoStep(ps, i);
    RecordsIn(ps, i, file);
    var acc := Upto(ps, i);
    SameScanStep(file, lenBuf, acc, ps[i]);
  }

  lemma SameScanStep(file: bytes, lenBuf: bytes, acc: Scanned, p: bytes)
    requires |lenBuf| == 4 && |p| < UINT32_LIMIT && RecordIn(file, acc.size, p)
    ensures SameScan(file, lenBuf, acc, PutUint32(|p|), Counted(acc, |p|))
  {
    ScanStep(file, acc.size, lenBuf, acc, p);
  }

  /** Scanning whole records with anything after them, from the boundary after the first `i`: the scan comes to the end
      of the records with everything the appends produced. */
  lemma {:induction false} ScanRecords(ps: seq<bytes>, file: bytes, i: nat, lenBuf: bytes) returns (last: bytes)
    requires i <= |ps| && Fits(ps) && |lenBuf| == 4 && Records(ps) <= file
    ensures SameScan(file, lenBuf, Upto(ps, i), last, Upto(ps, |ps|))
    decreases |ps| - i
  {
    last := lenBuf;
    if i == |ps| {
    } else {
      UptoScan(ps, file, i, lenBuf);
      last := ScanRecords(ps, file, i + 1, PutUint32(|ps[i]|));
      SameScanTrans(file, lenBuf, Upto(ps, i), PutUint32(|ps[i]|), Upto(ps, i + 1), last, Upto(ps, |ps|));
    }
  }

  lemma RecordsIn(ps: seq<bytes>, i: nat, file: bytes)
    requires i < |ps| && Records(ps) <= file
    ensures RecordIn(file, |Records(ps[..i])|, ps[i])
  {
    RecordsAt(ps, i);
    RecordStays(Records(ps), file[|Records(ps)|..], |Records(ps[..i])|, ps[i]);
    assert file == Records(ps) + file[|Records(ps)|..];
  }

  /** One turn of the loop over a whole record. */
  lemma ScanStep(file: bytes, at: nat, lenBuf: bytes, acc: Scanned, p: bytes)
    requires |lenBuf| == 4 && |p| < UINT32_LIMIT
    requires RecordIn(file, at, p)
    ensures Scan(file, at, lenBuf, acc) ==
            Scan(file, at + |Record(p)|, PutUint32(|p|), Counted(acc, |p|))
  {
    var buf := file[at..at + 4];
    assert buf == file[at..at + |Record(p)|][..4] == PutUint32(|p|);
    assert buf + lenBuf[4..] == buf;
    Uint32RoundTrip(|p|);
  }

  /** Recovery equals history: opening a file of whole records regenerates the index, the size and the next offset that
      the original appends produced, whatever the index file held. */
  lemma RecoveryIsHistory(base: nat, ps: seq<bytes>)
    requires Fits(ps)
    ensures Holds(OpenSeg(base, Records(ps)), ps)
  {
    var last := ScanRecords(ps, Records(ps), 0, ZEROS);
    assert ps[..0] == [] && ps[..|ps|] == ps;
  }

  // ----- files that were cut off -----

  ghost predicate Short(ps: seq<bytes>) {
    forall i :: 0 <= i < |ps| ==> |ps[i]| < UINT32_LIMIT
  }

  /** The file is a concatenation of whole records. */
  ghost predicate WholeFile(file: bytes) {
    exists ps :: Short(ps) && Records(ps) == file
  }

  lemma RecordsSnoc(ps: seq<bytes>, p: bytes)
    ensures Records(ps + [p]) == Records(ps) + Record(p)
  {
    assert (ps + [p])[..|ps|] == ps;
  }

  lemma Regroup(a: bytes, b: bytes, c: bytes)
    ensures a + b + c == a + (b + c)
  {
  }

  lemma {:induction false} RecordsCons(p: bytes, ps: seq<bytes>)
    ensures Records([p] + ps) == Record(p) + Records(ps)
  {
    if ps == [] {
      assert [p] + ps == [] + [p];
      RecordsSnoc([], p);
    } else {
      var front, last := ps[..|ps| - 1], ps[|ps| - 1];
      RecordsCons(p, front);
      RecordsSnoc([p] + front, last);
      RecordsSnoc(front, last);
      assert [p] + ps == [p] + front + [last] && ps == front + [last];
      Regroup(Record(p), Records(front), Record(last));
    }
  }

  lemma {:induction false} ScanWhole(file: bytes, at: nat, lenBuf: bytes, acc: Scanned, ps: seq<bytes>)
    requires |lenBuf| == 4 && at <= |file| && file[at..] == Records(ps) && Short(ps)
    ensures Scan(file, at, lenBuf, acc).size == acc.size + (|file| - at)
    decreases |ps|
  {
    if ps == [] {
    } else {
      var p, rest := ps[0], ps[1..];
      assert ps == [p] + rest;
      RecordsCons(p, rest);
      var next := at + |Record(p)|;
      SplitAt(file, at, Record(p), Records(rest));
      ScanStep(file, at, lenBuf, acc, p);
      ScanWhole(file, next, PutUint32(|p|), Counted(acc, |p|), rest);
    }
  }

  lemma SplitAt(file: bytes, at: nat, a: bytes, b: bytes)
    requires at <= |file| && file[at..] == a + b
    ensures at + |a| <= |file| && file[at..at + |a|] == a && file[at + |a|..] == b
  {
    assert file[at..at + |a|] == file[at..][..|a|];
    assert file[at + |a|..] == file[at..][|a|..];
  }

  /** `size` is at least the file's, and only equal to it if the file from `at` on is the records of `ps`. */
  ghost predicate Exact(file: bytes, at: nat, size: nat, ps: seq<bytes>) {
    && size >= |file|
    && (size == |file| ==> at <= |file| && Short(ps) && file[at..] == Records(ps))
  }

  lemma ExactStep(file: bytes, at: nat, p: bytes, size: nat, rest: seq<bytes>)
    requires RecordIn(file, at, p) && |p| < UINT32_LIMIT
    requires Exact(file, at + |Record(p)|, size, rest)
    ensures Exact(file, at, size, [p] + rest)
  {
    if size == |file| { Prepend(file, at, p, rest); }
  }

  lemma {:induction false} ScanTorn(file: bytes, at: nat, lenBuf: bytes, acc: Scanned) returns (ps: seq<bytes>)
    requires |lenBuf| == 4 && at <= |file| && acc.size == at
    ensures Exact(file, at, Scan(file, at, lenBuf, acc).size, ps)
    decreases |file| - at
  {
    ps := [];
    if at < |file| {
      var recLen := Uint32(Turn(file, at, lenBuf));
      if at + 4 + recLen <= |file| {
        var p := file[at + 4..at + 4 + recLen];
        RecordFound(file, at, p);
        ScanStep(file, at, lenBuf, acc, p);
        var rest := ScanTorn(file, at + |Record(p)|, PutUint32(|p|), Counted(acc, |p|));
        ExactStep(file, at, p, Scan(file, at, lenBuf, acc).size, rest);
        ps := [p] + rest;
      } else {
        ScanTail(file, at, lenBuf, acc);
      }
    }
  }

  lemma Prepend(file: bytes, at: nat, p: bytes, rest: seq<bytes>)
    requires RecordIn(file, at, p) && file[at + |Record(p)|..] == Records(rest)
    ensures file[at..] == Records([p] + rest)
  {
    RecordsCons(p, rest);
    assert file[at..] == file[at..at + |Record(p)|] + file[at + |Record(p)|..];
  }

  lemma RecordFound(file: bytes, at: nat, p: bytes)
    requires at + 4 <= |file| && at + 4 + Uint32(file[at..at + 4]) <= |file|
    requires p == file[at + 4..at + 4 + Uint32(file[at..at + 4])]
    ensures |p| < UINT32_LIMIT && RecordIn(file, at, p)
  {
    var len := file[at..at + 4];
    Uint32Written(len);
    assert file[at..at + 4 + |p|] == len + p;
  }

  /** A record cut short by the end of the file is the last one, and is counted in full. */
  lemma ScanTail(file: bytes, at: nat, lenBuf: bytes, acc: Scanned)
    requires |lenBuf| == 4 && at < |file|
    requires at + 4 + Uint32(Turn(file, at, lenBuf)) > |file|
    ensures Scan(file, at, lenBuf, acc) == Counted(acc, Uint32(Turn(file, at, lenBuf)))
  {
    var n := if |file| - at < 4 then |file| - at else 4;
    var buf := Turn(file, at, lenBuf);
    assert at + n + Uint32(buf) >= |file|;
  }

  /** Opening a file finds its true size exactly when the file is a concatenation of whole records; a torn tail is
      counted as a record and makes the size too large. */
  lemma RecoveryExactly(base: nat, file: bytes)
    ensures OpenSeg(base, file).size >= |file|
    ensures OpenSeg(base, file).size == |file| <==> WholeFile(file)
  {
    var ps := ScanTorn(file, 0, ZEROS, Scanned([], 0, 0));
    assert file[0..] == file;
    if WholeFile(file) {
      var qs :| Short(qs) && Records(qs) == file;
      ScanWhole(file, 0, ZEROS, Scanned([], 0, 0), qs);
    }
  }

  /** Every offset of `ps` reads its payload; one more offset is counted, and reading it fails. */
  ghost predicate KeepsAllButLast(s: Seg, base: nat, ps: seq<bytes>) {
    && s.base == base && s.next == base + |ps| + 1 && s.size > |s.log|
    && (forall i :: 0 <= i < |ps| ==> ReadSeg(s, s.log, s.index, base + i) == Some(ps[i]))
    && ReadSeg(s, s.log, s.index, base + |ps|) == None
  }

  /**
   A crash in the middle of writing a record. Everything written before is still there and is read byte for byte; the
   record cut short is counted too, at an offset whose read fails, and the size is past the end of the file.
   */
  lemma CrashRecovery(base: nat, ps: seq<bytes>, p: bytes, cut: nat)
    requires Fits(ps + [p]) && 0 < cut < |Record(p)|
    ensures KeepsAllButLast(OpenSeg(base, Records(ps) + Record(p)[..cut]), base, ps)
  {
    FitsFront(ps, p);
    var s := CrashOpens(base, ps, p, cut);
    CrashReads(s, ps, p, cut);
  }

  lemma CrashReads(s: Seg, ps: seq<bytes>, p: bytes, cut: nat)
    requires Fits(ps + [p]) && Fits(ps) && |Records(ps)| < UINT32_LIMIT && |p| < UINT32_LIMIT && 0 < cut < |Record(p)|
    requires s.next == s.base + |ps| + 1 && s.size > |s.log|
    requires s.log == Records(ps) + Record(p)[..cut] && s.index == IndexOf(ps) + IndexEntry(|ps|, |Records(ps)|)
    ensures KeepsAllButLast(s, s.base, ps)
  {
    forall i | 0 <= i < |ps| ensures ReadSeg(s, s.log, s.index, s.base + i) == Some(ps[i]) {
      CrashKeeps(s, ps, i, Record(p)[..cut], IndexEntry(|ps|, |Records(ps)|));
    }
    CrashPhantom(s, ps, p, cut);
  }

  lemma CrashPhantom(s: Seg, ps: seq<bytes>, p: bytes, cut: nat)
    requires Fits(ps + [p]) && |Records(ps)| < UINT32_LIMIT && |p| < UINT32_LIMIT && 0 < cut < |Record(p)|
    requires s.next > s.base + |ps|
    requires s.log == Records(ps) + Record(p)[..cut] && s.index == IndexOf(ps) + IndexEntry(|ps|, |Records(ps)|)
    ensures ReadSeg(s, s.log, s.index, s.base + |ps|) == None
  {
    IndexSize(ps);
    CountFits(ps + [p], |ps|);
    PhantomFails(s.log, s.index, |ps|, |Records(ps)|, p, cut);
    ReadIsLookup(s, s.log, s.index, |ps|);
  }

  lemma CrashOpens(base: nat, ps: seq<bytes>, p: bytes, cut: nat) returns (s: Seg)
    requires Fits(ps + [p]) && Fits(ps) && |p| < UINT32_LIMIT && 0 < cut < |Record(p)|
    ensures s == OpenSeg(base, Records(ps) + Record(p)[..cut])
    ensures s.base == base && s.next == base + |ps| + 1 && s.size > |s.log|
    ensures s.log == Records(ps) + Record(p)[..cut] && s.index == IndexOf(ps) + IndexEntry(|ps|, |Records(ps)|)
  {
    var file, at := Records(ps) + Record(p)[..cut], |Records(ps)|;
    var last := ScanRecords(ps, file, 0, ZEROS);
    assert ps[..0] == [] && ps[..|ps|] == ps;
    TornPrefix(file, Records(ps), p, cut, last);
    ScanTail(file, at, last, Upto(ps, |ps|));
    CountFits(ps + [p], |ps|);
    s := OpenSeg(base, file);
  }

  lemma CrashKeeps(s: Seg, ps: seq<bytes>, i: nat, tail: bytes, entry: bytes)
    requires i < |ps| && Fits(ps) && s.next > s.base + i
    requires s.log == Records(ps) + tail && s.index == IndexOf(ps) + entry
    ensures ReadSeg(s, s.log, s.index, s.base + i) == Some(ps[i])
  {
    ReadsBefore(ps, i, tail, entry);
    CountFits(ps, i);
    ReadIsLookup(s, s.log, s.index, i);
  }

  lemma ReadIsLookup(s: Seg, log: bytes, index: bytes, i: nat)
    requires s.base + i < s.next && ToUint32(i) == i
    ensures ReadSeg(s, log, index, s.base + i) == Lookup(log, index, i * 8)
  {
    assert s.base + i - s.base == i;
  }

  lemma FitsFront(ps: seq<bytes>, p: bytes)
    requires Fits(ps + [p])
    ensures Fits(ps) && |Records(ps)| < UINT32_LIMIT && |p| < UINT32_LIMIT
  {
    var all := ps + [p];
    assert all[|ps|] == p && all[..|ps|] == ps;
    forall i | 0 <= i < |ps| ensures |ps[i]| < UINT32_LIMIT && |Records(ps[..i])| < UINT32_LIMIT {
      assert ps[i] == all[i] && ps[..i] == all[..i];
    }
  }

  lemma TornPrefix(file: bytes, front: bytes, p: bytes, cut: nat, lenBuf: bytes)
    requires |lenBuf| == 4 && |p| < UINT32_LIMIT && 0 < cut < |Record(p)| && file == front + Record(p)[..cut]
    ensures |front| + 4 + Uint32(Turn(file, |front|, lenBuf)) > |file|
  {
    if cut >= 4 {
      assert Turn(file, |front|, lenBuf) == Record(p)[..cut][..4] == PutUint32(|p|);
      Uint32RoundTrip(|p|);
    }
  }

  lemma ReadsBefore(ps: seq<bytes>, i: nat, tail: bytes, entry: bytes)
    requires i < |ps| && Fits(ps)
    ensures Lookup(Records(ps) + tail, IndexOf(ps) + entry, i * 8) == Some(ps[i])
  {
    var at := |Records(ps[..i])|;
    RecordsAt(ps, i);
    IndexAt(ps, i);
    RecordStays(Records(ps), tail, at, ps[i]);
    EntryStays(IndexOf(ps), entry, i, at);
    LookupRecord(Records(ps) + tail, IndexOf(ps) + entry, i, at, ps[i]);
  }

  lemma PhantomFails(log: bytes, index: bytes, i: nat, at: nat, p: bytes, cut: nat)
    requires at < UINT32_LIMIT && |p| < UINT32_LIMIT && 0 < cut < |Record(p)|
    requires |log| == at + cut && log[at..] == Record(p)[..cut]
    requires |index| == 8 * i + 8 && index[8 * i..] == IndexEntry(i, at)
    ensures Lookup(log, index, i * 8) == None
  {
    assert index[8 * i + 4..8 * i + 8] == index[8 * i..][4..] == PutUint32(at);
    Uint32RoundTrip(at);
    if cut >= 4 {
      assert log[at..at + 4] == log[at..][..4] == PutUint32(|p|);
      Uint32RoundTrip(|p|);
    }
  }

  // ----- appending after an opening -----

  lemma {:induction false} ScanGrows(file: bytes, at: nat, lenBuf: bytes, acc: Scanned)
    requires |lenBuf| == 4
    ensures Scan(file, at, lenBuf, acc).size >= acc.size
    decreases |file| - at
  {
    if at >= |file| {
    } else {
      var n := if |file| - at < 4 then |file| - at else 4;
      var buf := Turn(file, at, lenBuf);
      ScanGrows(file, at + n + Uint32(buf), buf, Counted(acc, Uint32(buf)));
    }
  }

  /** One index entry for every record counted, and the count is far below its limit. */
  ghost predicate InStep(acc: Scanned) {
    |acc.index| == 8 * acc.count && 4 * acc.count <= acc.size
  }

  lemma CountedInStep(acc: Scanned, recLen: nat)
    requires InStep(acc) && acc.size < UINT32_LIMIT
    ensures InStep(Counted(acc, recLen))
  {
    ToUint32Small(acc.count + 1);
  }

  lemma {:induction false} ScanInStep(file: bytes, at: nat, lenBuf: bytes, acc: Scanned)
    requires |lenBuf| == 4 && InStep(acc) && Scan(file, at, lenBuf, acc).size < UINT32_LIMIT
    ensures InStep(Scan(file, at, lenBuf, acc))
    decreases |file| - at
  {
    if at >= |file| {
    } else {
      var n := if |file| - at < 4 then |file| - at else 4;
      var buf := Turn(file, at, lenBuf);
      ScanGrows(file, at, lenBuf, acc);
      CountedInStep(acc, Uint32(buf));
      ScanInStep(file, at + n + Uint32(buf), buf, Counted(acc, Uint32(buf)));
    }
  }

  /** Reading at `position`, at or past the end of what was there before `p`'s record was added, gives `p` only if it is
      the end: further on too few bytes are left. */
  lemma LookupAtEnd(file: bytes, index: bytes, i: nat, position: nat, p: bytes)
    requires EntryIn(index, i, position) && |file| <= position < UINT32_LIMIT && |p| < UINT32_LIMIT
    ensures Lookup(file + Record(p), index, i * 8) == Some(p) <==> position == |file|
  {
    var log := file + Record(p);
    if position == |file| {
      assert log[position..position + |Record(p)|] == Record(p);
      LookupRecord(log, index, i, position, p);
    } else {
      assert index[8 * i + 4..8 * i + 8] == index[8 * i..8 * i + 8][4..] == PutUint32(position);
      Uint32RoundTrip(position);
    }
  }

  /** A record appended after opening reads back exactly when the file that was opened was whole records. */
  lemma AppendAfterOpenExactly(base: nat, file: bytes, p: bytes)
    requires |p| < UINT32_LIMIT && OpenSeg(base, file).size < UINT32_LIMIT
    ensures var s := OpenSeg(base, file);
            var t := AppendRecord(s, p);
            ReadSeg(t, t.log, t.index, s.next) == Some(p) <==> WholeFile(file)
  {
    ScanInStep(file, 0, ZEROS, Scanned([], 0, 0));
    RecoveryExactly(base, file);
    AppendedReads(OpenSeg(base, file), p);
  }

  lemma AppendedReads(s: Seg, p: bytes)
    requires s.base <= s.next && |s.index| == 8 * (s.next - s.base) && 4 * (s.next - s.base) <= s.size
    requires |s.log| <= s.size < UINT32_LIMIT && |p| < UINT32_LIMIT
    ensures var t := AppendRecord(s, p); ReadSeg(t, t.log, t.index, s.next) == Some(p) <==> s.size == |s.log|
  {
    var t, i := AppendRecord(s, p), s.next - s.base;
    assert EntryIn(t.index, i, s.size) by {
      assert t.index[8 * i..8 * i + 8] == IndexEntry(i, s.size);
    }
    LookupAtEnd(s.log, t.index, i, s.size, p);
    ToUint32Small(i);
    ReadIsLookup(t, t.log, t.index, i);
  }

  /** What is read instead may be nothing: a crash left one byte of a length prefix, and a one-byte payload is appended
      at offset 1. */
  lemma TornTailLosesNext()
    ensures var s := AppendRecord(OpenSeg(0, [0]), [7]);
            s.next == 2 && ReadSeg(s, s.log, s.index, 1) == None
  {
    var file: bytes := [0];
    assert Turn(file, 0, ZEROS) == ZEROS;
    SmallPrefix(0);
    var acc := Counted(Scanned([], 0, 0), 0);
    assert Scan(file, 0, ZEROS, Scanned([], 0, 0)) == Scan(file, 1, ZEROS, acc) == acc;
    var t := AppendRecord(OpenSeg(0, file), [7]);
    assert t.index[12..16] == PutUint32(4);
    Uint32RoundTrip(4);
    ToUint32Small(1);
  }

  lemma SmallPrefix(n: byte)
    ensures PutUint32(n) == [0, 0, 0, n] && Uint32([0, 0, 0, n]) == n
  {
    assert n / 256 == 0 && n % 256 == n;
    assert BigEndian(0, 1) == [0] && BigEndian(0, 2) == [0, 0] && BigEndian(0, 3) == [0, 0, 0];
    assert BigEndian(n, 4) == BigEndian(0, 3) + [n];
    Uint32RoundTrip(n);
  }

  /** Or other bytes: a crash left five bytes of a record of five, and a payload is appended whose own bytes are then
      taken for a record. */
  lemma TornTailReadsOther()
    ensures var s := AppendRecord(OpenSeg(0, [0, 0, 0, 5, 9]), [0, 0, 0, 1, 42, 7]);
            s.next == 2 && ReadSeg(s, s.log, s.index, 1) == Some([42])
  {
    OpensTorn();
    var p: bytes := [0, 0, 0, 1, 42, 7];
    var t := AppendRecord(OpenSeg(0, [0, 0, 0, 5, 9]), p);
    SmallPrefix(6);
    assert t.log == [0, 0, 0, 5, 9] + [0, 0, 0, 6] + p;
    assert t.index[12..16] == PutUint32(9);
    TakenForRecord(t.log, t.index);
    ToUint32Small(1);
    ReadIsLookup(t, t.log, t.index, 1);
  }

  lemma OpensTorn()
    ensures OpenSeg(0, [0, 0, 0, 5, 9]) == Seg(0, 1, 9, [0, 0, 0, 5, 9], IndexEntry(0, 0), false)
  {
    var file: bytes, len: bytes := [0, 0, 0, 5, 9], [0, 0, 0, 5];
    assert Turn(file, 0, ZEROS) == len;
    SmallPrefix(5);
    var acc := Counted(Scanned([], 0, 0), 5);
    assert Scan(file, 0, ZEROS, Scanned([], 0, 0)) == Scan(file, 9, len, acc) == acc;
    ToUint32Small(1);
  }

  lemma TakenForRecord(log: bytes, index: bytes)
    requires |log| == 15 && log[9..] == [0, 0, 0, 1, 42, 7] && |index| == 16 && index[12..16] == PutUint32(9)
    ensures Lookup(log, index, 8) == Some([42])
  {
    Uint32RoundTrip(9);
    assert log[9..13] == log[9..][..4] == [0, 0, 0, 1] && log[13..14] == log[9..][4..5] == [42];
    SmallPrefix(1);
  }
}
