/**
 The log over its segments: the directory, rolling, finding a segment, compaction, tiering and reopening, and the
 invariant that ties the log to the plain sequence of payloads appended to it.
 */
module SegmentedLog {
  import opened Bytes
  import opened Options
  import opened Segments
  import opened Sorting

  /** What the cold store holds for one segment. */
  datatype Blob = Blob(log: bytes, index: bytes)

  /** The log's directory: the .log and .index files in it, by the base offset in their names. */
  datatype Dir = Dir(logs: map<nat, bytes>, indexes: map<nat, bytes>)

  /** The log's own cold store, keyed by base offset. `tiering` says whether EnableTiering was called since opening. */
  datatype Log = Log(max: int, segs: seq<Seg>, dir: Dir, cold: map<nat, Blob>, tiering: bool)

  /** An empty directory. */
  const NO_FILES: Dir := Dir(map[], map[])

  const DEFAULT_MAX: int := 4 * 1024 * 1024

  // ----- operations -----

  function Active(l: Log): Seg
    requires l.segs != []
  {
    l.segs[|l.segs| - 1]
  }

  function NextOffset(l: Log): nat
    requires l.segs != []
  {
    Active(l).next
  }

  function OldestOffset(l: Log): nat
    requires l.segs != []
  {
    l.segs[0].base
  }

  function FileAt(files: map<nat, bytes>, base: nat): bytes {
    if base in files then files[base] else []
  }

  /** The segment's two files, created or overwritten. */
  function Written(dir: Dir, s: Seg): Dir {
    Dir(dir.logs[s.base := s.log], dir.indexes[s.base := s.index])
  }

  function Erased(dir: Dir, base: nat): Dir {
    Dir(dir.logs - {base}, dir.indexes - {base})
  }

  predicate Rolls(l: Log, p: bytes)
    requires l.segs != []
  {
    Active(l).size + (4 + |p|) > l.max && Active(l).size > 0
  }

  function Roll(l: Log): Log
    requires l.segs != []
  {
    var s := OpenSeg(NextOffset(l), FileAt(l.dir.logs, NextOffset(l)));
    l.(segs := l.segs + [s], dir := Written(l.dir, s))
  }

  predicate Usable(l: Log) {
    l.segs != [] && Active(l).base <= Active(l).next
  }

  function AppendActive(l: Log, p: bytes): (r: Log)
    requires Usable(l)
    ensures Usable(r)
  {
    var s := AppendRecord(Active(l), p);
    l.(segs := l.segs[|l.segs| - 1 := s], dir := Written(l.dir, s))
  }

  function AppendTo(l: Log, p: bytes): (r: Log)
    requires Usable(l)
    ensures Usable(r)
  {
    AppendActive(if Rolls(l, p) then Roll(l) else l, p)
  }

  /** How many leading segments have a base at most `offset`: what sort.Search finds when bases increase. */
  function Upper(segs: seq<Seg>, offset: int): (u: nat)
    ensures u <= |segs|
  {
    if segs == [] then 0
    else
      var u := Upper(segs[..|segs| - 1], offset);
      if u < |segs| - 1 || segs[|segs| - 1].base > offset then u else |segs|
  }

  function FindSegment(segs: seq<Seg>, offset: int): (r: Option<nat>)
    ensures r.Some? ==> r.value < |segs| && segs[r.value].base <= offset < segs[r.value].next
  {
    var u := Upper(segs, offset);
    if u == 0 || !(segs[u - 1].base <= offset < segs[u - 1].next) then None else Some(u - 1)
  }

  function ReadIn(s: Seg, cold: map<nat, Blob>, offset: int): Option<bytes> {
    if !s.tiered then ReadSeg(s, s.log, s.index, offset)
    else if s.base in cold then ReadSeg(s, cold[s.base].log, cold[s.base].index, offset)
    else None
  }

  function Read(l: Log, offset: int): Option<bytes> {
    match FindSegment(l.segs, offset)
    case None => None
    case Some(i) => ReadIn(l.segs[i], l.cold, offset)
  }

  /** Removing a tiered segment deletes its blob. */
  function WithoutBlobs(cold: map<nat, Blob>, segs: seq<Seg>): map<nat, Blob> {
    if segs == [] then cold
    else
      var rest, last := WithoutBlobs(cold, segs[..|segs| - 1]), segs[|segs| - 1];
      if last.tiered then rest - {last.base} else rest
  }

  /** Removing a local one deletes its files. */
  function WithoutFiles(dir: Dir, segs: seq<Seg>): Dir {
    if segs == [] then dir
    else
      var rest, last := WithoutFiles(dir, segs[..|segs| - 1]), segs[|segs| - 1];
      if last.tiered then rest else Erased(rest, last.base)
  }

  function ToRemove(l: Log, keep: int): (n: nat)
    requires l.segs != []
    ensures n < |l.segs|
  {
    var k := if keep < 1 then 1 else keep;
    if |l.segs| > k then |l.segs| - k else 0
  }

  function Compact(l: Log, keep: int): Log
    requires l.segs != []
  {
    var n := ToRemove(l, keep);
    l.(segs := l.segs[n..], dir := WithoutFiles(l.dir, l.segs[..n]), cold := WithoutBlobs(l.cold, l.segs[..n]))
  }

  /** What an upload did: a failed one may still have left something under the key. */
  datatype Upload = Stored | Failed(left: Option<Blob>)

  function Put(cold: map<nat, Blob>, key: nat, blob: Blob, upload: Upload): map<nat, Blob> {
    match upload
    case Stored => cold[key := blob]
    case Failed(None) => cold
    case Failed(Some(left)) => cold[key := left]
  }

  function TierOut(l: Log, i: nat, upload: Upload): Log
    requires i < |l.segs|
  {
    var s := l.segs[i];
    l.(cold := Put(l.cold, s.base, Blob(s.log, s.index), upload),
       dir := if upload.Stored? then Erased(l.dir, s.base) else l.dir,
       segs := if upload.Stored? then l.segs[i := s.(log := [], index := [], tiered := true)] else l.segs)
  }

  datatype Tiering = Tiering(log: Log, tiered: nat, ok: bool)

  /** The loop of TierSegments from segment `i` on, having tiered `n` so far; `uploads` is by base offset. */
  function TierFrom(l: Log, i: nat, n: nat, uploads: nat -> Upload): Tiering
    decreases |l.segs| - i
  {
    if i >= |l.segs| then Tiering(l, n, true)
    else if i == |l.segs| - 1 || l.segs[i].tiered then TierFrom(l, i + 1, n, uploads)
    else
      var upload := uploads(l.segs[i].base);
      if upload.Stored? then TierFrom(TierOut(l, i, upload), i + 1, n + 1, uploads)
      else Tiering(TierOut(l, i, upload), n, false)
  }

  function TierSegments(l: Log, uploads: nat -> Upload): Tiering {
    if !l.tiering then Tiering(l, 0, false) else TierFrom(l, 0, 0, uploads)
  }

  function OpenAll(bases: seq<nat>, files: map<nat, bytes>): (segs: seq<Seg>)
    ensures |segs| == |bases|
  {
    if bases == [] then []
    else OpenAll(bases[..|bases| - 1], files)
         + [OpenSeg(bases[|bases| - 1], FileAt(files, bases[|bases| - 1]))]
  }

  /** The bases to open: those the directory lists, in ascending order, or a first segment at 0. */
  ghost function BasesIn(files: map<nat, bytes>): (bases: seq<nat>)
    ensures bases != []
  {
    NatLessTotal();
    var found := Ascending(files.Keys, NatLess);
    if found == [] then [0] else found
  }

  /** Opening creates the .log files that are missing and writes every .index file anew. */
  function Opened(dir: Dir, segs: seq<Seg>): Dir {
    if segs == [] then dir else Written(Opened(dir, segs[..|segs| - 1]), segs[|segs| - 1])
  }

  function OpenLog(max: int, bases: seq<nat>, dir: Dir, cold: map<nat, Blob>): (l: Log)
    requires bases != []
    ensures l.segs != []
  {
    var segs := OpenAll(bases, dir.logs);
    Log(if max <= 0 then DEFAULT_MAX else max, segs, Opened(dir, segs), cold, false)
  }

  /** Opening the directory the log leaves behind. */
  ghost function Reopen(l: Log, max: int): (r: Log)
    ensures r.segs != []
  {
    OpenLog(max, BasesIn(l.dir.logs), l.dir, l.cold)
  }

  // ----- the invariant -----

  /** The segment holds `h` from its base to its next offset, locally or in the cold store. */
  ghost predicate SegHolds(s: Seg, cold: map<nat, Blob>, h: seq<bytes>) {
    && s.base <= s.next <= |h| && Fits(h[s.base..s.next])
    && if s.tiered then s.base in cold && cold[s.base] == Blob(Records(h[s.base..s.next]), IndexOf(h[s.base..s.next]))
       else Holds(s, h[s.base..s.next])
  }

  /** Segment `i` and how it joins its neighbours: bases increase, nothing is skipped, tiered segments come first. */
  ghost predicate SegAt(l: Log, h: seq<bytes>, i: nat)
    requires i < |l.segs|
  {
    && SegHolds(l.segs[i], l.cold, h)
    && (i + 1 < |l.segs| ==>
          && l.segs[i].base < l.segs[i].next == l.segs[i + 1].base
          && (l.segs[i + 1].tiered ==> l.segs[i].tiered))
  }

  ghost predicate FilesOf(dir: Dir, s: Seg) {
    && s.base in dir.logs && dir.logs[s.base] == s.log
    && s.base in dir.indexes && dir.indexes[s.base] == s.index
  }

  /** Some local segment has that base. */
  ghost predicate Belongs(segs: seq<Seg>, base: nat) {
    exists i :: 0 <= i < |segs| && !segs[i].tiered && segs[i].base == base
  }

  /** The directory holds the files of the local segments and nothing else. */
  ghost predicate Mirrors(dir: Dir, segs: seq<Seg>) {
    && (forall i :: 0 <= i < |segs| && !segs[i].tiered ==> FilesOf(dir, segs[i]))
    && (forall b {:trigger Belongs(segs, b)} :: b in dir.logs || b in dir.indexes ==> Belongs(segs, b))
  }

  /** The log is the payloads `h`, those before the oldest offset dropped. */
  ghost predicate LogHolds(l: Log, h: seq<bytes>) {
    && l.segs != [] && 0 < l.max <= UINT32_LIMIT
    && Active(l).base <= Active(l).next == |h| && !Active(l).tiered
    && (forall i: nat {:trigger SegAt(l, h, i)} :: i < |l.segs| ==> SegAt(l, h, i))
    && Mirrors(l.dir, l.segs)
  }
}
