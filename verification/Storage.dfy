/**
 The storage package as it is written: segments and a log whose fields change in place, each method proved
 against the function on values that says what it does.
 */
module Storage {
  import opened Bytes
  import opened Options
  import opened Segments
  import Sequences
  import opened Sorting
  import opened GoSort
  import L = SegmentedLog
  import opened LogTheorems

  class ColdStore {
    var blobs: map<nat, L.Blob>

    constructor ()
      ensures blobs == map[]
    {
      blobs := map[];
    }

    /** An upload; `outcome` is what the store on the other side did with it. */
    method Put(key: nat, blob: L.Blob, outcome: L.Upload) returns (ok: bool)
      modifies this
      ensures blobs == L.Put(old(blobs), key, blob, outcome) && ok == outcome.Stored?
    {
      match outcome
      case Stored =>
        blobs := blobs[key := blob];
        ok := true;
      case Failed(left) =>
        if left.Some? { blobs := blobs[key := left.value]; }
        ok := false;
    }

    method Delete(key: nat)
      modifies this
      ensures blobs == old(blobs) - {key}
    {
      blobs := blobs - {key};
    }
  }

  /** A directory of segment files, by the base offset in their names. */
  class Directory {
    var logs: map<nat, bytes>
    var indexes: map<nat, bytes>

    function State(): L.Dir
      reads this
    {
      L.Dir(logs, indexes)
    }

    constructor (logs: map<nat, bytes>, indexes: map<nat, bytes>)
      ensures State() == L.Dir(logs, indexes)
    {
      this.logs, this.indexes := logs, indexes;
    }

    method RemoveFiles(base: nat)
      modifies this
      ensures State() == L.Erased(old(State()), base)
    {
      logs := logs - {base};
      indexes := indexes - {base};
    }
  }

  /** Scanning on from `at` with `acc` found so far ends with `whole`. */
  ghost predicate Leads(file: bytes, at: nat, lenBuf: bytes, acc: Scanned, whole: Scanned) {
    |lenBuf| == 4 && Scan(file, at, lenBuf, acc) == whole
  }

  lemma LeadsOn(file: bytes, at: nat, lenBuf: bytes, acc: Scanned, whole: Scanned)
    requires Leads(file, at, lenBuf, acc, whole) && at < |file|
    ensures var n, buf := if |file| - at < 4 then |file| - at else 4, Turn(file, at, lenBuf);
            Leads(file, at + n + Uint32(buf), buf, Counted(acc, Uint32(buf)), whole)
  {
  }

  /** `log` and `index` are the contents of the segment's two open files, which the directory names; a tiered segment
      has neither. */
  class Segment {
    const base: nat
    var next: nat
    var size: nat
    var log: bytes
    var index: bytes
    var tiered: bool

    function State(): Seg
      reads this
    {
      Seg(base, next, size, log, index, tiered)
    }

    /** openSegment: the .log file is created if it is missing, the .index file is truncated and rebuilt. */
    constructor Open(base: nat, dir: Directory)
      modifies dir
      ensures State() == OpenSeg(base, L.FileAt(old(dir.logs), base))
      ensures dir.State() == L.Written(old(dir.State()), State())
    {
      this.base := base;
      next, size, tiered := base, 0, false;
      log, index := L.FileAt(dir.logs, base), [];
      new;
      dir.logs := dir.logs[base := log];
      RebuildIndex(dir);
    }

    method RebuildIndex(dir: Directory)
      modifies this`index, this`size, this`next, dir`indexes
      ensures OpenSeg(base, log) == State().(tiered := false)
      ensures dir.indexes == old(dir.indexes)[base := index]
    {
      var relOffset: nat;
      index, size, relOffset := ScanFile(log);
      dir.indexes := dir.indexes[base := index];
      next := base + relOffset;
    }

    static method ScanFile(file: bytes) returns (index: bytes, pos: nat, relOffset: nat)
      ensures Scanned(index, pos, relOffset) == Scan(file, 0, ZEROS, Scanned([], 0, 0))
    {
      index, pos, relOffset := [], 0, 0;
      var filePos, lenBuf := 0, ZEROS;
      ghost var whole := Scan(file, 0, ZEROS, Scanned([], 0, 0));
      while filePos < |file|
        invariant Leads(file, filePos, lenBuf, Scanned(index, pos, relOffset), whole)
        decreases |file| - filePos
      {
        var n := if |file| - filePos < 4 then |file| - filePos else 4;
        LeadsOn(file, filePos, lenBuf, Scanned(index, pos, relOffset), whole);
        lenBuf := file[filePos..filePos + n] + lenBuf[n..];
        var recLen := Uint32(lenBuf);
        index := index + IndexEntry(relOffset, pos);
        filePos := filePos + n + recLen;
        pos := pos + 4 + recLen;
        relOffset := ToUint32(relOffset + 1);
      }
    }

    method AppendIndexEntry(relOffset: nat, position: nat, dir: Directory)
      modifies this`index, dir`indexes
      ensures index == old(index) + IndexEntry(relOffset, position) && dir.indexes == old(dir.indexes)[base := index]
    {
      index := index + PutUint32(relOffset) + PutUint32(position);
      dir.indexes := dir.indexes[base := index];
      assert index == old(index) + IndexEntry(relOffset, position);
    }

    method Append(payload: bytes, dir: Directory) returns (offset: nat)
      requires base <= next
      modifies this, dir
      ensures State() == AppendRecord(old(State()), payload) && offset == old(next)
      ensures dir.State() == L.Written(old(dir.State()), State())
    {
      log := log + PutUint32(|payload|);
      log := log + payload;
      dir.logs := dir.logs[base := log];
      assert log == old(log) + Record(payload);
      AppendIndexEntry(next - base, size, dir);
      offset := next;
      size := size + 4 + |payload|;
      next := next + 1;
    }

    method Read(offset: int, cold: ColdStore) returns (r: Option<bytes>)
      ensures r == L.ReadIn(State(), cold.blobs, offset)
    {
      if offset < base || offset >= next { return None; }
      var entryPos := ToUint32(offset - base) * 8;
      if tiered {
        if base !in cold.blobs { return None; }
        r := ReadBytes(cold.blobs[base].log, cold.blobs[base].index, entryPos);
      } else {
        r := ReadBytes(log, index, entryPos);
      }
    }

    static method ReadBytes(log: bytes, index: bytes, entryPos: nat) returns (r: Option<bytes>)
      ensures r == Lookup(log, index, entryPos)
    {
      if entryPos + 8 > |index| { return None; }
      var entry := index[entryPos..entryPos + 8];
      assert entry[4..8] == index[entryPos + 4..entryPos + 8];
      var position := Uint32(entry[4..8]);
      if position + 4 > |log| { return None; }
      var recLen := Uint32(log[position..position + 4]);
      var start := position + 4;
      if start + recLen > |log| { return None; }
      r := Some(log[start..start + recLen]);
    }

    method Remove(dir: Directory, cold: ColdStore)
      modifies dir, cold
      ensures cold.blobs == if tiered then old(cold.blobs) - {base} else old(cold.blobs)
      ensures dir.State() == if tiered then old(dir.State()) else L.Erased(old(dir.State()), base)
    {
      if tiered {
        cold.Delete(base);
      } else {
        dir.RemoveFiles(base);
      }
    }

    /** The local files go only once the upload is confirmed. */
    method TierOut(dir: Directory, cold: ColdStore, outcome: L.Upload) returns (ok: bool)
      modifies this, dir, cold
      ensures ok == outcome.Stored?
      ensures dir.State() == if ok then L.Erased(old(dir.State()), base) else old(dir.State())
      ensures cold.blobs == L.Put(old(cold.blobs), base, L.Blob(old(log), old(index)), outcome)
      ensures State() == if ok then old(State()).(log := [], index := [], tiered := true) else old(State())
    {
      ok := cold.Put(base, L.Blob(log, index), outcome);
      if ok {
        dir.RemoveFiles(base);
        log, index := [], [];
        tiered := true;
      }
    }
  }

  function States(segments: seq<Segment>): (v: seq<Seg>)
    reads segments
    ensures |v| == |segments| && forall i :: 0 <= i < |v| ==> v[i] == segments[i].State()
  {
    if segments == [] then []
    else States(segments[..|segments| - 1]) + [segments[|segments| - 1].State()]
  }

  ghost predicate SameFiles(files: map<nat, bytes>, other: map<nat, bytes>) {
    forall b {:trigger L.FileAt(files, b)} :: L.FileAt(files, b) == L.FileAt(other, b)
  }

  /** Opening the first `k` bases has given `view` and turned the directory `start` into `dir`, with no .log file
      changed. */
  ghost predicate OpenedUpTo(start: L.Dir, dir: L.Dir, view: seq<Seg>, bases: seq<nat>, k: nat) {
    && k <= |bases| && view == L.OpenAll(bases[..k], start.logs) && dir == L.Opened(start, view)
    && SameFiles(dir.logs, start.logs)
  }

  lemma OpenedOneMore(start: L.Dir, dir: L.Dir, view: seq<Seg>, bases: seq<nat>, k: nat)
    requires OpenedUpTo(start, dir, view, bases, k) && k < |bases|
    ensures var s := OpenSeg(bases[k], L.FileAt(dir.logs, bases[k]));
            OpenedUpTo(start, L.Written(dir, s), view + [s], bases, k + 1)
  {
    var s := OpenSeg(bases[k], L.FileAt(dir.logs, bases[k]));
    assert bases[..k + 1][..k] == bases[..k] && (view + [s])[..|view|] == view;
    var logs := L.Written(dir, s).logs;
    forall b ensures L.FileAt(logs, b) == L.FileAt(start.logs, b) {
      assert L.FileAt(dir.logs, b) == L.FileAt(start.logs, b);
    }
  }

  /** `coldStore` is where this log tiers to once EnableTiering was called; no other log uses it or the directory. */
  class Log {
    const maxSegmentBytes: int
    const dir: Directory
    const coldStore: ColdStore
    var segments: seq<Segment>
    var active: Segment
    var tiering: bool

    ghost predicate Valid()
      reads this, segments
    {
      && segments != [] && active == segments[|segments| - 1] && active.base <= active.next
      && Sequences.NoRepeats(segments)
    }

    function View(): (v: seq<Seg>)
      reads this, segments
      ensures |v| == |segments| && forall i :: 0 <= i < |v| ==> v[i] == segments[i].State()
    {
      States(segments)
    }

    function State(): L.Log
      reads this, segments, dir, coldStore
    {
      L.Log(maxSegmentBytes, View(), dir.State(), coldStore.blobs, tiering)
    }

    static method Open(maxBytes: int, dir: Directory, coldStore: ColdStore) returns (l: Log)
      modifies dir
      ensures l.Valid() && l.dir == dir && l.coldStore == coldStore && fresh(l) && fresh(l.segments)
      ensures l.State() == L.OpenLog(maxBytes, L.BasesIn(old(dir.logs)), old(dir.State()), coldStore.blobs)
    {
      var bases := DiscoverSegments(dir.logs);
      l := new Log(maxBytes, bases, dir, coldStore);
    }

    constructor (maxBytes: int, bases: seq<nat>, dir: Directory, coldStore: ColdStore)
      requires bases != []
      modifies dir
      ensures Valid() && this.dir == dir && this.coldStore == coldStore && fresh(segments)
      ensures State() == L.OpenLog(maxBytes, bases, old(dir.State()), coldStore.blobs)
    {
      maxSegmentBytes := if maxBytes <= 0 then L.DEFAULT_MAX else maxBytes;
      this.dir, this.coldStore := dir, coldStore;
      tiering := false;
      var found := OpenSegments(bases, dir);
      ghost var view := States(found);
      segments := found;
      active := found[|found| - 1];
      new;
      assert View() == view;
      assert State() == L.Log(maxSegmentBytes, view, dir.State(), coldStore.blobs, false);
    }

    static method DiscoverSegments(logs: map<nat, bytes>) returns (bases: seq<nat>)
      ensures bases == L.BasesIn(logs)
    {
      NatLessTotal();
      bases := SortedKeys(logs.Keys, NatLess);
      if |bases| == 0 { bases := [0]; }
    }

    static method OpenSegments(bases: seq<nat>, dir: Directory) returns (found: seq<Segment>)
      requires bases != []
      modifies dir
      ensures fresh(found) && |found| == |bases| && States(found) == L.OpenAll(bases, old(dir.logs))
      ensures dir.State() == L.Opened(old(dir.State()), States(found))
      ensures Sequences.NoRepeats(found) && found[|found| - 1].base <= found[|found| - 1].next
    {
      found := [];
      ghost var start, now, view: seq<Seg> := dir.State(), dir.State(), [];
      for k := 0 to |bases|
        invariant |found| == |view| == k && fresh(found) && Sequences.NoRepeats(found)
        invariant forall i :: 0 <= i < k ==> found[i].State() == view[i]
        invariant dir.State() == now && OpenedUpTo(start, now, view, bases, k)
      {
        ghost var next := OpenSeg(bases[k], L.FileAt(now.logs, bases[k]));
        OpenedOneMore(start, now, view, bases, k);
        var s := new Segment.Open(bases[k], dir);
        found, now, view := found + [s], L.Written(now, next), view + [next];
      }
      assert bases[..|bases|] == bases && States(found) == view;
      OpenAllAt(bases, start.logs, |bases| - 1);
    }

    method Append(payload: bytes) returns (offset: nat)
      requires Valid()
      modifies this, active, dir
      ensures Valid() && forall s :: s in segments ==> s in old(segments) || fresh(s)
      ensures State() == L.AppendTo(old(State()), payload) && active.next == offset + 1
    {
      var needed := 4 + |payload|;
      if active.size + needed > maxSegmentBytes && active.size > 0 {
        Roll();
      }
      offset := AppendActive(payload);
    }

    method AppendActive(payload: bytes) returns (offset: nat)
      requires Valid()
      modifies active, dir
      ensures Valid() && State() == L.AppendActive(old(State()), payload) && active.next == offset + 1
    {
      ghost var before := View();
      offset := active.Append(payload, dir);
      assert View() == before[|before| - 1 := AppendRecord(before[|before| - 1], payload)];
    }

    method Roll()
      requires Valid()
      modifies this, dir
      ensures Valid() && fresh(active)
      ensures segments == old(segments) + [active]
      ensures State() == L.Roll(old(State()))
    {
      var newBase := active.next;
      ghost var before := View();
      var s := new Segment.Open(newBase, dir);
      segments := segments + [s];
      active := s;
      assert View() == before + [s.State()];
    }

    method FindSegment(offset: int) returns (found: Option<nat>)
      requires Valid() && Ordered(View())
      ensures found == L.FindSegment(View(), offset)
    {
      var u := SearchBases(View(), offset);
      if u == 0 { return None; }
      var seg := segments[u - 1];
      if offset < seg.base || offset >= seg.next { return None; }
      found := Some(u - 1);
    }

    static method SearchBases(view: seq<Seg>, offset: int) returns (u: nat)
      requires Ordered(view)
      ensures u == L.Upper(view, offset)
    {
      var above := (i: nat) requires i < |view| => view[i].base > offset;
      u := Search(|view|, above);
      forall i: nat | i < |view| ensures i < u <==> view[i].base <= offset {
        assert above(i) == (view[i].base > offset);
      }
      UpperIs(view, offset, u);
    }

    method Read(offset: int) returns (r: Option<bytes>)
      requires Valid() && Ordered(View())
      ensures r == L.Read(State(), offset)
    {
      var found := FindSegment(offset);
      if found == None { return None; }
      r := segments[found.value].Read(offset, coldStore);
    }

    method Compact(keepSegments: int)
      requires Valid()
      modifies this, dir, coldStore
      ensures Valid() && State() == L.Compact(old(State()), keepSegments)
    {
      var keep := if keepSegments < 1 then 1 else keepSegments;
      var toRemove := |segments| - keep;
      if toRemove <= 0 {
        assert View()[..0] == [] && View()[0..] == View();
        return;
      }
      RemoveFirst(toRemove);
      DropFirst(toRemove);
    }

    method DropFirst(n: nat)
      requires Valid() && n < |segments|
      modifies this`segments
      ensures Valid() && State() == old(State()).(segs := old(State()).segs[n..])
    {
      ghost var view := View();
      segments := segments[n..];
      assert View() == view[n..];
    }

    method RemoveFirst(n: nat)
      requires Valid() && n <= |segments|
      modifies dir, coldStore
      ensures Valid()
      ensures var l := old(State());
              State() == l.(dir := L.WithoutFiles(l.dir, l.segs[..n]), cold := L.WithoutBlobs(l.cold, l.segs[..n]))
    {
      ghost var view := View();
      for i := 0 to n
        invariant coldStore.blobs == L.WithoutBlobs(old(coldStore.blobs), view[..i])
        invariant dir.State() == L.WithoutFiles(old(dir.State()), view[..i])
      {
        assert view[..i + 1][..i] == view[..i];
        segments[i].Remove(dir, coldStore);
      }
      assert View() == view;
    }

    method EnableTiering()
      requires Valid()
      modifies this`tiering
      ensures Valid() && State() == old(State()).(tiering := true)
    {
      tiering := true;
    }

    method TierOne(i: nat, outcome: L.Upload) returns (ok: bool)
      requires Valid() && i < |segments|
      modifies segments[i], dir, coldStore
      ensures Valid() && ok == outcome.Stored? && State() == L.TierOut(old(State()), i, outcome)
    {
      ghost var before := State();
      ok := segments[i].TierOut(dir, coldStore, outcome);
      assert View() == L.TierOut(before, i, outcome).segs;
    }

    /** The number of segments tiered, and whether every upload succeeded. */
    method TierSegments(uploads: nat -> L.Upload) returns (tiered: nat, ok: bool)
      requires Valid()
      modifies segments, dir, coldStore
      ensures Valid() && segments == old(segments)
      ensures L.Tiering(State(), tiered, ok) == L.TierSegments(old(State()), uploads)
    {
      tiered, ok := 0, tiering;
      if !ok { return; }
      ghost var want := L.TierFrom(State(), 0, 0, uploads);
      for i := 0 to |segments|
        invariant Valid() && segments == old(segments) && L.TierFrom(State(), i, tiered, uploads) == want
      {
        if segments[i] != active && !segments[i].tiered {
          ok := TierOne(i, uploads(segments[i].base));
          if !ok { return; }
          tiered := tiered + 1;
        }
      }
    }
  }
}
