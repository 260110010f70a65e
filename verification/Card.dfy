/** The files of a torrent on the card: spans, growth, and the handle cache. */
module Card {
  import opened Bytes
  import opened Metainfo

  const MAX_OPEN_HANDLES: nat := 8
  const GROW_CHUNK: nat := 32 * 1024 * 1024

  /** The handle of a file and how many bytes are reserved for it. */
  datatype FileSlot = FileSlot(offset: nat, length: nat, open: bool, lastUsed: nat, reserved: nat)

  ghost predicate LeastRecent(slots: seq<FileSlot>, i: int)
  {
    0 <= i < |slots| && slots[i].open && forall j :: 0 <= j < |slots| && slots[j].open ==> slots[i].lastUsed <= slots[j].lastUsed
  }

  /** A slice of one file; `at` is its position in the flat stream. */
  datatype Span = Span(file: nat, local: nat, length: nat, at: nat)

  function CountOpen(slots: seq<FileSlot>): nat
  {
    if |slots| == 0 then 0 else CountOpen(slots[..|slots| - 1]) + (if slots[|slots| - 1].open then 1 else 0)
  }

  lemma {:induction false} CountOpenUpdate(slots: seq<FileSlot>, i: nat, s: FileSlot)
    requires i < |slots|
    ensures CountOpen(slots[i := s]) == CountOpen(slots) - (if slots[i].open then 1 else 0) + (if s.open then 1 else 0)
  {
    var n := |slots| - 1;
    if i == n {
      assert slots[i := s][..n] == slots[..n];
    } else {
      assert slots[i := s][..n] == slots[..n][i := s];
      CountOpenUpdate(slots[..n], i, s);
    }
  }

  lemma {:induction false} CountOpenZero(slots: seq<FileSlot>)
    requires forall i :: 0 <= i < |slots| ==> !slots[i].open
    ensures CountOpen(slots) == 0
  {
    if |slots| > 0 {
      CountOpenZero(slots[..|slots| - 1]);
    }
  }

  /** File contents read as far as the file's length; what is not allocated reads as zeros here. */
  function Padded(c: seq<byte>, n: nat): (p: seq<byte>)
    ensures |p| == n
  {
    if |c| >= n then c[..n] else c + seq(n - |c|, _ => 0)
  }

  function Splice(s: seq<byte>, at: nat, d: seq<byte>): (r: seq<byte>)
    requires at + |d| <= |s|
    ensures |r| == |s|
  {
    s[..at] + d + s[at + |d|..]
  }

  ghost predicate FileAgrees(f: FileEntry, c: seq<byte>, flat: seq<byte>)
  {
    f.offset + f.length <= |flat| && flat[f.offset..f.offset + f.length] == Padded(c, f.length)
  }

  /** The slices are in order, in bounds, and cover [abs, abs + len) exactly. */
  ghost predicate Covers(files: seq<FileEntry>, spans: seq<Span>, abs: nat, len: nat)
  {
    && (|spans| == 0 ==> len == 0)
    && (|spans| > 0 ==> spans[0].at == abs && spans[|spans| - 1].at + spans[|spans| - 1].length == abs + len)
    && (forall j :: 0 <= j < |spans| ==> InBounds(files, spans[j]))
    && (forall j :: 0 <= j < |spans| - 1 ==> spans[j].file < spans[j + 1].file)
    && (forall j :: 0 <= j < |spans| - 1 ==> spans[j + 1].at == spans[j].at + spans[j].length)
  }

  ghost predicate InBounds(files: seq<FileEntry>, s: Span)
  {
    s.file < |files| && s.length > 0 && s.local + s.length <= files[s.file].length && s.at == files[s.file].offset + s.local
  }

  method FirstFile(files: seq<FileEntry>, total: nat, abs: nat) returns (idx: nat)
    requires Contiguous(files, total)
    ensures idx <= |files|
    ensures forall i :: 0 <= i < idx ==> files[i].offset + files[i].length <= abs
    ensures idx < |files| ==> files[idx].offset + files[idx].length > abs
  {
    var lo, hi := 0, |files|;
    while lo < hi
      invariant lo <= hi <= |files|
      invariant forall i :: 0 <= i < lo ==> files[i].offset + files[i].length <= abs
      invariant hi < |files| ==> files[hi].offset + files[hi].length > abs
    {
      var mid := (lo + hi) / 2;
      if files[mid].offset + files[mid].length <= abs {
        forall i | 0 <= i < mid
          ensures files[i].offset + files[i].length <= abs
        {
          OffsetsOrdered(files, total, i, mid);
        }
        lo := mid + 1;
      } else {
        hi := mid;
      }
    }
    idx := lo;
  }

  /** The slices for_each_span hands to its callback; it refuses what reaches past the end. */
  method SpansOf(files: seq<FileEntry>, total: nat, abs: nat, len: nat) returns (ok: bool, spans: seq<Span>)
    requires Contiguous(files, total)
    ensures ok <==> abs + len <= total
    ensures ok ==> Covers(files, spans, abs, len)
  {
    hide Covers, Contiguous;
    spans := [];
    if abs + len > total {
      return false, spans;
    }
    var idx: nat := FirstFile(files, total, abs);
    var remaining: nat, cursor: nat := len, abs;
    StartOf(files, total, abs, idx);
    NothingCovered(files, abs);
    while remaining > 0 && idx < |files|
      invariant idx <= |files| && abs <= cursor && cursor + remaining == abs + len
      invariant remaining > 0 && idx < |files| ==> Reaches(files[idx], cursor)
      invariant remaining > 0 && idx == |files| ==> cursor >= total
      invariant Covers(files, spans, abs, cursor - abs)
      invariant |spans| > 0 ==> spans[|spans| - 1].file < idx
    {
      var slot := files[idx];
      NextFile(files, total, idx);
      if slot.length == 0 {
        idx := idx + 1;
        continue;
      }
      var local := cursor - slot.offset;
      var avail := slot.length - local;
      var chunk := if avail < remaining then avail else remaining;
      AppendSpan(files, spans, abs, cursor - abs, Span(idx, local, chunk, cursor));
      spans := spans + [Span(idx, local, chunk, cursor)];
      cursor, remaining, idx := cursor + chunk, remaining - chunk, idx + 1;
    }
    ok := remaining == 0;
  }

  lemma NothingCovered(files: seq<FileEntry>, abs: nat)
    ensures Covers(files, [], abs, 0)
  {
  }

  lemma NextFile(files: seq<FileEntry>, total: nat, idx: nat)
    requires Contiguous(files, total) && idx < |files|
    ensures var end := files[idx].offset + files[idx].length;
            if idx + 1 < |files| then files[idx + 1].offset == end else total == end
  {
  }

  lemma AppendSpan(files: seq<FileEntry>, spans: seq<Span>, abs: nat, len: nat, s: Span)
    requires Covers(files, spans, abs, len) && InBounds(files, s) && s.at == abs + len
    requires |spans| > 0 ==> spans[|spans| - 1].file < s.file
    ensures Covers(files, spans + [s], abs, len + s.length)
  {
    var t := spans + [s];
    assert forall j :: 0 <= j < |spans| ==> t[j] == spans[j];
  }

  ghost predicate Reaches(f: FileEntry, cursor: nat)
  {
    f.offset <= cursor && (cursor < f.offset + f.length || (f.length == 0 && cursor == f.offset))
  }

  lemma StartOf(files: seq<FileEntry>, total: nat, abs: nat, idx: nat)
    requires Contiguous(files, total) && idx <= |files|
    requires forall i :: 0 <= i < idx ==> files[i].offset + files[i].length <= abs
    requires idx < |files| ==> files[idx].offset + files[idx].length > abs
    ensures idx < |files| ==> Reaches(files[idx], abs)
    ensures idx == |files| ==> abs >= total
  {
    if idx > 0 {
      assert files[idx - 1].offset + files[idx - 1].length <= abs;
    }
  }

  /** Every byte of [abs, abs + len) lies below the end of its file on the card. */
  ghost predicate Reserved(files: seq<FileEntry>, contents: seq<seq<byte>>, abs: nat, len: nat)
    requires |files| == |contents|
  {
    forall i :: 0 <= i < |files| ==> ReservedIn(files[i], |contents[i]|, abs, len)
  }

  ghost predicate ReservedIn(f: FileEntry, size: nat, abs: nat, len: nat)
  {
    var end := f.offset + f.length;
    var hi := if abs + len < end then abs + len else end;
    f.offset < hi && abs < hi ==> hi - f.offset <= size
  }

  ghost predicate SameOutside(s: seq<byte>, t: seq<byte>, abs: nat, len: nat)
  {
    |s| == |t| && forall k :: 0 <= k < |s| && !(abs <= k < abs + len) ==> s[k] == t[k]
  }

  /** Sizes on the card never shrink. */
  ghost predicate Grown(before: seq<seq<byte>>, after: seq<seq<byte>>)
  {
    |before| == |after| && forall i :: 0 <= i < |before| ==> |before[i]| <= |after[i]|
  }

  class Files {
    const geometry: Geometry
    const works: nat -> bool  // does the card carry out its n-th operation?
    const takes: nat -> nat   // how many bytes of a write does it take when its n-th operation fails?
    var ops: nat  // operations asked of the card so far
    var slots: seq<FileSlot>
    var contents: seq<seq<byte>>  // what the card holds
    var openHandles: nat
    var clock: nat
    ghost var flat: seq<byte>

    ghost predicate SlotsOk()
      reads this
    {
      && |slots| == |contents| == |geometry.files|
      && (forall i :: 0 <= i < |slots| ==> SlotMatches(slots[i], geometry.files[i], |contents[i]|))
      && openHandles == CountOpen(slots) <= MAX_OPEN_HANDLES
    }

    ghost predicate Valid()
      reads this
    {
      && Metainfo.Valid(geometry) && SlotsOk()
      && |flat| == geometry.totalSize
      && forall i :: 0 <= i < |contents| ==> FileAgrees(geometry.files[i], contents[i], flat)
    }

    /** Files as the card has them when the torrent is opened; nothing is open yet. */
    constructor (g: Geometry, onCard: seq<seq<byte>>, works: nat -> bool, takes: nat -> nat)
      requires Metainfo.Valid(g) && |onCard| == |g.files|
      ensures Valid() && geometry == g && contents == onCard && openHandles == 0 && ops == 0
      ensures this.works == works && this.takes == takes
    {
      geometry, this.works, this.takes, ops := g, works, takes, 0;
      contents := onCard;
      slots := seq(|g.files|, i requires 0 <= i < |g.files| => FileSlot(g.files[i].offset, g.files[i].length, false, 0, |onCard[i]|));
      openHandles, clock := 0, 0;
      flat := FlatOf(g.files, onCard, |g.files|);
      new;
      CountOpenZero(slots);
      FlatAgrees(g.files, g.totalSize, onCard, |g.files|);
    }

    /** The card carried out every operation from one count to another. */
    ghost predicate Sound(from: nat, to: nat)
    {
      forall n :: from <= n < to ==> works(n)
    }

    /** The card's n-th operation fails and takes nothing. */
    ghost predicate Refuses(n: nat)
    {
      !works(n) && takes(n) == 0
    }

    /** One operation of the card. */
    method Operate() returns (ok: bool)
      modifies this`ops
      ensures ops == old(ops) + 1 && (ok <==> Sound(old(ops), ops))
    {
      ok := works(ops);
      ops := ops + 1;
    }

    lemma NothingAsked(at: nat)
      ensures Sound(at, at)
    {
    }

    lemma RefusedIsUnsound(from: nat, to: nat)
      requires Refuses(from) && from < to
      ensures !Sound(from, to)
    {
      assert !works(from);
    }

    lemma SoundJoins(a: nat, b: nat, c: nat)
      requires a <= b <= c
      ensures Sound(a, c) <==> Sound(a, b) && Sound(b, c)
    {
    }

    /** With every handle in use, closes the one used least recently; otherwise nothing. */
    method EvictIfNeeded()
      requires SlotsOk()
      modifies this`slots, this`openHandles
      ensures SlotsOk() && openHandles < MAX_OPEN_HANDLES
      ensures old(openHandles) < MAX_OPEN_HANDLES ==> slots == old(slots)
      ensures old(openHandles) >= MAX_OPEN_HANDLES ==>
                exists i :: LeastRecent(old(slots), i) && slots == old(slots)[i := old(slots)[i].(open := false)]
    {
      if openHandles < MAX_OPEN_HANDLES {
        return;
      }
      var oldest := -1;
      for i := 0 to |slots|
        invariant -1 <= oldest < i
        invariant oldest == -1 ==> forall j :: 0 <= j < i ==> !slots[j].open
        invariant oldest >= 0 ==> slots[oldest].open && forall j :: 0 <= j < i && slots[j].open ==> slots[oldest].lastUsed <= slots[j].lastUsed
      {
        if slots[i].open && (oldest == -1 || slots[i].lastUsed < slots[oldest].lastUsed) {
          oldest := i;
        }
      }
      if oldest == -1 {
        CountOpenZero(slots);
      }
      assert LeastRecent(slots, oldest);
      var closed := slots[oldest].(open := false);
      CountOpenUpdate(slots, oldest, closed);
      slots := slots[oldest := closed];
      openHandles := openHandles - 1;
    }

    /** Opens the file unless it is open. */
    method Acquire(i: nat) returns (ok: bool)
      requires Valid() && i < |geometry.files|
      modifies this`slots, this`openHandles, this`clock, this`ops
      ensures Valid() && (ok ==> slots[i].open) && old(ops) <= ops && (ok <==> Sound(old(ops), ops))
    {
      hide FileAgrees, Metainfo.Valid;
      if !slots[i].open {
        EvictIfNeeded();
        ok := Operate();
        if !ok {
          return;
        }
        CountOpenUpdate(slots, i, slots[i].(open := true));
        slots := slots[i := slots[i].(open := true)];
        openHandles := openHandles + 1;
      }
      clock := clock + 1;
      CountOpenUpdate(slots, i, slots[i].(lastUsed := clock));
      slots := slots[i := slots[i].(lastUsed := clock)];
      return true;
    }

    /** Grows the file in steps of 32 MiB, never past its final length. */
    method EnsureAllocated(i: nat, needed: nat) returns (ok: bool)
      requires Valid() && i < |geometry.files| && needed <= geometry.files[i].length
      modifies this`slots, this`contents, this`ops
      ensures Valid() && |contents| == |geometry.files| && Grown(old(contents), contents) && old(ops) <= ops
      ensures ok ==> needed <= |contents[i]|
      ensures |contents[i]| == |old(contents)[i]| || (|contents[i]| <= geometry.files[i].length && |contents[i]| < needed + GROW_CHUNK)
      ensures forall j :: 0 <= j < |contents| && j != i ==> contents[j] == old(contents)[j]
      ensures old(slots)[i].open ==> (ok <==> Sound(old(ops), ops))
    {
      hide FileAgrees, CountOpen, Padded, Metainfo.Valid;
      if needed <= slots[i].reserved {
        return true;
      }
      if !slots[i].open {
        return false;
      }
      RoundUp(needed, GROW_CHUNK);
      var target := ((needed + GROW_CHUNK - 1) / GROW_CHUNK) * GROW_CHUNK;
      if target > slots[i].length {
        target := slots[i].length;
      }
      ok := Operate();
      if !ok {
        return;
      }
      Extend(i, target);
    }

    /** ftruncate to a larger size: extends with zeros. */
    method Extend(i: nat, size: nat)
      requires Valid() && i < |slots| && |contents[i]| <= size <= slots[i].length
      modifies this`slots, this`contents
      ensures Valid() && |contents| == |old(contents)| && |contents[i]| == size
      ensures forall j :: 0 <= j < |contents| && j != i ==> contents[j] == old(contents)[j]
    {
      hide FileAgrees, CountOpen, Padded, Metainfo.Valid;
      AgreesAfterGrowth(geometry.files[i], contents[i], size, flat);
      CountOpenUpdate(slots, i, slots[i].(reserved := size));
      contents := contents[i := Padded(contents[i], size)];
      slots := slots[i := slots[i].(reserved := size)];
    }

    /** fwrite at a position inside the file: a failing card may still have taken a prefix. */
    method WriteAt(i: nat, local: nat, d: seq<byte>) returns (ok: bool, ghost n: nat)
      requires Valid() && i < |geometry.files|
      requires local + |d| <= |contents[i]| && local + |d| <= geometry.files[i].length
      modifies this`contents, this`flat, this`ops
      ensures Valid() && |contents| == |geometry.files| && |contents[i]| == |old(contents)[i]|
      ensures Grown(old(contents), contents) && n <= |d| && (ok ==> n == |d|)
      ensures ops == old(ops) + 1 && (ok <==> Sound(old(ops), ops)) && (Refuses(old(ops)) ==> n == 0)
      ensures geometry.files[i].offset + local + n <= |old(flat)|
      ensures flat == Splice(old(flat), geometry.files[i].offset + local, d[..n])
    {
      hide FileAgrees, CountOpen, Padded, Metainfo.Contiguous;
      var limit := takes(ops);
      ok := Operate();
      var taken := if ok || limit > |d| then |d| else limit;
      n := taken;
      var part := d[..taken];
      WriteAgrees(geometry.files, geometry.totalSize, contents, flat, i, local, part);
      contents := contents[i := Splice(contents[i], local, part)];
      flat := Splice(flat, geometry.files[i].offset + local, part);
    }

    /** Writes data at a position of the flat stream, across as many files as it takes. */
    method Write(abs: nat, data: seq<byte>) returns (ok: bool, ghost n: nat)
      requires Valid()
      modifies this
      ensures Valid() && Grown(old(contents), contents) && old(ops) <= ops
      ensures ok <==> abs + |data| <= geometry.totalSize && Sound(old(ops), ops)
      ensures n <= |data| && (ok ==> n == |data|) && (Refuses(old(ops)) ==> n == 0)
      ensures abs + |data| <= geometry.totalSize ==> flat == Splice(old(flat), abs, data[..n])
      ensures ok ==> Reserved(geometry.files, contents, abs, |data|)
      ensures abs + |data| > geometry.totalSize ==> flat == old(flat) && ops == old(ops)
    {
      hide Covers, InBounds, FileAgrees, CountOpen, SlotMatches, Contiguous, Reserved, Sound;
      var inside, spans := SpansOf(geometry.files, geometry.totalSize, abs, |data|);
      ghost var f0, o0 := flat, ops;
      n := 0;
      if !inside {
        return false, 0;
      }
      NothingWritten(geometry.files, contents, f0, abs, data);
      NothingAsked(o0);
      SpansBegin(geometry.files, spans, abs, |data|);
      for j := 0 to |spans|
        invariant Valid() && Grown(old(contents), contents)
        invariant o0 <= ops && Sound(o0, ops) && (Refuses(o0) ==> ops == o0 && n == 0)
        invariant n == (if j < |spans| then spans[j].at - abs else |data|)
        invariant n <= |data| && flat == Splice(f0, abs, data[..n])
        invariant Reserved(geometry.files, contents, abs, n)
      {
        var cursor := spans[j].at - abs;
        ghost var before, o1, k := contents, ops, n;
        SpanEnd(geometry.files, spans, abs, |data|, j);
        ok, k := WriteSpan(spans[j], data[cursor..cursor + spans[j].length], f0, abs, data);
        SoundJoins(o0, o1, ops);
        if ok {
          ReservedExtends(geometry.files, geometry.totalSize, before, contents, abs, n, spans[j]);
        }
        n := n + k;
        if !ok {
          return;
        }
      }
      return true, n;
    }

    /** The callback of write_through: open, grow, write one slice. */
    method WriteSpan(s: Span, d: seq<byte>, ghost f0: seq<byte>, ghost abs: nat, ghost data: seq<byte>) returns (ok: bool, ghost n: nat)
      requires Valid() && InBounds(geometry.files, s) && |d| == s.length
      requires abs + |data| <= |f0| && abs <= s.at && s.at + s.length <= abs + |data|
      requires d == data[s.at - abs..s.at - abs + s.length]
      requires flat == Splice(f0, abs, data[..s.at - abs])
      modifies this
      ensures Valid() && Grown(old(contents), contents) && old(ops) <= ops && (ok <==> Sound(old(ops), ops))
      ensures n <= |d| && (ok ==> n == |d|) && flat == Splice(f0, abs, data[..s.at - abs + n])
      ensures Refuses(old(ops)) ==> !ok && n == 0
      ensures ok ==> s.local + s.length <= |contents[s.file]|
    {
      hide Valid, Padded, Metainfo.Contiguous, Sound;
      n := 0;
      ok := Prepare(s);
      ghost var between := ops;
      if Refuses(old(ops)) && between > old(ops) {
        RefusedIsUnsound(old(ops), between);
      }
      if ok {
        ok, n := WriteAt(s.file, s.local, d);
        PartWritten(f0, abs, data, s.at - abs, d, n);
        SoundJoins(old(ops), between, ops);
        if Refuses(old(ops)) {
          RefusedIsUnsound(old(ops), ops);
        }
      }
    }

    method Prepare(s: Span) returns (ok: bool)
      requires Valid() && InBounds(geometry.files, s)
      modifies this`slots, this`contents, this`openHandles, this`clock, this`ops
      ensures Valid() && |contents| == |geometry.files| && Grown(old(contents), contents)
      ensures old(ops) <= ops && (ok <==> Sound(old(ops), ops))
      ensures ok ==> s.local + s.length <= |contents[s.file]|
    {
      hide FileAgrees, CountOpen, Metainfo.Valid, Sound;
      ok := Acquire(s.file);
      ghost var between := ops;
      if ok {
        ok := EnsureAllocated(s.file, s.local + s.length);
        SoundJoins(old(ops), between, ops);
      }
    }

    /** Reads from the flat stream; bytes past the end of a file on the card make it fail. */
    method Read(abs: nat, len: nat) returns (ok: bool, data: seq<byte>)
      requires Valid()
      modifies this`slots, this`openHandles, this`clock, this`ops
      ensures Valid() && old(ops) <= ops
      ensures ok <==> abs + len <= geometry.totalSize && Sound(old(ops), ops) && Reserved(geometry.files, contents, abs, len)
      ensures ok ==> data == flat[abs..abs + len]
    {
      hide Covers, InBounds, FileAgrees, CountOpen, SlotMatches, Contiguous, Reserved, Sound;
      var inside, spans := SpansOf(geometry.files, geometry.totalSize, abs, len);
      ghost var o0 := ops;
      data := [];
      if !inside {
        return false, data;
      }
      NothingWritten(geometry.files, contents, flat, abs, []);
      NothingAsked(o0);
      SpansBegin(geometry.files, spans, abs, len);
      for j := 0 to |spans|
        invariant Valid()
        invariant o0 <= ops && Sound(o0, ops)
        invariant abs + |data| == (if j < |spans| then spans[j].at else abs + len)
        invariant |data| <= len && data == flat[abs..abs + |data|]
        invariant Reserved(geometry.files, contents, abs, |data|)
      {
        SpanEnd(geometry.files, spans, abs, len, j);
        ghost var o1 := ops;
        var part;
        ok, part := ReadSpan(spans[j]);
        SoundJoins(o0, o1, ops);
        if !ok {
          if |contents[spans[j].file]| < spans[j].local + spans[j].length {
            Unreserved(geometry.files, contents, abs, len, spans[j]);
          }
          return;
        }
        ReservedExtends(geometry.files, geometry.totalSize, contents, contents, abs, |data|, spans[j]);
        assert flat[abs..abs + |data| + |part|] == flat[abs..abs + |data|] + flat[abs + |data|..abs + |data| + |part|];
        data := data + part;
      }
      return true, data;
    }

    /** The callback of read_block. */
    method ReadSpan(s: Span) returns (ok: bool, part: seq<byte>)
      requires Valid() && InBounds(geometry.files, s)
      modifies this`slots, this`openHandles, this`clock, this`ops
      ensures Valid() && old(ops) <= ops
      ensures ok <==> Sound(old(ops), ops) && s.local + s.length <= |contents[s.file]|
      ensures ok ==> s.at + s.length <= |flat| && part == flat[s.at..s.at + s.length]
    {
      hide FileAgrees, CountOpen, Metainfo.Contiguous, Sound;
      part := [];
      ok := Acquire(s.file);
      if !ok {
        return;
      }
      ghost var between := ops;
      ok := Operate();
      SoundJoins(old(ops), between, ops);
      if !ok {
        return;
      }
      if |contents[s.file]| < s.local + s.length {
        return false, part;  // a short read
      }
      SliceAgrees(geometry.files[s.file], contents[s.file], flat, s.local, s.length);
      part := contents[s.file][s.local..s.local + s.length];
    }
  }

  /**
   * What was written through is read back, across any number of file boundaries. On a card that
   * works, every range inside the torrent is written and read.
   */
  method WriteThenRead(f: Files, abs: nat, data: seq<byte>) returns (written: bool, ok: bool, back: seq<byte>)
    requires f.Valid()
    modifies f
    ensures f.Valid() && old(f.ops) <= f.ops
    ensures f.Sound(old(f.ops), f.ops) ==> (written <==> abs + |data| <= f.geometry.totalSize) && (written ==> ok)
    ensures ok ==> written && back == data
  {
    ok, back := false, [];
    ghost var n;
    written, n := f.Write(abs, data);
    if written {
      ghost var between := f.ops;
      ok, back := f.Read(abs, |data|);
      f.SoundJoins(old(f.ops), between, f.ops);
    }
  }

  ghost predicate SlotMatches(s: FileSlot, f: FileEntry, size: nat)
  {
    s.offset == f.offset && s.length == f.length && s.reserved == size
  }

  ghost function FlatOf(files: seq<FileEntry>, contents: seq<seq<byte>>, n: nat): seq<byte>
    requires n <= |files| == |contents|
  {
    if n == 0 then [] else FlatOf(files, contents, n - 1) + Padded(contents[n - 1], files[n - 1].length)
  }

  lemma {:induction false} FlatAgrees(files: seq<FileEntry>, total: nat, contents: seq<seq<byte>>, n: nat)
    requires Contiguous(files, total) && n <= |files| == |contents|
    ensures |FlatOf(files, contents, n)| == if n < |files| then files[n].offset else total
    ensures forall i :: 0 <= i < n ==> FileAgrees(files[i], contents[i], FlatOf(files, contents, n))
  {
    if n > 0 {
      FlatAgrees(files, total, contents, n - 1);
      var prefix, last := FlatOf(files, contents, n - 1), Padded(contents[n - 1], files[n - 1].length);
      forall i | 0 <= i < n
        ensures FileAgrees(files[i], contents[i], prefix + last)
      {
        if i < n - 1 {
          AgreesInPrefix(files[i], contents[i], prefix, last);
        } else {
          AgreesAtEnd(files[i], contents[i], prefix);
        }
      }
    }
  }

  lemma AgreesInPrefix(f: FileEntry, c: seq<byte>, flat: seq<byte>, more: seq<byte>)
    requires FileAgrees(f, c, flat)
    ensures FileAgrees(f, c, flat + more)
  {
    assert (flat + more)[f.offset..f.offset + f.length] == flat[f.offset..f.offset + f.length];
  }

  lemma AgreesAtEnd(f: FileEntry, c: seq<byte>, flat: seq<byte>)
    requires f.offset == |flat|
    ensures FileAgrees(f, c, flat + Padded(c, f.length))
  {
    var last := Padded(c, f.length);
    assert (flat + last)[f.offset..f.offset + f.length] == last;
  }

  /** Growing with zeros does not change what a file reads as. */
  lemma AgreesAfterGrowth(f: FileEntry, c: seq<byte>, size: nat, flat: seq<byte>)
    requires FileAgrees(f, c, flat) && |c| <= size <= f.length
    ensures FileAgrees(f, Padded(c, size), flat)
  {
    assert Padded(Padded(c, size), f.length) == Padded(c, f.length);
  }

  lemma RoundUp(n: nat, g: nat)
    requires g > 0
    ensures n <= ((n + g - 1) / g) * g < n + g
  {
    var q, r := (n + g - 1) / g, (n + g - 1) % g;
    assert n + g - 1 == q * g + r;
  }

  lemma WriteAgrees(files: seq<FileEntry>, total: nat, contents: seq<seq<byte>>, flat: seq<byte>, i: nat, local: nat, d: seq<byte>)
    requires Contiguous(files, total) && |files| == |contents| && i < |files|
    requires forall j :: 0 <= j < |files| ==> FileAgrees(files[j], contents[j], flat)
    requires local + |d| <= |contents[i]| && local + |d| <= files[i].length
    ensures files[i].offset + local + |d| <= |flat|
    ensures var c, f := contents[i := Splice(contents[i], local, d)], Splice(flat, files[i].offset + local, d);
            forall j :: 0 <= j < |files| ==> FileAgrees(files[j], c[j], f)
  {
    hide Contiguous, Splice, Padded;
    assert FileAgrees(files[i], contents[i], flat);
    SpliceInside(files[i], contents[i], flat, local, d);
    forall j | 0 <= j < |files| && j != i
      ensures FileAgrees(files[j], contents[j], Splice(flat, files[i].offset + local, d))
    {
      assert FileAgrees(files[j], contents[j], flat);
      AgreesElsewhere(files, total, contents[j], flat, i, j, local, d);
    }
  }

  /** A write to one file leaves what another file reads as. */
  lemma AgreesElsewhere(files: seq<FileEntry>, total: nat, c: seq<byte>, flat: seq<byte>, i: nat, j: nat, local: nat, d: seq<byte>)
    requires Contiguous(files, total) && i < |files| && j < |files| && i != j && FileAgrees(files[j], c, flat)
    requires local + |d| <= files[i].length && files[i].offset + files[i].length <= |flat|
    ensures FileAgrees(files[j], c, Splice(flat, files[i].offset + local, d))
  {
    hide Contiguous, Padded;
    if j < i {
      OffsetsOrdered(files, total, j, i);
    } else {
      OffsetsOrdered(files, total, i, j);
    }
    SpliceElsewhere(flat, files[i].offset + local, d, files[j].offset, files[j].length);
  }

  lemma SpliceInside(f: FileEntry, c: seq<byte>, flat: seq<byte>, local: nat, d: seq<byte>)
    requires FileAgrees(f, c, flat) && local + |d| <= |c| && local + |d| <= f.length
    ensures FileAgrees(f, Splice(c, local, d), Splice(flat, f.offset + local, d))
  {
    var p := Padded(c, f.length);
    SliceOfSplice(flat, f.offset, f.length, local, d);
    assert Splice(p, local, d) == Padded(Splice(c, local, d), f.length);
  }

  lemma SliceOfSplice(flat: seq<byte>, lo: nat, len: nat, local: nat, d: seq<byte>)
    requires lo + len <= |flat| && local + |d| <= len
    ensures Splice(flat, lo + local, d)[lo..lo + len] == Splice(flat[lo..lo + len], local, d)
  {
  }

  lemma SpliceElsewhere(flat: seq<byte>, at: nat, d: seq<byte>, lo: nat, len: nat)
    requires at + |d| <= |flat| && lo + len <= |flat| && (lo + len <= at || at + |d| <= lo)
    ensures Splice(flat, at, d)[lo..lo + len] == flat[lo..lo + len]
  {
  }

  lemma NothingWritten(files: seq<FileEntry>, contents: seq<seq<byte>>, flat: seq<byte>, abs: nat, data: seq<byte>)
    requires |files| == |contents| && abs + |data| <= |flat|
    ensures flat == Splice(flat, abs, data[..0]) && Reserved(files, contents, abs, 0)
  {
  }

  /** After c bytes of data, a prefix of the next slice d. */
  lemma PartWritten(f0: seq<byte>, abs: nat, data: seq<byte>, c: nat, d: seq<byte>, n: nat)
    requires abs + |data| <= |f0| && c + |d| <= |data| && d == data[c..c + |d|] && n <= |d|
    ensures Splice(Splice(f0, abs, data[..c]), abs + c, d[..n]) == Splice(f0, abs, data[..c + n])
  {
    assert d[..n] == data[c..c + n];
  }

  lemma PrefixOutside(f0: seq<byte>, abs: nat, data: seq<byte>, c: nat)
    requires abs + |data| <= |f0| && c <= |data|
    ensures SameOutside(Splice(f0, abs, data[..c]), f0, abs, |data|)
  {
  }

  lemma SpansBegin(files: seq<FileEntry>, spans: seq<Span>, abs: nat, len: nat)
    requires Covers(files, spans, abs, len)
    ensures if |spans| > 0 then spans[0].at == abs else len == 0
  {
  }

  lemma SameAsItself(s: seq<byte>, abs: nat, len: nat)
    ensures SameOutside(s, s, abs, len)
  {
  }

  lemma SpanEnd(files: seq<FileEntry>, spans: seq<Span>, abs: nat, len: nat, j: nat)
    requires Covers(files, spans, abs, len) && j < |spans|
    ensures InBounds(files, spans[j]) && abs <= spans[j].at && spans[j].at + spans[j].length <= abs + len
    ensures spans[j].at + spans[j].length == if j + 1 < |spans| then spans[j + 1].at else abs + len
  {
    SpanStart(files, spans, abs, len, j);
    SpanLimit(files, spans, abs, len, j);
  }

  lemma {:induction false} SpanStart(files: seq<FileEntry>, spans: seq<Span>, abs: nat, len: nat, j: nat)
    requires Covers(files, spans, abs, len) && j < |spans|
    ensures abs <= spans[j].at
  {
    if j > 0 {
      SpanStart(files, spans, abs, len, j - 1);
    }
  }

  lemma {:induction false} SpanLimit(files: seq<FileEntry>, spans: seq<Span>, abs: nat, len: nat, j: nat)
    requires Covers(files, spans, abs, len) && j < |spans|
    ensures spans[j].at + spans[j].length <= abs + len
    decreases |spans| - j
  {
    if j + 1 < |spans| {
      SpanLimit(files, spans, abs, len, j + 1);
      assert InBounds(files, spans[j + 1]);
    }
  }

  lemma ReservedExtends(files: seq<FileEntry>, total: nat, before: seq<seq<byte>>, after: seq<seq<byte>>,
                        abs: nat, c: nat, s: Span)
    requires Contiguous(files, total) && |files| == |before| && Grown(before, after)
    requires InBounds(files, s) && s.at == abs + c && s.local + s.length <= |after[s.file]|
    requires Reserved(files, before, abs, c)
    ensures Reserved(files, after, abs, c + s.length)
  {
    forall i | 0 <= i < |files|
      ensures ReservedIn(files[i], |after[i]|, abs, c + s.length)
    {
      assert ReservedIn(files[i], |before[i]|, abs, c);
      if i < s.file {
        OffsetsOrdered(files, total, i, s.file);
      } else if i > s.file {
        OffsetsOrdered(files, total, s.file, i);
      }
    }
  }

  lemma SliceAgrees(f: FileEntry, c: seq<byte>, flat: seq<byte>, local: nat, len: nat)
    requires FileAgrees(f, c, flat) && local + len <= |c| && local + len <= f.length
    ensures f.offset + local + len <= |flat|
    ensures c[local..local + len] == flat[f.offset + local..f.offset + local + len]
  {
    var p, whole := Padded(c, f.length), flat[f.offset..f.offset + f.length];
    forall k | local <= k < local + len
      ensures c[k] == flat[f.offset + k]
    {
      assert c[k] == p[k] == whole[k];
    }
  }

  lemma Unreserved(files: seq<FileEntry>, contents: seq<seq<byte>>, abs: nat, len: nat, s: Span)
    requires |files| == |contents| && InBounds(files, s)
    requires abs <= s.at && s.at + s.length <= abs + len
    requires |contents[s.file]| < s.local + s.length
    ensures !Reserved(files, contents, abs, len)
  {
    var i := s.file;
    assert !ReservedIn(files[i], |contents[i]|, abs, len);
  }
}
