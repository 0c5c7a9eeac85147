/** The two disk backends (src/core/disk.rs, src/core/disk_uring.rs), proved to
    refine one flat byte array in which only the bytes of selected files are
    stored. A file that was never created is represented by zero bytes, which
    is what preallocation gives it when it is opened. */
module Disk {
  import opened Common
  import opened Layout

  /** `is_selected`: files beyond the flag list count as selected. */
  predicate IsSelected(flags: seq<bool>, f: nat) { f < |flags| ==> flags[f] }

  /** Byte `i` lies in a file that has an open handle. */
  predicate Stored(ext: seq<Extent>, open: seq<bool>, i: int)
    requires |open| == |ext|
  {
    exists f :: 0 <= f < |ext| && open[f] && ext[f].Contains(i)
  }

  /** Flat effect of a write at `off`: bytes of files without a handle are dropped. */
  function MaskedWrite(ext: seq<Extent>, open: seq<bool>, flat: seq<byte>, off: nat, data: seq<byte>): (r: seq<byte>)
    requires |open| == |ext|
    ensures |r| == |flat|
  {
    seq(|flat|, i requires 0 <= i < |flat| =>
      if off <= i < off + |data| && Stored(ext, open, i) then data[i - off] else flat[i])
  }

  /** Flat meaning of a read: bytes of files without a handle read as zero. */
  function MaskedRead(ext: seq<Extent>, open: seq<bool>, flat: seq<byte>, off: nat, len: nat): (r: seq<byte>)
    requires |open| == |ext| && off + len <= |flat|
    ensures |r| == len
  {
    seq(len, j requires 0 <= j < len => if Stored(ext, open, off + j) then flat[off + j] else 0)
  }

  /** Any read after a write: what was written comes back where it is stored,
      the other stored bytes are as before, and the rest reads as zero. */
  lemma ReadAfterWrite(ext: seq<Extent>, open: seq<bool>, flat: seq<byte>, off: nat, data: seq<byte>, at: nat, len: nat)
    requires |open| == |ext| && at + len <= |flat|
    ensures forall j :: 0 <= j < len ==>
              MaskedRead(ext, open, MaskedWrite(ext, open, flat, off, data), at, len)[j]
              == if !Stored(ext, open, at + j) then 0
                 else if off <= at + j < off + |data| then data[at + j - off] else flat[at + j]
  {
  }

  /** All files' contents, concatenated. */
  ghost function Flat(contents: seq<seq<byte>>): seq<byte> {
    if |contents| == 0 then [] else Flat(contents[..|contents| - 1]) + contents[|contents| - 1]
  }

  ghost predicate Shape(ext: seq<Extent>, contents: seq<seq<byte>>) {
    && |contents| == |ext|
    && forall f :: 0 <= f < |ext| ==> |contents[f]| == ext[f].end - ext[f].start
  }

  lemma {:induction false} FlatLength(ext: seq<Extent>, contents: seq<seq<byte>>)
    requires Tiles(ext) && Shape(ext, contents)
    ensures |Flat(contents)| == End(ext)
  {
    var n := |ext|;
    if n > 0 {
      FlatLength(ext[..n - 1], contents[..n - 1]);
      if n > 1 {
        assert ext[n - 2].end == ext[n - 1].start;
      }
    }
  }

  lemma {:induction false} FlatConcat(a: seq<seq<byte>>, b: seq<seq<byte>>)
    ensures Flat(a + b) == Flat(a) + Flat(b)
  {
    if |b| == 0 {
      assert a + b == a;
    } else {
      FlatConcat(a, b[..|b| - 1]);
      assert (a + b)[..|a + b| - 1] == a + b[..|b| - 1];
    }
  }

  lemma FlatOne(c: seq<byte>)
    ensures Flat([c]) == c
  {
    assert [c][..0] == [];
  }

  lemma FlatPrefix(ext: seq<Extent>, contents: seq<seq<byte>>, f: nat)
    requires Tiles(ext) && Shape(ext, contents) && f < |ext|
    ensures |Flat(contents[..f])| == ext[f].start
  {
    FlatLength(ext[..f], contents[..f]);
    if f > 0 {
      assert ext[f - 1].end == ext[f].start;
    }
  }

  lemma FlatThree(head: seq<seq<byte>>, c: seq<byte>, rest: seq<seq<byte>>)
    ensures Flat(head + [c] + rest) == Flat(head) + c + Flat(rest)
  {
    FlatOne(c);
    FlatConcat(head, [c]);
    FlatConcat(head + [c], rest);
  }

  lemma SplitAt(contents: seq<seq<byte>>, f: nat)
    requires f < |contents|
    ensures contents == contents[..f] + [contents[f]] + contents[f + 1..]
  {
  }

  lemma FlatAround(contents: seq<seq<byte>>, f: nat)
    requires f < |contents|
    ensures Flat(contents) == Flat(contents[..f]) + contents[f] + Flat(contents[f + 1..])
  {
    SplitAt(contents, f);
    FlatThree(contents[..f], contents[f], contents[f + 1..]);
  }

  lemma FlatAt(ext: seq<Extent>, contents: seq<seq<byte>>, f: nat)
    requires Tiles(ext) && Shape(ext, contents) && f < |ext|
    ensures ext[f].end <= |Flat(contents)| == End(ext)
    ensures Flat(contents)[ext[f].start..ext[f].end] == contents[f]
  {
    FlatLength(ext, contents);
    FlatPrefix(ext, contents, f);
    FlatAround(contents, f);
  }

  lemma FlatUpdate(ext: seq<Extent>, contents: seq<seq<byte>>, f: nat, c: seq<byte>)
    requires Tiles(ext) && Shape(ext, contents) && f < |ext| && |c| == |contents[f]|
    ensures ext[f].end <= |Flat(contents)|
    ensures Flat(contents[f := c]) == Flat(contents)[..ext[f].start] + c + Flat(contents)[ext[f].end..]
  {
    var changed := contents[f := c];
    FlatPrefix(ext, contents, f);
    FlatAround(contents, f);
    FlatAround(changed, f);
    assert changed[..f] == contents[..f] && changed[f + 1..] == contents[f + 1..];
  }

  lemma OverlayAt(flat: seq<byte>, start: nat, end: nat, off: nat, chunk: seq<byte>, i: nat)
    requires start <= off && off + |chunk| <= end <= |flat| && i < |flat|
    ensures (flat[..start] + Overlay(flat[start..end], off - start, chunk) + flat[end..])[i]
            == if off <= i < off + |chunk| then chunk[i - off] else flat[i]
  {
  }

  /** One turn of the write loop: the chunk that falls into file `f`. */
  function StepContents(ext: seq<Extent>, open: seq<bool>, contents: seq<seq<byte>>, f: nat, off: nat,
                        chunk: seq<byte>): seq<seq<byte>>
    requires f < |ext| == |open| == |contents| && |contents[f]| == ext[f].end - ext[f].start
    requires ext[f].start <= off && off + |chunk| <= ext[f].end
  {
    if open[f] then contents[f := Overlay(contents[f], off - ext[f].start, chunk)] else contents
  }

  lemma StoredIsOwner(ext: seq<Extent>, open: seq<bool>, f: nat, i: int)
    requires Tiles(ext) && |open| == |ext| && f < |ext| && ext[f].Contains(i)
    ensures Stored(ext, open, i) == open[f]
  {
    if Stored(ext, open, i) {
      var g :| 0 <= g < |ext| && open[g] && ext[g].Contains(i);
      OwnerUnique(ext, f, g, i);
    }
  }

  /** Byte by byte, a chunk written into file `f` changes that chunk of the flat array only. */
  lemma StepAt(ext: seq<Extent>, open: seq<bool>, contents: seq<seq<byte>>, f: nat, off: nat, chunk: seq<byte>, i: nat)
    requires Tiles(ext) && Shape(ext, contents) && |open| == |ext| && f < |ext|
    requires ext[f].start <= off && off + |chunk| <= ext[f].end
    requires i < End(ext)
    ensures var next := StepContents(ext, open, contents, f, off, chunk);
            && Shape(ext, next) && |Flat(next)| == |Flat(contents)| == End(ext)
            && Flat(next)[i] == if open[f] && off <= i < off + |chunk| then chunk[i - off] else Flat(contents)[i]
  {
    FlatAt(ext, contents, f);
    if open[f] {
      FlatUpdate(ext, contents, f, Overlay(contents[f], off - ext[f].start, chunk));
      OverlayAt(Flat(contents), ext[f].start, ext[f].end, off, chunk, i);
    }
  }

  lemma StepExtendsWrite(ext: seq<Extent>, open: seq<bool>, before: seq<byte>, contents: seq<seq<byte>>,
                         f: nat, off: nat, data: seq<byte>, w: nat, n: nat)
    requires Tiles(ext) && Shape(ext, contents) && |open| == |ext| && f < |ext|
    requires |before| == End(ext) && w + n <= |data| && n > 0
    requires ext[f].start <= off + w && off + w + n <= ext[f].end
    requires Flat(contents) == MaskedWrite(ext, open, before, off, data[..w])
    ensures Shape(ext, StepContents(ext, open, contents, f, off + w, data[w..w + n]))
    ensures Flat(StepContents(ext, open, contents, f, off + w, data[w..w + n]))
            == MaskedWrite(ext, open, before, off, data[..w + n])
  {
    var chunk := data[w..w + n];
    var b := Flat(StepContents(ext, open, contents, f, off + w, chunk));
    var target := MaskedWrite(ext, open, before, off, data[..w + n]);
    ExtentsBelowEnd(ext, f);
    StepAt(ext, open, contents, f, off + w, chunk, off + w);
    forall i: nat | i < |target| ensures b[i] == target[i] {
      StepAt(ext, open, contents, f, off + w, chunk, i);
      if off + w <= i < off + w + n {
        StoredIsOwner(ext, open, f, i);
      }
    }
    assert b == target;
  }

  /** One turn of the read loop: `n` bytes of file `f`, or zeros. */
  function ChunkOf(ext: seq<Extent>, open: seq<bool>, contents: seq<seq<byte>>, f: nat, at: nat, n: nat): (r: seq<byte>)
    requires f < |ext| == |open| == |contents| && |contents[f]| == ext[f].end - ext[f].start
    requires ext[f].start <= at && at + n <= ext[f].end
    ensures |r| == n
  {
    if open[f] then contents[f][at - ext[f].start..at - ext[f].start + n] else seq(n, i => 0)
  }

  /** Loop invariant of `read_piece`: `buffer` holds the first `r` bytes. */
  ghost predicate ReadUpTo(ext: seq<Extent>, open: seq<bool>, contents: seq<seq<byte>>, off: nat, r: nat,
                           buffer: seq<byte>)
    requires |open| == |ext|
  {
    if r == 0 then buffer == []
    else off + r <= |Flat(contents)| && buffer == MaskedRead(ext, open, Flat(contents), off, r)
  }

  lemma ReadStep(ext: seq<Extent>, open: seq<bool>, contents: seq<seq<byte>>, f: nat, off: nat, r: nat, n: nat,
                 buffer: seq<byte>)
    requires Tiles(ext) && Shape(ext, contents) && |open| == |ext| && f < |ext|
    requires n > 0 && ext[f].start <= off + r && off + r + n <= ext[f].end
    requires ReadUpTo(ext, open, contents, off, r, buffer)
    ensures off + r + n <= End(ext)
    ensures ReadUpTo(ext, open, contents, off, r + n, buffer + ChunkOf(ext, open, contents, f, off + r, n))
  {
    FlatAt(ext, contents, f);
    var flat := Flat(contents);
    var chunk := ChunkOf(ext, open, contents, f, off + r, n);
    var whole := MaskedRead(ext, open, flat, off, r + n);
    forall j | r <= j < r + n ensures whole[j] == chunk[j - r] {
      StoredIsOwner(ext, open, f, off + j);
      assert flat[off + j] == flat[ext[f].start..ext[f].end][off + j - ext[f].start];
    }
    assert whole == buffer + chunk;
  }

  /** File `f` has an open handle and loses its clean state to a write of `[off, off + len)`. */
  predicate Touches(ext: seq<Extent>, open: seq<bool>, f: nat, off: nat, len: nat)
    requires |open| == |ext| && f < |ext|
  {
    open[f] && len > 0 && ext[f].start < off + len && off < ext[f].end && ext[f].start < ext[f].end
  }

  /** The dirty flags after a write are the old ones plus the touched files. */
  ghost predicate DirtyTracks(ext: seq<Extent>, open: seq<bool>, before: seq<bool>, after: seq<bool>, off: nat,
                              len: nat)
    requires |open| == |ext|
  {
    && |before| == |after| == |ext|
    && forall f :: 0 <= f < |ext| ==> after[f] == (before[f] || Touches(ext, open, f, off, len))
  }

  datatype WriteState = WriteState(flat: seq<byte>, dirty: seq<bool>)

  /** Loop invariant of `write_piece`: `done` has been written so far. */
  ghost predicate WrittenUpTo(ext: seq<Extent>, open: seq<bool>, start: WriteState, contents: seq<seq<byte>>,
                              dirty: seq<bool>, off: nat, done: seq<byte>)
    requires |open| == |ext|
  {
    && |start.flat| == End(ext)
    && Shape(ext, contents)
    && Flat(contents) == MaskedWrite(ext, open, start.flat, off, done)
    && DirtyTracks(ext, open, start.dirty, dirty, off, |done|)
  }

  lemma WriteStep(ext: seq<Extent>, open: seq<bool>, start: WriteState, contents: seq<seq<byte>>,
                  dirty: seq<bool>, f: nat, off: nat, data: seq<byte>, w: nat, chunk: seq<byte>)
    requires Tiles(ext) && |open| == |ext| && f < |ext|
    requires chunk != [] && w + |chunk| <= |data| && chunk == data[w..w + |chunk|]
    requires ext[f].start <= off + w && off + w + |chunk| <= ext[f].end
    requires WrittenUpTo(ext, open, start, contents, dirty, off, data[..w])
    ensures off + w + |chunk| <= End(ext)
    ensures WrittenUpTo(ext, open, start, StepContents(ext, open, contents, f, off + w, chunk),
                        if open[f] then dirty[f := true] else dirty, off, data[..w + |chunk|])
  {
    ExtentsBelowEnd(ext, f);
    StepExtendsWrite(ext, open, start.flat, contents, f, off, data, w, |chunk|);
    TouchedNext(ext, open, f, off, w, |chunk|);
  }

  /** Past the last file nothing is left to write. */
  lemma WriteEnds(ext: seq<Extent>, open: seq<bool>, start: WriteState, contents: seq<seq<byte>>,
                  dirty: seq<bool>, off: nat, data: seq<byte>, w: nat)
    requires Tiles(ext) && |open| == |ext| && w < |data|
    requires WrittenUpTo(ext, open, start, contents, dirty, off, data[..w])
    requires End(ext) <= off + w
    ensures WrittenUpTo(ext, open, start, contents, dirty, off, data)
  {
    forall f | 0 <= f < |ext| ensures Touches(ext, open, f, off, |data|) == Touches(ext, open, f, off, w) {
      ExtentsBelowEnd(ext, f);
    }
    assert MaskedWrite(ext, open, start.flat, off, data) == MaskedWrite(ext, open, start.flat, off, data[..w]);
  }

  method WriteTurn(ext: seq<Extent>, open: seq<bool>, contents: seq<seq<byte>>, dirty: seq<bool>, off: nat,
                   data: seq<byte>, w: nat, f: nat, ghost start: WriteState)
    returns (contents': seq<seq<byte>>, dirty': seq<bool>, n: nat)
    requires Tiles(ext) && |open| == |ext| && f < |ext| && w < |data| && ext[f].Contains(off + w)
    requires WrittenUpTo(ext, open, start, contents, dirty, off, data[..w])
    ensures 0 < n && w + n <= |data| && off + w + n <= End(ext)
    ensures WrittenUpTo(ext, open, start, contents', dirty', off, data[..w + n])
  {
    var chunk := data[w..Min(|data|, w + ext[f].end - (off + w))];
    WriteStep(ext, open, start, contents, dirty, f, off, data, w, chunk);
    contents' := StepContents(ext, open, contents, f, off + w, chunk);
    dirty' := if open[f] then dirty[f := true] else dirty;
    n := |chunk|;
  }

  /** The write loop: each turn locates the file of the next byte and writes
      the part of the data that falls into it. */
  method Scatter(ext: seq<Extent>, open: seq<bool>, contents: seq<seq<byte>>, dirty: seq<bool>, off: nat,
                 data: seq<byte>)
    returns (ok: bool, contents': seq<seq<byte>>, dirty': seq<bool>)
    requires Tiles(ext) && Shape(ext, contents) && |open| == |dirty| == |ext|
    ensures ok <==> data == [] || off + |data| <= End(ext)
    ensures Shape(ext, contents')
    ensures Flat(contents') == MaskedWrite(ext, open, Flat(contents), off, data)
    ensures DirtyTracks(ext, open, dirty, dirty', off, |data|)
  {
    ok, contents', dirty' := true, contents, dirty;
    var written := 0;
    ghost var start := WriteState(Flat(contents), dirty);
    FlatLength(ext, contents);
    assert MaskedWrite(ext, open, start.flat, off, []) == start.flat;
    while written < |data|
      invariant 0 <= written <= |data|
      invariant written == 0 || off + written <= End(ext)
      invariant WrittenUpTo(ext, open, start, contents', dirty', off, data[..written])
    {
      var found := Locate(ext, off + written);
      if found.None? {
        WriteEnds(ext, open, start, contents', dirty', off, data, written);
        ok := false;
        return;
      }
      var n: nat;
      contents', dirty', n := WriteTurn(ext, open, contents', dirty', off, data, written, found.value, start);
      written := written + n;
    }
    assert data[..|data|] == data;
  }

  /** The read loop; files without a handle contribute zeros. */
  method Gather(ext: seq<Extent>, open: seq<bool>, contents: seq<seq<byte>>, off: nat, len: nat)
    returns (r: Result<seq<byte>>)
    requires Tiles(ext) && Shape(ext, contents) && |open| == |ext|
    ensures |Flat(contents)| == End(ext)
    ensures r.Ok? <==> len == 0 || off + len <= End(ext)
    ensures r.Ok? && len > 0 ==> r.value == MaskedRead(ext, open, Flat(contents), off, len)
    ensures r.Ok? && len == 0 ==> r.value == []
  {
    FlatLength(ext, contents);
    var buffer: seq<byte> := [];
    var read := 0;
    while read < len
      invariant 0 <= read <= len
      invariant ReadUpTo(ext, open, contents, off, read, buffer)
    {
      var at := off + read;
      var found := Locate(ext, at);
      if found.None? {
        return Err;
      }
      var f := found.value;
      var n := Min(len - read, ext[f].end - at);
      ReadStep(ext, open, contents, f, off, read, n, buffer);
      buffer := buffer + ChunkOf(ext, open, contents, f, at, n);
      read := read + n;
    }
    r := Ok(buffer);
  }

  class StandardDisk {
    const ext: seq<Extent>
    const pieceLength: nat
    var open: seq<bool>
    var dirty: seq<bool>
    /** What the operating system returns when a file is read. */
    var contents: seq<seq<byte>>
    /** What survives a power loss. */
    var stable: seq<seq<byte>>

    ghost predicate Valid()
      reads this
    {
      && Tiles(ext)
      && |open| == |ext| && |dirty| == |ext|
      && Shape(ext, contents) && Shape(ext, stable)
      && (forall f :: 0 <= f < |ext| && dirty[f] ==> open[f])
    }

    ghost function View(): (flat: seq<byte>)
      requires Valid()
      reads this
      ensures |flat| == End(ext)
    {
      FlatLength(ext, contents);
      Flat(contents)
    }

    constructor (lengths: seq<nat>, pieceLength: nat, flags: seq<bool>, onDisk: seq<seq<byte>>)
      requires |onDisk| == |lengths|
      requires forall f :: 0 <= f < |lengths| ==> |onDisk[f]| == lengths[f]
      ensures Valid() && ext == Plan(lengths) && this.pieceLength == pieceLength
      ensures forall f :: 0 <= f < |ext| ==> open[f] == IsSelected(flags, f) && !dirty[f]
      ensures contents == onDisk && stable == onDisk
    {
      var plans := PlanFiles(lengths);
      ext := plans;
      this.pieceLength := pieceLength;
      open := seq(|lengths|, f requires 0 <= f < |lengths| => IsSelected(flags, f));
      dirty := seq(|lengths|, f => false);
      contents := onDisk;
      stable := onDisk;
    }

    /** Fails exactly when the piece reaches past the last file; the bytes
        before that point have been written then. */
    method WritePiece(index: nat, data: seq<byte>) returns (ok: bool)
      requires Valid()
      modifies `contents, `dirty
      ensures Valid()
      ensures ok <==> data == [] || index * pieceLength + |data| <= End(ext)
      ensures View() == MaskedWrite(ext, open, old(View()), index * pieceLength, data)
      ensures DirtyTracks(ext, open, old(dirty), dirty, index * pieceLength, |data|)
    {
      FlatLength(ext, contents);
      ok, contents, dirty := Scatter(ext, open, contents, dirty, index * pieceLength, data);
    }

    method ReadPiece(index: nat, offset: nat, len: nat) returns (r: Result<seq<byte>>)
      requires Valid()
      ensures r.Ok? <==> len == 0 || index * pieceLength + offset + len <= End(ext)
      ensures r.Ok? && len > 0 ==> r.value == MaskedRead(ext, open, View(), index * pieceLength + offset, len)
      ensures r.Ok? && len == 0 ==> r.value == []
    {
      r := Gather(ext, open, contents, index * pieceLength + offset, len);
    }

    /** Afterwards every file that was written since the last flush is stable. */
    method Flush()
      requires Valid()
      modifies `stable, `dirty
      ensures Valid()
      ensures forall f :: 0 <= f < |ext| ==> !dirty[f]
      ensures forall f :: 0 <= f < |ext| ==> stable[f] == if old(dirty[f]) then contents[f] else old(stable[f])
    {
      for k := 0 to |ext|
        invariant Valid()
        invariant forall f :: 0 <= f < k ==> !dirty[f]
        invariant forall f :: k <= f < |ext| ==> dirty[f] == old(dirty[f]) && stable[f] == old(stable[f])
        invariant forall f :: 0 <= f < k ==> stable[f] == if old(dirty[f]) then contents[f] else old(stable[f])
      {
        if dirty[k] {
          if open[k] {
            stable := stable[k := contents[k]];
          }
          dirty := dirty[k := false];
        }
      }
    }

    /** Opens newly selected files and releases the others after a sync; no byte changes. */
    method SetSelection(flags: seq<bool>)
      requires Valid()
      modifies `open, `dirty, `stable
      ensures Valid() && View() == old(View())
      ensures forall f :: 0 <= f < |ext| ==> open[f] == IsSelected(flags, f)
      ensures forall f :: 0 <= f < |ext| ==> dirty[f] == (old(dirty[f]) && open[f])
      ensures forall f :: 0 <= f < |ext| ==>
                stable[f] == if old(open[f]) && !open[f] then contents[f] else old(stable[f])
    {
      for k := 0 to |ext|
        invariant Valid() && contents == old(contents)
        invariant forall f :: 0 <= f < k ==> open[f] == IsSelected(flags, f)
        invariant forall f :: k <= f < |ext| ==>
                    open[f] == old(open[f]) && dirty[f] == old(dirty[f]) && stable[f] == old(stable[f])
        invariant forall f :: 0 <= f < k ==> dirty[f] == (old(dirty[f]) && open[f])
        invariant forall f :: 0 <= f < k ==>
                    stable[f] == if old(open[f]) && !open[f] then contents[f] else old(stable[f])
      {
        var keep := IsSelected(flags, k);
        if keep && !open[k] {
          open := open[k := true];
        } else if !keep && open[k] {
          stable := stable[k := contents[k]];
          dirty := dirty[k := false];
          open := open[k := false];
        }
      }
    }
  }

  /** Extending the written range by one chunk touches no file but the chunk's own. */
  lemma TouchedNext(ext: seq<Extent>, open: seq<bool>, f: nat, off: nat, w: nat, n: nat)
    requires Tiles(ext) && |open| == |ext| && f < |ext|
    requires n > 0 && ext[f].start <= off + w && off + w + n <= ext[f].end
    ensures forall g :: 0 <= g < |ext| && g != f ==> Touches(ext, open, g, off, w + n) == Touches(ext, open, g, off, w)
    ensures Touches(ext, open, f, off, w + n) == open[f]
  {
    forall g | 0 <= g < |ext| && g != f
      ensures Touches(ext, open, g, off, w + n) == Touches(ext, open, g, off, w)
    {
      if g < f {
        ExtentsOrdered(ext, g, f);
      } else {
        ExtentsOrdered(ext, f, g);
      }
    }
  }

  // ----- io_uring backend: transfers may be short -----

  /** `write_fully`: each call of the kernel moves some part of the rest, or
      nothing, or fails. Success means that everything was written; on failure
      a prefix was. */
  method WriteFully(content: seq<byte>, buf: seq<byte>, pos: nat) returns (ok: bool, content': seq<byte>)
    requires pos + |buf| <= |content|
    ensures ok ==> content' == Overlay(content, pos, buf)
    ensures exists moved :: 0 <= moved <= |buf| && content' == Overlay(content, pos, buf[..moved])
  {
    var done := 0;
    content' := content;
    while done < |buf|
      invariant 0 <= done <= |buf|
      invariant content' == Overlay(content, pos, buf[..done])
    {
      var written: nat :| done + written <= |buf|;
      if * {
        return false, content';
      }
      if written == 0 {
        return false, content';
      }
      content' := Overlay(content', pos + done, buf[done..done + written]);
      done := done + written;
    }
    assert buf[..done] == buf;
    return true, content';
  }

  /** `read_fully`: exactly the requested bytes, however the reads are split. */
  method ReadFully(content: seq<byte>, len: nat, pos: nat) returns (r: Result<seq<byte>>)
    requires pos + len <= |content|
    ensures r.Ok? ==> r.value == content[pos..pos + len]
  {
    var buf: seq<byte> := seq(len, i => 0);
    var done := 0;
    while done < len
      invariant 0 <= done <= len == |buf|
      invariant buf[..done] == content[pos..pos + done]
    {
      var read: nat :| done + read <= len;
      if * {
        return Err;
      }
      if read == 0 {
        return Err;
      }
      buf := buf[..done] + content[pos + done..pos + done + read] + buf[done + read..];
      done := done + read;
    }
    assert buf == buf[..done];
    return Ok(buf);
  }

  /** After a failure: some prefix of the data has been written, and the files
      are marked for the part of it that was written chunk by chunk. */
  ghost predicate BrokeOff(ext: seq<Extent>, open: seq<bool>, start: WriteState, contents: seq<seq<byte>>,
                           dirty: seq<bool>, off: nat, data: seq<byte>)
    requires |open| == |ext|
  {
    exists w, moved ::
      && 0 <= w <= moved <= |data|
      && Flat(contents) == MaskedWrite(ext, open, start.flat, off, data[..moved])
      && DirtyTracks(ext, open, start.dirty, dirty, off, w)
  }

  lemma NothingOverlaid(content: seq<byte>, pos: nat)
    requires pos <= |content|
    ensures Overlay(content, pos, []) == content
  {
  }

  /** A part of a chunk that reached its file. */
  lemma PartWritten(ext: seq<Extent>, open: seq<bool>, start: WriteState, contents: seq<seq<byte>>, dirty: seq<bool>,
                    f: nat, off: nat, data: seq<byte>, w: nat, moved: nat, content: seq<byte>)
    requires Tiles(ext) && |open| == |ext| && f < |ext| && open[f] && w + moved <= |data|
    requires ext[f].start <= off + w && off + w + moved <= ext[f].end
    requires WrittenUpTo(ext, open, start, contents, dirty, off, data[..w])
    requires content == Overlay(contents[f], off + w - ext[f].start, data[w..w + moved])
    ensures Shape(ext, contents[f := content]) && BrokeOff(ext, open, start, contents[f := content], dirty, off, data)
  {
    assert |data[..w]| == w;
    if moved == 0 {
      assert data[w..w] == [];
      NothingOverlaid(contents[f], off + w - ext[f].start);
      assert contents[f := content] == contents;
    } else {
      StepExtendsWrite(ext, open, start.flat, contents, f, off, data, w, moved);
    }
  }

  method UringTurn(ext: seq<Extent>, open: seq<bool>, contents: seq<seq<byte>>, dirty: seq<bool>, off: nat,
                   data: seq<byte>, w: nat, f: nat, ghost start: WriteState)
    returns (ok: bool, contents': seq<seq<byte>>, dirty': seq<bool>, n: nat)
    requires Tiles(ext) && |open| == |ext| && f < |ext| && w < |data| && ext[f].Contains(off + w)
    requires WrittenUpTo(ext, open, start, contents, dirty, off, data[..w])
    ensures Shape(ext, contents') && 0 < n && w + n <= |data| && off + w + n <= End(ext)
    ensures ok ==> WrittenUpTo(ext, open, start, contents', dirty', off, data[..w + n])
    ensures !ok ==> BrokeOff(ext, open, start, contents', dirty', off, data)
  {
    ok, contents', dirty' := true, contents, dirty;
    var chunk := data[w..Min(|data|, w + ext[f].end - (off + w))];
    n := |chunk|;
    WriteStep(ext, open, start, contents, dirty, f, off, data, w, chunk);
    if open[f] {
      var content: seq<byte>;
      ok, content := WriteFully(contents[f], chunk, off + w - ext[f].start);
      contents' := contents[f := content];
      if ok {
        dirty' := dirty[f := true];
      } else {
        ghost var moved :| 0 <= moved <= |chunk|
          && content == Overlay(contents[f], off + w - ext[f].start, chunk[..moved]);
        assert chunk[..moved] == data[w..w + moved];
        PartWritten(ext, open, start, contents, dirty, f, off, data, w, moved, content);
      }
    }
  }

  /** The io_uring write loop meets the flat specification of `Scatter` when it
      succeeds; when it fails, a prefix of the data has been written. */
  method UringScatter(ext: seq<Extent>, open: seq<bool>, contents: seq<seq<byte>>, dirty: seq<bool>, off: nat,
                      data: seq<byte>)
    returns (ok: bool, contents': seq<seq<byte>>, dirty': seq<bool>)
    requires Tiles(ext) && Shape(ext, contents) && |open| == |dirty| == |ext|
    ensures ok ==> data == [] || off + |data| <= End(ext)
    ensures Shape(ext, contents')
    ensures ok ==> Flat(contents') == MaskedWrite(ext, open, Flat(contents), off, data)
    ensures ok ==> DirtyTracks(ext, open, dirty, dirty', off, |data|)
    ensures !ok ==> BrokeOff(ext, open, WriteState(Flat(contents), dirty), contents', dirty', off, data)
  {
    ok, contents', dirty' := true, contents, dirty;
    var written := 0;
    ghost var start := WriteState(Flat(contents), dirty);
    FlatLength(ext, contents);
    assert MaskedWrite(ext, open, start.flat, off, []) == start.flat;
    while written < |data|
      invariant 0 <= written <= |data|
      invariant written == 0 || off + written <= End(ext)
      invariant WrittenUpTo(ext, open, start, contents', dirty', off, data[..written])
    {
      var found := Locate(ext, off + written);
      if found.None? {
        BrokeOffHere(ext, open, start, contents', dirty', off, data, written);
        return false, contents', dirty';
      }
      var n: nat;
      ok, contents', dirty', n := UringTurn(ext, open, contents', dirty', off, data, written, found.value, start);
      if !ok {
        return;
      }
      written := written + n;
    }
    assert data[..|data|] == data;
  }

  lemma BrokeOffHere(ext: seq<Extent>, open: seq<bool>, start: WriteState, contents: seq<seq<byte>>, dirty: seq<bool>,
                     off: nat, data: seq<byte>, w: nat)
    requires |open| == |ext| && w <= |data| && WrittenUpTo(ext, open, start, contents, dirty, off, data[..w])
    ensures BrokeOff(ext, open, start, contents, dirty, off, data)
  {
    assert |data[..w]| == w;
  }

  method UringGather(ext: seq<Extent>, open: seq<bool>, contents: seq<seq<byte>>, off: nat, len: nat)
    returns (r: Result<seq<byte>>)
    requires Tiles(ext) && Shape(ext, contents) && |open| == |ext|
    ensures |Flat(contents)| == End(ext)
    ensures r.Ok? ==> len == 0 || off + len <= End(ext)
    ensures r.Ok? && len > 0 ==> r.value == MaskedRead(ext, open, Flat(contents), off, len)
    ensures r.Ok? && len == 0 ==> r.value == []
  {
    FlatLength(ext, contents);
    var buffer: seq<byte> := [];
    var read := 0;
    while read < len
      invariant 0 <= read <= len
      invariant ReadUpTo(ext, open, contents, off, read, buffer)
    {
      var at := off + read;
      var found := Locate(ext, at);
      if found.None? {
        return Err;
      }
      var f := found.value;
      var n := Min(len - read, ext[f].end - at);
      ReadStep(ext, open, contents, f, off, read, n, buffer);
      var part: seq<byte> := seq(n, i => 0);
      if open[f] {
        var whole := ReadFully(contents[f], n, at - ext[f].start);
        if whole.Err? {
          return Err;
        }
        part := whole.value;
      }
      assert part == ChunkOf(ext, open, contents, f, at, n);
      buffer := buffer + part;
      read := read + n;
    }
    r := Ok(buffer);
  }
}
