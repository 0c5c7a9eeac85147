/** Every step of the pipeline keeps its invariant; from it, crash safety and
    correct serving over whole runs. */
module PipelineSafety {
  import opened Common
  import opened Layout
  import opened Disk
  import opened Selections
  import opened Bitfields
  import opened Fsutil
  import opened PieceLength
  import opened Pipeline
  import M = Manager
  import Resume

  // ----- bytes and pieces -----

  lemma PieceOfRange(t: Torrent, i: nat, p: nat)
    requires t.pieceLength > 0 && i < |t.content|
    ensures PieceOf(t, i) == p <==> PieceStart(t, p) <= i < PieceEnd(t, p)
    ensures PieceOf(t, i) == p <==> InPiece(i, p, t.pieceLength)
  {
    InPieceOf(i, t.pieceLength);
    if InPiece(i, p, t.pieceLength) {
      PiecesDisjoint(i, p, PieceOf(t, i), t.pieceLength);
    }
  }

  lemma StoredMono(ext: seq<Extent>, a: seq<bool>, b: seq<bool>, i: int)
    requires |a| == |b| == |ext|
    requires forall f :: 0 <= f < |ext| && a[f] ==> b[f]
    requires Stored(ext, a, i)
    ensures Stored(ext, b, i)
  {
    var f :| 0 <= f < |ext| && a[f] && ext[f].Contains(i);
    assert b[f];
  }

  // ----- stores -----

  /** All a step does to the stores: the cache gains bytes of the torrent, the
      disk gains bytes of the cache. */
  ghost predicate StoresStep(t: Torrent, s: State, s': State) {
    && |s.cache| == |s.disk| == |s'.cache| == |s'.disk| == |t.content|
    && (forall i :: 0 <= i < |t.content| ==> s'.cache[i] == s.cache[i] || s'.cache[i] == t.content[i])
    && (forall i :: 0 <= i < |t.content| ==> s'.disk[i] == s.disk[i] || s'.disk[i] == s.cache[i])
  }

  /** A record that is true stays true. */
  lemma RecordKept(t: Torrent, s: State, s': State, r: Record)
    requires t.pieceLength > 0 && StoresStep(t, s, s') && RecordHolds(t, s, r)
    ensures RecordHolds(t, s', r)
  {
  }

  function PhaseOf(s: State): Phase { if s.pc.Saving? then s.pc.phase else Start }
  function ImageOf(s: State): seq<bv8> { if s.pc.Saving? then s.pc.record.image else [] }

  lemma FilesKept(t: Torrent, s: State, s': State)
    requires Shapes(t, s) && Shapes(t, s') && StoresStep(t, s, s') && FilesOk(t, s)
    requires s'.fs == s.fs && s'.saved == s.saved
    requires s'.pc == s.pc || (!s'.pc.Saving? || s'.pc.phase.Start?)
    ensures FilesOk(t, s')
  {
    forall k | 0 <= k < |s'.saved| ensures RecordHolds(t, s', s'.saved[k]) {
      RecordKept(t, s, s', s.saved[k]);
    }
  }

  // ----- one lemma per action -----

  /** Completing piece `p` is sound when its stored bytes are right in the
      cache, and on disk or in a dirty file. */
  lemma MarkedInv(t: Torrent, s: State, s': State, p: nat)
    requires Inv(t, s) && !s.pc.Switching? && (s'.pc.Idle? || (s'.pc.Flushing? && s.checking.None?))
    requires M.Inv(s'.m) && s'.m.total == s.m.total && s'.m.sel == s.m.sel
    requires s'.m.completed <= s.m.completed + {p}
    requires s'.checking.Some? ==> s.checking.Some?
    requires s' == s.(m := s'.m, pc := s'.pc, checking := s'.checking)
    requires forall i :: PieceStart(t, p) <= i < PieceEnd(t, p) && Stored(t.ext, s.open, i) ==>
               s.cache[i] == t.content[i] && (s.disk[i] == t.content[i] || Stored(t.ext, s.dirty, i))
    ensures Inv(t, s')
  {
    forall i | 0 <= i < |t.content| && Needed(t, s'.m.completed, s'.open, i)
      ensures s.cache[i] == t.content[i] && (s.disk[i] == t.content[i] || Stored(t.ext, s.dirty, i))
    {
      PieceOfRange(t, i, p);
      assert PieceOf(t, i) != p ==> Needed(t, s.m.completed, s.open, i);
    }
    FilesKept(t, s, s');
  }

  /** What a verified read of `[lo, hi)` says about the cache. */
  lemma VerifiedBytes(t: Torrent, s: State, lo: nat, hi: nat)
    requires lo <= hi <= |s.cache| == |t.content| && |s.open| == |t.ext|
    requires MaskedRead(t.ext, s.open, s.cache, lo, hi - lo) == t.content[lo..hi]
    ensures forall i :: lo <= i < hi && Stored(t.ext, s.open, i) ==> s.cache[i] == t.content[i]
  {
    forall i | lo <= i < hi && Stored(t.ext, s.open, i) ensures s.cache[i] == t.content[i] {
      assert MaskedRead(t.ext, s.open, s.cache, lo, hi - lo)[i - lo] == t.content[lo..hi][i - lo];
    }
  }

  lemma CheckInv(t: Torrent, s: State, verified: bool, s': State)
    requires Inv(t, s) && CheckStep(t, s, verified, s')
    ensures Inv(t, s')
  {
    var p := s.checking.value;
    if verified {
      var lo, hi := PieceStart(t, p), PieceEnd(t, p);
      M.MarkCompletedInv(s.m, p);
      VerifiedBytes(t, s, lo, hi);
      MarkedInv(t, s, s', p);
    } else {
      FilesKept(t, s, s');
    }
  }

  /** A step that leaves the completed pieces, the selection and the handles
      alone and writes at most bytes of the torrent. */
  lemma QuietInv(t: Torrent, s: State, s': State)
    requires Inv(t, s) && !s.pc.Switching? && s'.pc.Idle?
    requires M.Inv(s'.m) && s'.m.total == s.m.total && s'.m.sel == s.m.sel && s'.m.completed == s.m.completed
    requires StoresStep(t, s, s') && (s.checking.Some? ==> s'.cache == s.cache)
    requires s' == s.(m := s'.m, pc := s'.pc, cache := s'.cache)
    ensures Inv(t, s')
  {
    FilesKept(t, s, s');
  }

  lemma SchedulerKeeps(m: M.State, op: M.Op, m': M.State)
    requires M.Inv(m) && M.Step(m, op, m') && !op.MarkCompletedOp? && !op.ApplySelectionOp?
    ensures m'.completed == m.completed && m'.sel == m.sel && m'.total == m.total
  {
    if op.NextWorkOp? {
      var r :| M.NextWork(m, op.has, m', r);
      var c := M.Cleaned(m);
      if M.Assigns(c, op.has, m', r) {
        var i: nat :| M.Rarest(c, op.has, i)
                       && m' == c.(missing := M.RemoveAt(c.missing, i), inProgress := c.inProgress[c.missing[i] := 1]);
      }
    }
  }

  /** A scheduler operation together with at most a write of bytes of the torrent. */
  lemma OperationInv(t: Torrent, s: State, op: M.Op, s': State)
    requires Inv(t, s) && !s.pc.Switching? && s'.pc.Idle?
    requires M.Step(s.m, op, s'.m) && !op.MarkCompletedOp? && !op.ApplySelectionOp?
    requires StoresStep(t, s, s') && (s.checking.Some? ==> s'.cache == s.cache)
    requires s' == s.(m := s'.m, pc := s'.pc, cache := s'.cache)
    ensures Inv(t, s')
  {
    M.StepInv(s.m, op, s'.m);
    SchedulerKeeps(s.m, op, s'.m);
    QuietInv(t, s, s');
  }

  lemma SchedulerInv(t: Torrent, s: State, op: M.Op, s': State)
    requires Inv(t, s) && Step(t, s, SchedulerOp(op), s')
    ensures Inv(t, s')
  {
    OperationInv(t, s, op, s');
  }

  lemma ChunkInv(t: Torrent, s: State, f: nat, s': State)
    requires Inv(t, s) && ChunkStep(t, s, f, s')
    ensures Inv(t, s')
  {
    var p, at, hi := s.pc.piece, s.pc.at, s'.pc.at;
    forall i | PieceStart(t, p) <= i < hi && Stored(t.ext, s'.open, i)
      ensures s'.cache[i] == t.content[i] && Stored(t.ext, s'.dirty, i)
    {
      if i < at {
        StoredMono(t.ext, s.dirty, s'.dirty, i);
      } else {
        StoredIsOwner(t.ext, s.open, f, i);
        assert s'.dirty[f] && t.ext[f].Contains(i);
      }
    }
    forall i | 0 <= i < |t.content| && Stored(t.ext, s.dirty, i) ensures Stored(t.ext, s'.dirty, i) {
      StoredMono(t.ext, s.dirty, s'.dirty, i);
    }
    FilesKept(t, s, s');
  }

  lemma ChunkEnds(t: Torrent, s: State, f: nat, s': State)
    requires WellFormed(t) && ChunkStep(t, s, f, s')
    ensures s.pc.at <= s'.pc.at <= |t.content| && s'.pc.at <= t.ext[f].end
  {
  }

  lemma ChunkByte(t: Torrent, s: State, f: nat, s': State, contents: seq<seq<byte>>, chunk: seq<byte>, i: nat)
    requires WellFormed(t) && ChunkStep(t, s, f, s') && Shape(t.ext, contents) && Flat(contents) == s.cache
    requires s.pc.at <= s'.pc.at <= |t.content| && s'.pc.at <= t.ext[f].end && chunk == t.content[s.pc.at..s'.pc.at]
    requires i < |t.content|
    ensures var next := Flat(StepContents(t.ext, s.open, contents, f, s.pc.at, chunk));
            |next| == |s'.cache| == |t.content| && next[i] == s'.cache[i]
  {
    StepAt(t.ext, s.open, contents, f, s.pc.at, chunk, i);
  }

  /** The pipeline's write step is a turn of the disk's own write loop, seen through the flat array. */
  lemma ChunkIsDiskWrite(t: Torrent, s: State, f: nat, s': State, contents: seq<seq<byte>>)
    requires WellFormed(t) && ChunkStep(t, s, f, s') && Shape(t.ext, contents) && Flat(contents) == s.cache
    ensures s.pc.at <= s'.pc.at <= |t.content| && s'.pc.at <= t.ext[f].end
    ensures Flat(StepContents(t.ext, s.open, contents, f, s.pc.at, t.content[s.pc.at..s'.pc.at])) == s'.cache
  {
    ChunkEnds(t, s, f, s');
    var chunk := t.content[s.pc.at..s'.pc.at];
    ChunkByte(t, s, f, s', contents, chunk, s.pc.at);
    forall i: nat | i < |t.content|
      ensures Flat(StepContents(t.ext, s.open, contents, f, s.pc.at, chunk))[i] == s'.cache[i]
    {
      ChunkByte(t, s, f, s', contents, chunk, i);
    }
  }

  lemma CopyIsStoresStep(t: Torrent, s: State, s': State, lo: nat, hi: nat)
    requires |s.cache| == |s.disk| == |t.content| && s'.disk == s.disk && s'.cache == Copied(s.cache, t.content, lo, hi)
    ensures StoresStep(t, s, s')
  {
  }

  lemma WriteErrorInv(t: Torrent, s: State, f: nat, upTo: nat, s': State)
    requires Inv(t, s) && WriteErrorStep(t, s, f, upTo, s')
    ensures Inv(t, s')
  {
    CopyIsStoresStep(t, s, s', s.pc.at, upTo);
    OperationInv(t, s, M.ReturnWorkOp(s.pc.piece), s');
  }

  lemma EndWriteInv(t: Torrent, s: State, s': State)
    requires Inv(t, s) && EndWriteStep(t, s, s')
    ensures Inv(t, s')
  {
    M.MarkCompletedInv(s.m, s.pc.piece);
    MarkedInv(t, s, s', s.pc.piece);
  }

  lemma FlushFileInv(t: Torrent, s: State, f: nat, s': State)
    requires Inv(t, s) && FlushFileStep(t, s, f, s')
    ensures Inv(t, s')
  {
    forall i | 0 <= i < |t.content| && Needed(t, s'.m.completed, Trusted(s'), i)
      ensures s'.disk[i] == t.content[i] || Stored(t.ext, s'.dirty, i)
    {
      assert Needed(t, s.m.completed, Trusted(s), i);
      if !t.ext[f].Contains(i) && Stored(t.ext, s.dirty, i) {
        var g :| 0 <= g < |t.ext| && s.dirty[g] && t.ext[g].Contains(i);
        assert s'.dirty[g];
      }
    }
    FilesKept(t, s, s');
  }

  lemma BeginSaveInv(t: Torrent, s: State, s': State)
    requires Inv(t, s) && Step(t, s, BeginSave, s')
    ensures Inv(t, s')
  {
    forall i | 0 <= i < |t.content| && Needed(t, s.m.completed, s.open, i)
      ensures s.disk[i] == t.content[i]
    {
      assert !Stored(t.ext, s.dirty, i);
    }
    assert RecordHolds(t, s', s'.pc.record);
    FilesKept(t, s, s');
  }

  lemma SaveEffectInv(t: Torrent, s: State, s': State)
    requires Inv(t, s) && SaveEffectStep(t, s, s')
    ensures Inv(t, s')
  {
    var fs', ph' :| (SaveStep(s.fs, s.pc.phase, s.pc.record.image, fs', ph') || FailStep(s.fs, s.pc.phase, fs', ph'))
      && s' == s.(fs := fs',
                  saved := if ph'.Renamed? then s.saved + [s.pc.record] else s.saved,
                  pc := if ph'.Renamed? || ph'.Failed? then Idle else Saving(ph', s.pc.record));
    SaveStepSafe(s.fs, s.pc.phase, s.pc.record.image, fs', ph');
    forall k | 0 <= k < |s'.saved| ensures RecordHolds(t, s', s'.saved[k]) {
      RecordKept(t, s, s', if k < |s.saved| then s.saved[k] else s.pc.record);
    }
    KnownGrows(s, s', CrashView(s.fs));
    KnownGrows(s, s', Contents(s.fs, s.fs.path));
    if ph'.Renamed? {
      assert s'.saved[|s.saved|] == s.pc.record;
    }
  }

  lemma KnownGrows(s: State, s': State, c: Option<seq<bv8>>)
    requires Known(s, c) && s.saved <= s'.saved
    ensures Known(s', c)
  {
    if c.Some? {
      var k :| 0 <= k < |s.saved| && s.saved[k].image == c.value;
      assert s'.saved[k].image == c.value;
    }
  }

  lemma BeginSwitchInv(t: Torrent, s: State, after: seq<bool>, s': State)
    requires Inv(t, s) && Step(t, s, BeginSwitch(after), s')
    ensures Inv(t, s')
  {
    assert Trusted(s') == Trusted(s);
    FilesKept(t, s, s');
  }

  lemma OpenedFile(t: Torrent, s: State, s': State)
    requires Shapes(t, s) && SwitchFileStep(t, s, s') && (s.pc.after[s.pc.next] || !s.open[s.pc.next])
    ensures Shapes(t, s') && Trusted(s') == Trusted(s) && s'.pc.Switching? && s'.pc.before == s.pc.before
    ensures s' == s.(open := s'.open, pc := s'.pc)
  {
    assert Trusted(s') == Trusted(s);
  }

  lemma OpenFileInv(t: Torrent, s: State, s': State)
    requires Inv(t, s) && SwitchFileStep(t, s, s') && (s.pc.after[s.pc.next] || !s.open[s.pc.next])
    ensures Inv(t, s')
  {
    OpenedFile(t, s, s');
    FilesKept(t, s, s');
  }

  /** A byte that is still needed keeps its dirty mark when another file is released. */
  lemma ReleasedByte(t: Torrent, s: State, s': State, i: nat)
    requires Shapes(t, s) && SwitchFileStep(t, s, s') && !s.pc.after[s.pc.next] && s.open[s.pc.next] && i < |t.content|
    requires Stored(t.ext, Trusted(s'), i)
    ensures Stored(t.ext, Trusted(s), i)
    ensures Stored(t.ext, s.dirty, i) ==> Stored(t.ext, s'.dirty, i)
  {
    StoredMono(t.ext, Trusted(s'), Trusted(s), i);
    if Stored(t.ext, s.dirty, i) {
      var g :| 0 <= g < |t.ext| && s.dirty[g] && t.ext[g].Contains(i);
      StoredIsOwner(t.ext, Trusted(s'), g, i);
      assert s'.dirty[g];
    }
  }

  lemma ReleasedStores(t: Torrent, s: State, s': State)
    requires Shapes(t, s) && SwitchFileStep(t, s, s') && !s.pc.after[s.pc.next] && s.open[s.pc.next]
    ensures StoresStep(t, s, s') && (s.cache == s.disk ==> s'.disk == s.disk)
  {
  }

  lemma ReleaseFileInv(t: Torrent, s: State, s': State)
    requires Inv(t, s) && SwitchFileStep(t, s, s') && !s.pc.after[s.pc.next] && s.open[s.pc.next]
    ensures Inv(t, s')
  {
    forall i | 0 <= i < |t.content| && Needed(t, s'.m.completed, Trusted(s'), i)
      ensures Needed(t, s.m.completed, Trusted(s), i)
      ensures s'.disk[i] == t.content[i] || Stored(t.ext, s'.dirty, i)
    {
      ReleasedByte(t, s, s', i);
    }
    ReleasedStores(t, s, s');
    FilesKept(t, s, s');
  }

  /** A byte that is needed under the new selection was needed, and kept, before. */
  lemma NeededBefore(t: Torrent, s: State, refetch: set<nat>, i: nat)
    requires Shapes(t, s) && s.pc.Switching? && s.open == s.pc.after && i < |t.content|
    requires CoversNew(t, s.pc.before, s.pc.after, refetch)
    requires Stored(t.ext, s.open, i) && PieceOf(t, i) in s.m.completed && PieceOf(t, i) !in refetch
    ensures Needed(t, s.m.completed, Trusted(s), i)
  {
    var p := PieceOf(t, i);
    var f :| 0 <= f < |t.ext| && s.open[f] && t.ext[f].Contains(i);
    PieceOfRange(t, i, p);
    assert Meets(t.ext[f], p, t.pieceLength);
    assert p < Total(t);
    assert !MeetsFlagged(t.ext, NewlySelected(s.pc.before, s.pc.after), true, p, t.pieceLength);
    assert !NewlySelected(s.pc.before, s.pc.after)[f];
    assert Trusted(s)[f];
  }

  lemma EndSwitchInv(t: Torrent, s: State, sel: M.Sel, refetch: set<nat>, s': State)
    requires Inv(t, s) && EndSwitchStep(t, s, sel, refetch, s')
    ensures Inv(t, s')
  {
    M.ApplySelectionInv(s.m, sel, refetch);
    assert s.open == s.pc.after;
    forall i | 0 <= i < |t.content| && Needed(t, s'.m.completed, s'.open, i)
      ensures Needed(t, s.m.completed, Trusted(s), i)
    {
      NeededBefore(t, s, refetch, i);
    }
    FilesKept(t, s, s');
  }

  lemma WriteBackInv(t: Torrent, s: State, s': State)
    requires Inv(t, s) && Step(t, s, WriteBack, s')
    ensures Inv(t, s')
  {
    if s.checking.Some? {
      assert s'.disk == s.disk;
    }
    if s.pc.Saving? {
      RecordKept(t, s, s', s.pc.record);
    }
    FilesKept(t, s, s');
  }

  lemma FsBackgroundInv(t: Torrent, s: State, s': State)
    requires Inv(t, s) && Step(t, s, FsBackground, s')
    ensures Inv(t, s')
  {
    BackgroundSafe(s.fs, PhaseOf(s), ImageOf(s), s'.fs);
    forall k | 0 <= k < |s'.saved| ensures RecordHolds(t, s', s'.saved[k]) {
      RecordKept(t, s, s', s.saved[k]);
    }
  }

  /** Steps that only move the coordinator from one stage to the next. */
  lemma StageInv(t: Torrent, s: State, a: Action, s': State)
    requires Inv(t, s) && Step(t, s, a, s') && (a.EndCheck? || a.FlushError? || a.Shutdown?)
    ensures Inv(t, s')
  {
    FilesKept(t, s, s');
  }

  lemma SwitchFileInv(t: Torrent, s: State, s': State)
    requires Inv(t, s) && SwitchFileStep(t, s, s')
    ensures Inv(t, s')
  {
    if s.pc.after[s.pc.next] || !s.open[s.pc.next] {
      OpenFileInv(t, s, s');
    } else {
      ReleaseFileInv(t, s, s');
    }
  }

  predicate IsWriting(a: Action) { a.BeginWrite? || a.WriteChunk? || a.WriteError? || a.EndWrite? }
  predicate IsSaving(a: Action) { a.FlushFile? || a.BeginSave? || a.SaveEffect? || a.FsBackground? || a.WriteBack? }
  predicate IsSwitching(a: Action) { a.BeginSwitch? || a.SwitchFile? || a.EndSwitch? }

  lemma WritingInv(t: Torrent, s: State, a: Action, s': State)
    requires Inv(t, s) && Step(t, s, a, s') && IsWriting(a)
    ensures Inv(t, s')
  {
    match a
    case BeginWrite(p) => BeginWriteInv(t, s, p, s');
    case WriteChunk(f) => ChunkInv(t, s, f, s');
    case WriteError(f, upTo) => WriteErrorInv(t, s, f, upTo, s');
    case EndWrite => EndWriteInv(t, s, s');
  }

  lemma SavingInv(t: Torrent, s: State, a: Action, s': State)
    requires Inv(t, s) && Step(t, s, a, s') && IsSaving(a)
    ensures Inv(t, s')
  {
    match a
    case FlushFile(f) => FlushFileInv(t, s, f, s');
    case BeginSave => BeginSaveInv(t, s, s');
    case SaveEffect => SaveEffectInv(t, s, s');
    case FsBackground => FsBackgroundInv(t, s, s');
    case WriteBack => WriteBackInv(t, s, s');
  }

  lemma SwitchingInv(t: Torrent, s: State, a: Action, s': State)
    requires Inv(t, s) && Step(t, s, a, s') && IsSwitching(a)
    ensures Inv(t, s')
  {
    match a
    case BeginSwitch(after) => BeginSwitchInv(t, s, after, s');
    case SwitchFile => SwitchFileInv(t, s, s');
    case EndSwitch(sel, refetch) => EndSwitchInv(t, s, sel, refetch, s');
  }

  lemma StepInv(t: Torrent, s: State, a: Action, s': State)
    requires Inv(t, s) && Step(t, s, a, s')
    ensures Inv(t, s')
  {
    if IsWriting(a) {
      WritingInv(t, s, a, s');
    } else if IsSaving(a) {
      SavingInv(t, s, a, s');
    } else if IsSwitching(a) {
      SwitchingInv(t, s, a, s');
    } else if a.CheckPiece? {
      CheckInv(t, s, a.verified, s');
    } else if a.SchedulerOp? {
      SchedulerInv(t, s, a.op, s');
    } else {
      StageInv(t, s, a, s');
    }
  }

  lemma BeginWriteInv(t: Torrent, s: State, p: nat, s': State)
    requires Inv(t, s) && Step(t, s, BeginWrite(p), s')
    ensures Inv(t, s')
  {
    LengthsAgree(p, t.pieceLength, Total(t), |t.content|);
    FilesKept(t, s, s');
  }

  lemma InitInv(t: Torrent, s: State)
    requires Init(t, s)
    ensures Inv(t, s)
  {
    var done, sel :| s.m == M.WithSelection(Total(t), done, sel);
    M.InitInv(Total(t), done, sel);
  }

  /** Every well-formed torrent can be started: nothing completed, nothing
      stored, no resume file, any selection that matches the open files. */
  lemma FreshStart(t: Torrent, open: seq<bool>, sel: M.Sel, s: State)
    requires WellFormed(t) && |open| == |t.ext| && SelMatches(t, sel, open)
    requires s == State(Some(0), M.WithSelection(Total(t), {}, sel), open, seq(|t.ext|, f => false),
                        seq(|t.content|, i => 0), seq(|t.content|, i => 0), Fs([], None, None, None), Idle, [])
    ensures Init(t, s) && Inv(t, s)
  {
    InitInv(t, s);
  }

  /** The selection and the refetch set that `Selections` computes meet the
      conditions of a selection change. */
  lemma SelectionBridge(t: Torrent, before: seq<bool>, after: seq<bool>, sel: Selection, refetch: Bits, m: M.Sel)
    requires IsPiecesOf(sel.wanted, t.ext, after, true, t.pieceLength, Total(t))
    requires IsPiecesOf(sel.unservable, t.ext, after, false, t.pieceLength, Total(t))
    requires IsPiecesOf(refetch, t.ext, NewlySelected(before, after), true, t.pieceLength, Total(t))
    requires m == M.Sel(Ones(sel.wanted), Ones(sel.unservable))
    ensures SelMatches(t, m, after)
    ensures CoversNew(t, before, after, Ones(refetch))
  {
  }

  // ----- crash and restart -----

  /** What a record lists is what was completed when it was made. */
  lemma ListedWereSaved(t: Torrent, r: Record, done: set<nat>)
    requires t.pieces <= Resume.MAX_PIECES && r.image == Resume.Image(t.pieces, r.pieces)
    requires Resume.Decode(r.image).Binary? && done == (set p | p in Resume.Decode(r.image).state.completed)
    ensures done <= r.pieces && forall p :: p in done ==> p < Total(t)
  {
    Resume.DecodeImage(t.pieces, r.pieces);
  }

  /** A byte needed after the restart is in a file the record vouches for, or in
      one that has its bytes all the same. */
  lemma RestoredByte(t: Torrent, s: State, r: Record, open: seq<bool>, done: set<nat>, i: nat)
    requires Shapes(t, s) && RecordHolds(t, s, r) && done <= r.pieces && |open| == |t.ext| && i < |t.content|
    requires Vouches(t, s, r, open, done) && Needed(t, done, open, i)
    ensures s.disk[i] == t.content[i]
  {
    var f :| 0 <= f < |t.ext| && open[f] && t.ext[f].Contains(i);
    if r.flags[f] {
      assert Needed(t, r.pieces, r.flags, i);
    } else {
      assert FileHolds(t, s.disk, done, f);
    }
  }

  lemma VouchedHolds(t: Torrent, s: State, open: seq<bool>, done: set<nat>)
    requires Inv(t, s) && Listed(s, done) && |open| == |t.ext| && Vouched(t, s, open, done)
    ensures Holds(t, s.disk, done, open)
  {
    if CrashView(s.fs).Some? {
      var j :| 0 <= j < |s.saved| && s.saved[j].image == CrashView(s.fs).value && Vouches(t, s, s.saved[j], open, done);
      ListedWereSaved(t, s.saved[j], done);
      forall i | 0 <= i < |t.content| && Needed(t, done, open, i) ensures s.disk[i] == t.content[i] {
        RestoredByte(t, s, s.saved[j], open, done, i);
      }
    }
  }

  lemma HoldsVouched(t: Torrent, s: State, open: seq<bool>, done: set<nat>)
    requires Inv(t, s) && |open| == |t.ext| && Holds(t, s.disk, done, open)
    ensures Vouched(t, s, open, done)
  {
    if CrashView(s.fs).Some? {
      var j :| 0 <= j < |s.saved| && s.saved[j].image == CrashView(s.fs).value;
      forall f: nat | f < |t.ext| && open[f] ensures FileHolds(t, s.disk, done, f) {
        forall i | 0 <= i < |t.content| && t.ext[f].Contains(i) && PieceOf(t, i) in done
          ensures s.disk[i] == t.content[i]
        {
          assert Needed(t, done, open, i);
        }
      }
      assert RecordHolds(t, s, s.saved[j]);
      assert Vouches(t, s, s.saved[j], open, done);
    }
  }

  lemma FoundRecord(t: Torrent, s: State) returns (r: Record)
    requires Inv(t, s) && CrashView(s.fs).Some?
    ensures r.image == CrashView(s.fs).value == Resume.Image(t.pieces, r.pieces) && t.pieces <= Resume.MAX_PIECES
  {
    var j :| 0 <= j < |s.saved| && s.saved[j].image == CrashView(s.fs).value;
    r := s.saved[j];
    assert RecordHolds(t, s, r);
  }

  lemma ListedExist(t: Torrent, s: State, done: set<nat>)
    requires Inv(t, s) && Listed(s, done)
    ensures M.Existing(done, Total(t)) == done
  {
    if CrashView(s.fs).Some? {
      var r := FoundRecord(t, s);
      ListedWereSaved(t, r, done);
    }
  }

  /** What was saved is as true after a crash, and as well known. */
  lemma RecordsOutlive(t: Torrent, s: State, s': State)
    requires Inv(t, s) && CrashLeaves(s.fs, s'.fs) && s'.cache == s'.disk == s.disk && s'.saved == s.saved
    ensures PhaseInv(s'.fs, Start, []) && Known(s', CrashView(s'.fs))
    ensures forall k :: 0 <= k < |s'.saved| ==> RecordHolds(t, s', s'.saved[k])
  {
    forall k | 0 <= k < |s'.saved| ensures RecordHolds(t, s', s'.saved[k]) {
      assert RecordHolds(t, s, s.saved[k]);
    }
    KnownGrows(s, s', CrashView(s.fs));
    assert CrashView(s'.fs) == CrashView(s.fs);
  }

  /** All that a start needs beyond a restart is that the bytes are right. */
  lemma ReopenedInit(t: Torrent, s: State, s': State, done: set<nat>)
    requires Inv(t, s) && Reopens(t, s, s', done) && s'.m.completed == done
    ensures Init(t, s') <==> Holds(t, s.disk, done, s'.open)
  {
    RecordsOutlive(t, s, s');
  }

  /** A restart after a crash at any moment, with any selection, is again a start
      if and only if every file it opens beyond those selected when the record was
      saved has its bytes of the listed pieces. */
  lemma RestartExact(t: Torrent, s: State, s': State, done: set<nat>)
    requires Inv(t, s) && Reopens(t, s, s', done)
    ensures Init(t, s') <==> Vouched(t, s, s'.open, done)
  {
    ListedExist(t, s, done);
    ReopenedInit(t, s, s', done);
    if Vouched(t, s, s'.open, done) {
      VouchedHolds(t, s, s'.open, done);
    }
    if Holds(t, s.disk, done, s'.open) {
      HoldsVouched(t, s, s'.open, done);
    }
  }

  /** So a run may contain any number of crashes. */
  lemma RestartIsStart(t: Torrent, s: State, s': State)
    requires Inv(t, s) && Restart(t, s, s')
    ensures Init(t, s')
  {
    var done :| Reopens(t, s, s', done) && Vouched(t, s, s'.open, done);
    RestartExact(t, s, s', done);
  }

  /** A file that meets none of the listed pieces may always be opened. */
  lemma FarFileMayOpen(t: Torrent, store: seq<byte>, pieces: set<nat>, f: nat)
    requires t.pieceLength > 0 && f < |t.ext| && |store| == |t.content|
    requires forall p :: p in pieces ==> !Meets(t.ext[f], p, t.pieceLength)
    ensures FileHolds(t, store, pieces, f)
  {
    forall i | 0 <= i < |t.content| && t.ext[f].Contains(i) ensures PieceOf(t, i) !in pieces {
      PieceOfRange(t, i, PieceOf(t, i));
      assert Meets(t.ext[f], PieceOf(t, i), t.pieceLength);
    }
  }

  // ----- whole runs -----

  /** One step, or a crash and a restart. */
  ghost predicate Next(t: Torrent, s: State, s': State) { Restart(t, s, s') || exists a :: Step(t, s, a, s') }

  lemma NextInv(t: Torrent, s: State, s': State)
    requires Inv(t, s) && Next(t, s, s')
    ensures Inv(t, s')
  {
    if Restart(t, s, s') {
      RestartIsStart(t, s, s');
      InitInv(t, s');
    } else {
      var a :| Step(t, s, a, s');
      StepInv(t, s, a, s');
    }
  }

  ghost predicate IsRun(t: Torrent, states: seq<State>) {
    && |states| > 0 && Init(t, states[0])
    && forall k, n :: 0 <= k && n == k + 1 && n < |states| ==> Next(t, states[k], states[n])
  }

  lemma {:induction false} RunInv(t: Torrent, states: seq<State>, k: nat)
    requires IsRun(t, states) && k < |states|
    ensures Inv(t, states[k])
  {
    if k == 0 {
      InitInv(t, states[0]);
    } else {
      RunInv(t, states, k - 1);
      NextInv(t, states[k - 1], states[k]);
    }
  }

  lemma RecordSurvives(t: Torrent, s: State, r: Record)
    requires Shapes(t, s) && RecordHolds(t, s, r)
    ensures Resume.Decode(r.image).Binary? && Survives(t, s, Resume.Decode(r.image).state.completed, r.flags)
  {
    Resume.DecodeImage(t.pieces, r.pieces);
    var listed := Resume.Decode(r.image).state.completed;
    forall p, f, i | p in listed && 0 <= f < |t.ext| && r.flags[f] && t.ext[f].Contains(i)
                     && 0 <= i < |t.content| && InPiece(i, p, t.pieceLength)
      ensures s.disk[i] == t.content[i]
    {
      PieceOfRange(t, i, p);
      assert Needed(t, r.pieces, r.flags, i);
    }
  }

  /** Crash safety. Whenever power is lost, in a run with any number of crashes
      before: each record ever saved decodes, and every piece it lists has its
      bytes on stable storage in every file that was selected when it was saved;
      and a resume file found on restart is one of these records. */
  lemma CrashSafety(t: Torrent, states: seq<State>, k: nat)
    requires IsRun(t, states) && k < |states|
    ensures |states[k].disk| == |t.content|
    ensures forall j :: 0 <= j < |states[k].saved| ==>
              && Resume.Decode(states[k].saved[j].image).Binary?
              && Survives(t, states[k], Resume.Decode(states[k].saved[j].image).state.completed,
                          states[k].saved[j].flags)
    ensures CrashView(states[k].fs).Some? ==>
              exists j :: 0 <= j < |states[k].saved| && states[k].saved[j].image == CrashView(states[k].fs).value
  {
    RunInv(t, states, k);
    var s := states[k];
    forall j | 0 <= j < |s.saved|
      ensures Resume.Decode(s.saved[j].image).Binary?
      ensures Survives(t, s, Resume.Decode(s.saved[j].image).state.completed, s.saved[j].flags)
    {
      RecordSurvives(t, s, s.saved[j]);
    }
  }

  /** Stated over pieces, files and bytes rather than through `Holds`. */
  ghost predicate Survives(t: Torrent, s: State, listed: seq<nat>, flags: seq<bool>) {
    && |flags| == |t.ext| && |s.disk| == |t.content|
    && forall p, f, i | p in listed && 0 <= f < |t.ext| && flags[f] && t.ext[f].Contains(i)
                        && 0 <= i < |t.content| && InPiece(i, p, t.pieceLength) :: s.disk[i] == t.content[i]
  }

  /** The coordinator's answer to a block request, between two messages. */
  function Serve(t: Torrent, s: State, index: nat, begin: nat, length: nat): Option<seq<byte>> {
    if s.checking.None? && 0 < length <= MAX_BLOCK_REQUEST && M.IsServable(s.m, index)
       && |s.open| == |t.ext| && index * t.pieceLength + begin + length <= |s.cache|
    then Some(MaskedRead(t.ext, s.open, s.cache, index * t.pieceLength + begin, length))
    else None
  }

  /** A request the session lets through. */
  predicate ValidRequest(t: Torrent, index: nat, begin: nat, length: nat) {
    && 0 < length <= MAX_BLOCK_REQUEST
    && var len := OfSession(index, t.pieceLength, Some(|t.content|));
       len.Some? && begin + length <= len.value
  }

  lemma ServedByteIsRight(t: Torrent, s: State, index: nat, i: nat)
    requires Inv(t, s) && s.pc.Idle? && M.IsServable(s.m, index)
    requires PieceStart(t, index) <= i < PieceEnd(t, index)
    ensures Stored(t.ext, s.open, i) && s.cache[i] == t.content[i]
  {
    var f := Owner(t.ext, i);
    PieceOfRange(t, i, index);
    assert Meets(t.ext[f], index, t.pieceLength);
    assert !MeetsFlagged(t.ext, s.open, false, index, t.pieceLength);
    assert s.open[f];
    assert Needed(t, s.m.completed, s.open, i);
  }

  lemma ReadsContent(t: Torrent, s: State, off: nat, length: nat)
    requires |s.open| == |t.ext| && off + length <= |s.cache| == |t.content|
    requires forall i :: off <= i < off + length ==> Stored(t.ext, s.open, i) && s.cache[i] == t.content[i]
    ensures MaskedRead(t.ext, s.open, s.cache, off, length) == t.content[off..off + length]
  {
  }

  lemma ServedBlock(t: Torrent, s: State, index: nat, off: nat, length: nat)
    requires Inv(t, s) && s.pc.Idle? && M.IsServable(s.m, index)
    requires PieceStart(t, index) <= off && off + length <= PieceEnd(t, index)
    ensures MaskedRead(t.ext, s.open, s.cache, off, length) == t.content[off..off + length]
  {
    forall i | off <= i < off + length ensures Stored(t.ext, s.open, i) && s.cache[i] == t.content[i] {
      ServedByteIsRight(t, s, index, i);
    }
    ReadsContent(t, s, off, length);
  }

  lemma RequestInPiece(t: Torrent, index: nat, begin: nat, length: nat, off: nat)
    requires WellFormed(t) && ValidRequest(t, index, begin, length) && off == index * t.pieceLength + begin
    ensures PieceStart(t, index) <= off && off + length <= PieceEnd(t, index) <= |t.content|
  {
    LengthsAgree(index, t.pieceLength, Total(t), |t.content|);
  }

  /** `Serve` with the offset of the block already computed. */
  lemma ServeAt(t: Torrent, s: State, index: nat, begin: nat, length: nat, off: nat)
    requires Inv(t, s) && s.pc.Idle? && ValidRequest(t, index, begin, length) && off == index * t.pieceLength + begin
    ensures off + length <= |t.content|
    ensures Serve(t, s, index, begin, length)
            == if s.checking.None? && M.IsServable(s.m, index) then Some(t.content[off..off + length]) else None
  {
    RequestInPiece(t, index, begin, length, off);
    if M.IsServable(s.m, index) {
      ServedBlock(t, s, index, off, length);
    }
  }

  /** The coordinator may answer for a piece: it is completed, and no file that it
      meets is closed. */
  ghost predicate Answerable(t: Torrent, s: State, index: nat) {
    index in s.m.completed && !MeetsFlagged(t.ext, s.open, false, index, t.pieceLength)
  }

  lemma ServableIsAnswerable(t: Torrent, s: State, index: nat)
    requires Inv(t, s) && s.pc.Idle?
    ensures M.IsServable(s.m, index) <==> Answerable(t, s, index)
  {
  }

  /** Serving is correct across any sequence of selection changes: a valid request
      is answered if and only if the file check is over, the piece is completed and
      none of the files it meets is closed; and the block sent is exactly that
      slice of the torrent. */
  lemma ServingCorrect(t: Torrent, states: seq<State>, k: nat, index: nat, begin: nat, length: nat, off: nat)
    requires IsRun(t, states) && k < |states| && states[k].pc.Idle?
    requires ValidRequest(t, index, begin, length) && off == index * t.pieceLength + begin
    ensures off + length <= |t.content|
    ensures Serve(t, states[k], index, begin, length)
            == if states[k].checking.None? && Answerable(t, states[k], index)
               then Some(t.content[off..off + length]) else None
  {
    RunInv(t, states, k);
    ServeAt(t, states[k], index, begin, length, off);
    ServableIsAnswerable(t, states[k], index);
  }
}
