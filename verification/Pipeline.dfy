/** The coordinator with its scheduler, disk and resume file as one state
    machine (src/core/coordinator.rs with manager.rs, disk.rs, resume.rs and
    fsutil.rs). Every disk effect is a step of its own, so a crash may fall
    between any two of them. */
module Pipeline {
  import opened Common
  import opened Layout
  import opened Disk
  import opened Selections
  import opened Fsutil
  import opened PieceLength
  import M = Manager
  import Resume

  const MAX_BLOCK_REQUEST: nat := 32 * 1024

  /** What the metadata fixes: the content, the file layout and the piece size. */
  datatype Torrent = Torrent(content: seq<byte>, ext: seq<Extent>, pieceLength: nat, pieces: bv32)

  ghost predicate WellFormed(t: Torrent) {
    && Tiles(t.ext) && End(t.ext) == |t.content|
    && Accepted(t.pieceLength, |t.content|, t.pieces as nat)
    && t.pieces <= Resume.MAX_PIECES
  }

  function Total(t: Torrent): nat { t.pieces as nat }

  function PieceOf(t: Torrent, i: nat): nat
    requires t.pieceLength > 0
  {
    i / t.pieceLength
  }

  function PieceStart(t: Torrent, p: nat): nat { p * t.pieceLength }
  function PieceEnd(t: Torrent, p: nat): nat { Min(|t.content|, p * t.pieceLength + t.pieceLength) }

  /** A saved resume file, with the files that were selected when it was written. */
  datatype Record = Record(image: seq<bv8>, pieces: set<nat>, flags: seq<bool>)

  datatype Pc =
    | Idle
    | Writing(piece: nat, at: nat)
    | Flushing
    | Saving(phase: Phase, record: Record)
    | Switching(before: seq<bool>, after: seq<bool>, next: nat)

  datatype State = State(
    checking: Option<nat>,   // next piece of the file check, if it is still running
    m: M.State,
    open: seq<bool>,
    dirty: seq<bool>,
    cache: seq<byte>,        // what reads see
    disk: seq<byte>,         // what a crash leaves
    fs: Fs,
    pc: Pc,
    saved: seq<Record>)

  // ----- what is needed of which byte -----

  /** Byte `i` lies in one of `pieces` and in a flagged file. */
  predicate Needed(t: Torrent, pieces: set<nat>, flags: seq<bool>, i: nat)
    requires t.pieceLength > 0 && |flags| == |t.ext|
  {
    PieceOf(t, i) in pieces && Stored(t.ext, flags, i)
  }

  ghost predicate Holds(t: Torrent, store: seq<byte>, pieces: set<nat>, flags: seq<bool>)
    requires t.pieceLength > 0 && |flags| == |t.ext| && |store| == |t.content|
  {
    forall i :: 0 <= i < |t.content| && Needed(t, pieces, flags, i) ==> store[i] == t.content[i]
  }

  /** The files whose bytes the completed pieces are known to have: during a
      selection change only those selected before and still open. */
  function Trusted(s: State): seq<bool> {
    if s.pc.Switching? && |s.pc.before| == |s.open|
    then seq(|s.open|, f requires 0 <= f < |s.open| => s.pc.before[f] && s.open[f])
    else s.open
  }

  ghost predicate SelMatches(t: Torrent, sel: M.Sel, flags: seq<bool>) {
    forall p: nat :: p < Total(t) ==>
      && (p in sel.wanted <==> MeetsFlagged(t.ext, flags, true, p, t.pieceLength))
      && (p in sel.unservable <==> MeetsFlagged(t.ext, flags, false, p, t.pieceLength))
  }

  ghost predicate RecordHolds(t: Torrent, s: State, r: Record)
    requires t.pieceLength > 0 && |s.cache| == |s.disk| == |t.content|
  {
    && r.image == Resume.Image(t.pieces, r.pieces)
    && |r.flags| == |t.ext|
    && Holds(t, s.cache, r.pieces, r.flags)
    && Holds(t, s.disk, r.pieces, r.flags)
  }

  // ----- steps -----

  /** `[lo, hi)` of `store` replaced by the same range of `src`. */
  function Copied(store: seq<byte>, src: seq<byte>, lo: nat, hi: nat): (r: seq<byte>)
    requires |src| == |store|
    ensures |r| == |store|
  {
    seq(|store|, i requires 0 <= i < |store| => if lo <= i < hi then src[i] else store[i])
  }

  datatype Action =
    | CheckPiece(verified: bool)
    | EndCheck
    | SchedulerOp(op: M.Op)
    | BeginWrite(piece: nat)
    | WriteChunk(file: nat)
    | WriteError(file: nat, upTo: nat)
    | EndWrite
    | FlushFile(file: nat)
    | FlushError
    | BeginSave
    | SaveEffect
    | BeginSwitch(after: seq<bool>)
    | SwitchFile
    | EndSwitch(sel: M.Sel, refetch: set<nat>)
    | Shutdown
    | WriteBack
    | FsBackground

  ghost predicate CheckStep(t: Torrent, s: State, verified: bool, s': State) {
    && s.checking.Some? && s.checking.value < Total(t) && s.pc.Idle?
    && var p := s.checking.value;
       var lo, hi := PieceStart(t, p), PieceEnd(t, p);
       && s' == s.(checking := Some(p + 1), m := if verified then M.MarkCompleted(s.m, p) else s.m)
       && (verified ==>
             && p in s.m.sel.wanted && lo <= hi && hi <= |s.cache| && hi <= |t.content| && |s.open| == |t.ext|
             && MaskedRead(t.ext, s.open, s.cache, lo, hi - lo) == t.content[lo..hi])
  }

  /** One turn of `write_piece`: the part of the piece that lies in `file`. */
  ghost predicate ChunkStep(t: Torrent, s: State, f: nat, s': State) {
    && s.pc.Writing? && f < |t.ext| && t.ext[f].Contains(s.pc.at) && s.pc.at < PieceEnd(t, s.pc.piece)
    && |s.open| == |t.ext| && |s.dirty| == |t.ext| && |s.cache| == |t.content|
    && var hi := Min(PieceEnd(t, s.pc.piece), t.ext[f].end);
       if s.open[f]
       then s' == s.(cache := Copied(s.cache, t.content, s.pc.at, hi), dirty := s.dirty[f := true],
                     pc := Writing(s.pc.piece, hi))
       else s' == s.(pc := Writing(s.pc.piece, hi))
  }

  /** A failing write may have stored any part of its chunk, without marking the file. */
  ghost predicate WriteErrorStep(t: Torrent, s: State, f: nat, upTo: nat, s': State) {
    && s.pc.Writing? && f < |t.ext| && t.ext[f].Contains(s.pc.at) && |s.open| == |t.ext| && s.open[f]
    && upTo <= Min(PieceEnd(t, s.pc.piece), t.ext[f].end) && |s.cache| == |t.content|
    && s' == s.(cache := Copied(s.cache, t.content, s.pc.at, upTo), m := M.ReturnWork(s.m, s.pc.piece), pc := Idle)
  }

  ghost predicate EndWriteStep(t: Torrent, s: State, s': State) {
    && s.pc.Writing? && s.pc.at == PieceEnd(t, s.pc.piece)
    && var m' := M.MarkCompleted(s.m, s.pc.piece);
       s' == s.(m := m', pc := Flushing) || (!M.IsDone(m') && s' == s.(m := m', pc := Idle))
  }

  ghost predicate FlushFileStep(t: Torrent, s: State, f: nat, s': State) {
    && s.pc.Flushing? && f < |t.ext| && |s.dirty| == |t.ext| && s.dirty[f] && |s.cache| == |s.disk|
    && s' == s.(disk := Copied(s.disk, s.cache, t.ext[f].start, t.ext[f].end), dirty := s.dirty[f := false])
  }

  ghost predicate SaveEffectStep(t: Torrent, s: State, s': State) {
    && s.pc.Saving?
    && exists fs', ph' ::
         && (SaveStep(s.fs, s.pc.phase, s.pc.record.image, fs', ph') || FailStep(s.fs, s.pc.phase, fs', ph'))
         && s' == s.(fs := fs',
                     saved := if ph'.Renamed? then s.saved + [s.pc.record] else s.saved,
                     pc := if ph'.Renamed? || ph'.Failed? then Idle else Saving(ph', s.pc.record))
  }

  /** One turn of `set_selection`; a file that is released is synced first. */
  ghost predicate SwitchFileStep(t: Torrent, s: State, s': State) {
    && s.pc.Switching? && s.pc.next < |t.ext| == |s.open| == |s.dirty| == |s.pc.after| && |s.cache| == |s.disk|
    && var f, keep := s.pc.next, s.pc.after[s.pc.next];
       var pc' := s.pc.(next := f + 1);
       if keep then s' == s.(open := s.open[f := true], pc := pc')
       else if s.open[f] then
         s' == s.(disk := Copied(s.disk, s.cache, t.ext[f].start, t.ext[f].end),
                  dirty := s.dirty[f := false], open := s.open[f := false], pc := pc')
       else s' == s.(pc := pc')
  }

  /** Every piece that meets a newly selected file is in the refetch set. */
  ghost predicate CoversNew(t: Torrent, before: seq<bool>, after: seq<bool>, refetch: set<nat>) {
    forall p: nat :: p < Total(t) && MeetsFlagged(t.ext, NewlySelected(before, after), true, p, t.pieceLength) ==>
      p in refetch
  }

  /** The scheduler learns of the new selection; `refetch` comes from the flags that were in force. */
  ghost predicate EndSwitchStep(t: Torrent, s: State, sel: M.Sel, refetch: set<nat>, s': State) {
    && s.pc.Switching? && s.pc.next == |t.ext|
    && SelMatches(t, sel, s.pc.after)
    && CoversNew(t, s.pc.before, s.pc.after, refetch)
    && s' == s.(m := M.ApplySelection(s.m, sel, refetch), pc := if s.checking.Some? then Idle else Flushing)
  }

  ghost predicate Step(t: Torrent, s: State, a: Action, s': State) {
    match a
    case CheckPiece(verified) => CheckStep(t, s, verified, s')
    case EndCheck => s.checking.Some? && s.checking.value >= Total(t) && s.pc.Idle? && s' == s.(checking := None)
    case SchedulerOp(op) =>
      && s.pc.Idle? && !op.MarkCompletedOp? && !op.ApplySelectionOp?
      && exists m' :: M.Step(s.m, op, m') && s' == s.(m := m')
    case BeginWrite(p) =>
      && s.checking.None? && s.pc.Idle? && p < Total(t) && p !in s.m.completed
      && s' == s.(pc := Writing(p, PieceStart(t, p)))
    case WriteChunk(f) => ChunkStep(t, s, f, s')
    case WriteError(f, upTo) => WriteErrorStep(t, s, f, upTo, s')
    case EndWrite => EndWriteStep(t, s, s')
    case FlushFile(f) => FlushFileStep(t, s, f, s')
    case FlushError => s.pc.Flushing? && s' == s.(pc := Idle)
    case BeginSave =>
      && s.pc.Flushing? && (forall f :: 0 <= f < |s.dirty| ==> !s.dirty[f])
      && s' == s.(pc := Saving(Start, Record(Resume.Image(t.pieces, s.m.completed), s.m.completed, s.open)))
    case SaveEffect => SaveEffectStep(t, s, s')
    case BeginSwitch(after) => s.pc.Idle? && |after| == |t.ext| && s' == s.(pc := Switching(s.open, after, 0))
    case SwitchFile => SwitchFileStep(t, s, s')
    case EndSwitch(sel, refetch) => EndSwitchStep(t, s, sel, refetch, s')
    case Shutdown => s.checking.None? && s.pc.Idle? && s' == s.(pc := Flushing)
    case WriteBack =>
      && |s'.disk| == |s.disk| == |s.cache|
      && (forall i :: 0 <= i < |s.disk| ==> s'.disk[i] == s.disk[i] || s'.disk[i] == s.cache[i])
      && s' == s.(disk := s'.disk)
    case FsBackground => Background(s.fs, s'.fs) && s' == s.(fs := s'.fs)
  }

  // ----- the invariant -----

  ghost predicate Shapes(t: Torrent, s: State) {
    && WellFormed(t)
    && |s.open| == |s.dirty| == |t.ext|
    && |s.cache| == |s.disk| == |t.content|
    && (forall f :: 0 <= f < |t.ext| && s.dirty[f] ==> s.open[f])
    && M.Inv(s.m) && s.m.total == Total(t)
    && (s.pc.Switching? ==>
          && |s.pc.before| == |s.pc.after| == |t.ext| && s.pc.next <= |t.ext|
          && (forall f :: 0 <= f < s.pc.next ==> s.open[f] == s.pc.after[f])
          && (forall f :: s.pc.next <= f < |t.ext| ==> s.open[f] == s.pc.before[f]))
  }

  /** Bytes of completed pieces are right in the cache, and on disk unless the file is dirty. */
  ghost predicate DataOk(t: Torrent, s: State)
    requires Shapes(t, s)
  {
    && Holds(t, s.cache, s.m.completed, Trusted(s))
    && (forall i :: 0 <= i < |t.content| && Needed(t, s.m.completed, Trusted(s), i) ==>
          s.disk[i] == t.content[i] || Stored(t.ext, s.dirty, i))
  }

  ghost predicate PcOk(t: Torrent, s: State)
    requires Shapes(t, s)
  {
    match s.pc
    case Idle => true
    case Flushing => s.checking.None?
    case Writing(p, at) =>
      && s.checking.None? && p < Total(t) && PieceStart(t, p) <= at <= PieceEnd(t, p)
      && (forall i :: PieceStart(t, p) <= i < at && Stored(t.ext, s.open, i) ==>
            s.cache[i] == t.content[i] && Stored(t.ext, s.dirty, i))
    case Saving(ph, r) => s.checking.None? && !ph.Renamed? && !ph.Failed? && RecordHolds(t, s, r)
    case Switching(_, _, _) => true
  }

  ghost predicate FilesOk(t: Torrent, s: State)
    requires Shapes(t, s)
  {
    && PhaseInv(s.fs, if s.pc.Saving? then s.pc.phase else Start, if s.pc.Saving? then s.pc.record.image else [])
    && (forall k :: 0 <= k < |s.saved| ==> RecordHolds(t, s, s.saved[k]))
    && Known(s, CrashView(s.fs)) && Known(s, Contents(s.fs, s.fs.path))
  }

  /** File contents that some completed save produced (or no file). */
  ghost predicate Known(s: State, c: Option<seq<bv8>>) {
    c.Some? ==> exists k :: 0 <= k < |s.saved| && s.saved[k].image == c.value
  }

  ghost predicate Inv(t: Torrent, s: State) {
    && Shapes(t, s)
    && SelMatches(t, s.m.sel, if s.pc.Switching? then s.pc.before else s.open)
    && (s.checking.Some? ==> s.cache == s.disk)
    && DataOk(t, s) && PcOk(t, s) && FilesOk(t, s)
  }

  /** Start of a run: caches are clean, the restored pieces are right for the
      selected files, and so is the resume file that is already there. */
  ghost predicate Init(t: Torrent, s: State) {
    && WellFormed(t)
    && |s.open| == |s.dirty| == |t.ext| && |s.cache| == |t.content| && s.disk == s.cache
    && (forall f :: 0 <= f < |t.ext| ==> !s.dirty[f])
    && (exists done, sel :: s.m == M.WithSelection(Total(t), done, sel))
    && SelMatches(t, s.m.sel, s.open)
    && s.pc.Idle?
    && Holds(t, s.cache, s.m.completed, s.open)
    && PhaseInv(s.fs, Start, []) && s.fs.durablePath == s.fs.path
    && (forall k :: 0 <= k < |s.saved| ==> RecordHolds(t, s, s.saved[k]))
    && Known(s, CrashView(s.fs))
  }

  // ----- crash and restart -----

  /** The pieces a restart takes from the resume file it finds. */
  ghost predicate Listed(s: State, done: set<nat>) {
    var found := CrashView(s.fs);
    if found.None? then done == {}
    else
      && Resume.Decode(found.value).Binary?
      && done == (set p | p in Resume.Decode(found.value).state.completed)
  }

  /** Power is lost in `s` and the program starts again in `s'`, with any selection. */
  ghost predicate Reopens(t: Torrent, s: State, s': State, done: set<nat>) {
    && CrashLeaves(s.fs, s'.fs) && s'.cache == s'.disk == s.disk && s'.saved == s.saved && s'.pc.Idle?
    && |s'.open| == |s'.dirty| == |t.ext| && (forall f :: 0 <= f < |t.ext| ==> !s'.dirty[f])
    && Listed(s, done) && (exists sel :: s'.m == M.WithSelection(Total(t), done, sel))
    && SelMatches(t, s'.m.sel, s'.open)
  }

  /** File `f` has the torrent's bytes wherever it meets one of `pieces`. */
  ghost predicate FileHolds(t: Torrent, store: seq<byte>, pieces: set<nat>, f: nat)
    requires t.pieceLength > 0 && f < |t.ext| && |store| == |t.content|
  {
    forall i :: 0 <= i < |t.content| && t.ext[f].Contains(i) && PieceOf(t, i) in pieces ==> store[i] == t.content[i]
  }

  /** Some record equal to the file found vouches for every open file, except
      those that have their bytes of the listed pieces all the same. */
  ghost predicate Vouched(t: Torrent, s: State, open: seq<bool>, done: set<nat>)
    requires t.pieceLength > 0 && |open| == |t.ext| && |s.disk| == |t.content|
  {
    CrashView(s.fs).Some? ==>
      exists j :: 0 <= j < |s.saved| && s.saved[j].image == CrashView(s.fs).value
                  && Vouches(t, s, s.saved[j], open, done)
  }

  ghost predicate Vouches(t: Torrent, s: State, r: Record, open: seq<bool>, done: set<nat>)
    requires t.pieceLength > 0 && |open| == |t.ext| && |s.disk| == |t.content|
  {
    |r.flags| == |t.ext| && forall f :: 0 <= f < |t.ext| && open[f] && !r.flags[f] ==> FileHolds(t, s.disk, done, f)
  }

  ghost predicate Restart(t: Torrent, s: State, s': State) {
    && t.pieceLength > 0 && |s.disk| == |t.content| && |s'.open| == |t.ext|
    && exists done :: Reopens(t, s, s', done) && Vouched(t, s, s'.open, done)
  }
}
