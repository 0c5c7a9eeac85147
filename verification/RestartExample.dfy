/** A restart that opens a file which was not selected when the resume record was
    saved, and serves zeros for a piece the record lists. */
module RestartExample {
  import opened Common
  import opened Layout
  import opened Disk
  import opened Selections
  import opened Fsutil
  import opened PieceLength
  import opened Pipeline
  import opened PipelineSafety
  import M = Manager
  import Resume

  /** Two files of one byte, one piece over both; the first file is selected. */
  function SmallTorrent(): Torrent { Torrent([1, 1], [Extent(0, 1), Extent(1, 2)], 2, 1) }

  function SmallState(m: M.State, open: seq<bool>, image: seq<bv8>): State {
    State(None, m, open, [false, false], [1, 0], [1, 0],
          Fs([Inode(image, image, true)], Some(0), None, Some(0)), Idle,
          [Record(image, {0}, [true, false])])
  }

  /** The scheduler with its one piece completed. */
  function SmallManager(sel: M.Sel): M.State { M.WithSelection(Total(SmallTorrent()), {0}, sel) }

  lemma SmallWellFormed()
    ensures WellFormed(SmallTorrent()) && Total(SmallTorrent()) == 1
  {
  }

  lemma SmallMeets(f: nat)
    requires f < 2
    ensures Meets(SmallTorrent().ext[f], 0, 2)
  {
    assert SmallTorrent().ext[f].Contains(f) && InPiece(f, 0, 2);
  }

  lemma SmallSelections()
    ensures SelMatches(SmallTorrent(), M.Sel({0}, {0}), [true, false])
    ensures SelMatches(SmallTorrent(), M.Sel({0}, {}), [true, true])
  {
    SmallWellFormed();
    SmallMeets(0);
    SmallMeets(1);
    assert MeetsFlagged(SmallTorrent().ext, [true, false], true, 0, 2);
    assert MeetsFlagged(SmallTorrent().ext, [true, false], false, 0, 2);
    assert MeetsFlagged(SmallTorrent().ext, [true, true], true, 0, 2);
  }

  lemma SmallRecord(s: State, image: seq<bv8>)
    requires image == Resume.Image(1, {0})
    requires s == SmallState(SmallManager(M.Sel({0}, {0})), [true, false], image)
    ensures Holds(SmallTorrent(), s.cache, {0}, [true, false]) && RecordHolds(SmallTorrent(), s, s.saved[0])
  {
    SmallWellFormed();
  }

  lemma SmallFile(s: State, image: seq<bv8>)
    requires s == SmallState(SmallManager(M.Sel({0}, {0})), [true, false], image)
    ensures PhaseInv(s.fs, Start, []) && Known(s, CrashView(s.fs)) && s.m.completed == {0}
  {
    assert s.saved[0].image == CrashView(s.fs).value;
  }

  lemma SmallInit(s: State, image: seq<bv8>)
    requires image == Resume.Image(1, {0})
    requires s == SmallState(SmallManager(M.Sel({0}, {0})), [true, false], image)
    ensures Init(SmallTorrent(), s)
  {
    SmallWellFormed();
    SmallSelections();
    SmallRecord(s, image);
    SmallFile(s, image);
  }

  lemma SmallListed(s: State, image: seq<bv8>)
    requires image == Resume.Image(1, {0})
    requires s == SmallState(SmallManager(M.Sel({0}, {0})), [true, false], image)
    ensures Listed(s, {0})
  {
    Resume.DecodeImage(1, {0});
    assert (set p | p in Resume.Decode(image).state.completed) == {0};
  }

  lemma SmallReopens(s: State, s': State, image: seq<bv8>, m: M.State)
    requires s.fs == s'.fs == Fs([Inode(image, image, true)], Some(0), None, Some(0)) && s'.saved == s.saved
    requires m == SmallManager(M.Sel({0}, {})) && s' == SmallState(m, [true, true], image) && s.disk == s'.disk
    requires Listed(s, {0})
    ensures Reopens(SmallTorrent(), s, s', {0})
  {
    SmallSelections();
  }

  /** A valid request is answered with other bytes than the torrent's. */
  ghost predicate WrongAnswer(t: Torrent, s: State, index: nat, begin: nat, length: nat, off: nat, block: seq<byte>) {
    && ValidRequest(t, index, begin, length) && off == index * t.pieceLength + begin
    && Serve(t, s, index, begin, length) == Some(block) && off + length <= |t.content|
    && block != t.content[off..off + length]
  }

  ghost predicate ServesWrong(t: Torrent, s: State) {
    exists index: nat, begin: nat, length: nat, off: nat, block :: WrongAnswer(t, s, index, begin, length, off, block)
  }

  lemma SmallServes(t: Torrent, s': State, image: seq<bv8>, off: nat, block: seq<byte>)
    requires t == SmallTorrent() && s' == SmallState(SmallManager(M.Sel({0}, {})), [true, true], image)
    requires off == 0 && block == [1, 0]
    ensures ServesWrong(t, s')
  {
    assert t.ext[0].Contains(0) && t.ext[1].Contains(1);
    assert MaskedRead(t.ext, s'.open, s'.cache, 0, 2) == block;
    assert t.content[off..off + 2][1] == 1;
    assert WrongAnswer(t, s', 0, 0, 2, off, block);
  }

  /** Opening one file more than was selected when the record was saved, from a
      proper start: a piece listed as completed is served with a zero where that
      file has nothing. */
  lemma WiderRestartServesZeros()
    ensures exists t, s, s', done :: Init(t, s) && Reopens(t, s, s', done) && ServesWrong(t, s')
  {
    var image := Resume.Image(1, {0});
    var s := SmallState(SmallManager(M.Sel({0}, {0})), [true, false], image);
    var s' := SmallState(SmallManager(M.Sel({0}, {})), [true, true], image);
    SmallInit(s, image);
    SmallListed(s, image);
    SmallReopens(s, s', image, SmallManager(M.Sel({0}, {})));
    SmallServes(SmallTorrent(), s', image, 0, [1, 0]);
  }
}
