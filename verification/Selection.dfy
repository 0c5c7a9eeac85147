/** Which pieces the chosen files need and which finished pieces are not fully
    stored (src/core/selection.rs). */
module Selections {
  import opened Common
  import opened Layout
  import opened Bitfields

  /** Byte `i` belongs to piece `p`. */
  predicate InPiece(i: int, p: nat, pieceLength: nat) {
    p * pieceLength <= i < p * pieceLength + pieceLength
  }

  /** The byte interval of piece `p` and the extent have a byte in common. */
  ghost predicate Meets(e: Extent, p: nat, pieceLength: nat) {
    exists i :: e.Contains(i) && InPiece(i, p, pieceLength)
  }

  /** Piece `p` meets a file among the first `|flags|` whose flag has the given value. */
  ghost predicate MeetsFlagged(ext: seq<Extent>, flags: seq<bool>, value: bool, p: nat, pieceLength: nat) {
    exists f :: 0 <= f < |ext| && f < |flags| && flags[f] == value && Meets(ext[f], p, pieceLength)
  }

  lemma MulMono(a: nat, b: nat, d: nat)
    requires a <= b
    ensures a * d <= b * d
  {
  }

  /** A byte lies in one piece only. */
  lemma PiecesDisjoint(i: int, p: nat, q: nat, pieceLength: nat)
    requires InPiece(i, p, pieceLength) && InPiece(i, q, pieceLength)
    ensures p == q
  {
    if p < q {
      MulMono(p + 1, q, pieceLength);
    } else if q < p {
      MulMono(q + 1, p, pieceLength);
    }
  }

  lemma InPieceOf(i: nat, pieceLength: nat)
    requires pieceLength > 0
    ensures InPiece(i, i / pieceLength, pieceLength)
  {
  }

  lemma DivMono(a: nat, b: nat, d: nat)
    requires d > 0 && a <= b
    ensures a / d <= b / d
  {
    InPieceOf(a, d);
    InPieceOf(b, d);
    if a / d > b / d {
      MulMono(b / d + 1, a / d, d);
    }
  }

  lemma MeetsInRange(e: Extent, p: nat, pieceLength: nat)
    requires pieceLength > 0 && e.start < e.end && Meets(e, p, pieceLength)
    ensures e.start / pieceLength <= p <= (e.end - 1) / pieceLength
  {
    var i :| e.Contains(i) && InPiece(i, p, pieceLength);
    InPieceOf(i, pieceLength);
    PiecesDisjoint(i, p, i / pieceLength, pieceLength);
    DivMono(e.start, i, pieceLength);
    DivMono(i, e.end - 1, pieceLength);
  }

  lemma RangeMeets(e: Extent, p: nat, pieceLength: nat, first: nat, last: nat)
    requires pieceLength > 0 && e.start < e.end && first <= p <= last
    requires InPiece(e.start, first, pieceLength) && InPiece(e.end - 1, last, pieceLength)
    ensures Meets(e, p, pieceLength)
  {
    if p == first {
      assert e.Contains(e.start);
    } else {
      MulMono(first + 1, p, pieceLength);
      MulMono(p, last, pieceLength);
      assert e.Contains(p * pieceLength) && InPiece(p * pieceLength, p, pieceLength);
    }
  }

  /** A nonempty extent meets exactly the pieces from that of its first byte to that of its last. */
  lemma MeetsRange(e: Extent, p: nat, pieceLength: nat)
    requires pieceLength > 0 && e.start < e.end
    ensures Meets(e, p, pieceLength) <==> e.start / pieceLength <= p <= (e.end - 1) / pieceLength
  {
    if Meets(e, p, pieceLength) {
      MeetsInRange(e, p, pieceLength);
    }
    if e.start / pieceLength <= p <= (e.end - 1) / pieceLength {
      InPieceOf(e.start, pieceLength);
      InPieceOf(e.end - 1, pieceLength);
      RangeMeets(e, p, pieceLength, e.start / pieceLength, (e.end - 1) / pieceLength);
    }
  }

  datatype Selection = Selection(wanted: Bits, unservable: Bits)

  lemma FlaggedStep(ext: seq<Extent>, flags: seq<bool>, value: bool, p: nat, pieceLength: nat, k: nat)
    requires k < |ext| && k < |flags|
    ensures MeetsFlagged(ext[..k + 1], flags, value, p, pieceLength)
            <==> (MeetsFlagged(ext[..k], flags, value, p, pieceLength)
                  || (flags[k] == value && Meets(ext[k], p, pieceLength)))
  {
    if MeetsFlagged(ext[..k], flags, value, p, pieceLength) {
      var f :| 0 <= f < k && flags[f] == value && Meets(ext[..k][f], p, pieceLength);
      assert ext[..k + 1][f] == ext[f];
    }
    if flags[k] == value && Meets(ext[k], p, pieceLength) {
      assert ext[..k + 1][k] == ext[k];
    }
    if MeetsFlagged(ext[..k + 1], flags, value, p, pieceLength) {
      var f :| 0 <= f < k + 1 && f < |flags| && flags[f] == value && Meets(ext[..k + 1][f], p, pieceLength);
      if f < k {
        assert ext[..k][f] == ext[f];
      }
    }
  }

  /** Adds the pieces met by the nonempty file `[offset, offset + length)`: the
      inner loop shared by `from_files` and `pieces_of_files`. */
  method AddPieces(b: Bits, offset: nat, length: nat, pieceLength: nat) returns (r: Bits)
    requires Clean(b) && pieceLength > 0 && length > 0
    ensures Clean(r) && r.len == b.len
    ensures forall p: nat ::
              p in Ones(r) <==> p in Ones(b) || (p < b.len && Meets(Extent(offset, offset + length), p, pieceLength))
  {
    var first := offset / pieceLength;
    var last := (offset + length - 1) / pieceLength;
    var top := Min(last, if b.len == 0 then 0 else b.len - 1);
    r := b;
    var piece := first;
    while piece <= top
      invariant first <= piece
      invariant Clean(r) && r.len == b.len
      invariant forall p: nat :: p in Ones(r) <==> p in Ones(b) || (p < b.len && first <= p < piece && p <= top)
    {
      SetBitAdds(r, piece);
      r := SetBit(r, piece);
      piece := piece + 1;
    }
    forall p: nat
      ensures p in Ones(r) <==> p in Ones(b) || (p < b.len && Meets(Extent(offset, offset + length), p, pieceLength))
    {
      MeetsRange(Extent(offset, offset + length), p, pieceLength);
    }
  }

  /** `pieces_of_files` and each half of `from_files` compute exactly this. */
  ghost predicate IsPiecesOf(b: Bits, ext: seq<Extent>, flags: seq<bool>, value: bool, pieceLength: nat, total: nat) {
    && Clean(b) && b.len == total
    && forall p: nat :: p in Ones(b) <==> p < total && MeetsFlagged(ext, flags, value, p, pieceLength)
  }

  lemma FlaggedFrom(ext: seq<Extent>, flags: seq<bool>, value: bool, p: nat, pieceLength: nat, k: nat)
    requires k == |ext| || k == |flags|
    requires k <= |ext| && k <= |flags|
    ensures MeetsFlagged(ext[..k], flags, value, p, pieceLength) <==> MeetsFlagged(ext, flags, value, p, pieceLength)
  {
    if MeetsFlagged(ext, flags, value, p, pieceLength) {
      var f :| 0 <= f < |ext| && f < |flags| && flags[f] == value && Meets(ext[f], p, pieceLength);
      assert ext[..k][f] == ext[f];
    }
  }

  /** `piece_length` is raised to at least 1, as the source does. */
  method FromFiles(lengths: seq<nat>, flags: seq<bool>, pieceLength: nat, total: nat) returns (s: Selection)
    ensures IsPiecesOf(s.wanted, Plan(lengths), flags, true, if pieceLength == 0 then 1 else pieceLength, total)
    ensures IsPiecesOf(s.unservable, Plan(lengths), flags, false, if pieceLength == 0 then 1 else pieceLength, total)
  {
    var pl := if pieceLength == 0 then 1 else pieceLength;
    var wanted, unservable := Empty(total), Empty(total);
    ghost var ext := Plan(lengths);
    PlanTiles(lengths);
    var offset := 0;
    var k := 0;
    while k < |lengths| && k < |flags|
      invariant 0 <= k <= |lengths| && k <= |flags|
      invariant offset == End(ext[..k])
      invariant IsPiecesOf(wanted, ext[..k], flags, true, pl, total)
      invariant IsPiecesOf(unservable, ext[..k], flags, false, pl, total)
      decreases |lengths| - k
    {
      if k > 0 {
        assert ext[k - 1].end == ext[k].start;
      }
      assert ext[k] == Extent(offset, offset + lengths[k]);
      forall p: nat
        ensures MeetsFlagged(ext[..k + 1], flags, true, p, pl)
                <==> MeetsFlagged(ext[..k], flags, true, p, pl) || (flags[k] && Meets(ext[k], p, pl))
        ensures MeetsFlagged(ext[..k + 1], flags, false, p, pl)
                <==> MeetsFlagged(ext[..k], flags, false, p, pl) || (!flags[k] && Meets(ext[k], p, pl))
      {
        FlaggedStep(ext, flags, true, p, pl, k);
        FlaggedStep(ext, flags, false, p, pl, k);
      }
      if lengths[k] > 0 {
        if flags[k] {
          wanted := AddPieces(wanted, offset, lengths[k], pl);
        } else {
          unservable := AddPieces(unservable, offset, lengths[k], pl);
        }
      }
      offset := offset + lengths[k];
      k := k + 1;
    }
    forall p: nat, v: bool
      ensures MeetsFlagged(ext[..k], flags, v, p, pl) <==> MeetsFlagged(ext, flags, v, p, pl)
    {
      FlaggedFrom(ext, flags, v, p, pl, k);
    }
    s := Selection(wanted, unservable);
  }

  method PiecesOfFiles(lengths: seq<nat>, flags: seq<bool>, pieceLength: nat, total: nat) returns (pieces: Bits)
    ensures IsPiecesOf(pieces, Plan(lengths), flags, true, if pieceLength == 0 then 1 else pieceLength, total)
  {
    var pl := if pieceLength == 0 then 1 else pieceLength;
    pieces := Empty(total);
    ghost var ext := Plan(lengths);
    PlanTiles(lengths);
    var offset := 0;
    var k := 0;
    while k < |lengths| && k < |flags|
      invariant 0 <= k <= |lengths| && k <= |flags|
      invariant offset == End(ext[..k])
      invariant IsPiecesOf(pieces, ext[..k], flags, true, pl, total)
      decreases |lengths| - k
    {
      if k > 0 {
        assert ext[k - 1].end == ext[k].start;
      }
      assert ext[k] == Extent(offset, offset + lengths[k]);
      forall p: nat
        ensures MeetsFlagged(ext[..k + 1], flags, true, p, pl)
                <==> MeetsFlagged(ext[..k], flags, true, p, pl) || (flags[k] && Meets(ext[k], p, pl))
      {
        FlaggedStep(ext, flags, true, p, pl, k);
      }
      if flags[k] && lengths[k] > 0 {
        pieces := AddPieces(pieces, offset, lengths[k], pl);
      }
      offset := offset + lengths[k];
      k := k + 1;
    }
    forall p: nat ensures MeetsFlagged(ext[..k], flags, true, p, pl) <==> MeetsFlagged(ext, flags, true, p, pl) {
      FlaggedFrom(ext, flags, true, p, pl, k);
    }
  }

  /** `!was && now`, file by file. */
  function NewlySelected(before: seq<bool>, after: seq<bool>): (flags: seq<bool>)
    ensures |flags| == Min(|before|, |after|)
    ensures forall f :: 0 <= f < |flags| ==> flags[f] == (!before[f] && after[f])
  {
    seq(Min(|before|, |after|), f requires 0 <= f < Min(|before|, |after|) => !before[f] && after[f])
  }

  /** A piece outside the result meets no file that is selected now and was not stored before. */
  method PiecesToRefetch(lengths: seq<nat>, before: seq<bool>, after: seq<bool>, pieceLength: nat, total: nat)
    returns (pieces: Bits)
    ensures IsPiecesOf(pieces, Plan(lengths), NewlySelected(before, after), true,
                       if pieceLength == 0 then 1 else pieceLength, total)
  {
    pieces := PiecesOfFiles(lengths, NewlySelected(before, after), pieceLength, total);
  }

  /** The sum computed by `wanted_bytes`, over pieces below `n`. */
  function WantedBytes(wanted: Bits, pieceLength: nat, totalLength: nat, n: nat): nat
    requires WellSized(wanted)
  {
    if n == 0 then 0
    else
      WantedBytes(wanted, pieceLength, totalLength, n - 1)
      + if Has(wanted, n - 1) then BytesFrom((n - 1) * pieceLength, pieceLength, totalLength) else 0
  }

  /** `total_length.saturating_sub(start).min(piece_length)` */
  function BytesFrom(start: nat, pieceLength: nat, totalLength: nat): nat {
    Min(if totalLength >= start then totalLength - start else 0, pieceLength)
  }

  ghost function BytesOfWanted(wanted: Bits, pieceLength: nat, totalLength: nat, n: nat): set<int>
    requires WellSized(wanted)
  {
    set i: int, p: int | 0 <= i < totalLength && 0 <= p < n && Has(wanted, p) && InPiece(i, p, pieceLength) :: i
  }

  predicate Within(i: int, a: int, b: int) { a <= i < b }

  function Range(a: int, b: int): set<int> { set i: int | a <= i < b && Within(i, a, b) }

  lemma {:induction false} RangeSize(a: int, b: int)
    requires a <= b
    ensures |Range(a, b)| == b - a
    decreases b - a
  {
    if a < b {
      RangeSize(a, b - 1);
      assert forall i :: i in Range(a, b) <==> i in Range(a, b - 1) + {b - 1};
      assert Range(a, b) == Range(a, b - 1) + {b - 1};
    } else {
      assert Range(a, b) == {};
    }
  }

  lemma BytesOfWantedStep(wanted: Bits, pieceLength: nat, totalLength: nat, n: nat, start: nat)
    requires WellSized(wanted) && Has(wanted, n) && start == n * pieceLength
    ensures |BytesOfWanted(wanted, pieceLength, totalLength, n + 1)|
            == |BytesOfWanted(wanted, pieceLength, totalLength, n)| + BytesFrom(start, pieceLength, totalLength)
  {
    var front := BytesOfWanted(wanted, pieceLength, totalLength, n);
    var all := BytesOfWanted(wanted, pieceLength, totalLength, n + 1);
    var stop := start + BytesFrom(start, pieceLength, totalLength);
    var mine := Range(start, stop);
    RangeSize(start, stop);
    forall i | i in mine ensures i in all && i !in front {
      assert InPiece(i, n, pieceLength);
      if i in front {
        var p :| 0 <= p < n && InPiece(i, p, pieceLength);
        PiecesDisjoint(i, p, n, pieceLength);
      }
    }
    forall i | i in all ensures i in front || i in mine {
      var p :| 0 <= p < n + 1 && Has(wanted, p) && InPiece(i, p, pieceLength);
      if p == n {
        assert Within(i, start, stop);
      }
    }
    assert all == front + mine;
  }

  lemma BytesOfWantedNext(wanted: Bits, pieceLength: nat, totalLength: nat, n: nat)
    requires WellSized(wanted)
    ensures |BytesOfWanted(wanted, pieceLength, totalLength, n + 1)|
            == |BytesOfWanted(wanted, pieceLength, totalLength, n)|
               + if Has(wanted, n) then BytesFrom(n * pieceLength, pieceLength, totalLength) else 0
  {
    if Has(wanted, n) {
      BytesOfWantedStep(wanted, pieceLength, totalLength, n, n * pieceLength);
    } else {
      forall i | i in BytesOfWanted(wanted, pieceLength, totalLength, n + 1)
        ensures i in BytesOfWanted(wanted, pieceLength, totalLength, n)
      {
        var p :| 0 <= p < n + 1 && Has(wanted, p) && InPiece(i, p, pieceLength);
      }
      assert BytesOfWanted(wanted, pieceLength, totalLength, n + 1)
             == BytesOfWanted(wanted, pieceLength, totalLength, n);
    }
  }

  /** `wanted_bytes` counts exactly the bytes lying in wanted pieces. */
  lemma {:induction false} WantedBytesCounts(wanted: Bits, pieceLength: nat, totalLength: nat, n: nat)
    requires WellSized(wanted)
    ensures WantedBytes(wanted, pieceLength, totalLength, n) == |BytesOfWanted(wanted, pieceLength, totalLength, n)|
  {
    if n == 0 {
      assert BytesOfWanted(wanted, pieceLength, totalLength, n) == {};
    } else {
      WantedBytesCounts(wanted, pieceLength, totalLength, n - 1);
      BytesOfWantedNext(wanted, pieceLength, totalLength, n - 1);
    }
  }
}
