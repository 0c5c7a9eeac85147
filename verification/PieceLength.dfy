/** The three computations of a piece's length, and the size checks that every
    accepted torrent has passed. */
module PieceLength {
  import opened Common

  const MAX_PIECE_LENGTH: nat := 128 * 1024 * 1024

  function DivCeil(a: nat, b: nat): nat
    requires b > 0
  {
    (a + b - 1) / b
  }

  /** `build_meta`: a torrent is rejected unless these hold. */
  predicate Accepted(pieceLength: nat, totalLength: nat, pieces: nat) {
    0 < pieceLength <= MAX_PIECE_LENGTH && totalLength > 0 && pieces == DivCeil(totalLength, pieceLength)
  }

  /** `TorrentMeta::piece_len_at` */
  function OfTorrent(index: nat, pieceLength: nat, pieces: nat, totalLength: Option<nat>): Option<nat> {
    if index >= pieces then None
    else if totalLength.Some? then
      var start := index * pieceLength;
      if start >= totalLength.value then None else Some(Min(pieceLength, totalLength.value - start))
    else Some(pieceLength)
  }

  /** `piece_len_at` of the peer session */
  function OfSession(index: nat, pieceLength: nat, totalLength: Option<nat>): Option<nat> {
    if totalLength.Some? then
      var start := index * pieceLength;
      if start >= totalLength.value then None else Some(Min(pieceLength, totalLength.value - start))
    else Some(pieceLength)
  }

  /** The length the coordinator reads when it checks files */
  function OfCheck(index: nat, pieceLength: nat, pieces: nat, totalLength: nat): nat
    requires pieceLength > 0 && pieces > 0
  {
    if index == pieces - 1 then
      var rem := totalLength % pieceLength;
      if rem == 0 then pieceLength else rem
    else pieceLength
  }

  /** The last piece starts inside the content and reaches its end. */
  lemma CeilBounds(a: nat, b: nat)
    requires a > 0 && b > 0
    ensures DivCeil(a, b) > 0
    ensures (DivCeil(a, b) - 1) * b < a <= DivCeil(a, b) * b
  {
    var q := DivCeil(a, b);
    assert q * b <= a + b - 1 < q * b + b;
    assert q > 0;
    assert (q - 1) * b == q * b - b;
  }

  lemma StartsOrdered(p: nat, q: nat, d: nat)
    requires p < q
    ensures p * d + d <= q * d
  {
    assert (p + 1) * d <= q * d by {
      var k := q - (p + 1);
      assert q * d == (p + 1) * d + k * d;
    }
  }

  /** `a % b` when `a` is `r` past a multiple of `b`. */
  lemma RemainderIs(a: nat, b: nat, q: nat, r: nat)
    requires b > 0 && a == q * b + r && r < b
    ensures a % b == r
  {
    var q', r' := a / b, a % b;
    assert a == q' * b + r';
    if q' < q {
      StartsOrdered(q', q, b);
    } else if q < q' {
      StartsOrdered(q, q', b);
    }
  }

  /** All three agree on every index of an accepted torrent; past the end the
      two partial ones agree that there is no piece. */
  lemma LengthsAgree(index: nat, pieceLength: nat, pieces: nat, totalLength: nat)
    requires Accepted(pieceLength, totalLength, pieces)
    ensures OfTorrent(index, pieceLength, pieces, Some(totalLength)) == OfSession(index, pieceLength, Some(totalLength))
    ensures index < pieces <==> OfSession(index, pieceLength, Some(totalLength)).Some?
    ensures index < pieces ==>
              var len := OfSession(index, pieceLength, Some(totalLength)).value;
              && len == OfCheck(index, pieceLength, pieces, totalLength)
              && 0 < len <= pieceLength && index * pieceLength + len <= totalLength
              && (index == pieces - 1 <==> index * pieceLength + len == totalLength)
  {
    CeilBounds(totalLength, pieceLength);
    if index >= pieces {
      if index > pieces {
        StartsOrdered(pieces, index, pieceLength);
      }
    } else if index < pieces - 1 {
      StartsOrdered(index, pieces - 1, pieceLength);
    } else {
      var r := totalLength - index * pieceLength;
      if r == pieceLength {
        RemainderIs(totalLength, pieceLength, index + 1, 0);
      } else {
        RemainderIs(totalLength, pieceLength, index, r);
      }
    }
  }

  function SumLengths(n: nat, pieceLength: nat, pieces: nat, totalLength: nat): nat
    requires pieceLength > 0 && pieces > 0
  {
    if n == 0 then 0
    else SumLengths(n - 1, pieceLength, pieces, totalLength) + OfCheck(n - 1, pieceLength, pieces, totalLength)
  }

  /** The pieces tile the content: each starts where the previous one ends and
      the lengths sum to the total. */
  lemma {:induction false} LengthsTile(n: nat, pieceLength: nat, pieces: nat, totalLength: nat)
    requires Accepted(pieceLength, totalLength, pieces) && n <= pieces
    ensures pieces > 0
    ensures SumLengths(n, pieceLength, pieces, totalLength) == if n == pieces then totalLength else n * pieceLength
  {
    CeilBounds(totalLength, pieceLength);
    if n > 0 {
      LengthsTile(n - 1, pieceLength, pieces, totalLength);
      LengthsAgree(n - 1, pieceLength, pieces, totalLength);
    }
  }
}
