/** The binary resume record (src/core/resume.rs): magic, version, piece count
    and a piece bitfield, through real shifts and masks. */
module Resume {
  import opened Common
  import opened Bitfields

  const MAGIC: seq<bv8> := [0x54, 0x54, 0x52, 0x53]
  const FORMAT_VERSION: bv8 := 2
  const HEADER_LEN: nat := 9
  const MAX_PIECES: bv32 := 0x100_0000

  datatype FastResume = FastResume(totalPieces: bv32, completed: seq<nat>)

  /** `Legacy` stands for input without the magic, which the JSON reader gets. */
  datatype Decoded = Binary(state: FastResume) | Rejected | Legacy

  function Le32(n: bv32): (s: seq<bv8>)
    ensures |s| == 4
  {
    [(n & 0xff) as bv8, ((n >> 8) & 0xff) as bv8, ((n >> 16) & 0xff) as bv8, ((n >> 24) & 0xff) as bv8]
  }

  function FromLe32(s: seq<bv8>): bv32
    requires |s| == 4
  {
    (s[0] as bv32) | ((s[1] as bv32) << 8) | ((s[2] as bv32) << 16) | ((s[3] as bv32) << 24)
  }

  lemma Le32RoundTrip(n: bv32)
    ensures FromLe32(Le32(n)) == n
  {
  }

  function Join32(a: bv32, b: bv32, c: bv32, d: bv32): bv32 { a | (b << 8) | (c << 16) | (d << 24) }

  lemma JoinLow(a: bv32, b: bv32, c: bv32, d: bv32)
    requires a <= 0xff && b <= 0xff && c <= 0xff && d <= 0xff
    ensures Join32(a, b, c, d) & 0xff == a && (Join32(a, b, c, d) >> 8) & 0xff == b
  {
  }

  lemma JoinHigh(a: bv32, b: bv32, c: bv32, d: bv32)
    requires a <= 0xff && b <= 0xff && c <= 0xff && d <= 0xff
    ensures (Join32(a, b, c, d) >> 16) & 0xff == c && (Join32(a, b, c, d) >> 24) & 0xff == d
  {
  }

  lemma FromLe32RoundTrip(s: seq<bv8>)
    requires |s| == 4
    ensures Le32(FromLe32(s)) == s
  {
    JoinLow(s[0] as bv32, s[1] as bv32, s[2] as bv32, s[3] as bv32);
    JoinHigh(s[0] as bv32, s[1] as bv32, s[2] as bv32, s[3] as bv32);
    assert FromLe32(s) == Join32(s[0] as bv32, s[1] as bv32, s[2] as bv32, s[3] as bv32);
  }

  function Members(s: seq<nat>, len: nat): set<nat> { set p | p in s && p < len }

  /** The clean bitfield of length `len` with the members of `s` below `n`. */
  function BitsBelow(len: nat, s: set<nat>, n: nat): (b: Bits)
    requires n <= len
    ensures Clean(b) && b.len == len
    ensures Ones(b) == set p | p in s && p < n
  {
    if n == 0 then
      assert (set p | p in s && p < n) == {};
      Empty(len)
    else
      var front := BitsBelow(len, s, n - 1);
      SetBitAdds(front, n - 1);
      if n - 1 in s then SetBit(front, n - 1) else front
  }

  /** The file written for `total` pieces of which those in `s` are complete. */
  function Image(total: bv32, s: set<nat>): seq<bv8> {
    MAGIC + [FORMAT_VERSION] + Le32(total) + BitsBelow(total as nat, s, total as nat).bytes
  }

  method Encode(state: FastResume) returns (out: seq<bv8>)
    ensures out == Image(state.totalPieces, Members(state.completed, state.totalPieces as nat))
  {
    var len := state.totalPieces as nat;
    var bitfield := FromIndices(len, state.completed);
    Canonical(bitfield, BitsBelow(len, Members(state.completed, len), len));
    out := MAGIC;
    out := out + [FORMAT_VERSION];
    out := out + Le32(state.totalPieces);
    out := out + bitfield.bytes;
  }

  function Decode(bytes: seq<bv8>): Decoded {
    if !(MAGIC <= bytes) then Legacy
    else if |bytes| < HEADER_LEN then Rejected
    else if bytes[4] != FORMAT_VERSION then Rejected
    else
      var total := FromLe32(bytes[5..9]);
      if total > MAX_PIECES then Rejected
      else match FromWire(total as nat, bytes[HEADER_LEN..])
        case None => Rejected
        case Some(bits) =>
          FromWireAcceptsClean(total as nat, bytes[HEADER_LEN..]);
          Binary(FastResume(total, IterOnes(bits)))
  }

  lemma ImageParts(total: bv32, s: set<nat>)
    ensures var img := Image(total, s);
            && MAGIC <= img && |img| >= HEADER_LEN && img[4] == FORMAT_VERSION
            && img[5..9] == Le32(total)
            && img[HEADER_LEN..] == BitsBelow(total as nat, s, total as nat).bytes
  {
  }

  /** The header byte by byte: `TTRS`, version 2 and the count, low byte first. */
  lemma HeaderBytes(total: bv32, s: set<nat>)
    ensures Image(total, s)[..9]
            == [0x54, 0x54, 0x52, 0x53, 2, (total % 256) as bv8, (total / 256 % 256) as bv8,
                (total / 0x1_0000 % 256) as bv8, (total / 0x100_0000) as bv8]
    ensures |Image(total, s)| == 9 + (total as nat + 7) / 8
  {
    LowByteFirst(total);
    ImageParts(total, s);
    assert Image(total, s)[..9] == MAGIC + [FORMAT_VERSION] + Le32(total);
  }

  lemma PieceStored(total: bv32, s: set<nat>, p: nat, img: seq<bv8>)
    requires p < total as nat && img == Image(total, s)
    ensures 9 + p / 8 < |img| && (p in s <==> Bit(img[9 + p / 8], p % 8))
  {
    var bits := BitsBelow(total as nat, s, total as nat);
    ImageParts(total, s);
    assert img[9..] == bits.bytes;
    assert p in Ones(bits) <==> Has(bits, p);
  }

  lemma BitTable(x: bv8, k: nat)
    requires k < 8
    ensures Bit(x, k) <==> x & [0x80 as bv8, 0x40, 0x20, 0x10, 8, 4, 2, 1][k] != 0
  {
    MaskTable();
  }

  /** Piece `p` is bit `p % 8`, from the top, of byte `p / 8` behind the header. */
  lemma PieceBit(total: bv32, s: set<nat>, p: nat)
    requires p < total as nat
    ensures 9 + p / 8 < |Image(total, s)|
    ensures p in s <==> Image(total, s)[9 + p / 8] & [0x80 as bv8, 0x40, 0x20, 0x10, 8, 4, 2, 1][p % 8] != 0
  {
    var img := Image(total, s);
    PieceStored(total, s, p, img);
    BitTable(img[9 + p / 8], p % 8);
  }

  lemma LowByteFirst(n: bv32)
    ensures Le32(n) == [(n % 256) as bv8, (n / 256 % 256) as bv8, (n / 0x1_0000 % 256) as bv8, (n / 0x100_0000) as bv8]
  {
  }

  /** Reading back a written record gives its members, sorted, each once. */
  lemma DecodeImage(total: bv32, s: set<nat>)
    requires total <= MAX_PIECES
    ensures Decode(Image(total, s)).Binary?
    ensures Decode(Image(total, s)).state.totalPieces == total
    ensures var got := Decode(Image(total, s)).state.completed;
            && (forall p :: p in got <==> p in s && p < total as nat)
            && (forall j, k :: 0 <= j < k < |got| ==> got[j] < got[k])
  {
    var img, bits := Image(total, s), BitsBelow(total as nat, s, total as nat);
    ImageParts(total, s);
    Le32RoundTrip(total);
    assert bits == Bits(total as nat, bits.bytes);
    FromWireAcceptsClean(total as nat, bits.bytes);
  }

  /** Every accepted file is the one that encoding its contents writes. */
  lemma ImageOfDecoded(bytes: seq<bv8>)
    requires Decode(bytes).Binary?
    ensures var st := Decode(bytes).state;
            Image(st.totalPieces, Members(st.completed, st.totalPieces as nat)) == bytes
  {
    var st := Decode(bytes).state;
    var len := st.totalPieces as nat;
    FromLe32RoundTrip(bytes[5..9]);
    FromWireAcceptsClean(len, bytes[HEADER_LEN..]);
    var bits := Bits(len, bytes[HEADER_LEN..]);
    var again := BitsBelow(len, Members(st.completed, len), len);
    assert Ones(again) == Ones(bits);
    Canonical(again, bits);
    assert bytes == MAGIC + [bytes[4]] + bytes[5..9] + bytes[HEADER_LEN..];
  }
}
