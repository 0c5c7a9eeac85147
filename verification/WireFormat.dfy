/** The peer wire protocol byte by byte (BEP 3, section "peer messages"; BEP 10 for
    id 20): what the decoder makes of a frame, and what is sent. */
module WireFormat {
  import opened Common
  import opened Wire

  const MIB: nat := 1048576

  /** Four bytes, the most significant first. */
  function Word(s: seq<byte>, at: nat): nat
    requires at + 4 <= |s|
  {
    s[at] as int * 0x1000000 + s[at + 1] as int * 0x10000 + s[at + 2] as int * 0x100 + s[at + 3] as int
  }

  /** The whole first frame is there, and its length is allowed. */
  predicate Complete(a: seq<byte>) { |a| >= 4 && Word(a, 0) <= MIB && |a| >= 4 + Word(a, 0) }

  /** The frame behind its length. */
  function Content(a: seq<byte>): seq<byte>
    requires Complete(a)
  {
    a[4..4 + Word(a, 0)]
  }

  function Behind(a: seq<byte>): seq<byte>
    requires Complete(a)
  {
    a[4 + Word(a, 0)..]
  }

  /** The content stands for `m`. */
  predicate Means(c: seq<byte>, m: Message) {
    match m
    case KeepAlive => c == []
    case Choke => |c| >= 1 && c[0] == 0
    case Unchoke => |c| >= 1 && c[0] == 1
    case Interested => |c| >= 1 && c[0] == 2
    case NotInterested => |c| >= 1 && c[0] == 3
    case Have(i) => |c| == 5 && c[0] == 4 && i == Word(c, 1)
    case Bitfield(p) => |c| >= 1 && c[0] == 5 && p == c[1..]
    case Request(i, b, l) => |c| == 13 && c[0] == 6 && i == Word(c, 1) && b == Word(c, 5) && l == Word(c, 9)
    case Piece(i, b, block) => |c| >= 9 && c[0] == 7 && i == Word(c, 1) && b == Word(c, 5) && block == c[9..]
    case Extended(id, p) => |c| >= 2 && c[0] == 20 && id == c[1] && p == c[2..]
  }

  /** The ids 0 to 7 and 20 are known. */
  predicate Unknown(c: seq<byte>) { |c| >= 1 && c[0] > 7 && c[0] != 20 }

  predicate Malformed(c: seq<byte>) {
    && |c| >= 1
    && ((c[0] == 4 && |c| != 5) || (c[0] == 6 && |c| != 13) || (c[0] == 7 && |c| < 9) || (c[0] == 20 && |c| == 1))
  }

  lemma WordIsBe32(s: seq<byte>, at: nat)
    requires at + 4 <= |s|
    ensures Be32(s, at) == Word(s, at)
  {
  }

  /** What a nonempty content is taken for. */
  lemma ContentExact(c: seq<byte>, m: Message)
    requires |c| >= 1
    ensures ParseBody(c[0], c[1..]) == Err <==> Malformed(c)
    ensures ParseBody(c[0], c[1..]) == Ok(None) <==> Unknown(c)
    ensures ParseBody(c[0], c[1..]) == Ok(Some(m)) <==> Means(c, m)
  {
  }

  /** The first frame of any bytes, in every case. */
  lemma FirstFrameExact(a: seq<byte>, m: Message)
    ensures FirstFrame(a).Short? <==> |a| < 4 || (Word(a, 0) <= MIB && |a| < 4 + Word(a, 0))
    ensures FirstFrame(a).Invalid? <==> (|a| >= 4 && Word(a, 0) > MIB) || (Complete(a) && Malformed(Content(a)))
    ensures FirstFrame(a).Frame? ==> Complete(a) && FirstFrame(a).size == 4 + Word(a, 0)
    ensures FirstFrame(a).Frame? && FirstFrame(a).msg.None? <==> Complete(a) && Unknown(Content(a))
    ensures FirstFrame(a).Frame? && FirstFrame(a).msg == Some(m) <==> Complete(a) && Means(Content(a), m)
  {
    if |a| >= 4 {
      WordIsBe32(a, 0);
    }
    if Complete(a) && Word(a, 0) > 0 {
      var c := Content(a);
      assert c[0] == a[4] && c[1..] == a[5..4 + Word(a, 0)];
      ContentExact(c, m);
    }
  }

  /** A parse, frame by frame: it waits for the rest of a frame, stops at a frame
      that is too long or malformed, passes over one with an unknown id, and takes
      the message of any other. */
  lemma ParseExact(a: seq<byte>, m: Message)
    ensures |a| < 4 || (Word(a, 0) <= MIB && |a| < 4 + Word(a, 0)) ==> Parse(a) == Parsed([], a, false)
    ensures (|a| >= 4 && Word(a, 0) > MIB) || (Complete(a) && Malformed(Content(a))) ==> Parse(a) == Parsed([], a, true)
    ensures Complete(a) && Unknown(Content(a)) ==> Parse(a) == Parse(Behind(a))
    ensures Complete(a) && Means(Content(a), m) ==>
              Parse(a) == Parsed([m] + Parse(Behind(a)).msgs, Parse(Behind(a)).rest, Parse(Behind(a)).bad)
  {
    FirstFrameExact(a, m);
  }

  // ----- what is sent -----

  /** The literal layout of every message, behind four bytes of length. */
  lemma SendLayout(m: Message)
    requires Sendable(m)
    ensures Complete(Send(m)) && Behind(Send(m)) == [] && Means(Content(Send(m)), m)
  {
    var a := Send(m);
    SendDecodes(m, []);
    assert a + [] == a;
    FirstFrameExact(a, m);
  }

  lemma FlagLayouts()
    ensures Send(KeepAlive) == [0, 0, 0, 0]
    ensures Send(Choke) == [0, 0, 0, 1, 0] && Send(Unchoke) == [0, 0, 0, 1, 1]
    ensures Send(Interested) == [0, 0, 0, 1, 2] && Send(NotInterested) == [0, 0, 0, 1, 3]
    ensures Send(Bitfield([0xA0])) == [0, 0, 0, 2, 5, 0xA0]
    ensures Send(Extended(3, [0x64, 0x65])) == [0, 0, 0, 4, 20, 3, 0x64, 0x65]
  {
  }

  lemma HaveLayout()
    ensures Send(Have(0x01020304)) == [0, 0, 0, 5, 4, 1, 2, 3, 4]
  {
  }

  lemma PieceLayout()
    ensures Send(Piece(1, 0x4000, [9, 8])) == [0, 0, 0, 11, 7, 0, 0, 0, 1, 0, 0, 0x40, 0, 9, 8]
  {
  }

  lemma RequestLayout()
    ensures Send(Request(1, 0x4000, 0x8000)) == [0, 0, 0, 13, 6, 0, 0, 0, 1, 0, 0, 0x40, 0, 0, 0, 0x80, 0]
  {
  }

  /** A PORT message before an Unchoke: the unknown id is passed over. */
  lemma UnknownIdExample(a: seq<byte>)
    requires a == [0, 0, 0, 3, 9, 26, 225, 0, 0, 0, 1, 1]
    ensures Parse(a) == Parsed([Unchoke], [], false)
  {
    var b := a[7..];
    assert b == [0, 0, 0, 1, 1] && b[5..] == [];
    ParseExact(a, Unchoke);
    ParseExact(b, Unchoke);
    ParseExact([], Unchoke);
    assert Content(a)[0] == 9 && Behind(a) == b;
    assert Content(b)[0] == 1 && Behind(b) == [];
  }
}
