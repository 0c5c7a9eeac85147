/** The peer wire protocol (src/net/wire.rs): an incremental decoder whose
    output does not depend on how the stream was cut into reads. */
module Wire {
  import opened Common

  const MAX_MESSAGE_LEN: nat := 1024 * 1024
  const COMPACT_THRESHOLD: nat := 64 * 1024

  datatype Message =
    | KeepAlive
    | Choke
    | Unchoke
    | Interested
    | NotInterested
    | Have(index: nat)
    | Bitfield(payload: seq<byte>)
    | Request(index: nat, begin: nat, length: nat)
    | Piece(index: nat, begin: nat, block: seq<byte>)
    | Extended(id: byte, payload: seq<byte>)

  function Be32(s: seq<byte>, at: nat): nat
    requires at + 4 <= |s|
  {
    ((s[at] as int * 256 + s[at + 1] as int) * 256 + s[at + 2] as int) * 256 + s[at + 3] as int
  }

  function ToBe32(n: nat): (s: seq<byte>)
    requires n < 0x1_0000_0000
    ensures |s| == 4
  {
    [n / 0x100_0000, n / 0x1_0000 % 256, n / 0x100 % 256, n % 256]
  }

  lemma Be32RoundTrip(n: nat)
    requires n < 0x1_0000_0000
    ensures Be32(ToBe32(n), 0) == n
  {
    var q1, q2, q3 := n / 0x100, n / 0x1_0000, n / 0x100_0000;
    assert q2 == q1 / 256 && q3 == q2 / 256;
    assert n == q1 * 256 + n % 256 && q1 == q2 * 256 + q1 % 256 && q2 == q3 * 256 + q2 % 256;
  }

  lemma Be32Shift(s: seq<byte>, t: seq<byte>, at: nat)
    requires at + 4 <= |t| && |s| == 4 && t[at..at + 4] == s
    ensures Be32(t, at) == Be32(s, 0)
  {
    assert t[at..at + 4][0] == t[at] && t[at..at + 4][1] == t[at + 1];
    assert t[at..at + 4][2] == t[at + 2] && t[at..at + 4][3] == t[at + 3];
  }

  /** `PeerMessage::parse`: a message, nothing for an unknown id, or an error. */
  function ParseBody(id: byte, p: seq<byte>): Result<Option<Message>> {
    match id
    case 0 => Ok(Some(Choke))
    case 1 => Ok(Some(Unchoke))
    case 2 => Ok(Some(Interested))
    case 3 => Ok(Some(NotInterested))
    case 4 => if |p| != 4 then Err else Ok(Some(Have(Be32(p, 0))))
    case 5 => Ok(Some(Bitfield(p)))
    case 6 => if |p| != 12 then Err else Ok(Some(Request(Be32(p, 0), Be32(p, 4), Be32(p, 8))))
    case 7 => if |p| < 8 then Err else Ok(Some(Piece(Be32(p, 0), Be32(p, 4), p[8..])))
    case 20 => if |p| == 0 then Err else Ok(Some(Extended(p[0], p[1..])))
    case _ => Ok(None)
  }

  datatype Frame = Short | Invalid | Frame(size: nat, msg: Option<Message>)

  /** The first frame of a byte string. */
  function FirstFrame(a: seq<byte>): (f: Frame)
    ensures f.Frame? ==> 4 <= f.size <= |a|
    ensures f.Short? ==> |a| < 4 + MAX_MESSAGE_LEN
  {
    if |a| < 4 then Short
    else
      var len := Be32(a, 0);
      if len > MAX_MESSAGE_LEN then Invalid
      else if |a| < 4 + len then Short
      else if len == 0 then Frame(4, Some(KeepAlive))
      else match ParseBody(a[4], a[5..4 + len])
        case Err => Invalid
        case Ok(m) => Frame(4 + len, m)
  }

  /** One pure parse of a whole stream: its messages, what is left over, and
      whether it ran into an error. */
  datatype Parsed = Parsed(msgs: seq<Message>, rest: seq<byte>, bad: bool)

  function Parse(a: seq<byte>): Parsed
    decreases |a|
  {
    match FirstFrame(a)
    case Short => Parsed([], a, false)
    case Invalid => Parsed([], a, true)
    case Frame(size, m) =>
      Prepend(m, Parse(a[size..]))
  }

  function Prepend(m: Option<Message>, p: Parsed): Parsed {
    if m.Some? then p.(msgs := [m.value] + p.msgs) else p
  }

  /** Resuming a parse when `b` arrives. */
  function Continue(p: Parsed, b: seq<byte>): Parsed {
    if p.bad then p.(rest := p.rest + b)
    else
      var q := Parse(p.rest + b);
      q.(msgs := p.msgs + q.msgs)
  }

  /** A frame that is complete, or already wrong, is not changed by later bytes. */
  lemma FrameStable(a: seq<byte>, b: seq<byte>)
    requires !FirstFrame(a).Short?
    ensures FirstFrame(a + b) == FirstFrame(a)
  {
    assert (a + b)[0] == a[0] && (a + b)[1] == a[1] && (a + b)[2] == a[2] && (a + b)[3] == a[3];
    var len := Be32(a, 0);
    if 0 < len <= MAX_MESSAGE_LEN && 4 + len <= |a| {
      assert (a + b)[4] == a[4];
      assert (a + b)[5..4 + len] == a[5..4 + len];
    }
  }

  lemma PrependContinues(m: Option<Message>, p: Parsed, b: seq<byte>)
    ensures Continue(Prepend(m, p), b) == Prepend(m, Continue(p, b))
  {
    if m.Some? && !p.bad {
      var q := Parse(p.rest + b);
      assert ([m.value] + p.msgs) + q.msgs == [m.value] + (p.msgs + q.msgs);
    }
  }

  lemma ParseFrame(a: seq<byte>, size: nat, m: Option<Message>, rest: seq<byte>)
    requires FirstFrame(a) == Frame(size, m) && rest == a[size..]
    ensures Parse(a) == Prepend(m, Parse(rest))
  {
  }

  /** Parsing in two steps is parsing at once. */
  lemma {:induction false} ParseAppend(a: seq<byte>, b: seq<byte>)
    ensures Parse(a + b) == Continue(Parse(a), b)
    decreases |a|
  {
    var f := FirstFrame(a);
    if !f.Short? {
      FrameStable(a, b);
    }
    if f.Frame? {
      var rest := a[f.size..];
      ParseAppend(rest, b);
      assert (a + b)[f.size..] == rest + b;
      ParseFrame(a, f.size, f.msg, rest);
      ParseFrame(a + b, f.size, f.msg, rest + b);
      PrependContinues(f.msg, Parse(rest), b);
    }
  }

  // ----- what is sent decodes back -----

  predicate Sendable(m: Message) {
    match m
    case Have(i) => i < 0x1_0000_0000
    case Bitfield(p) => 1 + |p| <= MAX_MESSAGE_LEN
    case Request(i, b, l) => i < 0x1_0000_0000 && b < 0x1_0000_0000 && l < 0x1_0000_0000
    case Piece(i, b, block) => i < 0x1_0000_0000 && b < 0x1_0000_0000 && 9 + |block| <= MAX_MESSAGE_LEN
    case Extended(_, p) => 2 + |p| <= MAX_MESSAGE_LEN
    case _ => true
  }

  /** Id and payload, for every message but the keep-alive. */
  function Body(m: Message): (s: seq<byte>)
    requires Sendable(m) && !m.KeepAlive?
    ensures 0 < |s| <= MAX_MESSAGE_LEN
  {
    match m
    case Choke => [0]
    case Unchoke => [1]
    case Interested => [2]
    case NotInterested => [3]
    case Have(i) => [4] + ToBe32(i)
    case Bitfield(p) => [5] + p
    case Request(i, b, l) => [6] + ToBe32(i) + ToBe32(b) + ToBe32(l)
    case Piece(i, b, block) => [7] + ToBe32(i) + ToBe32(b) + block
    case Extended(id, p) => [20] + [id] + p
  }

  /** The byte layout written by the `send_*` functions. */
  function Send(m: Message): seq<byte>
    requires Sendable(m)
  {
    if m.KeepAlive? then [0, 0, 0, 0] else ToBe32(|Body(m)|) + Body(m)
  }

  lemma RequestParses(i: nat, b: nat, l: nat, p: seq<byte>)
    requires i < 0x1_0000_0000 && b < 0x1_0000_0000 && l < 0x1_0000_0000 && p == ToBe32(i) + ToBe32(b) + ToBe32(l)
    ensures |p| == 12 && Be32(p, 0) == i && Be32(p, 4) == b && Be32(p, 8) == l
  {
    Be32RoundTrip(i);
    Be32RoundTrip(b);
    Be32RoundTrip(l);
    Be32Shift(ToBe32(i), p, 0);
    Be32Shift(ToBe32(b), p, 4);
    Be32Shift(ToBe32(l), p, 8);
  }

  lemma PieceParses(i: nat, b: nat, block: seq<byte>, p: seq<byte>)
    requires i < 0x1_0000_0000 && b < 0x1_0000_0000 && p == ToBe32(i) + ToBe32(b) + block
    ensures |p| >= 8 && Be32(p, 0) == i && Be32(p, 4) == b && p[8..] == block
  {
    Be32RoundTrip(i);
    Be32RoundTrip(b);
    Be32Shift(ToBe32(i), p, 0);
    Be32Shift(ToBe32(b), p, 4);
  }

  lemma BodyParses(m: Message)
    requires Sendable(m) && !m.KeepAlive?
    ensures ParseBody(Body(m)[0], Body(m)[1..]) == Ok(Some(m))
  {
    var p := Body(m)[1..];
    match m
    case Have(i) =>
      Be32RoundTrip(i);
      assert p == ToBe32(i);
    case Request(i, b, l) =>
      assert p == ToBe32(i) + ToBe32(b) + ToBe32(l);
      RequestParses(i, b, l, p);
    case Piece(i, b, block) =>
      assert p == ToBe32(i) + ToBe32(b) + block;
      PieceParses(i, b, block, p);
    case _ =>
  }

  lemma SendDecodes(m: Message, rest: seq<byte>)
    requires Sendable(m)
    ensures FirstFrame(Send(m) + rest) == Frame(|Send(m)|, Some(m))
  {
    var a := Send(m) + rest;
    if !m.KeepAlive? {
      var body := Body(m);
      Be32RoundTrip(|body|);
      assert a[0..4] == ToBe32(|body|);
      Be32Shift(ToBe32(|body|), a, 0);
      BodyParses(m);
      assert a[4] == body[0] && a[5..4 + |body|] == body[1..];
    }
  }

  function SendAll(ms: seq<Message>): seq<byte>
    requires forall k :: 0 <= k < |ms| ==> Sendable(ms[k])
  {
    if ms == [] then [] else Send(ms[0]) + SendAll(ms[1..])
  }

  /** Every sequence of messages survives the wire. */
  lemma {:induction false} RoundTrip(ms: seq<Message>)
    requires forall k :: 0 <= k < |ms| ==> Sendable(ms[k])
    ensures Parse(SendAll(ms)) == Parsed(ms, [], false)
    decreases |ms|
  {
    if ms != [] {
      var a, rest := SendAll(ms), SendAll(ms[1..]);
      RoundTrip(ms[1..]);
      SendDecodes(ms[0], rest);
      assert a[|Send(ms[0])|..] == rest;
      ParseFrame(a, |Send(ms[0])|, Some(ms[0]), rest);
      assert ms == [ms[0]] + ms[1..];
    }
  }

  // ----- the incremental decoder -----

  /** How one call of `decode` relates the parse of the bytes it had to that of
      the bytes it leaves. */
  ghost predicate Decoded(before: Parsed, r: Result<Option<Message>>, rest: seq<byte>, after: Parsed) {
    match r
    case Err => before == Parsed([], rest, true)
    case Ok(None) => before == Parsed([], rest, false)
    case Ok(Some(m)) => before == Prepend(Some(m), after)
  }

  /** The loop of `decode`: frames with an unknown id are skipped. */
  method NextMessage(buf: seq<byte>, pos: nat) returns (r: Result<Option<Message>>, next: nat)
    requires pos <= |buf|
    ensures pos <= next <= |buf|
    ensures Decoded(Parse(buf[pos..]), r, buf[next..], Parse(buf[next..]))
    ensures r.Ok? && r.value.None? ==> |buf| - next < 4 + MAX_MESSAGE_LEN
    ensures r.Ok? && r.value.Some? ==> pos < next
  {
    next := pos;
    ghost var rest := Parse(buf[pos..]);
    while true
      invariant pos <= next <= |buf| && Parse(buf[pos..]) == rest == Parse(buf[next..])
      decreases |buf| - next
    {
      var done: bool;
      done, r, next, rest := OneFrame(buf, next, rest);
      if done {
        return;
      }
    }
  }

  /** One turn: the outcome of the first frame, or `done == false` after an unknown id. */
  method OneFrame(buf: seq<byte>, pos: nat, ghost before: Parsed)
    returns (done: bool, r: Result<Option<Message>>, next: nat, ghost after: Parsed)
    requires pos <= |buf| && before == Parse(buf[pos..])
    ensures pos <= next <= |buf| && after == Parse(buf[next..])
    ensures !done ==> pos < next && after == before
    ensures done ==> Decoded(before, r, buf[next..], after)
    ensures done && r.Ok? && r.value.None? ==> |buf| - next < 4 + MAX_MESSAGE_LEN
    ensures done && r.Ok? && r.value.Some? ==> pos < next
  {
    var frame := FirstFrame(buf[pos..]);
    next := if frame.Frame? then pos + frame.size else pos;
    after := FrameDecides(buf, pos, frame, before, next);
    done := !frame.Frame? || frame.msg.Some?;
    r := if frame.Short? then Ok(None) else if frame.Invalid? then Err else Ok(frame.msg);
  }

  /** What the first frame says about the whole parse. */
  lemma FrameDecides(buf: seq<byte>, at: nat, f: Frame, before: Parsed, next: nat) returns (after: Parsed)
    requires at <= |buf| && f == FirstFrame(buf[at..]) && before == Parse(buf[at..])
    requires next == if f.Frame? then at + f.size else at
    ensures at <= next <= |buf| && after == Parse(buf[next..])
    ensures f.Short? ==> |buf| - at < 4 + MAX_MESSAGE_LEN && before == Parsed([], buf[at..], false)
    ensures f.Invalid? ==> before == Parsed([], buf[at..], true)
    ensures f.Frame? ==> at < next && before == Prepend(f.msg, after)
  {
    after := Parse(buf[next..]);
    if f.Frame? {
      assert buf[at..][f.size..] == buf[next..];
    }
  }

  /** `all` is what is left after `msgs`. */
  ghost predicate Follows(all: Parsed, msgs: seq<Message>, left: Parsed) {
    left.rest == all.rest && left.bad == all.bad && msgs + left.msgs == all.msgs
  }

  lemma FollowsNext(all: Parsed, msgs: seq<Message>, left: Parsed, m: Message, next: Parsed)
    requires Follows(all, msgs, left) && left == Prepend(Some(m), next)
    ensures Follows(all, msgs + [m], next)
  {
    assert msgs + ([m] + next.msgs) == msgs + [m] + next.msgs;
  }

  class MessageDecoder {
    var buf: seq<byte>
    var pos: nat

    ghost predicate Valid()
      reads this
    {
      pos <= |buf|
    }

    /** Bytes fed and not yet consumed. */
    ghost function View(): seq<byte>
      requires Valid()
      reads this
    {
      buf[pos..]
    }

    constructor ()
      ensures Valid() && View() == []
    {
      buf, pos := [], 0;
    }

    method Feed(data: seq<byte>)
      requires Valid()
      modifies this
      ensures Valid() && View() == old(View()) + data
    {
      buf := buf + data;
    }

    method Compact()
      requires Valid()
      modifies this
      ensures Valid() && View() == old(View())
      ensures |buf| < COMPACT_THRESHOLD + |View()| || |buf| == 0
    {
      if pos == |buf| {
        buf, pos := [], 0;
      } else if pos >= COMPACT_THRESHOLD {
        buf, pos := buf[pos..], 0;
      }
    }

    /** The first message of the pure parse and the rest of it; or nothing yet,
        with a bounded buffer; or the error, exactly where the parse has it. */
    method Decode() returns (r: Result<Option<Message>>)
      requires Valid()
      modifies this
      ensures Valid() && |View()| <= |old(View())|
      ensures Decoded(Parse(old(View())), r, View(), Parse(View()))
      ensures r.Ok? && r.value.None? ==> |buf| < COMPACT_THRESHOLD + MAX_MESSAGE_LEN + 4
      ensures r.Ok? && r.value.Some? ==> |View()| < |old(View())|
    {
      var next: nat;
      r, next := NextMessage(buf, pos);
      pos := next;
      if r.Ok? && r.value.None? {
        Compact();
      }
    }

    /** Decodes until nothing complete is left. */
    method Drain() returns (msgs: seq<Message>, bad: bool)
      requires Valid()
      modifies this
      ensures Valid()
      ensures msgs == Parse(old(View())).msgs && bad == Parse(old(View())).bad
      ensures View() == Parse(old(View())).rest
      ensures !bad ==> |buf| < COMPACT_THRESHOLD + MAX_MESSAGE_LEN + 4
    {
      msgs := [];
      ghost var all, left := Parse(View()), Parse(View());
      while true
        invariant Valid() && left == Parse(View()) && Follows(all, msgs, left)
        decreases |View()|
      {
        var r := Decode();
        if r.Err? {
          return msgs, true;
        }
        if r.value.None? {
          return msgs, false;
        }
        FollowsNext(all, msgs, left, r.value.value, Parse(View()));
        msgs, left := msgs + [r.value.value], Parse(View());
      }
    }
  }

  function Concat(chunks: seq<seq<byte>>): seq<byte> {
    if chunks == [] then [] else Concat(chunks[..|chunks| - 1]) + chunks[|chunks| - 1]
  }

  /** Once an error is reached, later chunks are only left over. */
  lemma {:induction false} BadStays(chunks: seq<seq<byte>>, k: nat)
    requires k <= |chunks| && Parse(Concat(chunks[..k])).bad
    ensures var then', now := Parse(Concat(chunks[..k])), Parse(Concat(chunks));
            now.bad && now.msgs == then'.msgs && then'.rest <= now.rest
    decreases |chunks| - k
  {
    if k == |chunks| {
      assert chunks[..k] == chunks;
    } else {
      assert chunks[..k + 1][..k] == chunks[..k];
      ParseAppend(Concat(chunks[..k]), chunks[k]);
      BadStays(chunks, k + 1);
    }
  }

  /** Chunking independence: feeding a stream in any pieces, and draining after
      each, yields the messages and the error of one parse of the whole, and
      stops at the same byte. */
  method ReadStream(chunks: seq<seq<byte>>) returns (msgs: seq<Message>, bad: bool, unread: seq<byte>)
    ensures msgs == Parse(Concat(chunks)).msgs && bad == Parse(Concat(chunks)).bad
    ensures unread <= Parse(Concat(chunks)).rest && (!bad ==> unread == Parse(Concat(chunks)).rest)
  {
    var decoder := new MessageDecoder();
    msgs, bad, unread := [], false, [];
    for k := 0 to |chunks|
      invariant fresh(decoder) && decoder.Valid() && !bad && unread == decoder.View()
      invariant Parse(Concat(chunks[..k])) == Parsed(msgs, unread, false)
    {
      assert chunks[..k + 1][..k] == chunks[..k];
      ParseAppend(Concat(chunks[..k]), chunks[k]);
      decoder.Feed(chunks[k]);
      var more: seq<Message>;
      more, bad := decoder.Drain();
      msgs, unread := msgs + more, decoder.buf[decoder.pos..];
      if bad {
        BadStays(chunks, k + 1);
        return;
      }
      RestIsFixed(Concat(chunks[..k + 1]));
    }
    assert chunks[..|chunks|] == chunks;
  }

  /** What a parse leaves over holds no further frame. */
  lemma {:induction false} RestIsFixed(a: seq<byte>)
    requires !Parse(a).bad
    ensures Parse(Parse(a).rest) == Parsed([], Parse(a).rest, false)
    decreases |a|
  {
    match FirstFrame(a)
    case Short =>
    case Frame(size, m) => RestIsFixed(a[size..]);
  }
}
