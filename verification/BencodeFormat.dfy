/** Literal forms in bencode: decimal lengths and the `info` key. */
module BencodeFormat {
  import opened Common
  import opened Bencode

  /** The usual decimal digits, without leading zeros. */
  function Decimal(n: nat): (s: seq<byte>)
    ensures |s| > 0 && forall k :: 0 <= k < |s| ==> IsDigit(s[k])
  {
    if n < 10 then [(48 + n) as byte] else Decimal(n / 10) + [(48 + n % 10) as byte]
  }

  lemma {:induction false} DecimalValue(n: nat)
    ensures NatOf(Decimal(n)) == n
  {
    if n < 10 {
      assert NatOf(Decimal(n)[..0]) == 0;
    } else {
      DecimalValue(n / 10);
      assert Decimal(n)[..|Decimal(n)| - 1] == Decimal(n / 10);
    }
  }

  lemma DecimalAppend(n: nat, last: byte)
    requires IsDigit(last)
    ensures Decimal(n * 10 + DigitValue(last)) == if n == 0 then [last] else Decimal(n) + [last]
  {
    var m := n * 10 + DigitValue(last);
    assert m / 10 == n && m % 10 == last - 48;
  }

  function Zeros(n: nat): seq<byte> { if n == 0 then [] else Zeros(n - 1) + [48] }

  /** Every run of digits is the decimal form of its value behind some zeros. */
  lemma {:induction false} DigitsAreDecimal(s: seq<byte>) returns (zeros: nat)
    requires |s| > 0 && forall k :: 0 <= k < |s| ==> IsDigit(s[k])
    ensures s == Zeros(zeros) + Decimal(NatOf(s))
  {
    var front, last := s[..|s| - 1], s[|s| - 1];
    DecimalAppend(NatOf(front), last);
    assert s == front + [last];
    if |s| == 1 {
      zeros := 0;
      assert NatOf(front) == 0;
    } else {
      zeros := DigitsAreDecimal(front);
      if NatOf(front) == 0 {
        zeros := zeros + 1;
      }
    }
  }

  /** The key is the four letters of `info`. */
  lemma InfoLetters(key: seq<byte>)
    ensures IsInfo(key) <==> key == [105, 110, 102, 111]
  {
  }

  lemma InfoKey() returns (key: ByteString)
    ensures EncStr(key) == [52, 58, 105, 110, 102, 111] && IsInfo(key.text)
  {
    assert NatOf([52]) == NatOf([52][..0]) * 10 + 4;
    key := Prefixed([52], [105, 110, 102, 111]);
  }

  /** Behind `d4:info` stands the value, whatever follows it. */
  lemma InfoInFront(bytes: seq<byte>, v: Value)
    requires |bytes| <= USIZE_MAX && Level(v) <= MAX_DEPTH
    requires At(bytes, 0, [100]) && At(bytes, 1, [52, 58, 105, 110, 102, 111]) && At(bytes, 7, Enc(v))
    ensures Extract(bytes) == Slice(Span(7, 7 + |Enc(v)|))
  {
    var key := InfoKey();
    assert bytes[0] == bytes[0..1][0];
    var r, got, end := Skip(bytes, 7, 0), FindInfo(bytes, 1), 7 + |Enc(v)|;
    SkippedTo(bytes, 7, v, end, Level(v), r);
    FindInfoEntry(bytes, 1, key, 7, r, got, FindInfo(bytes, end));
  }
}
