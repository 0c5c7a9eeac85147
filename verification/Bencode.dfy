/** Bencode as this program reads it (src/core/bencode.rs): a depth scanner, a
    skipper and the extraction of the `info` value, against one grammar. */
module Bencode {
  import opened Common

  const MAX_DEPTH: nat := 64
  const USIZE_MAX: nat := 0xFFFF_FFFF_FFFF_FFFF
  const LOWER_D: byte := 100
  const LOWER_E: byte := 101
  const LOWER_I: byte := 105
  const LOWER_L: byte := 108
  const COLON: byte := 58

  predicate IsDigit(b: byte) { 48 <= b <= 57 }

  // ----- grammar -----

  function DigitValue(b: byte): nat { if IsDigit(b) then b - 48 else 0 }

  /** Decimal value of a run of digits. */
  function NatOf(s: seq<byte>): nat {
    if |s| == 0 then 0 else NatOf(s[..|s| - 1]) * 10 + DigitValue(s[|s| - 1])
  }

  /** An integer is any body without `e`, and a length may have leading zeros:
      the readers below accept no less. */
  type IntBody = s: seq<byte> | LOWER_E !in s witness []

  datatype Prefixed = Prefixed(digits: seq<byte>, text: seq<byte>)
  ghost predicate StrOk(s: Prefixed) {
    && s.digits != [] && (forall k :: 0 <= k < |s.digits| ==> IsDigit(s.digits[k]))
    && NatOf(s.digits) == |s.text|
  }
  type ByteString = s: Prefixed | StrOk(s) ghost witness Prefixed([48], [])

  datatype Value = Int(body: IntBody) | Str(str: ByteString) | List(items: Items) | Dict(entries: Entries)
  datatype Items = Nil | Cons(head: Value, tail: Items)
  datatype Entries = Done | Entry(key: ByteString, value: Value, rest: Entries)

  function EncStr(s: Prefixed): seq<byte> { s.digits + [COLON] + s.text }

  function Enc(v: Value): seq<byte> {
    match v
    case Int(body) => [LOWER_I] + body + [LOWER_E]
    case Str(str) => EncStr(str)
    case List(items) => [LOWER_L] + EncItems(items) + [LOWER_E]
    case Dict(entries) => [LOWER_D] + EncEntries(entries) + [LOWER_E]
  }
  function EncItems(items: Items): seq<byte> {
    if items.Nil? then [] else Enc(items.head) + EncItems(items.tail)
  }
  function EncEntries(es: Entries): seq<byte> {
    if es.Done? then [] else EncStr(es.key) + Enc(es.value) + EncEntries(es.rest)
  }

  function Max(a: nat, b: nat): nat { if a >= b then a else b }

  /** Container nesting: what the depth scanner limits. */
  function Nesting(v: Value): nat {
    match v
    case List(items) => 1 + NestingItems(items)
    case Dict(entries) => 1 + NestingEntries(entries)
    case _ => 0
  }
  function NestingItems(items: Items): nat {
    if items.Nil? then 0 else Max(Nesting(items.head), NestingItems(items.tail))
  }
  function NestingEntries(es: Entries): nat {
    if es.Done? then 0 else Max(Nesting(es.value), NestingEntries(es.rest))
  }

  /** Depth of the deepest value: what the skipper limits. It is one less than
      the nesting when the innermost containers are empty. */
  function Level(v: Value): nat {
    match v
    case List(items) => LevelItems(items)
    case Dict(entries) => LevelEntries(entries)
    case _ => 0
  }
  function LevelItems(items: Items): nat {
    if items.Nil? then 0 else Max(1 + Level(items.head), LevelItems(items.tail))
  }
  function LevelEntries(es: Entries): nat {
    if es.Done? then 0 else Max(1 + Level(es.value), LevelEntries(es.rest))
  }

  lemma {:induction false} LevelWithinNesting(v: Value)
    ensures Level(v) <= Nesting(v) <= Level(v) + 1
  {
    match v
    case List(items) => LevelItemsWithin(items);
    case Dict(entries) => LevelEntriesWithin(entries);
    case _ =>
  }
  lemma {:induction false} LevelItemsWithin(items: Items)
    ensures LevelItems(items) <= 1 + NestingItems(items) && NestingItems(items) <= LevelItems(items)
  {
    if items.Cons? {
      LevelWithinNesting(items.head);
      LevelItemsWithin(items.tail);
    }
  }
  lemma {:induction false} LevelEntriesWithin(es: Entries)
    ensures LevelEntries(es) <= 1 + NestingEntries(es) && NestingEntries(es) <= LevelEntries(es)
  {
    if es.Entry? {
      LevelWithinNesting(es.value);
      LevelEntriesWithin(es.rest);
    }
  }

  /** Encoded at `start`. */
  predicate At(bytes: seq<byte>, start: nat, s: seq<byte>) { start + |s| <= |bytes| && bytes[start..start + |s|] == s }

  lemma AtSplit(bytes: seq<byte>, start: nat, a: seq<byte>, b: seq<byte>)
    requires At(bytes, start, a + b)
    ensures At(bytes, start, a) && At(bytes, start + |a|, b)
  {
    assert (a + b)[..|a|] == a && (a + b)[|a|..] == b;
    assert bytes[start..start + |a|] == bytes[start..start + |a + b|][..|a|];
    assert bytes[start + |a|..start + |a| + |b|] == bytes[start..start + |a + b|][|a|..];
  }

  // ----- byte strings -----

  /** First index from `i` on that is not a digit. */
  function DigitsEnd(bytes: seq<byte>, i: nat): (r: nat)
    requires i <= |bytes|
    ensures i <= r <= |bytes|
    decreases |bytes| - i
  {
    if i < |bytes| && IsDigit(bytes[i]) then DigitsEnd(bytes, i + 1) else i
  }

  lemma {:induction false} DigitsEndFacts(bytes: seq<byte>, i: nat)
    requires i <= |bytes|
    ensures forall k :: i <= k < DigitsEnd(bytes, i) ==> IsDigit(bytes[k])
    decreases |bytes| - i
  {
    if i < |bytes| && IsDigit(bytes[i]) {
      DigitsEndFacts(bytes, i + 1);
    }
  }

  /** First `e` from `i` on, or the end. */
  function FindE(bytes: seq<byte>, i: nat): (r: nat)
    requires i <= |bytes|
    ensures i <= r <= |bytes|
    decreases |bytes| - i
  {
    if i < |bytes| && bytes[i] != LOWER_E then FindE(bytes, i + 1) else i
  }

  lemma {:induction false} FindEFacts(bytes: seq<byte>, i: nat)
    requires i <= |bytes|
    ensures var e := FindE(bytes, i); LOWER_E !in bytes[i..e] && (e < |bytes| ==> bytes[e] == LOWER_E)
    decreases |bytes| - i
  {
    if i < |bytes| && bytes[i] != LOWER_E {
      FindEFacts(bytes, i + 1);
      assert bytes[i..FindE(bytes, i)] == [bytes[i]] + bytes[i + 1..FindE(bytes, i)];
    }
  }

  datatype Span = Span(start: nat, end: nat)

  /** `parse_byte_string`: the bounds of the content. */
  function ParseStr(bytes: seq<byte>, start: nat): (r: Result<Span>)
    ensures r.Ok? ==> start < r.value.start <= r.value.end <= |bytes|
  {
    if start >= |bytes| || !IsDigit(bytes[start]) then Err
    else
      var colon := DigitsEnd(bytes, start);
      if colon >= |bytes| || bytes[colon] != COLON then Err
      else
        var len := NatOf(bytes[start..colon]);
        if len > USIZE_MAX || colon + 1 + len > USIZE_MAX || colon + 1 + len > |bytes| then Err
        else Ok(Span(colon + 1, colon + 1 + len))
  }

  lemma {:induction false} DigitsEndAt(bytes: seq<byte>, i: nat, colon: nat)
    requires i <= colon < |bytes| && (forall k :: i <= k < colon ==> IsDigit(bytes[k])) && !IsDigit(bytes[colon])
    ensures DigitsEnd(bytes, i) == colon
    decreases colon - i
  {
    if i < colon {
      DigitsEndAt(bytes, i + 1, colon);
    }
  }

  /** Where the digits of an encoded string end. */
  lemma StrDigitsAt(bytes: seq<byte>, start: nat, s: ByteString)
    requires At(bytes, start, EncStr(s))
    ensures var colon := start + |s.digits|;
            && colon < |bytes| && IsDigit(bytes[start]) && bytes[colon] == COLON
            && DigitsEnd(bytes, start) == colon && bytes[start..colon] == s.digits
            && bytes[colon + 1..colon + 1 + |s.text|] == s.text
  {
    var colon := start + |s.digits|;
    assert EncStr(s) == s.digits + ([COLON] + s.text);
    AtSplit(bytes, start, s.digits, [COLON] + s.text);
    AtSplit(bytes, colon, [COLON], s.text);
    assert bytes[colon] == bytes[colon..colon + 1][0];
    forall k | start <= k < colon ensures IsDigit(bytes[k]) {
      assert bytes[k] == bytes[start..colon][k - start] == s.digits[k - start];
    }
    DigitsEndAt(bytes, start, colon);
  }

  lemma StrSound(bytes: seq<byte>, start: nat) returns (s: ByteString)
    requires ParseStr(bytes, start).Ok?
    ensures var r := ParseStr(bytes, start).value;
            bytes[start..r.end] == EncStr(s) && s.text == bytes[r.start..r.end]
  {
    var r := ParseStr(bytes, start).value;
    DigitsEndFacts(bytes, start);
    s := Prefixed(bytes[start..r.start - 1], bytes[r.start..r.end]);
    assert bytes[start..r.end] == s.digits + [bytes[r.start - 1]] + s.text;
  }

  // ----- the skipper -----

  /** `skip_bencode_value`: the end of the value at `start`. */
  function Skip(bytes: seq<byte>, start: nat, depth: nat): (r: Result<nat>)
    requires start <= |bytes|
    ensures r.Ok? ==> start < r.value <= |bytes|
    decreases |bytes| - start, 0
  {
    if depth > MAX_DEPTH || start >= |bytes| then Err
    else if bytes[start] == LOWER_I then
      var e := FindE(bytes, start + 1);
      if e >= |bytes| then Err else Ok(e + 1)
    else if bytes[start] == LOWER_L then SkipItems(bytes, start + 1, depth)
    else if bytes[start] == LOWER_D then SkipEntries(bytes, start + 1, depth)
    else match ParseStr(bytes, start)
      case Err => Err
      case Ok(span) => Ok(span.end)
  }

  /** The list loop, from `index` to past the closing `e`. */
  function SkipItems(bytes: seq<byte>, index: nat, depth: nat): (r: Result<nat>)
    requires index <= |bytes|
    ensures r.Ok? ==> index < r.value <= |bytes|
    decreases |bytes| - index, 1
  {
    if index >= |bytes| then Err
    else if bytes[index] == LOWER_E then Ok(index + 1)
    else match Skip(bytes, index, depth + 1)
      case Err => Err
      case Ok(next) => SkipItems(bytes, next, depth)
  }

  function SkipEntries(bytes: seq<byte>, index: nat, depth: nat): (r: Result<nat>)
    requires index <= |bytes|
    ensures r.Ok? ==> index < r.value <= |bytes|
    decreases |bytes| - index, 1
  {
    if index >= |bytes| then Err
    else if bytes[index] == LOWER_E then Ok(index + 1)
    else match ParseStr(bytes, index)
      case Err => Err
      case Ok(span) =>
        match Skip(bytes, span.end, depth + 1)
        case Err => Err
        case Ok(next) => SkipEntries(bytes, next, depth)
  }

  lemma {:induction false} FindEAt(bytes: seq<byte>, i: nat, e: nat)
    requires i <= e < |bytes| && bytes[e] == LOWER_E && forall k :: i <= k < e ==> bytes[k] != LOWER_E
    ensures FindE(bytes, i) == e
    decreases e - i
  {
    if i < e {
      FindEAt(bytes, i + 1, e);
    }
  }

  lemma IntAt(bytes: seq<byte>, start: nat, body: IntBody)
    requires At(bytes, start, Enc(Int(body)))
    ensures start < |bytes| && bytes[start] == LOWER_I
            && FindE(bytes, start) == FindE(bytes, start + 1) == start + 1 + |body|
    ensures start + 1 + |body| < |bytes|
  {
    var s := Enc(Int(body));
    forall k | 0 <= k < |s| ensures bytes[start + k] == s[k] {
      assert bytes[start..start + |s|][k] == s[k];
    }
    var e := start + 1 + |body|;
    assert bytes[start + 0] == s[0];
    assert bytes[start + (1 + |body|)] == s[1 + |body|];
    forall k | start + 1 <= k < e ensures bytes[k] != LOWER_E {
      assert bytes[start + (k - start)] == s[k - start] == body[k - start - 1];
    }
    FindEAt(bytes, start + 1, e);
  }

  /** The pieces of an encoded container, each at its own place. */
  lemma AtContainer(bytes: seq<byte>, start: nat, open: byte, inner: seq<byte>)
    requires At(bytes, start, [open] + inner + [LOWER_E])
    ensures start < |bytes| && bytes[start] == open
    ensures At(bytes, start + 1, inner)
    ensures start + 1 + |inner| < |bytes| && bytes[start + 1 + |inner|] == LOWER_E
  {
    AtSplit(bytes, start, [open] + inner, [LOWER_E]);
    AtSplit(bytes, start, [open], inner);
    assert bytes[start] == bytes[start..start + 1][0];
    AtEnd(bytes, start + 1 + |inner|);
  }

  lemma AtEntries(bytes: seq<byte>, index: nat, es: Entries, at: nat, next: nat, end: nat)
    requires es.Entry? && At(bytes, index, EncEntries(es)) && end == index + |EncEntries(es)|
    requires at == index + |EncStr(es.key)| && next == at + |Enc(es.value)|
    ensures At(bytes, index, EncStr(es.key)) && At(bytes, at, Enc(es.value))
    ensures At(bytes, next, EncEntries(es.rest)) && end == next + |EncEntries(es.rest)|
  {
    AtSplit(bytes, index, EncStr(es.key) + Enc(es.value), EncEntries(es.rest));
    AtSplit(bytes, index, EncStr(es.key), Enc(es.value));
  }

  /** One turn of the dictionary loop. */
  lemma SkipEntriesTurn(bytes: seq<byte>, index: nat, depth: nat, mid: nat)
    requires index < |bytes| && IsDigit(bytes[index]) && ParseStr(bytes, index).Ok?
    requires ParseStr(bytes, index).value.end == mid
    ensures SkipEntries(bytes, index, depth)
            == if Skip(bytes, mid, depth + 1).Err? then Err
               else SkipEntries(bytes, Skip(bytes, mid, depth + 1).value, depth)
  {
  }

  lemma AtEnd(bytes: seq<byte>, index: nat)
    requires At(bytes, index, [LOWER_E])
    ensures index < |bytes| && bytes[index] == LOWER_E
  {
    assert bytes[index] == bytes[index..index + 1][0];
  }

  // ----- where a value stands, without sequences -----

  ghost predicate Marker(bytes: seq<byte>, i: nat, b: byte) { i < |bytes| && bytes[i] == b }

  ghost function StrEnd(bytes: seq<byte>, start: nat): Option<nat> {
    if start < |bytes| && IsDigit(bytes[start]) && Marker(bytes, DigitsEnd(bytes, start), COLON) then
      var end := DigitsEnd(bytes, start) + 1 + NatOf(bytes[start..DigitsEnd(bytes, start)]);
      if end <= |bytes| then Some(end) else None
    else None
  }

  ghost function IntEnd(bytes: seq<byte>, start: nat): Option<nat> {
    if Marker(bytes, start, LOWER_I) && FindE(bytes, start + 1) < |bytes|
    then Some(FindE(bytes, start + 1) + 1) else None
  }

  /** The end of `v` if its markers are met where they should be from `start` on. */
  ghost function EndOf(bytes: seq<byte>, start: nat, v: Value): Option<nat>
    decreases v
  {
    match v
    case Int(body) =>
      var end := Some(start + |body| + 2);
      if IntEnd(bytes, start) == end then end else None
    case Str(str) =>
      var end := Some(start + |EncStr(str)|);
      if StrEnd(bytes, start) == end then end else None
    case List(items) =>
      if Marker(bytes, start, LOWER_L) then Closed(bytes, EndOfItems(bytes, start + 1, items)) else None
    case Dict(entries) =>
      if Marker(bytes, start, LOWER_D) then Closed(bytes, EndOfEntries(bytes, start + 1, entries)) else None
  }
  ghost function Closed(bytes: seq<byte>, end: Option<nat>): Option<nat> {
    if end.Some? && Marker(bytes, end.value, LOWER_E) then Some(end.value + 1) else None
  }
  ghost function EndOfItems(bytes: seq<byte>, index: nat, items: Items): Option<nat>
    decreases items
  {
    match items
    case Nil => Some(index)
    case Cons(head, tail) =>
      var next := EndOf(bytes, index, head);
      if next.Some? then EndOfItems(bytes, next.value, tail) else None
  }
  ghost function EndOfEntries(bytes: seq<byte>, index: nat, es: Entries): Option<nat>
    decreases es
  {
    match es
    case Done => Some(index)
    case Entry(key, value, rest) =>
      var at := index + |EncStr(key)|;
      if StrEnd(bytes, index) != Some(at) then None
      else
        var next := EndOf(bytes, at, value);
        if next.Some? then EndOfEntries(bytes, next.value, rest) else None
  }

  lemma StrAt(bytes: seq<byte>, start: nat, s: ByteString)
    requires At(bytes, start, EncStr(s))
    ensures StrEnd(bytes, start) == Some(start + |EncStr(s)|)
  {
    StrDigitsAt(bytes, start, s);
  }

  lemma EndOfEntry(bytes: seq<byte>, index: nat, es: Entries, at: nat, next: nat, end: nat)
    requires es.Entry? && At(bytes, index, EncStr(es.key)) && at == index + |EncStr(es.key)|
    requires EndOf(bytes, at, es.value) == Some(next) && EndOfEntries(bytes, next, es.rest) == Some(end)
    ensures EndOfEntries(bytes, index, es) == Some(end)
  {
    StrAt(bytes, index, es.key);
  }

  /** An encoding puts every marker in its place. */
  lemma {:induction false} EndOfEnc(bytes: seq<byte>, start: nat, v: Value, end: nat)
    requires At(bytes, start, Enc(v)) && end == start + |Enc(v)|
    ensures EndOf(bytes, start, v) == Some(end)
    decreases v
  {
    match v
    case Int(body) => IntAt(bytes, start, body);
    case Str(str) => StrAt(bytes, start, str);
    case List(items) => EndOfEncList(bytes, start, items, EncItems(items));
    case Dict(entries) => EndOfEncDict(bytes, start, entries, EncEntries(entries));
  }
  lemma {:induction false} EndOfEncList(bytes: seq<byte>, start: nat, items: Items, inner: seq<byte>)
    requires inner == EncItems(items) && At(bytes, start, [LOWER_L] + inner + [LOWER_E])
    ensures EndOf(bytes, start, List(items)) == Some(start + |inner| + 2)
    decreases items, 1
  {
    AtContainer(bytes, start, LOWER_L, inner);
    EndOfEncItems(bytes, start + 1, items, start + 1 + |inner|);
  }
  lemma {:induction false} EndOfEncDict(bytes: seq<byte>, start: nat, es: Entries, inner: seq<byte>)
    requires inner == EncEntries(es) && At(bytes, start, [LOWER_D] + inner + [LOWER_E])
    ensures EndOf(bytes, start, Dict(es)) == Some(start + |inner| + 2)
    decreases es, 1
  {
    AtContainer(bytes, start, LOWER_D, inner);
    EndOfEncEntries(bytes, start + 1, es, start + 1 + |inner|);
  }
  lemma {:induction false} EndOfEncItems(bytes: seq<byte>, index: nat, items: Items, end: nat)
    requires At(bytes, index, EncItems(items)) && end == index + |EncItems(items)|
    ensures EndOfItems(bytes, index, items) == Some(end)
    decreases items, 0
  {
    if items.Cons? {
      var next := index + |Enc(items.head)|;
      AtSplit(bytes, index, Enc(items.head), EncItems(items.tail));
      EndOfEnc(bytes, index, items.head, next);
      EndOfEncItems(bytes, next, items.tail, end);
    }
  }
  lemma {:induction false} EndOfEncEntries(bytes: seq<byte>, index: nat, es: Entries, end: nat)
    requires At(bytes, index, EncEntries(es)) && end == index + |EncEntries(es)|
    ensures EndOfEntries(bytes, index, es) == Some(end)
    decreases es, 0
  {
    if es.Entry? {
      var at := index + |EncStr(es.key)|;
      var next := at + |Enc(es.value)|;
      AtEntries(bytes, index, es, at, next, end);
      EndOfEnc(bytes, at, es.value, next);
      EndOfEncEntries(bytes, next, es.rest, end);
      EndOfEntry(bytes, index, es, at, next, end);
    }
  }

  // ----- completeness of the skipper -----

  lemma StrParses(bytes: seq<byte>, start: nat, end: nat)
    requires StrEnd(bytes, start) == Some(end) && |bytes| <= USIZE_MAX
    ensures ParseStr(bytes, start) == Ok(Span(DigitsEnd(bytes, start) + 1, end))
  {
  }

  /** The exact limit: the skipper ends right after the value, unless it is too deep. */
  lemma {:induction false} SkipEnds(bytes: seq<byte>, start: nat, v: Value, depth: nat, end: nat)
    requires |bytes| <= USIZE_MAX && EndOf(bytes, start, v) == Some(end)
    ensures start < |bytes|
    ensures Skip(bytes, start, depth) == if depth + Level(v) <= MAX_DEPTH then Ok(end) else Err
    decreases v
  {
    if depth <= MAX_DEPTH {
      match v
      case Int(body) =>
      case Str(str) => StrParses(bytes, start, end);
      case List(items) => SkipListEnds(bytes, start, items, depth, end - 1);
      case Dict(entries) => SkipDictEnds(bytes, start, entries, depth, end - 1);
    }
  }

  lemma {:induction false} SkipListEnds(bytes: seq<byte>, start: nat, items: Items, depth: nat, close: nat)
    requires |bytes| <= USIZE_MAX && EndOfItems(bytes, start + 1, items) == Some(close) && depth <= MAX_DEPTH
    requires Marker(bytes, start, LOWER_L) && Marker(bytes, close, LOWER_E)
    ensures Skip(bytes, start, depth) == if depth + LevelItems(items) <= MAX_DEPTH then Ok(close + 1) else Err
    decreases items, 1
  {
    SkipContainerTurn(bytes, start, depth);
    SkipItemsEnds(bytes, start + 1, items, depth, close);
  }

  lemma {:induction false} SkipDictEnds(bytes: seq<byte>, start: nat, es: Entries, depth: nat, close: nat)
    requires |bytes| <= USIZE_MAX && EndOfEntries(bytes, start + 1, es) == Some(close) && depth <= MAX_DEPTH
    requires Marker(bytes, start, LOWER_D) && Marker(bytes, close, LOWER_E)
    ensures Skip(bytes, start, depth) == if depth + LevelEntries(es) <= MAX_DEPTH then Ok(close + 1) else Err
    decreases es, 1
  {
    SkipContainerTurn(bytes, start, depth);
    SkipEntriesEnds(bytes, start + 1, es, depth, close);
  }

  lemma NotClosing(bytes: seq<byte>, start: nat, v: Value)
    requires EndOf(bytes, start, v).Some?
    ensures start < |bytes| && bytes[start] != LOWER_E
  {
  }

  lemma {:induction false} SkipItemsEnds(bytes: seq<byte>, index: nat, items: Items, depth: nat, end: nat)
    requires |bytes| <= USIZE_MAX && EndOfItems(bytes, index, items) == Some(end) && depth <= MAX_DEPTH
    requires Marker(bytes, end, LOWER_E)
    ensures index <= |bytes|
    ensures SkipItems(bytes, index, depth) == if depth + LevelItems(items) <= MAX_DEPTH then Ok(end + 1) else Err
    decreases items, 0
  {
    if items.Cons? {
      var next := EndOf(bytes, index, items.head).value;
      NotClosing(bytes, index, items.head);
      SkipItemsTurn(bytes, index, depth);
      SkipEnds(bytes, index, items.head, depth + 1, next);
      SkipItemsEnds(bytes, next, items.tail, depth, end);
    }
  }

  lemma SkipEntryAt(bytes: seq<byte>, index: nat, depth: nat, at: nat)
    requires |bytes| <= USIZE_MAX && StrEnd(bytes, index) == Some(at)
    ensures index < |bytes| && at <= |bytes|
    ensures SkipEntries(bytes, index, depth)
            == if Skip(bytes, at, depth + 1).Err? then Err
               else SkipEntries(bytes, Skip(bytes, at, depth + 1).value, depth)
  {
    StrParses(bytes, index, at);
    SkipEntriesTurn(bytes, index, depth, at);
  }

  lemma {:induction false} SkipEntriesEnds(bytes: seq<byte>, index: nat, es: Entries, depth: nat, end: nat)
    requires |bytes| <= USIZE_MAX && EndOfEntries(bytes, index, es) == Some(end) && depth <= MAX_DEPTH
    requires Marker(bytes, end, LOWER_E)
    ensures index <= |bytes|
    ensures SkipEntries(bytes, index, depth) == if depth + LevelEntries(es) <= MAX_DEPTH then Ok(end + 1) else Err
    decreases es, 0
  {
    if es.Entry? {
      var at := index + |EncStr(es.key)|;
      var next := EndOf(bytes, at, es.value).value;
      SkipEntryAt(bytes, index, depth, at);
      SkipEnds(bytes, at, es.value, depth + 1, next);
      SkipEntriesEnds(bytes, next, es.rest, depth, end);
    }
  }

  /** Completeness: wherever a well-formed value stands and whatever follows it,
      the skipper ends exactly at its end, if and only if it is not too deep. */
  lemma SkipExact(bytes: seq<byte>, start: nat, v: Value, depth: nat)
    requires |bytes| <= USIZE_MAX && At(bytes, start, Enc(v))
    ensures Skip(bytes, start, depth) == if depth + Level(v) <= MAX_DEPTH then Ok(start + |Enc(v)|) else Err
  {
    EndOfEnc(bytes, start, v, start + |Enc(v)|);
    SkipEnds(bytes, start, v, depth, start + |Enc(v)|);
  }

  lemma SkipContainerTurn(bytes: seq<byte>, start: nat, depth: nat)
    requires start < |bytes| && depth <= MAX_DEPTH
    ensures bytes[start] == LOWER_L ==> Skip(bytes, start, depth) == SkipItems(bytes, start + 1, depth)
    ensures bytes[start] == LOWER_D ==> Skip(bytes, start, depth) == SkipEntries(bytes, start + 1, depth)
  {
  }

  lemma SkipItemsTurn(bytes: seq<byte>, index: nat, depth: nat)
    requires index < |bytes| && bytes[index] != LOWER_E
    ensures SkipItems(bytes, index, depth)
            == if Skip(bytes, index, depth + 1).Err? then Err
               else SkipItems(bytes, Skip(bytes, index, depth + 1).value, depth)
  {
  }

  lemma Bracketed(bytes: seq<byte>, start: nat, end: nat)
    requires start + 2 <= end <= |bytes|
    ensures bytes[start..end] == [bytes[start]] + bytes[start + 1..end - 1] + [bytes[end - 1]]
  {
  }

  lemma Joined(bytes: seq<byte>, a: nat, b: nat, c: nat)
    requires a <= b <= c <= |bytes|
    ensures bytes[a..c] == bytes[a..b] + bytes[b..c]
  {
  }

  lemma ContainerSound(bytes: seq<byte>, start: nat, end: nat, inner: seq<byte>)
    requires start + 2 <= end <= |bytes| && bytes[start + 1..end - 1] == inner && bytes[end - 1] == LOWER_E
    ensures bytes[start..end] == [bytes[start]] + inner + [LOWER_E]
  {
  }

  /** Soundness: whatever the skipper accepts is the encoding of a value that is not too deep. */
  lemma {:induction false} SkipSound(bytes: seq<byte>, start: nat, depth: nat) returns (v: Value)
    requires start <= |bytes| && Skip(bytes, start, depth).Ok?
    ensures bytes[start..Skip(bytes, start, depth).value] == Enc(v) && depth + Level(v) <= MAX_DEPTH
    decreases |bytes| - start, 0
  {
    if bytes[start] == LOWER_I {
      v := IntSound(bytes, start, depth);
    } else if bytes[start] == LOWER_L {
      SkipContainerTurn(bytes, start, depth);
      var items := SkipItemsSound(bytes, start + 1, depth);
      v := List(items);
      ContainerSound(bytes, start, Skip(bytes, start, depth).value, EncItems(items));
    } else if bytes[start] == LOWER_D {
      SkipContainerTurn(bytes, start, depth);
      var entries := SkipEntriesSound(bytes, start + 1, depth);
      v := Dict(entries);
      ContainerSound(bytes, start, Skip(bytes, start, depth).value, EncEntries(entries));
    } else {
      v := StrValueSound(bytes, start, depth);
    }
  }

  lemma StrValueSound(bytes: seq<byte>, start: nat, depth: nat) returns (v: Value)
    requires start < |bytes| && bytes[start] != LOWER_I && bytes[start] != LOWER_L && bytes[start] != LOWER_D
    requires Skip(bytes, start, depth).Ok?
    ensures bytes[start..Skip(bytes, start, depth).value] == Enc(v) && Level(v) == 0
  {
    var s := StrSound(bytes, start);
    v := Str(s);
  }

  lemma IntSound(bytes: seq<byte>, start: nat, depth: nat) returns (v: Value)
    requires start < |bytes| && bytes[start] == LOWER_I && Skip(bytes, start, depth).Ok?
    ensures bytes[start..Skip(bytes, start, depth).value] == Enc(v) && Level(v) == 0
  {
    var end := Skip(bytes, start, depth).value;
    FindEFacts(bytes, start + 1);
    v := Int(bytes[start + 1..end - 1]);
    Bracketed(bytes, start, end);
  }

  lemma {:induction false} SkipItemsSound(bytes: seq<byte>, index: nat, depth: nat) returns (items: Items)
    requires index <= |bytes| && depth <= MAX_DEPTH && SkipItems(bytes, index, depth).Ok?
    ensures var end := SkipItems(bytes, index, depth).value;
            && bytes[index..end - 1] == EncItems(items) && bytes[end - 1] == LOWER_E
            && depth + LevelItems(items) <= MAX_DEPTH
    decreases |bytes| - index, 1
  {
    items := Nil;
    if bytes[index] != LOWER_E {
      var next, end := Skip(bytes, index, depth + 1).value, SkipItems(bytes, index, depth).value;
      var head := SkipSound(bytes, index, depth + 1);
      var tail := SkipItemsSound(bytes, next, depth);
      items := Cons(head, tail);
      Joined(bytes, index, next, end - 1);
    }
  }

  lemma {:induction false} SkipEntriesSound(bytes: seq<byte>, index: nat, depth: nat) returns (es: Entries)
    requires index <= |bytes| && depth <= MAX_DEPTH && SkipEntries(bytes, index, depth).Ok?
    ensures var end := SkipEntries(bytes, index, depth).value;
            && bytes[index..end - 1] == EncEntries(es) && bytes[end - 1] == LOWER_E
            && depth + LevelEntries(es) <= MAX_DEPTH
    decreases |bytes| - index, 1
  {
    es := Done;
    if bytes[index] != LOWER_E {
      var mid, end := ParseStr(bytes, index).value.end, SkipEntries(bytes, index, depth).value;
      var next := Skip(bytes, mid, depth + 1).value;
      var key := StrSound(bytes, index);
      var value := SkipSound(bytes, mid, depth + 1);
      var rest := SkipEntriesSound(bytes, next, depth);
      es := Entry(key, value, rest);
      Joined(bytes, index, mid, next);
      Joined(bytes, index, next, end - 1);
    }
  }

  // ----- the depth scanner -----

  function Sat(n: nat): nat { if n > USIZE_MAX then USIZE_MAX else n }

  /** `check_bencode_depth` from `index` on, inside `depth` containers; lengths saturate. */
  predicate Scan(bytes: seq<byte>, index: nat, depth: nat)
    requires |bytes| <= USIZE_MAX
    decreases |bytes| - index
  {
    if index >= |bytes| then true
    else if bytes[index] == LOWER_L || bytes[index] == LOWER_D then
      depth + 1 <= MAX_DEPTH && Scan(bytes, index + 1, depth + 1)
    else if bytes[index] == LOWER_E then Scan(bytes, index + 1, if depth == 0 then 0 else depth - 1)
    else if bytes[index] == LOWER_I then Scan(bytes, FindE(bytes, index) + 1, depth)
    else if IsDigit(bytes[index]) then
      var j := DigitsEnd(bytes, index);
      Scan(bytes, Sat(Sat(j + 1) + Sat(NatOf(bytes[index..j]))), depth)
    else true
  }

  lemma ScanStr(bytes: seq<byte>, start: nat, end: nat, depth: nat)
    requires |bytes| <= USIZE_MAX && StrEnd(bytes, start) == Some(end)
    ensures Scan(bytes, start, depth) == Scan(bytes, end, depth)
  {
  }

  lemma ScanInt(bytes: seq<byte>, start: nat, end: nat, depth: nat)
    requires |bytes| <= USIZE_MAX && IntEnd(bytes, start) == Some(end)
    ensures Scan(bytes, start, depth) == Scan(bytes, end, depth)
  {
  }

  /** A container scans as its inside does one level deeper. */
  lemma ScanContainer(bytes: seq<byte>, start: nat, depth: nat, close: nat)
    requires |bytes| <= USIZE_MAX && (Marker(bytes, start, LOWER_L) || Marker(bytes, start, LOWER_D))
    requires Marker(bytes, close, LOWER_E)
    ensures Scan(bytes, start, depth) == (depth < MAX_DEPTH && Scan(bytes, start + 1, depth + 1))
    ensures Scan(bytes, close, depth + 1) == Scan(bytes, close + 1, depth)
  {
  }

  /** Scanning over a value tests its nesting and nothing else. */
  lemma {:induction false} ScanEnds(bytes: seq<byte>, start: nat, v: Value, depth: nat, end: nat)
    requires |bytes| <= USIZE_MAX && EndOf(bytes, start, v) == Some(end) && depth <= MAX_DEPTH
    ensures Scan(bytes, start, depth) <==> depth + Nesting(v) <= MAX_DEPTH && Scan(bytes, end, depth)
    decreases v
  {
    match v
    case Int(body) => ScanInt(bytes, start, end, depth);
    case Str(str) => ScanStr(bytes, start, end, depth);
    case List(items) => ScanListEnds(bytes, start, items, depth, end - 1);
    case Dict(entries) => ScanDictEnds(bytes, start, entries, depth, end - 1);
  }

  lemma {:induction false} ScanListEnds(bytes: seq<byte>, start: nat, items: Items, depth: nat, close: nat)
    requires |bytes| <= USIZE_MAX && EndOfItems(bytes, start + 1, items) == Some(close) && depth <= MAX_DEPTH
    requires Marker(bytes, start, LOWER_L) && Marker(bytes, close, LOWER_E)
    ensures Scan(bytes, start, depth) <==> depth + 1 + NestingItems(items) <= MAX_DEPTH && Scan(bytes, close + 1, depth)
    decreases items, 1
  {
    ScanContainer(bytes, start, depth, close);
    if depth < MAX_DEPTH {
      ScanItemsEnds(bytes, start + 1, items, depth + 1, close);
    }
  }

  lemma {:induction false} ScanDictEnds(bytes: seq<byte>, start: nat, es: Entries, depth: nat, close: nat)
    requires |bytes| <= USIZE_MAX && EndOfEntries(bytes, start + 1, es) == Some(close) && depth <= MAX_DEPTH
    requires Marker(bytes, start, LOWER_D) && Marker(bytes, close, LOWER_E)
    ensures Scan(bytes, start, depth) <==> depth + 1 + NestingEntries(es) <= MAX_DEPTH && Scan(bytes, close + 1, depth)
    decreases es, 1
  {
    ScanContainer(bytes, start, depth, close);
    if depth < MAX_DEPTH {
      ScanEntriesEnds(bytes, start + 1, es, depth + 1, close);
    }
  }

  lemma {:induction false} ScanItemsEnds(bytes: seq<byte>, index: nat, items: Items, depth: nat, end: nat)
    requires |bytes| <= USIZE_MAX && EndOfItems(bytes, index, items) == Some(end) && depth <= MAX_DEPTH
    ensures Scan(bytes, index, depth) <==> depth + NestingItems(items) <= MAX_DEPTH && Scan(bytes, end, depth)
    decreases items, 0
  {
    if items.Cons? {
      var next := EndOf(bytes, index, items.head).value;
      ScanEnds(bytes, index, items.head, depth, next);
      ScanItemsEnds(bytes, next, items.tail, depth, end);
    }
  }

  lemma {:induction false} ScanEntriesEnds(bytes: seq<byte>, index: nat, es: Entries, depth: nat, end: nat)
    requires |bytes| <= USIZE_MAX && EndOfEntries(bytes, index, es) == Some(end) && depth <= MAX_DEPTH
    ensures Scan(bytes, index, depth) <==> depth + NestingEntries(es) <= MAX_DEPTH && Scan(bytes, end, depth)
    decreases es, 0
  {
    if es.Entry? {
      var at := index + |EncStr(es.key)|;
      var next := EndOf(bytes, at, es.value).value;
      ScanStr(bytes, index, at, depth);
      ScanEnds(bytes, at, es.value, depth, next);
      ScanEntriesEnds(bytes, next, es.rest, depth, end);
    }
  }

  /** The scanner accepts an encoding exactly when its nesting is at most 64,
      and then the skipper reads it to its end. */
  lemma DepthCheckExact(v: Value, bytes: seq<byte>)
    requires bytes == Enc(v) && |bytes| <= USIZE_MAX
    ensures Scan(bytes, 0, 0) <==> Nesting(v) <= MAX_DEPTH
    ensures Scan(bytes, 0, 0) ==> Skip(bytes, 0, 0) == Ok(|bytes|)
  {
    assert bytes[0..|bytes|] == bytes;
    EndOfEnc(bytes, 0, v, |bytes|);
    ScanEnds(bytes, 0, v, 0, |bytes|);
    SkipEnds(bytes, 0, v, 0, |bytes|);
    LevelWithinNesting(v);
  }

  /** `n` lists, each the only item of the one around it, around an empty list. */
  function Nested(n: nat): Value { if n == 0 then List(Nil) else List(Cons(Nested(n - 1), Nil)) }

  lemma {:induction false} NestedDepth(n: nat)
    ensures Level(Nested(n)) == n && Nesting(Nested(n)) == n + 1
  {
    if n > 0 {
      NestedDepth(n - 1);
    }
  }

  lemma {:induction false} NestedSize(n: nat)
    ensures |Enc(Nested(n))| == 2 * n + 2
  {
    if n > 0 {
      NestedSize(n - 1);
      assert EncItems(Cons(Nested(n - 1), Nil)) == Enc(Nested(n - 1)) + [];
    }
  }

  /** The two limits differ by one level: the skipper reads an encoding that the
      depth check refuses exactly when its deepest value is at 64 and is an empty
      container, the 65th. */
  lemma LimitsDisagree(v: Value, bytes: seq<byte>)
    requires bytes == Enc(v) && |bytes| <= USIZE_MAX
    ensures Skip(bytes, 0, 0).Ok? && !Scan(bytes, 0, 0) <==> Level(v) == MAX_DEPTH && Nesting(v) == MAX_DEPTH + 1
    ensures Skip(bytes, 0, 0).Err? ==> !Scan(bytes, 0, 0)
  {
    assert bytes[0..|bytes|] == bytes;
    SkipExact(bytes, 0, v, 0);
    DepthCheckExact(v, bytes);
    LevelWithinNesting(v);
  }

  /** Such an encoding: 65 lists, one inside the other. */
  lemma LimitsDiffer(bytes: seq<byte>)
    requires bytes == Enc(Nested(MAX_DEPTH))
    ensures |bytes| == 2 * MAX_DEPTH + 2
    ensures Skip(bytes, 0, 0) == Ok(|bytes|) && !Scan(bytes, 0, 0)
  {
    NestedDepth(MAX_DEPTH);
    NestedSize(MAX_DEPTH);
    assert bytes[0..|bytes|] == bytes;
    SkipExact(bytes, 0, Nested(MAX_DEPTH), 0);
    LimitsDisagree(Nested(MAX_DEPTH), bytes);
  }

  // ----- the depth check on arbitrary bytes -----

  /** The skipper without its depth test. */
  function SkipFree(bytes: seq<byte>, start: nat): (r: Result<nat>)
    requires start <= |bytes|
    ensures r.Ok? ==> start < r.value <= |bytes|
    decreases |bytes| - start, 0
  {
    if start >= |bytes| then Err
    else if bytes[start] == LOWER_I then
      var e := FindE(bytes, start + 1);
      if e >= |bytes| then Err else Ok(e + 1)
    else if bytes[start] == LOWER_L then FreeItems(bytes, start + 1)
    else if bytes[start] == LOWER_D then FreeEntries(bytes, start + 1)
    else match ParseStr(bytes, start)
      case Err => Err
      case Ok(span) => Ok(span.end)
  }

  function FreeItems(bytes: seq<byte>, index: nat): (r: Result<nat>)
    requires index <= |bytes|
    ensures r.Ok? ==> index < r.value <= |bytes|
    decreases |bytes| - index, 1
  {
    if index >= |bytes| then Err
    else if bytes[index] == LOWER_E then Ok(index + 1)
    else match SkipFree(bytes, index)
      case Err => Err
      case Ok(next) => FreeItems(bytes, next)
  }

  function FreeEntries(bytes: seq<byte>, index: nat): (r: Result<nat>)
    requires index <= |bytes|
    ensures r.Ok? ==> index < r.value <= |bytes|
    decreases |bytes| - index, 1
  {
    if index >= |bytes| then Err
    else if bytes[index] == LOWER_E then Ok(index + 1)
    else match ParseStr(bytes, index)
      case Err => Err
      case Ok(span) =>
        match SkipFree(bytes, span.end)
        case Err => Err
        case Ok(next) => FreeEntries(bytes, next)
  }

  /** A string that is read is stepped over by the scanner, too. */
  lemma ScanReadStr(bytes: seq<byte>, start: nat, depth: nat, end: nat)
    requires |bytes| <= USIZE_MAX && ParseStr(bytes, start).Ok? && end == ParseStr(bytes, start).value.end
    ensures start < |bytes| && IsDigit(bytes[start]) && end <= |bytes|
    ensures Scan(bytes, start, depth) == Scan(bytes, end, depth)
  {
  }

  /** Both skippers answer alike, and leave the scanner accepting. */
  ghost predicate SameAnswer(bytes: seq<byte>, depth: nat, limited: Result<nat>, free: Result<nat>)
    requires |bytes| <= USIZE_MAX
  {
    limited == free && (free.Ok? ==> Scan(bytes, free.value, depth))
  }

  lemma {:induction false} ScannedValue(bytes: seq<byte>, start: nat, depth: nat)
    requires |bytes| <= USIZE_MAX && start <= |bytes| && depth <= MAX_DEPTH && Scan(bytes, start, depth)
    ensures SameAnswer(bytes, depth, Skip(bytes, start, depth), SkipFree(bytes, start))
    decreases |bytes| - start, 0
  {
    if start < |bytes| {
      if bytes[start] == LOWER_L {
        ScannedItems(bytes, start + 1, depth);
      } else if bytes[start] == LOWER_D {
        ScannedEntries(bytes, start + 1, depth);
      } else if bytes[start] != LOWER_I && ParseStr(bytes, start).Ok? {
        ScanReadStr(bytes, start, depth, ParseStr(bytes, start).value.end);
      }
    }
  }

  lemma {:induction false} ScannedItems(bytes: seq<byte>, index: nat, depth: nat)
    requires |bytes| <= USIZE_MAX && index <= |bytes| && depth < MAX_DEPTH && Scan(bytes, index, depth + 1)
    ensures SameAnswer(bytes, depth, SkipItems(bytes, index, depth), FreeItems(bytes, index))
    decreases |bytes| - index, 1
  {
    if index < |bytes| && bytes[index] != LOWER_E {
      ScannedValue(bytes, index, depth + 1);
      var next := SkipFree(bytes, index);
      if next.Ok? {
        ScannedItems(bytes, next.value, depth);
      }
    }
  }

  lemma {:induction false} ScannedEntries(bytes: seq<byte>, index: nat, depth: nat)
    requires |bytes| <= USIZE_MAX && index <= |bytes| && depth < MAX_DEPTH && Scan(bytes, index, depth + 1)
    ensures SameAnswer(bytes, depth, SkipEntries(bytes, index, depth), FreeEntries(bytes, index))
    decreases |bytes| - index, 1
  {
    if index < |bytes| && bytes[index] != LOWER_E && ParseStr(bytes, index).Ok? {
      var at := ParseStr(bytes, index).value.end;
      ScanReadStr(bytes, index, depth + 1, at);
      ScannedValue(bytes, at, depth + 1);
      var next := SkipFree(bytes, at);
      if next.Ok? {
        ScannedEntries(bytes, next.value, depth);
      }
    }
  }

  /** What the depth check is for: on any bytes it accepts, well-formed or not, the
      skipper's own depth test never fires. */
  lemma DepthCheckSuffices(bytes: seq<byte>)
    requires |bytes| <= USIZE_MAX && Scan(bytes, 0, 0)
    ensures Skip(bytes, 0, 0) == SkipFree(bytes, 0)
  {
    ScannedValue(bytes, 0, 0);
  }

  // ----- the info dictionary -----

  /** The key `info`. */
  predicate IsInfo(key: seq<byte>) { |key| == 4 && key[0] == 105 && key[1] == 110 && key[2] == 102 && key[3] == 111 }

  datatype Extracted = Slice(span: Span) | Missing | Malformed

  /** The entry loop of `extract_info_dictionary_slice`. */
  function FindInfo(bytes: seq<byte>, index: nat): Extracted
    requires index <= |bytes|
    decreases |bytes| - index
  {
    if index >= |bytes| || bytes[index] == LOWER_E then Missing
    else match ParseStr(bytes, index)
      case Err => Malformed
      case Ok(key) =>
        match Skip(bytes, key.end, 0)
        case Err => Malformed
        case Ok(end) =>
          if IsInfo(bytes[key.start..key.end]) then Slice(Span(key.end, end)) else FindInfo(bytes, end)
  }

  function Extract(bytes: seq<byte>): Extracted {
    if bytes == [] || bytes[0] != LOWER_D then Malformed else FindInfo(bytes, 1)
  }

  /** The first `info` value of a dictionary, provided nothing up to it is too deep. */
  datatype FirstInfo = Found(value: Value) | NoInfo | TooDeep

  function Expected(es: Entries): FirstInfo {
    if es.Done? then NoInfo
    else if Level(es.value) > MAX_DEPTH then TooDeep
    else if IsInfo(es.key.text) then Found(es.value)
    else Expected(es.rest)
  }

  ghost predicate Agrees(bytes: seq<byte>, got: Extracted, want: FirstInfo) {
    match want
    case Found(v) =>
      got.Slice? && got.span.start <= got.span.end <= |bytes| && bytes[got.span.start..got.span.end] == Enc(v)
    case NoInfo => got == Missing
    case TooDeep => got == Malformed
  }

  lemma FindInfoTurn(bytes: seq<byte>, index: nat, key: Span)
    requires index < |bytes| && IsDigit(bytes[index]) && ParseStr(bytes, index) == Ok(key)
    ensures FindInfo(bytes, index)
            == var r := Skip(bytes, key.end, 0);
               if r.Err? then Malformed
               else if IsInfo(bytes[key.start..key.end]) then Slice(Span(key.end, r.value))
               else FindInfo(bytes, r.value)
  {
  }

  lemma KeyParses(bytes: seq<byte>, index: nat, key: ByteString, at: nat)
    requires |bytes| <= USIZE_MAX && At(bytes, index, EncStr(key)) && at == index + |EncStr(key)|
    ensures index < |bytes| && IsDigit(bytes[index]) && at <= |bytes|
    ensures ParseStr(bytes, index) == Ok(Span(index + |key.digits| + 1, at))
            && bytes[index + |key.digits| + 1..at] == key.text
  {
    StrDigitsAt(bytes, index, key);
  }

  /** One turn of the search over an encoded entry. */
  lemma FindInfoEntry(bytes: seq<byte>, index: nat, key: ByteString, at: nat, r: Result<nat>, got: Extracted,
                      after: Extracted)
    requires |bytes| <= USIZE_MAX && At(bytes, index, EncStr(key)) && at == index + |EncStr(key)|
    requires r == Skip(bytes, at, 0) && got == FindInfo(bytes, index) && (r.Ok? ==> after == FindInfo(bytes, r.value))
    ensures got == if r.Err? then Malformed else if IsInfo(key.text) then Slice(Span(at, r.value)) else after
  {
    KeyParses(bytes, index, key, at);
    FindInfoTurn(bytes, index, Span(index + |key.digits| + 1, at));
  }

  lemma SkippedTo(bytes: seq<byte>, at: nat, v: Value, next: nat, level: nat, r: Result<nat>)
    requires |bytes| <= USIZE_MAX && At(bytes, at, Enc(v)) && next == at + |Enc(v)| && level == Level(v)
    requires r == Skip(bytes, at, 0)
    ensures r == if level <= MAX_DEPTH then Ok(next) else Err
  {
    SkipExact(bytes, at, v, 0);
  }

  lemma FindInfoStep(bytes: seq<byte>, index: nat, es: Entries, at: nat, next: nat, level: nat, got: Extracted,
                     after: Extracted)
    requires |bytes| <= USIZE_MAX && es.Entry? && At(bytes, index, EncStr(es.key)) && at == index + |EncStr(es.key)|
    requires At(bytes, at, Enc(es.value)) && next == at + |Enc(es.value)| && level == Level(es.value)
    requires got == FindInfo(bytes, index) && after == FindInfo(bytes, next)
    ensures got == if level > MAX_DEPTH then Malformed else if IsInfo(es.key.text) then Slice(Span(at, next)) else after
  {
    var r := Skip(bytes, at, 0);
    SkippedTo(bytes, at, es.value, next, level, r);
    FindInfoEntry(bytes, index, es.key, at, r, got, after);
  }

  lemma {:induction false} FindInfoExact(bytes: seq<byte>, index: nat, es: Entries, end: nat, got: Extracted)
    requires |bytes| <= USIZE_MAX && At(bytes, index, EncEntries(es))
    requires end == index + |EncEntries(es)| && Marker(bytes, end, LOWER_E) && got == FindInfo(bytes, index)
    ensures Agrees(bytes, got, Expected(es))
    decreases es
  {
    if es.Entry? {
      var at := index + |EncStr(es.key)|;
      var next := at + |Enc(es.value)|;
      AtEntries(bytes, index, es, at, next, end);
      var after := FindInfo(bytes, next);
      FindInfoStep(bytes, index, es, at, next, Level(es.value), got, after);
      if Level(es.value) <= MAX_DEPTH && !IsInfo(es.key.text) {
        FindInfoExact(bytes, next, es.rest, end, after);
      }
    }
  }

  /** Extraction from any encoded dictionary, whatever follows it; after the
      depth check, `TooDeep` cannot happen. */
  lemma ExtractExact(es: Entries, rest: seq<byte>)
    requires |Enc(Dict(es)) + rest| <= USIZE_MAX
    ensures Agrees(Enc(Dict(es)) + rest, Extract(Enc(Dict(es)) + rest), Expected(es))
    ensures Nesting(Dict(es)) <= MAX_DEPTH ==> !Expected(es).TooDeep?
  {
    var bytes := Enc(Dict(es)) + rest;
    assert bytes[0..0 + |Enc(Dict(es))|] == Enc(Dict(es));
    AtContainer(bytes, 0, LOWER_D, EncEntries(es));
    FindInfoExact(bytes, 1, es, 1 + |EncEntries(es)|, Extract(bytes));
    if Nesting(Dict(es)) <= MAX_DEPTH {
      ShallowHasNoDeep(es);
    }
  }

  lemma {:induction false} ShallowHasNoDeep(es: Entries)
    requires NestingEntries(es) <= MAX_DEPTH
    ensures !Expected(es).TooDeep?
  {
    if es.Entry? {
      LevelWithinNesting(es.value);
      ShallowHasNoDeep(es.rest);
    }
  }

  predicate HasNoInfo(es: Entries) { es.Entry? ==> !IsInfo(es.key.text) && HasNoInfo(es.rest) }

  /** On arbitrary bytes: a slice that is returned is one whole value, it follows
      the key `info`, and only other entries precede that key. */
  lemma {:induction false} FindInfoSound(bytes: seq<byte>, index: nat)
    returns (before: Entries, key: ByteString, v: Value)
    requires index <= |bytes| && FindInfo(bytes, index).Slice?
    ensures var span := FindInfo(bytes, index).span;
            && index <= span.start <= span.end <= |bytes| && bytes[span.start..span.end] == Enc(v)
            && HasNoInfo(before) && IsInfo(key.text)
            && bytes[index..span.start] == EncEntries(before) + EncStr(key)
    decreases |bytes| - index
  {
    var first := ParseStr(bytes, index).value;
    var end := Skip(bytes, first.end, 0).value;
    key := StrSound(bytes, index);
    v := SkipSound(bytes, first.end, 0);
    before := Done;
    if IsInfo(key.text) {
      assert EncEntries(before) + EncStr(key) == EncStr(key);
    } else {
      var k, value := key, v;
      before, key, v := FindInfoSound(bytes, end);
      FoundAfter(bytes, index, first.end, end, FindInfo(bytes, index).span.start, EncStr(k), Enc(value),
                 EncEntries(before), EncStr(key));
      before := Entry(k, value, before);
    }
  }

  lemma FoundAfter(bytes: seq<byte>, a: nat, b: nat, c: nat, d: nat, k: seq<byte>, v: seq<byte>, m: seq<byte>,
                   i: seq<byte>)
    requires a <= b <= c <= d <= |bytes|
    requires bytes[a..b] == k && bytes[b..c] == v && bytes[c..d] == m + i
    ensures bytes[a..d] == k + v + m + i
  {
    Joined(bytes, a, b, c);
    Joined(bytes, a, c, d);
    assert k + v + (m + i) == k + v + m + i;
  }

  // ----- the program's own loops -----

  method ParseByteString(bytes: seq<byte>, start: nat) returns (r: Result<Span>)
    ensures r == ParseStr(bytes, start)
  {
    if start >= |bytes| || !IsDigit(bytes[start]) {
      return Err;
    }
    var index := start;
    while index < |bytes| && IsDigit(bytes[index])
      invariant start <= index <= |bytes| && DigitsEnd(bytes, start) == DigitsEnd(bytes, index)
    {
      index := index + 1;
    }
    if index >= |bytes| || bytes[index] != COLON {
      return Err;
    }
    var len := NatOf(bytes[start..index]);
    if len > USIZE_MAX || index + 1 + len > USIZE_MAX || index + 1 + len > |bytes| {
      return Err;
    }
    r := Ok(Span(index + 1, index + 1 + len));
  }

  method SkipBencodeValue(bytes: seq<byte>, start: nat, depth: nat) returns (r: Result<nat>)
    requires start <= |bytes|
    ensures r == Skip(bytes, start, depth)
    decreases |bytes| - start
  {
    if depth > MAX_DEPTH || start >= |bytes| {
      return Err;
    }
    if bytes[start] == LOWER_I {
      var index := start + 1;
      while index < |bytes| && bytes[index] != LOWER_E
        invariant start < index <= |bytes| && FindE(bytes, start + 1) == FindE(bytes, index)
      {
        index := index + 1;
      }
      return if index >= |bytes| then Err else Ok(index + 1);
    } else if bytes[start] == LOWER_L {
      var index := start + 1;
      while index < |bytes| && bytes[index] != LOWER_E
        invariant start < index <= |bytes| && SkipItems(bytes, start + 1, depth) == SkipItems(bytes, index, depth)
        decreases |bytes| - index
      {
        SkipItemsTurn(bytes, index, depth);
        var next := SkipBencodeValue(bytes, index, depth + 1);
        if next.Err? {
          return Err;
        }
        index := next.value;
      }
      return if index >= |bytes| then Err else Ok(index + 1);
    } else if bytes[start] == LOWER_D {
      r := SkipDictionary(bytes, start, depth);
    } else {
      var span := ParseByteString(bytes, start);
      return if span.Err? then Err else Ok(span.value.end);
    }
  }

  method SkipDictionary(bytes: seq<byte>, start: nat, depth: nat) returns (r: Result<nat>)
    requires start < |bytes| && bytes[start] == LOWER_D && depth <= MAX_DEPTH
    ensures r == SkipEntries(bytes, start + 1, depth)
    decreases |bytes| - start, 0
  {
    var index := start + 1;
    while index < |bytes| && bytes[index] != LOWER_E
      invariant start < index <= |bytes| && SkipEntries(bytes, start + 1, depth) == SkipEntries(bytes, index, depth)
      decreases |bytes| - index
    {
      var span := ParseByteString(bytes, index);
      if span.Err? {
        return Err;
      }
      SkipEntriesTurn(bytes, index, depth, span.value.end);
      var next := SkipBencodeValue(bytes, span.value.end, depth + 1);
      if next.Err? {
        return Err;
      }
      index := next.value;
    }
    return if index >= |bytes| then Err else Ok(index + 1);
  }

  method CheckBencodeDepth(bytes: seq<byte>) returns (ok: bool)
    requires |bytes| <= USIZE_MAX
    ensures ok == Scan(bytes, 0, 0)
  {
    var depth, index := 0, 0;
    while index < |bytes|
      invariant 0 <= depth && 0 <= index && Scan(bytes, 0, 0) == Scan(bytes, index, depth)
      decreases |bytes| - index
    {
      if bytes[index] == LOWER_L || bytes[index] == LOWER_D {
        depth := depth + 1;
        if depth > MAX_DEPTH {
          return false;
        }
        index := index + 1;
      } else if bytes[index] == LOWER_E {
        depth := if depth == 0 then 0 else depth - 1;
        index := index + 1;
      } else if bytes[index] == LOWER_I {
        index := ScanToE(bytes, index);
        index := index + 1;
      } else if IsDigit(bytes[index]) {
        var len: nat;
        index, len := ScanDigits(bytes, index);
        index := Sat(Sat(index + 1) + len);
      } else {
        return true;
      }
    }
    return true;
  }

  method ScanToE(bytes: seq<byte>, start: nat) returns (index: nat)
    requires start <= |bytes|
    ensures index == FindE(bytes, start)
  {
    index := start;
    while index < |bytes| && bytes[index] != LOWER_E
      invariant start <= index <= |bytes| && FindE(bytes, start) == FindE(bytes, index)
    {
      index := index + 1;
    }
  }

  /** The decimal loop with saturating arithmetic. */
  method ScanDigits(bytes: seq<byte>, start: nat) returns (index: nat, len: nat)
    requires start <= |bytes|
    ensures index == DigitsEnd(bytes, start) && len == Sat(NatOf(bytes[start..index]))
  {
    index, len := start, 0;
    while index < |bytes| && IsDigit(bytes[index])
      invariant start <= index <= |bytes| && DigitsEnd(bytes, start) == DigitsEnd(bytes, index)
      invariant len == Sat(NatOf(bytes[start..index]))
    {
      assert bytes[start..index + 1][..index - start] == bytes[start..index];
      len := Sat(Sat(len * 10) + DigitValue(bytes[index]));
      index := index + 1;
    }
  }

  method ExtractInfoSlice(bytes: seq<byte>) returns (r: Extracted)
    ensures r == Extract(bytes)
  {
    if bytes == [] || bytes[0] != LOWER_D {
      return Malformed;
    }
    var index := 1;
    while index < |bytes| && bytes[index] != LOWER_E
      invariant 1 <= index <= |bytes| && FindInfo(bytes, 1) == FindInfo(bytes, index)
      decreases |bytes| - index
    {
      var key := ParseByteString(bytes, index);
      if key.Err? {
        return Malformed;
      }
      FindInfoTurn(bytes, index, key.value);
      var end := SkipBencodeValue(bytes, key.value.end, 0);
      if end.Err? {
        return Malformed;
      }
      if IsInfo(bytes[key.value.start..key.value.end]) {
        return Slice(Span(key.value.end, end.value));
      }
      index := end.value;
    }
    return Missing;
  }
}
