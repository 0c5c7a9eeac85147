/** Assembly of one piece from blocks that arrive in any order, repeated or
    unasked for (src/core/assembler.rs). */
module Assembler {
  import opened Common

  const BLOCK_SIZE: nat := 16384

  function BlockCount(expected: nat): nat { (expected + BLOCK_SIZE - 1) / BLOCK_SIZE }
  function Begin(i: nat): nat { i * BLOCK_SIZE }
  function Length(expected: nat, i: nat): nat
    requires i < BlockCount(expected)
  {
    Min(BLOCK_SIZE, expected - Begin(i))
  }

  /** Blocks are not empty, each ends where the next begins, and the last one
      ends the piece. */
  lemma BlocksTile(expected: nat, i: nat)
    requires i < BlockCount(expected)
    ensures 0 < Length(expected, i) <= BLOCK_SIZE
    ensures Begin(i) + Length(expected, i) == if i + 1 < BlockCount(expected) then Begin(i + 1) else expected
  {
  }

  /** What the assembler holds, apart from request times. */
  datatype Asm = Asm(expected: nat, done: seq<bool>, buffer: seq<byte>, received: nat)

  datatype Outcome = InProgress | Complete(bytes: seq<byte>) | Refused

  predicate Shaped(a: Asm) {
    |a.done| == BlockCount(a.expected) && |a.buffer| == a.expected
  }

  function Fresh(expected: nat): (a: Asm)
    ensures Shaped(a)
  {
    Asm(expected, seq(BlockCount(expected), i => false), seq(expected, i => 0), 0)
  }

  /** The delivery is exactly block `i`. */
  predicate IsBlock(expected: nat, i: nat, begin: nat, size: nat) {
    i < BlockCount(expected) && begin == Begin(i) && size == Length(expected, i)
  }

  /** The block a delivery is for, if any. */
  function BlockOf(expected: nat, begin: nat, size: nat): (r: Option<nat>)
    ensures r.Some? ==> IsBlock(expected, r.value, begin, size)
    ensures forall i: nat :: IsBlock(expected, i, begin, size) ==> r == Some(i)
  {
    if IsBlock(expected, begin / BLOCK_SIZE, begin, size) then Some(begin / BLOCK_SIZE) else None
  }

  function AddBlock(a: Asm, begin: nat, data: seq<byte>): (r: (Asm, Outcome))
    requires Shaped(a)
    ensures Shaped(r.0) && r.0.expected == a.expected
  {
    match BlockOf(a.expected, begin, |data|)
    case None => (a, Refused)
    case Some(i) =>
      if a.done[i] then (a, InProgress)
      else
        BlocksTile(a.expected, i);
        var b := Asm(a.expected, a.done[i := true], Overlay(a.buffer, begin, data), a.received + |data|);
        (b, if b.received == a.expected then Complete(b.buffer) else InProgress)
  }

  // ----- what was received -----

  /** Bytes of the completed blocks among the first `n`. */
  function DoneBytes(expected: nat, done: seq<bool>, n: nat): (r: nat)
    requires n <= |done| == BlockCount(expected)
  {
    if n == 0 then 0 else DoneBytes(expected, done, n - 1) + if done[n - 1] then Length(expected, n - 1) else 0
  }

  lemma {:induction false} DoneBytesAdd(expected: nat, done: seq<bool>, i: nat, n: nat)
    requires n <= |done| == BlockCount(expected) && i < |done| && !done[i]
    ensures DoneBytes(expected, done[i := true], n)
            == DoneBytes(expected, done, n) + if i < n then Length(expected, i) else 0
  {
    if n > 0 {
      DoneBytesAdd(expected, done, i, n - 1);
    }
  }

  /** The completed bytes reach the end of block `n` exactly when no block before it is missing. */
  lemma {:induction false} DoneBytesFull(expected: nat, done: seq<bool>, n: nat)
    requires n <= |done| == BlockCount(expected)
    ensures DoneBytes(expected, done, n) <= Min(Begin(n), expected)
    ensures DoneBytes(expected, done, n) == Min(Begin(n), expected) <==> forall j :: 0 <= j < n ==> done[j]
  {
    if n > 0 {
      BlocksTile(expected, n - 1);
      DoneBytesFull(expected, done, n - 1);
    }
  }

  // ----- every run of deliveries -----

  datatype Delivery = Delivery(begin: nat, data: seq<byte>)

  predicate For(expected: nat, d: Delivery, i: nat) { IsBlock(expected, i, d.begin, |d.data|) }

  /** Some delivery was for block `i`. */
  ghost predicate Came(expected: nat, ds: seq<Delivery>, i: nat) {
    exists k :: 0 <= k < |ds| && For(expected, ds[k], i)
  }

  /** The byte at `p` as the first delivery of its block brought it; zero before that. */
  function FirstByte(expected: nat, ds: seq<Delivery>, i: nat, p: nat): byte
    requires i < BlockCount(expected) && p < Length(expected, i)
  {
    if |ds| == 0 then 0
    else if For(expected, ds[0], i) then ds[0].data[p]
    else FirstByte(expected, ds[1..], i, p)
  }

  function After(expected: nat, ds: seq<Delivery>): (a: Asm)
    ensures Shaped(a) && a.expected == expected
  {
    if |ds| == 0 then Fresh(expected)
    else AddBlock(After(expected, ds[..|ds| - 1]), ds[|ds| - 1].begin, ds[|ds| - 1].data).0
  }

  /** What the `k`-th delivery was answered. */
  function Answer(expected: nat, ds: seq<Delivery>, k: nat): Outcome
    requires k < |ds|
  {
    AddBlock(After(expected, ds[..k]), ds[k].begin, ds[k].data).1
  }

  ghost predicate ByteRight(expected: nat, buffer: seq<byte>, ds: seq<Delivery>, i: nat, p: nat)
    requires |buffer| == expected
  {
    i < BlockCount(expected) && p < Length(expected, i) ==>
      Begin(i) + p < expected && buffer[Begin(i) + p] == FirstByte(expected, ds, i, p)
  }

  /** The buffer holds the first delivery of each block. */
  ghost predicate Holds(a: Asm, ds: seq<Delivery>) {
    && Shaped(a)
    && (forall i: nat :: i < |a.done| ==> (a.done[i] <==> Came(a.expected, ds, i)))
    && (forall i: nat, p: nat :: ByteRight(a.expected, a.buffer, ds, i, p))
    && a.received == DoneBytes(a.expected, a.done, |a.done|)
  }

  lemma {:induction false} FirstByteAppend(expected: nat, ds: seq<Delivery>, d: Delivery, i: nat, p: nat)
    requires i < BlockCount(expected) && p < Length(expected, i)
    ensures FirstByte(expected, ds + [d], i, p)
            == if Came(expected, ds, i) then FirstByte(expected, ds, i, p)
               else if For(expected, d, i) then d.data[p] else 0
  {
    if |ds| == 0 {
    } else {
      assert (ds + [d])[1..] == ds[1..] + [d] && (ds + [d])[0] == ds[0];
      if !For(expected, ds[0], i) {
        FirstByteAppend(expected, ds[1..], d, i, p);
        CameTail(expected, ds, i);
      }
    }
  }

  lemma CameTail(expected: nat, ds: seq<Delivery>, i: nat)
    requires |ds| > 0 && !For(expected, ds[0], i)
    ensures Came(expected, ds, i) <==> Came(expected, ds[1..], i)
  {
    if Came(expected, ds, i) {
      var k :| 0 <= k < |ds| && For(expected, ds[k], i);
      assert ds[1..][k - 1] == ds[k];
    }
  }

  lemma CameAppend(expected: nat, ds: seq<Delivery>, d: Delivery, i: nat)
    ensures Came(expected, ds + [d], i) <==> Came(expected, ds, i) || For(expected, d, i)
  {
    if Came(expected, ds, i) {
      var k :| 0 <= k < |ds| && For(expected, ds[k], i);
      assert (ds + [d])[k] == ds[k];
    }
    assert (ds + [d])[|ds|] == d;
  }

  lemma OverlaidAt(buffer: seq<byte>, begin: nat, data: seq<byte>, p: nat)
    requires begin + |data| <= |buffer| && p < |buffer|
    ensures Overlay(buffer, begin, data)[p] == if begin <= p < begin + |data| then data[p - begin] else buffer[p]
  {
  }

  lemma SameBlock(expected: nat, i: nat, j: nat, p: nat)
    requires i < BlockCount(expected) && j < BlockCount(expected) && p < Length(expected, j)
    ensures Begin(i) <= Begin(j) + p < Begin(i) + Length(expected, i) <==> i == j
    ensures Begin(j) + p < expected
  {
    BlocksTile(expected, i);
    BlocksTile(expected, j);
  }

  lemma FreshHolds(expected: nat)
    ensures Holds(Fresh(expected), [])
  {
    var a := Fresh(expected);
    forall i: nat, p: nat ensures ByteRight(expected, a.buffer, [], i, p) {
      if i < BlockCount(expected) && p < Length(expected, i) {
        SameBlock(expected, i, i, p);
      }
    }
    NothingDone(expected, a.done, |a.done|);
  }

  lemma {:induction false} NothingDone(expected: nat, done: seq<bool>, n: nat)
    requires n <= |done| == BlockCount(expected) && forall i :: 0 <= i < |done| ==> !done[i]
    ensures DoneBytes(expected, done, n) == 0
  {
    if n > 0 {
      NothingDone(expected, done, n - 1);
    }
  }

  /** A delivery that changes nothing still belongs to the history. */
  lemma StaleKeeps(a: Asm, ds: seq<Delivery>, d: Delivery)
    requires Holds(a, ds) && forall i: nat :: For(a.expected, d, i) ==> a.done[i]
    ensures Holds(a, ds + [d])
  {
    forall i: nat | i < |a.done| ensures a.done[i] <==> Came(a.expected, ds + [d], i) {
      CameAppend(a.expected, ds, d, i);
    }
    forall i: nat, p: nat ensures ByteRight(a.expected, a.buffer, ds + [d], i, p) {
      assert ByteRight(a.expected, a.buffer, ds, i, p);
      if i < |a.done| && p < Length(a.expected, i) {
        FirstByteAppend(a.expected, ds, d, i, p);
        if !Came(a.expected, ds, i) {
          ZeroBefore(a.expected, ds, i, p);
        }
      }
    }
  }

  lemma {:induction false} ZeroBefore(expected: nat, ds: seq<Delivery>, i: nat, p: nat)
    requires i < BlockCount(expected) && p < Length(expected, i) && !Came(expected, ds, i)
    ensures FirstByte(expected, ds, i, p) == 0
  {
    if |ds| > 0 {
      CameTail(expected, ds, i);
      ZeroBefore(expected, ds[1..], i, p);
    }
  }

  lemma NewByteRight(a: Asm, ds: seq<Delivery>, d: Delivery, i: nat, j: nat, p: nat)
    requires Shaped(a) && For(a.expected, d, i) && !Came(a.expected, ds, i) && ByteRight(a.expected, a.buffer, ds, j, p)
    requires j < BlockCount(a.expected) && p < Length(a.expected, j) && d.begin + |d.data| <= |a.buffer|
    ensures ByteRight(a.expected, Overlay(a.buffer, d.begin, d.data), ds + [d], j, p)
  {
    SameBlock(a.expected, i, j, p);
    OverlaidAt(a.buffer, d.begin, d.data, Begin(j) + p);
    FirstByteAppend(a.expected, ds, d, j, p);
    if !Came(a.expected, ds, j) {
      ZeroBefore(a.expected, ds, j, p);
    }
  }

  lemma NewBlockKeeps(a: Asm, ds: seq<Delivery>, d: Delivery, i: nat)
    requires Holds(a, ds) && For(a.expected, d, i) && !a.done[i]
    ensures Holds(AddBlock(a, d.begin, d.data).0, ds + [d])
  {
    var b := AddBlock(a, d.begin, d.data).0;
    assert BlockOf(a.expected, d.begin, |d.data|) == Some(i);
    BlocksTile(a.expected, i);
    DoneBytesAdd(a.expected, a.done, i, |a.done|);
    forall j: nat | j < |b.done| ensures b.done[j] <==> Came(b.expected, ds + [d], j) {
      CameAppend(a.expected, ds, d, j);
    }
    forall j: nat, p: nat ensures ByteRight(b.expected, b.buffer, ds + [d], j, p) {
      if j < |b.done| && p < Length(b.expected, j) {
        NewByteRight(a, ds, d, i, j, p);
      }
    }
  }

  lemma StepHolds(a: Asm, ds: seq<Delivery>, d: Delivery)
    requires Holds(a, ds)
    ensures Holds(AddBlock(a, d.begin, d.data).0, ds + [d])
  {
    var r := BlockOf(a.expected, d.begin, |d.data|);
    if r.Some? && !a.done[r.value] {
      NewBlockKeeps(a, ds, d, r.value);
    } else {
      StaleKeeps(a, ds, d);
    }
  }

  /** After any mix of new, repeated and unexpected deliveries, the buffer holds
      the first accepted data at each offset and the counter is its size. */
  lemma {:induction false} RunHolds(expected: nat, ds: seq<Delivery>)
    ensures Holds(After(expected, ds), ds)
  {
    if |ds| == 0 {
      FreshHolds(expected);
    } else {
      var before := ds[..|ds| - 1];
      RunHolds(expected, before);
      StepHolds(After(expected, before), before, ds[|ds| - 1]);
      assert before + [ds[|ds| - 1]] == ds;
    }
  }

  /** Block `i` is the last one to come with delivery `d`. */
  ghost predicate Completes(expected: nat, before: seq<Delivery>, d: Delivery, i: nat) {
    && For(expected, d, i) && !Came(expected, before, i)
    && forall j: nat :: j < BlockCount(expected) && j != i ==> Came(expected, before, j)
  }

  lemma AnswerCompletes(a: Asm, ds: seq<Delivery>, d: Delivery, i: nat)
    requires Holds(a, ds) && For(a.expected, d, i)
    ensures AddBlock(a, d.begin, d.data).1.Complete? <==> Completes(a.expected, ds, d, i)
    ensures !AddBlock(a, d.begin, d.data).1.Refused?
  {
    assert BlockOf(a.expected, d.begin, |d.data|) == Some(i);
    if !a.done[i] {
      var b := AddBlock(a, d.begin, d.data).0;
      DoneBytesAdd(a.expected, a.done, i, |a.done|);
      DoneBytesFull(a.expected, b.done, |b.done|);
      BlocksTile(a.expected, |a.done| - 1);
      assert b.received == a.expected <==> forall j :: 0 <= j < |b.done| ==> b.done[j];
      AllButOne(a, ds, d, i, b.done);
    }
  }

  lemma AllButOne(a: Asm, ds: seq<Delivery>, d: Delivery, i: nat, done: seq<bool>)
    requires Holds(a, ds) && For(a.expected, d, i) && !a.done[i] && done == a.done[i := true]
    ensures (forall j :: 0 <= j < |done| ==> done[j]) <==> Completes(a.expected, ds, d, i)
  {
    if Completes(a.expected, ds, d, i) {
      forall j | 0 <= j < |done| ensures done[j] {
        assert j != i ==> Came(a.expected, ds, j);
      }
    } else {
      var j: nat :| j < BlockCount(a.expected) && j != i && !Came(a.expected, ds, j);
      assert !done[j];
    }
  }

  /** The answer to each delivery of a run, from the history alone: refused when
      it is no block, complete exactly when it is the last block to come. */
  lemma AnswerExact(expected: nat, ds: seq<Delivery>, k: nat)
    requires k < |ds|
    ensures Answer(expected, ds, k).Refused? <==> forall i: nat :: !For(expected, ds[k], i)
    ensures Answer(expected, ds, k).Complete? <==> exists i: nat :: Completes(expected, ds[..k], ds[k], i)
  {
    RunHolds(expected, ds[..k]);
    var r := BlockOf(expected, ds[k].begin, |ds[k].data|);
    if r.Some? {
      assert For(expected, ds[k], r.value);
      AnswerCompletes(After(expected, ds[..k]), ds[..k], ds[k], r.value);
    }
  }

  /** The buffer handed over is the first accepted data at every offset, and no block is missing. */
  lemma CompleteBytes(expected: nat, ds: seq<Delivery>, k: nat, i: nat, p: nat)
    requires k < |ds| && Answer(expected, ds, k).Complete? && i < BlockCount(expected) && p < Length(expected, i)
    ensures var bytes := Answer(expected, ds, k).bytes;
            && |bytes| == expected && Came(expected, ds[..k + 1], i)
            && Begin(i) + p < expected && bytes[Begin(i) + p] == FirstByte(expected, ds[..k + 1], i, p)
  {
    AnswerExact(expected, ds, k);
    RunHolds(expected, ds[..k + 1]);
    var last :| Completes(expected, ds[..k], ds[k], last);
    assert ds[..k + 1][..k] == ds[..k] && ds[..k] + [ds[k]] == ds[..k + 1];
    CameAppend(expected, ds[..k], ds[k], i);
    assert ByteRight(expected, After(expected, ds[..k + 1]).buffer, ds[..k + 1], i, p);
  }

  lemma CameStays(expected: nat, ds: seq<Delivery>, k: nat, m: nat, i: nat)
    requires k <= m <= |ds| && Came(expected, ds[..k], i)
    ensures Came(expected, ds[..m], i)
  {
    var e :| 0 <= e < |ds[..k]| && For(expected, ds[..k][e], i);
    assert ds[..m][e] == ds[..k][e];
  }

  /** Complete is answered at most once in a run. */
  lemma CompletesOnce(expected: nat, ds: seq<Delivery>, k: nat, m: nat)
    requires k < m < |ds| && Answer(expected, ds, k).Complete?
    ensures !Answer(expected, ds, m).Complete?
  {
    AnswerExact(expected, ds, k);
    AnswerExact(expected, ds, m);
    var i :| Completes(expected, ds[..k], ds[k], i);
    assert ds[..m][k] == ds[k];
    forall j: nat ensures !Completes(expected, ds[..m], ds[m], j) {
      if j < BlockCount(expected) && j != i {
        CameStays(expected, ds, k, m, j);
      }
    }
  }

  /** A piece of length zero has no block, so it never completes. */
  lemma EmptyNeverCompletes(ds: seq<Delivery>, k: nat)
    requires k < |ds|
    ensures Answer(0, ds, k) == Refused
  {
    AnswerExact(0, ds, k);
  }

  // ----- blocks and their request times -----

  datatype Block = Block(begin: nat, length: nat, requestedAt: Option<nat>, completed: bool)
  datatype BlockClass = ExpectedNew | Duplicate | Unexpected
  datatype Request = Request(begin: nat, length: nat, again: bool)

  function Completed(blocks: seq<Block>): (r: seq<bool>)
    ensures |r| == |blocks| && forall i :: 0 <= i < |r| ==> r[i] == blocks[i].completed
  {
    seq(|blocks|, i requires 0 <= i < |blocks| => blocks[i].completed)
  }

  ghost predicate Tiled(expected: nat, blocks: seq<Block>) {
    && |blocks| == BlockCount(expected)
    && forall i :: 0 <= i < |blocks| ==> blocks[i].begin == Begin(i) && blocks[i].length == Length(expected, i)
  }

  /** Not completed, and never requested or requested too long ago. */
  predicate Due(b: Block, now: nat, timeout: nat) {
    !b.completed && (b.requestedAt.None? || now - b.requestedAt.value > timeout)
  }

  /** The first due block from `i` on. */
  function FirstDue(blocks: seq<Block>, i: nat, now: nat, timeout: nat): (r: Option<nat>)
    requires i <= |blocks|
    ensures r.None? ==> forall j :: i <= j < |blocks| ==> !Due(blocks[j], now, timeout)
    ensures r.Some? ==> i <= r.value < |blocks| && Due(blocks[r.value], now, timeout)
                        && forall j :: i <= j < r.value ==> !Due(blocks[j], now, timeout)
    decreases |blocks| - i
  {
    if i == |blocks| then None
    else if Due(blocks[i], now, timeout) then Some(i)
    else FirstDue(blocks, i + 1, now, timeout)
  }

  /** The calls that change the blocks. */
  datatype Call = Ask(now: nat, timeout: nat) | Reset | Deliver(begin: nat, size: nat)

  function Called(expected: nat, blocks: seq<Block>, c: Call): (r: seq<Block>)
    requires |blocks| == BlockCount(expected)
    ensures |r| == |blocks|
  {
    match c
    case Ask(now, timeout) =>
      var due := FirstDue(blocks, 0, now, timeout);
      if due.None? then blocks else blocks[due.value := blocks[due.value].(requestedAt := Some(now))]
    case Reset =>
      seq(|blocks|, i requires 0 <= i < |blocks| =>
        if blocks[i].completed then blocks[i] else blocks[i].(requestedAt := None))
    case Deliver(begin, size) =>
      var at := BlockOf(expected, begin, size);
      if at.None? then blocks else blocks[at.value := blocks[at.value].(completed := true)]
  }

  // ----- requests in every run of calls -----

  function BlocksAfter(expected: nat, h: seq<Call>): (r: seq<Block>)
    ensures |r| == BlockCount(expected)
  {
    if |h| == 0 then
      seq(BlockCount(expected), i requires 0 <= i < BlockCount(expected) =>
        Block(Begin(i), Length(expected, i), None, false))
    else Called(expected, BlocksAfter(expected, h[..|h| - 1]), h[|h| - 1])
  }

  /** The block that the last call of `h` asked for, if it asked for one. */
  function AskedFor(expected: nat, h: seq<Call>): Option<nat>
    requires |h| > 0
  {
    var c := h[|h| - 1];
    if c.Ask? then FirstDue(BlocksAfter(expected, h[..|h| - 1]), 0, c.now, c.timeout) else None
  }

  /** When block `i` was last asked for since the last reset. */
  function LastAsked(expected: nat, h: seq<Call>, i: nat): Option<nat> {
    if |h| == 0 || h[|h| - 1].Reset? then None
    else if h[|h| - 1].Ask? && AskedFor(expected, h) == Some(i) then Some(h[|h| - 1].now)
    else LastAsked(expected, h[..|h| - 1], i)
  }

  predicate Brings(expected: nat, c: Call, i: nat) { c.Deliver? && IsBlock(expected, i, c.begin, c.size) }

  ghost predicate Delivered(expected: nat, h: seq<Call>, i: nat) {
    exists k :: 0 <= k < |h| && Brings(expected, h[k], i)
  }

  lemma DeliveredLast(expected: nat, h: seq<Call>, i: nat)
    requires |h| > 0
    ensures Delivered(expected, h, i) <==> Delivered(expected, h[..|h| - 1], i) || Brings(expected, h[|h| - 1], i)
  {
    var before := h[..|h| - 1];
    if Delivered(expected, before, i) {
      var k :| 0 <= k < |before| && Brings(expected, before[k], i);
      assert h[k] == before[k];
    }
    if Delivered(expected, h, i) && !Brings(expected, h[|h| - 1], i) {
      var k :| 0 <= k < |h| && Brings(expected, h[k], i);
      assert before[k] == h[k];
    }
  }

  /** The fields of a block, from the history alone. */
  lemma {:induction false} BlockFromHistory(expected: nat, h: seq<Call>, i: nat)
    requires i < BlockCount(expected)
    ensures var b := BlocksAfter(expected, h)[i];
            && b.begin == Begin(i) && b.length == Length(expected, i)
            && (b.completed <==> Delivered(expected, h, i))
            && (!b.completed ==> b.requestedAt == LastAsked(expected, h, i))
  {
    if |h| > 0 {
      BlockFromHistory(expected, h[..|h| - 1], i);
      DeliveredLast(expected, h, i);
    }
  }

  /** Block `i` has not come, and since the last reset it was not asked for, or longer
      than `timeout` ago. */
  ghost predicate Wants(expected: nat, h: seq<Call>, i: nat, now: nat, timeout: nat) {
    && i < BlockCount(expected) && !Delivered(expected, h, i)
    && (LastAsked(expected, h, i).Some? ==> now > LastAsked(expected, h, i).value + timeout)
  }

  /** After any calls, asking yields the first block that the history leaves wanted, and
      nothing exactly when it leaves none. */
  lemma AskExact(expected: nat, h: seq<Call>, now: nat, timeout: nat)
    ensures var r := AskedFor(expected, h + [Ask(now, timeout)]);
            && (r.None? <==> forall i: nat :: !Wants(expected, h, i, now, timeout))
            && (r.Some? ==> Wants(expected, h, r.value, now, timeout)
                            && forall j: nat :: j < r.value ==> !Wants(expected, h, j, now, timeout))
  {
    var all := h + [Ask(now, timeout)];
    assert all[..|all| - 1] == h;
    forall i: nat | i < BlockCount(expected)
      ensures Wants(expected, h, i, now, timeout) <==> Due(BlocksAfter(expected, h)[i], now, timeout)
    {
      BlockFromHistory(expected, h, i);
    }
  }

  lemma {:induction false} AskedSince(expected: nat, h: seq<Call>, k: nat, m: nat, i: nat)
    requires k < m <= |h| && h[k].Ask? && AskedFor(expected, h[..k + 1]) == Some(i)
    requires forall n :: k < n < m ==> !h[n].Reset? && AskedFor(expected, h[..n + 1]) != Some(i)
    ensures LastAsked(expected, h[..m], i) == Some(h[k].now)
  {
    assert h[..m][..m - 1] == h[..m - 1];
    if k < m - 1 {
      AskedSince(expected, h, k, m - 1, i);
      assert h[..m - 1 + 1] == h[..m];
    } else {
      assert h[..k + 1] == h[..m];
    }
  }

  /** In every run of calls: a block is asked for again, with no reset in between, only
      when the timeout has passed since and it has not come. */
  lemma AskedAgain(expected: nat, h: seq<Call>, k: nat, m: nat, i: nat)
    requires k < m < |h| && h[k].Ask? && AskedFor(expected, h[..k + 1]) == Some(i)
    requires forall n :: k < n < m ==> !h[n].Reset? && AskedFor(expected, h[..n + 1]) != Some(i)
    requires h[m].Ask? && AskedFor(expected, h[..m + 1]) == Some(i)
    ensures h[m].now > h[k].now + h[m].timeout && !Delivered(expected, h[..m], i)
  {
    AskedSince(expected, h, k, m, i);
    assert h[..m + 1] == h[..m] + [Ask(h[m].now, h[m].timeout)];
    AskExact(expected, h[..m], h[m].now, h[m].timeout);
  }

  // ----- the assembler itself -----

  method MakeBlocks(expected: nat) returns (blocks: seq<Block>)
    ensures Tiled(expected, blocks)
    ensures forall i :: 0 <= i < |blocks| ==> blocks[i].requestedAt.None? && !blocks[i].completed
  {
    blocks := [];
    for i := 0 to BlockCount(expected)
      invariant |blocks| == i
      invariant forall j :: 0 <= j < i ==> blocks[j] == Block(Begin(j), Length(expected, j), None, false)
    {
      blocks := blocks + [Block(Begin(i), Min(BLOCK_SIZE, expected - Begin(i)), None, false)];
    }
  }

  method FindBlock(expected: nat, blocks: seq<Block>, begin: nat, size: nat) returns (r: Option<nat>)
    requires Tiled(expected, blocks)
    ensures r == BlockOf(expected, begin, size)
  {
    for i := 0 to |blocks|
      invariant forall j: nat :: j < i ==> !IsBlock(expected, j, begin, size)
    {
      if blocks[i].begin == begin && blocks[i].length == size {
        assert IsBlock(expected, i, begin, size);
        return Some(i);
      }
    }
    r := None;
  }

  class PieceAssembler {
    const pieceIndex: nat
    const expectedLength: nat
    var buffer: seq<byte>
    var blocks: seq<Block>
    var receivedBytes: nat

    ghost predicate Valid()
      reads this
    {
      Tiled(expectedLength, blocks) && |buffer| == expectedLength
    }

    ghost function View(): (a: Asm)
      requires Valid()
      reads this
      ensures Shaped(a)
    {
      Asm(expectedLength, Completed(blocks), buffer, receivedBytes)
    }

    constructor (index: nat, expected: nat)
      ensures Valid() && pieceIndex == index && expectedLength == expected && View() == Fresh(expected)
      ensures blocks == BlocksAfter(expected, [])
    {
      pieceIndex, expectedLength := index, expected;
      buffer, receivedBytes := seq(expected, i => 0), 0;
      var made := MakeBlocks(expected);
      blocks := made;
      new;
      assert Completed(blocks) == Fresh(expected).done;
    }

    /** The first due block is requested and stamped; nothing else changes. */
    method NextRequest(now: nat, timeout: nat) returns (r: Option<Request>)
      requires Valid()
      modifies this`blocks
      ensures Valid() && View() == old(View())
      ensures blocks == Called(expectedLength, old(blocks), Ask(now, timeout))
      ensures r.None? ==> blocks == old(blocks) && forall i :: 0 <= i < |blocks| ==>
                blocks[i].completed || (blocks[i].requestedAt.Some? && now <= blocks[i].requestedAt.value + timeout)
      ensures r.Some? ==>
                var due := FirstDue(old(blocks), 0, now, timeout);
                && due.Some? && r.value.begin == Begin(due.value) && r.value.length == Length(expectedLength, due.value)
                && r.value.again == old(blocks)[due.value].requestedAt.Some?
    {
      for i := 0 to |blocks|
        invariant blocks == old(blocks) && FirstDue(blocks, i, now, timeout) == FirstDue(blocks, 0, now, timeout)
      {
        var b := blocks[i];
        if Due(b, now, timeout) {
          r := Some(Request(b.begin, b.length, b.requestedAt.Some?));
          blocks := blocks[i := b.(requestedAt := Some(now))];
          assert Completed(blocks) == Completed(old(blocks));
          return;
        }
      }
      r := None;
    }

    /** What `AddBlock` would make of a block of this place and size. */
    method ClassifyBlock(begin: nat, size: nat) returns (c: BlockClass)
      requires Valid()
      ensures c.Unexpected? <==> BlockOf(expectedLength, begin, size).None?
      ensures !c.Unexpected? ==> (c.Duplicate? <==> View().done[BlockOf(expectedLength, begin, size).value])
    {
      if begin + size > expectedLength {
        Beyond(expectedLength, begin, size);
        return Unexpected;
      }
      var at := FindBlock(expectedLength, blocks, begin, size);
      return if at.None? then Unexpected else if blocks[at.value].completed then Duplicate else ExpectedNew;
    }

    /** Unfinished blocks count as never requested; nothing else changes. */
    method ResetRequests()
      requires Valid()
      modifies this`blocks
      ensures Valid() && View() == old(View())
      ensures blocks == Called(expectedLength, old(blocks), Reset)
    {
      var reset := blocks;
      for i := 0 to |blocks|
        invariant |reset| == |blocks|
        invariant forall j :: 0 <= j < |blocks| ==>
                    reset[j] == if j < i && !blocks[j].completed then blocks[j].(requestedAt := None) else blocks[j]
      {
        if !reset[i].completed {
          reset := reset[i := reset[i].(requestedAt := None)];
        }
      }
      assert Completed(reset) == Completed(blocks);
      blocks := reset;
    }

    method Add(begin: nat, data: seq<byte>) returns (r: Outcome)
      requires Valid()
      modifies this`buffer, this`blocks, this`receivedBytes
      ensures Valid() && (View(), r) == AddBlock(old(View()), begin, data)
      ensures blocks == Called(expectedLength, old(blocks), Deliver(begin, |data|))
    {
      if begin + |data| > expectedLength {
        Beyond(expectedLength, begin, |data|);
        return Refused;
      }
      var at := FindBlock(expectedLength, blocks, begin, |data|);
      if at.None? {
        return Refused;
      }
      if blocks[at.value].completed {
        return InProgress;
      }
      blocks := blocks[at.value := blocks[at.value].(completed := true)];
      assert Completed(blocks) == Completed(old(blocks))[at.value := true];
      buffer := buffer[..begin] + data + buffer[begin + |data|..];
      receivedBytes := receivedBytes + |data|;
      r := if receivedBytes == expectedLength then Complete(buffer) else InProgress;
    }
  }

  lemma Beyond(expected: nat, begin: nat, size: nat)
    requires begin + size > expected
    ensures BlockOf(expected, begin, size).None?
  {
    var r := BlockOf(expected, begin, size);
    if r.Some? {
      BlocksTile(expected, r.value);
    }
  }
}
