/** The token bucket that limits bandwidth (src/net/shaper.rs), over real numbers. */
module Shaper {
  import opened Common

  const MIN_CHUNK: nat := 4096
  const MIN_BURST: real := 16384.0
  /** One millisecond, in seconds. */
  const MIN_WAIT: real := 0.001

  function MinReal(a: real, b: real): real { if a <= b then a else b }
  function MaxReal(a: real, b: real): real { if a >= b then a else b }

  /** A quarter of a second of traffic, at least 16 KiB. */
  function Burst(rate: nat): real { MaxReal(rate as real / 4.0, MIN_BURST) }

  datatype Bucket = Bucket(rate: nat, tokens: real, last: real)

  /** Bytes granted, or the time to wait. */
  datatype Grant = Granted(bytes: nat) | Wait(seconds: real)

  datatype Event = Acquire(want: nat) | GiveBack(bytes: nat) | SetRate(rate: nat)
  datatype Timed = Timed(at: real, event: Event)

  function Fresh(rate: nat, now: real): Bucket { Bucket(rate, Burst(rate), now) }

  /** Tokens that come in over `seconds`. */
  function Accrued(rate: nat, seconds: real): real { rate as real * seconds }

  /** A clock that went back moved forward by nothing. */
  function Forward(seconds: real): real { MaxReal(0.0, seconds) }

  /** The bucket with its tokens brought up to `now`; a clock that went back adds none. */
  function Refill(b: Bucket, now: real): Bucket {
    Bucket(b.rate, MinReal(b.tokens + Accrued(b.rate, Forward(now - b.last)), Burst(b.rate)), now)
  }

  function AcquireAt(b: Bucket, want: nat, now: real): (Bucket, Grant) {
    if b.rate == 0 || want == 0 then (b, Granted(want))
    else
      var r := Refill(b, now);
      var need := Min(want, MIN_CHUNK) as real;
      if r.tokens < need then (r, Wait(MaxReal((need - r.tokens) / b.rate as real, MIN_WAIT)))
      else
        var take := Min(r.tokens.Floor, want);
        (Bucket(r.rate, r.tokens - take as real, r.last), Granted(take))
  }

  function Returned(b: Bucket, bytes: nat): Bucket {
    if b.rate == 0 || bytes == 0 then b
    else Bucket(b.rate, MinReal(b.tokens + bytes as real, Burst(b.rate)), b.last)
  }

  function Rated(b: Bucket, rate: nat, now: real): Bucket {
    Bucket(rate, MinReal(b.tokens, Burst(rate)), now)
  }

  function Next(b: Bucket, e: Timed): Bucket {
    match e.event
    case Acquire(want) => AcquireAt(b, want, e.at).0
    case GiveBack(bytes) => Returned(b, bytes)
    case SetRate(rate) => Rated(b, rate, e.at)
  }

  /** Bytes let through by one event: granted counts up, given back counts down. */
  function Gain(b: Bucket, e: Timed): int {
    match e.event
    case Acquire(want) => (match AcquireAt(b, want, e.at).1 case Granted(n) => n case Wait(_) => 0)
    case GiveBack(bytes) => 0 - bytes
    case SetRate(_) => 0
  }

  /** The tokens there would be at `t` if nothing else happened. */
  function Level(b: Bucket, t: real): real {
    MinReal(b.tokens + Accrued(b.rate, Forward(t - b.last)), Burst(b.rate))
  }

  /** The tokens lie between nothing and the burst, and the rate is not "unlimited". */
  predicate Sound(b: Bucket) { b.rate > 0 && 0.0 <= b.tokens <= Burst(b.rate) }

  lemma AccruedAdds(rate: nat, s: real, t: real)
    requires s >= 0.0 && t >= 0.0
    ensures Accrued(rate, s + t) == Accrued(rate, s) + Accrued(rate, t)
    ensures Accrued(rate, s) >= 0.0 && Accrued(rate, t) >= 0.0
  {
  }

  lemma AccruedNone(rate: nat)
    ensures Accrued(rate, 0.0) == 0.0
  {
  }

  /** The clock moving from `t` to `u`, either way, changes the level by at most what comes in forward. */
  lemma LevelGrows(b: Bucket, t: real, u: real)
    requires Sound(b)
    ensures b.tokens <= Level(b, t) <= Burst(b.rate)
    ensures Level(b, u) <= Level(b, t) + Accrued(b.rate, Forward(u - t))
  {
    var x, y := Forward(t - b.last), Forward(u - b.last);
    AccruedAdds(b.rate, x, Forward(y - x));
    AccruedAdds(b.rate, Forward(y - x), Forward(u - t) - Forward(y - x));
    if y <= x {
      AccruedAdds(b.rate, y, x - y);
      assert y + (x - y) == x;
    } else {
      assert x + Forward(y - x) == y;
    }
    assert Forward(y - x) + (Forward(u - t) - Forward(y - x)) == Forward(u - t);
  }

  lemma LevelNow(b: Bucket, now: real)
    requires Sound(b) && b.last == now
    ensures Level(b, now) == b.tokens
  {
    AccruedNone(b.rate);
  }

  predicate NonzeroRate(e: Timed) { e.event.SetRate? ==> e.event.rate > 0 }

  /** What an acquire at `now` finds is the level, and it takes from that alone. */
  lemma AcquireExact(b: Bucket, want: nat, now: real)
    requires Sound(b) && want > 0
    ensures var (b', g) := AcquireAt(b, want, now);
            && Sound(b') && b'.last == now && b'.rate == b.rate
            && (g.Granted? <==> Level(b, now) >= Min(want, MIN_CHUNK) as real)
            && (g.Granted? ==> Min(want, MIN_CHUNK) <= g.bytes <= want && b'.tokens == Level(b, now) - g.bytes as real
                               && (g.bytes == want || b'.tokens < 1.0))
            && (g.Wait? ==> g.seconds > 0.0 && b'.tokens == Level(b, now))
  {
    LevelGrows(b, now, now);
    Drawn(b.rate, Refill(b, now).tokens, want);
  }

  /** The draw from a level, free of the clock. */
  lemma Drawn(rate: nat, tokens: real, want: nat)
    requires rate > 0 && want > 0 && tokens >= 0.0
    ensures var need, take := Min(want, MIN_CHUNK), Min(tokens.Floor, want);
            && (tokens >= need as real ==> need <= take && 0.0 <= tokens - take as real
                                           && (take == want || tokens - take as real < 1.0))
            && (tokens < need as real ==> (need as real - tokens) / rate as real > 0.0)
  {
    if tokens < Min(want, MIN_CHUNK) as real {
      Positive(Min(want, MIN_CHUNK) as real - tokens, rate as real);
    }
  }

  lemma Positive(a: real, r: real)
    requires a > 0.0 && r > 0.0
    ensures a / r > 0.0 && r * (a / r) == a
  {
  }

  /** One event: what passed plus the level after is at most the level before. */
  lemma StepBound(b: Bucket, e: Timed)
    requires Sound(b) && NonzeroRate(e)
    ensures Sound(Next(b, e))
    ensures Gain(b, e) as real + Level(Next(b, e), e.at) <= Level(b, e.at)
  {
    LevelGrows(b, e.at, e.at);
    match e.event
    case Acquire(want) =>
      if want > 0 {
        AcquireExact(b, want, e.at);
        LevelNow(Next(b, e), e.at);
      }
    case GiveBack(bytes) =>
    case SetRate(rate) =>
      LevelNow(Next(b, e), e.at);
  }

  // ----- every run -----

  predicate Ordered(t0: real, es: seq<Timed>, t: real) {
    && t0 <= t
    && (forall i :: 0 <= i < |es| ==> t0 <= es[i].at <= t)
    && (forall i, j :: 0 <= i < j < |es| ==> es[i].at <= es[j].at)
  }

  predicate NonzeroRates(es: seq<Timed>) { forall i :: 0 <= i < |es| ==> NonzeroRate(es[i]) }

  function After(b: Bucket, es: seq<Timed>): Bucket {
    if |es| == 0 then b else Next(After(b, es[..|es| - 1]), es[|es| - 1])
  }

  /** Net bytes let through. */
  function Net(b: Bucket, es: seq<Timed>): int {
    if |es| == 0 then 0 else Net(b, es[..|es| - 1]) + Gain(After(b, es[..|es| - 1]), es[|es| - 1])
  }

  function Clock(t0: real, es: seq<Timed>): real { if |es| == 0 then t0 else es[|es| - 1].at }

  /** The integral of the rate from `t0` to `t`. */
  function Integral(b: Bucket, t0: real, es: seq<Timed>, t: real): real
    decreases |es|
  {
    var from := Clock(t0, es);
    Accrued(After(b, es).rate, t - from) + if |es| == 0 then 0.0 else Integral(b, t0, es[..|es| - 1], from)
  }

  /** The rate times the backward movement of the clock. */
  function Rewound(b: Bucket, t0: real, es: seq<Timed>, t: real): real
    decreases |es|
  {
    var from := Clock(t0, es);
    Accrued(After(b, es).rate, Forward(from - t)) + if |es| == 0 then 0.0 else Rewound(b, t0, es[..|es| - 1], from)
  }

  lemma ForwardIsNet(rate: nat, x: real)
    ensures Accrued(rate, Forward(x)) == Accrued(rate, x) + Accrued(rate, Forward(0.0 - x))
  {
  }

  /** What passed plus what is left is at most what there was plus what came in,
      where a clock that goes back lets the same time come in again. */
  lemma {:induction false} RunBound(b: Bucket, t0: real, es: seq<Timed>, t: real)
    requires Sound(b) && NonzeroRates(es)
    ensures Sound(After(b, es))
    ensures Net(b, es) as real + Level(After(b, es), t) <= Level(b, t0) + Integral(b, t0, es, t) + Rewound(b, t0, es, t)
    decreases |es|
  {
    var from := Clock(t0, es);
    if |es| > 0 {
      var before, e := es[..|es| - 1], es[|es| - 1];
      RunBound(b, t0, before, e.at);
      StepBound(After(b, before), e);
    }
    LevelGrows(After(b, es), from, t);
    ForwardIsNet(After(b, es).rate, t - from);
    assert 0.0 - (t - from) == from - t;
  }

  lemma {:induction false} OrderedNeverRewinds(b: Bucket, t0: real, es: seq<Timed>, t: real)
    requires Ordered(t0, es, t)
    ensures Rewound(b, t0, es, t) == 0.0
    decreases |es|
  {
    AccruedNone(After(b, es).rate);
    if |es| > 0 {
      OrderedNeverRewinds(b, t0, es[..|es| - 1], es[|es| - 1].at);
    }
  }

  /** In every run, from any moment on: the net bytes let through never exceed
      the tokens of that moment plus the integral of the rate since, plus the
      rate times any backward movement of the clock; and the tokens stay between
      nothing and the burst. With times in order nothing is added. */
  lemma NetBounded(b: Bucket, t0: real, es: seq<Timed>, t: real)
    requires Sound(b) && NonzeroRates(es)
    ensures Net(b, es) as real <= Level(b, t0) + Integral(b, t0, es, t) + Rewound(b, t0, es, t)
    ensures Ordered(t0, es, t) ==> Net(b, es) as real <= Level(b, t0) + Integral(b, t0, es, t)
    ensures 0.0 <= After(b, es).tokens <= Burst(After(b, es).rate)
  {
    RunBound(b, t0, es, t);
    LevelGrows(After(b, es), t, t);
    if Ordered(t0, es, t) {
      OrderedNeverRewinds(b, t0, es, t);
    }
  }

  /** A pause of the missing tokens over the rate brings the level up to the need. */
  lemma PauseFills(c: Bucket, need: real, pause: real, retry: real)
    requires Sound(c) && c.tokens < need <= Burst(c.rate)
    requires pause == (need - c.tokens) / c.rate as real && retry >= c.last + pause
    ensures Level(c, retry) >= need
  {
    Positive(need - c.tokens, c.rate as real);
    AccruedAdds(c.rate, pause, retry - c.last - pause);
    assert retry - c.last == pause + (retry - c.last - pause);
  }

  /** Retrying after the answered wait, with no traffic in between, is granted. */
  lemma WaitSuffices(b: Bucket, want: nat, now: real, retry: real)
    requires Sound(b) && AcquireAt(b, want, now).1.Wait?
    requires retry >= now + AcquireAt(b, want, now).1.seconds
    ensures var g := AcquireAt(AcquireAt(b, want, now).0, want, retry).1;
            g.Granted? && Min(want, MIN_CHUNK) <= g.bytes <= want
  {
    var (c, g) := AcquireAt(b, want, now);
    AcquireExact(b, want, now);
    var need := Min(want, MIN_CHUNK) as real;
    PauseFills(c, need, (need - c.tokens) / c.rate as real, retry);
    AcquireExact(c, want, retry);
  }

  /** A wait is the shortest that helps, or one millisecond: asking again is granted
      from its end on and, if it is longer than that, not before. */
  lemma WaitExact(b: Bucket, want: nat, now: real, retry: real)
    requires Sound(b) && AcquireAt(b, want, now).1.Wait? && retry >= now
    ensures var (c, g) := AcquireAt(b, want, now);
            && g.seconds >= MIN_WAIT
            && (g.seconds > MIN_WAIT ==> (AcquireAt(c, want, retry).1.Granted? <==> retry >= now + g.seconds))
  {
    var (c, g) := AcquireAt(b, want, now);
    AcquireExact(b, want, now);
    var need := Min(want, MIN_CHUNK) as real;
    if retry >= now + g.seconds {
      WaitSuffices(b, want, now, retry);
    } else if g.seconds > MIN_WAIT {
      PauseNeeded(c, need, g.seconds, retry);
      AcquireExact(c, want, retry);
    }
  }

  lemma PauseNeeded(c: Bucket, need: real, pause: real, retry: real)
    requires Sound(c) && c.tokens < need <= Burst(c.rate)
    requires pause == (need - c.tokens) / c.rate as real && c.last <= retry < c.last + pause
    ensures Level(c, retry) < need
  {
    Positive(need - c.tokens, c.rate as real);
    AccruedLess(c.rate, retry - c.last, pause);
  }

  lemma AccruedLess(rate: nat, s: real, t: real)
    requires rate > 0 && s < t
    ensures Accrued(rate, s) < Accrued(rate, t)
  {
    assert rate as real * (t - s) > 0.0;
  }

  // ----- the exact account -----

  /** What the burst cuts off between `t` and `u`. */
  function Overflow(b: Bucket, t: real, u: real): real {
    MaxReal(0.0, Level(b, t) + Accrued(b.rate, u - t) - Burst(b.rate))
  }

  /** What an event loses: tokens given back above the burst, and with a new rate all
      that came in since the last acquire and all above the new burst. */
  function Lost(b: Bucket, e: Timed): real {
    match e.event
    case Acquire(_) => 0.0
    case GiveBack(bytes) => MaxReal(0.0, Level(b, e.at) + bytes as real - Burst(b.rate))
    case SetRate(rate) => Level(b, e.at) - MinReal(b.tokens, Burst(rate))
  }

  function Spilled(b: Bucket, t0: real, es: seq<Timed>, t: real): real
    decreases |es|
  {
    var from := Clock(t0, es);
    Overflow(After(b, es), from, t)
      + if |es| == 0 then 0.0
        else Spilled(b, t0, es[..|es| - 1], from) + Lost(After(b, es[..|es| - 1]), es[|es| - 1])
  }

  lemma LevelExact(b: Bucket, t: real, u: real)
    requires Sound(b) && b.last <= t <= u
    ensures Level(b, u) == Level(b, t) + Accrued(b.rate, u - t) - Overflow(b, t, u)
  {
    AccruedAdds(b.rate, t - b.last, u - t);
    assert t - b.last + (u - t) == u - b.last;
  }

  lemma StepExact(b: Bucket, e: Timed)
    requires Sound(b) && NonzeroRate(e) && b.last <= e.at
    ensures Next(b, e).last <= e.at
    ensures Gain(b, e) as real + Level(Next(b, e), e.at) == Level(b, e.at) - Lost(b, e)
  {
    LevelGrows(b, e.at, e.at);
    match e.event
    case Acquire(want) =>
      if want > 0 {
        AcquireExact(b, want, e.at);
        LevelNow(Next(b, e), e.at);
      }
    case GiveBack(bytes) =>
    case SetRate(rate) =>
      LevelNow(Next(b, e), e.at);
  }

  /** With times in order the account is exact: what passed and what is left is what
      there was and what came in, less what was cut off at the burst or by a new rate. */
  lemma {:induction false} RunExact(b: Bucket, t0: real, es: seq<Timed>, t: real)
    requires Sound(b) && NonzeroRates(es) && Ordered(t0, es, t) && b.last <= t0
    ensures Sound(After(b, es)) && After(b, es).last <= Clock(t0, es)
    ensures Net(b, es) as real + Level(After(b, es), t) == Level(b, t0) + Integral(b, t0, es, t) - Spilled(b, t0, es, t)
    decreases |es|
  {
    if |es| > 0 {
      var before, e := es[..|es| - 1], es[|es| - 1];
      RunExact(b, t0, before, e.at);
      StepBound(After(b, before), e);
      StepExact(After(b, before), e);
    }
    LevelExact(After(b, es), Clock(t0, es), t);
  }

  /** Bytes taken and given back unused can be taken again at once. */
  lemma GiveBackRestores(b: Bucket, want: nat, now: real, unused: nat)
    requires Sound(b) && want > 0 && AcquireAt(b, want, now).1.Granted? && unused <= AcquireAt(b, want, now).1.bytes
    ensures var (c, g) := AcquireAt(b, want, now);
            Level(Returned(c, unused), now) == Level(b, now) - (g.bytes - unused) as real
  {
    AcquireExact(b, want, now);
    LevelGrows(b, now, now);
    LevelNow(AcquireAt(b, want, now).0, now);
    LevelNow(Returned(AcquireAt(b, want, now).0, unused), now);
  }

  /** A new limiter lets a quarter second of traffic through at once, at least 16 KiB,
      and everything if its rate is zero. */
  lemma FreshGrants(rate: nat, now: real, want: nat)
    ensures AcquireAt(Fresh(rate, now), want, now).1
            == Granted(if rate == 0 then want else if rate < 65536 then Min(want, 16384) else Min(want, rate / 4))
  {
    if rate > 0 && want > 0 {
      LevelNow(Fresh(rate, now), now);
      AcquireExact(Fresh(rate, now), want, now);
      QuarterFloor(rate);
    }
  }

  lemma QuarterFloor(rate: nat)
    ensures (rate as real / 4.0).Floor == rate / 4
  {
    assert rate as real / 4.0 == (rate / 4) as real + (rate % 4) as real / 4.0;
  }

  // ----- a clock that goes back -----

  /** `m` times: one byte asked for at `now - back`, and one at `now`. */
  function Rounds(now: real, back: real, m: nat): seq<Timed> {
    if m == 0 then [] else Rounds(now, back, m - 1) + [Timed(now - back, Acquire(1)), Timed(now, Acquire(1))]
  }

  /** What a round lets in, at least: the rate times the step back, or one token. */
  function RoundYield(rate: nat, back: real): real { MinReal(Accrued(rate, back), 1.0) }

  lemma RoundGains(b: Bucket, now: real, back: real)
    requires Sound(b) && back > 0.0
    ensures var first, second := Timed(now - back, Acquire(1)), Timed(now, Acquire(1));
            var b1 := Next(b, first); var b2 := Next(b1, second);
            && Sound(b2) && b2.rate == b.rate
            && Gain(b, first) as real + Gain(b1, second) as real + b2.tokens >= b.tokens + RoundYield(b.rate, back)
  {
    LevelGrows(b, now - back, now - back);
    AcquireExact(b, 1, now - back);
    var b1 := AcquireAt(b, 1, now - back).0;
    assert Forward(now - b1.last) == back;
    AcquireExact(b1, 1, now);
  }

  lemma NetOfRound(b: Bucket, es: seq<Timed>, x: Timed, y: Timed, all: seq<Timed>)
    requires all == es + [x, y]
    ensures After(b, all) == Next(Next(After(b, es), x), y)
    ensures Net(b, all) == Net(b, es) + Gain(After(b, es), x) + Gain(Next(After(b, es), x), y)
  {
    assert all[..|all| - 1] == es + [x] && (es + [x])[..|es|] == es;
  }

  /** `y`, added up `m` times. */
  function Times(m: nat, y: real): real { if m == 0 then 0.0 else Times(m - 1, y) + y }

  lemma {:induction false} TimesIsProduct(m: nat, y: real)
    ensures Times(m, y) == m as real * y
  {
    if m > 0 {
      TimesIsProduct(m - 1, y);
      assert m as real * y == (m - 1) as real * y + y;
    }
  }

  lemma RoundAdds(b: Bucket, now: real, back: real, y: real, es: seq<Timed>, all: seq<Timed>)
    requires Sound(After(b, es)) && After(b, es).rate == b.rate && back > 0.0 && y == RoundYield(b.rate, back)
    requires all == es + [Timed(now - back, Acquire(1)), Timed(now, Acquire(1))]
    ensures Sound(After(b, all)) && After(b, all).rate == b.rate
    ensures Net(b, all) as real + After(b, all).tokens >= Net(b, es) as real + After(b, es).tokens + y
  {
    NetOfRound(b, es, Timed(now - back, Acquire(1)), Timed(now, Acquire(1)), all);
    RoundGains(After(b, es), now, back);
  }

  lemma {:induction false} RoundsGain(b: Bucket, now: real, back: real, m: nat, y: real, es: seq<Timed>)
    requires Sound(b) && back > 0.0 && y == RoundYield(b.rate, back) && es == Rounds(now, back, m)
    ensures Sound(After(b, es)) && After(b, es).rate == b.rate
    ensures Net(b, es) as real + After(b, es).tokens >= b.tokens + Times(m, y)
    decreases m
  {
    if m > 0 {
      var before := Rounds(now, back, m - 1);
      RoundsGain(b, now, back, m - 1, y, before);
      RoundAdds(b, now, back, y, before, es);
    }
  }

  lemma Archimedes(goal: real, y: real) returns (m: nat)
    requires goal >= 0.0 && y > 0.0
    ensures Times(m, y) > goal
  {
    assert goal / y >= 0.0;
    m := (goal / y).Floor + 1;
    TimesIsProduct(m, y);
    assert (m as real - goal / y) * y > 0.0;
  }

  lemma {:induction false} RoundsStay(now: real, back: real, m: nat)
    requires back > 0.0
    ensures forall i :: 0 <= i < |Rounds(now, back, m)| ==> now - back <= Rounds(now, back, m)[i].at <= now
  {
    if m > 0 {
      RoundsStay(now, back, m - 1);
    }
  }

  /** Without the order of times there is no bound at all: for every rate, every
      step back however short, and every number of bytes, some run with all its
      times within that step lets more bytes through. */
  lemma LateClocksUnbounded(b: Bucket, now: real, back: real, bytes: nat) returns (es: seq<Timed>)
    requires Sound(b) && back > 0.0
    ensures forall i :: 0 <= i < |es| ==> now - back <= es[i].at <= now
    ensures Net(b, es) > bytes
  {
    var y := RoundYield(b.rate, back);
    var m := Archimedes(bytes as real + Burst(b.rate), y);
    es := Rounds(now, back, m);
    RoundsStay(now, back, m);
    RoundsGain(b, now, back, m, y, es);
  }

  // ----- the limiter itself -----

  class Limiter {
    var rate: nat
    var tokens: real
    var last: real

    ghost function View(): Bucket
      reads this
    {
      Bucket(rate, tokens, last)
    }

    constructor (bytesPerSec: nat, now: real)
      ensures View() == Fresh(bytesPerSec, now)
    {
      rate, tokens, last := bytesPerSec, Burst(bytesPerSec), now;
    }

    method ChangeRate(bytesPerSec: nat, now: real)
      modifies this
      ensures View() == Rated(old(View()), bytesPerSec, now)
    {
      rate := bytesPerSec;
      tokens := MinReal(tokens, Burst(bytesPerSec));
      last := now;
    }

    method Take(want: nat, now: real) returns (g: Grant)
      modifies this
      ensures (View(), g) == AcquireAt(old(View()), want, now)
    {
      if rate == 0 || want == 0 {
        return Granted(want);
      }
      ghost var refilled := Refill(View(), now);
      var elapsed := Forward(now - last);
      last := now;
      tokens := MinReal(tokens + Accrued(rate, elapsed), Burst(rate));
      assert View() == refilled;
      var need := Min(want, MIN_CHUNK) as real;
      if tokens < need {
        return Wait(MaxReal((need - tokens) / rate as real, MIN_WAIT));
      }
      var take := Min(tokens.Floor, want);
      tokens := tokens - take as real;
      g := Granted(take);
    }

    method PutBack(bytes: nat)
      modifies this
      ensures View() == Returned(old(View()), bytes)
    {
      if rate == 0 || bytes == 0 {
        return;
      }
      tokens := MinReal(tokens + bytes as real, Burst(rate));
    }
  }
}
