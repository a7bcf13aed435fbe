/** The height/time/rate state of the indexer and the arithmetic derived from it:
    `SetLatestBlockHeight` and `AverageBlockTime` (internal/indexer/indexer.go),
    `BlockToTimestamp` (internal/indexer/volume.go) and the look-back height delta of
    `combinePoolStatusesAt` (internal/osmosis/subscriptions.pools.go).
    Times and durations are int nanoseconds. */
module BlockClock {
  import opened MachineInts

  const SECOND: int := 1_000_000_000
  const HOUR: int := 3600 * SECOND
  const DEFAULT_BLOCKS_PER_HOUR: int := 720

  /** The largest number of blocks whose product with an hour still fits `int64`. */
  const MAX_EXACT_BLOCKS: int := 2_562_047

  /** `anchorHeight`/`anchorTime` are the source's lastBlockHeight/lastBlockTimestamp. */
  datatype Clock = Clock(height: nat, time: int, rate: int, anchorHeight: nat, anchorTime: int)

  /** One call of SetLatestBlockHeight. `now` is the wall clock; `onZero` is what the platform makes
      of converting an infinite float to int64, should no time have elapsed at a rate update. */
  datatype Block = Block(height: nat, time: int, now: int, onZero: int)

  function RateOver(blocks: int, elapsed: int, onZero: int): int {
    if elapsed == 0 then onZero
    else Trunc(blocks as real / (elapsed as real / HOUR as real))
  }

  /** Whether a block above `c.height` recomputes the rate, after a missing anchor has been set. */
  predicate GateOpen(c: Clock, height: nat) {
    Uint64(height - c.anchorHeight) >= Uint64(c.rate)
  }

  function Anchored(c: Clock, b: Block): Clock {
    if c.anchorHeight == 0 then c.(anchorHeight := b.height, anchorTime := b.now) else c
  }

  /** The state after one call of SetLatestBlockHeight. */
  function Observe(c: Clock, b: Block): Clock {
    if c.height >= b.height then c else
    var d := Anchored(c.(height := b.height, time := b.time), b);
    if GateOpen(d, b.height)
    then d.(rate := RateOver(b.height - d.anchorHeight, b.now - d.anchorTime, b.onZero))
    else d
  }

  /** The state set by `New`. */
  function StartUp(height: nat, time: int): Clock {
    Clock(height, time, DEFAULT_BLOCKS_PER_HOUR, 0, 0)
  }

  function Run(c: Clock, bs: seq<Block>): Clock {
    if bs == [] then c else Observe(Run(c, bs[..|bs| - 1]), bs[|bs| - 1])
  }

  class BlockTracker {
    var currentBlockHeight: nat
    var currentBlockTime: int
    var blocksPerHour: int
    var lastBlockHeight: nat
    var lastBlockTimestamp: int

    function State(): Clock
      reads this
    {
      Clock(currentBlockHeight, currentBlockTime, blocksPerHour, lastBlockHeight, lastBlockTimestamp)
    }

    constructor (height: nat, time: int)
      ensures State() == StartUp(height, time)
    {
      currentBlockHeight, currentBlockTime := height, time;
      blocksPerHour := DEFAULT_BLOCKS_PER_HOUR;
      lastBlockHeight, lastBlockTimestamp := 0, 0;
    }

    method SetLatestBlockHeight(height: nat, blockTime: int, now: int, onZero: int)
      modifies this
      ensures State() == Observe(old(State()), Block(height, blockTime, now, onZero))
    {
      var oldHeight := currentBlockHeight;
      if oldHeight < height {
        currentBlockHeight := height;
      }
      if oldHeight >= height {
        return;
      }
      currentBlockTime := blockTime;
      if lastBlockHeight == 0 {
        lastBlockHeight := height;
        lastBlockTimestamp := now;
      }
      if Uint64(height - lastBlockHeight) >= Uint64(blocksPerHour) {
        var duration := now - lastBlockTimestamp;
        blocksPerHour := RateOver(height - lastBlockHeight, duration, onZero);
      }
    }
  }

  // ----- Runs of SetLatestBlockHeight -----

  /** Over any run the height is the running maximum, and it is paired with the block time of the
      first call that reached it. No assumption on the wall clock. */
  lemma {:induction false} HeightIsRunningMax(c: Clock, bs: seq<Block>)
    ensures Run(c, bs).height >= c.height
    ensures forall i :: 0 <= i < |bs| ==> bs[i].height <= Run(c, bs).height
    ensures Run(c, bs).height == c.height ==> Run(c, bs).time == c.time
    ensures Run(c, bs).height > c.height ==>
      exists i :: 0 <= i < |bs| && bs[i].height == Run(c, bs).height && bs[i].time == Run(c, bs).time
        && forall j :: 0 <= j < i ==> bs[j].height < bs[i].height
  {
    if bs != [] {
      var n := |bs| - 1;
      var init := bs[..n];
      HeightIsRunningMax(c, init);
      if bs[n].height > Run(c, init).height {
        assert forall j :: 0 <= j < n ==> bs[j] == init[j];
        assert Run(c, bs).height == bs[n].height && Run(c, bs).time == bs[n].time;
      } else if Run(c, init).height > c.height {
        var i :| 0 <= i < n && init[i].height == Run(c, init).height && init[i].time == Run(c, init).time
          && forall j :: 0 <= j < i ==> init[j].height < init[i].height;
        assert bs[i] == init[i];
        assert forall j :: 0 <= j < i ==> bs[j] == init[j];
      }
    }
  }

  /** The rate is the exact average since the anchor, as of the last new maximum at time `t`,
      and at least an hour has passed since the anchor. */
  predicate Warm(c: Clock, t: int) {
    && 0 < c.anchorHeight < c.height < TWO_63
    && t - c.anchorTime >= HOUR
    && c.rate == (c.height - c.anchorHeight) * HOUR / (t - c.anchorTime)
  }

  lemma RateOverIsAverage(blocks: nat, elapsed: int, onZero: int)
    requires elapsed > 0
    ensures RateOver(blocks, elapsed, onZero) == blocks * HOUR / elapsed
    ensures elapsed >= HOUR ==> 0 <= RateOver(blocks, elapsed, onZero) <= blocks
  {
    var x := blocks as real / (elapsed as real / HOUR as real);
    var y := (blocks * HOUR) as real / elapsed as real;
    assert x == y by {
      assert x * (elapsed as real / HOUR as real) == blocks as real;
      assert x * elapsed as real == blocks as real * HOUR as real;
      assert y * elapsed as real == blocks as real * HOUR as real;
    }
    TruncOfQuotient(blocks * HOUR, elapsed);
    if elapsed >= HOUR {
      DivMonotone(blocks * HOUR, blocks * elapsed, elapsed);
      DivIsUnique(blocks * elapsed, elapsed, blocks);
    }
  }

  /** A rate update at least one hour after the anchor makes the clock warm: the new rate cannot
      exceed the block count that passed the gate. */
  lemma UpdateWarms(c: Clock, b: Block)
    requires 0 < c.anchorHeight <= c.height < b.height < TWO_63
    requires GateOpen(c, b.height) && b.now - c.anchorTime >= HOUR
    ensures Warm(Observe(c, b), b.now)
  {
    RateOverIsAverage(b.height - c.anchorHeight, b.now - c.anchorTime, b.onZero);
  }

  predicate NonDecreasingFrom(t: int, bs: seq<Block>) {
    && (forall i :: 0 <= i < |bs| ==> t <= bs[i].now && bs[i].height < TWO_63)
    && (forall i, j :: 0 <= i < j < |bs| ==> bs[i].now <= bs[j].now)
  }

  /** One more block above the current height: the rate stays as it is while fewer blocks than it have come since
      the anchor, which is the block itself if there was none, and is otherwise the average since then. */
  lemma RateOfNextBlock(c: Clock, bs: seq<Block>, b: Block)
    requires var d := Run(c, bs); d.anchorHeight <= d.height < b.height < TWO_63 && 0 <= d.rate < TWO_63
    ensures var d, e := Run(c, bs), Run(c, bs + [b]);
      var anchor, anchorTime := if d.anchorHeight == 0 then b.height else d.anchorHeight,
                                if d.anchorHeight == 0 then b.now else d.anchorTime;
      && e.height == b.height && e.time == b.time && e.anchorHeight == anchor && e.anchorTime == anchorTime
      && (b.height - anchor < d.rate ==> e.rate == d.rate)
      && (b.height - anchor >= d.rate && b.now > anchorTime ==>
           e.rate == (b.height - anchor) * HOUR / (b.now - anchorTime))
  {
    assert (bs + [b])[..|bs|] == bs;
    var d := Run(c, bs);
    var anchor, anchorTime := if d.anchorHeight == 0 then b.height else d.anchorHeight,
                              if d.anchorHeight == 0 then b.now else d.anchorTime;
    if b.now > anchorTime {
      RateOverIsAverage(b.height - anchor, b.now - anchorTime, b.onZero);
    }
  }

  /** A block at or below the current height changes nothing. */
  lemma OldBlockIsIgnored(c: Clock, bs: seq<Block>, b: Block)
    requires b.height <= Run(c, bs).height
    ensures Run(c, bs + [b]) == Run(c, bs)
  {
    assert (bs + [b])[..|bs|] == bs;
  }

  /** From start-up on, the rate is the default one as long as fewer than 720 blocks have come since the anchor. */
  lemma {:induction false} DefaultRateAtFirst(height: nat, time: int, bs: seq<Block>)
    requires forall i :: 0 <= i < |bs| ==> bs[i].height < TWO_63
    ensures var d := Run(StartUp(height, time), bs);
      && d.anchorHeight <= d.height
      && (d.anchorHeight == 0 || d.height - d.anchorHeight < 720 ==> d.rate == 720)
  {
    if bs != [] {
      var n := |bs| - 1;
      var init, b := bs[..n], bs[n];
      DefaultRateAtFirst(height, time, init);
      var d := Run(StartUp(height, time), init);
      assert init + [b] == bs;
      if b.height <= d.height {
        OldBlockIsIgnored(StartUp(height, time), init, b);
      } else if d.rate == 720 {
        RateOfNextBlock(StartUp(height, time), init, b);
      }
    }
  }

  /** Wall-clock time of the last call that raised the height, or `t` if there was none. */
  function LastRaise(c: Clock, bs: seq<Block>, t: int): int {
    if bs == [] then t else
    var n := |bs| - 1;
    if bs[n].height > Run(c, bs[..n]).height then bs[n].now else LastRaise(c, bs[..n], t)
  }

  /** Once warm, every later new maximum recomputes the rate: whatever blocks follow, the rate stays the
      exact average since the anchor as of the last new maximum, and the anchor never moves. */
  lemma {:induction false} WarmForever(c: Clock, bs: seq<Block>, t: int)
    requires Warm(c, t) && NonDecreasingFrom(t, bs)
    ensures Warm(Run(c, bs), LastRaise(c, bs, t))
    ensures Run(c, bs).anchorHeight == c.anchorHeight && Run(c, bs).anchorTime == c.anchorTime
    ensures t <= LastRaise(c, bs, t)
    ensures bs != [] ==> LastRaise(c, bs, t) <= bs[|bs| - 1].now
  {
    if bs != [] {
      var n := |bs| - 1;
      var init, b := bs[..n], bs[n];
      assert NonDecreasingFrom(t, init);
      WarmForever(c, init, t);
      var d, u := Run(c, init), LastRaise(c, init, t);
      assert u <= b.now by {
        if init != [] { assert init[n - 1] == bs[n - 1]; }
      }
      if b.height > d.height {
        RateOverIsAverage(d.height - d.anchorHeight, u - d.anchorTime, 0);
        assert 0 <= d.rate <= d.height - d.anchorHeight;
        UpdateWarms(d, b);
      }
    }
  }

  lemma {:induction false} AnchorBelowHeight(c: Clock, bs: seq<Block>)
    requires c.anchorHeight <= c.height
    ensures Run(c, bs).anchorHeight <= Run(c, bs).height
  {
    if bs != [] {
      AnchorBelowHeight(c, bs[..|bs| - 1]);
    }
  }

  lemma {:induction false} RunSplit(c: Clock, bs: seq<Block>, n: nat)
    requires n <= |bs|
    ensures Run(c, bs) == Run(Run(c, bs[..n]), bs[n..])
  {
    if n < |bs| {
      var k := |bs| - 1;
      RunSplit(c, bs[..k], n);
      assert bs[..k][..n] == bs[..n];
      assert bs[n..][..k - n] == bs[..k][n..];
    } else {
      assert bs[..n] == bs;
    }
  }

  /** From start-up on: after the first rate update that comes at least an hour after the anchor, whatever
      blocks follow, the rate is the exact average since the anchor as of the last new maximum. */
  lemma WarmAfterFirstHour(height: nat, time: int, bs: seq<Block>, n: nat)
    requires n < |bs| && NonDecreasingFrom(bs[0].now, bs)
    requires var c := Run(StartUp(height, time), bs[..n]);
      && bs[n].height > c.height && c.anchorHeight > 0
      && GateOpen(c, bs[n].height) && bs[n].now - c.anchorTime >= HOUR
    ensures var d := Run(StartUp(height, time), bs[..n + 1]);
      Warm(Run(StartUp(height, time), bs), LastRaise(d, bs[n + 1..], bs[n].now))
  {
    var c := Run(StartUp(height, time), bs[..n]);
    AnchorBelowHeight(StartUp(height, time), bs[..n]);
    assert bs[..n + 1][..n] == bs[..n];
    UpdateWarms(c, bs[n]);
    WarmForever(Observe(c, bs[n]), bs[n + 1..], bs[n].now);
    RunSplit(StartUp(height, time), bs, n + 1);
  }

  /** An instance: two blocks, an hour and 899 heights apart. */
  lemma WarmInstance(bs: seq<Block>)
    requires bs == [Block(101, 0, 1, 0), Block(1000, 0, HOUR + 1, 0)]
    ensures Warm(Run(StartUp(100, 0), bs), HOUR + 1) && Run(StartUp(100, 0), bs).rate == 899
  {
    assert bs[..1] == [bs[0]] && bs[..0] == [] && bs[2..] == [] && bs[..2] == bs;
    RunOfOne(StartUp(100, 0), bs[0]);
    WarmAfterFirstHour(100, 0, bs, 1);
  }

  lemma RunOfOne(c: Clock, b: Block)
    ensures Run(c, [b]) == Observe(c, b)
  {
    assert [b][..0] == [];
  }

  /** The rate update of the first 720 blocks after the anchor, `elapsed` later. */
  lemma FirstUpdate(height: nat, time: int, elapsed: int, bs: seq<Block>)
    requires elapsed > 0 && height + 721 < TWO_63
    requires bs == [Block(height + 1, time, 0, 0), Block(height + 721, time, elapsed, 0)]
    ensures Run(StartUp(height, time), bs) == Clock(height + 721, time, 720 * HOUR / elapsed, height + 1, 0)
  {
    assert bs[..1] == [bs[0]];
    RunOfOne(StartUp(height, time), bs[0]);
    RateOverIsAverage(720, elapsed, 0);
  }

  /** A rate update yields 0 if and only if on average a block took more than an hour. */
  lemma ZeroRateIff(blocks: nat, elapsed: int, onZero: int)
    requires elapsed > 0
    ensures RateOver(blocks, elapsed, onZero) == 0 <==> blocks * HOUR < elapsed
  {
    RateOverIsAverage(blocks, elapsed, onZero);
    ExcessIsZero(blocks * HOUR, elapsed);
  }

  // ----- Average block time and estimated block timestamps -----

  function EffectiveRate(rate: int): int {
    if rate == 0 then DEFAULT_BLOCKS_PER_HOUR else rate
  }

  function AverageBlockTime(rate: int): int {
    TruncDiv(HOUR, EffectiveRate(rate))
  }

  function BlockToTimestamp(c: Clock, height: nat): int {
    var bph := EffectiveRate(c.rate);
    if c.height < height
    then c.time + TruncDiv(Int64(Int64(height - c.height) * HOUR), bph)
    else c.time + TruncDiv(Int64(-Int64(Int64(c.height - height) * HOUR)), bph)
  }

  /** Rate 0 stands for the default: a block takes five seconds. */
  lemma ZeroRateIsDefault(c: Clock, height: nat)
    ensures AverageBlockTime(0) == AverageBlockTime(720) == 5 * SECOND
    ensures BlockToTimestamp(c.(rate := 0), height) == BlockToTimestamp(c.(rate := 720), height)
  {
  }

  /** Nanoseconds spanned by `blocks` blocks at `bph` blocks per hour, rounded down. */
  function Span(blocks: nat, bph: int): nat
    requires bph > 0
  {
    blocks * HOUR / bph
  }

  /** The int64 product is exact for exactly the deltas up to MAX_EXACT_BLOCKS. */
  lemma ProductFits(blocks: nat)
    requires blocks < TWO_63
    ensures Int64(Int64(blocks) * HOUR) == blocks * HOUR <==> blocks <= MAX_EXACT_BLOCKS
  {
  }

  /** Within that range the estimate is the current block time shifted by the rounded-down span,
      in the direction of the height. */
  lemma TimestampIsShift(c: Clock, height: nat)
    requires EffectiveRate(c.rate) > 0
    requires -MAX_EXACT_BLOCKS <= height - c.height <= MAX_EXACT_BLOCKS
    ensures c.height <= height ==>
      BlockToTimestamp(c, height) == c.time + Span(height - c.height, EffectiveRate(c.rate))
    ensures height <= c.height ==>
      BlockToTimestamp(c, height) == c.time - Span(c.height - height, EffectiveRate(c.rate))
  {
    var n := if c.height < height then height - c.height else c.height - height;
    ProductFits(n);
    assert n * HOUR < TWO_63;
  }

  /** Height and block time are stored one after the other, and a concurrent reader may pair one block's height
      with the other's time: its estimate is off by exactly the difference of the two block times. */
  lemma TornRead(c: Clock, time: int, height: nat)
    requires EffectiveRate(c.rate) != 0
    ensures BlockToTimestamp(c.(time := time), height) - BlockToTimestamp(c, height) == time - c.time
  {
  }

  lemma SpanGrows(m: nat, n: nat, bph: int)
    requires 0 < bph && m <= n
    ensures Span(m, bph) <= Span(n, bph)
    ensures m < n && bph <= HOUR ==> Span(m, bph) < Span(n, bph)
  {
    DivMonotone(m * HOUR, n * HOUR, bph);
    if m < n && bph <= HOUR {
      DivIsUnique(m * HOUR + bph, bph, Span(m, bph) + 1);
      DivMonotone(m * HOUR + bph, n * HOUR, bph);
    }
  }

  /** Estimated timestamps never go backwards with height, and are distinct for distinct heights
      as long as a block takes at least a nanosecond. */
  lemma TimestampsIncrease(c: Clock, h1: nat, h2: nat)
    requires EffectiveRate(c.rate) > 0 && h1 < h2
    requires -MAX_EXACT_BLOCKS <= h1 - c.height && h2 - c.height <= MAX_EXACT_BLOCKS
    ensures BlockToTimestamp(c, h1) <= BlockToTimestamp(c, h2)
    ensures EffectiveRate(c.rate) <= HOUR ==> BlockToTimestamp(c, h1) < BlockToTimestamp(c, h2)
  {
    var bph := EffectiveRate(c.rate);
    TimestampIsShift(c, h1);
    TimestampIsShift(c, h2);
    if h2 <= c.height {
      SpanGrows(c.height - h2, c.height - h1, bph);
    } else if h1 >= c.height {
      SpanGrows(h1 - c.height, h2 - c.height, bph);
    } else {
      SpanGrows(0, c.height - h1, bph);
      SpanGrows(0, h2 - c.height, bph);
    }
  }

  // ----- Look-back -----

  /** `int64(before.Seconds() / AverageBlockTime().Seconds())`, on exact reals. */
  function LookBackDelta(before: nat, averageBlockTime: int): int
    requires averageBlockTime > 0
  {
    Trunc((before as real / SECOND as real) / (averageBlockTime as real / SECOND as real))
  }

  lemma LookBackDeltaIsQuotient(before: nat, averageBlockTime: int)
    requires averageBlockTime > 0
    ensures LookBackDelta(before, averageBlockTime) == before / averageBlockTime
  {
    var x := (before as real / SECOND as real) / (averageBlockTime as real / SECOND as real);
    var y := before as real / averageBlockTime as real;
    assert x == y by {
      assert x * (averageBlockTime as real / SECOND as real) == before as real / SECOND as real;
      assert y * averageBlockTime as real == before as real;
    }
    TruncOfQuotient(before, averageBlockTime);
  }

  lemma SplitQuotient(k: nat, b: nat, r: nat, a: int)
    requires a > 0
    ensures k * (a * b + r) / a == k * b + k * r / a
  {
    var x := k * r;
    var e := x / a;
    assert x >= 0 && e * a <= x < e * a + a;
    assert k * (a * b + r) == k * b * a + x;
    assert (k * b + e) * a == k * b * a + e * a;
    DivIsUnique(k * (a * b + r), a, k * b + e);
  }

  /** The exact look-back for `k` whole hours: k hours' worth of blocks, plus the blocks by which the
      rounding of the average block time overshoots. */
  lemma LookBackForm(k: nat, bph: int)
    requires 0 < bph <= HOUR
    ensures AverageBlockTime(bph) == HOUR / bph >= 1
    ensures LookBackDelta(k * HOUR, HOUR / bph) == k * bph + k * (HOUR % bph) / (HOUR / bph)
    ensures k * (HOUR % bph) / (HOUR / bph) >= 0
  {
    var a, r := HOUR / bph, HOUR % bph;
    assert HOUR == a * bph + r;
    ExcessIsZero(HOUR, bph);
    LookBackDeltaIsQuotient(k * HOUR, a);
    SplitQuotient(k, bph, r, a);
    ExcessIsZero(k * r, a);
  }

  /** Looking back k hours and converting the height back to a time never lands less than k hours ago,
      and lands exactly k hours ago if and only if k times the remainder of the hour by the rate is
      below the average block time. */
  lemma LookBackRoundTrip(c: Clock, k: nat)
    requires 0 < EffectiveRate(c.rate) <= HOUR
    requires LookBackDelta(k * HOUR, AverageBlockTime(c.rate)) <= c.height
    requires LookBackDelta(k * HOUR, AverageBlockTime(c.rate)) <= MAX_EXACT_BLOCKS
    ensures LookBackDelta(k * HOUR, AverageBlockTime(c.rate)) >= 0
    ensures BlockToTimestamp(c, c.height - LookBackDelta(k * HOUR, AverageBlockTime(c.rate))) <= c.time - k * HOUR
    ensures BlockToTimestamp(c, c.height - LookBackDelta(k * HOUR, AverageBlockTime(c.rate))) == c.time - k * HOUR
      <==> k * (HOUR % EffectiveRate(c.rate)) < HOUR / EffectiveRate(c.rate)
  {
    var bph := EffectiveRate(c.rate);
    LookBackForm(k, bph);
    var e := k * (HOUR % bph) / (HOUR / bph);
    ExcessIsZero(k * (HOUR % bph), HOUR / bph);
    var delta := k * bph + e;
    TimestampIsShift(c, c.height - delta);
    SpanOfWholeHours(k, bph, e);
    SpanGrows(0, e, bph);
  }

  lemma ExcessIsZero(x: nat, a: int)
    requires a > 0
    ensures x / a == 0 <==> x < a
    ensures x / a >= 0
  {
    if x < a {
      DivIsUnique(x, a, 0);
    } else {
      DivMonotone(a, x, a);
      DivIsUnique(a, a, 1);
    }
  }

  lemma SpanOfWholeHours(k: nat, bph: int, e: nat)
    requires bph > 0
    ensures Span(k * bph + e, bph) == k * HOUR + Span(e, bph)
  {
    var s := Span(e, bph);
    assert (k * bph + e) * HOUR == (k * HOUR) * bph + e * HOUR;
    assert s * bph <= e * HOUR < s * bph + bph;
    assert (k * HOUR + s) * bph == (k * HOUR) * bph + s * bph;
    DivIsUnique((k * bph + e) * HOUR, bph, k * HOUR + s);
  }

  lemma SmallRemainder(k: nat, r: nat, b: nat, a: int)
    requires r <= b && k * b < a
    ensures k * r < a
  {
    MulMonotone(r, b, k);
  }

  lemma QuotientFalls(x: nat, m: int, n: int)
    requires 0 < m <= n
    ensures x / n <= x / m
  {
    var q := x / n;
    assert q * n <= x;
    ExcessIsZero(x, n);
    MulMonotone(m, n, q);
    DivMonotone(q * m, x, m);
    DivIsUnique(q * m, m, q);
  }

  /** So within the exact range every look-back of two hours or more is exact, and one of a single hour is at
      any rate up to 1897366 blocks an hour. */
  lemma LookBackIsExact(c: Clock, k: nat)
    requires 0 < EffectiveRate(c.rate) <= HOUR
    requires LookBackDelta(k * HOUR, AverageBlockTime(c.rate)) <= c.height
    requires LookBackDelta(k * HOUR, AverageBlockTime(c.rate)) <= MAX_EXACT_BLOCKS
    requires k >= 2 || EffectiveRate(c.rate) <= 1_897_366
    ensures LookBackDelta(k * HOUR, AverageBlockTime(c.rate)) >= 0
    ensures BlockToTimestamp(c, c.height - LookBackDelta(k * HOUR, AverageBlockTime(c.rate))) == c.time - k * HOUR
  {
    var bph := EffectiveRate(c.rate);
    LookBackForm(k, bph);
    if k >= 2 {
      MulMonotone(2, k, bph);
      QuotientFalls(HOUR, bph, MAX_EXACT_BLOCKS / 2);
    } else {
      QuotientFalls(HOUR, bph, 1_897_366);
    }
    assert k * (bph - 1) == k * bph - k;
    SmallRemainder(k, HOUR % bph, bph - 1, HOUR / bph);
    LookBackRoundTrip(c, k);
  }

  /** At 1898605 blocks an hour a look-back of one hour overshoots. */
  lemma LookBackOvershoots(c: Clock)
    requires c == Clock(1_898_606, 0, 1_898_605, 0, 0)
    ensures LookBackDelta(HOUR, AverageBlockTime(c.rate)) == c.height <= MAX_EXACT_BLOCKS
    ensures BlockToTimestamp(c, c.height - LookBackDelta(HOUR, AverageBlockTime(c.rate))) < c.time - HOUR
  {
    LookBackForm(1, c.rate);
    LookBackRoundTrip(c, 1);
  }

  /** In terms of the rate alone: the round trip is exact whenever k(rate - 1) is below the average block
      time. */
  lemma LookBackExactForSmallRates(c: Clock, k: nat)
    requires 0 < c.rate <= HOUR && k * (c.rate - 1) < HOUR / c.rate
    requires LookBackDelta(k * HOUR, AverageBlockTime(c.rate)) <= c.height
    requires LookBackDelta(k * HOUR, AverageBlockTime(c.rate)) <= MAX_EXACT_BLOCKS
    ensures LookBackDelta(k * HOUR, AverageBlockTime(c.rate)) == k * c.rate
    ensures k * c.rate >= 0 && BlockToTimestamp(c, c.height - k * c.rate) == c.time - k * HOUR
  {
    SmallRemainder(k, HOUR % c.rate, c.rate - 1, HOUR / c.rate);
    LookBackForm(k, c.rate);
    ExcessIsZero(k * (HOUR % c.rate), HOUR / c.rate);
    LookBackRoundTrip(c, k);
  }
}
