/** What a restart finds of the prices: the writes of `SetLatestPrice` and the prunes of `pricesPrune`
    (internal/indexer/prices.go) over a whole run, at whatever block rates it prunes, against what
    `preHeatPrices` then asks for. */
module PriceRestarts {
  import opened Types
  import opened MachineInts
  import opened BlockClock
  import opened PriceArrays
  import opened PriceIndex
  import Syncing

  type Config = Syncing.Config

  // ----- One prune -----

  /** `pricesPrune`: the database loses the prices before this time. The height and rate are loaded again. At
      rate 0 the division panics, and there is no time. */
  function PriceCutoff(clock: Clock, minHeight: nat): Option<int> {
    if clock.rate == 0 then None
    else Some(clock.anchorTime - TruncDiv(Int64(HOUR * Int64(clock.height - minHeight)), clock.rate))
  }

  /** `preHeatPrices`: a restart loads the prices since this time. `New` has just stored the default rate. */
  function PreheatSince(now: int, blocks: nat): int {
    now + TruncDiv(-Int64(HOUR * blocks), DEFAULT_BLOCKS_PER_HOUR)
  }

  lemma PriceCutoffForm(clock: Clock, minHeight: nat, delta: nat)
    requires clock.rate > 0 && delta <= MAX_EXACT_BLOCKS && Int64(clock.height - minHeight) == delta
    ensures PriceCutoff(clock, minHeight) == Some(clock.anchorTime - Span(delta, clock.rate))
  {
    ProductFits(delta);
    assert HOUR * delta == delta * HOUR;
  }

  lemma PreheatForm(now: int, blocks: nat)
    requires blocks <= MAX_EXACT_BLOCKS
    ensures PreheatSince(now, blocks) == now - Span(blocks, DEFAULT_BLOCKS_PER_HOUR)
  {
    ProductFits(blocks);
    assert HOUR * blocks == blocks * HOUR;
  }

  /** Blocks from the prune bound, which was computed at height `loaded`, to the height of the price prune. */
  function PrunedSpan(c: Config, clock: Clock, loaded: nat): nat
    requires clock.rate > 0 && loaded <= clock.height
  {
    Span(clock.height - loaded + Syncing.Margin(c), clock.rate)
  }

  /** The price cut-off lies at least 1.5 windows behind the anchor time, whether or not the height bound
      wrapped. So it never removes a price that is newer than the first block since start-up. */
  lemma PriceCutoffIsBehind(c: Config, clock: Clock, loaded: nat)
    requires clock.rate > 0 && loaded <= clock.height < TWO_63
    requires clock.height - loaded + Syncing.Margin(c) <= MAX_EXACT_BLOCKS
    ensures PriceCutoff(clock, Uint64(loaded - Syncing.Margin(c))) == Some(clock.anchorTime - PrunedSpan(c, clock, loaded))
    ensures PrunedSpan(c, clock, loaded) >= Span(Syncing.Margin(c), clock.rate)
  {
    PriceCutoffForm(clock, Uint64(loaded - Syncing.Margin(c)), clock.height - loaded + Syncing.Margin(c));
    SpanGrows(Syncing.Margin(c), clock.height - loaded + Syncing.Margin(c), clock.rate);
  }

  /** A restart at time `now` asks for prices that the prune has removed, unless the window at the default rate
      is no longer than the time since the anchor plus the pruned span at the running rate. */
  lemma ReloadIsSparedIff(c: Config, clock: Clock, loaded: nat, now: int)
    requires clock.rate > 0 && loaded <= clock.height < TWO_63
    requires clock.height - loaded + Syncing.Margin(c) <= MAX_EXACT_BLOCKS
    ensures PriceCutoff(clock, Uint64(loaded - Syncing.Margin(c))).Some?
    ensures PriceCutoff(clock, Uint64(loaded - Syncing.Margin(c))).value <= PreheatSince(now, c.blocks) <==>
      Span(c.blocks, DEFAULT_BLOCKS_PER_HOUR) <= now - clock.anchorTime + PrunedSpan(c, clock, loaded)
  {
    PriceCutoffIsBehind(c, clock, loaded);
    PreheatForm(now, c.blocks);
  }

  lemma SpanCompare(b: nat, x: int, m: nat, y: int)
    requires 0 < x && 0 < y && b * y <= m * x
    ensures Span(b, x) <= Span(m, y)
  {
    var q := Span(b, x);
    assert q * x <= b * HOUR;
    MulMonotone(q * x, b * HOUR, y);
    MulMonotone(b * y, m * x, HOUR);
    assert (q * y) * x <= (m * HOUR) * x;
    CancelFactor(q * y, m * HOUR, x);
    DivMonotone(q * y, m * HOUR, y);
    DivIsUnique(q * y, y, q);
  }

  lemma CancelFactor(a: int, b: int, x: int)
    requires x > 0 && a * x <= b * x
    ensures a <= b
  {
    if a > b {
      MulMonotone(b + 1, a, x);
    }
  }

  lemma ModerateRate(c: Config, rate: nat)
    requires rate <= 720 || (rate <= 1080 && c.blocks % 2 == 0)
    ensures c.blocks * rate <= Syncing.Margin(c) * 720
  {
    MulMonotone(rate, if rate <= 720 then 720 else 1080, c.blocks);
  }

  /** Every rate up to the default one is safe, and for an even window every rate up to one and a half times
      that. */
  lemma ReloadIsSpared(c: Config, clock: Clock, loaded: nat, now: int)
    requires 0 < clock.rate <= 720 || (0 < clock.rate <= 1080 && c.blocks % 2 == 0)
    requires loaded <= clock.height < TWO_63 && clock.anchorTime <= now
    requires clock.height - loaded + Syncing.Margin(c) <= MAX_EXACT_BLOCKS
    ensures PriceCutoff(clock, Uint64(loaded - Syncing.Margin(c))).Some?
    ensures PriceCutoff(clock, Uint64(loaded - Syncing.Margin(c))).value <= PreheatSince(now, c.blocks)
  {
    ModerateRate(c, clock.rate);
    SpanCompare(c.blocks, DEFAULT_BLOCKS_PER_HOUR, Syncing.Margin(c), clock.rate);
    PriceCutoffIsBehind(c, clock, loaded);
    ReloadIsSparedIff(c, clock, loaded, now);
  }

  /** At a rate of 2000, which 720 blocks within 1296 seconds of start-up make, and with a window of 20000 blocks,
      the prune has removed more than twelve hours of what a restart asks for. */
  lemma ReloadMissesPruned(c: Config, bs: seq<Block>, now: int)
    requires c.blocks == 20_000 && now == 1296 * SECOND
    requires bs == [Block(100_001, 0, 0, 0), Block(100_721, 0, now, 0)]
    ensures var clock := Run(StartUp(100_000, 0), bs);
      && clock.rate == 2000
      && PriceCutoff(clock, Uint64(clock.height - Syncing.Margin(c))).Some?
      && PriceCutoff(clock, Uint64(clock.height - Syncing.Margin(c))).value > PreheatSince(now, c.blocks) + 12 * HOUR
  {
    FirstUpdate(100_000, 0, now, bs);
    CutoffAt2000(c, Run(StartUp(100_000, 0), bs), now);
  }

  lemma CutoffAt2000(c: Config, clock: Clock, now: int)
    requires c.blocks == 20_000 && now == 1296 * SECOND && clock == Clock(100_721, 0, 2000, 100_001, 0)
    ensures PriceCutoff(clock, Uint64(clock.height - Syncing.Margin(c))).Some?
    ensures PriceCutoff(clock, Uint64(clock.height - Syncing.Margin(c))).value > PreheatSince(now, c.blocks) + 12 * HOUR
  {
    PriceCutoffIsBehind(c, clock, clock.height);
    PreheatForm(now, c.blocks);
    DivIsUnique(30_000 * HOUR, 2000, 15 * HOUR);
    DivMonotone((27 * HOUR + 2700 * SECOND) * 720, 20_000 * HOUR, 720);
    DivIsUnique((27 * HOUR + 2700 * SECOND) * 720, 720, 27 * HOUR + 2700 * SECOND);
  }

  /** Runs that reach rate 0, at which the cut-off has no value and the price prune panics: 720 blocks that
      take more than 720 hours. */
  lemma PricePrunePanics(bs: seq<Block>, now: int, minHeight: nat)
    requires now > 720 * HOUR && bs == [Block(101, 0, 0, 0), Block(821, 0, now, 0)]
    ensures Run(StartUp(100, 0), bs).rate == 0
    ensures PriceCutoff(Run(StartUp(100, 0), bs), minHeight).None?
  {
    FirstUpdate(100, 0, now, bs);
    DivIsUnique(720 * HOUR, now, 0);
  }

  // ----- A run -----

  /** The clock at a price prune, and the height from which its bound was computed. */
  datatype At = At(clock: Clock, loaded: nat)

  predicate Sound(c: Config, a: At) {
    && a.clock.rate > 0 && a.loaded <= a.clock.height < TWO_63
    && a.clock.height - a.loaded + Syncing.Margin(c) <= MAX_EXACT_BLOCKS
  }

  /** Event `j` of the history, if it is a prune, has the cut-off that the code computes at `at[j]`. */
  ghost predicate PrunesComputed(c: Config, es: seq<Event>, at: seq<At>) {
    |at| == |es| && forall j :: 0 <= j < |es| && es[j].Prune? ==> PruneComputed(c, es[j], at[j])
  }

  predicate PruneComputed(c: Config, e: Event, a: At) {
    e.Prune? && Sound(c, a) && PriceCutoff(a.clock, Uint64(a.loaded - Syncing.Margin(c))) == Some(e.cutoff)
  }

  /** What the prune at `a` leaves reaches back as far as a restart at time `now` asks for. */
  predicate SparesReload(c: Config, a: At, now: int)
    requires Sound(c, a)
  {
    Span(c.blocks, DEFAULT_BLOCKS_PER_HOUR) <= now - a.clock.anchorTime + PrunedSpan(c, a.clock, a.loaded)
  }

  lemma CutoffIff(c: Config, e: Event, a: At, now: int)
    requires PruneComputed(c, e, a)
    ensures e.cutoff <= PreheatSince(now, c.blocks) <==> SparesReload(c, a, now)
    ensures e.cutoff == a.clock.anchorTime - PrunedSpan(c, a.clock, a.loaded)
  {
    ReloadIsSparedIff(c, a.clock, a.loaded, now);
    PriceCutoffIsBehind(c, a.clock, a.loaded);
  }

  /** The largest cut-off of the successful prunes of a history, if there is one. */
  function LargestCutoff(es: seq<Event>): Option<int> {
    if es == [] then None
    else
      var e, m := es[|es| - 1], LargestCutoff(es[..|es| - 1]);
      if !(e.Prune? && e.deleted) then m
      else if m.Some? then Some(Max(m.value, e.cutoff)) else Some(e.cutoff)
  }

  lemma {:induction false} LargestIsLargest(es: seq<Event>, min: int)
    ensures (LargestCutoff(es).Some? ==> LargestCutoff(es).value <= min) <==>
      forall j :: 0 <= j < |es| && es[j].Prune? && es[j].deleted ==> es[j].cutoff <= min
  {
    if es != [] {
      var n := |es| - 1;
      LargestIsLargest(es[..n], min);
      assert forall j :: 0 <= j < n ==> es[..n][j] == es[j];
    }
  }

  /** Over a whole run: the largest cut-off does not reach into what a restart at time `now` asks for if and only
      if every successful prune, at its own rate, spares that. */
  lemma RunIsSparedIff(c: Config, es: seq<Event>, at: seq<At>, now: int)
    requires PrunesComputed(c, es, at)
    ensures (LargestCutoff(es).Some? ==> LargestCutoff(es).value <= PreheatSince(now, c.blocks)) <==>
      forall j :: 0 <= j < |es| && es[j].Prune? && es[j].deleted ==> SparesReload(c, at[j], now)
  {
    LargestIsLargest(es, PreheatSince(now, c.blocks));
    forall j | 0 <= j < |es| && es[j].Prune?
      ensures es[j].cutoff <= PreheatSince(now, c.blocks) <==> SparesReload(c, at[j], now)
    {
      CutoffIff(c, es[j], at[j], now);
    }
  }

  /** Every save of the token's prices since `since` succeeded. */
  predicate AllSaved(es: seq<Event>, name: string, since: int) {
    forall e :: e in es && e.Write? && e.price.name == name && since <= e.price.lastUpdated ==> e.saved
  }

  /** If every save succeeded and every successful prune of the run spared what a restart asks for, the restart
      gives a token exactly the part of its array since then. */
  lemma RestartFindsWindow(c: Config, es: seq<Event>, at: seq<At>, now: int, rows: seq<TokenPrice>, name: string)
    requires PrunesComputed(c, es, at) && OneBase(Written(es), name)
    requires PreheatSince(now, c.blocks) <= now && RangeQuery(rows, Table(es), PreheatSince(now, c.blocks), now)
    requires AllSaved(es, name, PreheatSince(now, c.blocks))
    requires forall j :: 0 <= j < |es| && es[j].Prune? && es[j].deleted ==> SparesReload(c, at[j], now)
    ensures ArrayOf(SetAll(map[], rows), name)
      == Window(ArrayOf(SetAll(map[], Written(es)), name), PreheatSince(now, c.blocks), now)
  {
    var since := PreheatSince(now, c.blocks);
    RunIsSparedIff(c, es, at, now);
    LargestIsLargest(es, since);
    AllKept(es, name, since, now);
    ReloadIsWindowIff(rows, es, since, now, name);
  }

  /** Conversely, a prune that reaches past an entry which the restart asks for loses it, unless the entry is
      written again. */
  lemma RestartLosesEntry(c: Config, es: seq<Event>, at: seq<At>, now: int, rows: seq<TokenPrice>, name: string,
                          t: int, j: nat)
    requires PrunesComputed(c, es, at) && OneBase(Written(es), name)
    requires PreheatSince(now, c.blocks) <= t <= now && RangeQuery(rows, Table(es), PreheatSince(now, c.blocks), now)
    requires LastWrite(Written(es), name, t).Some?
    requires j < |es| && es[j].Prune? && es[j].deleted && LastSave(es, name, t) < j
    requires t < at[j].clock.anchorTime - PrunedSpan(c, at[j].clock, at[j].loaded)
    ensures ArrayOf(SetAll(map[], rows), name)
      != Window(ArrayOf(SetAll(map[], Written(es)), name), PreheatSince(now, c.blocks), now)
  {
    CutoffIff(c, es[j], at[j], now);
    assert !Spared(es, LastSave(es, name, t), t);
    assert !EntryKept(es, name, t);
    ReloadIsWindowIff(rows, es, PreheatSince(now, c.blocks), now, name);
  }

  /** A rate at which every prune spares the reload: up to the default, and for an even window up to one and a
      half times that. */
  predicate Moderate(c: Config, rate: int) {
    0 < rate <= 720 || (0 < rate <= 1080 && c.blocks % 2 == 0)
  }

  /** So a run that prunes at moderate rates only, and after the anchor, keeps what a restart asks for. */
  lemma ModerateRunIsSpared(c: Config, es: seq<Event>, at: seq<At>, now: int)
    requires PrunesComputed(c, es, at)
    requires forall j :: 0 <= j < |es| && es[j].Prune? ==> Moderate(c, at[j].clock.rate) && at[j].clock.anchorTime <= now
    ensures forall j :: 0 <= j < |es| && es[j].Prune? ==> SparesReload(c, at[j], now)
  {
    forall j | 0 <= j < |es| && es[j].Prune? ensures SparesReload(c, at[j], now) {
      ReloadIsSpared(c, at[j].clock, at[j].loaded, now);
      CutoffIff(c, es[j], at[j], now);
    }
  }

  /** The run of ReloadMissesPruned, from start-up to rate 2000 with a window of 20000 blocks: a price that was
      saved at the very time the restart asks from is pruned, and the restart comes up without it, although every
      save succeeded. */
  lemma RestartLosesPrice(c: Config, bs: seq<Block>, now: int, p: TokenPrice, es: seq<Event>, rows: seq<TokenPrice>)
    requires c.blocks == 20_000 && now == 1296 * SECOND
    requires bs == [Block(100_001, 0, 0, 0), Block(100_721, 0, now, 0)]
    requires p.lastUpdated == PreheatSince(now, c.blocks)
    requires var clock := Run(StartUp(100_000, 0), bs);
      var cutoff := PriceCutoff(clock, Uint64(clock.height - Syncing.Margin(c)));
      cutoff.Some? && es == [Write(p, true), Prune(cutoff.value, true)]
    requires RangeQuery(rows, Table(es), PreheatSince(now, c.blocks), now)
    ensures ArrayOf(SetAll(map[], rows), p.name) == [] != ArrayOf(SetAll(map[], Written(es)), p.name)
  {
    ReloadMissesPruned(c, bs, now);
    OneWriteThenPrune(p, es[1].cutoff);
    NoRows(rows, p.lastUpdated, now);
    MemberIffLastWrite([p], p, p.name);
    OneMoreWrite([], p, p.name, p.lastUpdated);
    assert [] + [p] == [p];
  }

  lemma NoRows(rows: seq<TokenPrice>, min: int, max: int)
    requires RangeQuery(rows, [], min, max)
    ensures rows == []
  {
    forall r ensures r !in rows {
      assert LastRow([], r.name, r.base, r.lastUpdated) == None;
    }
    if rows != [] {
      HasFirst(rows);
    }
  }

  lemma HasFirst(rows: seq<TokenPrice>)
    requires rows != []
    ensures exists r :: r in rows
  {
    assert rows[0] in rows;
  }

  lemma OneWriteThenPrune(p: TokenPrice, cutoff: int)
    requires p.lastUpdated < cutoff
    ensures Written([Write(p, true), Prune(cutoff, true)]) == [p]
    ensures Table([Write(p, true), Prune(cutoff, true)]) == []
  {
    var one, two := [Write(p, true)], [Write(p, true), Prune(cutoff, true)];
    assert two[..1] == one && one[..0] == [];
    assert Written([]) == [] && Table([]) == [];
    assert Written(one) == Written([]) + [p] == [p] && Table(one) == Table([]) + [p] == [p];
    assert Written(two) == Written(one) + [] == [p];
    assert [p][..0] == [] && Survivors([], cutoff) == [];
    assert Survivors([p], cutoff) == Survivors([], cutoff) + [] == [];
  }
}
