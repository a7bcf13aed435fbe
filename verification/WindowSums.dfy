/** The end-to-end result of the relative-volume pipeline: after fetching, sorting and sweeping, every
    snapshot holds the trapezoid sum over the cached, priced heights of its window. */
module WindowSums {
  import opened Types
  import opened MachineInts
  import opened PriceArrays
  import opened PriceEstimate
  import opened PriceIndex
  import opened PoolCache
  import opened VolumeSweep
  import opened VolumePipeline
  import Sorting

  /** The priced base-denomination record cached at a height, if there is one. */
  function Point(s: Source, id: nat, height: nat): Option<PriceAt> {
    var ps := PointsAt(s, id, height, BASE_VOLUME_DENOM);
    if ps == [] then None else Some(ps[0])
  }

  /** The newest record at heights lo..hi. */
  function Highest(s: Source, id: nat, lo: nat, hi: nat): Option<PriceAt>
    decreases hi + 1 - lo
  {
    if lo > hi then None
    else if Highest(s, id, lo + 1, hi).Some? then Highest(s, id, lo + 1, hi)
    else Point(s, id, lo)
  }

  /** The oldest record at heights lo..hi. */
  function Lowest(s: Source, id: nat, lo: nat, hi: nat): Option<PriceAt>
    decreases hi + 1 - lo
  {
    if lo > hi then None
    else if Point(s, id, lo).Some? then Point(s, id, lo)
    else Lowest(s, id, lo + 1, hi)
  }

  /** Reference definition: over the heights lo..hi with a record, the sum over adjacent ones of the volume
      difference times the mean price. No lists, no indices. */
  function WindowSum(s: Source, id: nat, lo: nat, hi: nat): real
    decreases hi + 1 - lo
  {
    if lo > hi then 0.0
    else
      var rest := WindowSum(s, id, lo + 1, hi);
      match (Point(s, id, lo), Lowest(s, id, lo + 1, hi))
      case (Some(older), Some(newer)) => rest + Area(newer, older)
      case _ => rest
  }

  /** In plain arithmetic: a height with a record, below one that has one, adds the difference of their volumes
      times the mean of their prices; any other height adds nothing. */
  lemma TrapezoidRule(s: Source, id: nat, lo: nat, hi: nat)
    requires lo <= hi
    ensures WindowSum(s, id, lo, hi) - WindowSum(s, id, lo + 1, hi) ==
      match (Point(s, id, lo), Lowest(s, id, lo + 1, hi))
      case (Some(older), Some(newer)) => (newer.volume - older.volume) as real * (newer.price + older.price) / 2.0
      case _ => 0.0
  {
    if Point(s, id, lo).Some? && Lowest(s, id, lo + 1, hi).Some? {
      AreaIsTrapezoid(Lowest(s, id, lo + 1, hi).value, Point(s, id, lo).value);
    }
  }

  lemma AreaIsTrapezoid(newer: PriceAt, older: PriceAt)
    ensures Area(newer, older) == (newer.volume - older.volume) as real * (newer.price + older.price) / 2.0
  {
    var d, p := (newer.volume - older.volume) as real, newer.price + older.price;
    assert (p / 2.0) * d == d * p / 2.0;
  }

  /** At most one coin of the base denomination in every cached state of the pool at heights lo..hi. */
  ghost predicate UniqueBase(s: Source, id: nat, lo: nat, hi: nat) {
    forall h :: lo <= h <= hi ==> |PointsAt(s, id, h, BASE_VOLUME_DENOM)| <= 1
  }

  predicate DistinctDenoms(coins: seq<Coin>) {
    forall i, j :: 0 <= i < j < |coins| ==> coins[i].denom != coins[j].denom
  }

  /** Coins with distinct denominations give the record of the one coin that has the denomination, if
      its price estimate is accepted, and nothing otherwise. */
  lemma {:induction false} DistinctCoinPoints(s: Source, coins: seq<Coin>, height: nat, denom: string)
    requires DistinctDenoms(coins)
    ensures var e, ps := EstimateAt(s, height, denom), CoinPoints(s, coins, height, denom);
      && (forall c :: c in coins && c.denom == denom && AcceptedSigned(e) ==> ps == [PriceAt(height, c.amount, e.price)])
      && ((forall c :: c in coins ==> c.denom != denom) || !AcceptedSigned(e) ==> ps == [])
  {
    if coins != [] {
      var init, last := coins[..|coins| - 1], coins[|coins| - 1];
      DistinctCoinPoints(s, init, height, denom);
      LastIsNew(coins);
      if last.denom == denom {
        assert CoinPoints(s, init, height, denom) == [];
      }
    }
  }

  lemma LastIsNew(coins: seq<Coin>)
    requires coins != [] && DistinctDenoms(coins)
    ensures var init, last := coins[..|coins| - 1], coins[|coins| - 1];
      && (forall c :: c in coins <==> c in init || c == last)
      && (forall c :: c in init ==> c.denom != last.denom)
  {
    assert coins == coins[..|coins| - 1] + [coins[|coins| - 1]];
  }

  /** Every cached state of the pool at heights lo..hi has coins with distinct denominations. */
  ghost predicate DistinctCached(s: Source, id: nat, lo: nat, hi: nat) {
    forall h :: lo <= h <= hi && Lookup(s.pools, h, id).Some? ==>
      DistinctDenoms(Lookup(s.pools, h, id).value.volume)
  }

  lemma DistinctDenomsGiveUniqueBase(s: Source, id: nat, lo: nat, hi: nat)
    requires DistinctCached(s, id, lo, hi)
    ensures UniqueBase(s, id, lo, hi)
  {
    forall h | lo <= h <= hi ensures |PointsAt(s, id, h, BASE_VOLUME_DENOM)| <= 1 {
      if Lookup(s.pools, h, id).Some? {
        DistinctCoinPoints(s, Lookup(s.pools, h, id).value.volume, h, BASE_VOLUME_DENOM);
      }
    }
  }

  // ----- The records newest first -----

  function NewestFirst(s: Source, id: nat, lo: nat, hi: nat): seq<PriceAt>
    decreases hi + 1 - lo
  {
    if lo > hi then [] else NewestFirst(s, id, lo + 1, hi) + PointsAt(s, id, lo, BASE_VOLUME_DENOM)
  }

  lemma {:induction false} FetchedFront(s: Source, id: nat, lo: nat, hi: nat)
    requires lo < hi
    ensures Fetched(s, id, lo, hi, BASE_VOLUME_DENOM)
      == PointsAt(s, id, lo, BASE_VOLUME_DENOM) + Fetched(s, id, lo + 1, hi, BASE_VOLUME_DENOM)
    decreases hi
  {
    if lo + 1 < hi {
      FetchedFront(s, id, lo, hi - 1);
    }
  }

  lemma {:induction false} SameRecords(s: Source, id: nat, lo: nat, hi: nat)
    requires lo <= hi + 1
    ensures multiset(NewestFirst(s, id, lo, hi)) == multiset(Fetched(s, id, lo, hi + 1, BASE_VOLUME_DENOM))
    decreases hi + 1 - lo
  {
    if lo <= hi {
      FetchedFront(s, id, lo, hi + 1);
      SameRecords(s, id, lo + 1, hi);
    }
  }

  lemma {:induction false} NewestFirstDescends(s: Source, id: nat, lo: nat, hi: nat)
    requires UniqueBase(s, id, lo, hi)
    ensures forall p :: p in NewestFirst(s, id, lo, hi) ==> lo <= p.height <= hi
    ensures Sorting.StrictlyOrdered(NewestFirst(s, id, lo, hi), PointKey)
    decreases hi + 1 - lo
  {
    if lo <= hi {
      NewestFirstDescends(s, id, lo + 1, hi);
      PointsHaveHeight(s, id, lo, BASE_VOLUME_DENOM);
      DescendsOneMore(NewestFirst(s, id, lo + 1, hi), PointsAt(s, id, lo, BASE_VOLUME_DENOM), lo);
    }
  }

  lemma DescendsOneMore(init: seq<PriceAt>, last: seq<PriceAt>, lo: nat)
    requires Sorting.StrictlyOrdered(init, PointKey) && |last| <= 1
    requires forall p :: p in init ==> lo < p.height
    requires forall p :: p in last ==> p.height == lo
    ensures Sorting.StrictlyOrdered(init + last, PointKey)
  {
    forall i, j | 0 <= i < j < |init + last| ensures PointKey((init + last)[i]) < PointKey((init + last)[j]) {
      assert (init + last)[i] == init[i] && init[i] in init;
      if j < |init| {
        assert (init + last)[j] == init[j];
      } else {
        assert (init + last)[j] in last;
      }
    }
  }

  /** However the unstable sort behaves, the sorted records are these. */
  lemma SortedRecords(s: Source, id: nat, lo: nat, hi: nat, points: seq<PriceAt>)
    requires lo <= hi && UniqueBase(s, id, lo, hi)
    requires Sorting.SortOf(Fetched(s, id, lo, hi + 1, BASE_VOLUME_DENOM), points, PointKey)
    ensures points == NewestFirst(s, id, lo, hi)
  {
    SameRecords(s, id, lo, hi);
    NewestFirstDescends(s, id, lo, hi);
    Sorting.SortIsUnique(NewestFirst(s, id, lo, hi), points, PointKey);
  }

  lemma {:induction false} PrefixOfWindow(s: Source, id: nat, lo: nat, mid: nat, hi: nat)
    requires lo <= mid <= hi + 1
    ensures NewestFirst(s, id, mid, hi) <= NewestFirst(s, id, lo, hi)
    decreases mid - lo
  {
    if lo < mid {
      PrefixOfWindow(s, id, lo + 1, mid, hi);
    }
  }

  // ----- Prefix sums are window sums -----

  /** A list's last record and the sum up to it. */
  predicate Ends(l: seq<PriceAt>, last: Option<PriceAt>, sum: real) {
    if l == [] then last == None && sum == 0.0
    else last == Some(l[|l| - 1]) && sum == PrefixSum(l, |l| - 1)
  }

  lemma EndsOneMore(l: seq<PriceAt>, last: Option<PriceAt>, sum: real, p: PriceAt)
    requires Ends(l, last, sum)
    ensures Ends(l + [p], Some(p), if last.Some? then sum + Area(last.value, p) else sum)
  {
    AppendSum(l, p);
  }

  /** The last record of a window is its lowest, and its prefix sum is the window sum. */
  lemma {:induction false} LastIsWindowSum(s: Source, id: nat, lo: nat, hi: nat)
    requires UniqueBase(s, id, lo, hi)
    ensures Ends(NewestFirst(s, id, lo, hi), Lowest(s, id, lo, hi), WindowSum(s, id, lo, hi))
    decreases hi + 1 - lo
  {
    if lo <= hi {
      LastIsWindowSum(s, id, lo + 1, hi);
      var init, last := NewestFirst(s, id, lo + 1, hi), PointsAt(s, id, lo, BASE_VOLUME_DENOM);
      if last == [] {
        assert init + last == init;
      } else {
        assert last == [last[0]];
        EndsOneMore(init, Lowest(s, id, lo + 1, hi), WindowSum(s, id, lo + 1, hi), last[0]);
      }
    }
  }

  lemma AppendSum(l: seq<PriceAt>, p: PriceAt)
    ensures PrefixSum(l + [p], |l|) ==
      if l == [] then 0.0 else PrefixSum(l, |l| - 1) + Area(l[|l| - 1], p)
  {
    if l != [] {
      SumOfPrefix(l + [p], l, |l| - 1);
    }
  }

  // ----- The theorem -----

  lemma DescendsByHeight(l: seq<PriceAt>)
    requires Sorting.StrictlyOrdered(l, PointKey)
    ensures forall i, j :: 0 <= i < j < |l| ==> l[i].height > l[j].height
  {
    forall i, j | 0 <= i < j < |l| ensures l[i].height > l[j].height {
      assert PointKey(l[i]) < PointKey(l[j]);
    }
  }

  /** A height with a record finds that record, and the sum there is its window sum. */
  lemma OwnRecord(s: Source, id: nat, lo: nat, h: nat, hi: nat)
    requires lo <= h <= hi && UniqueBase(s, id, lo, hi) && Point(s, id, h).Some?
    ensures var l := NewestFirst(s, id, lo, hi);
      && First(l, h) < |l| && l[First(l, h)].height == h
      && PrefixSum(l, First(l, h)) == WindowSum(s, id, h, hi)
  {
    var l, own := NewestFirst(s, id, lo, hi), NewestFirst(s, id, h, hi);
    PrefixOfWindow(s, id, lo, h, hi);
    LastIsWindowSum(s, id, h, hi);
    PointsHaveHeight(s, id, h, BASE_VOLUME_DENOM);
    NewestFirstDescends(s, id, lo, hi);
    DescendsByHeight(l);
    var k := |own| - 1;
    assert l[k] == own[k] == Point(s, id, h).value;
    assert l[k].height == h;
    assert First(l, h) == k;
    SumOfPrefix(l, own, k);
  }

  ghost predicate DistinctHeights(vols: seq<VolumeAt>) {
    forall i, j :: 0 <= i < j < |vols| ==> vols[i].blockHeight != vols[j].blockHeight
  }

  /** Every snapshot is at a height whose pool state is cached with a priced base-denomination volume. */
  ghost predicate AllCached(s: Source, id: nat, vols: seq<VolumeAt>) {
    forall v :: v in vols ==> 0 <= v.blockHeight < TWO_63 && Point(s, id, v.blockHeight).Some?
  }

  predicate NewestToOldest(vols: seq<VolumeAt>) {
    forall i, j :: 0 <= i < j < |vols| ==> vols[i].blockHeight > vols[j].blockHeight
  }

  lemma SortedSnapshots(before: seq<VolumeAt>, vols: seq<VolumeAt>)
    requires DistinctHeights(before) && Sorting.SortOf(before, vols, VolumeKey)
    ensures NewestToOldest(vols) && |vols| == |before|
    ensures forall v :: v in vols <==> v in before
  {
    assert |multiset(vols)| == |multiset(before)|;
    forall v ensures v in vols <==> v in before {
      Sorting.SameElements(before, vols, v);
    }
    forall i, j | 0 <= i < j < |vols| ensures vols[i].blockHeight > vols[j].blockHeight {
      assert VolumeKey(vols[i]) <= VolumeKey(vols[j]);
      if vols[i].blockHeight == vols[j].blockHeight {
        TwiceInBag(before, vols, i, j);
      }
    }
  }

  lemma TwiceInBag(before: seq<VolumeAt>, vols: seq<VolumeAt>, i: nat, j: nat)
    requires multiset(before) == multiset(vols) && i < j < |vols| && DistinctHeights(before)
    ensures vols[i].blockHeight != vols[j].blockHeight
  {
    Sorting.SameElements(before, vols, vols[i]);
    Sorting.SameElements(before, vols, vols[j]);
    var a :| 0 <= a < |before| && before[a] == vols[i];
    var b :| 0 <= b < |before| && before[b] == vols[j];
    if a == b {
      assert vols == vols[..j] + [vols[j]] + vols[j + 1..];
      assert vols[i] in vols[..j];
      assert multiset(vols)[vols[i]] >= 2;
      OnceInBag(before, a);
    }
  }

  lemma OnceInBag(before: seq<VolumeAt>, a: nat)
    requires DistinctHeights(before) && a < |before|
    ensures multiset(before)[before[a]] == 1
  {
    assert before == before[..a] + [before[a]] + before[a + 1..];
    assert before[a] !in before[..a] && before[a] !in before[a + 1..];
  }

  /** The record of every sorted snapshot is its own height's record. */
  lemma EachFindsItsOwn(s: Source, id: nat, lo: nat, hi: nat, vols: seq<VolumeAt>)
    requires NewestToOldest(vols) && AllCached(s, id, vols) && UniqueBase(s, id, lo, hi)
    requires forall v :: v in vols ==> lo <= v.blockHeight <= hi
    ensures OwnRecordsAdvance(NewestFirst(s, id, lo, hi), Heights(vols))
    ensures Descending(NewestFirst(s, id, lo, hi))
  {
    var l, hs := NewestFirst(s, id, lo, hi), Heights(vols);
    NewestFirstDescends(s, id, lo, hi);
    DescendsByHeight(l);
    forall r | 0 <= r < |hs| ensures First(l, hs[r]) < |l| && l[First(l, hs[r])].height == hs[r] {
      assert vols[r] in vols;
      OwnRecord(s, id, lo, hs[r], hi);
    }
    forall q, r | 0 <= q < r < |hs| ensures First(l, hs[q]) < First(l, hs[r]) {
      assert vols[q].blockHeight > vols[r].blockHeight && vols[q] in vols && vols[r] in vols;
      assert hs[q] > hs[r];
    }
  }

  /** End to end: with distinct snapshot heights, each cached with a priced base-denomination volume, the
      snapshots come out newest first and each holds the window sum from the newest snapshot down to its
      own height; nothing else about it changes. */
  lemma SnapshotsHoldWindowSums(s: Source, id: nat, before: seq<VolumeAt>, after: seq<VolumeAt>)
    requires before != [] && DistinctHeights(before) && AllCached(s, id, before)
    requires DistinctCached(s, id, Oldest(s, before), Newest(before))
    requires RelativeOutcome(s, id, before, after)
    ensures |after| == |before| && NewestToOldest(after)
    ensures forall v :: v in before ==> WithSum(v, WindowSum(s, id, v.blockHeight, Newest(before))) in after
  {
    RangeIsNonEmpty(s, before);
    DistinctDenomsGiveUniqueBase(s, id, Oldest(s, before), Newest(before));
    SomethingIsFetched(s, id, before);
    var points: seq<PriceAt>, vols: seq<VolumeAt> :|
      && Sorting.SortOf(WindowPoints(s, id, before), points, PointKey)
      && Sorting.SortOf(before, vols, VolumeKey)
      && points != [] && after == Swept(points, vols);
    SortedRecords(s, id, Oldest(s, before), Newest(before), points);
    SortedSnapshots(before, vols);
    SweptSnapshots(s, id, before, vols);
  }

  lemma SweptSnapshots(s: Source, id: nat, before: seq<VolumeAt>, vols: seq<VolumeAt>)
    requires NewestToOldest(vols) && AllCached(s, id, before) && forall v :: v in vols <==> v in before
    requires UniqueBase(s, id, Oldest(s, before), Newest(before))
    requires NewestFirst(s, id, Oldest(s, before), Newest(before)) != []
    ensures var after := Swept(NewestFirst(s, id, Oldest(s, before), Newest(before)), vols);
      && |after| == |vols| && NewestToOldest(after)
      && forall v :: v in before ==> WithSum(v, WindowSum(s, id, v.blockHeight, Newest(before))) in after
  {
    var lo, hi := Oldest(s, before), Newest(before);
    RangeCovers(s, before);
    forall r | 0 <= r < |vols|
      ensures Swept(NewestFirst(s, id, lo, hi), vols)[r] == Summed(s, id, hi, vols[r])
    {
      assert vols[r] in vols;
      SweptToOwnSum(s, id, lo, hi, vols, r);
    }
    SummedSnapshots(s, id, hi, vols, Swept(NewestFirst(s, id, lo, hi), vols));
    forall v | v in before
      ensures WithSum(v, WindowSum(s, id, v.blockHeight, hi)) in Swept(NewestFirst(s, id, lo, hi), vols)
    {
      assert v in vols && Summed(s, id, hi, v) == WithSum(v, WindowSum(s, id, v.blockHeight, hi));
    }
  }

  /** A snapshot with the window sum from height `hi` down to its own height. */
  function Summed(s: Source, id: nat, hi: nat, v: VolumeAt): VolumeAt {
    if v.blockHeight < 0 then v else WithSum(v, WindowSum(s, id, v.blockHeight, hi))
  }

  lemma SummedSnapshots(s: Source, id: nat, hi: nat, vols: seq<VolumeAt>, after: seq<VolumeAt>)
    requires NewestToOldest(vols) && |after| == |vols|
    requires forall r :: 0 <= r < |vols| ==> after[r] == Summed(s, id, hi, vols[r])
    ensures NewestToOldest(after)
    ensures forall v :: v in vols ==> Summed(s, id, hi, v) in after
  {
    forall v | v in vols ensures Summed(s, id, hi, v) in after {
      var r :| 0 <= r < |vols| && vols[r] == v;
      assert after[r] == Summed(s, id, hi, v);
    }
  }

  lemma SomethingIsFetched(s: Source, id: nat, before: seq<VolumeAt>)
    requires before != [] && AllCached(s, id, before)
    requires UniqueBase(s, id, Oldest(s, before), Newest(before))
    ensures WindowPoints(s, id, before) != []
  {
    var lo, hi := Oldest(s, before), Newest(before);
    RangeCovers(s, before);
    RangeIsNonEmpty(s, before);
    assert before[0] in before;
    OwnRecord(s, id, lo, before[0].blockHeight, hi);
    SameRecords(s, id, lo, hi);
    assert |multiset(NewestFirst(s, id, lo, hi))| == |multiset(WindowPoints(s, id, before))|;
  }

  lemma SweptToOwnSum(s: Source, id: nat, lo: nat, hi: nat, vols: seq<VolumeAt>, r: nat)
    requires r < |vols| && NewestFirst(s, id, lo, hi) != []
    requires NewestToOldest(vols) && AllCached(s, id, vols) && UniqueBase(s, id, lo, hi)
    requires forall v :: v in vols ==> lo <= v.blockHeight <= hi
    ensures Swept(NewestFirst(s, id, lo, hi), vols)[r]
      == WithSum(vols[r], WindowSum(s, id, vols[r].blockHeight, hi))
  {
    var l, hs := NewestFirst(s, id, lo, hi), Heights(vols);
    EachFindsItsOwn(s, id, lo, hi, vols);
    MatchesAreGreedy(l, hs);
    OwnRecordsIff(l, hs, Matches(l, hs));
    assert vols[r] in vols;
    OwnRecord(s, id, lo, vols[r].blockHeight, hi);
  }

  /** The newest snapshot holds zero. */
  lemma NewestHoldsZero(s: Source, id: nat, h: nat)
    ensures WindowSum(s, id, h, h) == 0.0
  {
  }

  // ----- Bounds on the sums -----

  /** Cumulative volume never falls with height over the cached records of the window. */
  ghost predicate VolumeGrows(s: Source, id: nat, lo: nat, hi: nat) {
    forall g, h :: lo <= g <= h <= hi && Point(s, id, g).Some? && Point(s, id, h).Some? ==>
      Point(s, id, g).value.volume <= Point(s, id, h).value.volume
  }

  /** Every stored price of the base denomination lies between two bounds. */
  ghost predicate StoredWithin(s: Source, low: real, high: real) {
    forall p :: p in ArrayOf(s.prices, BASE_VOLUME_DENOM) ==> low <= p.value <= high
  }

  lemma AcceptedIsStored(arr: seq<TokenPrice>, t: int)
    requires AcceptedSigned(EstimateOf(arr, t))
    ensures arr != []
  {
  }

  /** A record's price is an accepted estimate, so it lies within the stored prices. */
  lemma RecordPriceWithin(s: Source, id: nat, h: nat, low: real, high: real)
    requires ValidPrices(s.prices) && StoredWithin(s, low, high) && Point(s, id, h).Some?
    ensures low <= Point(s, id, h).value.price <= high
  {
    var coins := Lookup(s.pools, h, id).value.volume;
    CoinsHaveHeight(s, coins, h, BASE_VOLUME_DENOM);
    assert Point(s, id, h).value in CoinPoints(s, coins, h, BASE_VOLUME_DENOM);
    var arr := ArrayOf(s.prices, BASE_VOLUME_DENOM);
    var t := BlockClock.BlockToTimestamp(s.clock, h);
    AcceptedIsStored(arr, t);
    StaysInRange(arr, t, low, high);
  }

  lemma {:induction false} LowestIsPoint(s: Source, id: nat, lo: nat, hi: nat)
    ensures Lowest(s, id, lo, hi).Some? ==>
      exists h :: lo <= h <= hi && Point(s, id, h) == Lowest(s, id, lo, hi)
    decreases hi + 1 - lo
  {
    if lo <= hi {
      LowestIsPoint(s, id, lo + 1, hi);
    }
  }

  lemma BoundsStep(newest: int, newer: PriceAt, older: PriceAt, sum: real, low: real, high: real)
    requires newer.volume >= older.volume
    requires low <= newer.price <= high && low <= older.price <= high
    requires Worth(newest - newer.volume, low) <= sum <= Worth(newest - newer.volume, high)
    ensures Worth(newest - older.volume, low) <= sum + Area(newer, older)
      <= Worth(newest - older.volume, high)
  {
    AreaBounds(newer, older, low, high);
    WorthAdds(newest - newer.volume, newer.volume - older.volume, low);
    WorthAdds(newest - newer.volume, newer.volume - older.volume, high);
  }

  /** The next newer record: its price is within the stored prices, and it has at least the volume. */
  lemma NewerRecord(s: Source, id: nat, lo: nat, hi: nat, low: real, high: real)
    requires lo <= hi && Point(s, id, lo).Some? && Lowest(s, id, lo + 1, hi).Some? && ValidPrices(s.prices)
    requires VolumeGrows(s, id, lo, hi) && StoredWithin(s, low, high)
    ensures var newer := Lowest(s, id, lo + 1, hi).value;
      low <= newer.price <= high && newer.volume >= Point(s, id, lo).value.volume
  {
    LowestIsPoint(s, id, lo + 1, hi);
    var h :| lo + 1 <= h <= hi && Point(s, id, h) == Lowest(s, id, lo + 1, hi);
    RecordPriceWithin(s, id, h, low, high);
  }

  /** The sum lies between the lowest and the highest price times the volume traded since `oldest`; without
      records it is zero. */
  predicate WorthBetween(newest: Option<PriceAt>, oldest: Option<PriceAt>, sum: real, low: real, high: real) {
    match (newest, oldest)
    case (Some(n), Some(o)) => Worth(n.volume - o.volume, low) <= sum <= Worth(n.volume - o.volume, high)
    case (None, None) => sum == 0.0
    case _ => false
  }

  lemma {:induction false} WindowSumBetween(s: Source, id: nat, lo: nat, hi: nat, low: real, high: real)
    requires ValidPrices(s.prices) && VolumeGrows(s, id, lo, hi) && StoredWithin(s, low, high)
    ensures WorthBetween(Highest(s, id, lo, hi), Lowest(s, id, lo, hi), WindowSum(s, id, lo, hi), low, high)
    decreases hi + 1 - lo
  {
    if lo <= hi {
      WindowSumBetween(s, id, lo + 1, hi, low, high);
      if Point(s, id, lo).Some? && Lowest(s, id, lo + 1, hi).Some? {
        NewerRecord(s, id, lo, hi, low, high);
        RecordPriceWithin(s, id, lo, low, high);
        BoundsStep(Highest(s, id, lo + 1, hi).value.volume, Lowest(s, id, lo + 1, hi).value, Point(s, id, lo).value,
                   WindowSum(s, id, lo + 1, hi), low, high);
      }
    }
  }

  /** The sum lies between the lowest and the highest price times the volume traded from `oldest` to `newest`;
      without records it is zero. */
  predicate Between(newest: Option<PriceAt>, oldest: Option<PriceAt>, sum: real, low: real, high: real) {
    match (newest, oldest)
    case (Some(n), Some(o)) => low * (n.volume - o.volume) as real <= sum <= high * (n.volume - o.volume) as real
    case (None, None) => sum == 0.0
    case _ => false
  }

  lemma WorthIsProduct(newest: Option<PriceAt>, oldest: Option<PriceAt>, sum: real, low: real, high: real)
    requires WorthBetween(newest, oldest, sum, low, high)
    ensures Between(newest, oldest, sum, low, high)
  {
  }

  /** With growing volume and stored prices in [low, high] a window sum lies between the lowest and the highest
      stored price times the volume traded between the oldest and the newest record of the window. */
  lemma WindowSumBounds(s: Source, id: nat, lo: nat, hi: nat, low: real, high: real)
    requires ValidPrices(s.prices) && VolumeGrows(s, id, lo, hi) && StoredWithin(s, low, high)
    ensures Between(Highest(s, id, lo, hi), Lowest(s, id, lo, hi), WindowSum(s, id, lo, hi), low, high)
  {
    WindowSumBetween(s, id, lo, hi, low, high);
    WorthIsProduct(Highest(s, id, lo, hi), Lowest(s, id, lo, hi), WindowSum(s, id, lo, hi), low, high);
  }

  /** With non-negative prices the window sum never shrinks as the window reaches further back. */
  lemma {:induction false} WindowSumGrows(s: Source, id: nat, lo: nat, mid: nat, hi: nat, low: real, high: real)
    requires lo <= mid && ValidPrices(s.prices) && VolumeGrows(s, id, lo, hi) && StoredWithin(s, low, high) && low >= 0.0
    ensures WindowSum(s, id, mid, hi) <= WindowSum(s, id, lo, hi)
    decreases mid - lo
  {
    if lo < mid && lo <= hi {
      WindowSumGrows(s, id, lo + 1, mid, hi, low, high);
      if Point(s, id, lo).Some? && Lowest(s, id, lo + 1, hi).Some? {
        NewerRecord(s, id, lo, hi, low, high);
        RecordPriceWithin(s, id, lo, low, high);
        AreaIsPositive(Lowest(s, id, lo + 1, hi).value, Point(s, id, lo).value);
      }
    }
  }

  lemma AreaIsPositive(newer: PriceAt, older: PriceAt)
    requires newer.volume >= older.volume && newer.price >= 0.0 && older.price >= 0.0
    ensures Area(newer, older) >= 0.0
  {
    ScaleMonotone((newer.volume - older.volume) as real, 0.0, (newer.price + older.price) / 2.0);
  }

  // ----- Bounds on what the pipeline writes, cached or not -----

  lemma {:induction false} RecordsArePoints(s: Source, id: nat, lo: nat, hi: nat, p: PriceAt)
    requires UniqueBase(s, id, lo, hi) && p in NewestFirst(s, id, lo, hi)
    ensures lo <= p.height <= hi && Point(s, id, p.height) == Some(p)
    decreases hi + 1 - lo
  {
    if p in NewestFirst(s, id, lo + 1, hi) {
      RecordsArePoints(s, id, lo + 1, hi, p);
    } else {
      PointsHaveHeight(s, id, lo, BASE_VOLUME_DENOM);
    }
  }

  /** The sorted records of the window: volume falls along the list, and prices stay in range. */
  lemma RecordsAreCumulative(s: Source, id: nat, lo: nat, hi: nat, low: real, high: real)
    requires UniqueBase(s, id, lo, hi) && ValidPrices(s.prices)
    requires VolumeGrows(s, id, lo, hi) && StoredWithin(s, low, high)
    ensures Cumulative(NewestFirst(s, id, lo, hi), low, high)
  {
    var l := NewestFirst(s, id, lo, hi);
    NewestFirstDescends(s, id, lo, hi);
    DescendsByHeight(l);
    forall i | 0 <= i < |l| ensures low <= l[i].price <= high {
      RecordsArePoints(s, id, lo, hi, l[i]);
      RecordPriceWithin(s, id, l[i].height, low, high);
    }
    forall i, j | 0 <= i < j < |l| ensures l[i].volume >= l[j].volume {
      RecordsArePoints(s, id, lo, hi, l[i]);
      RecordsArePoints(s, id, lo, hi, l[j]);
      assert l[i].height > l[j].height;
    }
  }

  ghost predicate NothingYet(vols: seq<VolumeAt>) {
    forall v :: v in vols ==> v.relativeVolumeUSD == []
  }

  /** The record whose prefix sum snapshot `r` gets if it gets any: its match, or the last record. */
  function ServedBy(points: seq<PriceAt>, hs: seq<nat>, r: nat): nat
    requires points != [] && r < |hs|
    ensures ServedBy(points, hs, r) < |points|
  {
    Min(Matches(points, hs)[r], |points| - 1)
  }

  /** What the sweep wrote, if it wrote anything: the prefix sum at the serving record. */
  lemma SweptValue(points: seq<PriceAt>, vols: seq<VolumeAt>, r: nat)
    requires points != [] && r < |vols| && vols[r].relativeVolumeUSD == []
    ensures Swept(points, vols)[r].relativeVolumeUSD != [] ==>
      Swept(points, vols)[r].relativeVolumeUSD == [PrefixSum(points, ServedBy(points, Heights(vols), r))]
  {
  }

  /** Whoever comes before a written snapshot was written too, and was served by no later a record. */
  lemma SweptInOrder(points: seq<PriceAt>, vols: seq<VolumeAt>, q: nat, r: nat)
    requires points != [] && q < r < |vols| && vols[r].relativeVolumeUSD == []
    requires Swept(points, vols)[r].relativeVolumeUSD != []
    ensures Swept(points, vols)[q].relativeVolumeUSD != []
    ensures ServedBy(points, Heights(vols), q) <= ServedBy(points, Heights(vols), r)
  {
    var hs := Heights(vols);
    var ms := Matches(points, hs);
    MatchesAreGreedy(points, hs);
    if ms[q] < |points| {
      MatchesAdvance(points, hs, ms, q, r);
    } else {
      MatchedOut(points, hs, ms, q, r - 1);
      MatchedOut(points, hs, ms, q, r);
    }
  }

  ghost predicate BoundedSource(s: Source, id: nat, lo: nat, hi: nat, low: real, high: real) {
    && ValidPrices(s.prices) && DistinctCached(s, id, lo, hi)
    && VolumeGrows(s, id, lo, hi) && StoredWithin(s, low, high)
  }

  /** A snapshot's relative volume, if it has one, lies between the lowest and the highest stored price times the
      volume traded from the record at `points[k]` to the newest one. */
  predicate ValueBetween(v: VolumeAt, points: seq<PriceAt>, k: nat, low: real, high: real)
    requires k < |points|
  {
    v.relativeVolumeUSD != [] ==>
      && |v.relativeVolumeUSD| == 1
      && low * (points[0].volume - points[k].volume) as real <= v.relativeVolumeUSD[0]
      && v.relativeVolumeUSD[0] <= high * (points[0].volume - points[k].volume) as real
  }

  /** What the pipeline writes, whatever is missing from the cache: a snapshot's relative volume lies between
      the lowest and the highest stored price times the volume traded between the record that serves the
      snapshot and the newest record. */
  lemma RelativeVolumeBounds(s: Source, id: nat, before: seq<VolumeAt>, after: seq<VolumeAt>, low: real, high: real, r: nat)
    requires before != [] && NothingYet(before) && RelativeOutcome(s, id, before, after) && r < |after|
    requires BoundedSource(s, id, Oldest(s, before), Newest(before), low, high)
    ensures var points := NewestFirst(s, id, Oldest(s, before), Newest(before));
      if points == [] then after[r].relativeVolumeUSD == []
      else ValueBetween(after[r], points, ServedBy(points, Heights(after), r), low, high)
  {
    DistinctDenomsGiveUniqueBase(s, id, Oldest(s, before), Newest(before));
    RangeIsNonEmpty(s, before);
    FetchedIffRecords(s, id, before);
    if WindowPoints(s, id, before) == [] {
      assert after[r] in before;
    } else {
      var points, vols := OutcomeIsSwept(s, id, before, after);
      RecordsAreCumulative(s, id, Oldest(s, before), Newest(before), low, high);
      SweptBounds(points, vols, low, high, r);
    }
  }

  lemma FetchedIffRecords(s: Source, id: nat, before: seq<VolumeAt>)
    requires before != []
    ensures WindowPoints(s, id, before) == [] <==> NewestFirst(s, id, Oldest(s, before), Newest(before)) == []
  {
    RangeIsNonEmpty(s, before);
    SameRecords(s, id, Oldest(s, before), Newest(before));
    assert |multiset(NewestFirst(s, id, Oldest(s, before), Newest(before)))| == |multiset(WindowPoints(s, id, before))|;
  }

  lemma SweptBounds(points: seq<PriceAt>, vols: seq<VolumeAt>, low: real, high: real, r: nat)
    requires points != [] && Cumulative(points, low, high) && r < |vols| && vols[r].relativeVolumeUSD == []
    ensures var after := Swept(points, vols);
      ValueBetween(after[r], points, ServedBy(points, Heights(after), r), low, high)
  {
    SweptHeights(points, vols);
    SweptValue(points, vols, r);
    SumIsBetween(Swept(points, vols)[r], points, ServedBy(points, Heights(vols), r), low, high);
  }

  lemma SumIsBetween(v: VolumeAt, points: seq<PriceAt>, k: nat, low: real, high: real)
    requires k < |points| && Cumulative(points, low, high)
    requires v.relativeVolumeUSD != [] ==> v.relativeVolumeUSD == [PrefixSum(points, k)]
    ensures ValueBetween(v, points, k, low, high)
  {
    SumBounds(points, k, low, high);
  }

  /** The prefix sum at any record of the window is the window sum down to that record. */
  lemma PrefixIsWindowSum(s: Source, id: nat, lo: nat, hi: nat, k: nat)
    requires lo <= hi && UniqueBase(s, id, lo, hi) && k < |NewestFirst(s, id, lo, hi)|
    ensures PrefixSum(NewestFirst(s, id, lo, hi), k) == WindowSum(s, id, NewestFirst(s, id, lo, hi)[k].height, hi)
  {
    var l := NewestFirst(s, id, lo, hi);
    RecordsArePoints(s, id, lo, hi, l[k]);
    NewestFirstDescends(s, id, lo, hi);
    DescendsByHeight(l);
    OwnRecord(s, id, lo, l[k].height, hi);
    assert First(l, l[k].height) == k;
  }

  /** What the pipeline writes, exactly, whatever is missing from the cache: a snapshot's relative volume, if it
      is given one, is the window sum from the newest snapshot down to the record that serves it. */
  lemma RelativeVolumeIsWindowSum(s: Source, id: nat, before: seq<VolumeAt>, after: seq<VolumeAt>, r: nat)
    requires before != [] && NothingYet(before) && RelativeOutcome(s, id, before, after)
    requires DistinctCached(s, id, Oldest(s, before), Newest(before))
    requires r < |after| && after[r].relativeVolumeUSD != []
    ensures var points := NewestFirst(s, id, Oldest(s, before), Newest(before));
      && points != []
      && after[r].relativeVolumeUSD == [WindowSum(s, id, points[ServedBy(points, Heights(after), r)].height, Newest(before))]
  {
    DistinctDenomsGiveUniqueBase(s, id, Oldest(s, before), Newest(before));
    RangeIsNonEmpty(s, before);
    WrittenIsFetched(s, id, before, after, after[r]);
    var points, vols := OutcomeIsSwept(s, id, before, after);
    SweptSum(points, vols, r);
    PrefixIsWindowSum(s, id, Oldest(s, before), Newest(before), ServedBy(points, Heights(after), r));
  }

  lemma SweptSum(points: seq<PriceAt>, vols: seq<VolumeAt>, r: nat)
    requires points != [] && r < |vols| && NothingYet(vols)
    ensures var after := Swept(points, vols);
      after[r].relativeVolumeUSD != [] ==>
        after[r].relativeVolumeUSD == [PrefixSum(points, ServedBy(points, Heights(after), r))]
  {
    assert vols[r] in vols;
    SweptValue(points, vols, r);
    SweptHeights(points, vols);
  }

  /** Without priced records of the base denomination, "uosmo", nothing changes, not even the order. */
  lemma NothingFetchedNothingChanges(s: Source, id: nat, before: seq<VolumeAt>, after: seq<VolumeAt>)
    requires before != [] && RelativeOutcome(s, id, before, after)
    requires forall h :: Oldest(s, before) <= h <= Newest(before) ==> PointsAt(s, id, h, "uosmo") == []
    ensures after == before
  {
    RangeIsNonEmpty(s, before);
    NoneFetched(s, id, Oldest(s, before), Newest(before) + 1);
  }

  lemma {:induction false} NoneFetched(s: Source, id: nat, lo: nat, hi: nat)
    requires lo <= hi && forall h :: lo <= h < hi ==> PointsAt(s, id, h, "uosmo") == []
    ensures Fetched(s, id, lo, hi, BASE_VOLUME_DENOM) == []
    decreases hi
  {
    if lo < hi {
      NoneFetched(s, id, lo, hi - 1);
    }
  }

  lemma SweptAtIff(sums: seq<real>, ms: seq<nat>, vols: seq<VolumeAt>, r: nat)
    requires |sums| > 0 && r < |vols| == |ms| && vols[r].relativeVolumeUSD == []
    requires r > 0 && ms[r - 1] >= |sums| ==> ms[r] >= |sums|
    ensures SweptAt(sums, ms, vols, r).relativeVolumeUSD != [] <==> r == 0 || ms[r - 1] < |sums|
    ensures SweptAt(sums, ms, vols, r).(relativeVolumeUSD := []) == vols[r]
  {
  }

  lemma SweptIff(points: seq<PriceAt>, vols: seq<VolumeAt>, r: nat)
    requires points != [] && r < |vols| && vols[r].relativeVolumeUSD == []
    ensures Swept(points, vols)[r].relativeVolumeUSD != [] <==> r == 0 || Matches(points, Heights(vols))[r - 1] < |points|
    ensures Swept(points, vols)[r].(relativeVolumeUSD := []) == vols[r]
  {
    var hs := Heights(vols);
    var ms := Matches(points, hs);
    MatchesAreGreedy(points, hs);
    if r > 0 && ms[r - 1] >= |points| {
      MatchedOut(points, hs, ms, r - 1, r);
    }
    SweptAtIff(PrefixSums(points), ms, vols, r);
  }

  /** Exactly the first snapshot and those whose predecessor found a record of its own are given a relative
      volume, if there are records at all; and nothing else of any snapshot changes. */
  lemma WrittenIff(s: Source, id: nat, before: seq<VolumeAt>, after: seq<VolumeAt>, r: nat)
    requires before != [] && NothingYet(before) && RelativeOutcome(s, id, before, after) && r < |after|
    requires DistinctCached(s, id, Oldest(s, before), Newest(before))
    ensures var points := NewestFirst(s, id, Oldest(s, before), Newest(before));
      after[r].relativeVolumeUSD != [] <==>
        points != [] && (r == 0 || Matches(points, Heights(after))[r - 1] < |points|)
    ensures after[r].(relativeVolumeUSD := []) in before
  {
    DistinctDenomsGiveUniqueBase(s, id, Oldest(s, before), Newest(before));
    RangeIsNonEmpty(s, before);
    FetchedIffRecords(s, id, before);
    if WindowPoints(s, id, before) == [] {
      assert after[r] in before;
    } else {
      var points, vols := OutcomeIsSwept(s, id, before, after);
      SweptWrites(points, vols, r);
    }
  }

  lemma SweptHeights(points: seq<PriceAt>, vols: seq<VolumeAt>)
    requires points != []
    ensures |Swept(points, vols)| == |vols| && Heights(Swept(points, vols)) == Heights(vols)
  {
  }

  lemma InSequence(vols: seq<VolumeAt>, r: nat)
    requires r < |vols|
    ensures vols[r] in vols
  {
  }

  lemma SweptWrites(points: seq<PriceAt>, vols: seq<VolumeAt>, r: nat)
    requires points != [] && r < |vols| && NothingYet(vols)
    ensures var after := Swept(points, vols);
      && (after[r].relativeVolumeUSD != [] <==> r == 0 || Matches(points, Heights(after))[r - 1] < |points|)
      && after[r].(relativeVolumeUSD := []) in vols
  {
    SweptHeights(points, vols);
    InSequence(vols, r);
    SweptIff(points, vols, r);
  }

  /** And, with non-negative prices, relative volumes never shrink going back in time: every snapshot before a
      written one is written, is at least as new, and has at most its value. */
  lemma RelativeVolumesGrow(s: Source, id: nat, before: seq<VolumeAt>, after: seq<VolumeAt>, low: real, high: real,
                            q: nat, r: nat)
    requires before != [] && NothingYet(before) && RelativeOutcome(s, id, before, after)
    requires BoundedSource(s, id, Oldest(s, before), Newest(before), low, high) && low >= 0.0
    requires q < r < |after| && after[r].relativeVolumeUSD != []
    ensures after[q].blockHeight >= after[r].blockHeight
    ensures |after[q].relativeVolumeUSD| == |after[r].relativeVolumeUSD| == 1
    ensures after[q].relativeVolumeUSD[0] <= after[r].relativeVolumeUSD[0]
  {
    var lo, hi := Oldest(s, before), Newest(before);
    DistinctDenomsGiveUniqueBase(s, id, lo, hi);
    WrittenIsFetched(s, id, before, after, after[r]);
    var points, vols := OutcomeIsSwept(s, id, before, after);
    RecordsAreCumulative(s, id, lo, hi, low, high);
    SweptGrows(points, vols, low, high, q, r);
  }

  lemma SweptGrows(points: seq<PriceAt>, vols: seq<VolumeAt>, low: real, high: real, q: nat, r: nat)
    requires points != [] && Cumulative(points, low, high) && low >= 0.0
    requires Sorting.Ordered(vols, VolumeKey) && NothingYet(vols)
    requires q < r < |vols| && Swept(points, vols)[r].relativeVolumeUSD != []
    ensures var after := Swept(points, vols);
      && after[q].blockHeight >= after[r].blockHeight
      && |after[q].relativeVolumeUSD| == |after[r].relativeVolumeUSD| == 1
      && after[q].relativeVolumeUSD[0] <= after[r].relativeVolumeUSD[0]
  {
    assert vols[q] in vols && vols[r] in vols;
    SweptValue(points, vols, q);
    SweptValue(points, vols, r);
    SweptInOrder(points, vols, q, r);
    SumsGrow(points, ServedBy(points, Heights(vols), q), ServedBy(points, Heights(vols), r), low, high);
    assert VolumeKey(vols[q]) <= VolumeKey(vols[r]);
  }

  lemma WrittenIsFetched(s: Source, id: nat, before: seq<VolumeAt>, after: seq<VolumeAt>, v: VolumeAt)
    requires before != [] && NothingYet(before) && RelativeOutcome(s, id, before, after)
    requires v in after && v.relativeVolumeUSD != []
    ensures WindowPoints(s, id, before) != []
  {
  }

  lemma OutcomeIsSwept(s: Source, id: nat, before: seq<VolumeAt>, after: seq<VolumeAt>)
    returns (points: seq<PriceAt>, vols: seq<VolumeAt>)
    requires before != [] && NothingYet(before) && RelativeOutcome(s, id, before, after)
    requires UniqueBase(s, id, Oldest(s, before), Newest(before)) && WindowPoints(s, id, before) != []
    ensures points == NewestFirst(s, id, Oldest(s, before), Newest(before)) != []
    ensures Sorting.Ordered(vols, VolumeKey) && NothingYet(vols) && after == Swept(points, vols)
    ensures forall v :: v in vols <==> v in before
  {
    RangeIsNonEmpty(s, before);
    var ps: seq<PriceAt>, vs: seq<VolumeAt> :|
      && Sorting.SortOf(WindowPoints(s, id, before), ps, PointKey)
      && Sorting.SortOf(before, vs, VolumeKey)
      && ps != [] && after == Swept(ps, vs);
    points, vols := ps, vs;
    SortedRecords(s, id, Oldest(s, before), Newest(before), points);
    forall v ensures v in vols <==> v in before {
      Sorting.SameElements(before, vols, v);
    }
  }
}
