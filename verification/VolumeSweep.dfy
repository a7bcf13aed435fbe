/** The two-index sweep of `calculateRelativeVolumeValueCumulatively` (internal/indexer/volume.go).
    Floats are reals, `big.Int` is int. */
module VolumeSweep {
  import opened MachineInts
  import opened Types

  datatype PriceAt = PriceAt(height: nat, volume: int, price: real)

  function CalculatePrice(volume: int, price: real): real { volume as real * price }

  /** What a volume is worth at a price; the specification's own, apart from what the code calls. */
  function Worth(volume: int, price: real): real { price * volume as real }

  lemma CalculatePriceIsWorth(volume: int, price: real)
    ensures CalculatePrice(volume, price) == Worth(volume, price)
  {
  }

  /** Volume traded between an older point and a newer one, valued at the mean of their prices. */
  function Area(newer: PriceAt, older: PriceAt): real {
    Worth(newer.volume - older.volume, (newer.price + older.price) / 2.0)
  }

  /** Sum of the areas between adjacent records, from the first to the record at `i`. */
  function PrefixSum(vp: seq<PriceAt>, i: nat): real
    requires i < |vp|
  {
    if i == 0 then 0.0 else PrefixSum(vp, i - 1) + Area(vp[i - 1], vp[i])
  }

  // ----- The greedy matching -----

  function Heights(vols: seq<VolumeAt>): seq<nat> {
    seq(|vols|, i requires 0 <= i < |vols| => Uint64(vols[i].blockHeight))
  }

  /** The first record at or after position `from` whose height is at or below `h`; |vp| if none. */
  function NextAtOrBelow(vp: seq<PriceAt>, from: nat, h: nat): (i: nat)
    requires from <= |vp|
    ensures from <= i <= |vp|
    ensures forall k :: from <= k < i ==> vp[k].height > h
    ensures i < |vp| ==> vp[i].height <= h
    decreases |vp| - from
  {
    if from == |vp| || vp[from].height <= h then from else NextAtOrBelow(vp, from + 1, h)
  }

  /** Where the search for snapshot `r` starts: each record serves at most one snapshot. */
  function Start(vp: seq<PriceAt>, ms: seq<nat>, r: nat): (i: nat)
    requires r <= |ms|
    ensures i <= |vp|
  {
    if r == 0 then 0 else if ms[r - 1] < |vp| then ms[r - 1] + 1 else |vp|
  }

  /** Record `ms[r]` serves snapshot `r`: the first record, after the one that served the previous
      snapshot, that is at or below the snapshot's height; |vp| if there is none left. */
  predicate MatchedAt(vp: seq<PriceAt>, hs: seq<nat>, ms: seq<nat>, r: nat)
    requires r < |hs| && |ms| == |hs|
  {
    ms[r] == NextAtOrBelow(vp, Start(vp, ms, r), hs[r])
  }

  ghost predicate Matching(vp: seq<PriceAt>, hs: seq<nat>, ms: seq<nat>) {
    |ms| == |hs| && forall r :: 0 <= r < |hs| ==> MatchedAt(vp, hs, ms, r)
  }

  /** The greedy matching of snapshots to records. */
  function Matches(vp: seq<PriceAt>, hs: seq<nat>): (ms: seq<nat>)
    ensures |ms| == |hs|
  {
    if hs == [] then []
    else
      var n := |hs| - 1;
      var ms := Matches(vp, hs[..n]);
      ms + [NextAtOrBelow(vp, Start(vp, ms, n), hs[n])]
  }

  lemma {:induction false} MatchesAreGreedy(vp: seq<PriceAt>, hs: seq<nat>)
    ensures Matching(vp, hs, Matches(vp, hs))
  {
    if hs != [] {
      var n := |hs| - 1;
      var ms := Matches(vp, hs[..n]);
      MatchesAreGreedy(vp, hs[..n]);
      forall r | 0 <= r <= n ensures MatchedAt(vp, hs, Matches(vp, hs), r) {
        if r < n {
          assert MatchedAt(vp, hs[..n], ms, r);
        }
      }
    }
  }

  /** There is only one greedy matching. */
  lemma {:induction false} MatchingIsUnique(vp: seq<PriceAt>, hs: seq<nat>, ms: seq<nat>, ns: seq<nat>, r: nat)
    requires Matching(vp, hs, ms) && Matching(vp, hs, ns) && r < |hs|
    ensures ms[r] == ns[r]
  {
    assert MatchedAt(vp, hs, ms, r) && MatchedAt(vp, hs, ns, r);
    if r > 0 {
      MatchingIsUnique(vp, hs, ms, ns, r - 1);
    }
  }

  function PrefixSums(vp: seq<PriceAt>): seq<real> {
    seq(|vp|, i requires 0 <= i < |vp| => PrefixSum(vp, i))
  }

  function WithSum(v: VolumeAt, sum: real): VolumeAt { v.(relativeVolumeUSD := [sum]) }

  /** Snapshot `r` after the sweep: the prefix sum at its match; the total, if it is the first for which
      the records have run out; untouched otherwise. */
  function SweptAt(sums: seq<real>, ms: seq<nat>, vols: seq<VolumeAt>, r: nat): VolumeAt
    requires |sums| > 0 && r < |vols| == |ms|
  {
    if ms[r] < |sums| then WithSum(vols[r], sums[ms[r]])
    else if r == 0 || ms[r - 1] < |sums| then WithSum(vols[r], sums[|sums| - 1])
    else vols[r]
  }

  function Swept(vp: seq<PriceAt>, vols: seq<VolumeAt>): seq<VolumeAt>
    requires |vp| > 0
  {
    var sums, ms := PrefixSums(vp), Matches(vp, Heights(vols));
    seq(|vols|, r requires 0 <= r < |vols| => SweptAt(sums, ms, vols, r))
  }

  lemma {:induction false} MatchedOut(vp: seq<PriceAt>, hs: seq<nat>, ms: seq<nat>, q: nat, r: nat)
    requires Matching(vp, hs, ms) && q <= r < |hs| && ms[q] >= |vp|
    ensures ms[r] >= |vp|
  {
    assert MatchedAt(vp, hs, ms, r);
    if q < r {
      MatchedOut(vp, hs, ms, q, r - 1);
    }
  }

  /** What the loop has accumulated before it visits record `idx`. */
  function SumBefore(vp: seq<PriceAt>, idx: nat): real
    requires idx <= |vp|
  {
    if idx == 0 then 0.0 else PrefixSum(vp, idx - 1)
  }

  function Previous(vp: seq<PriceAt>, idx: nat): PriceAt
    requires 0 < |vp| && idx <= |vp|
  {
    if idx == 0 then vp[0] else vp[idx - 1]
  }

  lemma SumStep(vp: seq<PriceAt>, idx: nat, deltaVolume: int, avgPrice: real)
    requires idx < |vp|
    requires deltaVolume == Previous(vp, idx).volume - vp[idx].volume
    requires avgPrice == (Previous(vp, idx).price + vp[idx].price) / 2.0
    ensures SumBefore(vp, idx) + CalculatePrice(deltaVolume, avgPrice) == PrefixSum(vp, idx)
  {
    CalculatePriceIsWorth(deltaVolume, avgPrice);
  }

  /** The loop's state before it visits record `idx`: the first `n` snapshots are served, each by its own
      record, and hold their sums; the search for snapshot `n` has reached `idx`. */
  ghost predicate InSweep(sums: seq<real>, ms: seq<nat>, was: seq<VolumeAt>, now: seq<VolumeAt>, n: nat, idx: nat) {
    && idx <= |sums| && n <= |was| == |now| == |ms|
    && (forall r :: 0 <= r < n ==> ms[r] < idx && now[r] == WithSum(was[r], sums[ms[r]]))
    && (forall r :: n <= r < |was| ==> now[r] == was[r])
    && (n < |was| ==> idx <= ms[n])
  }

  /** The record at `idx` is the match exactly if it is at or below the snapshot's height; then the next
      snapshot's match comes later. */
  lemma MatchOrPass(vp: seq<PriceAt>, hs: seq<nat>, ms: seq<nat>, n: nat, idx: nat)
    requires Matching(vp, hs, ms) && n < |hs| && idx < |vp| && Start(vp, ms, n) <= idx <= ms[n]
    ensures ms[n] == idx <==> vp[idx].height <= hs[n]
    ensures ms[n] == idx && n + 1 < |hs| ==> idx < ms[n + 1]
    ensures ms[n] == idx ==> Start(vp, ms, n + 1) == idx + 1
  {
    assert MatchedAt(vp, hs, ms, n);
    if n + 1 < |hs| {
      assert MatchedAt(vp, hs, ms, n + 1);
    }
  }

  function Served(now: seq<VolumeAt>, n: nat, sum: real): seq<VolumeAt>
    requires n < |now|
  {
    now[n := WithSum(now[n], sum)]
  }

  lemma Serve(sums: seq<real>, ms: seq<nat>, was: seq<VolumeAt>, now: seq<VolumeAt>, n: nat, idx: nat)
    requires InSweep(sums, ms, was, now, n, idx) && n < |was| && idx < |sums|
    requires ms[n] == idx && (n + 1 < |was| ==> idx < ms[n + 1])
    ensures InSweep(sums, ms, was, Served(now, n, sums[idx]), n + 1, idx + 1)
  {
    var next := Served(now, n, sums[idx]);
    forall r | 0 <= r < |now| ensures next[r] == if r == n then WithSum(was[n], sums[idx]) else now[r] {
    }
  }

  lemma RunOut(vp: seq<PriceAt>, ms: seq<nat>, was: seq<VolumeAt>, now: seq<VolumeAt>, n: nat)
    requires |vp| > 0 && n < |was| && Matching(vp, Heights(was), ms)
    requires InSweep(PrefixSums(vp), ms, was, now, n, |vp|)
    ensures |was| == |ms| && forall r :: 0 <= r < |was| ==>
      Served(now, n, PrefixSums(vp)[|vp| - 1])[r] == SweptAt(PrefixSums(vp), ms, was, r)
  {
    var sums := PrefixSums(vp);
    forall r | 0 <= r < |was| ensures Served(now, n, sums[|vp| - 1])[r] == SweptAt(sums, ms, was, r) {
      if r < n {
        assert now[r] == WithSum(was[r], sums[ms[r]]);
      } else if r == n {
        assert now[n] == was[n];
        if n > 0 { assert now[n - 1] == WithSum(was[n - 1], sums[ms[n - 1]]); }
      } else {
        assert now[r] == was[r];
        MatchedOut(vp, Heights(was), ms, n, r - 1);
        MatchedOut(vp, Heights(was), ms, n, r);
      }
    }
  }

  /** The sweep refines the greedy matching on any input whatever: gaps, repeats, any order. */
  method CalculateCumulatively(volumePrices: seq<PriceAt>, volumes: array<VolumeAt>)
    requires |volumePrices| > 0
    modifies volumes
    ensures volumes[..] == Swept(volumePrices, old(volumes[..]))
  {
    ghost var was := volumes[..];
    ghost var sums, ms := PrefixSums(volumePrices), Matches(volumePrices, Heights(was));
    MatchesAreGreedy(volumePrices, Heights(was));
    var prevPrice := volumePrices[0].price;
    var priceSum := 0.0;
    var prevVolume := volumePrices[0].volume;
    var rangeIndex, idx := 0, 0;
    var pricesNum, volumesNum := |volumePrices|, volumes.Length;

    while rangeIndex < volumesNum && idx < pricesNum
      invariant 0 <= rangeIndex <= volumesNum && 0 <= idx <= pricesNum
      invariant InSweep(sums, ms, was, volumes[..], rangeIndex, idx)
      invariant Start(volumePrices, ms, rangeIndex) <= idx
      invariant prevPrice == Previous(volumePrices, idx).price
      invariant prevVolume == Previous(volumePrices, idx).volume
      invariant priceSum == SumBefore(volumePrices, idx)
      decreases pricesNum - idx
    {
      var deltaVolume := prevVolume - volumePrices[idx].volume;
      var avgPrice := (prevPrice + volumePrices[idx].price) / 2.0;
      SumStep(volumePrices, idx, deltaVolume, avgPrice);
      priceSum := priceSum + CalculatePrice(deltaVolume, avgPrice);

      ghost var now := volumes[..];
      assert now[rangeIndex] == was[rangeIndex];
      MatchOrPass(volumePrices, Heights(was), ms, rangeIndex, idx);
      if volumePrices[idx].height <= Uint64(volumes[rangeIndex].blockHeight) {
        Serve(sums, ms, was, now, rangeIndex, idx);
        WriteSum(volumes, rangeIndex, priceSum);
        rangeIndex := rangeIndex + 1;
      }

      prevVolume := volumePrices[idx].volume;
      prevPrice := volumePrices[idx].price;
      idx := idx + 1;
    }

    if rangeIndex < volumesNum {
      ghost var now := volumes[..];
      RunOut(volumePrices, ms, was, now, rangeIndex);
      WriteSum(volumes, rangeIndex, priceSum);
    }
  }

  method WriteSum(volumes: array<VolumeAt>, rangeIndex: nat, priceSum: real)
    requires rangeIndex < volumes.Length
    modifies volumes
    ensures volumes[..] == Served(old(volumes[..]), rangeIndex, priceSum)
  {
    volumes[rangeIndex] := volumes[rangeIndex].(relativeVolumeUSD := [priceSum]);
  }

  // ----- The matching on a descending list -----

  predicate Descending(vp: seq<PriceAt>) {
    forall i, j :: 0 <= i < j < |vp| ==> vp[i].height >= vp[j].height
  }

  /** The first record at or below a height. */
  function First(vp: seq<PriceAt>, h: nat): nat { NextAtOrBelow(vp, 0, h) }

  function Min(a: int, b: int): int { if a < b then a else b }

  /** Snapshot `r` is served by the first record at or below its height, or by the record after the
      previous snapshot's, whichever comes later. */
  lemma MatchIsMax(vp: seq<PriceAt>, hs: seq<nat>, ms: seq<nat>, r: nat)
    requires Descending(vp) && Matching(vp, hs, ms) && r < |hs|
    ensures ms[r] == Max(Start(vp, ms, r), First(vp, hs[r]))
  {
    assert MatchedAt(vp, hs, ms, r);
    var f, m := First(vp, hs[r]), ms[r];
    assert f < |vp| ==> forall k :: f <= k < |vp| ==> vp[k].height <= hs[r];
    assert m < |vp| ==> vp[m].height <= hs[r];
  }

  /** What snapshot `q` alone demands of the match of a later snapshot `r`. */
  function Demand(vp: seq<PriceAt>, hs: seq<nat>, q: nat, r: nat): int
    requires q <= r && q < |hs|
  {
    Min(|vp|, First(vp, hs[q]) + (r - q))
  }

  /** Closed form of the matching: the largest demand of the snapshots up to `r`. */
  lemma {:induction false} MatchClosedForm(vp: seq<PriceAt>, hs: seq<nat>, ms: seq<nat>, r: nat)
    requires Descending(vp) && Matching(vp, hs, ms) && r < |hs|
    ensures forall q :: 0 <= q <= r ==> Demand(vp, hs, q, r) <= ms[r]
    ensures exists q :: 0 <= q <= r && ms[r] == Demand(vp, hs, q, r)
  {
    MatchIsMax(vp, hs, ms, r);
    assert Demand(vp, hs, r, r) == First(vp, hs[r]);
    if r == 0 {
      assert ms[r] == Demand(vp, hs, r, r);
    } else {
      MatchClosedForm(vp, hs, ms, r - 1);
      forall q | 0 <= q < r ensures Demand(vp, hs, q, r) <= Start(vp, ms, r) {
        assert Demand(vp, hs, q, r - 1) <= ms[r - 1];
      }
      var q :| 0 <= q <= r - 1 && ms[r - 1] == Demand(vp, hs, q, r - 1);
      assert Start(vp, ms, r) == Demand(vp, hs, q, r);
      if ms[r] != Start(vp, ms, r) {
        assert ms[r] == Demand(vp, hs, r, r);
      }
    }
  }

  ghost predicate EveryoneServedByOwn(vp: seq<PriceAt>, hs: seq<nat>, ms: seq<nat>)
    requires |ms| == |hs|
  {
    forall r :: 0 <= r < |hs| ==> ms[r] == First(vp, hs[r]) < |vp|
  }

  ghost predicate OwnRecordsAdvance(vp: seq<PriceAt>, hs: seq<nat>) {
    && (forall r :: 0 <= r < |hs| ==> First(vp, hs[r]) < |vp|)
    && (forall q, r :: 0 <= q < r < |hs| ==> First(vp, hs[q]) < First(vp, hs[r]))
  }

  /** Every snapshot is served by the first record at or below its own height if and only if those
      records exist and strictly advance from snapshot to snapshot. */
  lemma OwnRecordsIff(vp: seq<PriceAt>, hs: seq<nat>, ms: seq<nat>)
    requires Descending(vp) && Matching(vp, hs, ms)
    ensures EveryoneServedByOwn(vp, hs, ms) <==> OwnRecordsAdvance(vp, hs)
  {
    if OwnRecordsAdvance(vp, hs) {
      forall r | 0 <= r < |hs| ensures ms[r] == First(vp, hs[r]) {
        ServedInTurn(vp, hs, ms, r);
      }
    }
    if EveryoneServedByOwn(vp, hs, ms) {
      forall q, r | 0 <= q < r < |hs| ensures First(vp, hs[q]) < First(vp, hs[r]) {
        MatchesAdvance(vp, hs, ms, q, r);
      }
    }
  }

  lemma {:induction false} ServedInTurn(vp: seq<PriceAt>, hs: seq<nat>, ms: seq<nat>, r: nat)
    requires Descending(vp) && Matching(vp, hs, ms) && r < |hs| && OwnRecordsAdvance(vp, hs)
    ensures ms[r] == First(vp, hs[r])
  {
    MatchIsMax(vp, hs, ms, r);
    if r > 0 {
      ServedInTurn(vp, hs, ms, r - 1);
      assert First(vp, hs[r - 1]) < First(vp, hs[r]);
    }
  }

  /** No record serves two snapshots, and later snapshots get later records. */
  lemma {:induction false} MatchesAdvance(vp: seq<PriceAt>, hs: seq<nat>, ms: seq<nat>, q: nat, r: nat)
    requires Matching(vp, hs, ms) && q < r < |hs| && ms[q] < |vp|
    ensures ms[q] < ms[r]
  {
    assert MatchedAt(vp, hs, ms, r);
    if q < r - 1 {
      MatchesAdvance(vp, hs, ms, q, r - 1);
    }
  }

  // ----- Bounds on the sums -----

  /** Along the list (towards older blocks) cumulative volume never grows, and prices stay in range. */
  predicate Cumulative(vp: seq<PriceAt>, lo: real, hi: real) {
    && (forall i, j :: 0 <= i < j < |vp| ==> vp[i].volume >= vp[j].volume)
    && (forall i :: 0 <= i < |vp| ==> lo <= vp[i].price <= hi)
  }

  lemma AreaBounds(newer: PriceAt, older: PriceAt, lo: real, hi: real)
    requires newer.volume >= older.volume
    requires lo <= newer.price <= hi && lo <= older.price <= hi
    ensures Worth(newer.volume - older.volume, lo) <= Area(newer, older)
      <= Worth(newer.volume - older.volume, hi)
  {
    var d, m := (newer.volume - older.volume) as real, (newer.price + older.price) / 2.0;
    assert d >= 0.0 && lo <= m <= hi;
    ScaleMonotone(d, lo, m);
    ScaleMonotone(d, m, hi);
  }

  lemma ScaleMonotone(d: real, x: real, y: real)
    requires d >= 0.0 && x <= y
    ensures d * x <= d * y
  {
  }

  lemma WorthAdds(v: int, w: int, p: real)
    ensures Worth(v, p) + Worth(w, p) == Worth(v + w, p)
  {
  }

  lemma {:induction false} SumBetween(vp: seq<PriceAt>, i: nat, lo: real, hi: real)
    requires i < |vp| && Cumulative(vp, lo, hi)
    ensures Worth(vp[0].volume - vp[i].volume, lo) <= PrefixSum(vp, i)
      <= Worth(vp[0].volume - vp[i].volume, hi)
    ensures lo >= 0.0 && i > 0 ==> PrefixSum(vp, i - 1) <= PrefixSum(vp, i)
  {
    if i > 0 {
      SumBetween(vp, i - 1, lo, hi);
      AreaBounds(vp[i - 1], vp[i], lo, hi);
      WorthAdds(vp[0].volume - vp[i - 1].volume, vp[i - 1].volume - vp[i].volume, lo);
      WorthAdds(vp[0].volume - vp[i - 1].volume, vp[i - 1].volume - vp[i].volume, hi);
      if lo >= 0.0 {
        ScaleMonotone((vp[i - 1].volume - vp[i].volume) as real, 0.0, lo);
      }
    }
  }

  /** The sum up to a record lies between the lowest and the highest price times the telescoped volume
      difference; with non-negative prices it never shrinks towards older records. */
  lemma SumBounds(vp: seq<PriceAt>, i: nat, lo: real, hi: real)
    requires i < |vp| && Cumulative(vp, lo, hi)
    ensures lo * (vp[0].volume - vp[i].volume) as real <= PrefixSum(vp, i) <= hi * (vp[0].volume - vp[i].volume) as real
    ensures lo >= 0.0 && i > 0 ==> PrefixSum(vp, i - 1) <= PrefixSum(vp, i)
  {
    SumBetween(vp, i, lo, hi);
  }

  lemma {:induction false} SumsGrow(vp: seq<PriceAt>, i: nat, j: nat, lo: real, hi: real)
    requires i <= j < |vp| && Cumulative(vp, lo, hi) && lo >= 0.0
    ensures PrefixSum(vp, i) <= PrefixSum(vp, j)
  {
    if i < j {
      SumsGrow(vp, i, j - 1, lo, hi);
      SumBetween(vp, j, lo, hi);
    }
  }

  /** A sum depends only on the records up to it. */
  lemma {:induction false} SumOfPrefix(vp: seq<PriceAt>, wp: seq<PriceAt>, i: nat)
    requires i < |vp| && i < |wp| && forall k :: 0 <= k <= i ==> vp[k] == wp[k]
    ensures PrefixSum(vp, i) == PrefixSum(wp, i)
  {
    if i > 0 {
      SumOfPrefix(vp, wp, i - 1);
    }
  }
}
