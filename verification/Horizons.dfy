/** Assembling the snapshots of the pools of interest: `PoolStatusesAt` (internal/indexer/pool.go),
    `combinePoolStatusesAt` and `getPoolsOfInterestStatuses` (internal/osmosis/subscriptions.pools.go).
    Lemmas over sequences of environments do without default induction, which breaks some of their proofs. */
module Horizons {
  import opened Types
  import opened MachineInts
  import opened BlockClock

  /** What the indexer answers during one PoolStatusesAt call: the pool, or an error. `current` is the height
      that a requested height of 0 stands for. */
  datatype Env = Env(look: (nat, nat) -> Option<Pool>, current: nat, averageBlockTime: int)

  const NO_STATUS: PoolStatus := PoolStatus(0, [], [])

  const HORIZONS: seq<nat> := [HOUR, 4 * HOUR, 12 * HOUR, 24 * HOUR]

  function Snapshot(height: nat, pool: Pool): VolumeAt { VolumeAt(Int64(height), pool.volume, [], []) }

  function StatusAt(env: Env, height: nat, id: nat): PoolStatus {
    match env.look(height, id)
    case Some(pool) => PoolStatus(id, pool.liquidity, [Snapshot(height, pool)])
    case None => NO_STATUS
  }

  function StatusesAt(env: Env, height: nat, ids: seq<nat>): seq<PoolStatus> {
    seq(|ids|, i requires 0 <= i < |ids| => StatusAt(env, height, ids[i]))
  }

  predicate AllFound(env: Env, height: nat, ids: seq<nat>) {
    forall i :: 0 <= i < |ids| ==> env.look(height, ids[i]).Some?
  }

  /** A failed pool leaves the zero status behind, with pool id 0. */
  method PoolStatusesAt(env: Env, height: nat, ids: seq<nat>) returns (statuses: seq<PoolStatus>, h: nat, ok: bool)
    ensures h == if height == 0 then env.current else height
    ensures statuses == StatusesAt(env, h, ids)
    ensures ok <==> AllFound(env, h, ids)
  {
    h := height;
    if h == 0 {
      h := env.current;
    }
    statuses, ok := [], true;
    for i := 0 to |ids|
      invariant |statuses| == i && forall k :: 0 <= k < i ==> statuses[k] == StatusAt(env, h, ids[k])
      invariant ok <==> forall k :: 0 <= k < i ==> env.look(h, ids[k]).Some?
    {
      var found := env.look(h, ids[i]);
      if found.None? {
        ok := false;
        statuses := statuses + [NO_STATUS];
      } else {
        statuses := statuses + [PoolStatus(ids[i], found.value.liquidity, [Snapshot(h, found.value)])];
      }
    }
  }

  // ----- One horizon -----

  function Ids(ps: seq<PoolStatus>): seq<nat> {
    seq(|ps|, i requires 0 <= i < |ps| => ps[i].poolId)
  }

  /** The height a horizon looks at; below 0 it wraps, and 0 stands for the current height. */
  function Target(env: Env, height: int, before: nat): nat
    requires env.averageBlockTime > 0
  {
    EffectiveHeight(env.current, Uint64(height - LookBackDelta(before, env.averageBlockTime)))
  }

  /** The last position of an id. */
  predicate IsLastIndex(ids: seq<nat>, id: nat, j: nat) {
    j < |ids| && ids[j] == id && forall k :: j < k < |ids| ==> ids[k] != id
  }

  /** The volumes that position `j` gains from the first `n` statuses: those whose id it is the last to have. */
  function Gained(ids: seq<nat>, at: seq<PoolStatus>, n: nat, j: nat): seq<VolumeAt>
    requires n <= |at| == |ids|
  {
    if n == 0 then []
    else Gained(ids, at, n - 1, j) + if IsLastIndex(ids, ids[n - 1], j) then at[n - 1].volumes else []
  }

  function WithVolumes(p: PoolStatus, more: seq<VolumeAt>): PoolStatus { p.(volumes := p.volumes + more) }

  /** The statuses after one horizon: unchanged if any pool of it fails. */
  function Combined(env: Env, height: int, before: nat, ps: seq<PoolStatus>): seq<PoolStatus>
    requires env.averageBlockTime > 0
  {
    var ids, h := Ids(ps), Target(env, height, before);
    if !AllFound(env, h, ids) then ps
    else seq(|ps|, j requires 0 <= j < |ps| => WithVolumes(ps[j], Gained(ids, StatusesAt(env, h, ids), |ps|, j)))
  }

  method CombinePoolStatusesAt(env: Env, height: int, before: nat, ps: array<PoolStatus>) returns (ok: bool)
    requires env.averageBlockTime > 0
    modifies ps
    ensures ps[..] == Combined(env, height, before, old(ps[..]))
    ensures ok <==> AllFound(env, Target(env, height, before), Ids(old(ps[..])))
  {
    var ids, mids := IndexIds(ps[..]);
    ghost var was := ps[..];
    var psAt;
    psAt, ok := StatusesBefore(env, height, before, ids);
    assert ps[..] == was;
    if ok {
      CombineFound(env, height, before, ids, mids, psAt, ps);
    }
  }

  /** The pools at the height of one horizon. */
  method StatusesBefore(env: Env, height: int, before: nat, ids: seq<nat>) returns (statuses: seq<PoolStatus>, ok: bool)
    requires env.averageBlockTime > 0
    ensures statuses == StatusesAt(env, Target(env, height, before), ids)
    ensures ok <==> AllFound(env, Target(env, height, before), ids)
  {
    var target := height - LookBackDelta(before, env.averageBlockTime);
    var h;
    statuses, h, ok := PoolStatusesAt(env, Uint64(target), ids);
  }

  /** What happens once all pools of the horizon are found. */
  method CombineFound(ghost env: Env, ghost height: int, ghost before: nat, ids: seq<nat>, mids: map<nat, nat>,
                      psAt: seq<PoolStatus>, ps: array<PoolStatus>)
    requires env.averageBlockTime > 0 && ids == Ids(ps[..]) && AllFound(env, Target(env, height, before), ids)
    requires forall id :: id in mids ==> IsLastIndex(ids, id, mids[id])
    requires forall k :: 0 <= k < |ids| ==> ids[k] in mids
    requires psAt == StatusesAt(env, Target(env, height, before), ids)
    modifies ps
    ensures ps[..] == Combined(env, height, before, old(ps[..]))
  {
    ghost var was := ps[..];
    StatusesHaveIds(env, Target(env, height, before), ids);
    AppendVolumes(ids, mids, psAt, ps);
    GainedIsCombined(env, height, before, was, ps[..]);
  }

  lemma StatusesHaveIds(env: Env, h: nat, ids: seq<nat>)
    requires AllFound(env, h, ids)
    ensures forall k :: 0 <= k < |ids| ==> StatusesAt(env, h, ids)[k].poolId == ids[k]
  {
    forall k | 0 <= k < |ids| ensures StatusesAt(env, h, ids)[k].poolId == ids[k] {
      assert env.look(h, ids[k]).Some?;
    }
  }

  lemma GainedIsCombined(env: Env, height: int, before: nat, was: seq<PoolStatus>, now: seq<PoolStatus>)
    requires env.averageBlockTime > 0 && AllFound(env, Target(env, height, before), Ids(was))
    requires GainedSoFar(was, now, Ids(was), StatusesAt(env, Target(env, height, before), Ids(was)), |was|)
    ensures now == Combined(env, height, before, was)
  {
  }

  /** The first loop: the ids in order, and the last position of each. */
  method IndexIds(ps: seq<PoolStatus>) returns (ids: seq<nat>, mids: map<nat, nat>)
    ensures ids == Ids(ps)
    ensures forall id :: id in mids ==> IsLastIndex(ids, id, mids[id])
    ensures forall k :: 0 <= k < |ids| ==> ids[k] in mids
  {
    ids, mids := [], map[];
    for i := 0 to |ps|
      invariant ids == Ids(ps)[..i]
      invariant forall id :: id in mids ==> IsLastIndex(ids, id, mids[id])
      invariant forall k :: 0 <= k < i ==> ids[k] in mids
    {
      ids := ids + [ps[i].poolId];
      mids := mids[ps[i].poolId := i];
    }
  }

  /** The second loop: appends each status's volumes where its id was last seen. */
  method AppendVolumes(ids: seq<nat>, mids: map<nat, nat>, psAt: seq<PoolStatus>, ps: array<PoolStatus>)
    requires |ids| == |psAt| == ps.Length
    requires forall id :: id in mids ==> IsLastIndex(ids, id, mids[id])
    requires forall k :: 0 <= k < |ids| ==> ids[k] in mids && psAt[k].poolId == ids[k]
    modifies ps
    ensures GainedSoFar(old(ps[..]), ps[..], ids, psAt, |psAt|)
  {
    ghost var was := ps[..];
    for pIdx := 0 to |psAt|
      invariant GainedSoFar(was, ps[..], ids, psAt, pIdx)
    {
      var idx := mids[psAt[pIdx].poolId];
      ghost var now := ps[..];
      ps[idx] := ps[idx].(volumes := ps[idx].volumes + psAt[pIdx].volumes);
      assert ps[..] == now[idx := now[idx].(volumes := now[idx].volumes + psAt[pIdx].volumes)];
      GainMore(was, now, ids, psAt, pIdx, idx);
    }
  }

  ghost predicate GainedSoFar(was: seq<PoolStatus>, now: seq<PoolStatus>, ids: seq<nat>, at: seq<PoolStatus>, n: nat)
    requires n <= |at| == |ids|
  {
    |was| == |now| && forall j :: 0 <= j < |was| ==> now[j] == WithVolumes(was[j], Gained(ids, at, n, j))
  }

  lemma GainMore(was: seq<PoolStatus>, now: seq<PoolStatus>, ids: seq<nat>, at: seq<PoolStatus>, n: nat, idx: nat)
    requires n < |at| == |ids| == |now| && GainedSoFar(was, now, ids, at, n) && IsLastIndex(ids, ids[n], idx)
    ensures GainedSoFar(was, now[idx := now[idx].(volumes := now[idx].volumes + at[n].volumes)], ids, at, n + 1)
  {
    OneLastIndex(ids, ids[n], idx);
    forall j | 0 <= j < |was| ensures now[idx := now[idx].(volumes := now[idx].volumes + at[n].volumes)][j]
        == WithVolumes(was[j], Gained(ids, at, n + 1, j))
    {
      GainOne(was[j], now[j], ids, at, n, j);
    }
  }

  lemma GainOne(p: PoolStatus, q: PoolStatus, ids: seq<nat>, at: seq<PoolStatus>, n: nat, j: nat)
    requires n < |at| == |ids| && q == WithVolumes(p, Gained(ids, at, n, j))
    ensures WithVolumes(p, Gained(ids, at, n + 1, j))
      == if IsLastIndex(ids, ids[n], j) then q.(volumes := q.volumes + at[n].volumes) else q
  {
    var g := Gained(ids, at, n, j);
    assert (p.volumes + g) + at[n].volumes == p.volumes + (g + at[n].volumes);
    assert g + [] == g;
  }

  lemma OneLastIndex(ids: seq<nat>, id: nat, j: nat)
    requires IsLastIndex(ids, id, j)
    ensures forall k: nat :: IsLastIndex(ids, id, k) <==> k == j
  {
  }

  // ----- All horizons -----

  /** The statuses after the horizons from `n` on; environment 0 belongs to the first fetch. */
  function AfterHorizons(envs: seq<Env>, height: int, ps: seq<PoolStatus>, n: nat): seq<PoolStatus>
    requires |envs| == |HORIZONS| + 1 && n <= |HORIZONS|
    requires forall e :: e in envs ==> e.averageBlockTime > 0
  {
    if n == 0 then ps
    else Combined(envs[n], height, HORIZONS[n - 1], AfterHorizons(envs, height, ps, n - 1))
  }

  /** No pool fails in the first `n` horizons. */
  predicate HorizonsFound(envs: seq<Env>, height: int, ps: seq<PoolStatus>, n: nat)
    requires |envs| == |HORIZONS| + 1 && n <= |HORIZONS|
    requires forall e :: e in envs ==> e.averageBlockTime > 0
  {
    n == 0
    || (HorizonsFound(envs, height, ps, n - 1)
        && AllFound(envs[n], Target(envs[n], height, HORIZONS[n - 1]), Ids(AfterHorizons(envs, height, ps, n - 1))))
  }

  /** The assembly, before the volumes are valued. Errors are collected, never returned early. */
  method AssembleStatuses(envs: seq<Env>, height: nat, ids: seq<nat>)
    returns (ps: array<PoolStatus>, h: nat, ok: bool)
    requires |envs| == |HORIZONS| + 1 && forall e :: e in envs ==> e.averageBlockTime > 0
    ensures h == if height == 0 then envs[0].current else height
    ensures ps[..] == AfterHorizons(envs, Int64(h), StatusesAt(envs[0], h, ids), |HORIZONS|)
    ensures ok <==> AllFound(envs[0], h, ids) && HorizonsFound(envs, Int64(h), StatusesAt(envs[0], h, ids), |HORIZONS|)
    ensures fresh(ps)
  {
    var first;
    first, h, ok := PoolStatusesAt(envs[0], height, ids);
    ps := new PoolStatus[|first|](i requires 0 <= i < |first| => first[i]);
    assert ps[..] == first;
    var combined := AppendHorizons(envs, Int64(h), ps);
    ok := ok && combined;
  }

  lemma {:induction false} OneHorizon(envs: seq<Env>, height: int, ps: seq<PoolStatus>, n: nat)
    requires |envs| == |HORIZONS| + 1 && n < |HORIZONS|
    requires forall e :: e in envs ==> e.averageBlockTime > 0
    ensures envs[n + 1].averageBlockTime > 0
    ensures var prev := AfterHorizons(envs, height, ps, n);
      && AfterHorizons(envs, height, ps, n + 1) == Combined(envs[n + 1], height, HORIZONS[n], prev)
      && (HorizonsFound(envs, height, ps, n + 1) <==>
          (HorizonsFound(envs, height, ps, n)
           && AllFound(envs[n + 1], Target(envs[n + 1], height, HORIZONS[n]), Ids(prev))))
  {
    assert envs[n + 1] in envs;
  }

  /** Where the loop over the horizons stands after `n` of them. */
  ghost predicate Reached(envs: seq<Env>, height: int, was: seq<PoolStatus>, now: seq<PoolStatus>, ok: bool, n: nat)
    requires |envs| == |HORIZONS| + 1 && n <= |HORIZONS|
    requires forall e :: e in envs ==> e.averageBlockTime > 0
  {
    now == AfterHorizons(envs, height, was, n) && (ok <==> HorizonsFound(envs, height, was, n))
  }

  /** The loop over the horizons. */
  method AppendHorizons(envs: seq<Env>, height: int, ps: array<PoolStatus>) returns (ok: bool)
    requires |envs| == |HORIZONS| + 1 && forall e :: e in envs ==> e.averageBlockTime > 0
    modifies ps
    ensures Reached(envs, height, old(ps[..]), ps[..], ok, |HORIZONS|)
  {
    ghost var was := ps[..];
    ok := true;
    for n := 0 to |HORIZONS|
      invariant Reached(envs, height, was, ps[..], ok, n)
    {
      ok := AppendHorizon(envs, height, was, n, ps, ok);
    }
  }

  /** The body of that loop: a failure is remembered, and the next horizon is tried all the same. */
  method AppendHorizon(envs: seq<Env>, height: int, ghost was: seq<PoolStatus>, n: nat, ps: array<PoolStatus>, before: bool)
    returns (ok: bool)
    requires |envs| == |HORIZONS| + 1 && n < |HORIZONS|
    requires forall e :: e in envs ==> e.averageBlockTime > 0
    requires Reached(envs, height, was, ps[..], before, n)
    modifies ps
    ensures Reached(envs, height, was, ps[..], ok, n + 1)
  {
    OneHorizon(envs, height, was, n);
    var combined := CombinePoolStatusesAt(envs[n + 1], height, HORIZONS[n], ps);
    ok := before && combined;
  }

  // ----- All or none -----

  predicate DistinctIds(ids: seq<nat>) {
    forall i, j :: 0 <= i < j < |ids| ==> ids[i] != ids[j]
  }

  lemma {:induction false} DistinctGain(ids: seq<nat>, at: seq<PoolStatus>, n: nat, j: nat)
    requires n <= |at| == |ids| && j < |ids| && DistinctIds(ids)
    ensures Gained(ids, at, n, j) == if j < n then at[j].volumes else []
  {
    if n > 0 {
      DistinctGain(ids, at, n - 1, j);
      assert IsLastIndex(ids, ids[n - 1], j) <==> j == n - 1;
    }
  }

  /** If an id is asked for more than once, only its last position gains anything ... */
  lemma {:induction false} EarlierGainsNothing(ids: seq<nat>, at: seq<PoolStatus>, n: nat, j: nat, k: nat)
    requires n <= |at| == |ids| && j < k < |ids| && ids[j] == ids[k]
    ensures Gained(ids, at, n, j) == []
  {
    if n > 0 {
      EarlierGainsNothing(ids, at, n - 1, j, k);
    }
  }

  /** ... and that gains the snapshots of every status of the id, one after the other. */
  lemma LastGainsAll(ids: seq<nat>, at: seq<PoolStatus>, n: nat, j: nat)
    requires n < |at| == |ids| && j < |ids| && forall k :: j < k < |ids| ==> ids[k] != ids[j]
    ensures Gained(ids, at, 0, j) == []
    ensures Gained(ids, at, n + 1, j) == Gained(ids, at, n, j) + if ids[n] == ids[j] then at[n].volumes else []
  {
  }

  /** The snapshot every pool gains from one horizon: one if the horizon succeeds for all of them, none
      otherwise. */
  function HorizonSnapshot(env: Env, height: int, before: nat, ids: seq<nat>, id: nat): seq<VolumeAt>
    requires env.averageBlockTime > 0
  {
    var h := Target(env, height, before);
    if AllFound(env, h, ids) && env.look(h, id).Some? then [Snapshot(h, env.look(h, id).value)] else []
  }

  function HorizonSnapshots(envs: seq<Env>, height: int, ids: seq<nat>, id: nat, n: nat): seq<VolumeAt>
    requires |envs| == |HORIZONS| + 1 && n <= |HORIZONS|
    requires forall e :: e in envs ==> e.averageBlockTime > 0
  {
    if n == 0 then []
    else
      HorizonSnapshots(envs, height, ids, id, n - 1) + HorizonSnapshot(envs[n], height, HORIZONS[n - 1], ids, id)
  }

  lemma CombinedDistinct(env: Env, height: int, before: nat, ps: seq<PoolStatus>, j: nat)
    requires env.averageBlockTime > 0 && DistinctIds(Ids(ps)) && j < |ps|
    ensures |Combined(env, height, before, ps)| == |ps|
    ensures Combined(env, height, before, ps)[j]
      == WithVolumes(ps[j], HorizonSnapshot(env, height, before, Ids(ps), ps[j].poolId))
  {
    var ids, h := Ids(ps), Target(env, height, before);
    assert ids[j] == ps[j].poolId;
    if AllFound(env, h, ids) {
      assert env.look(h, ids[j]).Some?;
      DistinctGain(ids, StatusesAt(env, h, ids), |ps|, j);
    } else {
      assert ps[j].volumes + [] == ps[j].volumes;
    }
  }

  /** For distinct pools and a successful first fetch, whatever fails later: every pool keeps its place, and
      its snapshots are the first one followed by one for each later horizon that succeeded for all pools. So a
      horizon is appended to all pools or to none. */
  lemma {:induction false} AllOrNone(envs: seq<Env>, h: nat, ids: seq<nat>, n: nat, i: nat)
    requires |envs| == |HORIZONS| + 1 && (forall e :: e in envs ==> e.averageBlockTime > 0) && n <= |HORIZONS|
    requires DistinctIds(ids) && AllFound(envs[0], h, ids) && i < |ids|
    ensures var ps := AfterHorizons(envs, Int64(h), StatusesAt(envs[0], h, ids), n);
      && Ids(ps) == ids
      && ps[i] == WithVolumes(StatusAt(envs[0], h, ids[i]), HorizonSnapshots(envs, Int64(h), ids, ids[i], n))
  {
    var first := StatusesAt(envs[0], h, ids);
    if n == 0 {
      FirstFetch(envs[0], h, ids, i);
    } else {
      AllOrNone(envs, h, ids, n - 1, i);
      OneMoreHorizon(envs[n], Int64(h), HORIZONS[n - 1], AfterHorizons(envs, Int64(h), first, n - 1), ids, i,
                     StatusAt(envs[0], h, ids[i]), HorizonSnapshots(envs, Int64(h), ids, ids[i], n - 1));
    }
  }

  lemma FirstFetch(env: Env, h: nat, ids: seq<nat>, i: nat)
    requires AllFound(env, h, ids) && i < |ids|
    ensures Ids(StatusesAt(env, h, ids)) == ids
    ensures StatusesAt(env, h, ids)[i] == WithVolumes(StatusAt(env, h, ids[i]), [])
  {
    StatusesHaveIds(env, h, ids);
    var p := StatusAt(env, h, ids[i]);
    assert p.volumes + [] == p.volumes;
  }

  lemma OneMoreHorizon(env: Env, height: int, before: nat, ps: seq<PoolStatus>, ids: seq<nat>, i: nat,
                        first: PoolStatus, more: seq<VolumeAt>)
    requires env.averageBlockTime > 0 && DistinctIds(ids) && Ids(ps) == ids && i < |ids|
    requires ps[i] == WithVolumes(first, more)
    ensures var next := Combined(env, height, before, ps);
      Ids(next) == ids && next[i] == WithVolumes(first, more + HorizonSnapshot(env, height, before, ids, ids[i]))
  {
    CombinedKeepsIds(env, height, before, ps);
    CombinedDistinct(env, height, before, ps, i);
    assert Ids(ps)[i] == ids[i];
    var v0, v2 := first.volumes, HorizonSnapshot(env, height, before, ids, ids[i]);
    assert (v0 + more) + v2 == v0 + (more + v2);
  }

  lemma CombinedKeepsIds(env: Env, height: int, before: nat, ps: seq<PoolStatus>)
    requires env.averageBlockTime > 0
    ensures Ids(Combined(env, height, before, ps)) == Ids(ps)
  {
  }

  /** If any pool fails in the first fetch its zero status carries id 0 into every horizon; as long as no pool
      0 exists, no horizon is then appended to any pool. */
  lemma {:induction false} FirstFailureBlocksHorizons(envs: seq<Env>, h: nat, ids: seq<nat>, n: nat)
    requires |envs| == |HORIZONS| + 1 && (forall e :: e in envs ==> e.averageBlockTime > 0) && n <= |HORIZONS|
    requires !AllFound(envs[0], h, ids)
    requires forall e, t: nat :: e in envs ==> e.look(t, 0).None?
    ensures AfterHorizons(envs, Int64(h), StatusesAt(envs[0], h, ids), n) == StatusesAt(envs[0], h, ids)
  {
    if n > 0 {
      FirstFailureBlocksHorizons(envs, h, ids, n - 1);
      var first := StatusesAt(envs[0], h, ids);
      var i :| 0 <= i < |ids| && envs[0].look(h, ids[i]).None?;
      assert Ids(first)[i] == 0;
      assert envs[n].look(Target(envs[n], Int64(h), HORIZONS[n - 1]), 0).None?;
    }
  }

  // ----- Five snapshots -----

  /** One environment for the first fetch and one for each horizon; the block rate may change in between. */
  ghost predicate Environments(envs: seq<Env>) {
    |envs| == |HORIZONS| + 1 && forall e :: e in envs ==> e.averageBlockTime > 0
  }

  lemma {:induction false} BlockTimeIsPositive(envs: seq<Env>, n: nat)
    requires Environments(envs) && n <= |HORIZONS|
    ensures envs[n].averageBlockTime > 0
  {
    assert envs[n] in envs;
  }

  /** How many blocks horizon `n` looks back; 0 is the first fetch. */
  function Delta(envs: seq<Env>, n: nat): int
    requires Environments(envs) && n <= |HORIZONS|
  {
    BlockTimeIsPositive(envs, n);
    if n == 0 then 0 else LookBackDelta(HORIZONS[n - 1], envs[n].averageBlockTime)
  }

  function HorizonHeight(envs: seq<Env>, h: nat, n: nat): int
    requires Environments(envs) && n <= |HORIZONS|
  {
    h - Delta(envs, n)
  }

  /** Every horizon lies above height 0, and no pool fails there. */
  ghost predicate AllSucceed(envs: seq<Env>, h: nat, ids: seq<nat>)
    requires Environments(envs)
  {
    forall n :: 0 <= n <= |HORIZONS| ==>
      HorizonHeight(envs, h, n) > 0 && AllFound(envs[n], HorizonHeight(envs, h, n), ids)
  }

  lemma {:induction false} DeltaIsQuotient(envs: seq<Env>, n: nat)
    requires Environments(envs) && 0 < n <= |HORIZONS|
    ensures envs[n].averageBlockTime > 0
    ensures Delta(envs, n) == HORIZONS[n - 1] / envs[n].averageBlockTime >= 0
  {
    BlockTimeIsPositive(envs, n);
    LookBackDeltaIsQuotient(HORIZONS[n - 1], envs[n].averageBlockTime);
    DivMonotone(0, HORIZONS[n - 1], envs[n].averageBlockTime);
    DivIsUnique(0, envs[n].averageBlockTime, 0);
  }

  lemma {:induction false} SucceedingHorizon(envs: seq<Env>, h: nat, ids: seq<nat>, n: nat, i: nat)
    requires Environments(envs) && h < TWO_63
    requires AllSucceed(envs, h, ids) && 0 < n <= |HORIZONS| && i < |ids|
    ensures envs[n].averageBlockTime > 0
    ensures var t := HorizonHeight(envs, h, n);
      && 0 < t < TWO_63 && envs[n].look(t, ids[i]).Some?
      && HorizonSnapshot(envs[n], Int64(h), HORIZONS[n - 1], ids, ids[i]) == [Snapshot(t, envs[n].look(t, ids[i]).value)]
  {
    DeltaIsQuotient(envs, n);
    var t := HorizonHeight(envs, h, n);
    assert AllFound(envs[n], t, ids);
    assert envs[n].look(t, ids[i]).Some?;
    assert Target(envs[n], Int64(h), HORIZONS[n - 1]) == t;
  }

  /** The snapshots of one pool: the list is empty if there is no such position. */
  function VolumesOf(envs: seq<Env>, h: nat, ids: seq<nat>, i: nat): seq<VolumeAt>
    requires Environments(envs)
  {
    var ps := AfterHorizons(envs, Int64(h), StatusesAt(envs[0], h, ids), |HORIZONS|);
    if i < |ps| then ps[i].volumes else []
  }

  /** With distinct pools, no errors and enough chain height, every pool ends with exactly five snapshots of its
      own id: at the requested height and at the four horizons, each at the rate of its own moment. */
  lemma {:induction false} FiveSnapshots(envs: seq<Env>, h: nat, ids: seq<nat>, i: nat)
    requires Environments(envs) && h < TWO_63
    requires DistinctIds(ids) && AllSucceed(envs, h, ids) && i < |ids|
    ensures var ps := AfterHorizons(envs, Int64(h), StatusesAt(envs[0], h, ids), |HORIZONS|);
      |ps| == |ids| && ps[i].poolId == ids[i] && ps[i].volumes == VolumesOf(envs, h, ids, i)
    ensures |VolumesOf(envs, h, ids, i)| == 5
    ensures forall n :: 0 <= n <= 4 ==>
      var t := HorizonHeight(envs, h, n);
      0 < t < TWO_63 && envs[n].look(t, ids[i]).Some?
      && VolumesOf(envs, h, ids, i)[n] == VolumeAt(t, envs[n].look(t, ids[i]).value.volume, [], [])
    ensures envs[0].look(h, ids[i]).Some?
    ensures AfterHorizons(envs, Int64(h), StatusesAt(envs[0], h, ids), |HORIZONS|)[i].totalLiquidity
      == envs[0].look(h, ids[i]).value.liquidity
  {
    assert HorizonHeight(envs, h, 0) == h && AllFound(envs[0], h, ids);
    assert envs[0].look(h, ids[i]).Some?;
    AllOrNone(envs, h, ids, |HORIZONS|, i);
    CollectSnapshots(envs, h, ids, i, |HORIZONS|);
    var ps := AfterHorizons(envs, Int64(h), StatusesAt(envs[0], h, ids), |HORIZONS|);
    assert |ps| == |Ids(ps)| && ps[i].poolId == Ids(ps)[i];
    var vols, later := ps[i].volumes, HorizonSnapshots(envs, Int64(h), ids, ids[i], |HORIZONS|);
    assert vols == [Snapshot(h, envs[0].look(h, ids[i]).value)] + later;
    forall n | 0 <= n <= 4
      ensures var t := HorizonHeight(envs, h, n);
        0 < t < TWO_63 && envs[n].look(t, ids[i]).Some?
        && vols[n] == VolumeAt(t, envs[n].look(t, ids[i]).value.volume, [], [])
    {
      if n > 0 {
        assert vols[n] == later[n - 1];
      }
    }
  }

  /** The first `k` later snapshots are those of the horizons' heights. */
  ghost predicate SnapshotsUpTo(envs: seq<Env>, h: nat, id: nat, vs: seq<VolumeAt>, k: nat)
    requires Environments(envs) && k <= |HORIZONS|
  {
    |vs| == k && forall n :: 1 <= n <= k ==>
      var t := HorizonHeight(envs, h, n);
      0 < t < TWO_63 && envs[n].look(t, id).Some? && vs[n - 1] == Snapshot(t, envs[n].look(t, id).value)
  }

  lemma {:induction false} OneMoreSnapshot(envs: seq<Env>, h: nat, id: nat, vs: seq<VolumeAt>, k: nat)
    requires Environments(envs) && 0 < k <= |HORIZONS| && SnapshotsUpTo(envs, h, id, vs, k - 1)
    requires 0 < HorizonHeight(envs, h, k) < TWO_63 && envs[k].look(HorizonHeight(envs, h, k), id).Some?
    ensures var t := HorizonHeight(envs, h, k);
      SnapshotsUpTo(envs, h, id, vs + [Snapshot(t, envs[k].look(t, id).value)], k)
  {
  }

  lemma {:induction false} CollectSnapshots(envs: seq<Env>, h: nat, ids: seq<nat>, i: nat, k: nat)
    requires Environments(envs) && h < TWO_63 && AllSucceed(envs, h, ids) && i < |ids| && k <= |HORIZONS|
    ensures SnapshotsUpTo(envs, h, ids[i], HorizonSnapshots(envs, Int64(h), ids, ids[i], k), k)
  {
    if k > 0 {
      CollectSnapshots(envs, h, ids, i, k - 1);
      SucceedingHorizon(envs, h, ids, k, i);
      OneMoreSnapshot(envs, h, ids[i], HorizonSnapshots(envs, Int64(h), ids, ids[i], k - 1), k);
    }
  }

  // ----- Are they in order? -----

  predicate Decreasing(hs: seq<int>) {
    forall m, n :: 0 <= m < n < |hs| ==> hs[m] > hs[n]
  }

  function HorizonHeights(envs: seq<Env>, h: nat): seq<int>
    requires Environments(envs)
  {
    seq(|HORIZONS| + 1, n requires 0 <= n <= |HORIZONS| => HorizonHeight(envs, h, n))
  }

  /** How many whole average block times fit into horizon `n`. */
  function BlocksBack(envs: seq<Env>, n: nat): nat
    requires Environments(envs) && n <= |HORIZONS|
  {
    if n == 0 then 0
    else
      DeltaIsQuotient(envs, n);
      HORIZONS[n - 1] / envs[n].averageBlockTime
  }

  /** Each horizon holds more of its own blocks than the one before it held of its own. */
  ghost predicate BlocksGrow(envs: seq<Env>)
    requires Environments(envs)
  {
    forall n :: 0 < n <= |HORIZONS| ==> BlocksBack(envs, n - 1) < BlocksBack(envs, n)
  }

  lemma {:induction false} BlocksGrowFar(envs: seq<Env>, m: nat, n: nat)
    requires Environments(envs) && BlocksGrow(envs) && m < n <= |HORIZONS|
    ensures BlocksBack(envs, m) < BlocksBack(envs, n)
    decreases n
  {
    if m < n - 1 {
      BlocksGrowFar(envs, m, n - 1);
    }
  }

  /** A horizon below height 0 is looked up at its 64-bit wrap-around. */
  lemma TargetWraps(env: Env, h: nat, before: nat)
    requires env.averageBlockTime > 0 && h < before / env.averageBlockTime < TWO_64
    ensures Target(env, h, before) == TWO_64 + h - before / env.averageBlockTime
  {
    LookBackDeltaIsQuotient(before, env.averageBlockTime);
  }

  lemma {:induction false} HeightIsBlocksBack(envs: seq<Env>, h: nat, n: nat)
    requires Environments(envs) && n <= |HORIZONS|
    ensures HorizonHeight(envs, h, n) == h - BlocksBack(envs, n)
  {
    if n > 0 {
      DeltaIsQuotient(envs, n);
    }
  }

  /** The five heights strictly decrease if and only if the block counts grow from horizon to horizon. */
  lemma {:induction false} HeightsDecreaseIff(envs: seq<Env>, h: nat)
    requires Environments(envs)
    ensures Decreasing(HorizonHeights(envs, h)) <==> BlocksGrow(envs)
  {
    var hs := HorizonHeights(envs, h);
    forall n | 0 <= n <= |HORIZONS| ensures hs[n] == h - BlocksBack(envs, n) {
      HeightIsBlocksBack(envs, h, n);
    }
    if BlocksGrow(envs) {
      forall m, n | 0 <= m < n < |hs| ensures hs[m] > hs[n] {
        BlocksGrowFar(envs, m, n);
      }
    }
    if Decreasing(hs) {
      forall n | 0 < n <= |HORIZONS| ensures BlocksBack(envs, n - 1) < BlocksBack(envs, n) {
        assert hs[n - 1] > hs[n];
      }
    }
  }

  /** Blocks never take longer from one horizon to the next, and at most an hour. */
  predicate NeverSlower(envs: seq<Env>) {
    && (forall n :: 0 < n < |envs| ==> 0 < envs[n].averageBlockTime <= HOUR)
    && (forall n :: 1 < n < |envs| ==> envs[n].averageBlockTime <= envs[n - 1].averageBlockTime)
  }

  lemma MoreFit(a: nat, b: nat, x: int, y: int)
    requires 0 < y <= x <= HOUR && a + HOUR <= b
    ensures a / x < b / y
  {
    var q := a / x;
    assert q * x <= a;
    MulMonotone(y, x, q);
    assert (q + 1) * y == q * y + y;
    DivIsUnique((q + 1) * y, y, q + 1);
    DivMonotone((q + 1) * y, b, y);
  }

  /** So at a steady or rising block rate the heights strictly decrease. */
  lemma {:induction false} NeverSlowerGrows(envs: seq<Env>)
    requires Environments(envs) && NeverSlower(envs)
    ensures BlocksGrow(envs)
  {
    forall n | 0 < n <= |HORIZONS| ensures BlocksBack(envs, n - 1) < BlocksBack(envs, n) {
      if n == 1 {
        MoreFit(0, HORIZONS[0], envs[1].averageBlockTime, envs[1].averageBlockTime);
        DivIsUnique(0, envs[1].averageBlockTime, 0);
      } else {
        MoreFit(HORIZONS[n - 2], HORIZONS[n - 1], envs[n - 1].averageBlockTime, envs[n].averageBlockTime);
      }
    }
  }

  /** A block rate that falls between two fetches can put an older horizon above a newer one: 720 blocks in the
      20 hours after the first block take the clock from the default rate down to 36. */
  lemma SlowingMayReverse(look: (nat, nat) -> Option<Pool>, bs: seq<Block>) returns (envs: seq<Env>)
    requires bs == [Block(101, 0, 0, 0), Block(821, 0, 20 * HOUR, 0)]
    ensures Environments(envs)
    ensures envs[1].averageBlockTime == AverageBlockTime(Run(StartUp(100, 0), bs[..1]).rate)
    ensures envs[2].averageBlockTime == AverageBlockTime(Run(StartUp(100, 0), bs).rate)
    ensures forall h: nat :: HorizonHeight(envs, h, 2) > HorizonHeight(envs, h, 1)
  {
    assert bs[..1] == [bs[0]];
    RunOfOne(StartUp(100, 0), bs[0]);
    FirstUpdate(100, 0, 20 * HOUR, bs);
    var fast, slow := Env(look, 101, 5 * SECOND), Env(look, 821, 100 * SECOND);
    envs := [fast, fast, slow, slow, slow];
    DeltaIsQuotient(envs, 1);
    DeltaIsQuotient(envs, 2);
    assert Delta(envs, 1) == 720 && Delta(envs, 2) == 144;
  }
}
