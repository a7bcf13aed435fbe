/** `getPool` of internal/indexer/pool.go run by any number of readers at once, with its pool states: a step is one
    lock-protected cache operation, one foreign call, or one atomic load. Memory and database are pruned by steps
    of their own. `PoolCache` has the sequential functions, and `Syncing` follows the keys. */
module SharedCache {
  import opened Types
  import opened PoolCache

  /** Where a reader is. `Done` keeps what it asked for, with the height that 0 stood for. */
  datatype Reader =
    | Idle
    | Asked(height: nat, id: nat)
    | Looking(height: nat, id: nat)
    | AskingLiquidity(height: nat, id: nat)
    | AskingVolume(height: nat, id: nat, liquidity: seq<Coin>)
    | Storing(pool: Pool)
    | Saving(pool: Pool)
    | Done(height: nat, id: nat, result: Result<Pool>)

  datatype State = State(cache: Cache, readers: seq<Reader>)

  datatype Action =
    | Ask(wanted: nat, pool: nat)
    | LoadHeight
    | Look
    | Liquidity(ok: bool)
    | Volume(ok: bool)
    | Store
    | Save(ok: bool)

  datatype Step =
    | Act(reader: nat, action: Action)
    | NewBlock(newHeight: nat)
    | PruneMemory(minHeight: nat)
    | PruneDatabase(minHeight: nat)

  predicate CanAct(r: Reader, action: Action) {
    match action
    case Ask(_, _) => r.Idle? || r.Done?
    case LoadHeight => r.Asked?
    case Look => r.Looking?
    case Liquidity(_) => r.AskingLiquidity?
    case Volume(_) => r.AskingVolume?
    case Store => r.Storing?
    case Save(_) => r.Saving?
  }

  predicate Enabled(s: State, step: Step) {
    match step
    case Act(i, action) => i < |s.readers| && CanAct(s.readers[i], action)
    case _ => true
  }

  /** The reader after one action on the cache. */
  function Acted(chain: Chain, c: Cache, r: Reader, action: Action): Reader
    requires CanAct(r, action)
  {
    match action
    case Ask(wanted, pool) => Asked(wanted, pool)
    case LoadHeight => Looking(EffectiveHeight(c.current, r.height), r.id)
    case Look =>
      var found := Lookup(c.memory, r.height, r.id);
      if found.Some? then Done(r.height, r.id, Success(found.value)) else AskingLiquidity(r.height, r.id)
    case Liquidity(ok) =>
      if ok then AskingVolume(r.height, r.id, chain(r.height, r.id).liquidity) else Done(r.height, r.id, RpcFailure)
    case Volume(ok) =>
      if ok then Storing(Pool(r.height, r.id, r.liquidity, chain(r.height, r.id).volume))
      else Done(r.height, r.id, RpcFailure)
    case Store => Saving(r.pool)
    case Save(ok) => Done(r.pool.height, r.pool.poolId, if ok then Success(r.pool) else SaveFailure)
  }

  /** What the action does to memory and database. */
  function Touched(c: Cache, r: Reader, action: Action): Cache
    requires CanAct(r, action)
  {
    match action
    case Store => c.(memory := SetPool(c.memory, r.pool))
    case Save(true) => c.(database := c.database[(r.pool.height, r.pool.poolId) := r.pool])
    case _ => c
  }

  function Next(chain: Chain, s: State, step: Step): State
    requires Enabled(s, step)
  {
    match step
    case Act(i, action) =>
      State(Touched(s.cache, s.readers[i], action), s.readers[i := Acted(chain, s.cache, s.readers[i], action)])
    case NewBlock(newHeight) =>
      s.(cache := s.cache.(current := if s.cache.current < newHeight then newHeight else s.cache.current))
    case PruneMemory(minHeight) => s.(cache := s.cache.(memory := PrunedTable(s.cache.memory, minHeight)))
    case PruneDatabase(minHeight) => s.(cache := Pruned(s.cache, minHeight, true).(memory := s.cache.memory))
  }

  predicate Runs(chain: Chain, s: State, steps: seq<Step>)
    decreases |steps|
  {
    steps == [] || (Enabled(s, steps[0]) && Runs(chain, Next(chain, s, steps[0]), steps[1..]))
  }

  function End(chain: Chain, s: State, steps: seq<Step>): State
    requires Runs(chain, s, steps)
    decreases |steps|
  {
    if steps == [] then s else End(chain, Next(chain, s, steps[0]), steps[1..])
  }

  // ----- Transparency over every interleaving -----

  /** Whatever a reader holds is what the chain answers for its height and pool. */
  predicate Truthful(chain: Chain, r: Reader) {
    match r
    case AskingVolume(h, id, liquidity) => liquidity == chain(h, id).liquidity
    case Storing(pool) => pool == Fetch(chain, pool.height, pool.poolId)
    case Saving(pool) => pool == Fetch(chain, pool.height, pool.poolId)
    case Done(h, id, result) => result.Success? ==> result.value == Fetch(chain, h, id)
    case _ => true
  }

  ghost predicate Inv(chain: Chain, s: State) {
    Transparent(chain, s.cache) && forall i :: 0 <= i < |s.readers| ==> Truthful(chain, s.readers[i])
  }

  lemma ActionIsTruthful(chain: Chain, c: Cache, r: Reader, action: Action)
    requires Transparent(chain, c) && Truthful(chain, r) && CanAct(r, action)
    ensures Truthful(chain, Acted(chain, c, r, action))
  {
  }

  lemma TouchedIsTransparent(chain: Chain, c: Cache, r: Reader, action: Action)
    requires Transparent(chain, c) && Truthful(chain, r) && CanAct(r, action)
    ensures Transparent(chain, Touched(c, r, action))
  {
    if action.Store? {
      forall h, id ensures Lookup(SetPool(c.memory, r.pool), h, id).Some? ==>
        Lookup(SetPool(c.memory, r.pool), h, id).value == Fetch(chain, h, id)
      {
        LookupAfterSet(c.memory, r.pool, h, id);
      }
    }
  }

  lemma PruneIsTransparent(chain: Chain, c: Cache, minHeight: nat)
    requires Transparent(chain, c)
    ensures Transparent(chain, c.(memory := PrunedTable(c.memory, minHeight)))
    ensures Transparent(chain, Pruned(c, minHeight, true).(memory := c.memory))
  {
    forall h, id ensures Lookup(PrunedTable(c.memory, minHeight), h, id).Some? ==>
      Lookup(PrunedTable(c.memory, minHeight), h, id) == Lookup(c.memory, h, id)
    {
    }
  }

  lemma StepKeepsInv(chain: Chain, s: State, step: Step)
    requires Inv(chain, s) && Enabled(s, step)
    ensures Inv(chain, Next(chain, s, step))
  {
    match step
    case Act(i, action) =>
      ActionIsTruthful(chain, s.cache, s.readers[i], action);
      TouchedIsTransparent(chain, s.cache, s.readers[i], action);
    case NewBlock(_) =>
    case PruneMemory(minHeight) => PruneIsTransparent(chain, s.cache, minHeight);
    case PruneDatabase(minHeight) => PruneIsTransparent(chain, s.cache, minHeight);
  }

  /** In every reachable state of every interleaving all entries of memory and database are what the chain
      answers, and every reader that has succeeded holds what an uncached fetch would have returned. */
  lemma {:induction false} RunIsTransparent(chain: Chain, s: State, steps: seq<Step>)
    requires Inv(chain, s) && Runs(chain, s, steps)
    ensures Inv(chain, End(chain, s, steps))
    decreases |steps|
  {
    if steps != [] {
      StepKeepsInv(chain, s, steps[0]);
      RunIsTransparent(chain, Next(chain, s, steps[0]), steps[1..]);
    }
  }

  /** From a cache that agrees with the chain, whoever has succeeded holds the chain's own answers. */
  lemma ReadersHoldAnswers(chain: Chain, c: Cache, n: nat, steps: seq<Step>, i: nat)
    requires Transparent(chain, c) && i < n && Runs(chain, Start(c, n), steps)
    ensures var s := End(chain, Start(c, n), steps);
      && |s.readers| == n
      && (s.readers[i].Done? && s.readers[i].result.Success? ==>
           var h, id := s.readers[i].height, s.readers[i].id;
           s.readers[i].result.value == Pool(h, id, chain(h, id).liquidity, chain(h, id).volume))
  {
    RunIsTransparent(chain, Start(c, n), steps);
    ReadersStay(chain, Start(c, n), steps);
    assert Truthful(chain, End(chain, Start(c, n), steps).readers[i]);
  }

  function Start(c: Cache, n: nat): State { State(c, seq(n, i requires 0 <= i < n => Idle)) }

  lemma {:induction false} ReadersStay(chain: Chain, s: State, steps: seq<Step>)
    requires Runs(chain, s, steps)
    ensures |End(chain, s, steps).readers| == |s.readers|
    decreases |steps|
  {
    if steps != [] {
      ReadersStay(chain, Next(chain, s, steps[0]), steps[1..]);
    }
  }

  // ----- Undisturbed, a reader does what the sequential function says -----

  /** The steps after a missed lookup, with the given outcomes of the foreign calls. */
  function FetchSteps(i: nat, calls: Calls): seq<Step> {
    if calls.liquidityOk then [Act(i, Liquidity(true))] + AfterLiquidity(i, calls) else [Act(i, Liquidity(false))]
  }

  function AfterLiquidity(i: nat, calls: Calls): seq<Step> {
    if calls.volumeOk then [Act(i, Volume(true))] + ([Act(i, Store)] + [Act(i, Save(calls.saveOk))])
    else [Act(i, Volume(false))]
  }

  /** The steps of one lookup. */
  function LookupSteps(c: Cache, i: nat, height: nat, id: nat, calls: Calls): seq<Step> {
    var found := Lookup(c.memory, EffectiveHeight(c.current, height), id).Some?;
    [Act(i, Ask(height, id))] + ([Act(i, LoadHeight)] + ([Act(i, Look)] + if found then [] else FetchSteps(i, calls)))
  }

  lemma OneStep(chain: Chain, s: State, step: Step, rest: seq<Step>)
    requires Enabled(s, step) && Runs(chain, Next(chain, s, step), rest)
    ensures Runs(chain, s, [step] + rest) && End(chain, s, [step] + rest) == End(chain, Next(chain, s, step), rest)
  {
    assert ([step] + rest)[1..] == rest;
  }

  /** The steps after both foreign calls have succeeded. */
  lemma StoreAndSave(chain: Chain, s: State, i: nat, pool: Pool, ok: bool)
    requires i < |s.readers| && s.readers[i] == Storing(pool)
    ensures var steps := [Act(i, Store)] + [Act(i, Save(ok))];
      && Runs(chain, s, steps)
      && End(chain, s, steps).readers ==
           s.readers[i := Done(pool.height, pool.poolId, if ok then Success(pool) else SaveFailure)]
      && End(chain, s, steps).cache == s.cache.(
           memory := SetPool(s.cache.memory, pool),
           database := if ok then s.cache.database[(pool.height, pool.poolId) := pool] else s.cache.database)
  {
    var s1 := Next(chain, s, Act(i, Store));
    OneStep(chain, s1, Act(i, Save(ok)), []);
    OneStep(chain, s, Act(i, Store), [Act(i, Save(ok))]);
  }

  /** The steps after the first foreign call has succeeded. */
  lemma VolumeAndOn(chain: Chain, s: State, i: nat, h: nat, id: nat, calls: Calls)
    requires i < |s.readers| && s.readers[i] == AskingVolume(h, id, chain(h, id).liquidity) && calls.liquidityOk
    requires Lookup(s.cache.memory, h, id).None? && EffectiveHeight(s.cache.current, h) == h
    ensures var steps := AfterLiquidity(i, calls);
      && Runs(chain, s, steps)
      && End(chain, s, steps).cache == AfterGet(chain, s.cache, h, id, calls)
      && End(chain, s, steps).readers == s.readers[i := Done(h, id, GetResult(chain, s.cache, h, id, calls))]
  {
    if calls.volumeOk {
      var s1 := Next(chain, s, Act(i, Volume(true)));
      StoreAndSave(chain, s1, i, Fetch(chain, h, id), calls.saveOk);
      OneStep(chain, s, Act(i, Volume(true)), [Act(i, Store)] + [Act(i, Save(calls.saveOk))]);
      assert s1.readers[i := Done(h, id, GetResult(chain, s.cache, h, id, calls))]
        == s.readers[i := Done(h, id, GetResult(chain, s.cache, h, id, calls))];
    } else {
      OneStep(chain, s, Act(i, Volume(false)), []);
    }
  }

  /** The part of a lookup after the cache has been missed. */
  lemma FetchIsGet(chain: Chain, s: State, i: nat, h: nat, id: nat, calls: Calls)
    requires i < |s.readers| && s.readers[i] == AskingLiquidity(h, id)
    requires Lookup(s.cache.memory, h, id).None? && EffectiveHeight(s.cache.current, h) == h
    ensures var steps := FetchSteps(i, calls);
      && Runs(chain, s, steps)
      && End(chain, s, steps).cache == AfterGet(chain, s.cache, h, id, calls)
      && End(chain, s, steps).readers == s.readers[i := Done(h, id, GetResult(chain, s.cache, h, id, calls))]
  {
    if calls.liquidityOk {
      var s1 := Next(chain, s, Act(i, Liquidity(true)));
      VolumeAndOn(chain, s1, i, h, id, calls);
      OneStep(chain, s, Act(i, Liquidity(true)), AfterLiquidity(i, calls));
      assert s1.readers[i := Done(h, id, GetResult(chain, s.cache, h, id, calls))]
        == s.readers[i := Done(h, id, GetResult(chain, s.cache, h, id, calls))];
    } else {
      OneStep(chain, s, Act(i, Liquidity(false)), []);
    }
  }

  /** Run without interruption, the steps of a lookup end with the result and the cache of the sequential
      function, and with nothing else changed. */
  lemma UndisturbedIsSequential(chain: Chain, s: State, i: nat, height: nat, id: nat, calls: Calls)
    requires i < |s.readers| && s.readers[i].Idle?
    ensures var steps := LookupSteps(s.cache, i, height, id, calls);
      && Runs(chain, s, steps)
      && End(chain, s, steps).cache == AfterGet(chain, s.cache, height, id, calls)
      && End(chain, s, steps).readers == s.readers[i :=
           Done(EffectiveHeight(s.cache.current, height), id, GetResult(chain, s.cache, height, id, calls))]
  {
    var h := EffectiveHeight(s.cache.current, height);
    var s1 := Next(chain, s, Act(i, Ask(height, id)));
    var s2 := Next(chain, s1, Act(i, LoadHeight));
    var s3 := Next(chain, s2, Act(i, Look));
    var found := Lookup(s.cache.memory, h, id).Some?;
    var rest := if found then [] else FetchSteps(i, calls);
    if !found {
      FetchIsGet(chain, s3, i, h, id, calls);
    }
    OneStep(chain, s2, Act(i, Look), rest);
    OneStep(chain, s1, Act(i, LoadHeight), [Act(i, Look)] + rest);
    OneStep(chain, s, Act(i, Ask(height, id)), [Act(i, LoadHeight)] + ([Act(i, Look)] + rest));
  }

  // ----- At most one fetch per stay is a sequential promise -----

  /** Two readers that both miss the cache before either has stored both fetch the same entry. */
  lemma BothMayFetch(chain: Chain, c: Cache, h: nat, id: nat) returns (steps: seq<Step>)
    requires h > 0 && Lookup(c.memory, h, id).None?
    ensures var s := State(c, [Looking(h, id), Looking(h, id)]);
      && Runs(chain, s, steps)
      && End(chain, s, steps).readers == [Storing(Fetch(chain, h, id)), Storing(Fetch(chain, h, id))]
  {
    var s := State(c, [Looking(h, id), Looking(h, id)]);
    var s1 := Next(chain, s, Act(0, Look));
    var s2 := Next(chain, s1, Act(1, Look));
    var s3 := Next(chain, s2, Act(0, Liquidity(true)));
    var s4 := Next(chain, s3, Act(1, Liquidity(true)));
    var s5 := Next(chain, s4, Act(0, Volume(true)));
    OneStep(chain, s5, Act(1, Volume(true)), []);
    var t5 := [Act(1, Volume(true))];
    OneStep(chain, s4, Act(0, Volume(true)), t5);
    var t4 := [Act(0, Volume(true))] + t5;
    OneStep(chain, s3, Act(1, Liquidity(true)), t4);
    var t3 := [Act(1, Liquidity(true))] + t4;
    OneStep(chain, s2, Act(0, Liquidity(true)), t3);
    var t2 := [Act(0, Liquidity(true))] + t3;
    OneStep(chain, s1, Act(1, Look), t2);
    OneStep(chain, s, Act(0, Look), [Act(1, Look)] + t2);
    steps := [Act(0, Look)] + ([Act(1, Look)] + t2);
  }
}
