/** The pool cache of internal/indexer/pool.go: the in-memory `PoolMap`, the read-through and
    write-through `getPool`, pruning, and preheating from the database after a restart.
    The chain is a function of (height, pool); whether a call to it or to the database succeeds is the
    environment's choice. */
module PoolCache {
  import opened Types
  import opened MachineInts

  type PoolTable = map<nat, map<nat, Pool>>

  type Key = (nat, nat)

  function Lookup(t: PoolTable, height: nat, id: nat): Option<Pool> {
    if height in t && id in t[height] then Some(t[height][id]) else None
  }

  function SetPool(t: PoolTable, pool: Pool): PoolTable {
    t[pool.height := (if pool.height in t then t[pool.height] else map[])[pool.poolId := pool]]
  }

  lemma LookupAfterSet(t: PoolTable, pool: Pool, height: nat, id: nat)
    ensures Lookup(SetPool(t, pool), height, id) ==
      if height == pool.height && id == pool.poolId then Some(pool) else Lookup(t, height, id)
  {
  }

  function PrunedTable(t: PoolTable, minHeight: nat): PoolTable {
    map h | h in t && h >= minHeight :: t[h]
  }

  class PoolMap {
    var pools: PoolTable

    constructor ()
      ensures pools == map[]
    {
      pools := map[];
    }

    method Set(pool: Pool)
      modifies this
      ensures pools == SetPool(old(pools), pool)
    {
      var hMap := map[];
      if pool.height in pools {
        hMap := pools[pool.height];
      }
      pools := pools[pool.height := hMap[pool.poolId := pool]];
    }

    method Has(height: nat, id: nat) returns (ok: bool)
      ensures ok <==> Lookup(pools, height, id).Some?
    {
      if height !in pools {
        return false;
      }
      return id in pools[height];
    }

    method Get(height: nat, id: nat) returns (r: Option<Pool>)
      ensures r == Lookup(pools, height, id)
    {
      if height !in pools {
        return None;
      }
      var hMap := pools[height];
      if id !in hMap {
        return None;
      }
      return Some(hMap[id]);
    }

    /** Removes exactly the heights below the bound and reports how many there were. */
    method Prune(minHeight: nat) returns (counter: nat)
      modifies this
      ensures pools == PrunedTable(old(pools), minHeight)
      ensures counter + |pools| == |old(pools)|
    {
      counter := 0;
      var heights := pools.Keys;
      while heights != {}
        invariant heights <= old(pools).Keys
        invariant pools.Keys == set h | h in old(pools) && (h in heights || h >= minHeight)
        invariant forall h :: h in pools ==> pools[h] == old(pools)[h]
        invariant counter + |pools| == |old(pools)|
        decreases heights
      {
        var h :| h in heights;
        heights := heights - {h};
        if h < minHeight {
          ghost var was := pools;
          pools := pools - {h};
          assert pools.Keys == was.Keys - {h};
          counter := counter + 1;
        }
      }
    }
  }

  // ----- getPool -----

  datatype PoolData = PoolData(liquidity: seq<Coin>, volume: seq<Coin>)

  type Chain = (nat, nat) -> PoolData

  /** What an uncached fetch returns. */
  function Fetch(chain: Chain, height: nat, id: nat): Pool {
    Pool(height, id, chain(height, id).liquidity, chain(height, id).volume)
  }

  /** Which of the three foreign calls of one lookup succeed. */
  datatype Calls = Calls(liquidityOk: bool, volumeOk: bool, saveOk: bool)

  datatype Result<T> = Success(value: T) | RpcFailure | SaveFailure

  type Database = map<Key, Pool>

  datatype Cache = Cache(current: nat, memory: PoolTable, database: Database)

  predicate Fetches(c: Cache, height: nat, id: nat, calls: Calls) {
    Lookup(c.memory, EffectiveHeight(c.current, height), id).None? && calls.liquidityOk && calls.volumeOk
  }

  function AfterGet(chain: Chain, c: Cache, height: nat, id: nat, calls: Calls): Cache {
    var h := EffectiveHeight(c.current, height);
    if !Fetches(c, height, id, calls) then c
    else
      var pool := Fetch(chain, h, id);
      c.(memory := SetPool(c.memory, pool),
         database := if calls.saveOk then c.database[(h, id) := pool] else c.database)
  }

  function GetResult(chain: Chain, c: Cache, height: nat, id: nat, calls: Calls): Result<Pool> {
    var h := EffectiveHeight(c.current, height);
    match Lookup(c.memory, h, id)
    case Some(pool) => Success(pool)
    case None =>
      if !calls.liquidityOk || !calls.volumeOk then RpcFailure
      else if !calls.saveOk then SaveFailure
      else Success(Fetch(chain, h, id))
  }

  class Indexer {
    const pools: PoolMap
    var currentBlockHeight: nat
    var repo: Database

    constructor (height: nat, repo: Database)
      ensures fresh(pools) && State() == Cache(height, map[], repo)
    {
      pools := new PoolMap();
      currentBlockHeight := height;
      this.repo := repo;
    }

    function State(): Cache
      reads this, pools
    {
      Cache(currentBlockHeight, pools.pools, repo)
    }

    method GetPool(chain: Chain, height: nat, poolId: nat, calls: Calls) returns (r: Result<Pool>)
      modifies this, pools
      ensures State() == AfterGet(chain, old(State()), height, poolId, calls)
      ensures r == GetResult(chain, old(State()), height, poolId, calls)
    {
      var h := height;
      if h == 0 {
        h := currentBlockHeight;
      }
      var found := pools.Get(h, poolId);
      if found.Some? {
        return Success(found.value);
      }
      if !calls.liquidityOk {
        return RpcFailure;
      }
      var liquidity := chain(h, poolId).liquidity;
      if !calls.volumeOk {
        return RpcFailure;
      }
      var volume := chain(h, poolId).volume;
      var pool := Pool(h, poolId, liquidity, volume);
      pools.Set(pool);
      if !calls.saveOk {
        return SaveFailure;
      }
      repo := repo[(h, poolId) := pool];
      return Success(pool);
    }

    /** The database's answer is ignored: memory loses the heights whether or not the database does. */
    method PoolsPrune(minHeight: nat, deleteOk: bool)
      modifies this, pools
      ensures State() == Pruned(old(State()), minHeight, deleteOk)
    {
      var _ := pools.Prune(minHeight);
      if deleteOk {
        repo := map k | k in repo && k.0 >= minHeight :: repo[k];
      }
    }

    /** Loads the rows the range query returned; the height follows the highest row. */
    method PreHeatPools(rows: seq<Pool>)
      modifies this, pools
      ensures State() == Preheated(old(State()), rows)
    {
      for i := 0 to |rows|
        invariant State() == Preheated(old(State()), rows[..i])
      {
        assert rows[..i + 1][..i] == rows[..i];
        pools.Set(rows[i]);
        if currentBlockHeight < rows[i].height {
          currentBlockHeight := rows[i].height;
        }
      }
      assert rows[..|rows|] == rows;
    }
  }

  function Pruned(c: Cache, minHeight: nat, deleteOk: bool): Cache {
    c.(memory := PrunedTable(c.memory, minHeight),
       database := if deleteOk then map k | k in c.database && k.0 >= minHeight :: c.database[k] else c.database)
  }

  function Preheated(c: Cache, rows: seq<Pool>): Cache {
    if rows == [] then c
    else
      var d := Preheated(c, rows[..|rows| - 1]);
      var pool := rows[|rows| - 1];
      d.(memory := SetPool(d.memory, pool), current := if d.current < pool.height then pool.height else d.current)
  }

  // ----- Runs -----

  /** One step of a sequential run. A restart learns the chain's height and reloads the rows of the last
      `blocks` heights, or nothing if the query fails. */
  datatype Step =
    | Get(height: nat, id: nat, calls: Calls)
    | NewBlock(newHeight: nat)
    | Prune(minHeight: nat, deleteOk: bool)
    | Restart(chainHeight: nat, rows: Option<seq<Pool>>, blocks: nat)

  /** The contract of PoolsRange(min, max, 0). */
  ghost predicate RangeQuery(rows: seq<Pool>, db: Database, min: int, max: int) {
    forall p :: p in rows <==>
      (p.height, p.poolId) in db && db[(p.height, p.poolId)] == p && min <= p.height <= max
  }

  ghost predicate Possible(c: Cache, step: Step) {
    step.Restart? && step.rows.Some? ==>
      RangeQuery(step.rows.value, c.database, Uint64(step.chainHeight - step.blocks), step.chainHeight)
  }

  function Apply(chain: Chain, c: Cache, step: Step): Cache {
    match step
    case Get(height, id, calls) => AfterGet(chain, c, height, id, calls)
    case NewBlock(newHeight) => c.(current := if c.current < newHeight then newHeight else c.current)
    case Prune(minHeight, deleteOk) => Pruned(c, minHeight, deleteOk)
    case Restart(chainHeight, rows, _) =>
      var empty := Cache(chainHeight, map[], c.database);
      if rows.Some? then Preheated(empty, rows.value) else empty
  }

  function Run(chain: Chain, c: Cache, steps: seq<Step>): Cache {
    if steps == [] then c else Apply(chain, Run(chain, c, steps[..|steps| - 1]), steps[|steps| - 1])
  }

  ghost predicate PossibleRun(chain: Chain, c: Cache, steps: seq<Step>) {
    forall i :: 0 <= i < |steps| ==> Possible(Run(chain, c, steps[..i]), steps[i])
  }

  /** Every entry of memory and database is what the chain answers for its height and pool. */
  ghost predicate Transparent(chain: Chain, c: Cache) {
    && (forall h, id :: Lookup(c.memory, h, id).Some? ==> Lookup(c.memory, h, id).value == Fetch(chain, h, id))
    && (forall k :: k in c.database ==> c.database[k] == Fetch(chain, k.0, k.1))
  }

  lemma {:induction false} PreheatedLookup(c: Cache, rows: seq<Pool>, height: nat, id: nat)
    ensures Preheated(c, rows).database == c.database
    ensures var l := Lookup(Preheated(c, rows).memory, height, id);
      l == Lookup(c.memory, height, id)
      || exists p :: p in rows && p.height == height && p.poolId == id && l == Some(p)
    ensures (exists p :: p in rows && p.height == height && p.poolId == id)
      ==> Lookup(Preheated(c, rows).memory, height, id).Some?
  {
    if rows != [] {
      var init, last := rows[..|rows| - 1], rows[|rows| - 1];
      assert rows == init + [last];
      PreheatedLookup(c, init, height, id);
      LookupAfterSet(Preheated(c, init).memory, last, height, id);
      if height == last.height && id == last.poolId {
        assert last in rows;
      }
    }
  }

  lemma StepIsTransparent(chain: Chain, c: Cache, step: Step)
    requires Transparent(chain, c) && Possible(c, step)
    ensures Transparent(chain, Apply(chain, c, step))
  {
    var d := Apply(chain, c, step);
    forall h, id ensures Lookup(d.memory, h, id).Some? ==> Lookup(d.memory, h, id).value == Fetch(chain, h, id) {
      match step
      case Get(height, i, calls) =>
        LookupAfterSet(c.memory, Fetch(chain, EffectiveHeight(c.current, height), i), h, id);
      case NewBlock(_) =>
      case Prune(_, _) =>
        assert Lookup(d.memory, h, id).Some? ==> Lookup(d.memory, h, id) == Lookup(c.memory, h, id);
      case Restart(chainHeight, rows, _) =>
        if rows.Some? {
          PreheatedLookup(Cache(chainHeight, map[], c.database), rows.value, h, id);
        }
    }
    assert d.database == c.database || step.Prune? || step.Get? by {
      if step.Restart? && step.rows.Some? {
        PreheatedLookup(Cache(step.chainHeight, map[], c.database), step.rows.value, 0, 0);
      }
    }
  }

  lemma {:induction false} RunIsTransparent(chain: Chain, c: Cache, steps: seq<Step>)
    requires Transparent(chain, c) && PossibleRun(chain, c, steps)
    ensures Transparent(chain, Run(chain, c, steps))
  {
    if steps != [] {
      var n := |steps| - 1;
      var init := steps[..n];
      assert forall i :: 0 <= i < n ==> init[..i] == steps[..i] && init[i] == steps[i];
      RunIsTransparent(chain, c, init);
      StepIsTransparent(chain, Run(chain, c, init), steps[n]);
    }
  }

  /** After any run, a lookup returns the chain's own answers for its height (the current one, if it asks for 0),
      and it fails only if the entry is not in memory and one of its own three foreign calls fails. */
  lemma LookupIsTransparent(chain: Chain, c: Cache, steps: seq<Step>, height: nat, id: nat, calls: Calls)
    requires Transparent(chain, c) && PossibleRun(chain, c, steps)
    ensures var d := Run(chain, c, steps);
      var r := GetResult(chain, d, height, id, calls);
      var h := if height == 0 then d.current else height;
      && (r.Success? ==> r.value == Pool(h, id, chain(h, id).liquidity, chain(h, id).volume))
      && (r.Success? <==> Lookup(d.memory, h, id).Some? || (calls.liquidityOk && calls.volumeOk && calls.saveOk))
      && (r.SaveFailure? <==> Lookup(d.memory, h, id).None? && calls.liquidityOk && calls.volumeOk && !calls.saveOk)
  {
    RunIsTransparent(chain, c, steps);
  }

  /** The step neither restarts nor prunes the height. */
  predicate Spares(step: Step, height: nat) {
    !step.Restart? && (step.Prune? ==> step.minHeight <= height)
  }

  /** A successful lookup leaves its pool in memory, where it stays until a restart or until a prune passes its
      height: whatever steps follow, it is still there. */
  lemma {:induction false} SuccessIsCached(chain: Chain, c: Cache, height: nat, id: nat, calls: Calls, steps: seq<Step>)
    requires GetResult(chain, c, height, id, calls).Success?
    requires forall i :: 0 <= i < |steps| ==> Spares(steps[i], EffectiveHeight(c.current, height))
    ensures var d := Run(chain, AfterGet(chain, c, height, id, calls), steps);
      Lookup(d.memory, EffectiveHeight(c.current, height), id) == Some(GetResult(chain, c, height, id, calls).value)
  {
    var h, d := EffectiveHeight(c.current, height), AfterGet(chain, c, height, id, calls);
    LookupAfterSet(c.memory, Fetch(chain, h, id), h, id);
    if steps != [] {
      var n := |steps| - 1;
      SuccessIsCached(chain, c, height, id, calls, steps[..n]);
      var e := Run(chain, d, steps[..n]);
      if steps[n].Get? {
        var g := steps[n];
        LookupAfterSet(e.memory, Fetch(chain, EffectiveHeight(e.current, g.height), g.id), h, id);
      }
    }
  }

  // ----- The rows of the database -----

  /** The step fetches the key from the chain and saves it. */
  predicate SavesKey(c: Cache, step: Step, k: Key) {
    step.Get? && Fetches(c, step.height, step.id, step.calls) && step.calls.saveOk
    && (EffectiveHeight(c.current, step.height), step.id) == k
  }

  /** Position of the last step that saved the key, -1 if there is none. */
  function LastSaved(chain: Chain, c: Cache, steps: seq<Step>, k: Key): (i: int)
    ensures -1 <= i < |steps|
  {
    if steps == [] then -1
    else
      var n := |steps| - 1;
      if SavesKey(Run(chain, c, steps[..n]), steps[n], k) then n else LastSaved(chain, c, steps[..n], k)
  }

  /** No prune that the database carried out after position `i` had a bound above the key's height. */
  predicate RowSpared(steps: seq<Step>, i: int, k: Key) {
    forall j :: 0 <= j < |steps| && i < j && steps[j].Prune? && steps[j].deleteOk ==> steps[j].minHeight <= k.0
  }

  lemma RowSparedOneMore(steps: seq<Step>, i: int, k: Key)
    requires steps != []
    ensures var n := |steps| - 1;
      RowSpared(steps, i, k) <==>
        RowSpared(steps[..n], i, k) && !(i < n && steps[n].Prune? && steps[n].deleteOk && steps[n].minHeight > k.0)
  {
    var n := |steps| - 1;
    assert forall j :: 0 <= j < n ==> steps[..n][j] == steps[j];
  }

  /** After any run the database has exactly the rows that were saved, or there from the start, and that every
      prune since has spared. */
  lemma {:induction false} DatabaseRow(chain: Chain, c: Cache, steps: seq<Step>, k: Key)
    ensures var i := LastSaved(chain, c, steps, k);
      k in Run(chain, c, steps).database <==> (i >= 0 || k in c.database) && RowSpared(steps, i, k)
  {
    if steps != [] {
      var n := |steps| - 1;
      DatabaseRow(chain, c, steps[..n], k);
      RowSparedOneMore(steps, LastSaved(chain, c, steps, k), k);
      if steps[n].Restart? {
        PreheatKeepsDatabase(Cache(steps[n].chainHeight, map[], Run(chain, c, steps[..n]).database), steps[n].rows);
      }
    }
  }

  lemma PreheatKeepsDatabase(c: Cache, rows: Option<seq<Pool>>)
    ensures rows.Some? ==> Preheated(c, rows.value).database == c.database
  {
    if rows.Some? {
      PreheatedLookup(c, rows.value, 0, 0);
    }
  }

  // ----- One successful fetch per residency -----

  function Present(c: Cache, k: Key): nat { if Lookup(c.memory, k.0, k.1).Some? then 1 else 0 }

  /** 1 if the step fetches the key from the chain. */
  function FetchedBy(c: Cache, step: Step, k: Key): nat {
    if step.Get? && Fetches(c, step.height, step.id, step.calls) && (EffectiveHeight(c.current, step.height), step.id) == k
    then 1 else 0
  }

  /** 1 if the step reloads the key from the database. */
  function ReloadedBy(chain: Chain, c: Cache, step: Step, k: Key): nat {
    if step.Restart? then Present(Apply(chain, c, step), k) else 0
  }

  /** 1 if the step ends a stay of the key in memory: a restart, or a prune above its height. */
  function EndedBy(c: Cache, step: Step, k: Key): nat {
    match step
    case Restart(_, _, _) => Present(c, k)
    case Prune(minHeight, _) => if k.0 < minHeight then Present(c, k) else 0
    case _ => 0
  }

  function FetchCount(chain: Chain, c: Cache, steps: seq<Step>, k: Key): nat {
    if steps == [] then 0
    else
      var n := |steps| - 1;
      FetchCount(chain, c, steps[..n], k) + FetchedBy(Run(chain, c, steps[..n]), steps[n], k)
  }

  function ReloadCount(chain: Chain, c: Cache, steps: seq<Step>, k: Key): nat {
    if steps == [] then 0
    else
      var n := |steps| - 1;
      ReloadCount(chain, c, steps[..n], k) + ReloadedBy(chain, Run(chain, c, steps[..n]), steps[n], k)
  }

  function EndCount(chain: Chain, c: Cache, steps: seq<Step>, k: Key): nat {
    if steps == [] then 0
    else
      var n := |steps| - 1;
      EndCount(chain, c, steps[..n], k) + EndedBy(Run(chain, c, steps[..n]), steps[n], k)
  }

  lemma StepBalance(chain: Chain, c: Cache, step: Step, k: Key)
    ensures Present(Apply(chain, c, step), k) + EndedBy(c, step, k)
      == Present(c, k) + FetchedBy(c, step, k) + ReloadedBy(chain, c, step, k)
  {
    if step.Get? {
      LookupAfterSet(c.memory, Fetch(chain, EffectiveHeight(c.current, step.height), step.id), k.0, k.1);
    }
  }

  /** Conservation of stays in memory: every stay begins with one successful fetch or one reload and
      ends with one eviction, so there is at most one successful fetch per stay. */
  lemma {:induction false} OneFetchPerStay(chain: Chain, c: Cache, steps: seq<Step>, k: Key)
    ensures FetchCount(chain, c, steps, k) + ReloadCount(chain, c, steps, k) + Present(c, k)
      == EndCount(chain, c, steps, k) + Present(Run(chain, c, steps), k)
    ensures FetchCount(chain, c, steps, k) <= EndCount(chain, c, steps, k) + 1
  {
    if steps != [] {
      var n := |steps| - 1;
      OneFetchPerStay(chain, c, steps[..n], k);
      StepBalance(chain, Run(chain, c, steps[..n]), steps[n], k);
    }
  }

  /** Preheating raises the height to that of the highest row. */
  lemma {:induction false} PreheatHeight(c: Cache, rows: seq<Pool>)
    ensures var d := Preheated(c, rows);
      && c.current <= d.current && (forall p :: p in rows ==> p.height <= d.current)
      && (d.current == c.current || exists p :: p in rows && p.height == d.current)
  {
    if rows != [] {
      var init, last := rows[..|rows| - 1], rows[|rows| - 1];
      assert rows == init + [last];
      PreheatHeight(c, init);
      assert last in rows;
    }
  }

  /** Preheating cannot move the current height: the query asks for no row above it. */
  lemma PreheatKeepsHeight(c: Cache, rows: seq<Pool>, min: int)
    requires RangeQuery(rows, c.database, min, c.current)
    ensures Preheated(c, rows).current == c.current
  {
    assert forall p :: p in rows ==> p.height <= c.current;
    HeightFollowsRows(c, rows);
  }

  lemma {:induction false} HeightFollowsRows(c: Cache, rows: seq<Pool>)
    requires forall p :: p in rows ==> p.height <= c.current
    ensures Preheated(c, rows).current == c.current
  {
    if rows != [] {
      assert rows[|rows| - 1] in rows;
      HeightFollowsRows(c, rows[..|rows| - 1]);
    }
  }
}
