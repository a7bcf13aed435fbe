/** Filling the pool cache in the background (internal/indexer/syncing.go, internal/indexer/pool.go): one
    producer scans a window of heights for missing pools and queues them, one consumer fetches them, and the
    producer prunes behind a wider window, while new blocks arrive and other readers fill entries.
    A step is one lock-protected cache operation, one channel operation, or one atomic load. Entries are
    pairs (height, pool); that their values are the chain's is the business of PoolCache. */
module Syncing {
  import opened Types
  import opened MachineInts
  import opened BlockClock
  import PoolCache

  type Key = (nat, nat)

  /** `ids` are the monitored pools, `blocks` the window size, `capacity` the queue's. */
  datatype Config = Config(ids: seq<nat>, blocks: nat, capacity: nat)

  datatype Producer =
    | Idle
    | LoadingWindow
    | Scanning(height: nat, k: nat)
    | Sending(missing: nat)
    | LoadingBound
    | PruningBelow(bound: nat)

  datatype Consumer =
    | Waiting
    | Received(at: nat)
    | Checking(at: nat, k: nat)
    | Fetching(at: nat, k: nat)

  /** History: `passStart..passEnd` is the window of the latest pass that scanned, `frontier` the height its scan
      has reached, `failed` the heights whose sync reported an error since that pass began, and
      `evictedBelow` the highest bound ever pruned to. */
  datatype State = State(
    current: nat, memory: set<Key>, queue: seq<nat>, producer: Producer, consumer: Consumer,
    passStart: nat, passEnd: nat, frontier: nat, failed: set<nat>, evictedBelow: nat)

  datatype Step =
    | StartPass
    | LoadWindow
    | Scan
    | Send
    | LoadBound
    | Prune
    | Receive
    | LoadHeight
    | Check
    | FetchOk(saved: bool)
    | FetchFail
    | NewBlock(height: nat)
    | ReaderFill(key: Key)

  predicate Enabled(c: Config, s: State, step: Step) {
    match step
    case StartPass => s.producer.Idle?
    case LoadWindow => s.producer.LoadingWindow?
    case Scan => s.producer.Scanning?
    case Send => s.producer.Sending? && |s.queue| < c.capacity
    case LoadBound => s.producer.LoadingBound?
    case Prune => s.producer.PruningBelow?
    case Receive => s.consumer.Waiting? && s.queue != []
    case LoadHeight => s.consumer.Received?
    case Check => s.consumer.Checking?
    case FetchOk(_) => s.consumer.Fetching?
    case FetchFail => s.consumer.Fetching?
    case NewBlock(_) => true
    case ReaderFill(_) => true
  }

  function Margin(c: Config): nat { c.blocks * 3 / 2 }

  /** The window of a new pass, counted down from the current height. */
  function BeginPass(c: Config, s: State): State {
    var start := Uint64(s.current - c.blocks);
    s.(producer := Scanning(start, 0), passStart := start, passEnd := s.current, frontier := start, failed := {})
  }

  function ScanOne(c: Config, s: State): State
    requires s.producer.Scanning?
  {
    var i, k := s.producer.height, s.producer.k;
    if i >= s.passEnd then s.(producer := LoadingBound)
    else if k >= |c.ids| then s.(producer := Scanning(i + 1, 0), frontier := i + 1)
    else if (i, c.ids[k]) in s.memory then s.(producer := Scanning(i, k + 1))
    else s.(producer := Sending(i))
  }

  function CheckOne(c: Config, s: State): State
    requires s.consumer.Checking?
  {
    var h, k := s.consumer.at, s.consumer.k;
    if k >= |c.ids| then s.(consumer := Waiting)
    else if (h, c.ids[k]) in s.memory then s.(consumer := Checking(h, k + 1))
    else s.(consumer := Fetching(h, k))
  }

  /** The entry the consumer is fetching. */
  function Wanted(c: Config, s: State): set<Key>
    requires s.consumer.Fetching?
  {
    if s.consumer.k < |c.ids| then {(s.consumer.at, c.ids[s.consumer.k])} else {}
  }

  /** The entry that a reader who asks for this key fills. */
  function Filled(s: State, key: Key): Key { (EffectiveHeight(s.current, key.0), key.1) }

  function Next(c: Config, s: State, step: Step): State
    requires Enabled(c, s, step)
  {
    match step
    case StartPass =>
      // `queueMissingHeights` returns at once while heights are still queued; pruning follows all the same.
      s.(producer := if s.queue != [] then LoadingBound else LoadingWindow)
    case LoadWindow => BeginPass(c, s)
    case Scan => ScanOne(c, s)
    case Send =>
      var i := s.producer.missing;
      s.(queue := s.queue + [i], producer := Scanning(i + 1, 0), frontier := i + 1)
    case LoadBound => s.(producer := PruningBelow(Uint64(s.current - Margin(c))))
    case Prune =>
      var b := s.producer.bound;
      s.(memory := (set key | key in s.memory && key.0 >= b), producer := Idle,
         evictedBelow := if s.evictedBelow < b then b else s.evictedBelow)
    case Receive => s.(queue := s.queue[1..], consumer := Received(s.queue[0]))
    case LoadHeight => s.(consumer := Checking(EffectiveHeight(s.current, s.consumer.at), 0))
    case Check => CheckOne(c, s)
    case FetchOk(saved) =>
      s.(memory := s.memory + Wanted(c, s), consumer := Checking(s.consumer.at, s.consumer.k + 1),
         failed := if saved then s.failed else s.failed + {s.consumer.at})
    case FetchFail =>
      s.(consumer := Checking(s.consumer.at, s.consumer.k + 1), failed := s.failed + {s.consumer.at})
    case NewBlock(height) => s.(current := if s.current < height then height else s.current)
    case ReaderFill(key) => s.(memory := s.memory + {Filled(s, key)})
  }

  function Initially(current: nat, memory: set<Key>): State {
    State(current, memory, [], Idle, Waiting, 0, 0, 0, {}, 0)
  }

  predicate Runs(c: Config, s: State, steps: seq<Step>)
    decreases |steps|
  {
    steps == [] || (Enabled(c, s, steps[0]) && Runs(c, Next(c, s, steps[0]), steps[1..]))
  }

  function End(c: Config, s: State, steps: seq<Step>): State
    requires Runs(c, s, steps)
    decreases |steps|
  {
    if steps == [] then s else End(c, Next(c, s, steps[0]), steps[1..])
  }

  // ----- What every step keeps -----

  predicate HasFirst(c: Config, s: State, h: nat, k: nat) {
    forall m :: 0 <= m < k && m < |c.ids| ==> (h, c.ids[m]) in s.memory
  }

  /** Every monitored pool is cached at the height. */
  predicate Complete(c: Config, s: State, h: nat) { HasFirst(c, s, h, |c.ids|) }

  /** The consumer is at the height, and all pools it has passed are cached. */
  predicate InFlight(c: Config, s: State, h: nat) {
    !s.consumer.Waiting? && s.consumer.at == h && (!s.consumer.Received? ==> HasFirst(c, s, h, s.consumer.k))
  }

  predicate Covered(c: Config, s: State, h: nat) {
    Complete(c, s, h) || h in s.queue || InFlight(c, s, h) || h in s.failed || h < s.evictedBelow
  }

  predicate Ascending(q: seq<nat>) {
    forall i, j :: 0 <= i < j < |q| ==> q[i] < q[j]
  }

  predicate QueueDiscipline(c: Config, s: State) {
    && Ascending(s.queue)
    && |s.queue| <= c.capacity
    && s.passStart <= s.frontier
    && forall i :: 0 <= i < |s.queue| ==> s.passStart <= s.queue[i] < s.frontier
  }

  predicate ProducerInv(c: Config, s: State) {
    match s.producer
    case Scanning(i, k) => i == s.frontier && HasFirst(c, s, i, k)
    case Sending(i) => i == s.frontier && i < s.passEnd
    case LoadingWindow => s.queue == [] && s.frontier >= s.passEnd
    case _ => s.frontier >= s.passEnd
  }

  ghost predicate Coverage(c: Config, s: State) {
    forall h :: s.passStart <= h < s.frontier && h > 0 ==> Covered(c, s, h)
  }

  ghost predicate Inv(c: Config, s: State) {
    QueueDiscipline(c, s) && ProducerInv(c, s) && Coverage(c, s)
  }

  lemma InitInv(c: Config, current: nat, memory: set<Key>)
    ensures Inv(c, Initially(current, memory))
  {
  }

  lemma StepKeepsQueue(c: Config, s: State, step: Step)
    requires QueueDiscipline(c, s) && ProducerInv(c, s) && Enabled(c, s, step)
    ensures QueueDiscipline(c, Next(c, s, step))
  {
    if step.Receive? {
      assert s.queue == [s.queue[0]] + s.queue[1..];
    }
  }

  lemma StepKeepsProducer(c: Config, s: State, step: Step)
    requires QueueDiscipline(c, s) && ProducerInv(c, s) && Enabled(c, s, step)
    ensures ProducerInv(c, Next(c, s, step))
  {
  }

  lemma StepKeepsCovered(c: Config, s: State, step: Step, h: nat)
    requires Inv(c, s) && Enabled(c, s, step) && !step.LoadWindow?
    requires h > 0 && Covered(c, s, h)
    ensures Covered(c, Next(c, s, step), h)
  {
    var s' := Next(c, s, step);
    if step.Receive? && h in s.queue {
      assert s.queue == [s.queue[0]] + s.queue[1..];
    }
    if !step.Prune? {
      assert s.memory <= s'.memory;
    }
  }

  /** Within a pass every scanned height stays complete, queued, in flight, failed, or pruned away; the queue
      stays strictly ascending and within capacity. */
  lemma StepKeepsInv(c: Config, s: State, step: Step)
    requires Inv(c, s) && Enabled(c, s, step)
    ensures Inv(c, Next(c, s, step))
  {
    StepKeepsQueue(c, s, step);
    StepKeepsProducer(c, s, step);
    var s' := Next(c, s, step);
    if !step.LoadWindow? {
      forall h | s'.passStart <= h < s'.frontier && h > 0 ensures Covered(c, s', h) {
        if h < s.frontier {
          StepKeepsCovered(c, s, step, h);
        } else if step.Send? {
          assert s'.queue[|s.queue|] == h;
        }
      }
    }
  }

  lemma {:induction false} RunKeepsInv(c: Config, s: State, steps: seq<Step>)
    requires Inv(c, s) && Runs(c, s, steps)
    ensures Inv(c, End(c, s, steps))
    decreases |steps|
  {
    if steps != [] {
      StepKeepsInv(c, s, steps[0]);
      RunKeepsInv(c, Next(c, s, steps[0]), steps[1..]);
    }
  }

  // ----- One pass of the scan, alone -----

  /** Some monitored pool is missing at the height. */
  predicate Lacks(pools: PoolCache.PoolTable, ids: seq<nat>, h: nat) {
    exists k :: 0 <= k < |ids| && PoolCache.Lookup(pools, h, ids[k]).None?
  }

  /** `queueMissingHeights` over a cache that does not change meanwhile, its channel being drained as it fills:
      `sent` is what goes into the channel. Exactly the
      heights of the window that lack some monitored pool are queued, each once, in ascending order; and
      none at all while earlier ones are still queued. */
  method QueueMissingHeights(pools: PoolCache.PoolMap, ids: seq<nat>, current: nat, blocks: nat, queued: nat)
    returns (sent: seq<nat>)
    ensures queued > 0 ==> sent == []
    ensures Ascending(sent)
    ensures queued == 0 ==> forall h: nat ::
      (h in sent <==> Uint64(current - blocks) <= h < current && Lacks(pools.pools, ids, h))
  {
    sent := [];
    if queued > 0 {
      return;
    }
    var heightEnd := current;
    var heightStart := Uint64(heightEnd - blocks);
    var i := heightStart;
    while i < heightEnd
      invariant heightStart <= i && (i <= heightEnd || i == heightStart)
      invariant Ascending(sent) && forall k :: 0 <= k < |sent| ==> sent[k] < i
      invariant forall h: nat :: h in sent <==> heightStart <= h < i && Lacks(pools.pools, ids, h)
    {
      var k, missing := 0, false;
      while k < |ids| && !missing
        invariant 0 <= k <= |ids|
        invariant missing <==> exists m :: 0 <= m < k && PoolCache.Lookup(pools.pools, i, ids[m]).None?
      {
        var has := pools.Has(i, ids[k]);
        missing := !has;
        k := k + 1;
      }
      if missing {
        sent := sent + [i];
      }
      i := i + 1;
    }
  }

  // ----- Pruning stays behind the window -----

  /** A prune bound leaves the window of a pass alone if and only if it does not wrap and the chain has advanced
      by at most half the window since the pass began. */
  lemma PruneSparesWindowIff(c: Config, passEnd: nat, current: nat)
    requires c.blocks <= passEnd <= current < TWO_63 && Margin(c) <= TWO_63
    ensures Uint64(current - Margin(c)) <= Uint64(passEnd - c.blocks) <==>
      Margin(c) <= current && current - passEnd <= c.blocks / 2
  {
  }

  /** With too few blocks on the chain the bound wraps, and pruning empties the cache. */
  lemma PruneWrapsOnShortChain(c: Config, s: State)
    requires s.producer.LoadingBound? && s.current < Margin(c) <= TWO_63
    requires forall key :: key in s.memory ==> key.0 < TWO_63
    ensures Next(c, Next(c, s, LoadBound), Prune).memory == {}
  {
  }

  /** Steps that leave the producer alone. */
  predicate Others(steps: seq<Step>) {
    forall i :: 0 <= i < |steps| ==>
      !steps[i].StartPass? && !steps[i].LoadWindow? && !steps[i].Scan? && !steps[i].Send? && !steps[i].LoadBound?
      && !steps[i].Prune?
  }

  lemma {:induction false} OthersKeepProducer(c: Config, s: State, steps: seq<Step>)
    requires Runs(c, s, steps) && Others(steps)
    ensures End(c, s, steps).producer == s.producer
    decreases |steps|
  {
    if steps != [] {
      assert !steps[0].StartPass?;
      OthersKeepProducer(c, Next(c, s, steps[0]), steps[1..]);
    }
  }

  /** On a chain of at least one and a half windows a prune removes exactly the heights below the height at which
      its bound was loaded less one and a half windows, whatever happens in between. */
  lemma PruneRemovesExactly(c: Config, s: State, between: seq<Step>)
    requires s.producer.LoadingBound? && c.blocks * 3 / 2 <= s.current < TWO_64
    requires Runs(c, Next(c, s, LoadBound), between) && Others(between)
    ensures var e := End(c, Next(c, s, LoadBound), between);
      && Enabled(c, e, Prune)
      && forall key :: key in Next(c, e, Prune).memory <==> key in e.memory && key.0 >= s.current - c.blocks * 3 / 2
  {
    OthersKeepProducer(c, Next(c, s, LoadBound), between);
  }

  /** Bounds never outrun the chain, and a pass window starts `blocks` below its end. */
  predicate BoundsInv(c: Config, s: State) {
    && Margin(c) <= s.current < TWO_63
    && s.passEnd <= s.current
    && (s.producer.PruningBelow? ==> s.producer.bound <= s.current - Margin(c))
    && s.evictedBelow <= s.current - Margin(c)
    && (s.passStart == s.passEnd - c.blocks || (s.passStart == s.passEnd == 0))
  }

  lemma {:induction false} RunKeepsBounds(c: Config, s: State, steps: seq<Step>)
    requires BoundsInv(c, s) && Runs(c, s, steps)
    requires BlocksFit(steps)
    ensures BoundsInv(c, End(c, s, steps))
    decreases |steps|
  {
    if steps != [] {
      assert steps[0].NewBlock? ==> steps[0].height < TWO_63;
      RunKeepsBounds(c, Next(c, s, steps[0]), steps[1..]);
    }
  }

  // ----- Convergence -----

  /** Nothing is queued and the consumer is waiting. */
  predicate Settled(s: State) { s.queue == [] && s.consumer.Waiting? }

  /** Convergence of one height, over every interleaving: once settled, a height above 0 that the pass has
      scanned and whose sync did not fail is complete or has been pruned away. Nothing is asked of the
      other heights, of the scan, or of the chain's length. */
  lemma SettledHeight(c: Config, current: nat, memory: set<Key>, steps: seq<Step>, h: nat)
    requires Runs(c, Initially(current, memory), steps)
    requires var s := End(c, Initially(current, memory), steps);
      Settled(s) && s.passStart <= h < s.frontier && h > 0 && h !in s.failed
    ensures var s := End(c, Initially(current, memory), steps);
      Complete(c, s, h) || h < s.evictedBelow
  {
    InitInv(c, current, memory);
    RunKeepsInv(c, Initially(current, memory), steps);
    assert Covered(c, End(c, Initially(current, memory), steps), h);
  }

  /** Settled, with the scan over and no failure in the pass. */
  predicate Drained(s: State) {
    Settled(s) && !s.producer.Scanning? && !s.producer.Sending? && s.failed == {}
  }

  ghost predicate BlocksFit(steps: seq<Step>) {
    forall i :: 0 <= i < |steps| && steps[i].NewBlock? ==> steps[i].height < TWO_63
  }

  lemma ScanIsOver(c: Config, current: nat, memory: set<Key>, steps: seq<Step>)
    requires Runs(c, Initially(current, memory), steps) && Drained(End(c, Initially(current, memory), steps))
    ensures var s := End(c, Initially(current, memory), steps); s.passEnd <= s.frontier
  {
    InitInv(c, current, memory);
    RunKeepsInv(c, Initially(current, memory), steps);
  }

  /** Convergence of a pass: once it is drained without failures, every height of its window above 0 is
      complete or has been pruned away; and none has been pruned away on a chain of at least one and a
      half windows that has not advanced by more than half a window since. */
  lemma DrainedWindowIsComplete(c: Config, current: nat, memory: set<Key>, steps: seq<Step>, h: nat)
    requires Runs(c, Initially(current, memory), steps) && Drained(End(c, Initially(current, memory), steps))
    requires var s := End(c, Initially(current, memory), steps); s.passStart <= h < s.passEnd && h > 0
    ensures var s := End(c, Initially(current, memory), steps);
      && (Complete(c, s, h) || h < s.evictedBelow)
      && ((Margin(c) <= current < TWO_63 && BlocksFit(steps) && s.current - s.passEnd <= c.blocks / 2) ==>
            Complete(c, s, h))
  {
    ScanIsOver(c, current, memory, steps);
    SettledHeight(c, current, memory, steps, h);
    if Margin(c) <= current < TWO_63 && BlocksFit(steps) {
      RunKeepsBounds(c, Initially(current, memory), steps);
    }
  }

  // ----- Height 0 -----

  /** Height 0 stands for the current height wherever it is asked for, so nothing is ever stored under it. */
  ghost predicate ZeroInv(s: State) {
    && s.current > 0
    && (forall id: nat :: (0, id) !in s.memory)
    && (s.consumer.Checking? || s.consumer.Fetching? ==> s.consumer.at > 0)
  }

  lemma {:induction false} RunKeepsZero(c: Config, s: State, steps: seq<Step>)
    requires ZeroInv(s) && Runs(c, s, steps)
    ensures ZeroInv(End(c, s, steps))
    decreases |steps|
  {
    if steps != [] {
      RunKeepsZero(c, Next(c, s, steps[0]), steps[1..]);
    }
  }

  ghost predicate NothingAtZero(memory: set<Key>) {
    forall id: nat :: (0, id) !in memory
  }

  /** In no reachable state is any pool cached at height 0, whoever looks it up and however often a window
      that reaches down to it is scanned and drained. */
  lemma HeightZeroIsNeverCached(c: Config, current: nat, memory: set<Key>, steps: seq<Step>)
    requires current > 0 && NothingAtZero(memory) && Runs(c, Initially(current, memory), steps)
    ensures NothingAtZero(End(c, Initially(current, memory), steps).memory)
    ensures Complete(c, End(c, Initially(current, memory), steps), 0) <==> c.ids == []
  {
    RunKeepsZero(c, Initially(current, memory), steps);
    var s := End(c, Initially(current, memory), steps);
    if c.ids != [] {
      assert (0, c.ids[0]) !in s.memory;
    }
  }

  /** So a settled, scanned height that neither failed nor was pruned away is complete exactly if it is
      not height 0, or no pool is monitored. */
  lemma SettledHeightIff(c: Config, current: nat, memory: set<Key>, steps: seq<Step>, h: nat)
    requires current > 0 && NothingAtZero(memory) && Runs(c, Initially(current, memory), steps)
    requires var s := End(c, Initially(current, memory), steps);
      Settled(s) && s.passStart <= h < s.frontier && h !in s.failed && s.evictedBelow <= h
    ensures Complete(c, End(c, Initially(current, memory), steps), h) <==> h > 0 || c.ids == []
  {
    if h > 0 {
      SettledHeight(c, current, memory, steps, h);
    } else {
      HeightZeroIsNeverCached(c, current, memory, steps);
    }
  }

  /** The window of the latest pass, if there was one. */
  predicate PassWindow(c: Config, s: State) {
    && s.passEnd <= s.current < TWO_63
    && (s.passStart == Uint64(s.passEnd - c.blocks) || s.passStart == s.passEnd == 0)
  }

  lemma {:induction false} RunKeepsPassWindow(c: Config, s: State, steps: seq<Step>)
    requires PassWindow(c, s) && Runs(c, s, steps) && BlocksFit(steps)
    ensures PassWindow(c, End(c, s, steps))
    decreases |steps|
  {
    if steps != [] {
      assert steps[0].NewBlock? ==> steps[0].height < TWO_63;
      RunKeepsPassWindow(c, Next(c, s, steps[0]), steps[1..]);
    }
  }

  ghost predicate WindowComplete(c: Config, s: State) {
    forall h: nat :: s.passStart <= h < s.passEnd ==> Complete(c, s, h)
  }

  /** The whole window: a pass that is drained without failures, and into which no prune has reached, leaves
      its window complete if and only if the window does not start at height 0 (or there is nothing to
      complete); that is, unless the window size equals the chain's height at the start of the pass. */
  lemma WindowCompleteIff(c: Config, current: nat, memory: set<Key>, steps: seq<Step>)
    requires 0 < current < TWO_63 && c.blocks < TWO_63 && NothingAtZero(memory) && BlocksFit(steps)
    requires Runs(c, Initially(current, memory), steps) && Drained(End(c, Initially(current, memory), steps))
    requires var s := End(c, Initially(current, memory), steps); s.evictedBelow <= s.passStart
    ensures var s := End(c, Initially(current, memory), steps);
      && (WindowComplete(c, s) <==> s.passStart > 0 || s.passEnd == 0 || c.ids == [])
      && (WindowComplete(c, s) <==> s.passEnd != c.blocks || s.passEnd == 0 || c.ids == [])
  {
    var s := End(c, Initially(current, memory), steps);
    ScanIsOver(c, current, memory, steps);
    RunKeepsPassWindow(c, Initially(current, memory), steps);
    forall h: nat | s.passStart <= h < s.passEnd ensures Complete(c, s, h) <==> h > 0 || c.ids == [] {
      SettledHeightIff(c, current, memory, steps, h);
    }
    assert s.passStart == 0 < s.passEnd ==> (Complete(c, s, 0) <==> c.ids == []);
  }

  lemma OneStep(c: Config, s: State, step: Step, rest: seq<Step>)
    requires Enabled(c, s, step) && Runs(c, Next(c, s, step), rest)
    ensures Runs(c, s, [step] + rest) && End(c, s, [step] + rest) == End(c, Next(c, s, step), rest)
  {
    assert ([step] + rest)[1..] == rest;
  }

  /** The consumer takes a queued 0 for the current height and syncs that. */
  lemma ZeroIsTakenForCurrent(c: Config, s: State)
    requires s.queue == [0] && s.consumer.Waiting? && s.memory == {} && |c.ids| == 1
    ensures var steps := [Receive, LoadHeight, Check, FetchOk(true), Check];
      && Runs(c, s, steps)
      && End(c, s, steps) == s.(queue := [], memory := {(s.current, c.ids[0])})
  {
    var s0 := Next(c, s, Receive);
    var s1 := Next(c, s0, LoadHeight);
    var s2 := Next(c, s1, Check);
    var s3 := Next(c, s2, FetchOk(true));
    var s4 := Next(c, s3, Check);
    assert s4 == s.(queue := [], memory := {(s.current, c.ids[0])});
    OneStep(c, s3, Check, []);
    OneStep(c, s2, FetchOk(true), [Check]);
    OneStep(c, s1, Check, [FetchOk(true), Check]);
    OneStep(c, s0, LoadHeight, [Check, FetchOk(true), Check]);
    OneStep(c, s, Receive, [LoadHeight, Check, FetchOk(true), Check]);
    assert [Receive] + [LoadHeight, Check, FetchOk(true), Check] == [Receive, LoadHeight, Check, FetchOk(true), Check];
  }

  /** An instance: a window that reaches down to height 0 is queued, synced and drained without failures, and
      height 0 is still missing. */
  lemma HeightZeroExample() returns (c: Config, current: nat, steps: seq<Step>)
    ensures c.blocks == current && Margin(c) <= current && Runs(c, Initially(current, {}), steps)
    ensures var s := End(c, Initially(current, {}), steps);
      Drained(s) && s.current == s.passEnd && s.passStart <= 0 < s.passEnd && !Complete(c, s, 0) && Complete(c, s, current)
  {
    c, current := Config([7], 1, 720), 1;
    var s0 := Initially(current, {});
    var w := Next(c, s0, StartPass);
    var s1 := Next(c, w, LoadWindow);
    var s2 := Next(c, s1, Scan);
    var s3 := Next(c, s2, Send);
    var s4 := Next(c, s3, Scan);
    assert s4.queue == [0] && s4.producer == LoadingBound && s4.consumer == Waiting && s4.failed == {};
    ZeroIsTakenForCurrent(c, s4);
    var tail := [Receive, LoadHeight, Check, FetchOk(true), Check];
    OneStep(c, s3, Scan, tail);
    OneStep(c, s2, Send, [Scan] + tail);
    OneStep(c, s1, Scan, [Send] + ([Scan] + tail));
    OneStep(c, w, LoadWindow, [Scan] + ([Send] + ([Scan] + tail)));
    OneStep(c, s0, StartPass, [LoadWindow] + ([Scan] + ([Send] + ([Scan] + tail))));
    steps := [StartPass] + ([LoadWindow] + ([Scan] + ([Send] + ([Scan] + tail))));
    assert (0, c.ids[0]) !in End(c, s0, steps).memory;
  }

  // ----- Progress -----

  /** A step of the producer or the consumer other than starting a pass; the rest are the environment's. */
  predicate Works(step: Step) {
    !step.StartPass? && !step.NewBlock? && !step.ReaderFill?
  }

  predicate AtRest(s: State) { s.producer.Idle? && Settled(s) }

  /** Producer and consumer never block each other: until the pass is over and the queue is empty, one of them
      can move. */
  lemma WorkIsPossible(c: Config, s: State)
    requires c.capacity > 0 && !AtRest(s)
    ensures exists step :: Works(step) && Enabled(c, s, step)
  {
    match s.producer
    case Idle =>
      if s.consumer.Waiting? {
        assert Enabled(c, s, Receive);
      } else {
        ConsumerCanMove(c, s);
      }
    case LoadingWindow => assert Enabled(c, s, LoadWindow);
    case Scanning(_, _) => assert Enabled(c, s, Scan);
    case LoadingBound => assert Enabled(c, s, LoadBound);
    case PruningBelow(_) => assert Enabled(c, s, Prune);
    case Sending(_) =>
      if s.queue == [] {
        assert Enabled(c, s, Send);
      } else if s.consumer.Waiting? {
        assert Enabled(c, s, Receive);
      } else {
        ConsumerCanMove(c, s);
      }
  }

  lemma ConsumerCanMove(c: Config, s: State)
    requires !s.consumer.Waiting?
    ensures exists step :: Works(step) && Enabled(c, s, step)
  {
    match s.consumer
    case Received(_) => assert Enabled(c, s, LoadHeight);
    case Checking(_, _) => assert Enabled(c, s, Check);
    case Fetching(_, _) => assert Enabled(c, s, FetchFail);
  }

  /** Consumer steps per queued height: receiving it, loading the height, a check and a fetch for each pool, and
      a last check. */
  function SyncCost(c: Config): nat { 2 * |c.ids| + 3 }

  /** Steps per height of the window, with its sync: a check for each pool, and sending it or going on. */
  function HeightCost(c: Config): nat { |c.ids| + 1 + SyncCost(c) }

  function Left(h: nat, end: nat): nat { if h < end then end - h else 0 }

  function ProducerCost(c: Config, s: State): int {
    match s.producer
    case Idle => 0
    case PruningBelow(_) => 1
    case LoadingBound => 2
    case Scanning(h, k) => Left(h, s.passEnd) * HeightCost(c) + 3 - (if h >= s.passEnd then 0 else if k < |c.ids| then k else |c.ids|)
    case Sending(h) => Left(h, s.passEnd) * HeightCost(c) + 3 - |c.ids|
    case LoadingWindow => Left(Uint64(s.current - c.blocks), s.current) * HeightCost(c) + 4
  }

  function ConsumerCost(c: Config, s: State): nat {
    match s.consumer
    case Waiting => 0
    case Received(_) => 2 * |c.ids| + 2
    case Checking(_, k) => if k < |c.ids| then 2 * (|c.ids| - k) + 1 else 1
    case Fetching(_, k) => if k < |c.ids| then 2 * (|c.ids| - k) else 2
  }

  /** What producer and consumer can still do before the pass is over and the queue is empty. */
  function WorkLeft(c: Config, s: State): int {
    ProducerCost(c, s) + |s.queue| * SyncCost(c) + ConsumerCost(c, s)
  }

  lemma OneLess(n: nat, m: nat, cost: nat)
    requires m == n + 1
    ensures m * cost == n * cost + cost
  {
  }

  lemma ScanUsesWork(c: Config, s: State, step: Step)
    requires (step.Scan? || step.Send?) && ProducerInv(c, s) && Enabled(c, s, step)
    ensures WorkLeft(c, Next(c, s, step)) < WorkLeft(c, s)
  {
    var h := s.frontier;
    if h < s.passEnd {
      OneLess(Left(h + 1, s.passEnd), Left(h, s.passEnd), HeightCost(c));
    }
    OneLess(|s.queue|, |s.queue| + 1, SyncCost(c));
  }

  lemma ReceiveUsesWork(c: Config, s: State)
    requires Enabled(c, s, Receive)
    ensures WorkLeft(c, Next(c, s, Receive)) < WorkLeft(c, s)
  {
    OneLess(|s.queue| - 1, |s.queue|, SyncCost(c));
  }

  /** Every step of the producer or the consumer uses up work. */
  lemma StepUsesWork(c: Config, s: State, step: Step)
    requires Inv(c, s) && Enabled(c, s, step) && Works(step)
    ensures WorkLeft(c, Next(c, s, step)) < WorkLeft(c, s)
  {
    if step.Scan? || step.Send? {
      ScanUsesWork(c, s, step);
    } else if step.Receive? {
      ReceiveUsesWork(c, s);
    }
  }

  /** New blocks and other readers leave the work of a pass alone, once its window is loaded. */
  lemma EnvironmentKeepsWork(c: Config, s: State, step: Step)
    requires Enabled(c, s, step) && (step.NewBlock? || step.ReaderFill?) && !s.producer.LoadingWindow?
    ensures WorkLeft(c, Next(c, s, step)) == WorkLeft(c, s)
  {
  }

  lemma ProducerWork(c: Config, s: State)
    requires ProducerInv(c, s)
    ensures ProducerCost(c, s) >= 0
    ensures ProducerCost(c, s) == 0 <==> s.producer.Idle?
  {
    if s.frontier < s.passEnd {
      OneLess(Left(s.frontier + 1, s.passEnd), Left(s.frontier, s.passEnd), HeightCost(c));
    }
  }

  /** Work is a natural number, and it is 0 exactly at rest. */
  lemma NoWorkIffAtRest(c: Config, s: State)
    requires ProducerInv(c, s)
    ensures WorkLeft(c, s) >= 0
    ensures WorkLeft(c, s) == 0 <==> AtRest(s)
  {
    ProducerWork(c, s);
    if s.queue != [] {
      OneLess(|s.queue| - 1, |s.queue|, SyncCost(c));
    }
  }

  function WorkSteps(steps: seq<Step>): nat {
    if steps == [] then 0 else (if Works(steps[0]) then 1 else 0) + WorkSteps(steps[1..])
  }

  /** Steps before the next pass starts. */
  predicate WithinPass(steps: seq<Step>) {
    forall i :: 0 <= i < |steps| ==> !steps[i].StartPass?
  }

  /** Every pass ends: whatever blocks arrive and whatever other readers do, producer and consumer take no more
      steps than the work left once the window is loaded. Together with WorkIsPossible: unless both are kept
      from moving, they come to rest. */
  lemma {:induction false} PassEnds(c: Config, s: State, steps: seq<Step>)
    requires Inv(c, s) && Runs(c, s, steps) && WithinPass(steps) && !s.producer.LoadingWindow?
    ensures WorkSteps(steps) + WorkLeft(c, End(c, s, steps)) <= WorkLeft(c, s)
    ensures WorkLeft(c, End(c, s, steps)) >= 0
    decreases |steps|
  {
    NoWorkIffAtRest(c, s);
    if steps != [] {
      StepKeepsInv(c, s, steps[0]);
      if Works(steps[0]) {
        StepUsesWork(c, s, steps[0]);
      } else {
        assert !steps[0].StartPass?;
        EnvironmentKeepsWork(c, s, steps[0]);
      }
      PassEnds(c, Next(c, s, steps[0]), steps[1..]);
    }
  }

  /** In numbers: a pass over a window of `blocks` heights for n pools takes at most blocks(3n + 4) + 2n + 5 further
      steps, with all its syncs and the one that was in flight. */
  lemma WorkOfPass(c: Config, s: State)
    requires Inv(c, s) && s.producer.LoadingWindow? && s.current < TWO_63 && c.blocks < TWO_63
    ensures Enabled(c, s, LoadWindow)
    ensures WorkLeft(c, Next(c, s, LoadWindow)) <= c.blocks * (3 * |c.ids| + 4) + 2 * |c.ids| + 5
  {
    MulMonotone(Left(Uint64(s.current - c.blocks), s.current), c.blocks, HeightCost(c));
  }

  lemma {:induction false} RunsConcat(c: Config, s: State, xs: seq<Step>, ys: seq<Step>)
    requires Runs(c, s, xs) && Runs(c, End(c, s, xs), ys)
    ensures Runs(c, s, xs + ys) && End(c, s, xs + ys) == End(c, End(c, s, xs), ys)
    decreases |xs|
  {
    if xs != [] {
      RunsConcat(c, Next(c, s, xs[0]), xs[1..], ys);
      assert (xs + ys)[1..] == xs[1..] + ys;
    } else {
      assert xs + ys == ys;
    }
  }

  /** Liveness and safety together: a pass in which producer and consumer have taken as many steps as there was
      work left is at rest; then every height of its window above 0 that did not fail is complete or pruned
      away, and without failures and prunes the whole window is complete under the known condition. */
  lemma PassConverges(c: Config, current: nat, memory: set<Key>, before: seq<Step>, pass: seq<Step>)
    requires 0 < current < TWO_63 && c.blocks < TWO_63 && NothingAtZero(memory)
    requires Runs(c, Initially(current, memory), before)
    requires var s := End(c, Initially(current, memory), before);
      !s.producer.LoadingWindow? && Runs(c, s, pass) && WithinPass(pass) && WorkSteps(pass) >= WorkLeft(c, s)
    requires BlocksFit(before + pass)
    ensures var s := End(c, End(c, Initially(current, memory), before), pass);
      && AtRest(s)
      && (forall h :: s.passStart <= h < s.passEnd && 0 < h && h !in s.failed ==> Complete(c, s, h) || h < s.evictedBelow)
      && (s.failed == {} && s.evictedBelow <= s.passStart ==>
           (WindowComplete(c, s) <==> s.passEnd != c.blocks || s.passEnd == 0 || c.ids == []))
  {
    var init := Initially(current, memory);
    InitInv(c, current, memory);
    RunKeepsInv(c, init, before);
    PassEnds(c, End(c, init, before), pass);
    RunKeepsInv(c, End(c, init, before), pass);
    RunsConcat(c, init, before, pass);
    var s := End(c, init, before + pass);
    NoWorkIffAtRest(c, s);
    forall h | s.passStart <= h < s.passEnd && 0 < h && h !in s.failed ensures Complete(c, s, h) || h < s.evictedBelow {
      SettledHeight(c, current, memory, before + pass, h);
    }
    if s.failed == {} && s.evictedBelow <= s.passStart {
      WindowCompleteIff(c, current, memory, before + pass);
    }
  }

  // ----- The missing pairs of a fixed window -----

  function Window(c: Config, lo: nat, hi: nat): set<Key> {
    set h, id | lo <= h < hi && id in c.ids :: (h, id)
  }

  function Missing(c: Config, s: State, lo: nat, hi: nat): set<Key> { Window(c, lo, hi) - s.memory }

  /** The entry a step writes. */
  function Written(c: Config, s: State, step: Step): set<Key>
    requires Enabled(c, s, step)
  {
    match step
    case FetchOk(_) => Wanted(c, s)
    case ReaderFill(key) => {Filled(s, key)}
    case _ => {}
  }

  /** 1 if the step supplies a missing entry of the window. */
  function Supplies(c: Config, s: State, step: Step, lo: nat, hi: nat): nat
    requires Enabled(c, s, step)
  {
    |Written(c, s, step) * Missing(c, s, lo, hi)|
  }

  predicate PrunesAbove(s: State, step: Step, lo: nat) {
    step.Prune? && s.producer.PruningBelow? && s.producer.bound > lo
  }

  /** A fetched entry is in memory whether or not its save succeeds; a failed save is reported all the same. */
  lemma FetchedIsCached(c: Config, s: State, saved: bool)
    requires s.consumer.Fetching? && s.consumer.k < |c.ids|
    ensures var e := Next(c, s, FetchOk(saved));
      && (s.consumer.at, c.ids[s.consumer.k]) in e.memory && s.memory <= e.memory
      && (!saved ==> s.consumer.at in e.failed)
  {
  }

  /** Unless a prune reaches into the window, the number of missing pairs never rises, and it drops by
      exactly one with each step that supplies a missing pair. */
  lemma StepSupplies(c: Config, s: State, step: Step, lo: nat, hi: nat)
    requires Enabled(c, s, step) && !PrunesAbove(s, step, lo)
    ensures Supplies(c, s, step, lo, hi) <= 1
    ensures |Missing(c, Next(c, s, step), lo, hi)| + Supplies(c, s, step, lo, hi) == |Missing(c, s, lo, hi)|
  {
    var before, after, w := Missing(c, s, lo, hi), Missing(c, Next(c, s, step), lo, hi), Written(c, s, step);
    StepMemory(c, s, step);
    forall key ensures key in after <==> key in before && key !in w {
    }
    Supplied(before, after, w);
  }

  /** Only the written entry appears, and only a prune removes any: those below its bound. */
  lemma StepMemory(c: Config, s: State, step: Step)
    requires Enabled(c, s, step)
    ensures forall key :: key in Next(c, s, step).memory <==>
      (key in s.memory || key in Written(c, s, step))
      && !(step.Prune? && s.producer.PruningBelow? && key.0 < s.producer.bound)
    ensures Written(c, s, step) == {} || exists key :: Written(c, s, step) == {key}
  {
  }

  lemma Supplied(before: set<Key>, after: set<Key>, w: set<Key>)
    requires forall key :: key in after <==> key in before && key !in w
    requires w == {} || exists key :: w == {key}
    ensures |w * before| <= 1
    ensures |after| + |w * before| == |before|
  {
    if key :| w == {key} && key in before {
      assert w * before == {key};
      assert before == after + {key};
    } else {
      assert w * before == {};
      assert before == after;
    }
  }

  function TotalSupplied(c: Config, s: State, steps: seq<Step>, lo: nat, hi: nat): nat
    requires Runs(c, s, steps)
    decreases |steps|
  {
    if steps == [] then 0
    else Supplies(c, s, steps[0], lo, hi) + TotalSupplied(c, Next(c, s, steps[0]), steps[1..], lo, hi)
  }

  predicate NeverPrunesAbove(c: Config, s: State, steps: seq<Step>, lo: nat)
    requires Runs(c, s, steps)
    decreases |steps|
  {
    steps == [] || (!PrunesAbove(s, steps[0], lo) && NeverPrunesAbove(c, Next(c, s, steps[0]), steps[1..], lo))
  }

  /** Conservation over whole runs: missing at the end plus supplied on the way is missing at the start.
      So at most that many fetches of the window can ever be useful. */
  lemma {:induction false} SuppliedIsConserved(c: Config, s: State, steps: seq<Step>, lo: nat, hi: nat)
    requires Runs(c, s, steps) && NeverPrunesAbove(c, s, steps, lo)
    ensures |Missing(c, End(c, s, steps), lo, hi)| + TotalSupplied(c, s, steps, lo, hi) == |Missing(c, s, lo, hi)|
    decreases |steps|
  {
    if steps != [] {
      StepSupplies(c, s, steps[0], lo, hi);
      SuppliedIsConserved(c, Next(c, s, steps[0]), steps[1..], lo, hi);
    }
  }
}
