/** `setMaxValue` of internal/indexer/pool.go (and its twin in internal/osmosis/rpc.go): a load and
    compare-and-swap loop, run by any number of threads at once on one atomic value. A step is one load or
    one compare-and-swap of one thread. */
module AtomicMax {
  import opened MachineInts

  /** Where a thread is: about to load; loaded a smaller value and about to swap; returned a value. */
  datatype Control = Loading | Swapping(loaded: nat) | Returned(previous: nat)

  /** `failures` counts the thread's failed swaps, `won` says that it swapped successfully, and `seen` is the
      number of successful swaps of all threads at its last load. */
  datatype Thread = Thread(arg: nat, control: Control, failures: nat, won: bool, seen: nat)

  /** `order` (history) lists the threads in the order in which they took effect: at the successful swap, or
      at the load that found a value at least as large. `swaps` counts the successful swaps so far. */
  datatype State = State(value: nat, threads: seq<Thread>, order: seq<nat>, swaps: nat)

  function Load(s: State, i: nat): State
    requires i < |s.threads| && s.threads[i].control.Loading?
  {
    var t := s.threads[i];
    if s.value >= t.arg
    then s.(threads := s.threads[i := t.(control := Returned(s.value))], order := s.order + [i])
    else s.(threads := s.threads[i := t.(control := Swapping(s.value), seen := s.swaps)])
  }

  function CompareAndSwap(s: State, i: nat): State
    requires i < |s.threads| && s.threads[i].control.Swapping?
  {
    var t := s.threads[i];
    if s.value == t.control.loaded
    then State(t.arg, s.threads[i := t.(control := Returned(t.control.loaded), won := true)], s.order + [i], s.swaps + 1)
    else s.(threads := s.threads[i := t.(control := Loading, failures := t.failures + 1)])
  }

  predicate Enabled(s: State, i: nat) {
    i < |s.threads| && !s.threads[i].control.Returned?
  }

  function Step(s: State, i: nat): State
    requires Enabled(s, i)
  {
    if s.threads[i].control.Loading? then Load(s, i) else CompareAndSwap(s, i)
  }

  function Start(initial: nat, args: seq<nat>): State {
    State(initial, seq(|args|, i requires 0 <= i < |args| => Thread(args[i], Loading, 0, false, 0)), [], 0)
  }

  /** A run is a schedule: which thread moves at each step. */
  predicate Runs(s: State, schedule: seq<nat>)
    decreases |schedule|
  {
    schedule == [] || (Enabled(s, schedule[0]) && Runs(Step(s, schedule[0]), schedule[1..]))
  }

  function End(s: State, schedule: seq<nat>): State
    requires Runs(s, schedule)
    decreases |schedule|
  {
    if schedule == [] then s else End(Step(s, schedule[0]), schedule[1..])
  }

  // ----- The sequential specification -----

  /** The value after atomic max operations with the given arguments, one after the other. */
  function MaxAfter(initial: nat, args: seq<nat>): nat {
    if args == [] then initial else Max(MaxAfter(initial, args[..|args| - 1]), args[|args| - 1])
  }

  lemma {:induction false} MaxAfterIsMax(initial: nat, args: seq<nat>)
    ensures MaxAfter(initial, args) >= initial
    ensures forall a :: a in args ==> a <= MaxAfter(initial, args)
    ensures MaxAfter(initial, args) == initial || MaxAfter(initial, args) in args
  {
    if args != [] {
      assert args == args[..|args| - 1] + [args[|args| - 1]];
      MaxAfterIsMax(initial, args[..|args| - 1]);
    }
  }

  predicate ThreadIds(s: State) {
    forall k :: 0 <= k < |s.order| ==> s.order[k] < |s.threads|
  }

  function ArgsOf(s: State): seq<nat>
    requires ThreadIds(s)
  {
    seq(|s.order|, k requires 0 <= k < |s.order| => s.threads[s.order[k]].arg)
  }

  // ----- The invariant -----

  /** Each thread takes effect at most once, exactly when it returns. */
  ghost predicate OrderIsPermutationOfReturned(s: State) {
    && ThreadIds(s)
    && (forall j, k :: 0 <= j < k < |s.order| ==> s.order[j] != s.order[k])
    && (forall i :: 0 <= i < |s.threads| ==> (s.threads[i].control.Returned? <==> i in s.order))
  }

  /** The value and every returned old value are those of the sequential specification run in `order`. */
  ghost predicate Linearized(initial: nat, s: State)
    requires ThreadIds(s)
  {
    var args := ArgsOf(s);
    && s.value == MaxAfter(initial, args)
    && forall k :: 0 <= k < |s.order| ==>
      s.threads[s.order[k]].control == Returned(MaxAfter(initial, args[..k]))
  }

  /** A thread about to swap holds a value below its argument and not above the current one. */
  predicate Pending(s: State, i: nat)
    requires i < |s.threads|
  {
    match s.threads[i].control
    case Swapping(loaded) => loaded < s.threads[i].arg && loaded <= s.value
    case _ => true
  }

  ghost predicate Inv(initial: nat, s: State) {
    && OrderIsPermutationOfReturned(s)
    && Linearized(initial, s)
    && forall i :: 0 <= i < |s.threads| ==> Pending(s, i)
  }

  lemma StartInv(initial: nat, args: seq<nat>)
    ensures Inv(initial, Start(initial, args))
  {
  }

  /** Thread `i` alone changes, from `s` to `s'`. */
  predicate OnlyChanges(s: State, i: nat, s': State) {
    && i < |s.threads| == |s'.threads|
    && s'.threads[i].arg == s.threads[i].arg
    && forall j :: 0 <= j < |s.threads| && j != i ==> s'.threads[j] == s.threads[j]
  }

  lemma EffectKeepsOrder(s: State, i: nat, s': State)
    requires OrderIsPermutationOfReturned(s) && OnlyChanges(s, i, s') && i !in s.order
    requires s'.order == s.order + [i] && s'.threads[i].control.Returned?
    ensures OrderIsPermutationOfReturned(s')
    ensures ArgsOf(s') == ArgsOf(s) + [s.threads[i].arg]
  {
    assert forall k :: 0 <= k < |s.order| ==> s.order[k] in s.order;
  }

  /** Taking effect appends one operation to the history. */
  lemma TakesEffect(initial: nat, s: State, i: nat, s': State)
    requires Inv(initial, s) && OnlyChanges(s, i, s') && i !in s.order
    requires s'.order == s.order + [i] && s'.threads[i].control == Returned(s.value)
    requires s'.value == Max(s.value, s.threads[i].arg)
    ensures OrderIsPermutationOfReturned(s') && Linearized(initial, s')
  {
    EffectKeepsOrder(s, i, s');
    var args, args' := ArgsOf(s), ArgsOf(s');
    assert args'[..|args|] == args;
    forall k | 0 <= k < |s'.order|
      ensures s'.threads[s'.order[k]].control == Returned(MaxAfter(initial, args'[..k]))
    {
      if k < |args| {
        assert args'[..k] == args[..k] && s.order[k] in s.order;
      }
    }
  }

  /** A step that does not take effect leaves the history alone. */
  lemma NoEffect(initial: nat, s: State, i: nat, s': State)
    requires Inv(initial, s) && OnlyChanges(s, i, s') && i !in s.order
    requires s'.order == s.order && s'.value == s.value && !s'.threads[i].control.Returned?
    ensures OrderIsPermutationOfReturned(s') && Linearized(initial, s')
  {
    SameOrder(s, i, s');
    forall k | 0 <= k < |s'.order|
      ensures s'.threads[s'.order[k]].control == Returned(MaxAfter(initial, ArgsOf(s')[..k]))
    {
      assert s.order[k] in s.order;
    }
  }

  lemma SameOrder(s: State, i: nat, s': State)
    requires OrderIsPermutationOfReturned(s) && OnlyChanges(s, i, s') && i !in s.order
    requires s'.order == s.order && !s'.threads[i].control.Returned?
    ensures OrderIsPermutationOfReturned(s') && ArgsOf(s') == ArgsOf(s)
  {
    assert forall k :: 0 <= k < |s.order| ==> s.order[k] in s.order;
  }

  /** What one step does: it takes effect or leaves the history alone. */
  lemma StepShape(s: State, i: nat)
    requires Enabled(s, i) && Pending(s, i)
    ensures var s' := Step(s, i);
      && OnlyChanges(s, i, s') && s.value <= s'.value && Pending(s', i)
      && if s'.threads[i].control.Returned?
         then s'.order == s.order + [i] && s'.threads[i].control == Returned(s.value)
              && s'.value == Max(s.value, s.threads[i].arg)
         else s'.order == s.order && s'.value == s.value
  {
  }

  lemma PendingStays(s: State, i: nat, s': State, j: nat)
    requires OnlyChanges(s, i, s') && s.value <= s'.value && j < |s.threads| && j != i && Pending(s, j)
    ensures Pending(s', j)
  {
  }

  lemma StepInv(initial: nat, s: State, i: nat)
    requires Inv(initial, s) && Enabled(s, i)
    ensures Inv(initial, Step(s, i))
    ensures s.value <= Step(s, i).value
  {
    var s' := Step(s, i);
    StepShape(s, i);
    if s'.threads[i].control.Returned? {
      TakesEffect(initial, s, i, s');
    } else {
      NoEffect(initial, s, i, s');
    }
    forall j | 0 <= j < |s'.threads| && j != i ensures Pending(s', j) {
      PendingStays(s, i, s', j);
    }
  }

  /** The value never falls, and the history stays linearizable, along every run. */
  lemma {:induction false} RunInv(initial: nat, s: State, schedule: seq<nat>)
    requires Inv(initial, s) && Runs(s, schedule)
    ensures Inv(initial, End(s, schedule)) && s.value <= End(s, schedule).value
    decreases |schedule|
  {
    if schedule != [] {
      StepInv(initial, s, schedule[0]);
      RunInv(initial, Step(s, schedule[0]), schedule[1..]);
    }
  }

  function Args(s: State): seq<nat> {
    seq(|s.threads|, i requires 0 <= i < |s.threads| => s.threads[i].arg)
  }

  /** Arguments never change, and the history only grows: a thread that returned before another one took
      its first step stays before it in the order. */
  lemma {:induction false} RunKeepsArgs(s: State, schedule: seq<nat>)
    requires Runs(s, schedule)
    ensures Args(End(s, schedule)) == Args(s)
    ensures s.order <= End(s, schedule).order
    decreases |schedule|
  {
    if schedule != [] {
      assert Args(Step(s, schedule[0])) == Args(s);
      RunKeepsArgs(Step(s, schedule[0]), schedule[1..]);
    }
  }

  predicate AllReturned(s: State) {
    forall i :: 0 <= i < |s.threads| ==> s.threads[i].control.Returned?
  }

  /** Linearizability of complete runs: whatever the interleaving, there is an order in which every thread
      occurs exactly once, such that each returned old value is the maximum of the initial value and the
      arguments before it, and the final value is the maximum of the initial value and all arguments. */
  lemma CompleteRunIsAtomicMax(initial: nat, args: seq<nat>, schedule: seq<nat>)
    requires Runs(Start(initial, args), schedule) && AllReturned(End(Start(initial, args), schedule))
    ensures var s := End(Start(initial, args), schedule);
      && |s.threads| == |args| && OrderIsPermutationOfReturned(s) && (forall i :: 0 <= i < |args| ==> i in s.order)
      && Linearized(initial, s)
      && s.value >= initial && (forall a :: a in args ==> a <= s.value)
      && (s.value == initial || s.value in args)
  {
    StartInv(initial, args);
    RunInv(initial, Start(initial, args), schedule);
    RunKeepsArgs(Start(initial, args), schedule);
    assert Args(Start(initial, args)) == args;
    FinalValue(initial, args, End(Start(initial, args), schedule));
  }

  lemma FinalValue(initial: nat, args: seq<nat>, s: State)
    requires Inv(initial, s) && AllReturned(s) && Args(s) == args
    ensures s.value >= initial && (forall a :: a in args ==> a <= s.value)
    ensures s.value == initial || s.value in args
  {
    var ordered := ArgsOf(s);
    MaxAfterIsMax(initial, ordered);
    forall i | 0 <= i < |args| ensures args[i] <= s.value {
      assert args[i] == s.threads[i].arg;
      assert s.threads[i].control.Returned?;
      var k :| 0 <= k < |s.order| && s.order[k] == i;
      assert ordered[k] in ordered;
    }
    if s.value != initial {
      var k :| 0 <= k < |ordered| && ordered[k] == s.value;
      assert args[s.order[k]] == Args(s)[s.order[k]] == s.value;
    }
  }

  // ----- Progress -----

  function Wins(threads: seq<Thread>): nat {
    if threads == [] then 0
    else Wins(threads[..|threads| - 1]) + if threads[|threads| - 1].won then 1 else 0
  }

  lemma {:induction false} WinsUpdate(threads: seq<Thread>, i: nat, t: Thread)
    requires i < |threads|
    ensures Wins(threads[i := t]) + (if threads[i].won then 1 else 0) == Wins(threads) + (if t.won then 1 else 0)
  {
    var n := |threads| - 1;
    if i < n {
      assert threads[i := t][..n] == threads[..n][i := t];
      WinsUpdate(threads[..n], i, t);
    } else {
      assert threads[i := t][..n] == threads[..n];
    }
  }

  /** A thread's failures never exceed the successful swaps of the others: every failure was caused by a
      success after its last load. */
  predicate Fair(s: State, i: nat)
    requires i < |s.threads|
  {
    var t := s.threads[i];
    match t.control
    case Loading => !t.won && t.failures <= s.swaps
    case Swapping(loaded) =>
      && !t.won && loaded < t.arg && t.failures <= t.seen <= s.swaps
      && loaded <= s.value && (loaded == s.value <==> t.seen == s.swaps)
    case Returned(_) => t.failures + (if t.won then 1 else 0) <= s.swaps
  }

  ghost predicate Progress(s: State) {
    s.swaps == Wins(s.threads) && forall i :: 0 <= i < |s.threads| ==> Fair(s, i)
  }

  lemma StepProgress(s: State, i: nat)
    requires Progress(s) && Enabled(s, i)
    ensures Progress(Step(s, i))
  {
    var s' := Step(s, i);
    assert Fair(s, i);
    WinsUpdate(s.threads, i, s'.threads[i]);
    assert s'.threads == s.threads[i := s'.threads[i]];
    forall j | 0 <= j < |s'.threads| ensures Fair(s', j) {
      assert Fair(s, j);
    }
  }

  lemma {:induction false} NoWins(threads: seq<Thread>)
    requires forall i :: 0 <= i < |threads| ==> !threads[i].won
    ensures Wins(threads) == 0
  {
    if threads != [] {
      NoWins(threads[..|threads| - 1]);
    }
  }

  lemma {:induction false} RunProgress(s: State, schedule: seq<nat>)
    requires Progress(s) && Runs(s, schedule)
    ensures Progress(End(s, schedule))
    decreases |schedule|
  {
    if schedule != [] {
      StepProgress(s, schedule[0]);
      RunProgress(Step(s, schedule[0]), schedule[1..]);
    }
  }

  /** In every reachable state, each thread has failed at most as often as the other threads have won. */
  lemma FailuresAreOthersWins(initial: nat, args: seq<nat>, schedule: seq<nat>, i: nat)
    requires Runs(Start(initial, args), schedule) && i < |End(Start(initial, args), schedule).threads|
    ensures var s := End(Start(initial, args), schedule);
      s.threads[i].failures <= Wins(s.threads[i := s.threads[i].(won := false)])
  {
    var start := Start(initial, args);
    NoWins(start.threads);
    RunProgress(start, schedule);
    var s := End(start, schedule);
    assert Fair(s, i);
    WinsUpdate(s.threads, i, s.threads[i].(won := false));
  }

  /** What one thread can still cost, among `n` threads: a stale swap will fail, a fresh one may win. */
  function Cost(value: nat, t: Thread, n: nat): nat {
    match t.control
    case Loading => 2 * n + 2
    case Swapping(loaded) => if loaded == value then 2 * n + 1 else 2 * n + 3
    case Returned(_) => 0
  }

  function Potential(value: nat, threads: seq<Thread>, n: nat): nat {
    if threads == [] then 0
    else Potential(value, threads[..|threads| - 1], n) + Cost(value, threads[|threads| - 1], n)
  }

  /** If every thread's cost rises by at most `rise`, the sum rises by at most that for each. */
  lemma {:induction false} PotentialRise(v: nat, ts: seq<Thread>, v': nat, ts': seq<Thread>, n: nat, rise: nat)
    requires |ts| == |ts'|
    requires forall j :: 0 <= j < |ts| ==> Cost(v', ts'[j], n) <= Cost(v, ts[j], n) + rise
    ensures Potential(v', ts', n) <= Potential(v, ts, n) + |ts| * rise
  {
    if ts != [] {
      var k := |ts| - 1;
      PotentialRise(v, ts[..k], v', ts'[..k], n, rise);
      OneMoreTimes(k, rise);
    }
  }

  lemma OneMoreTimes(k: nat, rise: nat)
    ensures (k + 1) * rise == k * rise + rise
  {
  }

  /** If thread `i` pays `paid` and every other thread's cost rises by at most `rise`, so does the sum. */
  lemma {:induction false} PotentialChange(v: nat, ts: seq<Thread>, v': nat, ts': seq<Thread>, n: nat, i: nat, paid: nat, rise: nat)
    requires i < |ts| == |ts'|
    requires forall j :: 0 <= j < |ts| && j != i ==> Cost(v', ts'[j], n) <= Cost(v, ts[j], n) + rise
    requires Cost(v', ts'[i], n) + paid <= Cost(v, ts[i], n)
    ensures Potential(v', ts', n) + paid <= Potential(v, ts, n) + (|ts| - 1) * rise
  {
    var k := |ts| - 1;
    if i == k {
      PotentialRise(v, ts[..k], v', ts'[..k], n, rise);
    } else {
      PotentialChange(v, ts[..k], v', ts'[..k], n, i, paid, rise);
      OneMoreTimes(k - 1, rise);
    }
  }

  /** Every step of every thread uses up potential, whoever wins. */
  lemma StepUsesPotential(s: State, i: nat)
    requires Progress(s) && Enabled(s, i)
    ensures Potential(Step(s, i).value, Step(s, i).threads, |s.threads|) < Potential(s.value, s.threads, |s.threads|)
  {
    var s', n := Step(s, i), |s.threads|;
    assert Fair(s, i);
    var wins := s'.swaps > s.swaps;
    PotentialChange(s.value, s.threads, s'.value, s'.threads, n, i, if wins then 2 * n + 1 else 1, if wins then 2 else 0);
  }

  lemma {:induction false} StartPotential(value: nat, threads: seq<Thread>, n: nat)
    requires forall i :: 0 <= i < |threads| ==> threads[i].control.Loading?
    ensures Potential(value, threads, n) == |threads| * (2 * n + 2)
  {
    if threads != [] {
      var k := |threads| - 1;
      StartPotential(value, threads[..k], n);
      assert |threads| * (2 * n + 2) == k * (2 * n + 2) + (2 * n + 2);
    }
  }

  lemma {:induction false} RunUsesPotential(s: State, schedule: seq<nat>)
    requires Progress(s) && Runs(s, schedule)
    ensures |schedule| <= Potential(s.value, s.threads, |s.threads|)
    decreases |schedule|
  {
    if schedule != [] {
      StepProgress(s, schedule[0]);
      StepUsesPotential(s, schedule[0]);
      RunUsesPotential(Step(s, schedule[0]), schedule[1..]);
    }
  }

  /** The loops terminate under every scheduler: n threads take at most n(2n + 2) steps altogether. */
  lemma EveryRunEnds(initial: nat, args: seq<nat>, schedule: seq<nat>)
    requires Runs(Start(initial, args), schedule)
    ensures |schedule| <= |args| * (2 * |args| + 2)
  {
    var start := Start(initial, args);
    NoWins(start.threads);
    StartPotential(initial, start.threads, |args|);
    RunUsesPotential(start, schedule);
  }
}
