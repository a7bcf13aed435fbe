/** `bufferChannel` and the counters of `getStatus` (internal/osmosis/rpc.go). Every subscription has a forwarding
    loop, which puts incoming events into its own bounded channel and drops them when it is full, and a
    consumer, which drains that channel. All loops share the counters, which telemetry reads and resets at
    any time. A step is one channel operation or one atomic operation; `setMaxValue` is its loads and its
    compare-and-swaps. */
module EventBuffer {
  import opened MachineInts

  /** Where a forwarding loop is with the event in hand. */
  datatype Forwarder<E> =
    | Ready
    | Received(event: E)
    | Counted(event: E)
    | Loading(event: E, len: nat)
    | Swapping(event: E, len: nat, loaded: nat)
    | Sending(event: E)

  /** One subscription; `size` is its channel's capacity. History: everything `received`; `kept[i]` says whether
      the i-th event dealt with was put into the channel; everything `delivered`; `peak` is the longest the queue
      has been. */
  datatype Lane<E> = Lane(
    size: nat, queue: seq<E>, forwarder: Forwarder<E>, received: seq<E>, kept: seq<bool>, delivered: seq<E>,
    peak: nat)

  datatype Telemetry = Resting | Holding(queueSize: nat)

  /** History: `reported` adds up the event totals that telemetry has published; `measured` is the largest queue
      length whose `setMaxValue` has returned. */
  datatype State<E> = State(
    lanes: seq<Lane<E>>, eventCounter: nat, skipCounter: nat, queueMaxSize: nat,
    maxQueueSize: nat, telemetry: Telemetry, reported: nat, measured: nat)

  datatype Action<E> = Receive(event: E) | Count | Measure | Load | CompareAndSwap | Send | Deliver

  datatype Step<E> = Act(lane: nat, action: Action<E>) | SwapQueueSize | StoreMaxQueueSize | SwapEvents

  predicate CanAct<E>(l: Lane<E>, action: Action<E>) {
    match action
    case Receive(_) => l.forwarder.Ready?
    case Count => l.forwarder.Received?
    case Measure => l.forwarder.Counted?
    case Load => l.forwarder.Loading?
    case CompareAndSwap => l.forwarder.Swapping?
    case Send => l.forwarder.Sending?
    case Deliver => l.queue != []
  }

  predicate Enabled<E>(s: State<E>, step: Step<E>) {
    match step
    case Act(i, action) => i < |s.lanes| && CanAct(s.lanes[i], action)
    case SwapQueueSize => s.telemetry.Resting?
    case StoreMaxQueueSize => s.telemetry.Holding?
    case SwapEvents => true
  }

  predicate Full<E>(l: Lane<E>) { |l.queue| >= l.size }

  /** The lane after one action; `shared` is the value of the shared maximum. */
  function Acted<E>(l: Lane<E>, action: Action<E>, shared: nat): Lane<E>
    requires CanAct(l, action)
  {
    match action
    case Receive(event) => l.(forwarder := Received(event), received := l.received + [event])
    case Count => l.(forwarder := Counted(l.forwarder.event))
    case Measure => l.(forwarder := Loading(l.forwarder.event, |l.queue|))
    case Load =>
      l.(forwarder := if shared >= l.forwarder.len then Sending(l.forwarder.event)
                      else Swapping(l.forwarder.event, l.forwarder.len, shared))
    case CompareAndSwap =>
      l.(forwarder := if shared == l.forwarder.loaded then Sending(l.forwarder.event)
                      else Loading(l.forwarder.event, l.forwarder.len))
    case Send =>
      if Full(l) then l.(forwarder := Ready, kept := l.kept + [false])
      else l.(forwarder := Ready, kept := l.kept + [true], queue := l.queue + [l.forwarder.event],
              peak := Max(l.peak, |l.queue| + 1))
    case Deliver => l.(queue := l.queue[1..], delivered := l.delivered + [l.queue[0]])
  }

  predicate Drops<E>(l: Lane<E>, action: Action<E>) { action.Send? && Full(l) }

  function Next<E>(s: State<E>, step: Step<E>): State<E>
    requires Enabled(s, step)
  {
    match step
    case Act(i, action) =>
      var l := s.lanes[i];
      s.(lanes := s.lanes[i := Acted(l, action, s.queueMaxSize)],
         eventCounter := if action.Count? then s.eventCounter + 1 else s.eventCounter,
         skipCounter := if Drops(l, action) then s.skipCounter + 1 else s.skipCounter,
         queueMaxSize := if action.CompareAndSwap? && s.queueMaxSize == l.forwarder.loaded then l.forwarder.len
                         else s.queueMaxSize,
         measured := if Acted(l, action, s.queueMaxSize).forwarder.Sending? && !l.forwarder.Sending?
                     then Max(s.measured, l.forwarder.len) else s.measured)
    case SwapQueueSize => s.(telemetry := Holding(s.queueMaxSize), queueMaxSize := 0)
    case StoreMaxQueueSize => s.(telemetry := Resting, maxQueueSize := Max(s.maxQueueSize, s.telemetry.queueSize))
    case SwapEvents => s.(reported := s.reported + s.eventCounter, eventCounter := 0)
  }

  function Opened<E>(sizes: seq<nat>): seq<Lane<E>> {
    seq(|sizes|, i requires 0 <= i < |sizes| => Lane(sizes[i], [], Ready, [], [], [], 0))
  }

  function Empty<E>(sizes: seq<nat>): State<E> { State(Opened(sizes), 0, 0, 0, 0, Resting, 0, 0) }

  predicate Runs<E>(s: State<E>, steps: seq<Step<E>>)
    decreases |steps|
  {
    steps == [] || (Enabled(s, steps[0]) && Runs(Next(s, steps[0]), steps[1..]))
  }

  function End<E>(s: State<E>, steps: seq<Step<E>>): State<E>
    requires Runs(s, steps)
    decreases |steps|
  {
    if steps == [] then s else End(Next(s, steps[0]), steps[1..])
  }

  // ----- One lane -----

  /** The events whose flag is set, in order: a subsequence of the first |flags| events. */
  function Filter<E>(events: seq<E>, flags: seq<bool>): seq<E>
    requires |flags| <= |events|
  {
    if flags == [] then []
    else
      var n := |flags| - 1;
      Filter(events, flags[..n]) + if flags[n] then [events[n]] else []
  }

  function Dropped(flags: seq<bool>): nat {
    if flags == [] then 0 else Dropped(flags[..|flags| - 1]) + if flags[|flags| - 1] then 0 else 1
  }

  function InHand<E>(l: Lane<E>): seq<E> { if l.forwarder.Ready? then [] else [l.forwarder.event] }

  /** What was delivered, followed by what is queued, is what was received with the dropped events left out, in
      order; the event in hand comes last. */
  ghost predicate Accounted<E>(l: Lane<E>) {
    && |l.received| == |l.kept| + |InHand(l)|
    && l.received[|l.kept|..] == InHand(l)
    && l.delivered + l.queue == Filter(l.received, l.kept)
  }

  /** Nothing measured exceeds the channel's capacity. */
  predicate Bounded<E>(l: Lane<E>, bound: nat) {
    && |l.queue| <= l.size <= bound
    && (l.forwarder.Loading? || l.forwarder.Swapping? ==> l.forwarder.len <= bound)
  }

  lemma {:induction false} FilterIgnoresRest<E>(events: seq<E>, more: seq<E>, flags: seq<bool>)
    requires |flags| <= |events|
    ensures Filter(events + more, flags) == Filter(events, flags)
  {
    if flags != [] {
      FilterIgnoresRest(events, more, flags[..|flags| - 1]);
    }
  }

  lemma {:induction false} FilterCounts<E>(events: seq<E>, flags: seq<bool>)
    requires |flags| <= |events|
    ensures |Filter(events, flags)| + Dropped(flags) == |flags|
  {
    if flags != [] {
      FilterCounts(events, flags[..|flags| - 1]);
    }
  }

  lemma OneMoreFlag<E>(events: seq<E>, flags: seq<bool>, keep: bool)
    requires |flags| < |events|
    ensures Filter(events, flags + [keep]) == Filter(events, flags) + if keep then [events[|flags|]] else []
    ensures Dropped(flags + [keep]) == Dropped(flags) + if keep then 0 else 1
  {
    assert (flags + [keep])[..|flags|] == flags;
  }

  lemma SendKeepsAccount<E>(l: Lane<E>, shared: nat)
    requires Accounted(l) && l.forwarder.Sending?
    ensures Accounted(Acted(l, Send, shared))
  {
    var n, event, keep := |l.kept|, l.forwarder.event, !Full(l);
    assert l.received[n] == event by { assert l.received[n..][0] == event; }
    OneMoreFlag(l.received, l.kept, keep);
    assert l.delivered + (l.queue + [event]) == (l.delivered + l.queue) + [event];
  }

  /** Every action of a lane keeps its account: nothing is lost, reordered, or delivered twice. */
  lemma ActionKeepsAccount<E>(l: Lane<E>, action: Action<E>, shared: nat)
    requires Accounted(l) && CanAct(l, action)
    ensures Accounted(Acted(l, action, shared))
  {
    match action
    case Receive(event) =>
      FilterIgnoresRest(l.received, [event], l.kept);
    case Send =>
      SendKeepsAccount(l, shared);
    case Deliver =>
      assert l.queue == [l.queue[0]] + l.queue[1..];
      assert (l.delivered + [l.queue[0]]) + l.queue[1..] == l.delivered + l.queue;
    case _ =>
  }

  // ----- All lanes together -----

  function Sum<E>(lanes: seq<Lane<E>>, f: Lane<E> -> nat): nat {
    if lanes == [] then 0 else Sum(lanes[..|lanes| - 1], f) + f(lanes[|lanes| - 1])
  }

  lemma {:induction false} SumUpdate<E>(lanes: seq<Lane<E>>, i: nat, l: Lane<E>, f: Lane<E> -> nat)
    requires i < |lanes|
    ensures Sum(lanes[i := l], f) + f(lanes[i]) == Sum(lanes, f) + f(l)
  {
    var n := |lanes| - 1;
    if i < n {
      assert lanes[i := l][..n] == lanes[..n][i := l];
      SumUpdate(lanes[..n], i, l, f);
    } else {
      assert lanes[i := l][..n] == lanes[..n];
    }
  }

  function ReceivedIn<E>(l: Lane<E>): nat { |l.received| }

  function DeliveredIn<E>(l: Lane<E>): nat { |l.delivered| }

  function QueuedIn<E>(l: Lane<E>): nat { |l.queue| }

  function DroppedIn<E>(l: Lane<E>): nat { Dropped(l.kept) }

  function InHandIn<E>(l: Lane<E>): nat { |InHand(l)| }

  /** Received but not yet counted. */
  function UncountedIn<E>(l: Lane<E>): nat { if l.forwarder.Received? then 1 else 0 }

  ghost predicate LanesInv<E>(lanes: seq<Lane<E>>, bound: nat) {
    forall i :: 0 <= i < |lanes| ==> Accounted(lanes[i]) && Bounded(lanes[i], bound)
  }

  predicate CountersInv<E>(s: State<E>) {
    && s.skipCounter == Sum(s.lanes, DroppedIn)
    && s.reported + s.eventCounter + Sum(s.lanes, UncountedIn) == Sum(s.lanes, ReceivedIn)
  }

  predicate SizesInv<E>(s: State<E>, bound: nat) {
    && s.queueMaxSize <= bound && s.maxQueueSize <= bound
    && (s.telemetry.Holding? ==> s.telemetry.queueSize <= bound)
  }

  function Held<E>(s: State<E>): nat { if s.telemetry.Holding? then s.telemetry.queueSize else 0 }

  /** The largest measured length is in one of three places: the live maximum, the one telemetry has swapped out,
      or the largest published one. */
  predicate MaximumInv<E>(s: State<E>) {
    && s.measured == Max(Max(s.queueMaxSize, Held(s)), s.maxQueueSize)
    && (forall i :: 0 <= i < |s.lanes| ==> Pending(s.lanes[i]) && Tracked(s.lanes[i], s.measured))
    && (s.measured == 0 || exists i :: 0 <= i < |s.lanes| && s.measured <= s.lanes[i].peak)
  }

  /** The queue is never longer than what has been measured, but for the event that was put in last. */
  predicate Tracked<E>(l: Lane<E>, measured: nat) {
    && |l.queue| <= l.peak <= measured + 1
    && (l.forwarder.Loading? || l.forwarder.Swapping? ==> |l.queue| <= l.forwarder.len <= l.peak)
    && (l.forwarder.Sending? ==> |l.queue| <= measured)
  }

  /** A swap is only tried for a larger length. */
  predicate Pending<E>(l: Lane<E>) { l.forwarder.Swapping? ==> l.forwarder.loaded < l.forwarder.len }

  ghost predicate Inv<E>(s: State<E>, bound: nat) {
    LanesInv(s.lanes, bound) && CountersInv(s) && SizesInv(s, bound) && MaximumInv(s)
  }

  lemma ActionCounts<E>(l: Lane<E>, action: Action<E>, shared: nat)
    requires Accounted(l) && CanAct(l, action)
    ensures var m := Acted(l, action, shared);
      && DroppedIn(m) == DroppedIn(l) + (if Drops(l, action) then 1 else 0)
      && (if action.Count? then 1 else 0) + UncountedIn(m) + ReceivedIn(l) == UncountedIn(l) + ReceivedIn(m)
  {
    if action.Send? {
      OneMoreFlag(l.received, l.kept, !Full(l));
    }
  }

  lemma ActionKeepsBound<E>(l: Lane<E>, action: Action<E>, shared: nat, bound: nat)
    requires Bounded(l, bound) && CanAct(l, action)
    ensures Bounded(Acted(l, action, shared), bound)
  {
  }

  lemma StepKeepsLanes<E>(s: State<E>, step: Step<E>, bound: nat)
    requires LanesInv(s.lanes, bound) && Enabled(s, step)
    ensures LanesInv(Next(s, step).lanes, bound)
  {
    if step.Act? {
      ActionKeepsAccount(s.lanes[step.lane], step.action, s.queueMaxSize);
      ActionKeepsBound(s.lanes[step.lane], step.action, s.queueMaxSize, bound);
    }
  }

  lemma StepKeepsCounters<E>(s: State<E>, step: Step<E>)
    requires CountersInv(s) && Enabled(s, step) && (step.Act? ==> Accounted(s.lanes[step.lane]))
    ensures CountersInv(Next(s, step))
  {
    if step.Act? {
      var i, l, m := step.lane, s.lanes[step.lane], Acted(s.lanes[step.lane], step.action, s.queueMaxSize);
      ActionCounts(l, step.action, s.queueMaxSize);
      SumUpdate(s.lanes, i, m, DroppedIn);
      SumUpdate(s.lanes, i, m, UncountedIn);
      SumUpdate(s.lanes, i, m, ReceivedIn);
    }
  }

  lemma StepKeepsMaximum<E>(s: State<E>, step: Step<E>)
    requires MaximumInv(s) && Enabled(s, step)
    ensures MaximumInv(Next(s, step))
  {
    var s' := Next(s, step);
    if step.Act? {
      var i, l := step.lane, s.lanes[step.lane];
      assert Pending(l) && Tracked(l, s.measured);
      ActionKeepsTrack(l, step.action, s.queueMaxSize, s.measured);
      forall k | 0 <= k < |s'.lanes| ensures Pending(s'.lanes[k]) && Tracked(s'.lanes[k], s'.measured) {
        if k != i {
          assert s'.lanes[k] == s.lanes[k] && Tracked(s.lanes[k], s.measured);
        }
      }
      if s'.measured != 0 {
        if s'.measured == s.measured {
          var k :| 0 <= k < |s.lanes| && s.measured <= s.lanes[k].peak;
          assert s.lanes[k].peak <= s'.lanes[k].peak;
        } else {
          assert s'.measured == l.forwarder.len <= s'.lanes[i].peak;
        }
      }
    }
  }

  function MeasuredAfter<E>(l: Lane<E>, action: Action<E>, shared: nat, measured: nat): nat
    requires CanAct(l, action)
  {
    if Acted(l, action, shared).forwarder.Sending? && !l.forwarder.Sending? then Max(measured, l.forwarder.len)
    else measured
  }

  lemma ActionKeepsTrack<E>(l: Lane<E>, action: Action<E>, shared: nat, measured: nat)
    requires CanAct(l, action) && Pending(l) && Tracked(l, measured)
    ensures Pending(Acted(l, action, shared))
    ensures Tracked(Acted(l, action, shared), MeasuredAfter(l, action, shared, measured))
    ensures l.peak <= Acted(l, action, shared).peak
  {
  }

  /** Every step of every loop, of every consumer and of telemetry keeps the account. */
  lemma StepKeepsInv<E>(s: State<E>, step: Step<E>, bound: nat)
    requires Inv(s, bound) && Enabled(s, step)
    ensures Inv(Next(s, step), bound)
  {
    StepKeepsLanes(s, step, bound);
    StepKeepsCounters(s, step);
    StepKeepsMaximum(s, step);
  }

  lemma {:induction false} RunKeepsInv<E>(s: State<E>, steps: seq<Step<E>>, bound: nat)
    requires Inv(s, bound) && Runs(s, steps)
    ensures Inv(End(s, steps), bound)
    ensures |End(s, steps).lanes| == |s.lanes|
    decreases |steps|
  {
    if steps != [] {
      StepKeepsInv(s, steps[0], bound);
      RunKeepsInv(Next(s, steps[0]), steps[1..], bound);
    }
  }

  lemma {:induction false} SumOfZeros<E>(lanes: seq<Lane<E>>, f: Lane<E> -> nat)
    requires forall i :: 0 <= i < |lanes| ==> f(lanes[i]) == 0
    ensures Sum(lanes, f) == 0
  {
    if lanes != [] {
      SumOfZeros(lanes[..|lanes| - 1], f);
    }
  }

  lemma EmptyInv<E>(sizes: seq<nat>, bound: nat)
    requires forall i :: 0 <= i < |sizes| ==> sizes[i] <= bound
    ensures Inv(Empty<E>(sizes), bound)
  {
    var lanes := Opened<E>(sizes);
    SumOfZeros(lanes, DroppedIn);
    SumOfZeros(lanes, UncountedIn);
    SumOfZeros(lanes, ReceivedIn);
  }

  lemma {:induction false} SumOfBalances<E>(lanes: seq<Lane<E>>)
    requires forall i :: 0 <= i < |lanes| ==> Accounted(lanes[i])
    ensures Sum(lanes, ReceivedIn)
      == Sum(lanes, DeliveredIn) + Sum(lanes, QueuedIn) + Sum(lanes, DroppedIn) + Sum(lanes, InHandIn)
  {
    if lanes != [] {
      var l := lanes[|lanes| - 1];
      SumOfBalances(lanes[..|lanes| - 1]);
      FilterCounts(l.received, l.kept);
    }
  }

  /** Conservation in every reachable state, for any number of subscriptions sharing the counters: per
      subscription, what was delivered, followed by what is queued, is what was received with the dropped
      events left out, in order; over all of them, every received event is delivered, queued, skipped or in
      hand; published totals plus the live counter account for every event that has been counted; and the
      largest queue length measured so far is the live maximum, the one telemetry holds or the largest
      published one; and the longest any queue has been is that length or one more. */
  lemma NothingIsLost<E>(sizes: seq<nat>, steps: seq<Step<E>>, bound: nat)
    requires Runs(Empty<E>(sizes), steps) && forall i :: 0 <= i < |sizes| ==> sizes[i] <= bound
    ensures var s := End(Empty<E>(sizes), steps);
      && |s.lanes| == |sizes|
      && (forall i :: 0 <= i < |sizes| ==> Accounted(s.lanes[i]))
      && Sum(s.lanes, ReceivedIn)
         == Sum(s.lanes, DeliveredIn) + Sum(s.lanes, QueuedIn) + s.skipCounter + Sum(s.lanes, InHandIn)
      && s.reported + s.eventCounter + Sum(s.lanes, UncountedIn) == Sum(s.lanes, ReceivedIn)
      && s.measured == Max(Max(s.queueMaxSize, Held(s)), s.maxQueueSize) <= bound
      && (forall i :: 0 <= i < |sizes| ==> s.lanes[i].peak <= s.measured + 1)
      && (s.measured == 0 || exists i :: 0 <= i < |sizes| && s.measured <= s.lanes[i].peak)
  {
    EmptyInv<E>(sizes, bound);
    RunKeepsInv(Empty<E>(sizes), steps, bound);
    SumOfBalances(End(Empty<E>(sizes), steps).lanes);
  }

  /** An event is dropped only at a send that finds the channel full, and a full channel always drops. */
  lemma DropsIffFull<E>(s: State<E>, step: Step<E>)
    requires Enabled(s, step)
    ensures Next(s, step).skipCounter > s.skipCounter <==>
      step.Act? && step.action.Send? && |s.lanes[step.lane].queue| >= s.lanes[step.lane].size
    ensures step.Act? ==>
      (Next(s, step).lanes[step.lane].kept == s.lanes[step.lane].kept + [false] <==>
       step.action.Send? && |s.lanes[step.lane].queue| >= s.lanes[step.lane].size)
  {
    if step.Act? && step.action.Send? {
      var kept := s.lanes[step.lane].kept;
      assert (kept + [true])[|kept|] != (kept + [false])[|kept|];
    }
  }
}
