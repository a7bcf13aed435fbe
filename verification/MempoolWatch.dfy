/** `Mempool` of internal/osmosis/rpc.go: polls the unconfirmed transactions and emits those it has not seen.
    A transaction is represented by its hash. */
module MempoolWatch {

  /** One poll: the query failed, or it returned these hashes. */
  datatype Poll = Failed | Hashes(txs: seq<string>)

  function SetOf(txs: seq<string>): set<string> { set x | x in txs }

  /** The new hashes of a poll, each once, in order of first occurrence. */
  function NewHashes(seen: set<string>, txs: seq<string>): seq<string> {
    if txs == [] then []
    else
      var init, last := txs[..|txs| - 1], txs[|txs| - 1];
      NewHashes(seen, init) + if last in seen || last in init then [] else [last]
  }

  /** A failed or an empty poll emits nothing and leaves the seen set alone. */
  predicate Effective(p: Poll) { p.Hashes? && p.txs != [] }

  class Watcher {
    var mempoolSet: set<string>

    constructor ()
      ensures mempoolSet == {}
    {
      mempoolSet := {};
    }

    method Mempool(poll: Poll) returns (txs: seq<string>, ok: bool)
      modifies this
      ensures ok <==> poll.Hashes?
      ensures txs == Emitted(old(mempoolSet), poll)
      ensures mempoolSet == After(old(mempoolSet), poll)
    {
      if poll.Failed? {
        return [], false;
      }
      if |poll.txs| == 0 {
        return [], true;
      }
      ghost var seen := mempoolSet;
      var currentSet: set<string> := {};
      txs := [];
      for i := 0 to |poll.txs|
        invariant currentSet == SetOf(poll.txs[..i])
        invariant mempoolSet == seen + currentSet
        invariant txs == NewHashes(seen, poll.txs[..i])
      {
        var hash := poll.txs[i];
        OneMoreHash(seen, poll.txs, i);
        currentSet := currentSet + {hash};
        if hash !in mempoolSet {
          mempoolSet := mempoolSet + {hash};
          txs := txs + [hash];
        }
        assert mempoolSet == seen + currentSet;
      }
      assert poll.txs[..|poll.txs|] == poll.txs;
      Forget(currentSet);
      ok := true;
    }

    /** Removes the hashes that the poll did not show. */
    method Forget(currentSet: set<string>)
      requires currentSet <= mempoolSet
      modifies this
      ensures mempoolSet == currentSet
    {
      var candidates := mempoolSet;
      while candidates != {}
        invariant candidates <= mempoolSet && currentSet <= mempoolSet
        invariant mempoolSet <= currentSet + candidates
        decreases candidates
      {
        var k :| k in candidates;
        candidates := candidates - {k};
        if k !in currentSet {
          mempoolSet := mempoolSet - {k};
        }
      }
    }
  }

  lemma OneMoreHash(seen: set<string>, txs: seq<string>, i: nat)
    requires i < |txs|
    ensures SetOf(txs[..i + 1]) == SetOf(txs[..i]) + {txs[i]}
    ensures NewHashes(seen, txs[..i + 1])
      == NewHashes(seen, txs[..i]) + if txs[i] in seen + SetOf(txs[..i]) then [] else [txs[i]]
  {
    assert txs[..i + 1] == txs[..i] + [txs[i]];
    assert txs[..i + 1][..i] == txs[..i];
  }

  function Emitted(seen: set<string>, poll: Poll): seq<string> {
    if Effective(poll) then NewHashes(seen, poll.txs) else []
  }

  function After(seen: set<string>, poll: Poll): set<string> {
    if Effective(poll) then SetOf(poll.txs) else seen
  }

  function SeenAfter(polls: seq<Poll>): set<string> {
    if polls == [] then {} else After(SeenAfter(polls[..|polls| - 1]), polls[|polls| - 1])
  }

  /** Everything emitted over a sequence of polls. */
  function AllEmitted(polls: seq<Poll>): seq<string> {
    if polls == [] then []
    else
      var n := |polls| - 1;
      AllEmitted(polls[..n]) + Emitted(SeenAfter(polls[..n]), polls[n])
  }

  // ----- The specification, without any state -----

  /** The polls that returned something. */
  function EffectiveSets(polls: seq<Poll>): seq<set<string>> {
    if polls == [] then []
    else
      var n := |polls| - 1;
      EffectiveSets(polls[..n]) + Effect(polls[n])
  }

  function Effect(poll: Poll): seq<set<string>> { if Effective(poll) then [SetOf(poll.txs)] else [] }

  /** How often a hash goes from absent to present between consecutive sets, starting from absent. */
  function RisingEdges(sets: seq<set<string>>, x: string): nat {
    if sets == [] then 0
    else
      var n := |sets| - 1;
      RisingEdges(sets[..n], x) + if x in sets[n] && (n == 0 || x !in sets[n - 1]) then 1 else 0
  }

  /** The seen set is the last non-empty successful poll. */
  lemma {:induction false} SeenIsLastPoll(polls: seq<Poll>)
    ensures var sets := EffectiveSets(polls);
      SeenAfter(polls) == if sets == [] then {} else sets[|sets| - 1]
  {
    if polls != [] {
      SeenIsLastPoll(polls[..|polls| - 1]);
    }
  }

  lemma {:induction false} EmittedOnce(seen: set<string>, txs: seq<string>, x: string)
    ensures multiset(NewHashes(seen, txs))[x] == if x in txs && x !in seen then 1 else 0
  {
    if txs != [] {
      var init, last := txs[..|txs| - 1], txs[|txs| - 1];
      EmittedOnce(seen, init, x);
      assert txs == init + [last];
    }
  }

  lemma OneMoreEdge(sets: seq<set<string>>, next: set<string>, x: string)
    ensures RisingEdges(sets + [next], x) - RisingEdges(sets, x)
      == if x in next && (sets == [] || x !in sets[|sets| - 1]) then 1 else 0
  {
    assert (sets + [next])[..|sets|] == sets;
  }

  /** One more poll emits each hash as often as it adds a rising edge. */
  lemma EmittedIsRisingEdge(seen: set<string>, sets: seq<set<string>>, poll: Poll, x: string)
    requires seen == if sets == [] then {} else sets[|sets| - 1]
    ensures multiset(Emitted(seen, poll))[x] == RisingEdges(sets + Effect(poll), x) - RisingEdges(sets, x)
  {
    if Effective(poll) {
      EmittedOnce(seen, poll.txs, x);
      OneMoreEdge(sets, SetOf(poll.txs), x);
    } else {
      assert sets + [] == sets;
    }
  }

  /** Over any sequence of polls, failed and empty ones included, each hash is emitted exactly as often as it
      goes from absent to present between consecutive non-empty successful polls; duplicates within a
      poll are emitted once. */
  lemma {:induction false} EmissionsAreRisingEdges(polls: seq<Poll>, x: string)
    ensures multiset(AllEmitted(polls))[x] == RisingEdges(EffectiveSets(polls), x)
  {
    if polls != [] {
      var init, poll := polls[..|polls| - 1], polls[|polls| - 1];
      EmissionsAreRisingEdges(init, x);
      SeenIsLastPoll(init);
      EmittedIsRisingEdge(SeenAfter(init), EffectiveSets(init), poll, x);
    }
  }
}
