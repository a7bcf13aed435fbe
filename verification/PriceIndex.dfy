/** The price index of internal/indexer/prices.go: `PriceMap`, its agreement with a plain map keyed by
    name and time stamp, and reloading it from the database. */
module PriceIndex {
  import opened PriceArrays
  import opened Types
  import Sorting

  type Prices = map<string, seq<TokenPrice>>

  predicate ValidPrices(m: Prices) {
    forall n :: n in m ==> StrictlySorted(m[n]) && forall p :: p in m[n] ==> p.name == n
  }

  function ArrayOf(m: Prices, name: string): seq<TokenPrice> {
    if name in m then m[name] else []
  }

  /** The index after one Set. */
  function SetIn(m: Prices, p: TokenPrice): Prices {
    m[p.name := Upsert(ArrayOf(m, p.name), p)]
  }

  lemma SetInIsValid(m: Prices, p: TokenPrice)
    requires ValidPrices(m)
    ensures ValidPrices(SetIn(m, p))
  {
    var arr := ArrayOf(m, p.name);
    UpsertIsSorted(arr, p);
    forall q | q in Upsert(arr, p) ensures q.name == p.name {
      UpsertMembers(arr, p, q);
    }
  }

  class PriceMap {
    var prices: Prices

    ghost predicate Valid()
      reads this
    {
      ValidPrices(prices)
    }

    constructor ()
      ensures Valid() && prices == map[]
    {
      prices := map[];
    }

    /** Adds or overwrites a price; reports whether the array needs sorting, which it never does. */
    method Set(price: TokenPrice) returns (needSort: bool)
      requires Valid()
      modifies this
      ensures Valid() && prices == SetIn(old(prices), price) && !needSort
    {
      SetInIsValid(prices, price);
      var arr := if price.name in prices then prices[price.name] else [];
      var index, found := PriceArrays.BinarySearch(arr, price);
      if found {
        prices := prices[price.name := arr[index := price]];
        return false;
      }
      if index == |arr| {
        arr := arr + [price];
      } else {
        arr := arr[..index] + [price] + arr[index..];
      }
      assert arr == Upsert(ArrayOf(prices, price.name), price);
      prices := prices[price.name := arr];
      return false;
    }

    method Nearest(timestamp: int, name: string) returns (r: seq<TokenPrice>)
      requires Valid()
      ensures r == NearestOf(ArrayOf(prices, name), timestamp)
      ensures IsNearest(ArrayOf(prices, name), timestamp, r)
    {
      if name !in prices {
        NearestMeetsSpec([], timestamp);
        return [];
      }
      r := NearestIn(prices[name], timestamp, name);
      NearestMeetsSpec(prices[name], timestamp);
    }

    /** The part of the lookup that works on the token's array. */
    method NearestIn(arr: seq<TokenPrice>, timestamp: int, name: string) returns (r: seq<TokenPrice>)
      requires StrictlySorted(arr)
      ensures r == NearestOf(arr, timestamp)
    {
      if |arr| == 0 {
        return [];
      }
      var index, found := PriceArrays.BinarySearch(arr, TokenPrice(timestamp, 0.0, name, ""));
      if index == 0 || found {
        return [arr[index]];
      }
      var n := |arr|;
      if index >= n {
        return [arr[n - 1]];
      }
      return [arr[index - 1], arr[index]];
    }

    method Estimate(lastUpdated: int, denom: string) returns (e: Estimation)
      requires Valid()
      ensures e == EstimateOf(ArrayOf(prices, denom), lastUpdated)
    {
      var ps := Nearest(lastUpdated, denom);
      e := EstimateFrom(ps, lastUpdated);
    }

    /** Sorting a token's array changes nothing, whichever sort the library uses. */
    method SortToken(denom: string)
      requires Valid()
      modifies this
      ensures Valid() && prices == old(prices)
    {
      if denom !in prices {
        return;
      }
      var arr := prices[denom];
      var key := (p: TokenPrice) => p.lastUpdated;
      var sorted := Sorting.SortFunc(arr, Compare, key);
      Sorting.SortIsUnique(arr, sorted, key);
      prices := prices[denom := sorted];
    }

    method Sort()
      requires Valid()
      modifies this
      ensures Valid() && prices == old(prices)
    {
      var names := prices.Keys;
      while names != {}
        invariant Valid() && prices == old(prices)
        decreases names
      {
        var name :| name in names;
        SortToken(name);
        names := names - {name};
      }
    }

    /** Loads the rows of a range query, in whatever order the database returns them. */
    method PreHeat(rows: seq<TokenPrice>)
      requires Valid()
      modifies this
      ensures Valid() && prices == SetAll(old(prices), rows)
    {
      for i := 0 to |rows|
        invariant Valid() && prices == SetAll(old(prices), rows[..i])
      {
        assert rows[..i + 1][..i] == rows[..i];
        var _ := Set(rows[i]);
      }
      assert rows[..|rows|] == rows;
      Sort();
    }
  }

  // ----- Agreement with a plain map keyed by (name, time stamp) -----

  function SetAll(m: Prices, ps: seq<TokenPrice>): Prices {
    if ps == [] then m else SetIn(SetAll(m, ps[..|ps| - 1]), ps[|ps| - 1])
  }

  /** The last price written under a name and time stamp. */
  function LastWrite(ps: seq<TokenPrice>, name: string, t: int): Option<TokenPrice> {
    if ps == [] then None
    else if ps[|ps| - 1].name == name && ps[|ps| - 1].lastUpdated == t then Some(ps[|ps| - 1])
    else LastWrite(ps[..|ps| - 1], name, t)
  }

  /** The entry of the index under a name and time stamp. */
  function Cell(m: Prices, name: string, t: int): Option<TokenPrice> {
    var v := View(ArrayOf(m, name));
    if t in v then Some(v[t]) else None
  }

  lemma CellAfterSet(m: Prices, p: TokenPrice, name: string, t: int)
    requires ValidPrices(m)
    ensures Cell(SetIn(m, p), name, t) ==
      if p.name == name && p.lastUpdated == t then Some(p) else Cell(m, name, t)
  {
    UpsertIsMapUpdate(ArrayOf(m, p.name), p);
  }

  /** After any sequence of writes, every entry of the index is the last write under its name and time
      stamp, or what was there before if there was none. */
  lemma {:induction false} LastWriteWins(m: Prices, ps: seq<TokenPrice>, name: string, t: int)
    requires ValidPrices(m)
    ensures ValidPrices(SetAll(m, ps))
    ensures Cell(SetAll(m, ps), name, t) ==
      if LastWrite(ps, name, t).Some? then LastWrite(ps, name, t) else Cell(m, name, t)
  {
    if ps != [] {
      var init, p := ps[..|ps| - 1], ps[|ps| - 1];
      LastWriteWins(m, init, name, t);
      SetInIsValid(SetAll(m, init), p);
      CellAfterSet(SetAll(m, init), p, name, t);
    }
  }

  predicate Mentions(ps: seq<TokenPrice>, name: string) {
    exists i :: 0 <= i < |ps| && ps[i].name == name
  }

  lemma {:induction false} NamesWritten(ps: seq<TokenPrice>, name: string)
    ensures name in SetAll(map[], ps) <==> Mentions(ps, name)
  {
    if ps != [] {
      var n := |ps| - 1;
      var init := ps[..n];
      NamesWritten(init, name);
      assert name in SetIn(SetAll(map[], init), ps[n]) <==> name in SetAll(map[], init) || name == ps[n].name;
      MentionsOneMore(ps, name);
    }
  }

  lemma MentionsOneMore(ps: seq<TokenPrice>, name: string)
    requires ps != []
    ensures Mentions(ps, name) <==> Mentions(ps[..|ps| - 1], name) || ps[|ps| - 1].name == name
  {
    assert forall i :: 0 <= i < |ps| - 1 ==> ps[i] == ps[..|ps| - 1][i];
  }

  lemma {:induction false} LastWriteIsWritten(ps: seq<TokenPrice>, name: string, t: int)
    ensures match LastWrite(ps, name, t)
      case Some(p) => p in ps && p.name == name && p.lastUpdated == t
      case None => forall p :: p in ps ==> p.name != name || p.lastUpdated != t
  {
    if ps != [] {
      assert ps == ps[..|ps| - 1] + [ps[|ps| - 1]];
      LastWriteIsWritten(ps[..|ps| - 1], name, t);
    }
  }

  lemma SameCellsSameArray(m: Prices, m': Prices, name: string)
    requires ValidPrices(m) && ValidPrices(m')
    requires forall t :: Cell(m, name, t) == Cell(m', name, t)
    ensures ArrayOf(m, name) == ArrayOf(m', name)
  {
    var v, v' := View(ArrayOf(m, name)), View(ArrayOf(m', name));
    forall t ensures t in v <==> t in v' ensures t in v ==> v[t] == v'[t] {
      assert Cell(m, name, t) == Cell(m', name, t);
    }
    assert v == v';
    ViewIsCanonical(ArrayOf(m, name), ArrayOf(m', name));
  }

  lemma NamesFromLastWrites(ps: seq<TokenPrice>, qs: seq<TokenPrice>, name: string)
    requires forall t :: LastWrite(ps, name, t) == LastWrite(qs, name, t)
    ensures Mentions(ps, name) ==> Mentions(qs, name)
  {
    if i :| 0 <= i < |ps| && ps[i].name == name {
      var t := ps[i].lastUpdated;
      LastWriteIsWritten(ps, name, t);
      LastWriteIsWritten(qs, name, t);
      assert LastWrite(ps, name, t) == LastWrite(qs, name, t);
    }
  }

  lemma CellIsLastWrite(ps: seq<TokenPrice>, name: string, t: int)
    ensures ValidPrices(SetAll(map[], ps))
    ensures Cell(SetAll(map[], ps), name, t) == LastWrite(ps, name, t)
  {
    LastWriteWins(map[], ps, name, t);
  }

  lemma SameLastWritesSameArray(ps: seq<TokenPrice>, qs: seq<TokenPrice>, name: string)
    requires forall t :: LastWrite(ps, name, t) == LastWrite(qs, name, t)
    ensures name in SetAll(map[], ps) <==> name in SetAll(map[], qs)
    ensures ArrayOf(SetAll(map[], ps), name) == ArrayOf(SetAll(map[], qs), name)
  {
    NamesFromLastWrites(ps, qs, name);
    NamesFromLastWrites(qs, ps, name);
    NamesWritten(ps, name);
    NamesWritten(qs, name);
    var m, m' := SetAll(map[], ps), SetAll(map[], qs);
    CellIsLastWrite(ps, name, 0);
    CellIsLastWrite(qs, name, 0);
    forall t ensures Cell(m, name, t) == Cell(m', name, t) {
      CellIsLastWrite(ps, name, t);
      CellIsLastWrite(qs, name, t);
    }
    SameCellsSameArray(m, m', name);
  }

  ghost predicate SameLastWrites(ps: seq<TokenPrice>, qs: seq<TokenPrice>) {
    forall name, t :: LastWrite(ps, name, t) == LastWrite(qs, name, t)
  }

  lemma SameLastWritesSameIndex(ps: seq<TokenPrice>, qs: seq<TokenPrice>)
    requires SameLastWrites(ps, qs)
    ensures SetAll(map[], ps) == SetAll(map[], qs)
  {
    var m, m' := SetAll(map[], ps), SetAll(map[], qs);
    forall name ensures name in m <==> name in m'
                ensures ArrayOf(m, name) == ArrayOf(m', name)
    {
      SameLastWritesSameArray(ps, qs, name);
    }
    assert forall name :: name in m ==> m[name] == ArrayOf(m, name);
    assert forall name :: name in m' ==> m'[name] == ArrayOf(m', name);
  }

  /** Two write histories build the same arrays if and only if they agree on every last write. */
  lemma SameIndexIffSameLastWrites(ps: seq<TokenPrice>, qs: seq<TokenPrice>)
    ensures SetAll(map[], ps) == SetAll(map[], qs) <==> SameLastWrites(ps, qs)
  {
    if SetAll(map[], ps) == SetAll(map[], qs) {
      forall name, t ensures LastWrite(ps, name, t) == LastWrite(qs, name, t) {
        CellIsLastWrite(ps, name, t);
        CellIsLastWrite(qs, name, t);
      }
    }
    if SameLastWrites(ps, qs) {
      SameLastWritesSameIndex(ps, qs);
    }
  }

  /** No two different prices are written under the same name and time stamp. */
  predicate Consistent(ps: seq<TokenPrice>) {
    forall p, q :: p in ps && q in ps && p.name == q.name && p.lastUpdated == q.lastUpdated ==> p == q
  }

  /** Distinct prices build the same arrays in every order of arrival. */
  lemma OrderOfArrivalIsIrrelevant(ps: seq<TokenPrice>, qs: seq<TokenPrice>)
    requires Consistent(ps) && multiset(ps) == multiset(qs)
    ensures SetAll(map[], ps) == SetAll(map[], qs)
  {
    forall name, t ensures LastWrite(ps, name, t) == LastWrite(qs, name, t) {
      LastWriteIsWritten(ps, name, t);
      LastWriteIsWritten(qs, name, t);
      assert forall p :: p in ps <==> p in multiset(ps);
      assert forall p :: p in qs <==> p in multiset(qs);
    }
    SameIndexIffSameLastWrites(ps, qs);
  }

  // ----- Reloading after a restart -----

  /** A call of SetLatestPrice, after which memory has the price and the table too unless the save failed, which is
      only logged; or a call of pricesPrune, after which the table has no price before the cut-off unless the
      deletion failed, which is ignored. Memory keeps everything. Prices that start-up loads from the table count
      as saved. */
  datatype Event = Write(price: TokenPrice, saved: bool) | Prune(cutoff: int, deleted: bool)

  function Written(es: seq<Event>): seq<TokenPrice> {
    if es == [] then []
    else
      var e := es[|es| - 1];
      Written(es[..|es| - 1]) + if e.Write? then [e.price] else []
  }

  /** The prices that are not before the cut-off, in order. */
  function Survivors(ps: seq<TokenPrice>, cutoff: int): seq<TokenPrice> {
    if ps == [] then []
    else
      var p := ps[|ps| - 1];
      Survivors(ps[..|ps| - 1], cutoff) + if p.lastUpdated >= cutoff then [p] else []
  }

  /** The saved prices that have survived every prune since, in order. */
  function Table(es: seq<Event>): seq<TokenPrice> {
    if es == [] then []
    else
      var before := Table(es[..|es| - 1]);
      match es[|es| - 1]
      case Write(p, saved) => before + if saved then [p] else []
      case Prune(cutoff, deleted) => if deleted then Survivors(before, cutoff) else before
  }

  /** The table's row under its unique key: the last price saved under a name, base and time stamp. */
  function LastRow(ps: seq<TokenPrice>, name: string, base: string, t: int): Option<TokenPrice> {
    if ps == [] then None
    else
      var p := ps[|ps| - 1];
      if p.name == name && p.base == base && p.lastUpdated == t then Some(p)
      else LastRow(ps[..|ps| - 1], name, base, t)
  }

  /** The rows of TokenPricesRange(min, max, "") over a table that holds the saves `ps`. */
  ghost predicate RangeQuery(rows: seq<TokenPrice>, ps: seq<TokenPrice>, min: int, max: int) {
    forall p :: p in rows <==>
      min <= p.lastUpdated <= max && LastRow(ps, p.name, p.base, p.lastUpdated) == Some(p)
  }

  /** All writes of a token are in one base currency. */
  predicate OneBase(ps: seq<TokenPrice>, name: string) {
    forall p, q :: p in ps && q in ps && p.name == q.name == name ==> p.base == q.base
  }

  lemma {:induction false} RowIsLastWrite(ps: seq<TokenPrice>, p: TokenPrice)
    requires OneBase(ps, p.name)
    ensures LastRow(ps, p.name, p.base, p.lastUpdated) == Some(p) <==> LastWrite(ps, p.name, p.lastUpdated) == Some(p)
  {
    if ps != [] {
      var init, last := ps[..|ps| - 1], ps[|ps| - 1];
      assert ps == init + [last];
      RowIsLastWrite(init, p);
      if last.name == p.name && last.lastUpdated == p.lastUpdated && last.base != p.base {
        LastRowIsSaved(init, p.name, p.base, p.lastUpdated);
      }
    }
  }

  lemma {:induction false} LastRowIsSaved(ps: seq<TokenPrice>, name: string, base: string, t: int)
    ensures var r := LastRow(ps, name, base, t);
      r.Some? ==> r.value in ps && r.value.name == name && r.value.base == base && r.value.lastUpdated == t
  {
    if ps != [] {
      assert ps == ps[..|ps| - 1] + [ps[|ps| - 1]];
      LastRowIsSaved(ps[..|ps| - 1], name, base, t);
    }
  }

  lemma {:induction false} SurvivorsAmong(ps: seq<TokenPrice>, cutoff: int, p: TokenPrice)
    ensures p in Survivors(ps, cutoff) ==> p in ps
  {
    if ps != [] {
      SurvivorsAmong(ps[..|ps| - 1], cutoff, p);
    }
  }

  lemma {:induction false} TableIsWritten(es: seq<Event>, p: TokenPrice)
    ensures p in Table(es) ==> p in Written(es)
  {
    if es != [] {
      TableIsWritten(es[..|es| - 1], p);
      if es[|es| - 1].Prune? {
        SurvivorsAmong(Table(es[..|es| - 1]), es[|es| - 1].cutoff, p);
      }
    }
  }

  lemma {:induction false} LastSurvivor(ps: seq<TokenPrice>, cutoff: int, name: string, t: int)
    ensures LastWrite(Survivors(ps, cutoff), name, t) == if t < cutoff then None else LastWrite(ps, name, t)
  {
    if ps != [] {
      var init, p := ps[..|ps| - 1], ps[|ps| - 1];
      LastSurvivor(init, cutoff, name, t);
      OneMoreWrite(Survivors(init, cutoff), p, name, t);
      assert Survivors(init, cutoff) + [] == Survivors(init, cutoff);
    }
  }

  /** Position of the last write under a name and time stamp, saved or not, -1 if there is none. */
  function LastWriteAt(es: seq<Event>, name: string, t: int): (i: int)
    ensures -1 <= i < |es| && (i >= 0 ==> es[i].Write?)
  {
    if es == [] then -1
    else
      var e := es[|es| - 1];
      if e.Write? && e.price.name == name && e.price.lastUpdated == t then |es| - 1
      else LastWriteAt(es[..|es| - 1], name, t)
  }

  /** Memory's entry: the last write, whatever was saved or pruned. */
  lemma {:induction false} MemoryEntry(es: seq<Event>, name: string, t: int)
    ensures var i := LastWriteAt(es, name, t);
      Cell(SetAll(map[], Written(es)), name, t) == if i >= 0 then Some(es[i].price) else None
  {
    CellIsLastWrite(Written(es), name, t);
    if es != [] {
      var init, e := es[..|es| - 1], es[|es| - 1];
      MemoryEntry(init, name, t);
      CellIsLastWrite(Written(init), name, t);
      if e.Write? {
        OneMoreWrite(Written(init), e.price, name, t);
      } else {
        assert Written(init) + [] == Written(init);
      }
    }
  }

  // ----- When the table still has an entry -----

  predicate Saves(e: Event, name: string, t: int) {
    e.Write? && e.saved && e.price.name == name && e.price.lastUpdated == t
  }

  /** Position of the last successful save under a name and time stamp, -1 if there is none. */
  function LastSave(es: seq<Event>, name: string, t: int): (i: int)
    ensures -1 <= i < |es| && (i >= 0 ==> Saves(es[i], name, t))
  {
    if es == [] then -1
    else if Saves(es[|es| - 1], name, t) then |es| - 1
    else LastSave(es[..|es| - 1], name, t)
  }

  /** No successful prune after position `i` reaches past time `t`. */
  predicate Spared(es: seq<Event>, i: int, t: int) {
    forall j :: 0 <= j < |es| && i < j && es[j].Prune? && es[j].deleted ==> es[j].cutoff <= t
  }

  lemma SparedOneMore(es: seq<Event>, i: int, t: int)
    requires es != []
    ensures var n := |es| - 1;
      Spared(es, i, t) <==> Spared(es[..n], i, t) && !(i < n && es[n].Prune? && es[n].deleted && es[n].cutoff > t)
  {
    var n := |es| - 1;
    assert forall j :: 0 <= j < n ==> es[..n][j] == es[j];
  }

  /** The table's entry: the last save, if every successful prune since has spared it. */
  lemma {:induction false} TableEntry(es: seq<Event>, name: string, t: int)
    ensures var i := LastSave(es, name, t);
      LastWrite(Table(es), name, t) == if i >= 0 && Spared(es, i, t) then Some(es[i].price) else None
  {
    if es != [] {
      var n := |es| - 1;
      var before := Table(es[..n]);
      TableEntry(es[..n], name, t);
      SparedOneMore(es, LastSave(es, name, t), t);
      match es[n]
      case Write(p, saved) =>
        OneMoreWrite(before, p, name, t);
        assert before + [] == before;
      case Prune(cutoff, _) =>
        LastSurvivor(before, cutoff, name, t);
    }
  }

  /** An entry of memory is in the table too: its last save is of the price that was last written, and every
      successful prune since has spared it. */
  predicate EntryKept(es: seq<Event>, name: string, t: int) {
    var w, i := LastWrite(Written(es), name, t), LastSave(es, name, t);
    w.Some? ==> i >= 0 && es[i].price == w.value && Spared(es, i, t)
  }

  lemma {:induction false} SavedIsWritten(es: seq<Event>, name: string, t: int)
    ensures LastSave(es, name, t) >= 0 ==> LastWrite(Written(es), name, t).Some?
  {
    if es != [] {
      SavedIsWritten(es[..|es| - 1], name, t);
      if es[|es| - 1].Write? {
        OneMoreWrite(Written(es[..|es| - 1]), es[|es| - 1].price, name, t);
      } else {
        assert Written(es[..|es| - 1]) + [] == Written(es[..|es| - 1]);
      }
    }
  }

  lemma EntryKeptIff(es: seq<Event>, name: string, t: int)
    ensures LastWrite(Written(es), name, t) == LastWrite(Table(es), name, t) <==> EntryKept(es, name, t)
  {
    TableEntry(es, name, t);
    SavedIsWritten(es, name, t);
  }

  ghost predicate RangeKept(es: seq<Event>, name: string, min: int, max: int) {
    forall t :: min <= t <= max ==> EntryKept(es, name, t)
  }

  lemma {:induction false} LastSaveIsLastWrite(es: seq<Event>, name: string, t: int)
    requires forall e :: e in es && e.Write? && e.price.name == name && e.price.lastUpdated == t ==> e.saved
    ensures var i := LastSave(es, name, t);
      LastWrite(Written(es), name, t) == if i >= 0 then Some(es[i].price) else None
  {
    if es != [] {
      var init, e := es[..|es| - 1], es[|es| - 1];
      assert e in es && forall d :: d in init ==> d in es;
      LastSaveIsLastWrite(init, name, t);
      if e.Write? {
        OneMoreWrite(Written(init), e.price, name, t);
      } else {
        assert Written(init) + [] == Written(init);
      }
    }
  }

  /** In particular if every save in the range succeeded and no successful prune reached into it. */
  lemma AllKept(es: seq<Event>, name: string, min: int, max: int)
    requires forall e :: e in es && e.Write? && e.price.name == name && min <= e.price.lastUpdated <= max ==> e.saved
    requires forall e :: e in es && e.Prune? && e.deleted ==> e.cutoff <= min
    ensures RangeKept(es, name, min, max)
  {
    forall t | min <= t <= max ensures EntryKept(es, name, t) {
      LastSaveIsLastWrite(es, name, t);
      assert forall j :: 0 <= j < |es| ==> es[j] in es;
    }
  }

  lemma OneMoreWrite(ps: seq<TokenPrice>, p: TokenPrice, name: string, t: int)
    ensures LastWrite(ps + [p], name, t) ==
      if p.name == name && p.lastUpdated == t then Some(p) else LastWrite(ps, name, t)
  {
    assert (ps + [p])[..|ps|] == ps;
  }

  lemma MemberIffLastWrite(ps: seq<TokenPrice>, p: TokenPrice, name: string)
    ensures ValidPrices(SetAll(map[], ps))
    ensures p in ArrayOf(SetAll(map[], ps), name)
      <==> p.name == name && LastWrite(ps, p.name, p.lastUpdated) == Some(p)
  {
    var m := SetAll(map[], ps);
    LastWriteWins(map[], ps, p.name, p.lastUpdated);
    ViewMembers(ArrayOf(m, name));
  }

  lemma ReloadedIffSaved(rows: seq<TokenPrice>, ps: seq<TokenPrice>, min: int, max: int, name: string, p: TokenPrice)
    requires RangeQuery(rows, ps, min, max) && OneBase(ps, name)
    ensures p in ArrayOf(SetAll(map[], rows), name) <==>
      p.name == name && min <= p.lastUpdated <= max && LastWrite(ps, name, p.lastUpdated) == Some(p)
  {
    MemberIffLastWrite(rows, p, name);
    if p.name == name {
      RowIsLastWrite(ps, p);
      LastWriteIsWritten(rows, name, p.lastUpdated);
      var q := LastWrite(rows, name, p.lastUpdated);
      if q.Some? {
        LastRowIsSaved(ps, q.value.name, q.value.base, q.value.lastUpdated);
        RowIsLastWrite(ps, q.value);
      }
    }
  }

  lemma BoundsAreOrdered(arr: seq<TokenPrice>, t: int, u: int)
    requires t <= u
    ensures LowerBound(arr, t) <= LowerBound(arr, u)
  {
    var i, j := LowerBound(arr, t), LowerBound(arr, u);
    assert j < |arr| ==> arr[j].lastUpdated >= u;
  }

  /** The part of an array between two time stamps, both included. */
  function Window(arr: seq<TokenPrice>, min: int, max: int): seq<TokenPrice>
    requires min <= max
  {
    BoundsAreOrdered(arr, min, max + 1);
    arr[LowerBound(arr, min)..LowerBound(arr, max + 1)]
  }

  /** In the range, what memory last got under each time stamp is what the table last got. */
  ghost predicate Agree(ps: seq<TokenPrice>, qs: seq<TokenPrice>, name: string, min: int, max: int) {
    forall t :: min <= t <= max ==> LastWrite(ps, name, t) == LastWrite(qs, name, t)
  }

  /** An array holds exactly the last writes of the range. */
  ghost predicate HoldsRange(arr: seq<TokenPrice>, ps: seq<TokenPrice>, name: string, min: int, max: int) {
    forall p :: p in arr <==>
      p.name == name && min <= p.lastUpdated <= max && LastWrite(ps, name, p.lastUpdated) == Some(p)
  }

  lemma WindowHolds(ps: seq<TokenPrice>, min: int, max: int, name: string)
    requires min <= max
    ensures StrictlySorted(ArrayOf(SetAll(map[], ps), name))
    ensures StrictlySorted(Window(ArrayOf(SetAll(map[], ps), name), min, max))
    ensures HoldsRange(Window(ArrayOf(SetAll(map[], ps), name), min, max), ps, name, min, max)
  {
    var arr := ArrayOf(SetAll(map[], ps), name);
    ArrayIsSorted(ps, name);
    forall p ensures p in Window(arr, min, max) <==>
      p.name == name && min <= p.lastUpdated <= max && LastWrite(ps, name, p.lastUpdated) == Some(p)
    {
      MemberIffLastWrite(ps, p, name);
      InWindow(arr, min, max, p);
    }
  }

  lemma ReloadHolds(rows: seq<TokenPrice>, qs: seq<TokenPrice>, min: int, max: int, name: string)
    requires RangeQuery(rows, qs, min, max) && OneBase(qs, name)
    ensures StrictlySorted(ArrayOf(SetAll(map[], rows), name))
    ensures HoldsRange(ArrayOf(SetAll(map[], rows), name), qs, name, min, max)
  {
    ArrayIsSorted(rows, name);
    forall p ensures p in ArrayOf(SetAll(map[], rows), name) <==>
      p.name == name && min <= p.lastUpdated <= max && LastWrite(qs, name, p.lastUpdated) == Some(p)
    {
      ReloadedIffSaved(rows, qs, min, max, name, p);
    }
  }

  lemma HeldAlikeIff(a: seq<TokenPrice>, b: seq<TokenPrice>, ps: seq<TokenPrice>, qs: seq<TokenPrice>,
                     name: string, min: int, max: int)
    requires StrictlySorted(a) && StrictlySorted(b)
    requires HoldsRange(a, ps, name, min, max) && HoldsRange(b, qs, name, min, max)
    ensures a == b <==> Agree(ps, qs, name, min, max)
  {
    if a == b {
      forall t | min <= t <= max ensures LastWrite(ps, name, t) == LastWrite(qs, name, t) {
        LastWriteIsWritten(ps, name, t);
        LastWriteIsWritten(qs, name, t);
        var p, q := LastWrite(ps, name, t), LastWrite(qs, name, t);
        assert p.Some? ==> p.value in a;
        assert q.Some? ==> q.value in b;
      }
    }
    if Agree(ps, qs, name, min, max) {
      forall p ensures p in a <==> p in b {
      }
      MembersAreCanonical(a, b);
    }
  }

  /** Reloading from a table gives a token exactly the part of its array that lies in the queried range if and
      only if in that range memory and table agree on every last write. */
  lemma ReloadAgreesIff(rows: seq<TokenPrice>, ps: seq<TokenPrice>, qs: seq<TokenPrice>, min: int, max: int, name: string)
    requires RangeQuery(rows, qs, min, max) && min <= max && OneBase(qs, name)
    ensures ArrayOf(SetAll(map[], rows), name) == Window(ArrayOf(SetAll(map[], ps), name), min, max)
      <==> Agree(ps, qs, name, min, max)
  {
    WindowHolds(ps, min, max, name);
    ReloadHolds(rows, qs, min, max, name);
    HeldAlikeIff(Window(ArrayOf(SetAll(map[], ps), name), min, max), ArrayOf(SetAll(map[], rows), name), ps, qs, name, min, max);
  }

  lemma AgreeIffKept(es: seq<Event>, name: string, min: int, max: int)
    ensures Agree(Written(es), Table(es), name, min, max) <==> RangeKept(es, name, min, max)
  {
    forall t ensures LastWrite(Written(es), name, t) == LastWrite(Table(es), name, t) <==> EntryKept(es, name, t) {
      EntryKeptIff(es, name, t);
    }
  }

  /** Over any history of writes and prunes, failed ones included: a restart gives a token exactly the part of its
      array that lies in the queried range if and only if every entry of that part was saved last as it was
      written last, and no successful prune since has reached past it. The token's prices are in one base
      currency. */
  lemma ReloadIsWindowIff(rows: seq<TokenPrice>, es: seq<Event>, min: int, max: int, name: string)
    requires RangeQuery(rows, Table(es), min, max) && min <= max && OneBase(Written(es), name)
    ensures ArrayOf(SetAll(map[], rows), name) == Window(ArrayOf(SetAll(map[], Written(es)), name), min, max)
      <==> RangeKept(es, name, min, max)
  {
    TableHasOneBase(es, name);
    ReloadAgreesIff(rows, Written(es), Table(es), min, max, name);
    AgreeIffKept(es, name, min, max);
  }

  lemma TableHasOneBase(es: seq<Event>, name: string)
    requires OneBase(Written(es), name)
    ensures OneBase(Table(es), name)
  {
    forall p | p in Table(es) ensures p in Written(es) {
      TableIsWritten(es, p);
    }
  }

  lemma TwoWrites(p: TokenPrice, q: TokenPrice)
    ensures Written([Write(p, true), Write(q, true)]) == [p, q]
    ensures Table([Write(p, true), Write(q, true)]) == [p, q]
  {
    var one, two := [Write(p, true)], [Write(p, true), Write(q, true)];
    assert two[..1] == one && one[..0] == [];
    assert Written([]) == [] && Table([]) == [];
    assert Written(one) == Written([]) + [p] == [p] && Table(one) == Table([]) + [p] == [p];
    assert Written(two) == Written(one) + [q] && Table(two) == Table(one) + [q];
  }

  lemma RowOfTwo(p: TokenPrice, q: TokenPrice, name: string, base: string, t: int)
    ensures LastRow([p, q], name, base, t) ==
      if q.name == name && q.base == base && q.lastUpdated == t then Some(q)
      else if p.name == name && p.base == base && p.lastUpdated == t then Some(p)
      else None
  {
    assert [p, q][..1] == [p] && [p][..0] == [];
    assert LastRow([], name, base, t) == None;
    assert LastRow([p], name, base, t) ==
      if p.name == name && p.base == base && p.lastUpdated == t then Some(p) else None;
  }

  /** The base currency matters: with two of them the table has two rows where memory has one entry, and a
      row order exists that brings back the one that memory had overwritten. */
  lemma TwoBasesMayDiffer(p: TokenPrice, q: TokenPrice) returns (es: seq<Event>, rows: seq<TokenPrice>)
    requires p.name == q.name && p.lastUpdated == q.lastUpdated && p.base != q.base
    ensures es == [Write(p, true), Write(q, true)]
    ensures RangeQuery(rows, Table(es), p.lastUpdated, p.lastUpdated)
    ensures ArrayOf(SetAll(map[], rows), p.name) != ArrayOf(SetAll(map[], Written(es)), p.name)
  {
    es, rows := [Write(p, true), Write(q, true)], [q, p];
    TwoWrites(p, q);
    forall r ensures r in rows <==> r.lastUpdated == p.lastUpdated && LastRow([p, q], r.name, r.base, r.lastUpdated) == Some(r) {
      RowOfTwo(p, q, r.name, r.base, r.lastUpdated);
    }
    assert [q] + [p] == [q, p] && [p] + [q] == [p, q];
    OneMoreWrite([q], p, p.name, p.lastUpdated);
    OneMoreWrite([p], q, p.name, p.lastUpdated);
    MemberIffLastWrite(rows, p, p.name);
    MemberIffLastWrite([p, q], p, p.name);
  }

  lemma ArrayIsSorted(ps: seq<TokenPrice>, name: string)
    ensures StrictlySorted(ArrayOf(SetAll(map[], ps), name))
  {
    CellIsLastWrite(ps, name, 0);
  }

  lemma InWindow(arr: seq<TokenPrice>, min: int, max: int, p: TokenPrice)
    requires StrictlySorted(arr) && min <= max
    ensures p in Window(arr, min, max) <==> p in arr && min <= p.lastUpdated <= max
  {
    var lo, hi := LowerBound(arr, min), LowerBound(arr, max + 1);
    BoundsAreOrdered(arr, min, max + 1);
    InSlice(arr, lo, hi, p);
    forall k | 0 <= k < |arr| && arr[k] == p ensures lo <= k < hi <==> min <= p.lastUpdated <= max {
      FromBoundOn(arr, min, k);
      FromBoundOn(arr, max + 1, k);
    }
  }

  lemma InSlice(arr: seq<TokenPrice>, lo: nat, hi: nat, p: TokenPrice)
    requires lo <= hi <= |arr|
    ensures p in arr[lo..hi] <==> exists k :: lo <= k < hi && arr[k] == p
  {
    if k :| lo <= k < hi && arr[k] == p {
      assert arr[lo..hi][k - lo] == p;
    }
  }

  lemma FromBoundOn(arr: seq<TokenPrice>, t: int, k: nat)
    requires StrictlySorted(arr) && k < |arr|
    ensures LowerBound(arr, t) <= k <==> t <= arr[k].lastUpdated
  {
    var i := LowerBound(arr, t);
    assert i < k ==> arr[i].lastUpdated < arr[k].lastUpdated;
  }

  lemma EverythingIsBefore(ps: seq<TokenPrice>, max: int, name: string)
    requires forall p :: p in ps ==> p.lastUpdated <= max
    ensures LowerBound(ArrayOf(SetAll(map[], ps), name), max + 1) == |ArrayOf(SetAll(map[], ps), name)|
  {
    var arr := ArrayOf(SetAll(map[], ps), name);
    forall k | 0 <= k < |arr| ensures arr[k].lastUpdated <= max {
      MemberIffLastWrite(ps, arr[k], name);
      LastWriteIsWritten(ps, arr[k].name, arr[k].lastUpdated);
    }
  }

  /** A restart that reloads the prices since `min`, none of which the table has lost, gives the same neighbours
      as before for exactly the times at or after the first reloaded price (all times, if nothing was
      dropped). */
  lemma RestartKeepsNeighbours(rows: seq<TokenPrice>, es: seq<Event>, min: int, max: int, name: string, t: int)
    requires RangeQuery(rows, Table(es), min, max) && min <= max && OneBase(Written(es), name)
    requires RangeKept(es, name, min, max)
    requires forall p :: p in Written(es) ==> p.lastUpdated <= max
    requires ArrayOf(SetAll(map[], rows), name) != []
    ensures var before, after := ArrayOf(SetAll(map[], Written(es)), name), ArrayOf(SetAll(map[], rows), name);
      NearestOf(after, t) == NearestOf(before, t) <==> after[0].lastUpdated <= t || after == before
  {
    ArrayIsSorted(Written(es), name);
    ReloadIsWindowIff(rows, es, min, max, name);
    EverythingIsBefore(Written(es), max, name);
    WindowToTheEnd(ArrayOf(SetAll(map[], Written(es)), name), min, max, t);
  }

  lemma WindowToTheEnd(arr: seq<TokenPrice>, min: int, max: int, t: int)
    requires StrictlySorted(arr) && min <= max
    requires LowerBound(arr, max + 1) == |arr| && Window(arr, min, max) != []
    ensures var kept := Window(arr, min, max);
      NearestOf(kept, t) == NearestOf(arr, t) <==> kept[0].lastUpdated <= t || kept == arr
  {
    assert Window(arr, min, max) == arr[LowerBound(arr, min)..];
    SuffixIsKept(arr, LowerBound(arr, min), t);
  }

  lemma SuffixIsKept(arr: seq<TokenPrice>, c: nat, t: int)
    requires StrictlySorted(arr) && c < |arr|
    ensures NearestOf(arr[c..], t) == NearestOf(arr, t) <==> arr[c..][0].lastUpdated <= t || arr[c..] == arr
  {
    SuffixLookup(arr, c, t);
    assert c > 0 ==> |arr[c..]| < |arr|;
    assert c == 0 ==> arr[c..] == arr;
  }

  /** Hence a restart leaves every estimate in the reloaded window unchanged. */
  lemma RestartKeepsEstimates(rows: seq<TokenPrice>, es: seq<Event>, min: int, max: int, name: string, t: int)
    requires RangeQuery(rows, Table(es), min, max) && min <= max && OneBase(Written(es), name)
    requires RangeKept(es, name, min, max)
    requires forall p :: p in Written(es) ==> p.lastUpdated <= max
    requires ArrayOf(SetAll(map[], rows), name) != []
    requires ArrayOf(SetAll(map[], rows), name)[0].lastUpdated <= t
    ensures EstimateOf(ArrayOf(SetAll(map[], rows), name), t) == EstimateOf(ArrayOf(SetAll(map[], Written(es)), name), t)
  {
    RestartKeepsNeighbours(rows, es, min, max, name, t);
  }
}
