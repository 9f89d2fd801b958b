/**
 * From the coalescer to the live list (src/hooks/useClipboardEventStream.ts:45-67): a batch reloads
 * the newest entries and hands those of the batch over one by one, in the order of their first
 * arrival, while the store has them in the order of their last.
 */
module LiveBatches {
  import opened JsString
  import opened LiveSearch
  import Throttle
  import ClipboardEvents

  /** How many entries the reload asks for. */
  const RELOAD_WINDOW: nat := 50

  // ---------- the code ----------

  function Ids(items: seq<Item>): (ids: seq<string>)
    ensures |ids| == |items|
  {
    seq(|items|, i requires 0 <= i < |items| => items[i].id)
  }

  /** `entries.find(e => e.id === id)`, as a list of at most one. */
  function Find(entries: seq<Item>, id: string): (r: seq<Item>)
    ensures |r| <= 1
    ensures forall x :: x in r ==> x in entries && x.id == id
    ensures r == [] <==> !HasId(entries, id)
  {
    if entries == [] then []
    else
      HasIdStep(entries, id);
      if entries[0].id == id then [entries[0]] else Find(entries[1..], id)
  }

  /** The entries with some ids, in the order of the ids; those that are not found are skipped. */
  function Found(ids: seq<string>, entries: seq<Item>): seq<Item> {
    if ids == [] then [] else Found(ids[..|ids| - 1], entries) + Find(entries, ids[|ids| - 1])
  }

  /** The list after some entries have been handed over. */
  function PatchAll(shown: seq<Item>, items: seq<Item>, model: Model, cap: nat): seq<Item> {
    if items == [] then shown
    else Patched(PatchAll(shown, items[..|items| - 1], model, cap), items[|items| - 1], model, cap)
  }

  lemma OnePatched(shown: seq<Item>, items: seq<Item>, item: Item, model: Model, cap: nat)
    ensures PatchAll(shown, items + [item], model, cap) == Patched(PatchAll(shown, items, model, cap), item, model, cap)
  {
    assert (items + [item])[..|items|] == items;
  }

  /** A patchable list takes in what was found; any other will run its query again, once for each entry. */
  ghost predicate Handled(model: Model, shown: seq<Item>, nonce: nat, found: seq<Item>, shown': seq<Item>,
                          nonce': nat)
  {
    if CanPatchLive(model) then shown' == PatchAll(shown, found, model, MAX_LIVE_ITEMS) && nonce' == nonce
    else shown' == shown && nonce' == nonce + |found|
  }

  lemma OneHandled(model: Model, shown: seq<Item>, nonce: nat, found: seq<Item>, shown': seq<Item>, nonce': nat,
                   item: Item)
    requires Handled(model, shown, nonce, found, shown', nonce')
    ensures CanPatchLive(model) ==>
              Handled(model, shown, nonce, found + [item], Patched(shown', item, model, MAX_LIVE_ITEMS), nonce')
    ensures !CanPatchLive(model) ==> Handled(model, shown, nonce, found + [item], shown', nonce' + 1)
  {
    OnePatched(shown, found, item, model, MAX_LIVE_ITEMS);
  }

  lemma OneFound(ids: seq<string>, i: nat, entries: seq<Item>)
    requires i < |ids|
    ensures Found(ids[..i + 1], entries) == Found(ids[..i], entries) + Find(entries, ids[i])
    ensures Find(entries, ids[i]) == [] ==> Found(ids[..i + 1], entries) == Found(ids[..i], entries)
    ensures Find(entries, ids[i]) != [] ==>
            Found(ids[..i + 1], entries) == Found(ids[..i], entries) + [Find(entries, ids[i])[0]]
  {
    assert ids[..i + 1][..i] == ids[..i];
  }

  /** What happens when the reload is answered with `entries`. */
  method FlushLocalFetch(list: LiveList, ids: seq<string>, entries: seq<Item>)
    modifies list
    ensures Handled(list.model, old(list.items), old(list.refetchNonce), Found(ids, entries), list.items,
                    list.refetchNonce)
  {
    assert Handled(list.model, list.items, list.refetchNonce, Found([], entries), list.items, list.refetchNonce);
    hide Handled, CanPatchLive, Found;
    var i := 0;
    while i < |ids|
      invariant 0 <= i <= |ids|
      invariant Handled(list.model, old(list.items), old(list.refetchNonce), Found(ids[..i], entries), list.items,
                        list.refetchNonce)
    {
      var entry := Find(entries, ids[i]);
      OneFound(ids, i, entries);
      if entry != [] {
        OneHandled(list.model, old(list.items), old(list.refetchNonce), Found(ids[..i], entries), list.items,
                   list.refetchNonce, entry[0]);
        list.OnLocalItem(entry[0]);
      }
      i := i + 1;
    }
    assert ids[..|ids|] == ids;
  }

  // ---------- what arrives ----------

  /** The store after some arrivals. */
  function StoreAll(store: seq<Item>, arrivals: seq<Item>): seq<Item> {
    if arrivals == [] then store else Stored(StoreAll(store, arrivals[..|arrivals| - 1]), arrivals[|arrivals| - 1])
  }

  /** Some ids, each once, in the order of first arrival: what a batch contains. */
  function First(ids: seq<string>): (f: seq<string>)
    ensures forall id :: id in f <==> id in ids
  {
    if ids == [] then []
    else
      var n := |ids| - 1;
      assert forall id :: id in ids <==> id in ids[..n] || id == ids[n];
      if ids[n] in ids[..n] then First(ids[..n]) else First(ids[..n]) + [ids[n]]
  }

  function FirstIndex(ids: seq<string>, id: string): (i: nat)
    requires id in ids
    ensures i < |ids| && ids[i] == id
  {
    var n := |ids| - 1;
    if id in ids[..n] then FirstIndex(ids[..n], id) else n
  }

  function LastIndex(ids: seq<string>, id: string): (i: nat)
    requires id in ids
    ensures i < |ids| && ids[i] == id
  {
    var n := |ids| - 1;
    if id == ids[n] then n else LastIndex(ids[..n], id)
  }

  /** Entries that arrive for the first time earlier also arrive for the last time earlier: none arrives
      both before and after all arrivals of another. */
  ghost predicate SameOrder(ids: seq<string>) {
    forall u, v :: u in ids && v in ids && FirstIndex(ids, u) < FirstIndex(ids, v) ==>
        LastIndex(ids, u) < LastIndex(ids, v)
  }

  /** Copying an entry again does not change whether it matches. */
  ghost predicate KeepMatching(store: seq<Item>, arrivals: seq<Item>, model: Model) {
    forall x, y :: (x in store || x in arrivals) && y in arrivals && x.id == y.id ==>
      MatchesFilter(x, model) == MatchesFilter(y, model)
  }

  // ---------- the store ----------

  function Minus(items: seq<Item>, ids: set<string>): seq<Item> {
    if items == [] then []
    else if items[0].id in ids then Minus(items[1..], ids)
    else [items[0]] + Minus(items[1..], ids)
  }

  function IdSet(items: seq<Item>): set<string> {
    set x | x in items :: x.id
  }

  lemma {:induction false} MinusNothing(items: seq<Item>)
    ensures Minus(items, {}) == items
  {
    if items != [] {
      MinusNothing(items[1..]);
    }
  }

  lemma {:induction false} WithoutMinus(items: seq<Item>, ids: set<string>, id: string)
    ensures Without(Minus(items, ids), id) == Minus(items, ids + {id})
    decreases |items|
  {
    if items != [] {
      WithoutMinus(items[1..], ids, id);
      assert ([items[0]] + Minus(items[1..], ids))[1..] == Minus(items[1..], ids);
    }
  }

  lemma {:induction false} WithoutConcat(a: seq<Item>, b: seq<Item>, id: string)
    ensures Without(a + b, id) == Without(a, id) + Without(b, id)
    decreases |a|
  {
    if a == [] {
      assert a + b == b;
    } else {
      assert (a + b)[1..] == a[1..] + b;
      WithoutConcat(a[1..], b, id);
    }
  }

  lemma {:induction false} QueryConcat(a: seq<Item>, b: seq<Item>, model: Model)
    ensures Query(a + b, model) == Query(a, model) + Query(b, model)
    decreases |a|
  {
    hide MatchesFilter;
    if a == [] {
      assert a + b == b;
    } else {
      assert (a + b)[1..] == a[1..] + b;
      QueryConcat(a[1..], b, model);
    }
  }

  lemma {:induction false} QueryLength(items: seq<Item>, model: Model)
    ensures |Query(items, model)| <= |items|
  {
    hide MatchesFilter;
    if items != [] {
      QueryLength(items[1..], model);
    }
  }

  lemma IdSetGrows(items: seq<Item>, x: Item)
    ensures IdSet(items + [x]) == IdSet(items) + {x.id}
  {
    assert forall y :: y in items + [x] <==> y in items || y == x;
    assert x in items + [x];
  }

  lemma LastArrival(arrivals: seq<Item>)
    requires arrivals != []
    ensures var n := |arrivals| - 1;
      arrivals == arrivals[..n] + [arrivals[n]] && IdSet(arrivals) == IdSet(arrivals[..n]) + {arrivals[n].id}
    ensures forall x :: x in arrivals <==> x in arrivals[..|arrivals| - 1] || x == arrivals[|arrivals| - 1]
  {
    IdSetGrows(arrivals[..|arrivals| - 1], arrivals[|arrivals| - 1]);
  }

  lemma LastId(arrivals: seq<Item>)
    requires arrivals != []
    ensures var n := |arrivals| - 1;
      Ids(arrivals)[..n] == Ids(arrivals[..n]) && Ids(arrivals) == Ids(arrivals[..n]) + [arrivals[n].id]
  {
  }

  lemma IdsOf(items: seq<Item>, id: string)
    ensures id in Ids(items) <==> HasId(items, id)
  {
    if x :| x in items && x.id == id {
      var i :| 0 <= i < |items| && items[i] == x;
      assert Ids(items)[i] == id;
    }
    if id in Ids(items) {
      var i :| 0 <= i < |items| && Ids(items)[i] == id;
      assert items[i] in items;
    }
  }

  lemma NoIds()
    ensures IdSet([]) == {}
  {
  }

  /** What arrived comes first, the rest of the store after it. */
  lemma {:induction false} StoreSplits(store: seq<Item>, arrivals: seq<Item>)
    ensures StoreAll(store, arrivals) == StoreAll([], arrivals) + Minus(store, IdSet(arrivals))
  {
    hide Minus, Without, IdSet;
    if arrivals == [] {
      NoIds();
      MinusNothing(store);
    } else {
      var n := |arrivals| - 1;
      StoreSplits(store, arrivals[..n]);
      LastArrival(arrivals);
      WithoutConcat(StoreAll([], arrivals[..n]), Minus(store, IdSet(arrivals[..n])), arrivals[n].id);
      WithoutMinus(store, IdSet(arrivals[..n]), arrivals[n].id);
    }
  }

  lemma StoredHasId(store: seq<Item>, item: Item, id: string)
    requires id == item.id || HasId(store, id)
    ensures HasId(Stored(store, item), id)
  {
    assert Stored(store, item)[0] == item;
    if id != item.id {
      var x :| x in store && x.id == id;
      assert x in Without(store, item.id);
      assert x in Stored(store, item);
    }
  }

  lemma {:induction false} StoreFrom(store: seq<Item>, arrivals: seq<Item>)
    requires DistinctIds(store)
    ensures DistinctIds(StoreAll(store, arrivals))
    ensures forall x :: x in StoreAll(store, arrivals) ==> x in arrivals || x in store
    ensures forall x :: x in arrivals ==> HasId(StoreAll(store, arrivals), x.id)
  {
    if arrivals != [] {
      var n := |arrivals| - 1;
      var before := StoreAll(store, arrivals[..n]);
      StoreFrom(store, arrivals[..n]);
      LastArrival(arrivals);
      StoredDistinct(before, arrivals[n]);
      forall x | x in arrivals
        ensures HasId(Stored(before, arrivals[n]), x.id)
      {
        StoredHasId(before, arrivals[n], x.id);
      }
    }
  }

  lemma StoreHas(arrivals: seq<Item>, id: string)
    ensures HasId(StoreAll([], arrivals), id) <==> id in Ids(arrivals)
  {
    StoreFrom([], arrivals);
    IdsOf(arrivals, id);
  }

  lemma StoredLength(store: seq<Item>, item: Item)
    requires DistinctIds(store)
    ensures |Stored(store, item)| == |store| + if HasId(store, item.id) then 0 else 1
  {
    WithoutAbsent(store, item.id);
    if HasId(store, item.id) {
      WithoutPresent(store, item.id);
    }
  }

  lemma NoneDistinct()
    ensures DistinctIds([])
  {
  }

  /** As many entries as distinct ids. */
  lemma {:induction false} StoreLength(arrivals: seq<Item>)
    ensures |StoreAll([], arrivals)| == |First(Ids(arrivals))|
  {
    hide Stored, HasId, DistinctIds;
    if arrivals != [] {
      var n := |arrivals| - 1;
      StoreLength(arrivals[..n]);
      NoneDistinct();
      StoreFrom([], arrivals[..n]);
      LastId(arrivals);
      hide Ids;
      StoredLength(StoreAll([], arrivals[..n]), arrivals[n]);
      StoreHas(arrivals[..n], arrivals[n].id);
    }
  }

  lemma NoneMatching(before: seq<Item>, arrivals: seq<Item>, x: Item, model: Model)
    requires KeepMatching([], arrivals, model) && x in arrivals && !MatchesFilter(x, model)
    requires forall y :: y in before ==> y in arrivals
    ensures !HasId(Query(before, model), x.id)
  {
    hide MatchesFilter;
    if y :| y in Query(before, model) && y.id == x.id {
      assert false;
    }
  }

  /** The query of what arrived is what arrived of the query. */
  lemma {:induction false} QueryOfStoreAll(arrivals: seq<Item>, model: Model)
    requires KeepMatching([], arrivals, model)
    ensures Query(StoreAll([], arrivals), model) == StoreAll([], Query(arrivals, model))
  {
    hide MatchesFilter, Without, Query;
    if arrivals == [] {
      NothingQueried(model);
    } else {
      var n := |arrivals| - 1;
      var x := arrivals[n];
      var before := StoreAll([], arrivals[..n]);
      LastArrival(arrivals);
      assert KeepMatching([], arrivals[..n], model);
      QueryOfStoreAll(arrivals[..n], model);
      QueryOfStored(before, x, model);
      QueryConcat(arrivals[..n], [x], model);
      OneQueried(x, model);
      if MatchesFilter(x, model) {
        assert (Query(arrivals[..n], model) + [x])[..|Query(arrivals[..n], model)|] == Query(arrivals[..n], model);
      } else {
        StoreFrom([], arrivals[..n]);
        NoneMatching(before, arrivals, x, model);
        WithoutAbsent(Query(before, model), x.id);
        assert Query(arrivals[..n], model) + [] == Query(arrivals[..n], model);
      }
    }
  }

  // ---------- the list follows the order of delivery ----------

  ghost predicate AllDistinct(ids: seq<string>) {
    forall i, j :: 0 <= i < j < |ids| ==> ids[i] != ids[j]
  }

  lemma DistinctFront(items: seq<Item>)
    requires items != [] && AllDistinct(Ids(items))
    ensures AllDistinct(Ids(items[..|items| - 1])) && items[|items| - 1].id !in Ids(items[..|items| - 1])
  {
    LastId(items);
    var n := |items| - 1;
    forall i | 0 <= i < n
      ensures Ids(items[..n])[i] != items[n].id
    {
      assert Ids(items)[i] != Ids(items)[n];
    }
  }

  /** An entry that does not match is not shown, as long as matching does not change. */
  lemma NotShown(shown: seq<Item>, store: seq<Item>, items: seq<Item>, x: Item, model: Model)
    requires DistinctIds(store) && shown <= Query(StoreAll(store, items), model)
    requires KeepMatching(store, items + [x], model) && x.id !in Ids(items)
    ensures MatchesFilter(x, model) || !HasId(shown, x.id)
  {
    hide MatchesFilter;
    StoreFrom(store, items);
    IdsOf(items, x.id);
    if y :| y in shown && y.id == x.id {
      assert y in Query(StoreAll(store, items), model);
      assert x in items + [x];
    }
  }

  lemma KeepMatchingFront(store: seq<Item>, items: seq<Item>, model: Model)
    requires items != [] && KeepMatching(store, items, model)
    ensures KeepMatching(store, items[..|items| - 1], model)
  {
  }

  /** Handing over distinct entries has the effect of their arriving in this order. */
  lemma {:induction false} ListFollows(shown: seq<Item>, store: seq<Item>, items: seq<Item>, model: Model, cap: nat)
    requires DistinctIds(store) && shown <= Query(store, model)
    requires AllDistinct(Ids(items)) && KeepMatching(store, items, model)
    ensures PatchAll(shown, items, model, cap) <= Query(StoreAll(store, items), model)
  {
    hide MatchesFilter, Patched, Query, KeepMatching, AllDistinct, Ids, DistinctIds, HasId, Stored;
    if items != [] {
      var n := |items| - 1;
      DistinctFront(items);
      KeepMatchingFront(store, items, model);
      ListFollows(shown, store, items[..n], model, cap);
      StoreFrom(store, items[..n]);
      var before := PatchAll(shown, items[..n], model, cap);
      assert items == items[..n] + [items[n]];
      NotShown(before, store, items[..n], items[n], model);
      ArrivalKeepsPrefix(before, StoreAll(store, items[..n]), items[n], model, cap);
    }
  }

  lemma NotAmong(items: seq<Item>, id: string, model: Model)
    requires id !in Ids(items)
    ensures !HasId(Query(StoreAll([], items), model), id)
  {
    hide MatchesFilter;
    StoreFrom([], items);
    IdsOf(items, id);
  }

  lemma {:induction false} StoreAllLength(items: seq<Item>)
    ensures |StoreAll([], items)| <= |items|
  {
    hide Without;
    if items != [] {
      StoreAllLength(items[..|items| - 1]);
    }
  }

  /** All that was handed over and matches is at the front of the list. */
  lemma {:induction false} DeliveredInFront(shown: seq<Item>, items: seq<Item>, model: Model, cap: nat)
    requires |items| <= cap && AllDistinct(Ids(items))
    ensures Query(StoreAll([], items), model) <= PatchAll(shown, items, model, cap)
  {
    hide MatchesFilter, Query, Without;
    if items == [] {
      NothingQueried(model);
    } else {
      var n := |items| - 1;
      var before := StoreAll([], items[..n]);
      var x := items[n];
      DistinctFront(items);
      DeliveredInFront(shown, items[..n], model, cap);
      QueryOfStored(before, x, model);
      StoreAllLength(items[..n]);
      QueryLength(before, model);
      WithoutPrefix(Query(before, model), PatchAll(shown, items[..n], model, cap), x.id);
      if MatchesFilter(x, model) {
        assert [x] + Without(Query(before, model), x.id)
               <= [x] + Without(PatchAll(shown, items[..n], model, cap), x.id);
      } else {
        NotAmong(items[..n], x.id, model);
        WithoutAbsent(Query(before, model), x.id);
      }
    }
  }

  // ---------- the two orders ----------

  /** The entries of a list come in decreasing order of their positions. */
  ghost predicate Descending(positions: seq<int>) {
    forall p, q :: 0 <= p < q < |positions| ==> positions[p] > positions[q]
  }

  function Positions(items: seq<Item>, index: string -> int): (r: seq<int>)
    ensures |r| == |items|
  {
    seq(|items|, i requires 0 <= i < |items| => index(items[i].id))
  }

  function LastIn(ids: seq<string>): string -> int {
    id => if id in ids then LastIndex(ids, id) else 0
  }

  lemma PositionsOfCons(x: Item, tail: seq<Item>, index: string -> int)
    ensures Positions([x] + tail, index) == [index(x.id)] + Positions(tail, index)
  {
  }

  lemma PositionIn(items: seq<Item>, index: string -> int, x: Item)
    requires x in items
    ensures index(x.id) in Positions(items, index)
  {
    var p :| 0 <= p < |items| && items[p] == x;
    assert Positions(items, index)[p] == index(x.id);
  }

  lemma InTail(a: seq<int>, x: int)
    requires a != [] && Descending(a)
    ensures x in a[1..] <==> x in a && x != a[0]
  {
    if x in a && x != a[0] {
      var i :| 0 <= i < |a| && a[i] == x;
      assert a[1..][i - 1] == x;
    }
  }

  /** A strictly ordered sequence that has whatever exceeds one of its elements in another such sequence begins it. */
  lemma {:induction false} DescendingPrefix(a: seq<int>, b: seq<int>)
    requires Descending(a) && Descending(b) && forall x :: x in a ==> x in b
    requires forall x, y :: x in b && y in a && x > y ==> x in a
    ensures a <= b
  {
    if a != [] {
      assert a[0] in a && b[0] in b;
      assert a == [a[0]] + a[1..] && b == [b[0]] + b[1..];
      assert a[0] == b[0];
      forall x
        ensures (x in a[1..] <==> x in a && x != a[0]) && (x in b[1..] <==> x in b && x != a[0])
      {
        InTail(a, x);
        InTail(b, x);
      }
      DescendingPrefix(a[1..], b[1..]);
    }
  }

  lemma FirstStaysFirst(x: Item, items: seq<Item>, id: string, index: string -> int)
    requires Descending([index(x.id)] + Positions(items, index)) && Descending(Positions(Without(items, id), index))
    ensures Descending(Positions([x] + Without(items, id), index))
  {
    var tail := Without(items, id);
    forall q | 0 <= q < |tail|
      ensures index(x.id) > Positions(tail, index)[q]
    {
      PositionIn(items, index, tail[q]);
      var i :| 0 <= i < |items| && Positions(items, index)[i] == index(tail[q].id);
      assert ([index(x.id)] + Positions(items, index))[0] > ([index(x.id)] + Positions(items, index))[i + 1];
    }
    PositionsOfCons(x, tail, index);
  }

  lemma {:induction false} WithoutDescending(items: seq<Item>, id: string, index: string -> int)
    requires Descending(Positions(items, index))
    ensures Descending(Positions(Without(items, id), index))
    decreases |items|
  {
    if items != [] {
      assert items == [items[0]] + items[1..];
      PositionsOfCons(items[0], items[1..], index);
      hide Positions;
      assert Positions(items[1..], index) == Positions(items, index)[1..];
      WithoutDescending(items[1..], id, index);
      if items[0].id != id {
        FirstStaysFirst(items[0], items[1..], id, index);
      }
    }
  }

  lemma IdIn(items: seq<Item>, x: Item)
    requires x in items
    ensures x.id in Ids(items)
  {
    var i :| 0 <= i < |items| && items[i] == x;
    assert Ids(items)[i] == x.id;
  }

  /** An arrival leaves the positions of the others as they are. */
  lemma PositionsKept(arrivals: seq<Item>, x: Item, tail: seq<Item>)
    requires forall y :: y in tail ==> y in arrivals && y.id != x.id
    ensures Positions(tail, LastIn(Ids(arrivals + [x]))) == Positions(tail, LastIn(Ids(arrivals)))
    ensures forall q :: 0 <= q < |tail| ==> Positions(tail, LastIn(Ids(arrivals)))[q] < |arrivals|
  {
    LastId(arrivals + [x]);
    assert (arrivals + [x])[..|arrivals|] == arrivals;
    forall q | 0 <= q < |tail|
      ensures LastIn(Ids(arrivals + [x]))(tail[q].id) == LastIn(Ids(arrivals))(tail[q].id) < |arrivals|
    {
      assert tail[q] in arrivals;
      IdIn(arrivals, tail[q]);
    }
  }

  lemma DescendsFrom(n: int, positions: seq<int>)
    requires Descending(positions) && forall q :: 0 <= q < |positions| ==> positions[q] < n
    ensures Descending([n] + positions)
  {
  }

  lemma LastPosition(arrivals: seq<Item>)
    requires arrivals != []
    ensures LastIn(Ids(arrivals))(arrivals[|arrivals| - 1].id) == |arrivals| - 1
  {
    LastId(arrivals);
  }

  lemma StoredByLast(before: seq<Item>, arrivals: seq<Item>, x: Item)
    requires Descending(Positions(before, LastIn(Ids(arrivals)))) && forall y :: y in before ==> y in arrivals
    ensures Descending(Positions(Stored(before, x), LastIn(Ids(arrivals + [x]))))
  {
    var tail := Without(before, x.id);
    WithoutDescending(before, x.id, LastIn(Ids(arrivals)));
    hide Without, Positions, LastIn, Ids, Descending;
    PositionsKept(arrivals, x, tail);
    LastPosition(arrivals + [x]);
    PositionsOfCons(x, tail, LastIn(Ids(arrivals + [x])));
    DescendsFrom(|arrivals|, Positions(tail, LastIn(Ids(arrivals))));
  }

  /** The store has what arrived in the order of last arrival, the latest first. */
  lemma {:induction false} StoreByLast(arrivals: seq<Item>)
    ensures Descending(Positions(StoreAll([], arrivals), LastIn(Ids(arrivals))))
  {
    if arrivals != [] {
      hide Stored, Positions, LastIn, Ids, Descending, DistinctIds, HasId;
      var n := |arrivals| - 1;
      StoreByLast(arrivals[..n]);
      NoneDistinct();
      StoreFrom([], arrivals[..n]);
      StoredByLast(StoreAll([], arrivals[..n]), arrivals[..n], arrivals[n]);
      assert arrivals == arrivals[..n] + [arrivals[n]];
    }
  }

  /** The ids of a batch come in the order of first arrival. */
  lemma {:induction false} FirstByFirst(ids: seq<string>)
    ensures forall p, q :: 0 <= p < q < |First(ids)| ==> FirstIndex(ids, First(ids)[p]) < FirstIndex(ids, First(ids)[q])
  {
    if ids != [] {
      var n := |ids| - 1;
      var f := First(ids[..n]);
      FirstByFirst(ids[..n]);
      forall p | 0 <= p < |f|
        ensures f[p] in ids && FirstIndex(ids, f[p]) == FirstIndex(ids[..n], f[p]) < n
      {
        assert f[p] in f && f[p] in ids[..n];
      }
    }
  }

  /** Distinct entries stored one after the other are in the order of their arrival. */
  lemma {:induction false} StoreReversed(items: seq<Item>)
    requires AllDistinct(Ids(items))
    ensures |StoreAll([], items)| == |items|
    ensures forall i :: 0 <= i < |items| ==> StoreAll([], items)[i] == items[|items| - 1 - i]
  {
    hide Without, AllDistinct, Ids, HasId;
    if items != [] {
      var n := |items| - 1;
      DistinctFront(items);
      StoreReversed(items[..n]);
      StoreHas(items[..n], items[n].id);
      WithoutAbsent(StoreAll([], items[..n]), items[n].id);
    }
  }

  lemma FirstDistinct(ids: seq<string>)
    ensures AllDistinct(First(ids))
  {
    hide First;
    FirstByFirst(ids);
    var f := First(ids);
    forall i, j | 0 <= i < j < |f|
      ensures f[i] != f[j]
    {
      assert f[i] in ids && f[j] in ids;
    }
  }

  // ---------- one batch ----------

  /** Positions tell entries of the store apart. */
  lemma SameByPositions(a: seq<Item>, b: seq<Item>, all: seq<Item>, ids: seq<string>)
    requires DistinctIds(all) && (forall x :: x in a ==> x in all) && (forall x :: x in b ==> x in all)
    requires forall x :: x in all ==> x.id in ids
    requires Positions(a, LastIn(ids)) == Positions(b, LastIn(ids))
    ensures a == b
  {
    assert |a| == |Positions(a, LastIn(ids))| == |b|;
    forall p | 0 <= p < |a|
      ensures a[p] == b[p]
    {
      assert Positions(a, LastIn(ids))[p] == Positions(b, LastIn(ids))[p];
      assert a[p] in all && b[p] in all;
      assert a[p].id == ids[LastIndex(ids, a[p].id)] == b[p].id;
    }
  }

  // ---------- what the reload finds ----------

  lemma IdsGrow(items: seq<Item>, x: Item)
    ensures Ids(items + [x]) == Ids(items) + [x.id]
  {
  }

  lemma FoundOne(entries: seq<Item>, id: string)
    requires HasId(entries, id)
    ensures |Find(entries, id)| == 1 && Find(entries, id) == [Find(entries, id)[0]]
    ensures Find(entries, id)[0].id == id && Find(entries, id)[0] in entries
  {
    assert Find(entries, id)[0] in Find(entries, id);
  }

  lemma {:induction false} FoundAll(ids: seq<string>, entries: seq<Item>)
    requires forall id :: id in ids ==> HasId(entries, id)
    ensures Ids(Found(ids, entries)) == ids
    ensures forall x :: x in Found(ids, entries) ==> x in entries
  {
    hide HasId, Find, Ids;
    if ids == [] {
      assert Ids([]) == [];
    } else {
      var n := |ids| - 1;
      assert ids[n] in ids;
      FoundAll(ids[..n], entries);
      FoundOne(entries, ids[n]);
      var y := Find(entries, ids[n])[0];
      assert Found(ids, entries) == Found(ids[..n], entries) + [y];
      IdsGrow(Found(ids[..n], entries), y);
      assert ids == ids[..n] + [ids[n]];
    }
  }

  lemma NothingFirst()
    ensures First([]) == []
  {
  }

  lemma FirstOfMore(ids: seq<string>, id: string)
    ensures First(ids + [id]) == if id in ids then First(ids) else First(ids) + [id]
  {
    assert (ids + [id])[..|ids|] == ids;
  }

  lemma SameMatch(entries: seq<Item>, arrivals: seq<Item>, x: Item, y: Item, model: Model)
    requires KeepMatching(entries, arrivals + [x], model) && y in entries && y.id == x.id
    ensures MatchesFilter(y, model) == MatchesFilter(x, model) && KeepMatching([], arrivals + [x], model)
  {
    hide MatchesFilter;
    assert x in arrivals + [x];
  }

  lemma FoundMore(ids: seq<string>, id: string, entries: seq<Item>, y: Item)
    requires Find(entries, id) == [y]
    ensures Found(ids + [id], entries) == Found(ids, entries) + [y]
  {
    assert (ids + [id])[..|ids|] == ids;
  }

  lemma QueriedMore(items: seq<Item>, x: Item, model: Model)
    ensures Ids(Query(items + [x], model)) ==
            if MatchesFilter(x, model) then Ids(Query(items, model)) + [x.id] else Ids(Query(items, model))
  {
    hide MatchesFilter;
    QueryConcat(items, [x], model);
    OneQueried(x, model);
    assert Query(items, model) + [] == Query(items, model);
  }

  lemma MatchingBefore(arrivals: seq<Item>, x: Item, model: Model)
    requires KeepMatching([], arrivals + [x], model)
    ensures x.id in Ids(Query(arrivals, model)) <==> x.id in Ids(arrivals) && MatchesFilter(x, model)
  {
    hide MatchesFilter;
    IdsOf(Query(arrivals, model), x.id);
    IdsOf(arrivals, x.id);
    assert x in arrivals + [x];
    if HasId(arrivals, x.id) {
      var z :| z in arrivals && z.id == x.id;
      assert z in arrivals + [x];
      assert MatchesFilter(z, model) == MatchesFilter(x, model);
      assert MatchesFilter(z, model) ==> z in Query(arrivals, model);
    }
    if HasId(Query(arrivals, model), x.id) {
      var z :| z in Query(arrivals, model) && z.id == x.id;
      assert z in arrivals && z in arrivals + [x];
    }
  }

  lemma FoundOneMore(arrivals: seq<Item>, x: Item, entries: seq<Item>, model: Model)
    requires HasId(entries, x.id) && KeepMatching(entries, arrivals + [x], model)
    requires Ids(Query(Found(First(Ids(arrivals)), entries), model)) == First(Ids(Query(arrivals, model)))
    ensures Ids(Query(Found(First(Ids(arrivals + [x])), entries), model)) == First(Ids(Query(arrivals + [x], model)))
  {
    hide HasId, Find, MatchesFilter, Query, First, Ids, Found;
    FoundOne(entries, x.id);
    var y := Find(entries, x.id)[0];
    SameMatch(entries, arrivals, x, y, model);
    MatchingBefore(arrivals, x, model);
    QueriedMore(arrivals, x, model);
    IdsGrow(arrivals, x);
    FirstOfMore(Ids(arrivals), x.id);
    FirstOfMore(Ids(Query(arrivals, model)), x.id);
    if x.id !in Ids(arrivals) {
      FoundMore(First(Ids(arrivals)), x.id, entries, y);
      QueriedMore(Found(First(Ids(arrivals)), entries), y, model);
    }
  }

  /** Entries that match are found in the order in which matching entries first arrived. */
  lemma {:induction false} FoundMatching(arrivals: seq<Item>, entries: seq<Item>, model: Model)
    requires forall id :: id in Ids(arrivals) ==> HasId(entries, id)
    requires KeepMatching(entries, arrivals, model)
    ensures Ids(Query(Found(First(Ids(arrivals)), entries), model)) == First(Ids(Query(arrivals, model)))
  {
    hide HasId, Find, MatchesFilter, Query, First, KeepMatching;
    if arrivals == [] {
      NothingQueried(model);
      NothingFirst();
    } else {
      var n := |arrivals| - 1;
      var x := arrivals[n];
      LastId(arrivals);
      KeepMatchingFront(entries, arrivals, model);
      FoundMatching(arrivals[..n], entries, model);
      assert arrivals == arrivals[..n] + [x];
      assert x.id in Ids(arrivals) by {
        assert Ids(arrivals)[n] == x.id;
      }
      FoundOneMore(arrivals[..n], x, entries, model);
    }
  }

  lemma SameById(items: seq<Item>, b: seq<Item>, after: seq<Item>, ids: seq<string>)
    requires DistinctIds(after) && (forall x :: x in items ==> x in after) && b <= after
    requires Ids(items) == ids && forall id :: id in ids <==> HasId(b, id)
    ensures forall x :: x in items <==> x in b
  {
    forall x | x in items
      ensures x in b
    {
      IdIn(items, x);
      var y :| y in b && y.id == x.id;
      assert y in after;
    }
    forall x | x in b
      ensures x in items
    {
      assert HasId(b, x.id);
      IdsOf(items, x.id);
      var y :| y in items && y.id == x.id;
      assert x in after;
    }
  }

  /** What a batch of at most fifty entries delivers: every entry that arrived, as the store has it. */
  lemma ReloadFindsAll(store: seq<Item>, arrivals: seq<Item>)
    requires DistinctIds(store) && |First(Ids(arrivals))| <= RELOAD_WINDOW
    ensures var b := StoreAll([], arrivals);
      var entries := Take(StoreAll(store, arrivals), RELOAD_WINDOW);
      var items := Found(First(Ids(arrivals)), entries);
      && Ids(items) == First(Ids(arrivals))
      && (forall id :: id in Ids(arrivals) ==> HasId(entries, id))
      && (forall x :: x in entries ==> x in arrivals || x in store)
      && forall x :: x in items <==> x in b
  {
    hide Found, First, Minus, Stored, StoreAll;
    var b := StoreAll([], arrivals);
    var after := StoreAll(store, arrivals);
    var entries := Take(after, RELOAD_WINDOW);
    StoreSplits(store, arrivals);
    StoreLength(arrivals);
    StoreFrom(store, arrivals);
    StoreFrom([], arrivals);
    assert forall i :: 0 <= i < |b| ==> entries[i] == b[i];
    assert forall x :: x in entries ==> x in after;
    forall id | id in Ids(arrivals)
      ensures HasId(entries, id)
    {
      StoreHas(arrivals, id);
      var x :| x in b && x.id == id;
      assert x in entries;
    }
    forall id
      ensures HasId(b, id) <==> id in Ids(arrivals)
    {
      StoreHas(arrivals, id);
    }
    FoundAll(First(Ids(arrivals)), entries);
    SameById(Found(First(Ids(arrivals)), entries), b, after, First(Ids(arrivals)));
  }

  // ---------- what else the reload finds ----------

  lemma DistinctMore(ids: seq<string>, id: string)
    requires AllDistinct(ids) && id !in ids
    ensures AllDistinct(ids + [id])
  {
  }

  lemma {:induction false} FoundFrom(batch: seq<string>, entries: seq<Item>)
    requires AllDistinct(batch)
    ensures AllDistinct(Ids(Found(batch, entries)))
    ensures forall x :: x in Found(batch, entries) ==> x in entries && x.id in batch
  {
    hide Find, HasId;
    if batch != [] {
      var n := |batch| - 1;
      var front, last := Found(batch[..n], entries), Find(entries, batch[n]);
      FoundFrom(batch[..n], entries);
      assert batch[n] !in batch[..n];
      if last == [] {
        assert front + last == front;
      } else {
        assert last[0] in last && last == [last[0]];
        forall i | 0 <= i < |front|
          ensures Ids(front)[i] != batch[n]
        {
          assert front[i] in front;
        }
        IdsGrow(front, last[0]);
        DistinctMore(Ids(front), batch[n]);
      }
    }
  }

  lemma {:induction false} NotMore(items: seq<Item>, entries: seq<Item>)
    requires AllDistinct(Ids(items)) && forall x :: x in items ==> x in entries
    ensures |items| <= |entries|
  {
    if items != [] {
      var n := |items| - 1;
      DistinctFront(items);
      assert HasId(entries, items[n].id);
      WithoutAbsent(entries, items[n].id);
      forall x | x in items[..n]
        ensures x in Without(entries, items[n].id)
      {
        IdIn(items[..n], x);
      }
      NotMore(items[..n], Without(entries, items[n].id));
    }
  }

  lemma {:induction false} MinusHas(items: seq<Item>, ids: set<string>)
    ensures forall x :: x in Minus(items, ids) <==> x in items && x.id !in ids
  {
    if items != [] {
      MinusHas(items[1..], ids);
    }
  }

  /** What is found of a batch has arrived, and is what the store has of the arrivals. */
  lemma Reloaded(store: seq<Item>, arrivals: seq<Item>, batch: seq<string>)
    requires AllDistinct(batch) && forall id :: id in batch ==> id in Ids(arrivals)
    ensures var items := Found(batch, Take(StoreAll(store, arrivals), RELOAD_WINDOW));
      && AllDistinct(Ids(items)) && |items| <= RELOAD_WINDOW
      && forall x :: x in items ==> x in StoreAll([], arrivals) && x in arrivals
  {
    hide Found, StoreAll, Minus, AllDistinct, Ids, DistinctIds;
    var after := StoreAll(store, arrivals);
    var entries := Take(after, RELOAD_WINDOW);
    var items := Found(batch, entries);
    FoundFrom(batch, entries);
    NotMore(items, entries);
    StoreSplits(store, arrivals);
    MinusHas(store, IdSet(arrivals));
    NoneDistinct();
    StoreFrom([], arrivals);
    forall x | x in items
      ensures x in StoreAll([], arrivals)
    {
      assert x in after;
      IdsOf(arrivals, x.id);
    }
  }

  // ---------- the list after a batch ----------

  ghost predicate After(ids: seq<string>, p: nat, id: string) {
    exists q :: p < q < |ids| && ids[q] == id
  }

  /** Of the matching arrivals, the delivered ones are the newest, delivered in the order of last arrival:
      whatever arrived after a delivered one was delivered after it. */
  ghost predicate Newest(matching: seq<string>, delivered: seq<string>) {
    forall p, v :: 0 <= p < |delivered| && delivered[p] in matching && v in matching ==>
        LastIndex(matching, delivered[p]) < LastIndex(matching, v) ==> After(delivered, p, v)
  }

  /** Every matching arrival is delivered. */
  ghost predicate NoneMissed(matching: seq<string>, delivered: seq<string>) {
    forall id :: id in matching ==> id in delivered
  }

  /** Every entry on the list is delivered again. */
  ghost predicate AllRedelivered(shown: seq<Item>, items: seq<Item>) {
    forall x :: x in shown ==> HasId(items, x.id)
  }

  /** An entry that is copied again differs from what is stored, be it in the time of its last use. */
  ghost predicate Renewed(store: seq<Item>, arrivals: seq<Item>) {
    forall x :: x in store ==> x !in arrivals
  }

  /** When handing over `items` of the `arrivals` brings a list up to date. */
  ghost predicate BringsUpToDate(shown: seq<Item>, items: seq<Item>, arrivals: seq<Item>, model: Model) {
    var matching, delivered := Ids(Query(arrivals, model)), Ids(Query(items, model));
    Newest(matching, delivered) && (NoneMissed(matching, delivered) || AllRedelivered(shown, items))
  }

  lemma DistinctEither(items: seq<Item>)
    ensures AllDistinct(Ids(items)) <==> DistinctIds(items)
  {
    if DistinctIds(items) {
      assert forall i :: 0 <= i < |items| ==> Ids(items)[i] == items[i].id;
    } else {
      var i, j :| 0 <= i < j < |items| && items[i].id == items[j].id;
      assert Ids(items)[i] == Ids(items)[j];
    }
  }

  ghost predicate IsReversed(s: seq<Item>, items: seq<Item>) {
    |s| == |items| && forall i :: 0 <= i < |items| ==> s[i] == items[|items| - 1 - i]
  }

  /** What was handed over stands in the list in the reverse order. */
  lemma DeliveredReversed(items: seq<Item>, model: Model)
    requires AllDistinct(Ids(items)) && KeepMatching([], items, model)
    ensures AllDistinct(Ids(Query(items, model)))
    ensures IsReversed(Query(StoreAll([], items), model), Query(items, model))
  {
    hide Query, StoreAll, DistinctIds, AllDistinct, KeepMatching, Ids;
    DistinctEither(items);
    QueryDistinct(items, model);
    DistinctEither(Query(items, model));
    QueryOfStoreAll(items, model);
    StoreReversed(Query(items, model));
  }

  lemma WhereAfter(ids: seq<string>, p: nat, id: string) returns (q: nat)
    requires After(ids, p, id)
    ensures p < q < |ids| && ids[q] == id
  {
    q :| p < q < |ids| && ids[q] == id;
  }

  lemma IdAt(items: seq<Item>, i: nat)
    requires i < |items|
    ensures Ids(items)[i] == items[i].id
  {
  }

  lemma NewestAt(matching: seq<string>, delivered: seq<string>, i: nat, j: nat)
    requires AllDistinct(delivered) && Newest(matching, delivered) && i < j < |delivered|
    requires delivered[i] in matching && delivered[j] in matching
    ensures LastIndex(matching, delivered[i]) < LastIndex(matching, delivered[j])
  {
    var u, v := delivered[i], delivered[j];
    assert matching[LastIndex(matching, u)] != matching[LastIndex(matching, v)];
    hide LastIndex;
    assert !After(delivered, j, u);
  }

  lemma PositionAt(items: seq<Item>, ids: seq<string>, i: nat)
    requires i < |items| && items[i].id in ids
    ensures Positions(items, LastIn(ids))[i] == LastIndex(ids, items[i].id)
  {
    hide LastIndex;
  }

  /** Under `Newest` the delivered entries stand in the order of the query. */
  lemma NewestDescends(front: seq<Item>, delivered: seq<Item>, matching: seq<string>)
    requires IsReversed(front, delivered) && AllDistinct(Ids(delivered)) && Newest(matching, Ids(delivered))
    requires forall x :: x in front ==> x.id in matching
    ensures Descending(Positions(front, LastIn(matching)))
  {
    hide LastIndex, LastIn, Positions, Newest, AllDistinct;
    forall p, q | 0 <= p < q < |front|
      ensures Positions(front, LastIn(matching))[p] > Positions(front, LastIn(matching))[q]
    {
      var n := |delivered| - 1;
      assert front[p] in front && front[q] in front;
      assert Ids(delivered)[n - q] == front[q].id && Ids(delivered)[n - p] == front[p].id;
      NewestAt(matching, Ids(delivered), n - q, n - p);
      PositionAt(front, matching, p);
      PositionAt(front, matching, q);
    }
  }

  lemma HasAt(items: seq<Item>, i: nat)
    requires i < |items|
    ensures HasId(items, items[i].id)
  {
  }

  /** And whatever the query has in front of a delivered entry is delivered. */
  lemma NewestCloses(front: seq<Item>, delivered: seq<Item>, matching: seq<string>, j: nat, id: string)
    requires IsReversed(front, delivered) && Newest(matching, Ids(delivered))
    requires j < |front| && front[j].id in matching && id in matching
    requires LastIndex(matching, front[j].id) < LastIndex(matching, id)
    ensures HasId(front, id)
  {
    hide LastIndex, HasId, After;
    var n := |delivered| - 1;
    assert Ids(delivered)[n - j] == front[j].id;
    var k := WhereAfter(Ids(delivered), n - j, id);
    IdAt(delivered, k);
    HasAt(front, n - k);
  }

  /** The query's answer on what arrived: each matching arrival once, the latest first. */
  ghost predicate Answers(answer: seq<Item>, matching: seq<string>) {
    && DistinctIds(answer) && Descending(Positions(answer, LastIn(matching)))
    && forall id :: HasId(answer, id) <==> id in matching
  }

  lemma NewestCloseUp(front: seq<Item>, delivered: seq<Item>, matching: seq<string>, answer: seq<Item>, x: int, y: int)
    requires IsReversed(front, delivered) && Newest(matching, Ids(delivered))
    requires forall z :: z in front || z in answer ==> z.id in matching
    requires x in Positions(answer, LastIn(matching)) && y in Positions(front, LastIn(matching)) && x > y
    ensures x in Positions(front, LastIn(matching))
  {
    hide LastIndex, LastIn, Positions, Newest, Ids, IsReversed;
    var i :| 0 <= i < |answer| && Positions(answer, LastIn(matching))[i] == x;
    var j :| 0 <= j < |front| && Positions(front, LastIn(matching))[j] == y;
    assert answer[i] in answer && front[j] in front;
    PositionAt(answer, matching, i);
    PositionAt(front, matching, j);
    NewestCloses(front, delivered, matching, j, answer[i].id);
    var z :| z in front && z.id == answer[i].id;
    var k :| 0 <= k < |front| && front[k] == z;
    PositionAt(front, matching, k);
  }

  lemma NewestIsPrefix(front: seq<Item>, delivered: seq<Item>, matching: seq<string>, answer: seq<Item>)
    requires IsReversed(front, delivered) && AllDistinct(Ids(delivered)) && Newest(matching, Ids(delivered))
    requires Answers(answer, matching) && forall x :: x in front ==> x in answer
    ensures front <= answer
  {
    hide LastIn, Newest, Descending, AllDistinct, Ids, IsReversed;
    forall x | x in answer
      ensures x.id in matching
    {
      assert HasId(answer, x.id);
    }
    var a, b := Positions(front, LastIn(matching)), Positions(answer, LastIn(matching));
    NewestDescends(front, delivered, matching);
    forall x | x in a
      ensures x in b
    {
      var i :| 0 <= i < |front| && a[i] == x;
      assert front[i] in front;
      PositionIn(answer, LastIn(matching), front[i]);
    }
    forall x, y | x in b && y in a && x > y
      ensures x in a
    {
      NewestCloseUp(front, delivered, matching, answer, x, y);
    }
    DescendingPrefix(a, b);
    assert Positions(answer[..|front|], LastIn(matching)) == b[..|front|] == a;
    SameByPositions(front, answer[..|front|], answer, matching);
  }

  lemma WhereIs(items: seq<Item>, id: string) returns (j: nat)
    requires HasId(items, id)
    ensures j < |items| && items[j].id == id
  {
    var x :| x in items && x.id == id;
    j :| 0 <= j < |items| && items[j] == x;
  }

  lemma DeliveredLater(front: seq<Item>, delivered: seq<Item>, answer: seq<Item>, p: nat, j: nat)
    requires IsReversed(front, delivered) && front <= answer
    requires p < |delivered| && j < |delivered| - 1 - p
    ensures answer[|delivered| - 1 - p].id == Ids(delivered)[p] && After(Ids(delivered), p, answer[j].id)
  {
    var n := |delivered| - 1;
    assert answer[n - p] == front[n - p] == delivered[p];
    assert answer[j] == front[j] == delivered[n - j];
    assert Ids(delivered)[n - j] == answer[j].id;
  }

  lemma PrefixIsNewest(front: seq<Item>, delivered: seq<Item>, matching: seq<string>, answer: seq<Item>)
    requires IsReversed(front, delivered) && front <= answer && Answers(answer, matching)
    ensures Newest(matching, Ids(delivered))
  {
    hide LastIndex, LastIn, Positions, Ids, After, HasId;
    var d := Ids(delivered);
    forall p, v | 0 <= p < |d| && d[p] in matching && v in matching
                  && LastIndex(matching, d[p]) < LastIndex(matching, v)
      ensures After(d, p, v)
    {
      var n := |delivered| - 1;
      assert HasId(answer, v);
      var j := WhereIs(answer, v);
      assert answer[n - p] == front[n - p] == delivered[p];
      IdAt(delivered, p);
      PositionAt(answer, matching, j);
      PositionAt(answer, matching, n - p);
      assert j < n - p;
      DeliveredLater(front, delivered, answer, p, j);
    }
  }

  /** What the query answers on the arrivals. */
  lemma ArrivedAnswer(arrivals: seq<Item>, model: Model)
    requires KeepMatching([], arrivals, model)
    ensures Answers(Query(StoreAll([], arrivals), model), Ids(Query(arrivals, model)))
  {
    hide Query, StoreAll, DistinctIds, HasId, Descending, Positions, LastIn, Ids;
    var m := Query(arrivals, model);
    QueryOfStoreAll(arrivals, model);
    StoreByLast(m);
    NoneDistinct();
    StoreFrom([], m);
    forall id
      ensures HasId(StoreAll([], m), id) <==> id in Ids(m)
    {
      StoreHas(m, id);
    }
  }

  // ---------- what follows the delivered entries ----------

  lemma {:induction false} RestAgrees(store: seq<Item>, a: set<string>, b: set<string>, model: Model)
    requires forall x :: x in store && MatchesFilter(x, model) ==> (x.id in a <==> x.id in b)
    ensures Query(Minus(store, a), model) == Query(Minus(store, b), model)
  {
    hide MatchesFilter;
    if store != [] {
      assert store[0] in store && forall x :: x in store[1..] ==> x in store;
      RestAgrees(store[1..], a, b, model);
      QueryConcat([store[0]], Minus(store[1..], a), model);
      QueryConcat([store[0]], Minus(store[1..], b), model);
      OneQueried(store[0], model);
    }
  }

  /** If no matching arrival is missed, the rest of the store answers what it did. */
  lemma RestOfStore(store: seq<Item>, items: seq<Item>, arrivals: seq<Item>, model: Model)
    requires KeepMatching(store, arrivals, model) && forall x :: x in items ==> x in arrivals
    requires NoneMissed(Ids(Query(arrivals, model)), Ids(Query(items, model)))
    ensures Query(Minus(store, IdSet(items)), model) == Query(Minus(store, IdSet(arrivals)), model)
  {
    hide MatchesFilter;
    forall x | x in store && MatchesFilter(x, model)
      ensures x.id in IdSet(items) <==> x.id in IdSet(arrivals)
    {
      if x.id in IdSet(arrivals) {
        var y :| y in arrivals && y.id == x.id;
        assert y in Query(arrivals, model);
        IdIn(Query(arrivals, model), y);
        IdsOf(Query(items, model), x.id);
      }
    }
    RestAgrees(store, IdSet(items), IdSet(arrivals), model);
  }

  lemma {:induction false} PatchAllFrom(shown: seq<Item>, items: seq<Item>, model: Model, cap: nat)
    ensures forall x :: x in PatchAll(shown, items, model, cap) ==> x in shown || x in items
  {
    hide MatchesFilter, Without;
    if items != [] {
      PatchAllFrom(shown, items[..|items| - 1], model, cap);
    }
  }

  lemma PatchedStays(list: seq<Item>, item: Item, x: Item, model: Model, cap: nat)
    requires DistinctIds(list) && item.id != x.id && (x in list || |list| >= cap)
    ensures x in Patched(list, item, model, cap) || |Patched(list, item, model, cap)| >= cap
  {
    hide MatchesFilter, HasId, DistinctIds;
    WithoutAbsent(list, item.id);
    if HasId(list, item.id) {
      WithoutPresent(list, item.id);
    }
    assert x in list ==> x in [item] + Without(list, item.id);
  }

  lemma PrefixDistinct(a: seq<Item>, b: seq<Item>)
    requires a <= b && DistinctIds(b)
    ensures DistinctIds(a)
  {
  }

  /** An entry that is not delivered again stays on the list unless the list is full. */
  lemma {:induction false} OthersStay(shown: seq<Item>, store: seq<Item>, items: seq<Item>, x: Item, model: Model,
                                      cap: nat)
    requires DistinctIds(store) && shown <= Query(store, model)
    requires AllDistinct(Ids(items)) && KeepMatching(store, items, model)
    requires x in shown && !HasId(items, x.id)
    ensures var list := PatchAll(shown, items, model, cap);
      x in list || |list| >= cap
  {
    hide MatchesFilter, Patched, Query, KeepMatching, AllDistinct, Ids, DistinctIds, Stored;
    if items != [] {
      var n := |items| - 1;
      DistinctFront(items);
      KeepMatchingFront(store, items, model);
      assert items[n] in items && forall y :: y in items[..n] ==> y in items;
      OthersStay(shown, store, items[..n], x, model, cap);
      ListFollows(shown, store, items[..n], model, cap);
      StoreFrom(store, items[..n]);
      QueryDistinct(StoreAll(store, items[..n]), model);
      var list := PatchAll(shown, items[..n], model, cap);
      PrefixDistinct(list, Query(StoreAll(store, items[..n]), model));
      PatchedStays(list, items[n], x, model, cap);
    }
  }

  /** The list after a batch: what was delivered, followed by some of what was not. */
  lemma ListParts(shown: seq<Item>, store: seq<Item>, items: seq<Item>, model: Model, cap: nat)
    requires DistinctIds(store) && shown <= Query(store, model) && |items| <= cap
    requires AllDistinct(Ids(items)) && KeepMatching(store, items, model)
    ensures var front := Query(StoreAll([], items), model);
      front <= PatchAll(shown, items, model, cap) <= front + Query(Minus(store, IdSet(items)), model)
  {
    hide MatchesFilter, Query, StoreAll, PatchAll, Minus, DistinctIds, AllDistinct, KeepMatching, Ids, IdSet;
    ListFollows(shown, store, items, model, cap);
    DeliveredInFront(shown, items, model, cap);
    StoreSplits(store, items);
    QueryConcat(StoreAll([], items), Minus(store, IdSet(items)), model);
  }

  lemma HasIdSet(items: seq<Item>, id: string)
    ensures HasId(items, id) <==> id in IdSet(items)
  {
  }

  lemma NotItem(items: seq<Item>, x: Item)
    requires !HasId(items, x.id)
    ensures x !in items
  {
  }

  /** What follows the delivered entries was on the list, and is none of them. */
  lemma FollowerIsOlder(shown: seq<Item>, store: seq<Item>, items: seq<Item>, model: Model, cap: nat)
    requires DistinctIds(store) && shown <= Query(store, model) && |items| <= cap
    requires AllDistinct(Ids(items)) && KeepMatching(store, items, model)
    requires |PatchAll(shown, items, model, cap)| > |Query(StoreAll([], items), model)|
    ensures var x := PatchAll(shown, items, model, cap)[|Query(StoreAll([], items), model)|];
      x in shown && !HasId(items, x.id)
  {
    hide MatchesFilter, Query, StoreAll, PatchAll, Minus, DistinctIds, AllDistinct, KeepMatching, Ids, IdSet, HasId;
    var list, front := PatchAll(shown, items, model, cap), Query(StoreAll([], items), model);
    ListParts(shown, store, items, model, cap);
    var x := list[|front|];
    assert x in list;
    PatchAllFrom(shown, items, model, cap);
    assert x in Query(Minus(store, IdSet(items)), model);
    MinusHas(store, IdSet(items));
    HasIdSet(items, x.id);
    NotItem(items, x);
  }

  /** Nothing follows the delivered entries exactly if everything on the list is delivered again. */
  lemma NothingFollowsExactly(shown: seq<Item>, store: seq<Item>, items: seq<Item>, model: Model, cap: nat)
    requires DistinctIds(store) && shown <= Query(store, model) && |items| < cap
    requires AllDistinct(Ids(items)) && KeepMatching(store, items, model)
    ensures |PatchAll(shown, items, model, cap)| == |Query(StoreAll([], items), model)|
            <==> AllRedelivered(shown, items)
  {
    hide MatchesFilter, Query, StoreAll, PatchAll, Minus, DistinctIds, AllDistinct, KeepMatching, Ids, IdSet, HasId;
    var list, front := PatchAll(shown, items, model, cap), Query(StoreAll([], items), model);
    ListParts(shown, store, items, model, cap);
    NoneDistinct();
    StoreFrom([], items);
    StoreAllLength(items);
    QueryLength(StoreAll([], items), model);
    if |list| > |front| {
      FollowerIsOlder(shown, store, items, model, cap);
    }
    if x :| x in shown && !HasId(items, x.id) {
      OthersStay(shown, store, items, x, model, cap);
      NotItem(items, x);
      assert |list| == |front| ==> list == front;
    }
  }

  lemma AmongAnswer(items: seq<Item>, arrivals: seq<Item>, model: Model)
    requires forall x :: x in items ==> x in StoreAll([], arrivals)
    ensures forall x :: x in Query(StoreAll([], items), model) ==> x in Query(StoreAll([], arrivals), model)
  {
    hide MatchesFilter, StoreAll, DistinctIds;
    NoneDistinct();
    StoreFrom([], items);
  }

  /** The front of the list is that of the query exactly if the newest matching arrivals were delivered in order. */
  lemma FrontExactly(store: seq<Item>, arrivals: seq<Item>, items: seq<Item>, model: Model)
    requires KeepMatching([], arrivals, model) && AllDistinct(Ids(items))
    requires forall x :: x in items ==> x in StoreAll([], arrivals) && x in arrivals
    ensures Query(StoreAll([], items), model) <= Query(StoreAll([], arrivals), model)
            <==> Newest(Ids(Query(arrivals, model)), Ids(Query(items, model)))
  {
    hide MatchesFilter, Query, StoreAll, DistinctIds, AllDistinct, Ids, Newest, Answers, IsReversed;
    var front, answer := Query(StoreAll([], items), model), Query(StoreAll([], arrivals), model);
    var delivered, matching := Query(items, model), Ids(Query(arrivals, model));
    DeliveredReversed(items, model);
    ArrivedAnswer(arrivals, model);
    AmongAnswer(items, arrivals, model);
    if front <= answer {
      PrefixIsNewest(front, delivered, matching, answer);
    }
    if Newest(matching, Ids(delivered)) {
      NewestIsPrefix(front, delivered, matching, answer);
    }
  }

  /** If no matching arrival is missed, what was delivered is all the query has of the arrivals. */
  lemma WholeFront(front: seq<Item>, answer: seq<Item>, delivered: seq<Item>, matching: seq<string>)
    requires IsReversed(front, delivered) && front <= answer && Answers(answer, matching)
    ensures front == answer <==> NoneMissed(matching, Ids(delivered))
  {
    hide Descending;
    if |front| < |answer| {
      HasAt(answer, |front|);
      forall k | 0 <= k < |delivered|
        ensures Ids(delivered)[k] != answer[|front|].id
      {
        var i := |delivered| - 1 - k;
        assert answer[i] == front[i] == delivered[k];
      }
    }
    if front == answer {
      forall id | id in matching
        ensures id in Ids(delivered)
      {
        assert HasId(answer, id);
        var x :| x in answer && x.id == id;
        var j :| 0 <= j < |front| && front[j] == x;
        assert Ids(delivered)[|delivered| - 1 - j] == id;
      }
    }
  }

  lemma FrontFits(list: seq<Item>, front: seq<Item>, answer: seq<Item>, rest: seq<Item>)
    requires front <= list <= answer + rest && (forall x :: x in front ==> x in answer)
    requires forall x :: x in rest ==> x !in answer
    ensures |front| <= |answer|
  {
    assert forall i :: 0 <= i < |front| ==> front[i] in answer && front[i] == list[i];
    assert |answer| < |list| ==> list[|answer|] == (answer + rest)[|answer|] == rest[0] && rest[0] in rest;
  }

  /** A list and an answer that continue their fronts. */
  lemma ContinuesExactly(list: seq<Item>, front: seq<Item>, answer: seq<Item>, rest: seq<Item>)
    requires front <= list && (forall x :: x in front ==> x in answer)
    requires forall x :: x in rest ==> x !in answer
    ensures list <= answer + rest <==> front <= answer && list[|front|..] <= answer[|front|..] + rest
  {
    if list <= answer + rest {
      FrontFits(list, front, answer, rest);
      assert front == list[..|front|] == (answer + rest)[..|front|] == answer[..|front|];
      assert (answer + rest)[|front|..] == answer[|front|..] + rest;
    }
    if front <= answer && list[|front|..] <= answer[|front|..] + rest {
      assert list == front + list[|front|..] && answer == front + answer[|front|..];
    }
  }

  /** What stays on the list from before differs from every arrival. */
  lemma OlderOnesDiffer(list: seq<Item>, front: seq<Item>, older: seq<Item>, answer: seq<Item>, rest: seq<Item>)
    requires front <= list <= front + older && front < answer && forall x :: x in older ==> x !in answer
    ensures list[|front|..] <= answer[|front|..] + rest <==> |list| == |front|
  {
    if |list| > |front| {
      assert list[|front|] == (front + older)[|front|] == older[0];
      assert older[0] in older && answer[|front|] in answer;
      assert list[|front|..][0] != (answer[|front|..] + rest)[0];
    }
  }

  /** The arrivals that match, as the query shows them, the rest, and what is said of either. */
  lemma AnswerParts(store: seq<Item>, arrivals: seq<Item>, model: Model)
    ensures var answer, rest := Query(StoreAll([], arrivals), model), Query(Minus(store, IdSet(arrivals)), model);
      && Query(StoreAll(store, arrivals), model) == answer + rest
      && (forall x :: x in rest ==> x !in answer)
      && forall x :: x in answer ==> x in arrivals
  {
    hide MatchesFilter, Query, StoreAll, Minus, DistinctIds;
    StoreSplits(store, arrivals);
    QueryConcat(StoreAll([], arrivals), Minus(store, IdSet(arrivals)), model);
    NoneDistinct();
    StoreFrom([], arrivals);
    MinusHas(store, IdSet(arrivals));
    forall x | x in Query(Minus(store, IdSet(arrivals)), model)
      ensures x !in Query(StoreAll([], arrivals), model)
    {
      assert x.id !in IdSet(arrivals);
    }
  }

  lemma FewerMatch(store: seq<Item>, arrivals: seq<Item>, items: seq<Item>, model: Model)
    requires KeepMatching(store, arrivals, model) && forall x :: x in items ==> x in arrivals
    ensures KeepMatching(store, items, model) && KeepMatching([], items, model) && KeepMatching([], arrivals, model)
  {
  }

  /** Handing over some of what arrived keeps a list that was a prefix of the query's answer one, exactly if. */
  lemma DeliveryKeepsPrefixExactly(shown: seq<Item>, store: seq<Item>, arrivals: seq<Item>, items: seq<Item>,
                                   model: Model, cap: nat)
    requires DistinctIds(store) && shown <= Query(store, model) && KeepMatching(store, arrivals, model)
    requires AllDistinct(Ids(items)) && |items| < cap
    requires forall x :: x in items ==> x in StoreAll([], arrivals) && x in arrivals
    requires NoneMissed(Ids(Query(arrivals, model)), Ids(Query(items, model))) || Renewed(store, arrivals)
    ensures PatchAll(shown, items, model, cap) <= Query(StoreAll(store, arrivals), model)
            <==> BringsUpToDate(shown, items, arrivals, model)
  {
    hide MatchesFilter, Query, StoreAll, PatchAll, Minus, DistinctIds, AllDistinct, Ids, IdSet, Newest, NoneMissed,
        AllRedelivered, Answers, IsReversed, KeepMatching;
    var list, front := PatchAll(shown, items, model, cap), Query(StoreAll([], items), model);
    var answer, rest := Query(StoreAll([], arrivals), model), Query(Minus(store, IdSet(arrivals)), model);
    var older := Query(Minus(store, IdSet(items)), model);
    var matching, delivered := Ids(Query(arrivals, model)), Query(items, model);
    FewerMatch(store, arrivals, items, model);
    ListParts(shown, store, items, model, cap);
    AnswerParts(store, arrivals, model);
    FrontExactly(store, arrivals, items, model);
    AmongAnswer(items, arrivals, model);
    ContinuesExactly(list, front, answer, rest);
    if Newest(matching, Ids(delivered)) {
      DeliveredReversed(items, model);
      ArrivedAnswer(arrivals, model);
      WholeFront(front, answer, delivered, matching);
      NothingFollowsExactly(shown, store, items, model, cap);
      if NoneMissed(matching, Ids(delivered)) {
        RestOfStore(store, items, arrivals, model);
        assert list[|front|..] <= rest && answer[|front|..] == [];
      } else {
        MinusHas(store, IdSet(items));
        OlderOnesDiffer(list, front, older, answer, rest);
      }
    }
  }

  /**
   * The batch `batch` is reloaded after `arrivals`, those of the batch among them: the list, a prefix of
   * what the query answered before these arrivals, is one again exactly if the newest matching arrivals
   * were delivered in the order of last arrival, and all of them were unless nothing older stays.
   */
  lemma BatchKeepsPrefixExactly(shown: seq<Item>, store: seq<Item>, arrivals: seq<Item>, batch: seq<string>,
                                model: Model, cap: nat)
    requires DistinctIds(store) && shown <= Query(store, model) && KeepMatching(store, arrivals, model)
    requires AllDistinct(batch) && (forall id :: id in batch ==> id in Ids(arrivals)) && RELOAD_WINDOW < cap
    requires var items := Found(batch, Take(StoreAll(store, arrivals), RELOAD_WINDOW));
      NoneMissed(Ids(Query(arrivals, model)), Ids(Query(items, model))) || Renewed(store, arrivals)
    ensures var after := StoreAll(store, arrivals);
      var items := Found(batch, Take(after, RELOAD_WINDOW));
      PatchAll(shown, items, model, cap) <= Query(after, model) <==> BringsUpToDate(shown, items, arrivals, model)
  {
    hide BringsUpToDate, NoneMissed, Renewed, Found, Query, StoreAll, PatchAll, DistinctIds, AllDistinct, Ids,
        KeepMatching;
    Reloaded(store, arrivals, batch);
    DeliveryKeepsPrefixExactly(shown, store, arrivals, Found(batch, Take(StoreAll(store, arrivals), RELOAD_WINDOW)),
                               model, cap);
  }

  /** The order of a batch is that of first arrival. */
  lemma FirstsInOrder(ids: seq<string>, i: nat, j: nat)
    requires i < |First(ids)| && j < |First(ids)|
    ensures First(ids)[i] in ids && First(ids)[j] in ids
    ensures i < j <==> FirstIndex(ids, First(ids)[i]) < FirstIndex(ids, First(ids)[j])
  {
    assert First(ids)[i] in First(ids) && First(ids)[j] in First(ids);
    hide First, FirstIndex;
    FirstByFirst(ids);
  }

  lemma NewestFirsts(ids: seq<string>, u: string, v: string)
    requires Newest(ids, First(ids)) && u in ids && v in ids && FirstIndex(ids, u) < FirstIndex(ids, v)
    ensures LastIndex(ids, u) < LastIndex(ids, v)
  {
    hide First, FirstIndex, LastIndex, Newest;
    FirstDistinct(ids);
    var f := First(ids);
    var i :| 0 <= i < |f| && f[i] == u;
    var j :| 0 <= j < |f| && f[j] == v;
    FirstsInOrder(ids, i, j);
    NewestAt(ids, f, i, j);
  }

  lemma OrderedFirsts(ids: seq<string>, p: nat, v: string)
    requires SameOrder(ids) && p < |First(ids)| && v in ids && First(ids)[p] in ids
    requires LastIndex(ids, First(ids)[p]) < LastIndex(ids, v)
    ensures After(First(ids), p, v)
  {
    hide First, FirstIndex, LastIndex;
    var f := First(ids);
    var q :| 0 <= q < |f| && f[q] == v;
    FirstsInOrder(ids, q, p);
    assert q != p;
    assert q > p;
  }

  /** A batch of all that arrived, if it is small enough to be reloaded whole. */
  lemma DeliveredInOrder(ids: seq<string>)
    ensures NoneMissed(ids, First(ids)) && (Newest(ids, First(ids)) <==> SameOrder(ids))
  {
    hide First, FirstIndex, LastIndex, After;
    if Newest(ids, First(ids)) {
      forall u, v | u in ids && v in ids && FirstIndex(ids, u) < FirstIndex(ids, v)
        ensures LastIndex(ids, u) < LastIndex(ids, v)
      {
        NewestFirsts(ids, u, v);
      }
    }
    if SameOrder(ids) {
      forall p, v | 0 <= p < |First(ids)| && First(ids)[p] in ids && v in ids
                    && LastIndex(ids, First(ids)[p]) < LastIndex(ids, v)
        ensures After(First(ids), p, v)
      {
        OrderedFirsts(ids, p, v);
      }
    }
  }

  /** A batch of at most fifty entries, reloaded before anything else arrives, finds all that arrived; it keeps
      the list a prefix exactly if the matching entries arrived for the last time in the order of the first. */
  lemma SmallBatchKeepsPrefixExactly(shown: seq<Item>, store: seq<Item>, arrivals: seq<Item>, model: Model, cap: nat)
    requires DistinctIds(store) && shown <= Query(store, model) && KeepMatching(store, arrivals, model)
    requires |First(Ids(arrivals))| <= 50 < cap
    ensures var after := StoreAll(store, arrivals);
      var items := Found(First(Ids(arrivals)), Take(after, RELOAD_WINDOW));
      && NoneMissed(Ids(Query(arrivals, model)), Ids(Query(items, model)))
      && (PatchAll(shown, items, model, cap) <= Query(after, model) <==> SameOrder(Ids(Query(arrivals, model))))
  {
    hide MatchesFilter, Query, Found, First, StoreAll, SameOrder, PatchAll, Newest, NoneMissed, DistinctIds, Ids,
        AllDistinct;
    var entries := Take(StoreAll(store, arrivals), RELOAD_WINDOW);
    ReloadFindsAll(store, arrivals);
    assert KeepMatching(entries, arrivals, model);
    FoundMatching(arrivals, entries, model);
    DeliveredInOrder(Ids(Query(arrivals, model)));
    FirstDistinct(Ids(arrivals));
    BatchKeepsPrefixExactly(shown, store, arrivals, First(Ids(arrivals)), model, cap);
  }

  lemma SameEntry(items: seq<Item>, x: Item, y: Item)
    requires DistinctIds(items) && x in items && y in items && x.id == y.id
    ensures x == y
  {
  }

  /** More matching arrivals than the reload lists cannot all be delivered. */
  lemma TooManyMatch(arrivals: seq<Item>, items: seq<Item>, model: Model)
    requires DistinctIds(arrivals) && |Query(arrivals, model)| > RELOAD_WINDOW >= |items|
    requires forall x :: x in items ==> x in arrivals
    ensures !NoneMissed(Ids(Query(arrivals, model)), Ids(Query(items, model)))
  {
    hide MatchesFilter, Query, Ids, DistinctIds, HasId, AllDistinct;
    var matching, delivered := Query(arrivals, model), Query(items, model);
    QueryLength(items, model);
    QueryDistinct(arrivals, model);
    DistinctEither(matching);
    if NoneMissed(Ids(matching), Ids(delivered)) {
      forall x | x in matching
        ensures x in delivered
      {
        IdIn(matching, x);
        IdsOf(delivered, x.id);
        var y := WhereIs(delivered, x.id);
        SameEntry(arrivals, x, delivered[y]);
      }
      NotMore(matching, delivered);
    }
  }

  lemma NewOnesKeepMatching(store: seq<Item>, arrivals: seq<Item>, model: Model)
    requires DistinctIds(arrivals) && forall x :: x in arrivals ==> !HasId(store, x.id)
    ensures KeepMatching(store, arrivals, model) && Renewed(store, arrivals)
  {
    hide MatchesFilter, DistinctIds;
    forall x, y | (x in store || x in arrivals) && y in arrivals && x.id == y.id
      ensures x == y
    {
      SameEntry(arrivals, x, y);
    }
  }

  /** More than fifty new matching entries in one batch leave a gap in any list that shows something. */
  lemma LargeBatchLeavesGap(shown: seq<Item>, store: seq<Item>, arrivals: seq<Item>, model: Model, cap: nat)
    requires DistinctIds(store) && shown <= Query(store, model) && shown != [] && 50 < cap
    requires DistinctIds(arrivals) && (forall x :: x in arrivals ==> !HasId(store, x.id))
    requires |Query(arrivals, model)| > 50
    ensures var after := StoreAll(store, arrivals);
      !(PatchAll(shown, Found(First(Ids(arrivals)), Take(after, RELOAD_WINDOW)), model, cap) <= Query(after, model))
  {
    hide MatchesFilter, Query, Found, First, StoreAll, PatchAll, Newest, NoneMissed, Renewed, DistinctIds, Ids,
        AllDistinct, KeepMatching, Take;
    var batch := First(Ids(arrivals));
    var items := Found(batch, Take(StoreAll(store, arrivals), RELOAD_WINDOW));
    FirstDistinct(Ids(arrivals));
    Reloaded(store, arrivals, batch);
    TooManyMatch(arrivals, items, model);
    NewOnesKeepMatching(store, arrivals, model);
    BatchKeepsPrefixExactly(shown, store, arrivals, batch, model, cap);
    assert shown[0] in shown && shown[0] in Query(store, model);
  }

  // ---------- the batches of a run ----------

  function MarkIds(marks: Throttle.Log): (ids: seq<string>)
    ensures |ids| == |marks|
    requires forall m :: m in marks ==> m.Arrived?
  {
    seq(|marks|, i requires 0 <= i < |marks| => assert marks[i] in marks; marks[i].id)
  }

  lemma MarkIdsGrow(marks: Throttle.Log, m: Throttle.Mark)
    requires m.Arrived? && forall x :: x in marks ==> x.Arrived?
    ensures (forall x :: x in marks + [m] ==> x.Arrived?) && MarkIds(marks + [m]) == MarkIds(marks) + [m.id]
  {
  }

  lemma {:induction false} DistinctIsFirst(marks: Throttle.Log)
    requires forall m :: m in marks ==> m.Arrived?
    ensures Throttle.Distinct(marks) == First(MarkIds(marks))
  {
    if marks == [] {
      assert MarkIds(marks) == [];
    } else {
      hide Throttle.Distinct, First, MarkIds;
      var n := |marks| - 1;
      var front, m := marks[..n], marks[n];
      assert m in marks && forall x :: x in front ==> x in marks;
      assert marks == front + [m];
      DistinctIsFirst(front);
      ClipboardEvents.DistinctWith(front, m);
      FirstOfMore(MarkIds(front), m.id);
      MarkIdsGrow(front, m);
    }
  }

  lemma MoreArrivals(arrivals: seq<Item>, later: seq<Item>)
    ensures Ids(arrivals + later) == Ids(arrivals) + Ids(later)
  {
  }

  /**
   * For every batch of every run: `arrivals` are the entries whose ids arrived since the batch before, `later`
   * those that arrive until its reload is answered.  The list that was a prefix before all of them is one again
   * after the batch exactly if the batch brings it up to date; for at most fifty entries and no later ones,
   * exactly if the matching ones arrived for the last time in the same order as for the first.
   */
  lemma RunBatchKeepsPrefixExactly(run: seq<ClipboardEvents.Timed>, throttle: nat, k: nat, shown: seq<Item>,
                                   store: seq<Item>, arrivals: seq<Item>, later: seq<Item>, model: Model)
    requires ClipboardEvents.IsRun(run, throttle)
    requires var log := ClipboardEvents.After(run, throttle).localLog;
      k < |log| && log[k].Served? && Ids(arrivals) == MarkIds(Throttle.Waiting(log[..k]))
    requires DistinctIds(store) && shown <= Query(store, model) && KeepMatching(store, arrivals + later, model)
    ensures var batch := ClipboardEvents.After(run, throttle).localLog[k].ids;
      var after := StoreAll(store, arrivals + later);
      var items := Found(batch, Take(after, RELOAD_WINDOW));
      && (NoneMissed(Ids(Query(arrivals + later, model)), Ids(Query(items, model))) || Renewed(store, arrivals + later)
          ==> (PatchAll(shown, items, model, MAX_LIVE_ITEMS) <= Query(after, model)
               <==> BringsUpToDate(shown, items, arrivals + later, model)))
      && (|batch| <= 50 && later == []
          ==> (PatchAll(shown, items, model, MAX_LIVE_ITEMS) <= Query(after, model)
               <==> SameOrder(Ids(Query(arrivals, model)))))
  {
    hide SameOrder, First, PatchAll, Found, StoreAll, KeepMatching, Query, NoneMissed, Renewed, BringsUpToDate, Ids,
        DistinctIds, AllDistinct;
    var log := ClipboardEvents.After(run, throttle).localLog;
    var batch, all := log[k].ids, arrivals + later;
    ClipboardEvents.RunKeepsInv(run, throttle);
    Throttle.BatchAt(log, throttle, k);
    DistinctIsFirst(Throttle.Waiting(log[..k]));
    FirstDistinct(Ids(arrivals));
    MoreArrivals(arrivals, later);
    var items := Found(batch, Take(StoreAll(store, all), RELOAD_WINDOW));
    if NoneMissed(Ids(Query(all, model)), Ids(Query(items, model))) || Renewed(store, all) {
      BatchKeepsPrefixExactly(shown, store, all, batch, model, MAX_LIVE_ITEMS);
    }
    if |batch| <= RELOAD_WINDOW && later == [] {
      assert all == arrivals;
      SmallBatchKeepsPrefixExactly(shown, store, arrivals, model, MAX_LIVE_ITEMS);
    }
  }

  /** One more step of a run. */
  lemma OneMoreStep(run: seq<ClipboardEvents.Timed>, n: nat, throttle: nat)
    requires n < |run| && ClipboardEvents.IsRun(run[..n], throttle) && (n > 0 ==> run[n - 1].at <= run[n].at)
    requires ClipboardEvents.Enabled(ClipboardEvents.After(run[..n], throttle), run[n].step, run[n].at)
    ensures ClipboardEvents.IsRun(run[..n + 1], throttle)
    ensures ClipboardEvents.After(run[..n + 1], throttle) ==
            ClipboardEvents.Next(ClipboardEvents.After(run[..n], throttle), run[n].step, run[n].at, throttle)
  {
    hide ClipboardEvents.Next, ClipboardEvents.Enabled;
    assert run[..n + 1][..n] == run[..n];
  }

  function Local(id: string, at: int): ClipboardEvents.Timed {
    ClipboardEvents.Timed(ClipboardEvents.Receive(ClipboardEvents.NewContent(id, "local")), at)
  }

  // ---------- a batch out of order ----------

  function OutOfOrder(): (run: seq<ClipboardEvents.Timed>)
    ensures |run| == 5 && forall i :: 1 <= i < 5 ==> run[i - 1].at <= run[i].at
  {
    [Local("x", 0), Local("a", 10), Local("b", 20), Local("a", 30),
     ClipboardEvents.Timed(ClipboardEvents.LocalTimerFires, 300)]
  }

  const OUT_OF_ORDER_LOG: Throttle.Log :=
    [Throttle.Arrived("x", 0), Throttle.Served(["x"], 0), Throttle.Arrived("a", 10), Throttle.Arrived("b", 20),
     Throttle.Arrived("a", 30), Throttle.Served(["a", "b"], 300)]

  /** What the run reaches after its first `n` steps. */
  function OutOfOrderAt(n: nat): ClipboardEvents.World
    requires n <= 5
  {
    var pending: seq<string> := if n == 2 then ["a"] else if n == 3 || n == 4 then ["a", "b"] else [];
    var waits := 2 <= n <= 4;
    var last := if n == 0 then None else if n == 5 then Some(300) else Some(0);
    ClipboardEvents.World(ClipboardEvents.State(last, waits, pending, None, false),
                          if waits then Some(300) else None, None,
                          OUT_OF_ORDER_LOG[..if n == 0 then 0 else n + 1], [])
  }

  lemma OutOfOrderStep(n: nat)
    requires n < 5
    ensures var t := OutOfOrder()[n];
      && ClipboardEvents.Enabled(OutOfOrderAt(n), t.step, t.at)
      && ClipboardEvents.Next(OutOfOrderAt(n), t.step, t.at, 300) == OutOfOrderAt(n + 1)
  {
    hide ClipboardEvents.Next;
    var l := OUT_OF_ORDER_LOG;
    if n == 0 {
      ClipboardEvents.LocalArrivalGives(OutOfOrderAt(0), "x", 0, 300);
      assert ClipboardEvents.WithPending([], "x") == ["x"];
      assert l[..0] + [l[0]] + [l[1]] == l[..2];
    } else if n == 1 {
      ClipboardEvents.LocalArrivalGives(OutOfOrderAt(1), "a", 10, 300);
      assert l[..2] + [l[2]] == l[..3];
    } else if n == 2 {
      ClipboardEvents.LocalArrivalGives(OutOfOrderAt(2), "b", 20, 300);
      assert l[..3] + [l[3]] == l[..4];
    } else if n == 3 {
      ClipboardEvents.LocalArrivalGives(OutOfOrderAt(3), "a", 30, 300);
      assert l[..4] + [l[4]] == l[..5];
    } else {
      ClipboardEvents.TimersGive(OutOfOrderAt(4), 300, 300);
      assert l[..5] + [l[5]] == l[..6];
    }
  }

  lemma {:induction false} OutOfOrderUpTo(n: nat)
    requires n <= 5
    ensures ClipboardEvents.IsRun(OutOfOrder()[..n], 300)
            && ClipboardEvents.After(OutOfOrder()[..n], 300) == OutOfOrderAt(n)
  {
    if n > 0 {
      hide ClipboardEvents.IsRun, ClipboardEvents.After, ClipboardEvents.Next, ClipboardEvents.Enabled, OutOfOrderAt,
          OutOfOrder;
      OutOfOrderUpTo(n - 1);
      OutOfOrderStep(n - 1);
      OneMoreStep(OutOfOrder(), n - 1, 300);
    }
  }

  lemma OutOfOrderRun()
    ensures ClipboardEvents.IsRun(OutOfOrder(), 300)
    ensures ClipboardEvents.After(OutOfOrder(), 300).localLog == OUT_OF_ORDER_LOG
  {
    hide ClipboardEvents.IsRun, ClipboardEvents.After;
    OutOfOrderUpTo(5);
    assert OutOfOrder()[..5] == OutOfOrder() && OUT_OF_ORDER_LOG[..6] == OUT_OF_ORDER_LOG;
  }

  lemma NotSameOrder()
    ensures !SameOrder(["a", "b", "a"])
  {
    var ids := ["a", "b", "a"];
    assert ids[..2] == ["a", "b"] && ids[..2][..1] == ["a"];
    assert FirstIndex(ids, "a") == 0 && FirstIndex(ids, "b") == 1;
    assert LastIndex(ids, "a") == 2 && LastIndex(ids, "b") == 1;
  }

  lemma FirstsOutOfOrder()
    ensures First(["a", "b", "a"]) == ["a", "b"]
  {
    NothingFirst();
    hide First;
    FirstOfMore([], "a");
    FirstOfMore(["a"], "b");
    FirstOfMore(["a", "b"], "a");
    assert [] + ["a"] == ["a"] && ["a"] + ["b"] == ["a", "b"] && ["a", "b"] + ["a"] == ["a", "b", "a"];
  }

  lemma WaitsToo(log: Throttle.Log, n: nat)
    requires n < |log| && log[n].Arrived?
    ensures MarkIds(Throttle.Waiting(log[..n + 1])) == MarkIds(Throttle.Waiting(log[..n])) + [log[n].id]
  {
    assert log[..n + 1] == log[..n] + [log[n]];
    Throttle.Appended(log[..n], log[n]);
    MarkIdsGrow(Throttle.Waiting(log[..n]), log[n]);
  }

  lemma NoneWaits(log: Throttle.Log, n: nat)
    requires 0 < n <= |log| && log[n - 1].Served?
    ensures MarkIds(Throttle.Waiting(log[..n])) == []
  {
    assert Throttle.Waiting(log[..n]) == [];
  }

  lemma ThreeWait(log: Throttle.Log)
    requires |log| == 6 && log[1].Served? && log[2].Arrived? && log[3].Arrived? && log[4].Arrived?
    ensures MarkIds(Throttle.Waiting(log[..5])) == [log[2].id, log[3].id, log[4].id]
  {
    hide Throttle.Waiting, MarkIds;
    NoneWaits(log, 2);
    WaitsToo(log, 2);
    WaitsToo(log, 3);
    WaitsToo(log, 4);
  }

  lemma WaitingOutOfOrder()
    ensures MarkIds(Throttle.Waiting(OUT_OF_ORDER_LOG[..5])) == ["a", "b", "a"]
  {
    ThreeWait(OUT_OF_ORDER_LOG);
  }

  /** It happens: `a`, `b` and `a` again within the throttle are shown with `b` in front of `a`, and the
      query has `a` in front of `b`. */
  lemma BatchOutOfOrder()
    ensures ClipboardEvents.IsRun(OutOfOrder(), 300)
            && ClipboardEvents.After(OutOfOrder(), 300).localLog == OUT_OF_ORDER_LOG
    ensures var shown := [Text("x")];
      var after := StoreAll(shown, [Text("a"), Text("b"), Text("a")]);
      && shown == Query(shown, NO_FILTER)
      && !(PatchAll(shown, Found(["a", "b"], Take(after, RELOAD_WINDOW)), NO_FILTER, MAX_LIVE_ITEMS)
           <= Query(after, NO_FILTER))
  {
    hide SameOrder, MatchesFilter, StoreAll, Found, PatchAll, Take, NoneMissed, BringsUpToDate, Renewed,
        Throttle.Waiting, OutOfOrder, ClipboardEvents.IsRun, ClipboardEvents.After;
    OutOfOrderRun();
    NotSameOrder();
    WaitingOutOfOrder();
    NoFilterMatches();
    var shown, arrivals := [Text("x")], [Text("a"), Text("b"), Text("a")];
    OneQueried(Text("x"), NO_FILTER);
    QueriesAll(arrivals);
    assert Ids(arrivals) == ["a", "b", "a"];
    FirstsOutOfOrder();
    assert arrivals + [] == arrivals;
    RunBatchKeepsPrefixExactly(OutOfOrder(), 300, 5, shown, shown, arrivals, [], NO_FILTER);
  }
}
