/**
 * The live list (src/hooks/liveSearchModel.ts, src/hooks/useLiveSearch.ts): a list that is patched
 * instead of running the query again, and how it compares with running the query again.
 */
module LiveSearch {
  import opened JsString

  datatype EntryType = TextEntry | RichText | FileEntry | ImageEntry | UnknownEntry

  datatype Item = Item(id: string, kind: EntryType, contentTags: Option<seq<string>>, isFavorited: Option<bool>,
                       content: string, activeTime: int)

  datatype Model = Model(
    query: string,
    contentTypes: Option<string>,
    tags: Option<string>,
    sourceDevices: Option<string>,
    extensions: Option<string>,
    timeRange: Option<string>)

  const MAX_LIVE_ITEMS: nat := 200

  function ContentType(kind: EntryType): string {
    match kind
    case TextEntry => "text"
    case RichText => "html"
    case FileEntry => "file"
    case ImageEntry => "image"
    case UnknownEntry => "other"
  }

  function SplitCsv(value: Option<string>): seq<string> {
    if value.None? || value.value == "" then [] else TrimmedParts(Split(value.value, ','))
  }

  /** An optional string that is absent or empty: what `!value` tests. */
  predicate Absent(value: Option<string>) {
    value.None? || value.value == ""
  }

  predicate CanPatchLive(model: Model) {
    && Trim(model.query) == "" && Absent(model.sourceDevices) && Absent(model.extensions)
    && (forall tag :: tag in SplitCsv(model.tags) ==> tag == "link" || tag == "favorited")
    && (model.timeRange.None? || model.timeRange == Some("all_time"))
  }

  predicate TagMatches(tag: string, item: Item) {
    if tag == "link" || tag == "code" then item.contentTags.Some? && tag in item.contentTags.value
    else tag == "favorited" && item.isFavorited == Some(true)
  }

  predicate MatchesFilter(item: Item, model: Model) {
    var contentTypes := SplitCsv(model.contentTypes);
    var tags := SplitCsv(model.tags);
    && (contentTypes == [] || ContentType(item.kind) in contentTypes)
    && (tags == [] || exists tag :: tag in tags && TagMatches(tag, item))
  }

  function Without(items: seq<Item>, id: string): (r: seq<Item>)
    ensures forall x :: x in r <==> x in items && x.id != id
    ensures |r| <= |items|
  {
    if items == [] then []
    else if items[0].id == id then Without(items[1..], id)
    else [items[0]] + Without(items[1..], id)
  }

  function Take(items: seq<Item>, n: nat): seq<Item> {
    if |items| > n then items[..n] else items
  }

  function PrependLiveItem(items: seq<Item>, incoming: Item, cap: nat): seq<Item> {
    Take([incoming] + Without(items, incoming.id), cap)
  }

  function RemoveLiveItem(items: seq<Item>, id: string): seq<Item> {
    var next := Without(items, id);
    if |next| == |items| then items else next
  }

  function Patched(items: seq<Item>, item: Item, model: Model, cap: nat): seq<Item> {
    if MatchesFilter(item, model) then PrependLiveItem(items, item, cap) else items
  }

  /** The list as the hook holds it. */
  class LiveList {
    const model: Model
    var items: seq<Item>
    var refetchNonce: nat

    constructor (model: Model, items: seq<Item>)
      ensures this.model == model && this.items == items && refetchNonce == 0
    {
      this.model, this.items, refetchNonce := model, items, 0;
    }

    /** Either the list is patched, or the query is going to be run again: whenever there is a keyword, a source, an
        extension or a time range, or a tag other than the two a client can judge. */
    method OnLocalItem(display: Item)
      modifies this
      ensures Trim(model.query) != ""
              || (model.sourceDevices.Some? && model.sourceDevices.value != "")
              || (model.extensions.Some? && model.extensions.value != "")
              || (model.timeRange.Some? && model.timeRange.value != "all_time")
              || (exists tag :: tag in SplitCsv(model.tags) && tag != "link" && tag != "favorited") ==>
                items == old(items) && refetchNonce == old(refetchNonce) + 1
      ensures !CanPatchLive(model) ==> items == old(items) && refetchNonce == old(refetchNonce) + 1
      ensures CanPatchLive(model) ==>
              items == Patched(old(items), display, model, MAX_LIVE_ITEMS) && refetchNonce == old(refetchNonce)
    {
      if !CanPatchLive(model) {
        refetchNonce := refetchNonce + 1;
        return;
      }
      if !MatchesFilter(display, model) {
        return;
      }
      items := PrependLiveItem(items, display, MAX_LIVE_ITEMS);
    }

    method OnDeleted(id: string)
      modifies this
      ensures items == Without(old(items), id) && refetchNonce == old(refetchNonce)
    {
      WithoutAbsent(items, id);
      items := RemoveLiveItem(items, id);
    }
  }

  // ---------- the filter ----------

  lemma {:induction false} TrimmedPartsExactly(parts: seq<string>, t: string)
    ensures t in TrimmedParts(parts) <==> t != "" && exists p :: p in parts && Trim(p) == t
  {
    hide Trim;
    if parts != [] {
      TrimmedPartsExactly(parts[1..], t);
      assert forall p :: p in parts <==> p == parts[0] || p in parts[1..];
    }
  }

  lemma EmptyJoin(parts: seq<string>)
    requires parts != [] && Join(parts, ",") == ""
    ensures parts == [""]
  {
    assert |parts| > 1 ==> |Join(parts, ",")| >= 1;
  }

  /** A parameter is read as the list of what stands between its commas, without surrounding white space; what is
      empty then does not count. */
  lemma CsvExactly(parts: seq<string>, t: string)
    requires parts != [] && forall p :: p in parts ==> ',' !in p
    ensures t in SplitCsv(Some(Join(parts, ","))) <==> t != "" && exists p :: p in parts && Trim(p) == t
    ensures SplitCsv(None) == []
  {
    SplitOfJoin(parts, ',');
    TrimmedPartsExactly(parts, t);
    if Join(parts, ",") == "" {
      EmptyJoin(parts);
      assert parts == [""];
      assert Trim("") == "";
    }
  }

  lemma {:induction false} TrimmedPartsAreParts(parts: seq<string>)
    requires forall p :: p in parts ==> p != "" && Trim(p) == p
    ensures TrimmedParts(parts) == parts
  {
    if parts != [] {
      assert parts[0] in parts && forall p :: p in parts[1..] ==> p in parts;
      TrimmedPartsAreParts(parts[1..]);
    }
  }

  /** A parameter made from a list of names is read as that list. */
  lemma CsvRoundTrip(parts: seq<string>)
    requires forall p :: p in parts ==> p != "" && Trim(p) == p && ',' !in p
    ensures SplitCsv(Some(Join(parts, ","))) == parts
  {
    if parts != [] {
      assert parts[0] in parts;
      SplitOfJoin(parts, ',');
      TrimmedPartsAreParts(parts);
    }
  }

  /** Content types and tags are alternatives within their list, and an empty list filters nothing. */
  lemma FilterOfLists(item: Item, model: Model, contentTypes: seq<string>, tags: seq<string>)
    requires forall p :: p in contentTypes + tags ==> p != "" && Trim(p) == p && ',' !in p
    requires model.contentTypes == Some(Join(contentTypes, ",")) && model.tags == Some(Join(tags, ","))
    ensures MatchesFilter(item, model) <==>
            && (contentTypes == [] || ContentType(item.kind) in contentTypes)
            && (tags == [] || ("favorited" in tags && item.isFavorited == Some(true))
                || exists tag :: tag in tags && (tag == "link" || tag == "code") && item.contentTags.Some?
                    && tag in item.contentTags.value)
  {
    hide SplitCsv, Trim;
    assert forall p :: p in contentTypes ==> p in contentTypes + tags;
    assert forall p :: p in tags ==> p in contentTypes + tags;
    CsvRoundTrip(contentTypes);
    CsvRoundTrip(tags);
  }

  // ---------- what a client can judge ----------

  /** What only the search engine knows of the entries: which of them the keyword finds, which come from the devices,
      have the extensions and lie in the time range asked for, and what carries a tag of the engine's or the user's. */
  datatype Engine = Engine(
    found: (string, Item) -> bool,
    fromDevices: (string, Item) -> bool,
    hasExtension: (string, Item) -> bool,
    inRange: (string, Item) -> bool,
    tagged: (string, Item) -> bool)

  /** The engine's name for the kind of an entry. */
  predicate IsCategory(category: string, kind: EntryType) {
    || (category == "text" && kind.TextEntry?) || (category == "html" && kind.RichText?)
    || (category == "file" && kind.FileEntry?) || (category == "image" && kind.ImageEntry?)
    || (category == "other" && kind.UnknownEntry?)
  }

  /** A link is a content tag and a favourite a flag of the entry; all else is up to the engine. */
  predicate CarriesTag(engine: Engine, tag: string, item: Item) {
    if tag == "link" then item.contentTags.Some? && "link" in item.contentTags.value
    else if tag == "favorited" then item.isFavorited == Some(true)
    else engine.tagged(tag, item)
  }

  /** What the engine answers to a query: every dimension that is given must match, and of each list one item. */
  predicate EngineMatches(engine: Engine, item: Item, model: Model) {
    && (Trim(model.query) == "" || engine.found(model.query, item))
    && (model.sourceDevices.None? || model.sourceDevices.value == ""
        || engine.fromDevices(model.sourceDevices.value, item))
    && (model.extensions.None? || model.extensions.value == "" || engine.hasExtension(model.extensions.value, item))
    && (model.timeRange.None? || model.timeRange.value == "all_time" || engine.inRange(model.timeRange.value, item))
    && (SplitCsv(model.contentTypes) == []
        || exists category :: category in SplitCsv(model.contentTypes) && IsCategory(category, item.kind))
    && (SplitCsv(model.tags) == [] || exists tag :: tag in SplitCsv(model.tags) && CarriesTag(engine, tag, item))
  }

  lemma CategoriesAgree(item: Item, list: seq<string>)
    ensures ContentType(item.kind) in list <==> exists category :: category in list && IsCategory(category, item.kind)
  {
    assert IsCategory(ContentType(item.kind), item.kind);
    assert forall category :: IsCategory(category, item.kind) ==> category == ContentType(item.kind);
  }

  /** If the list may be patched, the client judges every entry as the engine does. */
  lemma PatchableIsJudged(engine: Engine, item: Item, model: Model)
    requires CanPatchLive(model)
    ensures EngineMatches(engine, item, model) <==> MatchesFilter(item, model)
  {
    hide SplitCsv, Trim, ContentType, IsCategory;
    CategoriesAgree(item, SplitCsv(model.contentTypes));
    forall tag | tag in SplitCsv(model.tags)
      ensures CarriesTag(engine, tag, item) == TagMatches(tag, item)
    {
    }
  }

  function Agrees(answer: bool): Engine {
    Engine((_, _) => answer, (_, _) => answer, (_, _) => answer, (_, _) => answer, (_, _) => answer)
  }

  /** An entry of some kind with all the tags a client knows, and one with none. */
  function Tagged(kind: EntryType): Item {
    Item("", kind, Some(["link", "code"]), Some(true), "", 0)
  }

  function Untagged(kind: EntryType): Item {
    Item("", kind, Some([]), Some(false), "", 0)
  }

  lemma NotJudged(model: Model, kind: EntryType) returns (engine: Engine, item: Item)
    requires !CanPatchLive(model)
    requires SplitCsv(model.contentTypes) == [] || ContentType(kind) in SplitCsv(model.contentTypes)
    ensures EngineMatches(engine, item, model) != MatchesFilter(item, model)
  {
    hide SplitCsv, Trim, ContentType, IsCategory;
    CategoriesAgree(Tagged(kind), SplitCsv(model.contentTypes));
    CategoriesAgree(Untagged(kind), SplitCsv(model.contentTypes));
    if !MatchesFilter(Tagged(kind), model) {
      engine, item := Agrees(true), Tagged(kind);
      assert SplitCsv(model.tags)[0] in SplitCsv(model.tags);
    } else if tag :| tag in SplitCsv(model.tags) && tag != "link" && tag != "favorited" {
      engine, item := Agrees(true), Untagged(kind);
      assert CarriesTag(engine, tag, item);
    } else {
      engine, item := Agrees(false), Tagged(kind);
    }
  }

  /**
   * The list may be patched exactly if, whatever the engine knows, it answers for every entry what the client can
   * tell from the entry alone.  (For a list of types none of which exists there is nothing to judge.)
   */
  lemma PatchableExactly(model: Model)
    requires SplitCsv(model.contentTypes) == []
             || exists kind :: ContentType(kind) in SplitCsv(model.contentTypes)
    ensures CanPatchLive(model) <==>
            forall engine, item :: EngineMatches(engine, item, model) == MatchesFilter(item, model)
  {
    hide SplitCsv, ContentType, CanPatchLive, EngineMatches, MatchesFilter;
    if CanPatchLive(model) {
      forall engine, item
        ensures EngineMatches(engine, item, model) == MatchesFilter(item, model)
      {
        PatchableIsJudged(engine, item, model);
      }
    } else {
      var kind :| SplitCsv(model.contentTypes) == [] || ContentType(kind) in SplitCsv(model.contentTypes);
      var engine, item := NotJudged(model, kind);
    }
  }

  // ---------- running the query again ----------

  /** The store holds every entry once, the newest first. */
  ghost predicate DistinctIds(items: seq<Item>) {
    forall i, j :: 0 <= i < j < |items| ==> items[i].id != items[j].id
  }

  ghost function Query(store: seq<Item>, model: Model): (r: seq<Item>)
    ensures forall x :: x in r <==> x in store && MatchesFilter(x, model)
  {
    if store == [] then []
    else if MatchesFilter(store[0], model) then [store[0]] + Query(store[1..], model)
    else Query(store[1..], model)
  }

  /** While the list may be patched, this is what the engine answers, whatever else the engine knows. */
  lemma QueryIsTheEngines(engine: Engine, store: seq<Item>, model: Model, x: Item)
    requires CanPatchLive(model)
    ensures x in Query(store, model) <==> x in store && EngineMatches(engine, x, model)
  {
    hide MatchesFilter, EngineMatches, CanPatchLive;
    PatchableIsJudged(engine, x, model);
  }

  /** A new entry, or an entry copied again, comes to the front. */
  function Stored(store: seq<Item>, item: Item): seq<Item> {
    [item] + Without(store, item.id)
  }

  ghost predicate HasId(items: seq<Item>, id: string) {
    exists x :: x in items && x.id == id
  }

  lemma HasIdStep(items: seq<Item>, id: string)
    ensures HasId(items, id) <==> items != [] && (items[0].id == id || HasId(items[1..], id))
  {
    if items != [] {
      assert items[0] in items;
      assert forall x :: x in items <==> x == items[0] || x in items[1..];
    }
  }

  lemma {:induction false} WithoutAbsent(items: seq<Item>, id: string)
    ensures |Without(items, id)| == |items| <==> !HasId(items, id)
    ensures !HasId(items, id) ==> Without(items, id) == items
    decreases |items|
  {
    HasIdStep(items, id);
    hide HasId;
    if items != [] {
      WithoutAbsent(items[1..], id);
    }
  }

  lemma {:induction false} WithoutPresent(items: seq<Item>, id: string)
    requires DistinctIds(items) && HasId(items, id)
    ensures |Without(items, id)| == |items| - 1
    decreases |items|
  {
    if items[0].id == id {
      assert !HasId(items[1..], id);
      WithoutAbsent(items[1..], id);
    } else {
      var x :| x in items && x.id == id;
      assert x in items[1..];
      WithoutPresent(items[1..], id);
    }
  }

  lemma {:induction false} WithoutDistinct(items: seq<Item>, id: string)
    requires DistinctIds(items)
    ensures DistinctIds(Without(items, id))
    decreases |items|
  {
    if items != [] {
      WithoutDistinct(items[1..], id);
      assert forall x :: x in Without(items[1..], id) ==> x in items[1..];
    }
  }

  lemma {:induction false} QueryDistinct(store: seq<Item>, model: Model)
    requires DistinctIds(store)
    ensures DistinctIds(Query(store, model))
    decreases |store|
  {
    hide MatchesFilter;
    if store != [] {
      QueryDistinct(store[1..], model);
      var rest := Query(store[1..], model);
      forall q | 0 <= q < |rest|
        ensures rest[q].id != store[0].id
      {
        assert rest[q] in rest && rest[q] in store[1..];
      }
    }
  }

  lemma {:induction false} QueryOfWithout(store: seq<Item>, id: string, model: Model)
    ensures Query(Without(store, id), model) == Without(Query(store, model), id)
    decreases |store|
  {
    if store != [] {
      QueryOfWithout(store[1..], id, model);
      var rest := Without(store[1..], id);
      assert ([store[0]] + rest)[1..] == rest;
      assert ([store[0]] + Query(store[1..], model))[1..] == Query(store[1..], model);
    }
  }

  lemma {:induction false} WithoutPrefix(shown: seq<Item>, all: seq<Item>, id: string)
    requires shown <= all
    ensures Without(shown, id) <= Without(all, id)
    decreases |shown|
  {
    if shown != [] {
      WithoutPrefix(shown[1..], all[1..], id);
    }
  }

  lemma QueryOfStored(store: seq<Item>, item: Item, model: Model)
    ensures Query(Stored(store, item), model) ==
            (if MatchesFilter(item, model) then [item] else []) + Without(Query(store, model), item.id)
  {
    QueryOfWithout(store, item.id, model);
    assert Stored(store, item)[1..] == Without(store, item.id);
  }

  /** The store keeps each entry once. */
  lemma StoredDistinct(store: seq<Item>, item: Item)
    requires DistinctIds(store)
    ensures DistinctIds(Stored(store, item))
  {
    WithoutDistinct(store, item.id);
  }

  // ---------- the patched list against the query ----------

  /** What is gone from the answer cannot be in a prefix of it. */
  lemma ShownTooLong(shown: seq<Item>, all: seq<Item>, id: string)
    requires HasId(shown, id)
    ensures !(shown <= Without(all, id))
  {
    var x :| x in shown && x.id == id;
    assert x !in Without(all, id);
  }

  /**
   * After an arrival the patched list is still a prefix of the query's answer, exactly unless the
   * list shows an earlier version of an entry that no longer matches.
   */
  lemma ArrivalKeepsPrefix(shown: seq<Item>, store: seq<Item>, item: Item, model: Model, cap: nat)
    requires DistinctIds(store) && shown <= Query(store, model)
    ensures Patched(shown, item, model, cap) <= Query(Stored(store, item), model) <==>
            MatchesFilter(item, model) || !HasId(shown, item.id)
  {
    hide MatchesFilter, Query, Stored;
    var all := Query(store, model);
    QueryOfStored(store, item, model);
    WithoutPrefix(shown, all, item.id);
    if MatchesFilter(item, model) {
      assert [item] + Without(shown, item.id) <= [item] + Without(all, item.id);
    } else if HasId(shown, item.id) {
      ShownTooLong(shown, all, item.id);
    } else {
      WithoutAbsent(shown, item.id);
    }
  }

  lemma DeletionKeepsPrefix(shown: seq<Item>, store: seq<Item>, id: string, model: Model)
    requires shown <= Query(store, model)
    ensures RemoveLiveItem(shown, id) <= Query(Without(store, id), model)
  {
    WithoutPrefix(shown, Query(store, model), id);
    QueryOfWithout(store, id, model);
    WithoutAbsent(shown, id);
  }

  /** The list holds the whole answer, or at least `cap` entries of it. */
  ghost predicate CompleteUpTo(shown: seq<Item>, all: seq<Item>, cap: nat) {
    shown <= all && (shown == all || |shown| >= cap)
  }

  lemma ArrivalKeepsComplete(shown: seq<Item>, store: seq<Item>, item: Item, model: Model, cap: nat)
    requires DistinctIds(store) && CompleteUpTo(shown, Query(store, model), cap)
    requires MatchesFilter(item, model) || !HasId(shown, item.id)
    ensures CompleteUpTo(Patched(shown, item, model, cap), Query(Stored(store, item), model), cap)
    ensures MatchesFilter(item, model) && |Patched(shown, item, model, cap)| == cap ==>
              Patched(shown, item, model, cap) == Take(Query(Stored(store, item), model), cap)
  {
    hide MatchesFilter, Query, Stored;
    var all := Query(store, model);
    ArrivalKeepsPrefix(shown, store, item, model, cap);
    QueryOfStored(store, item, model);
    QueryDistinct(store, model);
    WithoutAbsent(shown, item.id);
    if HasId(shown, item.id) {
      WithoutPresent(shown, item.id);
    }
    if !MatchesFilter(item, model) && shown == all {
      WithoutAbsent(all, item.id);
    }
  }

  /** A deletion makes a list incomplete exactly if it shows the entry, has just `cap` entries, and is
      not the whole answer: the entry that should move up is not fetched. */
  lemma DeletionKeepsComplete(shown: seq<Item>, store: seq<Item>, id: string, model: Model, cap: nat)
    requires DistinctIds(store) && CompleteUpTo(shown, Query(store, model), cap)
    ensures CompleteUpTo(RemoveLiveItem(shown, id), Query(Without(store, id), model), cap) <==>
            shown == Query(store, model) || !HasId(shown, id) || |shown| > cap
  {
    var all := Query(store, model);
    DeletionKeepsPrefix(shown, store, id, model);
    QueryOfWithout(store, id, model);
    QueryDistinct(store, model);
    WithoutAbsent(shown, id);
    if HasId(shown, id) {
      assert HasId(all, id);
      WithoutPresent(shown, id);
      WithoutPresent(all, id);
    }
  }

  // ---------- when they differ ----------

  const NO_FILTER := Model("", None, None, None, None, None)

  function Text(id: string): Item {
    Item(id, TextEntry, None, None, "", 0)
  }

  lemma NothingQueried(model: Model)
    ensures Query([], model) == []
  {
  }

  lemma OneQueried(x: Item, model: Model)
    ensures Query([x], model) == if MatchesFilter(x, model) then [x] else []
  {
    hide MatchesFilter;
    assert [x][1..] == [];
  }

  lemma NoFilterMatches()
    ensures forall x :: MatchesFilter(x, NO_FILTER)
  {
  }

  lemma {:induction false} QueriesAll(items: seq<Item>)
    requires forall x :: MatchesFilter(x, NO_FILTER)
    ensures Query(items, NO_FILTER) == items
  {
    hide MatchesFilter;
    if items != [] {
      QueriesAll(items[1..]);
    }
  }

  function Letters(n: nat): (s: string)
    ensures |s| == n
  {
    seq(n, _ => 'a')
  }

  /** `n` entries. */
  function Many(n: nat): (items: seq<Item>)
    ensures |items| == n && DistinctIds(items)
  {
    var items := seq(n, i requires 0 <= i < n => Text(Letters(i)));
    assert forall i :: 0 <= i < n ==> |items[i].id| == i;
    items
  }

  /** A full list with one more entry stored: after a deletion that entry is missing from the list. */
  lemma DeletionLeavesGap(cap: nat)
    requires cap > 0
    ensures var store := Many(cap + 1);
      var shown := store[..cap];
      && CompleteUpTo(shown, Query(store, NO_FILTER), cap)
      && !CompleteUpTo(RemoveLiveItem(shown, shown[0].id), Query(Without(store, shown[0].id), NO_FILTER), cap)
  {
    hide MatchesFilter, RemoveLiveItem, Without;
    var store := Many(cap + 1);
    var shown := store[..cap];
    NoFilterMatches();
    QueriesAll(store);
    assert shown[0] in shown;
    DeletionKeepsComplete(shown, store, shown[0].id, NO_FILTER, cap);
  }

  const FAVORITES := Model("", None, Some("favorited"), None, None, None)

  lemma FavoritesSplit()
    ensures SplitCsv(FAVORITES.tags) == ["favorited"] && SplitCsv(None) == [] && Trim("") == ""
  {
    hide Split, TrimmedParts;
    TrimTrims("favorited");
    CsvRoundTrip(["favorited"]);
    assert Join(["favorited"], ",") == "favorited";
  }

  lemma FavoritesMatch()
    ensures CanPatchLive(FAVORITES) && forall x :: MatchesFilter(x, FAVORITES) <==> x.isFavorited == Some(true)
  {
    FavoritesSplit();
    hide SplitCsv, Trim;
    assert SplitCsv(None) == [];
    assert "favorited" in ["favorited"];
  }

  /** A favourite that is copied again after it has lost the flag stays on the list of favourites. */
  lemma StaleFavoriteStays()
    ensures var favorite := Text("a").(isFavorited := Some(true));
      var again := Text("a").(isFavorited := Some(false));
      && CanPatchLive(FAVORITES) && Query([favorite], FAVORITES) == [favorite]
      && !(Patched([favorite], again, FAVORITES, MAX_LIVE_ITEMS) <= Query(Stored([favorite], again), FAVORITES))
  {
    var favorite := Text("a").(isFavorited := Some(true));
    var again := Text("a").(isFavorited := Some(false));
    FavoritesMatch();
    hide MatchesFilter, CanPatchLive, Patched, Stored;
    OneQueried(favorite, FAVORITES);
    assert favorite in [favorite];
    ArrivalKeepsPrefix([favorite], [favorite], again, FAVORITES, MAX_LIVE_ITEMS);
  }

  /** The cap is never exceeded by a prepend. */
  lemma PrependIsCapped(items: seq<Item>, item: Item, cap: nat)
    ensures |PrependLiveItem(items, item, cap)| <= cap
    ensures cap > 0 ==> PrependLiveItem(items, item, cap)[0] == item
    ensures cap > |items| || (cap == |items| && HasId(items, item.id)) ==>
              forall x :: x in items && x.id != item.id ==> x in PrependLiveItem(items, item, cap)
    ensures |PrependLiveItem(items, item, cap)| < cap ==>
              forall x :: x in items && x.id != item.id ==> x in PrependLiveItem(items, item, cap)
  {
    WithoutAbsent(items, item.id);
  }

  /** In the hook the cap is 200: a shorter list takes the entry in and loses none, a full one loses its last. */
  lemma TwoHundredEntries(items: seq<Item>, item: Item, model: Model)
    requires MatchesFilter(item, model) && !HasId(items, item.id) && |items| <= 200
    ensures Patched(items, item, model, MAX_LIVE_ITEMS) ==
            if |items| < 200 then [item] + items else [item] + items[..199]
  {
    hide MatchesFilter;
    WithoutAbsent(items, item.id);
  }

  // ---------- runs ----------

  /** `Arrives` is an arrival together with its delivery: the list hears of the arrivals in the order in which
      the store does.  How batches, which reorder them, compare is the subject of `LiveBatches`. */
  datatype Change = Arrives(item: Item) | Deleted(id: string)

  ghost function StoreAfter(store: seq<Item>, changes: seq<Change>): seq<Item>
    decreases |changes|
  {
    if changes == [] then store
    else
      StoreAfter(match changes[0]
                 case Arrives(item) => Stored(store, item)
                 case Deleted(id) => Without(store, id),
                 changes[1..])
  }

  ghost function ShownAfter(shown: seq<Item>, changes: seq<Change>, model: Model, cap: nat): seq<Item>
    decreases |changes|
  {
    if changes == [] then shown
    else
      ShownAfter(match changes[0]
                 case Arrives(item) => Patched(shown, item, model, cap)
                 case Deleted(id) => RemoveLiveItem(shown, id),
                 changes[1..], model, cap)
  }

  /** Copying an entry again does not change whether it matches. */
  ghost predicate Steady(store: seq<Item>, changes: seq<Change>, model: Model)
    decreases |changes|
  {
    changes == [] ||
    match changes[0]
    case Arrives(item) =>
      && (forall x :: x in store && x.id == item.id ==> MatchesFilter(x, model) == MatchesFilter(item, model))
      && Steady(Stored(store, item), changes[1..], model)
    case Deleted(id) => Steady(Without(store, id), changes[1..], model)
  }

  /** Under any sequence of arrivals, re-copies and deletions, each delivered as it happens, the list stays
      a prefix, without duplicates, of what the query would answer. */
  lemma {:induction false} PrefixForever(shown: seq<Item>, store: seq<Item>, changes: seq<Change>, model: Model,
                                         cap: nat)
    requires DistinctIds(store) && shown <= Query(store, model) && Steady(store, changes, model)
    ensures ShownAfter(shown, changes, model, cap) <= Query(StoreAfter(store, changes), model)
    ensures DistinctIds(StoreAfter(store, changes)) && DistinctIds(ShownAfter(shown, changes, model, cap))
    decreases |changes|
  {
    hide MatchesFilter, Patched, RemoveLiveItem;
    if changes == [] {
      QueryDistinct(store, model);
    } else {
      match changes[0] {
        case Arrives(item) =>
          StoredDistinct(store, item);
          ArrivalKeepsPrefix(shown, store, item, model, cap);
          assert HasId(shown, item.id) ==> MatchesFilter(item, model) by {
            assert forall x :: x in shown ==> x in Query(store, model);
          }
          PrefixForever(Patched(shown, item, model, cap), Stored(store, item), changes[1..], model, cap);
        case Deleted(id) =>
          WithoutDistinct(store, id);
          DeletionKeepsPrefix(shown, store, id, model);
          PrefixForever(RemoveLiveItem(shown, id), Without(store, id), changes[1..], model, cap);
      }
    }
  }

  /** The list is complete up to the cap now and after each change. */
  ghost predicate CompleteThroughout(shown: seq<Item>, store: seq<Item>, changes: seq<Change>, model: Model, cap: nat)
    decreases |changes|
  {
    && CompleteUpTo(shown, Query(store, model), cap)
    && (changes == [] ||
        match changes[0]
        case Arrives(item) =>
          CompleteThroughout(Patched(shown, item, model, cap), Stored(store, item), changes[1..], model, cap)
        case Deleted(id) => CompleteThroughout(RemoveLiveItem(shown, id), Without(store, id), changes[1..], model, cap))
  }

  /** No deletion hits an entry of a list that was cut off and has no entry to spare. */
  ghost predicate DeletionsSpared(shown: seq<Item>, store: seq<Item>, changes: seq<Change>, model: Model, cap: nat)
    decreases |changes|
  {
    changes == [] ||
    match changes[0]
    case Arrives(item) =>
      DeletionsSpared(Patched(shown, item, model, cap), Stored(store, item), changes[1..], model, cap)
    case Deleted(id) =>
      && (shown == Query(store, model) || !HasId(shown, id) || |shown| > cap)
      && DeletionsSpared(RemoveLiveItem(shown, id), Without(store, id), changes[1..], model, cap)
  }

  lemma StillMatches(shown: seq<Item>, store: seq<Item>, item: Item, model: Model)
    requires shown <= Query(store, model)
    requires forall x :: x in store && x.id == item.id ==> MatchesFilter(x, model) == MatchesFilter(item, model)
    ensures MatchesFilter(item, model) || !HasId(shown, item.id)
  {
    hide MatchesFilter;
    assert forall x :: x in shown ==> x in Query(store, model);
  }

  /** A list that is the whole answer, up to the cap, stays so exactly if all deletions are spared; in
      particular under any sequence of arrivals and re-copies. */
  lemma {:induction false} CompleteForever(shown: seq<Item>, store: seq<Item>, changes: seq<Change>, model: Model,
                                           cap: nat)
    requires DistinctIds(store) && CompleteUpTo(shown, Query(store, model), cap) && Steady(store, changes, model)
    ensures CompleteThroughout(shown, store, changes, model, cap) <==>
            DeletionsSpared(shown, store, changes, model, cap)
    decreases |changes|
  {
    hide MatchesFilter, Patched, RemoveLiveItem, Query, Stored, Without;
    if changes != [] {
      match changes[0] {
        case Arrives(item) =>
          StoredDistinct(store, item);
          StillMatches(shown, store, item, model);
          ArrivalKeepsComplete(shown, store, item, model, cap);
          CompleteForever(Patched(shown, item, model, cap), Stored(store, item), changes[1..], model, cap);
        case Deleted(id) =>
          WithoutDistinct(store, id);
          DeletionKeepsComplete(shown, store, id, model, cap);
          if CompleteUpTo(RemoveLiveItem(shown, id), Query(Without(store, id), model), cap) {
            CompleteForever(RemoveLiveItem(shown, id), Without(store, id), changes[1..], model, cap);
          }
      }
    }
  }
}
