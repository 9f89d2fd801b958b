/**
 * Redaction of an arbitrary object graph (src/observability/redaction.ts).
 *
 * JavaScript containers are heap objects of class `Node`; the WeakMap is an object too, and both
 * are filled in place exactly as the source does.  A `Graph` is a value that records what a set of
 * nodes holds, so what redaction means can be said, and proved, about values alone.
 */
module Redaction {
  import opened JsString

  // ---------- sensitive keys ----------

  /** The alternatives of the key pattern, with `pass[12]` and `api_?key` written out. */
  const SENSITIVE_WORDS: seq<string> :=
    ["password", "passphrase", "pass1", "pass2", "secret", "token", "auth", "apikey", "api_key"]

  /** Lower-casing, as far as the pattern can see it: the Kelvin sign is the only character outside
      ASCII whose lower-case form is one of the letters the pattern uses. */
  function FoldChar(c: char): char {
    if 'A' <= c <= 'Z' then (c as int + 32) as char
    else if c == '\U{212A}' then 'k'
    else c
  }

  function FoldCase(s: string): (r: string)
    ensures |r| == |s|
  {
    seq(|s|, i requires 0 <= i < |s| => FoldChar(s[i]))
  }

  predicate OccursAt(word: string, s: string, at: nat) {
    at + |word| <= |s| && s[at..at + |word|] == word
  }

  predicate IsSensitiveKey(key: string) {
    exists w, at: nat :: w in SENSITIVE_WORDS && at <= |key| && OccursAt(w, FoldCase(key), at)
  }

  // ---------- the heap ----------

  datatype Atom = Text(text: string) | OtherAtom(id: int)

  datatype Proto = ObjectProto | NullProto | OtherProto

  datatype Kind = ArrayKind | ObjectKind(proto: Proto)

  datatype Value = Plain(atom: Atom) | Ref(node: Node)

  const REDACTED := Plain(Text("[REDACTED]"))

  /** An array (only `items` matters) or an object (`keys` and `items` run in parallel). */
  class Node {
    const kind: Kind
    var keys: seq<string>
    var items: seq<Value>

    constructor (kind: Kind)
      ensures this.kind == kind && keys == [] && items == []
    {
      this.kind, keys, items := kind, [], [];
    }

    ghost function View(): Shape
      reads this
    {
      Shape(keys, items)
    }

    method Push(item: Value)
      modifies this
      ensures View() == Shape(old(keys), old(items) + [item])
    {
      items := items + [item];
    }

    /** Assignment to a property the object does not have yet. */
    method AddProperty(key: string, item: Value)
      requires key !in keys
      modifies this
      ensures View() == Shape(old(keys) + [key], old(items) + [item])
    {
      keys, items := keys + [key], items + [item];
    }
  }

  /** The WeakMap from visited containers to their copies. */
  class WeakMap {
    var entries: map<Node, Node>

    constructor ()
      ensures entries == map[]
    {
      entries := map[];
    }
  }

  predicate IsPlainObject(kind: Kind) {
    kind.ObjectKind? && (kind.proto.ObjectProto? || kind.proto.NullProto?)
  }

  /** The nodes redaction looks into; every other object is returned as it is. */
  predicate IsContainer(v: Value) {
    v.Ref? && (v.node.kind.ArrayKind? || IsPlainObject(v.node.kind))
  }

  // ---------- graphs ----------

  datatype Shape = Shape(keys: seq<string>, items: seq<Value>)

  type Graph = map<Node, Shape>

  ghost predicate Holds(g: Graph)
    reads g.Keys
  {
    forall n :: n in g ==> n.View() == g[n]
  }

  /** Slot `i` of container `n` sits under a sensitive key. */
  ghost predicate Hidden(n: Node, s: Shape, i: nat) {
    n.kind.ObjectKind? && i < |s.keys| && IsSensitiveKey(s.keys[i])
  }

  ghost predicate DistinctKeys(keys: seq<string>) {
    forall i, j :: 0 <= i < j < |keys| ==> keys[i] != keys[j]
  }

  ghost predicate WellFormed(n: Node, s: Shape) {
    n.kind.ObjectKind? ==> |s.keys| == |s.items| && DistinctKeys(s.keys)
  }

  /** `g` describes every container that can be reached from its nodes without a sensitive key. */
  ghost predicate Closed(g: Graph) {
    forall n :: n in g ==>
      && IsContainer(Ref(n)) && WellFormed(n, g[n])
      && forall i: nat :: i < |g[n].items| && !Hidden(n, g[n], i) && IsContainer(g[n].items[i]) ==>
          g[n].items[i].node in g
  }

  ghost predicate Covers(g: Graph, v: Value) {
    IsContainer(v) ==> v.node in g
  }

  /** The value found by following slot numbers from `v`. */
  ghost function Follow(g: Graph, v: Value, path: seq<nat>): (r: Option<Value>)
    decreases |path|
  {
    if path == [] then Some(v)
    else if IsContainer(v) && v.node in g && path[0] < |g[v.node].items|
    then Follow(g, g[v.node].items[path[0]], path[1..])
    else None
  }

  /** No step of `path` goes through a sensitive slot. */
  ghost predicate Visible(g: Graph, v: Value, path: seq<nat>)
    decreases |path|
  {
    path == [] ||
    (IsContainer(v) && v.node in g && path[0] < |g[v.node].items| ==>
       !Hidden(v.node, g[v.node], path[0]) && Visible(g, g[v.node].items[path[0]], path[1..]))
  }

  ghost predicate Reachable(g: Graph, v: Value, n: Node) {
    exists path :: Visible(g, v, path) && Follow(g, v, path) == Some(Ref(n))
  }

  // ---------- what redaction means ----------

  ghost predicate IsImage(v: Value, r: Value, memo: map<Node, Node>) {
    if IsContainer(v) then v.node in memo && r == Ref(memo[v.node]) else r == v
  }

  ghost predicate KindCopied(n: Node, c: Node) {
    c.kind == if n.kind.ArrayKind? then ArrayKind else ObjectKind(ObjectProto)
  }

  /** The first `upTo` slots of copy `c` are what redaction makes of those of `n`, in order. */
  ghost predicate SlotsCopied(n: Node, s: Shape, t: Shape, memo: map<Node, Node>, upTo: nat)
    requires WellFormed(n, s) && upTo <= |s.items|
  {
    && |t.items| == upTo
    && (n.kind.ObjectKind? ==> t.keys == s.keys[..upTo])
    && forall i: nat :: i < upTo ==>
         if Hidden(n, s, i) then t.items[i] == REDACTED else IsImage(s.items[i], t.items[i], memo)
  }

  ghost predicate Copied(n: Node, s: Shape, c: Node, t: Shape, memo: map<Node, Node>)
    requires WellFormed(n, s)
  {
    KindCopied(n, c) && SlotsCopied(n, s, t, memo, |s.items|)
  }

  ghost predicate Injective(memo: map<Node, Node>) {
    forall x, y :: x in memo && y in memo && x != y ==> memo[x] != memo[y]
  }

  /** `r`, with the containers of `h`, is the redacted copy of `v` with those of `g`. */
  ghost predicate Redacts(g: Graph, v: Value, h: Graph, r: Value, memo: map<Node, Node>) {
    && Closed(g) && Covers(g, v)
    && IsImage(v, r, memo)
    && memo.Keys <= g.Keys && h.Keys == memo.Values
    && Injective(memo)
    && (forall n :: n in memo ==> memo[n] in h && Copied(n, g[n], memo[n], h[memo[n]], memo))
    && (forall n :: n in memo ==> Reachable(g, v, n))
  }

  // ---------- the code ----------

  ghost predicate Extends(before: map<Node, Node>, now: map<Node, Node>) {
    forall n :: n in before ==> n in now && now[n] == before[n]
  }

  /** Everything memoised since `before`, other than containers still being filled, has its full copy in `h`. */
  ghost predicate AddedDone(g: Graph, v: Value, before: map<Node, Node>, now: map<Node, Node>, h: Graph,
                            busy: set<Node>)
    requires Closed(g) && now.Keys <= g.Keys
  {
    && Extends(before, now) && Injective(now)
    && forall n :: n in now && n !in before ==>
         Reachable(g, v, n) && (n !in busy ==> now[n] in h && Copied(n, g[n], now[n], h[now[n]], now))
  }

  lemma ReachableSelf(g: Graph, n: Node)
    ensures Reachable(g, Ref(n), n)
  {
    assert Visible(g, Ref(n), []) && Follow(g, Ref(n), []) == Some(Ref(n));
  }

  /** What can be reached from a visible slot can be reached from its container. */
  lemma ReachableThrough(g: Graph, n: Node, i: nat, x: Node)
    requires n in g && IsContainer(Ref(n)) && i < |g[n].items| && !Hidden(n, g[n], i)
    requires Reachable(g, g[n].items[i], x)
    ensures Reachable(g, Ref(n), x)
  {
    var path :| Visible(g, g[n].items[i], path) && Follow(g, g[n].items[i], path) == Some(Ref(x));
    var longer := [i] + path;
    assert longer[1..] == path;
    assert Visible(g, Ref(n), longer) && Follow(g, Ref(n), longer) == Some(Ref(x));
  }

  /** One more slot redacted: what was finished stays finished, and what the slot added is finished too. */
  lemma AddedDoneThrough(g: Graph, n: Node, i: nat, before: map<Node, Node>, mid: map<Node, Node>,
                         now: map<Node, Node>, h: Graph, k: Graph)
    requires Closed(g) && mid.Keys <= g.Keys && now.Keys <= g.Keys
    requires n in g && i < |g[n].items|
    requires AddedDone(g, Ref(n), before, mid, h, {n})
    requires if Hidden(n, g[n], i) then now == mid else AddedDone(g, g[n].items[i], mid, now, k, {})
    requires h.Keys !! k.Keys
    ensures AddedDone(g, Ref(n), before, now, h + k, {n})
  {
    forall x | x in now && x !in before
      ensures Reachable(g, Ref(n), x) && (x != n ==> now[x] in h + k && Copied(x, g[x], now[x], (h + k)[now[x]], now))
    {
      if x in mid {
      } else {
        ReachableThrough(g, n, i, x);
      }
    }
  }

  /** Appending the right value for slot `i` extends the copied slots by one. */
  lemma SlotAppended(n: Node, s: Shape, t: Shape, item: Value, mid: map<Node, Node>, now: map<Node, Node>, i: nat)
    requires WellFormed(n, s) && i < |s.items| && Extends(mid, now)
    requires SlotsCopied(n, s, t, mid, i)
    requires if Hidden(n, s, i) then item == REDACTED else IsImage(s.items[i], item, now)
    ensures SlotsCopied(n, s, Shape(if n.kind.ObjectKind? then t.keys + [s.keys[i]] else t.keys, t.items + [item]),
                        now, i + 1)
  {
    if n.kind.ObjectKind? {
      assert s.keys[..i + 1] == s.keys[..i] + [s.keys[i]];
    }
  }

  /** The state of the copying loop: `i` slots of `n` are in its copy, which holds `t`. */
  ghost predicate Filling(g: Graph, n: Node, before: map<Node, Node>, now: map<Node, Node>, h: Graph, t: Shape,
                          i: nat)
  {
    && Closed(g) && n in g && i <= |g[n].items|
    && now.Keys <= g.Keys && n in now && now[n] !in h
    && AddedDone(g, Ref(n), before, now, h, {n})
    && SlotsCopied(n, g[n], t, now, i)
  }

  lemma NothingAdded(g: Graph, v: Value, now: map<Node, Node>)
    requires Closed(g) && now.Keys <= g.Keys && Injective(now)
    ensures AddedDone(g, v, now, now, map[], {})
  {
  }

  lemma FillingStarts(g: Graph, n: Node, before: map<Node, Node>, result: Node)
    requires Closed(g) && n in g && before.Keys <= g.Keys && n !in before && Injective(before)
             && result !in before.Values
    ensures Filling(g, n, before, before[n := result], map[], Shape([], []), 0) && Injective(before[n := result])
  {
    ReachableSelf(g, n);
  }

  lemma Filled(g: Graph, n: Node, before: map<Node, Node>, now: map<Node, Node>, h: Graph, t: Shape)
    requires Closed(g) && n in g && n !in before && Filling(g, n, before, now, h, t, |g[n].items|)
    requires KindCopied(n, now[n])
    ensures AddedDone(g, Ref(n), before, now, h[now[n] := t], {})
  {
  }

  lemma KeyIsNew(g: Graph, n: Node, before: map<Node, Node>, now: map<Node, Node>, h: Graph, t: Shape, i: nat)
    requires Filling(g, n, before, now, h, t, i) && i < |g[n].items| && n.kind.ObjectKind?
    ensures i < |g[n].keys| && g[n].keys[i] !in t.keys
  {
    assert WellFormed(n, g[n]) && SlotsCopied(n, g[n], t, now, i);
  }

  ghost function WithSlot(n: Node, s: Shape, t: Shape, item: Value, i: nat): Shape
    requires WellFormed(n, s) && i < |s.items|
  {
    Shape(if n.kind.ObjectKind? then t.keys + [s.keys[i]] else t.keys, t.items + [item])
  }

  /** `item` is what redaction puts in slot `i`; `k` holds the copies made on the way. */
  ghost predicate SlotResult(g: Graph, n: Node, i: nat, before: map<Node, Node>, now: map<Node, Node>, item: Value,
                             k: Graph)
    requires Closed(g) && n in g && i < |g[n].items| && now.Keys <= g.Keys
  {
    if Hidden(n, g[n], i) then item == REDACTED && now == before && k == map[]
    else IsImage(g[n].items[i], item, now) && AddedDone(g, g[n].items[i], before, now, k, {})
  }

  lemma SlotFilled(g: Graph, n: Node, before: map<Node, Node>, mid: map<Node, Node>, now: map<Node, Node>,
                   h: Graph, k: Graph, t: Shape, item: Value, i: nat)
    requires Filling(g, n, before, mid, h, t, i) && i < |g[n].items|
    requires h.Keys !! k.Keys && mid[n] !in k && now.Keys <= g.Keys && Extends(mid, now)
    requires SlotResult(g, n, i, mid, now, item, k)
    ensures WellFormed(n, g[n])
    ensures Filling(g, n, before, now, h + k, WithSlot(n, g[n], t, item, i), i + 1)
  {
    AddedDoneThrough(g, n, i, before, mid, now, h, k);
    SlotAppended(n, g[n], t, item, mid, now, i);
  }

  /** The memo covers every node but those still to do, and tells nodes apart. */
  ghost predicate MemoCovers(g: Graph, todo: set<Node>, memo: map<Node, Node>) {
    memo.Keys <= g.Keys <= memo.Keys + todo && Injective(memo)
  }

  ghost predicate CopyOf(memo: map<Node, Node>, n: Node, c: Node) {
    n in memo && memo[n] == c
  }

  method RedactSlot(n: Node, i: nat, seen: WeakMap, ghost g: Graph, ghost todo: set<Node>)
    returns (item: Value, ghost k: Graph)
    requires Closed(g) && Holds(g) && MemoCovers(g, todo, seen.entries)
    requires n in g && i < |n.items| && n.items == g[n].items
    modifies seen
    ensures MemoCovers(g, todo, seen.entries) && Extends(old(seen.entries), seen.entries)
    ensures SlotResult(g, n, i, old(seen.entries), seen.entries, item, k)
    ensures Holds(k) && fresh(k.Keys)
    decreases todo, 2
  {
    assert n.View() == g[n];
    if n.kind.ObjectKind? && IsSensitiveKey(n.keys[i]) {
      item, k := REDACTED, map[];
    } else {
      item, k := RedactValue(n.items[i], seen, g, todo);
    }
  }

  /** `result.push(item)`, or the assignment of a property. */
  method Append(n: Node, i: nat, item: Value, result: Node)
    requires i < |n.items| && n != result
    requires n.kind.ObjectKind? ==> i < |n.keys| && n.keys[i] !in result.keys
    modifies result
    ensures result.View() ==
            old(Shape(if n.kind.ObjectKind? then result.keys + [n.keys[i]] else result.keys, result.items + [item]))
  {
    if n.kind.ArrayKind? {
      result.Push(item);
    } else {
      result.AddProperty(n.keys[i], item);
    }
  }

  /** The state of the copying loops: `i` slots of `n` are in `result`, and `h` holds the copies made on the way. */
  ghost predicate Copying(g: Graph, todo: set<Node>, before: map<Node, Node>, n: Node, result: Node, seen: WeakMap,
                          h: Graph, i: nat)
    reads g.Keys, h.Keys, seen, result
  {
    && Closed(g) && Holds(g) && n in g && result !in g && n.items == g[n].items && i <= |n.items|
    && MemoCovers(g, todo, seen.entries) && CopyOf(seen.entries, n, result) && result !in h
    && Filling(g, n, before, seen.entries, h, result.View(), i) && Holds(h)
  }

  /** The value of slot `i` goes to the end of `result`. */
  method PutSlot(n: Node, i: nat, item: Value, result: Node, seen: WeakMap, ghost g: Graph, ghost todo: set<Node>,
                 ghost before: map<Node, Node>, ghost mid: map<Node, Node>, ghost h: Graph, ghost k: Graph)
    requires Closed(g) && Holds(g) && n in g && i < |n.items| && result !in g
    requires MemoCovers(g, todo, seen.entries) && CopyOf(seen.entries, n, result) && CopyOf(mid, n, result)
    requires Filling(g, n, before, mid, h, result.View(), i) && i < |g[n].items| && Extends(mid, seen.entries)
    requires SlotResult(g, n, i, mid, seen.entries, item, k)
    requires Holds(h + k) && h.Keys !! k.Keys && result !in h + k
    modifies result
    ensures Copying(g, todo, before, n, result, seen, h + k, i + 1)
  {
    hide Filling, Closed, SlotResult, Extends;
    ghost var t := result.View();
    assert n.View() == g[n];
    SlotFilled(g, n, before, mid, seen.entries, h, k, t, item, i);
    if n.kind.ObjectKind? {
      KeyIsNew(g, n, before, mid, h, t, i);
    }
    Append(n, i, item, result);
  }

  /** One round of the copying loops: slot `i` of `n` goes to the end of `result`. */
  method CopySlot(n: Node, i: nat, result: Node, seen: WeakMap, ghost g: Graph, ghost todo: set<Node>,
                  ghost before: map<Node, Node>, ghost h: Graph)
    returns (ghost h': Graph)
    requires i < |n.items| && Copying(g, todo, before, n, result, seen, h, i)
    modifies seen, result
    ensures n.items == old(n.items) && Copying(g, todo, before, n, result, seen, h', i + 1)
    ensures fresh(h'.Keys - h.Keys)
    decreases todo, 3
  {
    hide Filling, Closed, SlotResult, Injective;
    ghost var mid := seen.entries;
    assert n.View() == g[n];
    var item, k := RedactSlot(n, i, seen, g, todo);
    h' := h + k;
    PutSlot(n, i, item, result, seen, g, todo, before, mid, h, k);
  }

  lemma CopyingStarts(g: Graph, todo: set<Node>, before: map<Node, Node>, n: Node, result: Node, seen: WeakMap)
    requires Closed(g) && Holds(g) && n in g && result !in g && result.View() == Shape([], [])
    requires MemoCovers(g, todo, seen.entries) && CopyOf(seen.entries, n, result)
    requires Filling(g, n, before, seen.entries, map[], Shape([], []), 0)
    ensures Copying(g, todo, before, n, result, seen, map[], 0)
  {
    hide Filling, Closed, MemoCovers;
    assert n.View() == g[n];
  }

  lemma CopyingEnds(g: Graph, todo: set<Node>, before: map<Node, Node>, n: Node, result: Node, seen: WeakMap, h: Graph)
    requires n in g && Copying(g, todo, before, n, result, seen, h, |n.items|)
    ensures MemoCovers(g, todo, seen.entries) && CopyOf(seen.entries, n, result) && Holds(h)
    ensures Filling(g, n, before, seen.entries, h, result.View(), |g[n].items|)
  {
    hide Filling, Closed, MemoCovers;
  }

  /** The copying loops: every slot of `n`, in order, into the empty container `result`. */
  method CopySlots(n: Node, result: Node, seen: WeakMap, ghost g: Graph, ghost todo: set<Node>,
                   ghost before: map<Node, Node>)
    returns (ghost h: Graph)
    requires Closed(g) && Holds(g) && n in g && result !in g && result.View() == Shape([], [])
    requires MemoCovers(g, todo, seen.entries) && CopyOf(seen.entries, n, result)
    requires Filling(g, n, before, seen.entries, map[], Shape([], []), 0)
    modifies seen, result
    ensures MemoCovers(g, todo, seen.entries) && CopyOf(seen.entries, n, result)
    ensures Filling(g, n, before, seen.entries, h, result.View(), |g[n].items|)
    ensures Holds(h) && fresh(h.Keys)
    decreases todo, 4
  {
    hide *;
    CopyingStarts(g, todo, before, n, result, seen);
    h := map[];
    var i := 0;
    while i < |n.items|
      invariant 0 <= i <= |n.items| && Copying(g, todo, before, n, result, seen, h, i) && fresh(h.Keys)
    {
      h := CopySlot(n, i, result, seen, g, todo, before, h);
      i := i + 1;
    }
    CopyingEnds(g, todo, before, n, result, seen, h);
  }

  lemma HoldsToo(h: Graph, c: Node)
    requires Holds(h)
    ensures Holds(h[c := c.View()])
  {
  }

  /** `[]` for an array, `{}` for a plain object. */
  method EmptyCopy(n: Node) returns (c: Node)
    ensures fresh(c) && KindCopied(n, c) && c.View() == Shape([], [])
  {
    c := new Node(if n.kind.ArrayKind? then ArrayKind else ObjectKind(ObjectProto));
  }

  lemma CopyIs(memo: map<Node, Node>, n: Node, c: Node)
    ensures CopyOf(memo, n, c) <==> n in memo && memo[n] == c
  {
  }

  lemma MemoGrows(g: Graph, todo: set<Node>, memo: map<Node, Node>, n: Node, result: Node)
    requires MemoCovers(g, todo, memo) && n in g && n !in memo && result !in memo.Values
    ensures memo.Keys <= g.Keys && Injective(memo) && n in todo && MemoCovers(g, todo - {n}, memo[n := result])
  {
  }

  lemma MemoCoversMore(g: Graph, todo: set<Node>, memo: map<Node, Node>, n: Node)
    requires MemoCovers(g, todo - {n}, memo)
    ensures memo.Keys <= g.Keys && MemoCovers(g, todo, memo)
  {
  }

  /** A container that has not been visited yet: it is memoised first, and filled afterwards. */
  method RedactContainer(n: Node, seen: WeakMap, ghost g: Graph, ghost todo: set<Node>)
    returns (result: Node, ghost h: Graph)
    requires Closed(g) && Holds(g) && n in g && n !in seen.entries && MemoCovers(g, todo, seen.entries)
    modifies seen
    ensures MemoCovers(g, todo, seen.entries) && CopyOf(seen.entries, n, result)
    ensures AddedDone(g, Ref(n), old(seen.entries), seen.entries, h, {})
    ensures Holds(h) && fresh(h.Keys)
    decreases todo, 0
  {
    hide *;
    result := EmptyCopy(n);
    MemoGrows(g, todo, seen.entries, n, result);
    FillingStarts(g, n, seen.entries, result);
    seen.entries := seen.entries[n := result];
    CopyIs(seen.entries, n, result);
    h := CopySlots(n, result, seen, g, todo - {n}, old(seen.entries));
    CopyIs(seen.entries, n, result);
    HoldsToo(h, result);
    MemoCoversMore(g, todo, seen.entries, n);
    Filled(g, n, old(seen.entries), seen.entries, h, result.View());
    h := h[result := result.View()];
  }

  method RedactValue(v: Value, seen: WeakMap, ghost g: Graph, ghost todo: set<Node>) returns (r: Value, ghost h: Graph)
    requires Closed(g) && Holds(g) && Covers(g, v) && MemoCovers(g, todo, seen.entries)
    modifies seen
    ensures MemoCovers(g, todo, seen.entries) && IsImage(v, r, seen.entries)
    ensures AddedDone(g, v, old(seen.entries), seen.entries, h, {})
    ensures Holds(h) && fresh(h.Keys)
    decreases todo, 1
  {
    hide AddedDone, Closed, Injective;
    if !IsContainer(v) {
      NothingAdded(g, v, seen.entries);
      r, h := v, map[];
    } else if v.node in seen.entries {
      NothingAdded(g, v, seen.entries);
      r, h := Ref(seen.entries[v.node]), map[];
    } else {
      var result;
      result, h := RedactContainer(v.node, seen, g, todo);
      r := Ref(result);
    }
  }

  /** Starting from nothing, everything in the memo has its copy. */
  lemma AllRedacted(g: Graph, v: Value, r: Value, memo: map<Node, Node>, all: Graph, h: Graph)
    requires Closed(g) && Covers(g, v) && MemoCovers(g, g.Keys, memo) && IsImage(v, r, memo)
    requires AddedDone(g, v, map[], memo, all, {}) && memo.Values <= all.Keys
    requires h == map c | c in memo.Values :: all[c]
    ensures Redacts(g, v, h, r, memo)
  {
    hide Closed, Reachable, SlotsCopied, KindCopied;
  }

  lemma CopiesMade(g: Graph, v: Value, memo: map<Node, Node>, all: Graph)
    requires Closed(g) && memo.Keys <= g.Keys && AddedDone(g, v, map[], memo, all, {})
    ensures memo.Values <= all.Keys
  {
    hide Closed, Reachable, Copied;
  }

  /**
   * The entry point.  Nothing the caller can see is written: there is no `modifies` clause, and
   * every container of the result is new.
   */
  method RedactSensitiveArgs(v: Value, ghost g: Graph) returns (r: Value, ghost h: Graph, ghost memo: map<Node, Node>)
    requires Closed(g) && Holds(g) && Covers(g, v)
    ensures Redacts(g, v, h, r, memo)
    ensures Holds(g) && Holds(h) && fresh(h.Keys)
  {
    hide AddedDone, Closed, IsImage, Redacts;
    var seen := new WeakMap();
    ghost var all;
    r, all := RedactValue(v, seen, g, g.Keys);
    memo := seen.entries;
    CopiesMade(g, v, memo, all);
    h := map c | c in memo.Values :: all[c];
    AllRedacted(g, v, r, memo, all, h);
  }

  // ---------- what the result is worth ----------

  /** `piece` is `word`, each letter in either case; the Kelvin sign is one more way to write a `k`. */
  predicate Spells(piece: string, word: string) {
    && |piece| == |word|
    && forall i :: 0 <= i < |word| ==>
         || piece[i] == word[i]
         || ('a' <= word[i] <= 'z' && piece[i] as int + 32 == word[i] as int)
         || (word[i] == 'k' && piece[i] == '\U{212A}')
  }

  /** The words of the key pattern `password|passphrase|pass[12]|secret|token|auth|api_?key`. */
  predicate SpellsSecret(piece: string) {
    || Spells(piece, "password") || Spells(piece, "passphrase") || Spells(piece, "pass1") || Spells(piece, "pass2")
    || Spells(piece, "secret") || Spells(piece, "token") || Spells(piece, "auth") || Spells(piece, "apikey")
    || Spells(piece, "api_key")
  }

  lemma FoldExactly(piece: string, word: string)
    requires forall i :: 0 <= i < |word| ==> 'a' <= word[i] <= 'z' || word[i] in "_12"
    ensures FoldCase(piece) == word <==> Spells(piece, word)
  {
    if FoldCase(piece) == word {
      assert forall i :: 0 <= i < |word| ==> FoldChar(piece[i]) == word[i];
    }
    if Spells(piece, word) {
      assert forall i :: 0 <= i < |word| ==> FoldCase(piece)[i] == word[i];
    }
  }

  lemma WordsExactly(piece: string)
    ensures FoldCase(piece) in SENSITIVE_WORDS <==> SpellsSecret(piece)
  {
    hide FoldCase, Spells;
    FoldExactly(piece, "password");
    FoldExactly(piece, "passphrase");
    FoldExactly(piece, "pass1");
    FoldExactly(piece, "pass2");
    FoldExactly(piece, "secret");
    FoldExactly(piece, "token");
    FoldExactly(piece, "auth");
    FoldExactly(piece, "apikey");
    FoldExactly(piece, "api_key");
  }

  lemma FoldOfSlice(key: string, i: nat, j: nat)
    requires i <= j <= |key|
    ensures FoldCase(key)[i..j] == FoldCase(key[i..j])
  {
  }

  /** A key is sensitive exactly if one of the words is spelt somewhere in it, in any mixture of cases. */
  lemma SensitiveExactly(key: string)
    ensures IsSensitiveKey(key) <==> exists i, j :: 0 <= i <= j <= |key| && SpellsSecret(key[i..j])
  {
    hide FoldCase, SpellsSecret;
    if IsSensitiveKey(key) {
      var w, at: nat :| w in SENSITIVE_WORDS && at <= |key| && OccursAt(w, FoldCase(key), at);
      FoldOfSlice(key, at, at + |w|);
      WordsExactly(key[at..at + |w|]);
    }
    if i, j :| 0 <= i <= j <= |key| && SpellsSecret(key[i..j]) {
      FoldOfSlice(key, i, j);
      WordsExactly(key[i..j]);
      assert OccursAt(FoldCase(key[i..j]), FoldCase(key), i);
    }
  }

  /** A key of seven characters that contains none of the words. */
  lemma ContentIsOrdinary()
    ensures !IsSensitiveKey("content")
  {
    var key := "content";
    SensitiveExactly(key);
    forall i, j | 0 <= i <= j <= |key|
      ensures !SpellsSecret(key[i..j])
    {
      var piece := key[i..j];
      if |piece| > 0 {
        assert piece[0] == key[i] && piece[|piece| - 1] == key[j - 1];
      }
    }
  }

  lemma ImageIsInjective(g: Graph, v: Value, h: Graph, r: Value, memo: map<Node, Node>, x: Value, y: Value, x': Value,
                         y': Value)
    requires Redacts(g, v, h, r, memo) && IsImage(x, x', memo) && IsImage(y, y', memo)
    ensures x == y <==> x' == y'
  {
  }

  /** A copy has the slots of its original and hides the same ones. */
  lemma SlotsOfCopy(g: Graph, v: Value, h: Graph, r: Value, memo: map<Node, Node>, n: Node)
    requires Redacts(g, v, h, r, memo) && n in memo
    ensures n in g && memo[n] in h && IsContainer(Ref(memo[n])) && |h[memo[n]].items| == |g[n].items|
    ensures forall i: nat :: i < |g[n].items| ==>
              && (Hidden(memo[n], h[memo[n]], i) <==> Hidden(n, g[n], i))
              && if Hidden(n, g[n], i) then h[memo[n]].items[i] == REDACTED
                 else IsImage(g[n].items[i], h[memo[n]].items[i], memo)
  {
    assert Copied(n, g[n], memo[n], h[memo[n]], memo);
  }

  /** Every walk through the copy mirrors the same walk through the original, up to the first
      sensitive slot; that slot holds the marker and nothing lies behind it. */
  lemma {:induction false} WalksMirrored(g: Graph, v: Value, h: Graph, r: Value, memo: map<Node, Node>, x: Value,
                                         y: Value, path: seq<nat>)
    requires Redacts(g, v, h, r, memo) && IsImage(x, y, memo)
    ensures Visible(g, x, path) <==> Visible(h, y, path)
    ensures Visible(g, x, path) ==>
              match Follow(g, x, path)
              case None => Follow(h, y, path) == None
              case Some(w) => Follow(h, y, path).Some? && IsImage(w, Follow(h, y, path).value, memo)
    ensures !Visible(g, x, path) ==>
              Follow(h, y, path) == if Visible(g, x, path[..|path| - 1]) then Some(REDACTED) else None
    decreases |path|
  {
    hide Redacts, Hidden;
    if path != [] && IsContainer(x) {
      var n, i := x.node, path[0];
      SlotsOfCopy(g, v, h, r, memo, n);
      if i >= |g[n].items| {
        return;
      }
      if |path| > 1 {
        assert path[..|path| - 1][1..] == path[1..][..|path| - 2];
      }
      if Hidden(n, g[n], i) {
        assert Follow(h, y, path) == Follow(h, REDACTED, path[1..]);
      } else {
        WalksMirrored(g, v, h, r, memo, g[n].items[i], h[memo[n]].items[i], path[1..]);
      }
    }
  }

  /** Whatever container a walk from the result reaches, its sensitive slots hold only the marker. */
  lemma NothingLeaks(g: Graph, v: Value, h: Graph, r: Value, memo: map<Node, Node>, path: seq<nat>, c: Node, i: nat)
    requires Redacts(g, v, h, r, memo)
    requires Follow(h, r, path) == Some(Ref(c)) && IsContainer(Ref(c))
    ensures c in h && (Hidden(c, h[c], i) ==> h[c].items[i] == REDACTED)
  {
    WalksMirrored(g, v, h, r, memo, v, r, path);
    var n :| n in memo && memo[n] == c;
    assert Copied(n, g[n], c, h[c], memo);
    SlotsOfCopy(g, v, h, r, memo, n);
  }

  lemma {:induction false} FollowMore(g: Graph, v: Value, path: seq<nat>, i: nat)
    requires Follow(g, v, path).Some?
    ensures Follow(g, v, path + [i]) == Follow(g, Follow(g, v, path).value, [i])
    decreases |path|
  {
    if path == [] {
      assert path + [i] == [i];
    } else {
      assert (path + [i])[1..] == path[1..] + [i];
      FollowMore(g, g[v.node].items[path[0]], path[1..], i);
    }
  }

  lemma RedactsImage(g: Graph, v: Value, h: Graph, r: Value, memo: map<Node, Node>)
    requires Redacts(g, v, h, r, memo)
    ensures IsImage(v, r, memo)
  {
  }

  /**
   * Wherever in the original a walk without sensitive keys finds an object, the same walk finds its copy, and
   * behind each of its keys the marker if a word of the pattern is spelt in the key, and else what belongs there.
   */
  lemma SecretsHiddenExactly(g: Graph, v: Value, h: Graph, r: Value, memo: map<Node, Node>, path: seq<nat>, n: Node,
                             i: nat)
    requires Redacts(g, v, h, r, memo) && Visible(g, v, path) && Follow(g, v, path) == Some(Ref(n))
    requires n.kind == ObjectKind(ObjectProto) || n.kind == ObjectKind(NullProto)
    requires n in g && i < |g[n].items| == |g[n].keys|
    ensures var key := g[n].keys[i];
      if exists a, b :: 0 <= a <= b <= |key| && SpellsSecret(key[a..b])
      then Follow(h, r, path + [i]) == Some(Plain(Text("[REDACTED]")))
      else Follow(h, r, path + [i]).Some? && IsImage(g[n].items[i], Follow(h, r, path + [i]).value, memo)
  {
    hide SpellsSecret, IsSensitiveKey, Redacts, Visible;
    SensitiveExactly(g[n].keys[i]);
    RedactsImage(g, v, h, r, memo);
    WalksMirrored(g, v, h, r, memo, v, r, path);
    SlotsOfCopy(g, v, h, r, memo, n);
    FollowMore(h, r, path, i);
    assert [i][1..] == [];
  }

  /** Arrays, and objects without a class, come back as new containers of the same form; everything else, objects
      of a class included, comes back as it is. */
  lemma CopiedExactly(g: Graph, v: Value, h: Graph, r: Value, memo: map<Node, Node>)
    requires Redacts(g, v, h, r, memo)
    ensures var copied := v.Ref? && (v.node.kind.ArrayKind? || v.node.kind == ObjectKind(ObjectProto)
                                     || v.node.kind == ObjectKind(NullProto));
      && (!copied ==> r == v)
      && (copied ==>
            && v.node in g && r.Ref? && r.node in h && |h[r.node].items| == |g[v.node].items|
            && r.node.kind == (if v.node.kind.ArrayKind? then ArrayKind else ObjectKind(ObjectProto))
            && (v.node.kind.ObjectKind? ==> h[r.node].keys == g[v.node].keys))
  {
    if IsContainer(v) {
      assert Copied(v.node, g[v.node], memo[v.node], h[memo[v.node]], memo);
    }
  }

  /** Sharing and cycles are kept exactly: two walks meet in the copy iff they meet in the original. */
  lemma SharingKept(g: Graph, v: Value, h: Graph, r: Value, memo: map<Node, Node>, p: seq<nat>, q: seq<nat>)
    requires Redacts(g, v, h, r, memo) && Visible(g, v, p) && Visible(g, v, q)
    ensures Follow(h, r, p) == Follow(h, r, q) <==> Follow(g, v, p) == Follow(g, v, q)
  {
    WalksMirrored(g, v, h, r, memo, v, r, p);
    WalksMirrored(g, v, h, r, memo, v, r, q);
    if Follow(g, v, p).Some? && Follow(g, v, q).Some? {
      ImageIsInjective(g, v, h, r, memo, Follow(g, v, p).value, Follow(g, v, q).value, Follow(h, r, p).value,
                       Follow(h, r, q).value);
    }
  }

  /** The WeakMap ends up with exactly the containers that can be reached without a sensitive key. */
  lemma VisitedExactly(g: Graph, v: Value, h: Graph, r: Value, memo: map<Node, Node>, n: Node)
    requires Redacts(g, v, h, r, memo)
    ensures n in memo <==> IsContainer(Ref(n)) && Reachable(g, v, n)
  {
    if IsContainer(Ref(n)) && Reachable(g, v, n) {
      var path :| Visible(g, v, path) && Follow(g, v, path) == Some(Ref(n));
      WalksMirrored(g, v, h, r, memo, v, r, path);
    }
  }

  /** A redacted value can be redacted again. */
  lemma RedactedIsClosed(g: Graph, v: Value, h: Graph, r: Value, memo: map<Node, Node>)
    requires Redacts(g, v, h, r, memo)
    ensures Closed(h) && Covers(h, r)
  {
    forall c | c in h
      ensures IsContainer(Ref(c)) && WellFormed(c, h[c])
      ensures forall i: nat :: i < |h[c].items| && !Hidden(c, h[c], i) && IsContainer(h[c].items[i]) ==>
              h[c].items[i].node in h
    {
      var n :| n in memo && memo[n] == c;
      assert Copied(n, g[n], c, h[c], memo);
    }
  }

  /** Every container of the copy is the copy of some container, and can itself be reached in the copy. */
  lemma CopiedFrom(g: Graph, v: Value, h: Graph, r: Value, memo: map<Node, Node>, c: Node) returns (n: Node)
    requires Redacts(g, v, h, r, memo) && c in h
    ensures n in memo && memo[n] == c && Copied(n, g[n], c, h[c], memo) && Reachable(h, r, c)
  {
    n :| n in memo && memo[n] == c;
    var path :| Visible(g, v, path) && Follow(g, v, path) == Some(Ref(n));
    hide Copied, Injective, Closed;
    WalksMirrored(g, v, h, r, memo, v, r, path);
  }

  /** `again[c]` has the kind, the keys and, up to renaming, every slot of `c`, markers included. */
  ghost predicate SameSlots(h: Graph, k: Graph, again: map<Node, Node>, c: Node) {
    && c in h && c in again && again[c] in k && again[c].kind == c.kind
    && (c.kind.ObjectKind? ==> k[again[c]].keys == h[c].keys)
    && |k[again[c]].items| == |h[c].items|
    && forall i: nat :: i < |h[c].items| ==> IsImage(h[c].items[i], k[again[c]].items[i], again)
  }

  lemma SlotsCopiedAgain(g: Graph, v: Value, h: Graph, r: Value, memo: map<Node, Node>, k: Graph, s: Value,
                         again: map<Node, Node>, c: Node)
    requires Redacts(g, v, h, r, memo) && Redacts(h, r, k, s, again) && c in h
    ensures SameSlots(h, k, again, c)
  {
    var n := CopiedFrom(g, v, h, r, memo, c);
    VisitedExactly(h, r, k, s, again, c);
    SlotsOfCopy(g, v, h, r, memo, n);
    SlotsOfCopy(h, r, k, s, again, c);
    assert Copied(c, h[c], again[c], k[again[c]], again);
  }

  /** Redacting again copies every container slot by slot: the second copy is the first one under an
      injective renaming of its containers. */
  lemma RedactingTwice(g: Graph, v: Value, h: Graph, r: Value, memo: map<Node, Node>, k: Graph, s: Value,
                       again: map<Node, Node>)
    requires Redacts(g, v, h, r, memo) && Redacts(h, r, k, s, again)
    ensures again.Keys == h.Keys && Injective(again) && IsImage(r, s, again)
    ensures forall c :: c in h ==> SameSlots(h, k, again, c)
  {
    assert again.Keys <= h.Keys && Injective(again) && IsImage(r, s, again);
    hide Redacts, Injective, IsImage;
    forall c | c in h
      ensures SameSlots(h, k, again, c)
    {
      SlotsCopiedAgain(g, v, h, r, memo, k, s, again, c);
    }
  }
}
