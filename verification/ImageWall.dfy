/**
 * The image wall's greedy packer (src/quick-panel/imageWallPacker.ts) with the clamp it relies on
 * (src/quick-panel/constants.ts).  Heights are real numbers; rounding is not modelled.
 */
module ImageWall {

  /** What the aspect-ratio cache can hold. */
  datatype Ratio = Undefined | NotFinite | Finite(value: real)

  const MIN_ASPECT_RATIO := 0.45
  const MAX_ASPECT_RATIO := 2.2

  function Clamp(ratio: Ratio): (r: real)
    ensures MIN_ASPECT_RATIO <= r <= MAX_ASPECT_RATIO
    ensures ratio.Finite? && MIN_ASPECT_RATIO <= ratio.value <= MAX_ASPECT_RATIO ==> r == ratio.value
  {
    if !ratio.Finite? || ratio.value <= 0.0 then 1.0
    else if ratio.value < MIN_ASPECT_RATIO then MIN_ASPECT_RATIO
    else if ratio.value > MAX_ASPECT_RATIO then MAX_ASPECT_RATIO
    else ratio.value
  }

  /** The height of a tile of width one. */
  function Weight(ratio: Ratio): (w: real)
    ensures 0.0 < 1.0 / MAX_ASPECT_RATIO <= w <= 1.0 / MIN_ASPECT_RATIO
  {
    1.0 / Clamp(ratio)
  }

  /** A ratio that is not known, or not a positive number, counts as a square; any other is brought into the range
      from 0.45 to 2.2, to the nearer end if it is outside.  The height of a tile is the reciprocal. */
  lemma ClampExactly(ratio: Ratio, x: real)
    ensures ratio == Undefined || ratio == NotFinite || (ratio == Finite(x) && x <= 0.0) ==>
              Clamp(ratio) == 1.0 && Weight(ratio) == 1.0
    ensures ratio == Finite(x) && 0.0 < x < 0.45 ==> Clamp(ratio) == 0.45 && Weight(ratio) == 1.0 / 0.45
    ensures ratio == Finite(x) && 0.45 <= x <= 2.2 ==> Clamp(ratio) == x && Weight(ratio) * x == 1.0
    ensures ratio == Finite(x) && 2.2 < x ==> Clamp(ratio) == 2.2 && Weight(ratio) == 1.0 / 2.2
  {
  }

  function Weights<T>(items: seq<T>, ratioOf: T -> Ratio): (w: seq<real>)
    ensures |w| == |items| && forall i :: 0 <= i < |w| ==> w[i] == Weight(ratioOf(items[i]))
  {
    seq(|items|, i requires 0 <= i < |items| => Weight(ratioOf(items[i])))
  }

  // ---------- assignments of tiles to columns ----------

  ghost predicate IsAssignment(w: seq<real>, a: seq<nat>, m: nat) {
    |a| == |w| && forall i :: 0 <= i < |a| ==> a[i] < m
  }

  function Height(w: seq<real>, a: seq<nat>, c: nat): real
    requires |a| == |w|
  {
    if w == [] then 0.0
    else
      var n := |w| - 1;
      Height(w[..n], a[..n], c) + if a[n] == c then w[n] else 0.0
  }

  function Heights(w: seq<real>, a: seq<nat>, m: nat): (h: seq<real>)
    requires |a| == |w|
    ensures |h| == m && forall c :: 0 <= c < m ==> h[c] == Height(w, a, c)
  {
    seq(m, c requires 0 <= c < m => Height(w, a, c))
  }

  function Tallest(h: seq<real>): (x: real)
    requires h != []
    ensures x in h && forall c :: 0 <= c < |h| ==> h[c] <= x
  {
    if |h| == 1 then h[0]
    else
      var n := |h| - 1;
      var rest := Tallest(h[..n]);
      if rest < h[n] then h[n] else rest
  }

  /** `columnHeights.indexOf(Math.min(...columnHeights))`: the leftmost of the shortest columns. */
  function FirstShortest(h: seq<real>): (c: nat)
    requires h != []
    ensures c < |h| && (forall d :: 0 <= d < |h| ==> h[c] <= h[d]) && forall d :: 0 <= d < c ==> h[c] < h[d]
  {
    if |h| == 1 then 0
    else
      var n := |h| - 1;
      var rest := FirstShortest(h[..n]);
      if h[n] < h[rest] then n else rest
  }

  /** Each tile in turn goes to the leftmost shortest column. */
  function Greedy(w: seq<real>, m: nat): (a: seq<nat>)
    requires m >= 1
    ensures |a| == |w| && forall i :: 0 <= i < |a| ==> a[i] < m
  {
    if w == [] then []
    else
      var n := |w| - 1;
      var a := Greedy(w[..n], m);
      a + [FirstShortest(Heights(w[..n], a, m))]
  }

  /** Column `c` is the first of the lowest. */
  ghost predicate IsLeftmostLowest(h: seq<real>, c: nat) {
    c < |h| && (forall d :: 0 <= d < |h| ==> h[c] <= h[d]) && forall d :: 0 <= d < c ==> h[c] < h[d]
  }

  lemma OneLeftmostLowest(h: seq<real>, c: nat)
    requires h != []
    ensures IsLeftmostLowest(h, c) <==> c == FirstShortest(h)
  {
    var d := FirstShortest(h);
    if IsLeftmostLowest(h, c) {
      assert h[c] <= h[d] <= h[c];
    }
  }

  /** The assignment in which every tile goes to the leftmost of the columns that are lowest before it, and no other. */
  lemma {:induction false} GreedyExactly(w: seq<real>, m: nat, a: seq<nat>)
    requires m >= 1
    ensures a == Greedy(w, m) <==>
            |a| == |w| && forall i :: 0 <= i < |a| ==> IsLeftmostLowest(Heights(w[..i], a[..i], m), a[i])
  {
    hide FirstShortest, Heights;
    if w != [] && |a| == |w| {
      var n := |w| - 1;
      GreedyExactly(w[..n], m, a[..n]);
      assert a == a[..n] + [a[n]];
      forall i | 0 <= i < n
        ensures w[..n][..i] == w[..i] && a[..n][..i] == a[..i]
      {
      }
      assert Greedy(w, m)[..n] == Greedy(w[..n], m);
      OneLeftmostLowest(Heights(w[..n], a[..n], m), a[n]);
    }
  }

  datatype Entry<T> = Entry(item: T, index: nat)

  function Column<T>(items: seq<T>, a: seq<nat>, c: nat): seq<Entry<T>>
    requires |a| == |items|
  {
    if items == [] then []
    else
      var n := |items| - 1;
      Column(items[..n], a[..n], c) + if a[n] == c then [Entry(items[n], n)] else []
  }

  lemma NothingPlaced<T>(items: seq<T>, w: seq<real>, m: nat)
    requires m >= 1 && items == [] && w == []
    ensures Heights(w, Greedy(w, m), m) == seq(m, _ => 0.0)
    ensures forall c: nat :: Column(items, Greedy(w, m), c) == []
  {
  }

  lemma HeightsStep(w: seq<real>, a: seq<nat>, target: nat, m: nat)
    requires |w| == |a| + 1 && target < m
    ensures var h := Heights(w[..|a|], a, m); Heights(w, a + [target], m) == h[target := h[target] + w[|a|]]
  {
    assert (a + [target])[..|a|] == a;
  }

  lemma LastPlaced<T>(items: seq<T>, w: seq<real>, a: seq<nat>, target: nat, c: nat)
    requires |w| == |items| == |a| + 1
    ensures var n := |a|;
      && Height(w, a + [target], c) == Height(w[..n], a, c) + (if c == target then w[n] else 0.0)
      && Column(items, a + [target], c) == Column(items[..n], a, c) + if c == target then [Entry(items[n], n)] else []
  {
    assert (a + [target])[..|a|] == a;
  }

  lemma GreedyMore(w: seq<real>, index: nat, m: nat)
    requires m >= 1 && index < |w|
    ensures var a := Greedy(w[..index], m);
      Greedy(w[..index + 1], m) == a + [FirstShortest(Heights(w[..index], a, m))]
  {
    hide FirstShortest, Heights;
    assert w[..index + 1][..index] == w[..index];
  }

  lemma OnePlaced<T>(items: seq<T>, w: seq<real>, index: nat, m: nat)
    requires m >= 1 && |w| == |items| && index < |items|
    ensures var a, b := Greedy(w[..index], m), Greedy(w[..index + 1], m);
      var h := Heights(w[..index], a, m);
      var target := FirstShortest(h);
      && Heights(w[..index + 1], b, m) == h[target := h[target] + w[index]]
      && forall c: nat :: Column(items[..index + 1], b, c) ==
                          Column(items[..index], a, c) + if c == target then [Entry(items[index], index)] else []
  {
    hide Greedy, FirstShortest, Height, Heights, Column;
    var a, b := Greedy(w[..index], m), Greedy(w[..index + 1], m);
    assert w[..index + 1][..index] == w[..index] && items[..index + 1][..index] == items[..index];
    var target := FirstShortest(Heights(w[..index], a, m));
    GreedyMore(w, index, m);
    forall c: nat
      ensures Column(items[..index + 1], b, c) == Column(items[..index], a, c)
                                                  + if c == target then [Entry(items[index], index)] else []
    {
      LastPlaced(items[..index + 1], w[..index + 1], a, target, c);
    }
    HeightsStep(w[..index + 1], a, target, m);
  }

  /** The source's loop. */
  method PackImageWallColumns<T>(items: seq<T>, columnCount: nat, ratioOf: T -> Ratio)
    returns (columns: seq<seq<Entry<T>>>)
    requires columnCount >= 1
    ensures |columns| == columnCount
    ensures forall c :: 0 <= c < columnCount ==>
            columns[c] == Column(items, Greedy(Weights(items, ratioOf), columnCount), c)
  {
    hide Height, Heights, Greedy, Column, FirstShortest;
    columns := seq(columnCount, _ => []);
    var columnHeights := new real[columnCount](_ => 0.0);
    ghost var w := Weights(items, ratioOf);
    NothingPlaced(items[..0], w[..0], columnCount);
    var index := 0;
    while index < |items|
      invariant 0 <= index <= |items| && |columns| == columnCount
      invariant columnHeights[..] == Heights(w[..index], Greedy(w[..index], columnCount), columnCount)
      invariant forall c :: 0 <= c < columnCount ==>
          columns[c] == Column(items[..index], Greedy(w[..index], columnCount), c)
    {
      ghost var h := columnHeights[..];
      var target := FirstShortest(columnHeights[..]);
      OnePlaced(items, w, index, columnCount);
      columns := columns[target := columns[target] + [Entry(items[index], index)]];
      columnHeights[target] := columnHeights[target] + Weight(ratioOf(items[index]));
      assert columnHeights[..] == h[target := h[target] + w[index]];
      index := index + 1;
    }
    assert w[..|items|] == w && items[..|items|] == items;
  }

  // ---------- every tile once, in order ----------

  lemma {:induction false} EachTileOnce<T>(items: seq<T>, a: seq<nat>, c: nat, k: nat)
    requires |a| == |items| && k < |items|
    ensures Entry(items[k], k) in Column(items, a, c) <==> a[k] == c
    ensures forall e :: e in Column(items, a, c) ==> e.index < |items| && e.item == items[e.index]
    ensures forall i, j :: 0 <= i < j < |Column(items, a, c)| ==>
            Column(items, a, c)[i].index < Column(items, a, c)[j].index
  {
    var n := |items| - 1;
    if n > 0 {
      EachTileOnce(items[..n], a[..n], c, if k < n then k else 0);
    }
  }

  // ---------- how good the packing is ----------

  function Sum(h: seq<real>): real {
    if h == [] then 0.0 else Sum(h[..|h| - 1]) + h[|h| - 1]
  }

  function Largest(w: seq<real>): (x: real)
    ensures x >= 0.0 && forall i :: 0 <= i < |w| ==> w[i] <= x
    ensures x == 0.0 || x in w
  {
    if w == [] then 0.0
    else
      var rest := Largest(w[..|w| - 1]);
      if rest < w[|w| - 1] then w[|w| - 1] else rest
  }

  ghost predicate Nonnegative(w: seq<real>) {
    forall i :: 0 <= i < |w| ==> w[i] >= 0.0
  }

  lemma {:induction false} SumBump(h: seq<real>, k: seq<real>, c: nat, x: real)
    requires |h| == |k| && c < |h| && k[c] == h[c] + x && forall d :: 0 <= d < |h| && d != c ==> k[d] == h[d]
    ensures Sum(k) == Sum(h) + x
  {
    var n := |h| - 1;
    if c < n {
      SumBump(h[..n], k[..n], c, x);
    } else {
      assert h[..n] == k[..n];
    }
  }

  lemma {:induction false} SumZero(h: seq<real>)
    requires forall c :: 0 <= c < |h| ==> h[c] == 0.0
    ensures Sum(h) == 0.0
  {
    if h != [] {
      SumZero(h[..|h| - 1]);
    }
  }

  /** However the tiles are assigned, the columns together are as high as the tiles. */
  lemma {:induction false} HeightIsConserved(w: seq<real>, a: seq<nat>, m: nat)
    requires IsAssignment(w, a, m)
    ensures Sum(Heights(w, a, m)) == Sum(w)
  {
    if w == [] {
      SumZero(Heights(w, a, m));
    } else {
      var n := |w| - 1;
      HeightIsConserved(w[..n], a[..n], m);
      SumBump(Heights(w[..n], a[..n], m), Heights(w, a, m), a[n], w[n]);
    }
  }

  /** `height` is at most the m-th part of `total`. */
  ghost predicate BelowAverage(m: nat, height: real, total: real) {
    height * m as real <= total
  }

  lemma {:induction false} SumAtLeast(h: seq<real>, low: real)
    requires forall c :: 0 <= c < |h| ==> low <= h[c]
    ensures BelowAverage(|h|, low, Sum(h))
  {
    if h != [] {
      var n := |h| - 1;
      SumAtLeast(h[..n], low);
      assert low * (n + 1) as real == low * n as real + low;
    }
  }

  lemma {:induction false} SumAtMost(h: seq<real>, high: real)
    requires forall c :: 0 <= c < |h| ==> h[c] <= high
    ensures Sum(h) <= |h| as real * high
  {
    if h != [] {
      var n := |h| - 1;
      SumAtMost(h[..n], high);
      assert (n + 1) as real * high == n as real * high + high;
    }
  }

  lemma {:induction false} HeightNonnegative(w: seq<real>, a: seq<nat>, c: nat)
    requires |a| == |w| && Nonnegative(w)
    ensures Height(w, a, c) >= 0.0
  {
    if w != [] {
      HeightNonnegative(w[..|w| - 1], a[..|w| - 1], c);
    }
  }

  lemma {:induction false} ColumnsGrow(w: seq<real>, a: seq<nat>, i: nat)
    requires |a| == |w| && Nonnegative(w) && i < |w|
    ensures Height(w, a, a[i]) >= w[i]
  {
    var n := |w| - 1;
    HeightNonnegative(w[..n], a[..n], a[i]);
    if i < n {
      ColumnsGrow(w[..n], a[..n], i);
    }
  }

  /** At every step no two columns differ by more than the largest tile. */
  lemma {:induction false} GapBounded(w: seq<real>, m: nat, c: nat, d: nat)
    requires m >= 1 && Nonnegative(w) && c < m && d < m
    ensures Height(w, Greedy(w, m), c) - Height(w, Greedy(w, m), d) <= Largest(w)
  {
    if w != [] {
      var n := |w| - 1;
      var a := Greedy(w[..n], m);
      assert Greedy(w, m)[..n] == a;
      GapBounded(w[..n], m, c, d);
      var h := Heights(w[..n], a, m);
      assert h[c] == Height(w[..n], a, c) && h[d] == Height(w[..n], a, d);
    }
  }

  /** `height` exceeds the m-th part of `total` by at most (m - 1)/m of the largest tile. */
  ghost predicate NearAverage(m: nat, height: real, total: real, largest: real)
    requires m >= 1
  {
    m as real * height <= total + (m - 1) as real * largest
  }

  lemma ShortestBelowAverage(w: seq<real>, m: nat)
    requires m >= 1
    ensures var h := Heights(w, Greedy(w, m), m); BelowAverage(m, h[FirstShortest(h)], Sum(w))
  {
    hide BelowAverage;
    var h := Heights(w, Greedy(w, m), m);
    SumAtLeast(h, h[FirstShortest(h)]);
    HeightIsConserved(w, Greedy(w, m), m);
  }

  lemma NothingNearAverage(m: nat, c: nat)
    requires m >= 1 && c < m
    ensures NearAverage(m, Height([], Greedy([], m), c), Sum([]), Largest([]))
  {
    assert Height([], Greedy([], m), c) == 0.0;
  }

  lemma GreedyStep(w: seq<real>, m: nat, c: nat)
    requires m >= 1 && w != [] && Nonnegative(w) && c < m
    ensures var n := |w| - 1;
      var h := Heights(w[..n], Greedy(w[..n], m), m);
      && Height(w, Greedy(w, m), c) == h[c] + (if c == FirstShortest(h) then w[n] else 0.0)
      && Sum(w) == Sum(w[..n]) + w[n] && Largest(w[..n]) <= Largest(w)
  {
    hide FirstShortest;
    var n := |w| - 1;
    assert Greedy(w, m)[..n] == Greedy(w[..n], m);
  }

  lemma Monotone(k: real, x: real, y: real)
    requires k >= 0.0 && x <= y
    ensures k * x <= k * y
  {
  }

  lemma KeptArithmetic(m: nat, height: real, total: real, total': real, largest: real, largest': real)
    requires m >= 1 && NearAverage(m, height, total, largest)
    requires total <= total' && largest <= largest'
    ensures NearAverage(m, height, total', largest')
  {
    Monotone((m - 1) as real, largest, largest');
  }

  lemma PlacedArithmetic(m: nat, low: real, x: real, total: real, largest: real)
    requires m >= 1 && BelowAverage(m, low, total) && 0.0 <= x <= largest
    ensures NearAverage(m, low + x, total + x, largest)
  {
    assert m as real * (low + x) == low * m as real + x + (m - 1) as real * x;
    Monotone((m - 1) as real, x, largest);
  }

  lemma {:induction false} GreedyNearAverage(w: seq<real>, m: nat, c: nat)
    requires m >= 1 && Nonnegative(w) && c < m
    ensures NearAverage(m, Height(w, Greedy(w, m), c), Sum(w), Largest(w))
  {
    hide Height, Heights, Greedy, FirstShortest, Sum, Largest, NearAverage, BelowAverage;
    if w == [] {
      NothingNearAverage(m, c);
    } else {
      var n := |w| - 1;
      GreedyStep(w, m, c);
      GreedyNearAverage(w[..n], m, c);
      var h := Heights(w[..n], Greedy(w[..n], m), m);
      var s := FirstShortest(h);
      if c == s {
        ShortestBelowAverage(w[..n], m);
        PlacedArithmetic(m, h[s], w[n], Sum(w[..n]), Largest(w));
      } else {
        KeptArithmetic(m, h[c], Sum(w[..n]), Sum(w), Largest(w[..n]), Largest(w));
      }
    }
  }

  lemma BoundArithmetic(m: nat, height: real, total: real, largest: real, t: real)
    requires m >= 1 && NearAverage(m, height, total, largest)
    requires total <= m as real * t && largest <= t
    ensures m as real * height <= (2 * m - 1) as real * t
  {
    Monotone((m - 1) as real, largest, t);
    assert m as real * t + (m - 1) as real * t == (2 * m - 1) as real * t;
  }

  /** Any assignment whatever needs the average, and the largest tile. */
  lemma LowerBounds(w: seq<real>, a: seq<nat>, m: nat)
    requires m >= 1 && Nonnegative(w) && IsAssignment(w, a, m)
    ensures Sum(w) <= m as real * Tallest(Heights(w, a, m)) && Largest(w) <= Tallest(Heights(w, a, m))
  {
    hide Height, Tallest, Sum, Largest;
    var h := Heights(w, a, m);
    HeightIsConserved(w, a, m);
    SumAtMost(h, Tallest(h));
    HeightNonnegative(w, a, 0);
    if Largest(w) != 0.0 {
      var i :| 0 <= i < |w| && w[i] == Largest(w);
      ColumnsGrow(w, a, i);
      assert h[a[i]] == Height(w, a, a[i]);
    } else {
      assert h[0] >= 0.0;
    }
  }

  /** The tallest greedy column is at most (2 - 1/m) times the tallest column of any other assignment. */
  lemma GreedyIsNearlyOptimal(w: seq<real>, m: nat, other: seq<nat>)
    requires m >= 1 && Nonnegative(w) && IsAssignment(w, other, m)
    ensures m as real * Tallest(Heights(w, Greedy(w, m), m)) <= (2 * m - 1) as real * Tallest(Heights(w, other, m))
  {
    hide Height, Heights, Greedy, Tallest, Sum, Largest, NearAverage;
    var t := Tallest(Heights(w, other, m));
    var h := Heights(w, Greedy(w, m), m);
    var c :| 0 <= c < m && h[c] == Tallest(h);
    GreedyNearAverage(w, m, c);
    LowerBounds(w, other, m);
    BoundArithmetic(m, h[c], Sum(w), Largest(w), t);
  }

  /** For tiles the gap is at most 1/0.45, whatever the cache holds. */
  lemma TileGapBounded<T>(items: seq<T>, ratioOf: T -> Ratio, m: nat, c: nat, d: nat)
    requires m >= 1 && c < m && d < m
    ensures var w := Weights(items, ratioOf);
      Height(w, Greedy(w, m), c) - Height(w, Greedy(w, m), d) <= 1.0 / 0.45
  {
    GapBounded(Weights(items, ratioOf), m, c, d);
  }
}
