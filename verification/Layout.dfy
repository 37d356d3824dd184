// Row layout as arithmetic: prefix sums of heights, the row at an offset, and the
// count of rows not measured yet.
module Layout {

  // The offset of row `i`.
  function Prefix(h: seq<real>, i: nat): real
    requires i <= |h|
  {
    if i == 0 then 0.0 else Prefix(h, i - 1) + h[i - 1]
  }

  function Offsets(h: seq<real>): (o: seq<real>)
    ensures |o| == |h| + 1 && forall i :: 0 <= i <= |h| ==> o[i] == Prefix(h, i)
  {
    seq(|h| + 1, i requires 0 <= i <= |h| => Prefix(h, i))
  }

  ghost predicate NonNegative(h: seq<real>) {
    forall i :: 0 <= i < |h| ==> h[i] >= 0.0
  }

  ghost predicate Ascending(o: seq<real>) {
    forall i, j :: 0 <= i <= j < |o| ==> o[i] <= o[j]
  }

  lemma {:induction false} PrefixMonotone(h: seq<real>, i: nat, j: nat)
    requires NonNegative(h) && i <= j <= |h|
    ensures Prefix(h, i) <= Prefix(h, j)
    decreases j
  {
    if i < j {
      PrefixMonotone(h, i, j - 1);
    }
  }

  lemma OffsetsAscend(h: seq<real>)
    requires NonNegative(h)
    ensures Ascending(Offsets(h))
  {
    forall i, j | 0 <= i <= j < |h| + 1
      ensures Offsets(h)[i] <= Offsets(h)[j]
    {
      PrefixMonotone(h, i, j);
    }
  }

  lemma {:induction false} PrefixUpdate(h: seq<real>, i: nat, v: real, f: nat)
    requires i < |h| && f <= |h|
    ensures Prefix(h[i := v], f) == Prefix(h, f) + (if i < f then v - h[i] else 0.0)
    decreases f
  {
    if f > 0 {
      PrefixUpdate(h, i, v, f - 1);
    }
  }

  // The last of the first `n` rows that starts at or above `target`, else row 0.
  function IndexAt(o: seq<real>, n: nat, target: real): (i: nat)
    requires 0 < n <= |o|
    ensures i < n
  {
    if n == 1 || o[n - 1] <= target then n - 1 else IndexAt(o, n - 1, target)
  }

  // How many of the first `n` rows start above `target`, when offsets ascend: the index
  // of the first row at or below it.
  function FirstFrom(o: seq<real>, n: nat, target: real): (i: nat)
    requires n <= |o|
    ensures i <= n
  {
    if n == 0 || o[n - 1] < target then n else FirstFrom(o, n - 1, target)
  }

  lemma {:induction false} IndexAtIs(o: seq<real>, n: nat, target: real, i: nat)
    requires Ascending(o) && i < n <= |o|
    requires i == 0 || o[i] <= target
    requires i + 1 < n ==> o[i + 1] > target
    ensures IndexAt(o, n, target) == i
    decreases n
  {
    if n > 1 && o[n - 1] > target {
      IndexAtIs(o, n - 1, target, i);
    }
  }

  lemma {:induction false} IndexAtBounds(o: seq<real>, n: nat, target: real)
    requires Ascending(o) && 0 < n <= |o|
    ensures forall j :: IndexAt(o, n, target) < j < n ==> o[j] > target
    ensures IndexAt(o, n, target) == 0 || o[IndexAt(o, n, target)] <= target
  {
    if n > 1 && o[n - 1] > target {
      IndexAtBounds(o, n - 1, target);
    }
  }

  lemma {:induction false} FirstFromIs(o: seq<real>, n: nat, target: real, i: nat)
    requires Ascending(o) && i < n <= |o|
    ensures o[i] < target <==> i < FirstFrom(o, n, target)
    decreases n
  {
    if o[n - 1] >= target {
      if i < n - 1 {
        FirstFromIs(o, n - 1, target, i);
      }
    }
  }

  // The first row at or below the target, or the end of the list if there is none.
  ghost predicate FirstAtOrBelow(o: seq<real>, n: nat, target: real, f: nat)
    requires n <= |o|
  {
    f <= n && (f < n ==> o[f] >= target) && forall j :: 0 <= j < f ==> o[j] < target
  }

  lemma {:induction false} FirstFromUnique(o: seq<real>, n: nat, target: real, f: nat)
    requires Ascending(o) && n <= |o| && FirstAtOrBelow(o, n, target, f)
    ensures FirstFrom(o, n, target) == f
  {
    if n > 0 && f < n {
      FirstFromUnique(o, n - 1, target, f);
      assert o[f] <= o[n - 1];
    }
  }

  function Unmeasured(m: seq<bool>): nat {
    if m == [] then 0 else (if m[0] then 0 else 1) + Unmeasured(m[1..])
  }

  lemma {:induction false} MarkMeasured(m: seq<bool>, i: nat)
    requires i < |m|
    ensures Unmeasured(m[i := true]) == Unmeasured(m) - (if m[i] then 0 else 1)
  {
    if i == 0 {
      assert m[0 := true][1..] == m[1..];
    } else {
      assert m[i := true][1..] == m[1..][i - 1 := true];
      MarkMeasured(m[1..], i - 1);
    }
  }

  // Math.max(0, Math.min(x, hi)).
  function Clamp(x: real, hi: real): real {
    var m := if x < hi then x else hi;
    if m > 0.0 then m else 0.0
  }

  // The rendered window: between row `j` and the viewport from `top` to `bottom` there are
  // at most `overscan` rows on either side.
  predicate InWindow(o: seq<real>, n: nat, top: real, bottom: real, overscan: nat, j: nat)
    requires n <= |o|
  {
    && j < n
    && (j + overscan + 1 < n ==> o[j + overscan + 1] > top)
    && (overscan < j ==> o[j - overscan] <= bottom)
  }

  // `i` is the last row that starts at or above `target`, or row 0 if none does.
  predicate LastAbove(o: seq<real>, n: nat, target: real, i: nat)
    requires n <= |o|
  {
    i < n && (i == 0 || o[i] <= target) && forall j :: i < j < n ==> o[j] > target
  }

  // Main result: that is every row from `overscan` before the last row that starts at or
  // above the viewport's top to `overscan` after the last that starts at or above its bottom.
  lemma WindowByRows(o: seq<real>, n: nat, top: real, bottom: real, overscan: nat, first: nat, last: nat, j: nat)
    requires Ascending(o) && n <= |o| && LastAbove(o, n, top, first) && LastAbove(o, n, bottom, last)
    ensures InWindow(o, n, top, bottom, overscan, j) <==> j < n && first <= j + overscan && j <= last + overscan
  {
    if j < n {
      assert first <= j + overscan <==> (j + overscan + 1 < n ==> o[j + overscan + 1] > top);
      assert j <= last + overscan <==> (overscan < j ==> o[j - overscan] <= bottom);
    }
  }

  // It is never empty.
  lemma WindowNonEmpty(o: seq<real>, n: nat, top: real, bottom: real, overscan: nat, first: nat, last: nat)
    requires Ascending(o) && n <= |o| && LastAbove(o, n, top, first) && LastAbove(o, n, bottom, last) && top <= bottom
    ensures first <= last && InWindow(o, n, top, bottom, overscan, first)
  {
    WindowByRows(o, n, top, bottom, overscan, first, last, first);
  }

  // The window is the rows from `s` to `e`.
  ghost predicate IsSpan(o: seq<real>, n: nat, top: real, bottom: real, overscan: nat, s: nat, e: nat)
    requires n <= |o|
  {
    forall j: nat :: s <= j <= e <==> InWindow(o, n, top, bottom, overscan, j)
  }

  lemma WindowSpan(o: seq<real>, n: nat, top: real, bottom: real, overscan: nat, s: nat, e: nat)
    requires Ascending(o) && 0 < n <= |o| && top <= bottom
    requires var first, last := IndexAt(o, n, top), IndexAt(o, n, bottom);
      && s == (if first < overscan then 0 else first - overscan)
      && e == if last + overscan >= n then n - 1 else last + overscan
    ensures s <= e < n && IsSpan(o, n, top, bottom, overscan, s, e)
  {
    var first, last := IndexAt(o, n, top), IndexAt(o, n, bottom);
    IndexAtBounds(o, n, top);
    IndexAtBounds(o, n, bottom);
    WindowNonEmpty(o, n, top, bottom, overscan, first, last);
    hide InWindow, IndexAt, Ascending;
    forall j: nat
      ensures s <= j <= e <==> InWindow(o, n, top, bottom, overscan, j)
    {
      WindowByRows(o, n, top, bottom, overscan, first, last, j);
    }
  }

  // Every row that shows inside the viewport is in the window.
  lemma VisibleRowsInWindow(h: seq<real>, top: real, height: real, overscan: nat, i: nat)
    requires NonNegative(h) && i < |h|
    requires Prefix(h, i) < top + height && Prefix(h, i + 1) > top
    ensures InWindow(Offsets(h), |h|, top, top + height, overscan, i)
  {
    var o := Offsets(h);
    OffsetsAscend(h);
    assert o[i] == Prefix(h, i) && o[i + 1] == Prefix(h, i + 1);
  }
}
