// The windowed scroller: rows are mounted, measured and repositioned until the window
// of the final scroll position is rendered at its final offsets.
module VirtualList {
  import opened Options
  import opened Layout

  // A mounted row: its element, its index, and the `top` its element is styled with.
  datatype Row = Row(el: nat, index: nat, top: real)

  const PIN_THRESHOLD := 40.0

  // Items are represented by their keys. Elements are numbered as `renderRow` creates
  // them; `shows` is what an element was last rendered for, which is also `elementKeys`.
  class List {
    const overscan: nat
    const estimateHeight: real
    const canUpdate: bool
    var items: seq<string>
    var heights: seq<real>
    var measured: seq<bool>
    var offsets: seq<real>
    var mounted: map<string, Row>
    var pool: seq<nat>
    var shows: map<nat, string>
    var children: set<nat>
    var nextEl: nat
    var scrollTop: real
    var clientHeight: real
    var contentHeight: real

    ghost predicate Valid()
      reads this
    {
      && |heights| == |measured| == |items|
      && NonNegative(heights) && offsets == Offsets(heights)
      && Distinct(items) && clientHeight >= 0.0 && estimateHeight >= 0.0
      && DomOk(mounted, children, shows, pool, nextEl)
    }

    // What is on screen is exactly the window of the present scroll position, in place and
    // measured.
    ghost predicate Rendered()
      reads this
    {
      && |offsets| == |items| + 1 && |measured| == |items|
      && contentHeight == offsets[|items|]
      && (forall k :: k in mounted ==> k in items)
      && forall j: nat :: j < |items| ==> (items[j] in mounted <==> Near(j)) && (Near(j) ==> Shown(j))
    }

    ghost predicate Near(j: nat)
      requires |offsets| == |items| + 1
      reads this
    {
      InWindow(offsets, |items|, scrollTop, scrollTop + clientHeight, overscan, j)
    }

    ghost predicate Shown(j: nat)
      reads this
    {
      PlacedAt(mounted, items, offsets, j) && j < |measured| && measured[j]
    }

    constructor (overscan: nat, estimateHeight: real, canUpdate: bool, clientHeight: real)
      requires estimateHeight >= 0.0 && clientHeight >= 0.0
      ensures Valid() && items == [] && mounted == map[]
    {
      this.overscan, this.estimateHeight, this.canUpdate := overscan, estimateHeight, canUpdate;
      items, heights, measured, offsets, mounted, pool := [], [], [], [0.0], map[], [];
      shows, children, nextEl := map[], {}, 0;
      scrollTop, this.clientHeight, contentHeight := 0.0, clientHeight, 0.0;
    }

    // -------------------------------------------------------------------------
    // Layout
    // -------------------------------------------------------------------------

    method RebuildOffsets()
      modifies this`offsets
      ensures offsets == Offsets(heights)
    {
      var o := [0.0];
      for i := 0 to |heights|
        invariant |o| == i + 1 && forall j :: 0 <= j <= i ==> o[j] == Prefix(heights, j)
      {
        o := o + [o[i] + heights[i]];
      }
      offsets := o;
    }

    method FindIndexAtOffset(target: real) returns (lo: nat)
      requires |items| + 1 == |offsets| && Ascending(offsets)
      ensures items == [] ==> lo == 0
      ensures items != [] ==> lo == IndexAt(offsets, |items|, target)
    {
      var n := |items|;
      if n == 0 {
        return 0;
      }
      lo := 0;
      var hi := n - 1;
      while lo < hi
        invariant lo <= hi < n
        invariant lo == 0 || offsets[lo] <= target
        invariant hi + 1 < n ==> offsets[hi + 1] > target
      {
        var mid := (lo + hi + 1) / 2;
        if offsets[mid] <= target {
          lo := mid;
        } else {
          hi := mid - 1;
        }
      }
      IndexAtIs(offsets, n, target, lo);
    }

    // -------------------------------------------------------------------------
    // Mounting
    // -------------------------------------------------------------------------

    method UnmountAll()
      requires Valid()
      modifies this`mounted, this`children
      ensures Valid() && mounted == map[] && children == {}
    {
      var keys := mounted.Keys;
      while keys != {}
        invariant keys <= mounted.Keys
        invariant mounted == old(mounted) && forall e :: e in children <==> exists k :: k in keys && mounted[k].el == e
        decreases keys
      {
        var k :| k in keys;
        assert mounted[k].el in children;
        ghost var before := children;
        children := children - {mounted[k].el};
        keys := keys - {k};
        forall e
          ensures e in children <==> exists j :: j in keys && mounted[j].el == e
        {
          if e in children {
            var j :| j in keys + {k} && mounted[j].el == e;
            assert j in keys;
          }
          if j :| j in keys && mounted[j].el == e {
            assert shows[mounted[j].el] == j && shows[mounted[k].el] == k;
          }
        }
      }
      mounted := map[];
    }

    // Detach the rows that left the window; recycle them if they can be refreshed.
    method Sweep(desired: set<string>)
      requires Valid()
      modifies this`mounted, this`children, this`pool
      ensures Valid()
      ensures forall k :: k in mounted <==> k in old(mounted) && k in desired
      ensures forall k :: k in mounted ==> mounted[k] == old(mounted)[k]
      ensures canUpdate ==> old(pool) <= pool
      ensures !canUpdate ==> pool == old(pool)
    {
      hide DomOk, Distinct, NonNegative, Offsets;
      var keys := mounted.Keys;
      while keys != {}
        invariant Valid()
        invariant forall k :: k in mounted <==> k in old(mounted) && (k in desired || k in keys)
        invariant forall k :: k in mounted ==> mounted[k] == old(mounted)[k]
        invariant keys <= mounted.Keys
        invariant if canUpdate then old(pool) <= pool else pool == old(pool)
        decreases keys
      {
        var k :| k in keys;
        keys := keys - {k};
        if k !in desired {
          var row := mounted[k];
          DetachOk(mounted, children, shows, pool, nextEl, k);
          children := children - {row.el};
          if canUpdate {
            pool := pool + [row.el];
          }
          mounted := mounted - {k};
        }
      }
    }

    // Give row `i` an element, reusing a pooled one when it can be refreshed, and
    // position it. A mounted row keeps its element.
    method MountRow(i: nat)
      requires Valid() && i < |items|
      modifies this`mounted, this`children, this`pool, this`shows, this`nextEl
      ensures Valid() && PlacedAt(mounted, items, offsets, i)
      ensures mounted.Keys == old(mounted).Keys + {items[i]}
      ensures forall k :: k in old(mounted) && k != items[i] ==> mounted[k] == old(mounted)[k]
      ensures items[i] in old(mounted) ==> mounted[items[i]].el == old(mounted)[items[i]].el
      ensures items[i] !in old(mounted) && canUpdate && old(pool) != [] ==>
        mounted[items[i]].el == old(pool)[|old(pool)| - 1] && nextEl == old(nextEl)
    {
      hide DomOk, Distinct, NonNegative, Offsets;
      var key := items[i];
      var el: nat;
      if key in mounted {
        el := mounted[key].el;
      } else {
        el := TakeElement();
        AttachOk(mounted, children, shows, pool, nextEl, key, Row(el, i, offsets[i]));
        shows := shows[el := key];
        children := children + {el};
      }
      PlaceOk(mounted, children, shows, pool, nextEl, key, Row(el, i, offsets[i]));
      mounted := mounted[key := Row(el, i, offsets[i])];
    }

    // The last pooled element if it can be refreshed, else a new one.
    method TakeElement() returns (el: nat)
      requires DomOk(mounted, children, shows, pool, nextEl)
      modifies this`pool, this`nextEl
      ensures DomOk(mounted, children, shows, pool, nextEl)
      ensures el < nextEl && el !in children && forall i :: 0 <= i < |pool| ==> pool[i] != el
      ensures canUpdate && old(pool) != [] ==> el == old(pool)[|old(pool)| - 1] && nextEl == old(nextEl)
    {
      if canUpdate && |pool| > 0 {
        el := pool[|pool| - 1];
        pool := pool[..|pool| - 1];
      } else {
        el := nextEl;
        nextEl := nextEl + 1;
      }
    }

    // -------------------------------------------------------------------------
    // Rendering
    // -------------------------------------------------------------------------

    method DesiredKeys(s: nat, e: nat) returns (desired: set<string>)
      requires s <= e < |items|
      ensures forall k :: k in desired <==> exists i :: s <= i <= e && items[i] == k
    {
      desired := {};
      for i := s to e + 1
        invariant forall k :: k in desired <==> exists j :: s <= j < i && items[j] == k
      {
        desired := desired + {items[i]};
      }
    }

    // Everything of a render pass up to measuring: afterwards exactly the window is
    // mounted, in place, and `toMeasure` lists its unmeasured rows.
    method MountWindow(s: nat, e: nat) returns (toMeasure: seq<nat>)
      requires Valid() && s <= e < |items|
      modifies this`mounted, this`children, this`pool, this`shows, this`nextEl
      ensures Valid()
      ensures forall k :: k in mounted <==> exists i :: s <= i <= e && items[i] == k
      ensures forall i :: s <= i <= e ==> PlacedAt(mounted, items, offsets, i)
      ensures forall i :: i in toMeasure <==> s <= i <= e && !measured[i]
      ensures forall k :: k in old(mounted) && k in mounted ==> mounted[k].el == old(mounted)[k].el
    {
      var desired := DesiredKeys(s, e);
      Sweep(desired);
      ghost var swept := mounted;
      toMeasure := MountRows(s, e, desired);
      forall k | k in desired
        ensures k in mounted
      {
        var j :| s <= j <= e && items[j] == k;
        assert PlacedAt(mounted, items, offsets, j);
      }
      forall k | k in old(mounted) && k in mounted
        ensures mounted[k].el == old(mounted)[k].el
      {
        assert k in swept;
      }
    }

    method MountRows(s: nat, e: nat, ghost desired: set<string>) returns (toMeasure: seq<nat>)
      requires Valid() && s <= e < |items|
      requires forall i :: s <= i <= e ==> items[i] in desired
      requires forall k :: k in mounted ==> k in desired
      modifies this`mounted, this`children, this`pool, this`shows, this`nextEl
      ensures Valid()
      ensures forall k :: k in mounted ==> k in desired
      ensures forall i :: s <= i <= e ==> PlacedAt(mounted, items, offsets, i)
      ensures forall i :: i in toMeasure <==> s <= i <= e && !measured[i]
      ensures forall k :: k in old(mounted) ==> k in mounted && mounted[k].el == old(mounted)[k].el
    {
      hide DomOk;
      toMeasure := [];
      for i := s to e + 1
        invariant Valid()
        invariant forall k :: k in mounted ==> k in desired
        invariant forall k :: k in old(mounted) ==> k in mounted && mounted[k].el == old(mounted)[k].el
        invariant forall j :: s <= j < i ==> PlacedAt(mounted, items, offsets, j)
        invariant forall j :: j in toMeasure <==> s <= j < i && !measured[j]
      {
        ghost var before := mounted;
        MountRow(i);
        forall j | s <= j < i
          ensures PlacedAt(mounted, items, offsets, j)
        {
          assert PlacedAt(before, items, offsets, j);
          assert items[j] != items[i];
        }
        if !measured[i] {
          toMeasure := toMeasure + [i];
        }
      }
    }

    // Render the window of the present scroll position. Measuring may change heights
    // and so the window; every further pass has fewer unmeasured rows.
    method RenderVisible(measure: string -> real) returns (ghost batches: seq<seq<(nat, real)>>)
      requires Valid()
      modifies this
      decreases Unmeasured(measured), 0
      ensures Valid() && Rendered() && items == old(items) && clientHeight == old(clientHeight)
      ensures Moved(old(heights), old(measured), old(scrollTop), heights, measured, scrollTop, items, measure, batches)
    {
      hide DomOk, NonNegative, Offsets, InWindow, PlacedAt, Moved, Marked, Reset;
      batches := [];
      NotMoved(heights, measured, scrollTop, items, measure);
      if |items| == 0 {
        UnmountAll();
        contentHeight := 0.0;
        assert offsets == Offsets([]);
        return;
      }
      var s, e := Window();
      var toMeasure := MountWindow(s, e);
      ghost var before := measured;
      if |toMeasure| > 0 {
        assert toMeasure[0] in toMeasure;
        MarkingHelps(measured, items, mounted, toMeasure);
        var changed;
        ResetSame(measured, items, mounted, toMeasure);
        changed, batches := MeasureRows(toMeasure, measure);
        if changed {
          contentHeight := offsets[|items|];
          return;
        }
        MarkedAre(before, items, mounted, toMeasure);
      }
      contentHeight := offsets[|items|];
      WindowShown(s, e);
    }

    lemma WindowShown(s: nat, e: nat)
      requires Valid() && s <= e < |items| && contentHeight == offsets[|items|]
      requires IsSpan(offsets, |items|, scrollTop, scrollTop + clientHeight, overscan, s, e)
      requires forall k :: k in mounted <==> exists i :: s <= i <= e && items[i] == k
      requires forall i :: s <= i <= e ==> PlacedAt(mounted, items, offsets, i) && measured[i]
      ensures Rendered()
    {
      hide DomOk, NonNegative, Offsets, InWindow;
    }

    // The rows to render: the visible ones and `overscan` more on each side.
    method Window() returns (s: nat, e: nat)
      requires Valid() && items != []
      ensures s <= e < |items|
      ensures IsSpan(offsets, |items|, scrollTop, scrollTop + clientHeight, overscan, s, e)
    {
      var n := |items|;
      OffsetsAscend(heights);
      var first := FindIndexAtOffset(scrollTop);
      var last := FindIndexAtOffset(scrollTop + clientHeight);
      s := if first < overscan then 0 else first - overscan;
      e := if last + overscan >= n then n - 1 else last + overscan;
      WindowSpan(offsets, n, scrollTop, scrollTop + clientHeight, overscan, s, e);
    }

    // Measure the mounted rows among `indices`, measured before or not; on any change of
    // height, adjust the layout and render again.
    method MeasureRows(indices: seq<nat>, measure: string -> real) returns (changed: bool,
                       ghost batches: seq<seq<(nat, real)>>)
      requires Valid()
      modifies this
      decreases Unmeasured(Marked(measured, items, mounted, indices)), 2
      ensures Valid() && items == old(items) && clientHeight == old(clientHeight)
      ensures changed ==> Rendered()
      ensures !changed ==> measured == Marked(old(measured), items, old(mounted), indices)
      ensures !changed ==> heights == old(heights) && offsets == old(offsets) && scrollTop == old(scrollTop)
      ensures !changed ==> mounted == old(mounted) && contentHeight == old(contentHeight)
      ensures var reset := Reset(old(measured), items, old(mounted), indices);
        Moved(old(heights), reset, old(scrollTop), heights, measured, scrollTop, items, measure, batches)
    {
      hide DomOk, Distinct, Marked, Moved, Unmeasured, Offsets, Wanted, NonNegative, Reset;
      ghost var reset := Reset(measured, items, mounted, indices);
      var changes := FindChanges(indices, measure);
      changed := |changes| > 0;
      batches := [];
      if changed {
        batches := ApplyHeightChanges(changes, measure, reset);
      } else {
        NothingWanted(items, heights, reset, measured, scrollTop, measure);
      }
    }

    method FindChanges(indices: seq<nat>, measure: string -> real) returns (changes: seq<(nat, real)>)
      requires |heights| == |measured| == |items|
      modifies this`measured
      ensures measured == Marked(old(measured), items, mounted, indices)
      ensures Wanted(changes, items, heights, Reset(old(measured), items, mounted, indices), measured, measure)
    {
      hide Marked, Wanted;
      changes := [];
      MarkedNone(measured, items, mounted);
      NoneWanted(items, heights, measured, measure);
      assert indices[..0] == [];
      for j := 0 to |indices|
        invariant |measured| == |items|
        invariant measured == Marked(old(measured), items, mounted, indices[..j])
        invariant Wanted(changes, items, heights, Reset(old(measured), items, mounted, indices[..j]), measured, measure)
      {
        var i := indices[j];
        ghost var reset := Reset(old(measured), items, mounted, indices[..j]);
        assert indices[..j + 1][..j] == indices[..j];
        MarkedSnoc(old(measured), items, mounted, indices[..j], i);
        assert indices[..j + 1] == indices[..j] + [i];
        if i < |items| && items[i] in mounted {
          var h := measure(items[i]);
          WantedNext(changes, items, heights, reset, measured, measure, i);
          if h >= 0.0 && h != heights[i] {
            changes := changes + [(i, h)];
          }
          measured := measured[i := true];
        }
      }
      assert indices[..|indices|] == indices;
    }

    method ApplyHeightChanges(changes: seq<(nat, real)>, measure: string -> real, ghost before: seq<bool>)
      returns (ghost batches: seq<seq<(nat, real)>>)
      requires Valid() && |before| == |items| && Wanted(changes, items, heights, before, measured, measure)
      modifies this
      decreases Unmeasured(measured), 1
      ensures Valid() && Rendered() && items == old(items) && clientHeight == old(clientHeight)
      ensures Moved(old(heights), before, old(scrollTop), heights, measured, scrollTop, items, measure, batches)
    {
      hide DomOk, Distinct, Moved, Unmeasured, Offsets, Adjusted;
      ghost var h0, top0 := heights, scrollTop;
      AdjustHeights(changes);
      ghost var h1, m1, top1 := heights, measured, scrollTop;
      ghost var more := RenderVisible(measure);
      MovedFirst(h0, before, top0, h1, m1, top1, heights, measured, scrollTop, items, measure, changes, more);
      batches := [changes] + more;
    }

    // Store new heights, rebuild the offsets, and shift the scroll position by what
    // changed above it: the first row starting at or below the viewport's top stays put.
    method AdjustHeights(changes: seq<(nat, real)>)
      requires Valid() && forall m :: 0 <= m < |changes| ==> changes[m].0 < |items| && changes[m].1 >= 0.0
      modifies this`heights, this`offsets, this`scrollTop
      ensures Valid() && (heights, scrollTop) == Adjusted(old(heights), old(scrollTop), changes)
      ensures forall f: nat :: FirstAtOrBelow(old(offsets), |items|, old(scrollTop), f) ==>
          offsets[f] - scrollTop == old(offsets)[f] - old(scrollTop)
    {
      hide DomOk, Distinct, Changed, Prefix;
      OffsetsAscend(heights);
      NoneChanged(heights);
      ghost var f := FirstFrom(offsets, |items|, scrollTop);
      var scrollTopBefore, compensation := scrollTop, 0.0;
      for j := 0 to |changes|
        invariant |heights| == |items| && NonNegative(heights) && heights == Changed(old(heights), changes[..j])
        invariant compensation == Prefix(heights, f) - Prefix(old(heights), f)
        invariant offsets == old(offsets) && scrollTop == scrollTopBefore
      {
        var (index, newHeight) := changes[j];
        var oldHeight, oldOffset := heights[index], offsets[index];
        PrefixUpdate(heights, index, newHeight, f);
        FirstFromIs(offsets, |items|, scrollTopBefore, index);
        heights := heights[index := newHeight];
        if oldOffset < scrollTopBefore {
          compensation := compensation + (newHeight - oldHeight);
        }
        ChangedNext(old(heights), changes, j);
      }
      assert changes[..|changes|] == changes;
      RebuildOffsets();
      if compensation != 0.0 {
        scrollTop := scrollTopBefore + compensation;
      }
      forall f': nat | FirstAtOrBelow(old(offsets), |items|, old(scrollTop), f')
        ensures f' == f
      {
        OffsetsAscend(old(heights));
        FirstFromUnique(old(offsets), |items|, old(scrollTop), f');
      }
    }

    // -------------------------------------------------------------------------
    // Public operations
    // -------------------------------------------------------------------------

    // Replace the items, keep known heights, and restore the scroll position. Rendering
    // follows in SetItems.
    method ReplaceItems(newItems: seq<string>)
      requires Valid() && Distinct(newItems)
      modifies this`items, this`heights, this`measured, this`offsets, this`scrollTop
      ensures Valid() && items == newItems
      ensures Carried(old(items), old(heights), items, heights, measured, estimateHeight)
      ensures scrollTop == Restored(old(items), old(offsets), old(scrollTop), items, offsets, clientHeight)
    {
      hide DomOk, Offsets, Carried, Distinct, NonNegative, IndexAt;
      var wasPinned := IsPinned();
      var anchorKey, anchorOffset := CaptureAnchor();
      var hadItems := |items| > 0;
      CarryHeights(newItems);
      RebuildOffsets();
      var maxScroll := MaxScroll(offsets[|items|], clientHeight);
      var at := IndexOf(anchorKey);
      if hadItems && wasPinned {
        scrollTop := maxScroll;
      } else if hadItems && at < |items| {
        scrollTop := Clamp(offsets[at] - anchorOffset, maxScroll);
      } else {
        scrollTop := Clamp(scrollTop, maxScroll);
      }
    }

    method IsPinned() returns (pinned: bool)
      requires |offsets| == |items| + 1
      ensures pinned == (offsets[|items|] == 0.0 || offsets[|items|] - (scrollTop + clientHeight) <= PIN_THRESHOLD)
    {
      var total := offsets[|items|];
      pinned := total == 0.0 || total - (scrollTop + clientHeight) <= PIN_THRESHOLD;
    }

    // The key of the row at the viewport's top and its offset from that top.
    method CaptureAnchor() returns (key: string, offset: real)
      requires Valid()
      ensures items != [] ==>
        var a := IndexAt(offsets, |items|, scrollTop);
        key == items[a] && offset == offsets[a] - scrollTop
    {
      key, offset := "", 0.0;
      if |items| > 0 {
        OffsetsAscend(heights);
        var i := FindIndexAtOffset(scrollTop);
        key, offset := items[i], offsets[i] - scrollTop;
      }
    }

    method IndexOf(key: string) returns (i: nat)
      ensures i == Find(items, key)
    {
      i := 0;
      while i < |items| && items[i] != key
        invariant i <= |items| && Find(items, key) == i + Find(items[i..], key)
      {
        i := i + 1;
      }
    }

    method CarryHeights(newItems: seq<string>)
      requires |heights| == |items| && Distinct(items) && NonNegative(heights) && estimateHeight >= 0.0
      modifies this`items, this`heights, this`measured
      ensures items == newItems && |heights| == |measured| == |items| && NonNegative(heights)
      ensures Carried(old(items), old(heights), items, heights, measured, estimateHeight)
    {
      var oldHeightByKey: map<string, real> := map[];
      for i := 0 to |items|
        invariant forall k :: k in oldHeightByKey <==> k in items[..i]
        invariant forall j :: 0 <= j < i ==> items[j] in oldHeightByKey && oldHeightByKey[items[j]] == heights[j]
      {
        oldHeightByKey := oldHeightByKey[items[i] := heights[i]];
        assert items[..i + 1] == items[..i] + [items[i]];
      }
      assert items[..|items|] == items;
      var hs: seq<real>, ms: seq<bool> := [], [];
      for i := 0 to |newItems|
        invariant |hs| == |ms| == i
        invariant forall j :: 0 <= j < i ==>
          if newItems[j] in oldHeightByKey then hs[j] == oldHeightByKey[newItems[j]] && ms[j]
          else hs[j] == estimateHeight && !ms[j]
      {
        if newItems[i] in oldHeightByKey {
          hs, ms := hs + [oldHeightByKey[newItems[i]]], ms + [true];
        } else {
          hs, ms := hs + [estimateHeight], ms + [false];
        }
      }
      forall i | 0 <= i < |hs|
        ensures hs[i] >= 0.0
      {
        if newItems[i] in oldHeightByKey {
          var j :| 0 <= j < |items| && items[j] == newItems[i];
        }
      }
      items, heights, measured := newItems, hs, ms;
    }

    method SetItems(newItems: seq<string>, measure: string -> real)
      returns (ghost kept: seq<real>, ghost known: seq<bool>, ghost top: real, ghost batches: seq<seq<(nat, real)>>)
      requires Valid() && Distinct(newItems)
      modifies this
      ensures Valid() && Rendered() && items == newItems && clientHeight == old(clientHeight)
      ensures Carried(old(items), old(heights), items, kept, known, estimateHeight)
      ensures top == Restored(old(items), old(offsets), old(scrollTop), items, Offsets(kept), clientHeight)
      ensures Moved(kept, known, top, heights, measured, scrollTop, items, measure, batches)
    {
      hide DomOk, Distinct, NonNegative, Moved, Restored, Carried;
      ReplaceItems(newItems);
      kept, known, top := heights, measured, scrollTop;
      batches := RenderVisible(measure);
    }

    // Nothing that is shown has changed.
    twostate predicate Unmoved()
      reads this
    {
      && heights == old(heights) && offsets == old(offsets) && scrollTop == old(scrollTop)
      && mounted == old(mounted) && contentHeight == old(contentHeight)
    }

    method ScrollToIndex(index: int, alignEnd: bool,
                         measure: string -> real) returns (ghost batches: seq<seq<(nat, real)>>)
      requires Valid()
      modifies this
      ensures Valid() && items == old(items)
      ensures items == [] ==> Unmoved() && measured == old(measured)
      ensures items != [] ==> Rendered()
      ensures items != [] ==>
        var aim := Target(old(offsets), |items|, clientHeight, index, alignEnd);
        Moved(old(heights), old(measured), aim, heights, measured, scrollTop, items, measure, batches)
    {
      hide DomOk, Distinct, NonNegative, Moved;
      var n := |items|;
      batches := [];
      if n == 0 {
        return;
      }
      var clamped := if index < 0 then 0 else if index > n - 1 then n - 1 else index;
      var maxScroll := MaxScroll(offsets[n], clientHeight);
      var target := if alignEnd then offsets[clamped] + heights[clamped] - clientHeight else offsets[clamped];
      scrollTop := Clamp(target, maxScroll);
      assert offsets[clamped + 1] == offsets[clamped] + heights[clamped];
      batches := RenderVisible(measure);
    }

    // The user's scroll, then the frame's render.
    method Scroll(top: real, measure: string -> real) returns (ghost batches: seq<seq<(nat, real)>>)
      requires Valid()
      modifies this
      ensures Valid() && Rendered() && items == old(items)
      ensures Moved(old(heights), old(measured), top, heights, measured, scrollTop, items, measure, batches)
    {
      hide DomOk, Distinct, NonNegative, Moved;
      scrollTop := top;
      batches := RenderVisible(measure);
    }

    // Re-measure every mounted row. If the window was rendered it still is, whatever they
    // measure; and otherwise it is as soon as one of them has changed.
    method InvalidateAll(measure: string -> real) returns (ghost batches: seq<seq<(nat, real)>>)
      requires Valid()
      modifies this
      ensures Valid() && items == old(items)
      ensures Rendered() || (!old(Rendered()) && Unmoved())
      ensures Moved(old(heights), seq(|old(heights)|, i => false), old(scrollTop), heights, measured, scrollTop,
                    items, measure, batches)
    {
      hide DomOk, Distinct, NonNegative, Moved, Offsets, Marked, Unmeasured, Reset, InWindow;
      var indices := MountedIndices();
      measured := seq(|measured|, i => false);
      ghost var before := measured;
      assert before == seq(|old(heights)|, i => false);
      ResetSame(measured, items, mounted, indices);
      var changed;
      changed, batches := MeasureRows(indices, measure);
      if !changed {
        MarkedAre(before, items, mounted, indices);
      }
    }

    // Re-render every mounted row in place, and measure it again.
    method Refresh(measure: string -> real)
      returns (ghost indices: seq<nat>, ghost batches: seq<seq<(nat, real)>>)
      requires Valid()
      modifies this
      ensures Valid() && items == old(items)
      ensures Rendered() || (!old(Rendered()) && Unmoved())
      ensures !canUpdate ==> Unmoved() && measured == old(measured)
      ensures canUpdate ==> forall k :: k in old(mounted) ==> old(mounted)[k].index in indices
      ensures canUpdate ==>
        var reset := Reset(old(measured), items, old(mounted), indices);
        Moved(old(heights), reset, old(scrollTop), heights, measured, scrollTop, items, measure, batches)
    {
      hide DomOk, Distinct, NonNegative, Moved, Offsets, Marked, Unmeasured, Reset, InWindow;
      indices, batches := [], [];
      if !canUpdate {
        return;
      }
      var rows := MountedIndices();
      indices := rows;
      var changed;
      changed, batches := MeasureRows(rows, measure);
      if !changed {
        MarkedAre(old(measured), items, mounted, rows);
      }
    }

    // Re-measure one row if it is mounted; otherwise it is measured when it next is.
    method Invalidate(index: int, measure: string -> real) returns (ghost batches: seq<seq<(nat, real)>>)
      requires Valid()
      modifies this
      ensures Valid() && items == old(items)
      ensures old(Rendered()) ==> Rendered()
      ensures !(0 <= index < |items|) ==> Unmoved() && measured == old(measured)
      ensures 0 <= index < |items| && items[index] !in old(mounted) ==>
        Unmoved() && measured == old(measured)[index := false]
      ensures 0 <= index < |items| && items[index] in old(mounted) ==>
        Moved(old(heights), old(measured)[index := false], old(scrollTop), heights, measured, scrollTop, items,
              measure, batches)
    {
      hide DomOk, Distinct, NonNegative, Moved, Offsets, Marked, Unmeasured, InWindow;
      batches := [];
      if index < 0 || index >= |items| {
        return;
      }
      var key := items[index];
      if key in mounted {
        var row := mounted[key].(index := index);
        AlreadyThere(index);
        PlaceOk(mounted, children, shows, pool, nextEl, key, row);
        mounted := mounted[key := row];
        assert old(Rendered()) ==> mounted == old(mounted);
        ghost var before := measured;
        OneReset(measured, items, mounted, index);
        var changed;
        changed, batches := MeasureRows([index], measure);
        if !changed {
          OneMarked(before, items, mounted, index);
        }
      } else {
        measured := measured[index := false];
      }
    }

    lemma AlreadyThere(index: nat)
      requires Valid() && index < |items| && items[index] in mounted
      ensures Rendered() ==> mounted[items[index]].index == index
    {
      hide DomOk, Offsets, NonNegative, InWindow;
      if Rendered() {
        var i: nat :| i < |items| && PlacedAt(mounted, items, offsets, i) && items[i] == items[index];
      }
    }

    // The indices that the mounted rows have recorded.
    method MountedIndices() returns (indices: seq<nat>)
      requires Valid()
      ensures forall k :: k in mounted ==> mounted[k].index in indices
      ensures Rendered() ==> forall j: nat :: j < |items| && items[j] in mounted ==> j in indices
    {
      hide DomOk, Offsets, Distinct, NonNegative, InWindow;
      indices := [];
      var keys := mounted.Keys;
      while keys != {}
        invariant keys <= mounted.Keys && forall k :: k in mounted && k !in keys ==> mounted[k].index in indices
        decreases keys
      {
        var k :| k in keys;
        keys := keys - {k};
        indices := indices + [mounted[k].index];
      }
    }
  }

  // A kept item keeps its height and counts as measured; a new one gets the estimate.
  ghost predicate Carried(was: seq<string>, wasHeights: seq<real>, items: seq<string>, heights: seq<real>,
                          measured: seq<bool>, estimate: real)
  {
    && |wasHeights| == |was| && |heights| == |measured| == |items|
    && (forall i, j :: 0 <= i < |items| && 0 <= j < |was| && items[i] == was[j] ==>
          heights[i] == wasHeights[j] && measured[i])
    && forall i :: 0 <= i < |items| && items[i] !in was ==> heights[i] == estimate && !measured[i]
  }

  function MaxScroll(total: real, clientHeight: real): real {
    if total - clientHeight > 0.0 then total - clientHeight else 0.0
  }

  // The first index of `key`, or the length.
  function Find(items: seq<string>, key: string): (i: nat)
    ensures i <= |items| && (i < |items| ==> items[i] == key)
  {
    if items == [] || items[0] == key then 0 else 1 + Find(items[1..], key)
  }

  // The scroll position after replacing the items: the bottom if it was pinned there,
  // else where the row at the top of the viewport went, else as near as it was.
  ghost function Restored(was: seq<string>, o: seq<real>, top: real, items: seq<string>, o': seq<real>,
                          clientHeight: real): real
    requires |o| == |was| + 1 && |o'| == |items| + 1
  {
    var maxScroll := MaxScroll(o'[|items|], clientHeight);
    if WasPinned(o, was, top, clientHeight) then maxScroll
    else if was != [] && Find(items, was[IndexAt(o, |was|, top)]) < |items| then
      var a := IndexAt(o, |was|, top);
      Clamp(o'[Find(items, was[a])] - (o[a] - top), maxScroll)
    else Clamp(top, maxScroll)
  }

  lemma {:induction false} FindUnique(items: seq<string>, i: nat)
    requires Distinct(items) && i < |items|
    ensures Find(items, items[i]) == i
  {
    if i > 0 {
      FindUnique(items[1..], i - 1);
    }
  }

  // If the viewport was not pinned and the row at its top survives at index `i`, that
  // row is exactly where it was, unless the scroll range does not reach that far.
  lemma AnchorKeepsPlace(was: seq<string>, o: seq<real>, top: real, items: seq<string>, o': seq<real>,
                         clientHeight: real, i: nat)
    requires |o| == |was| + 1 && |o'| == |items| + 1 && Distinct(items)
    requires !WasPinned(o, was, top, clientHeight) && was != [] && i < |items|
    requires items[i] == was[IndexAt(o, |was|, top)]
    ensures var a := IndexAt(o, |was|, top); var top' := Restored(was, o, top, items, o', clientHeight);
      var target := o'[i] - (o[a] - top); var maxScroll := MaxScroll(o'[|items|], clientHeight);
      if target < 0.0 then top' == 0.0
      else if target > maxScroll then top' == maxScroll
      else o'[i] - top' == o[a] - top
  {
    FindUnique(items, i);
  }

  // A list that was pinned to its bottom ends with its bottom at the viewport's, or at its
  // top if it does not fill the viewport.
  lemma PinnedEndsAtBottom(was: seq<string>, o: seq<real>, top: real, items: seq<string>, o': seq<real>,
                           clientHeight: real)
    requires |o| == |was| + 1 && |o'| == |items| + 1
    requires was != [] && (o[|was|] == 0.0 || o[|was|] - (top + clientHeight) <= PIN_THRESHOLD)
    ensures var top' := Restored(was, o, top, items, o', clientHeight);
      if o'[|items|] >= clientHeight then top' + clientHeight == o'[|items|] else top' == 0.0
  {
  }

  // With no row to hold on to, the position stays as near as the new scroll range allows.
  lemma LostAnchorStaysNear(was: seq<string>, o: seq<real>, top: real, items: seq<string>, o': seq<real>,
                            clientHeight: real)
    requires |o| == |was| + 1 && |o'| == |items| + 1 && !WasPinned(o, was, top, clientHeight)
    requires was != [] ==> was[IndexAt(o, |was|, top)] !in items
    ensures var top', end := Restored(was, o, top, items, o', clientHeight), o'[|items|] - clientHeight;
      if top <= 0.0 || end <= 0.0 then top' == 0.0 else if top >= end then top' == end else top' == top
  {
  }

  predicate WasPinned(offsets: seq<real>, items: seq<string>, scrollTop: real, clientHeight: real)
    requires |offsets| == |items| + 1
  {
    items != [] && (offsets[|items|] == 0.0 || offsets[|items|] - (scrollTop + clientHeight) <= PIN_THRESHOLD)
  }

  // Heights after a batch of changes, in order.
  function Changed(h: seq<real>, changes: seq<(nat, real)>): (r: seq<real>)
    ensures |r| == |h|
  {
    if changes == [] then h
    else
      var last := changes[|changes| - 1];
      var g := Changed(h, changes[..|changes| - 1]);
      if last.0 < |h| then g[last.0 := last.1] else g
  }

  lemma NoneChanged(h: seq<real>)
    ensures Changed(h, []) == h
  {
  }

  lemma ChangedNext(h: seq<real>, changes: seq<(nat, real)>, j: nat)
    requires j < |changes| && changes[j].0 < |h|
    ensures Changed(h, changes[..j + 1]) == Changed(h, changes[..j])[changes[j].0 := changes[j].1]
  {
    assert changes[..j + 1] == changes[..j] + [changes[j]];
  }

  // One batch: the heights it stores, and the scroll position shifted by what it changes
  // above the first row that starts at or below the viewport's top.
  function Adjusted(h: seq<real>, top: real, changes: seq<(nat, real)>): (seq<real>, real) {
    var f, h' := FirstFrom(Offsets(h), |h|, top), Changed(h, changes);
    (h', top + (Prefix(h', f) - Prefix(h, f)))
  }

  function AdjustedAll(h: seq<real>, top: real, batches: seq<seq<(nat, real)>>): (seq<real>, real)
    decreases |batches|
  {
    if batches == [] then (h, top)
    else
      var (h', top') := Adjusted(h, top, batches[0]);
      AdjustedAll(h', top', batches[1..])
  }

  // The height of a row after a render: what it was if it was measured before or is still
  // unmeasured, and else what it measures, if that is a height.
  predicate Height(was: real, wasMeasured: bool, now: real, isMeasured: bool, h: real) {
    && (wasMeasured ==> isMeasured)
    && now == if !wasMeasured && isMeasured && h >= 0.0 then h else was
  }

  ghost predicate Heights(h: seq<real>, m: seq<bool>, h': seq<real>, m': seq<bool>, items: seq<string>,
                          measure: string -> real) {
    && |h| == |m| == |h'| == |m'| == |items|
    && forall i :: 0 <= i < |items| ==> Height(h[i], m[i], h'[i], m'[i], measure(items[i]))
  }

  // What rendering does to heights and the scroll position: newly measured rows get the
  // heights they measure, no other height changes, and the position moves only by batches
  // that each keep the first row at or below the viewport's top in place.
  ghost predicate Moved(h: seq<real>, m: seq<bool>, top: real, h': seq<real>, m': seq<bool>, top': real,
                        items: seq<string>, measure: string -> real, batches: seq<seq<(nat, real)>>)
  {
    Heights(h, m, h', m', items, measure) && (h', top') == AdjustedAll(h, top, batches)
  }

  // The changes found so far: the new heights of rows measured just now, and of no others.
  ghost predicate Wanted(changes: seq<(nat, real)>, items: seq<string>, h: seq<real>, m: seq<bool>,
                         m': seq<bool>, measure: string -> real) {
    && |h| == |m| == |m'| == |items|
    && (forall k :: 0 <= k < |changes| ==> Change(changes[k], items, m, m', measure))
    && (forall i :: 0 <= i < |items| && m[i] ==> m'[i])
    && forall i :: 0 <= i < |items| && !m[i] && m'[i] ==>
         NoChange(h[i], measure(items[i])) || (i, measure(items[i])) in changes
  }

  predicate Change(c: (nat, real), items: seq<string>, m: seq<bool>, m': seq<bool>, measure: string -> real)
    requires |m| == |m'| == |items|
  {
    c.0 < |items| && !m[c.0] && m'[c.0] && c.1 == measure(items[c.0]) && c.1 >= 0.0
  }

  predicate NoChange(h: real, measured: real) {
    measured < 0.0 || h == measured
  }

  lemma NoneWanted(items: seq<string>, h: seq<real>, m: seq<bool>, measure: string -> real)
    requires |h| == |m| == |items|
    ensures Wanted([], items, h, m, m, measure)
  {
  }

  lemma WantedNext(changes: seq<(nat, real)>, items: seq<string>, h: seq<real>, m: seq<bool>, m': seq<bool>,
                   measure: string -> real, i: nat)
    requires Wanted(changes, items, h, m, m', measure) && i < |items|
    ensures var v := measure(items[i]);
      Wanted(if v >= 0.0 && v != h[i] then changes + [(i, v)] else changes,
             items, h, m[i := false], m'[i := true], measure)
  {
    var v := measure(items[i]);
    var changes' := if v >= 0.0 && v != h[i] then changes + [(i, v)] else changes;
    forall k | 0 <= k < |changes'|
      ensures Change(changes'[k], items, m[i := false], m'[i := true], measure)
    {
      if k < |changes| {
        assert Change(changes[k], items, m, m', measure);
      }
    }
    assert forall c :: c in changes ==> c in changes';
    assert v >= 0.0 && v != h[i] ==> changes'[|changes|] == (i, v);
  }

  lemma {:induction false} ChangedIs(h: seq<real>, changes: seq<(nat, real)>, i: nat, v: real)
    requires i < |h| && forall k :: 0 <= k < |changes| && changes[k].0 == i ==> changes[k].1 == v
    ensures Changed(h, changes)[i] == if (i, v) in changes then v else h[i]
  {
    if changes != [] {
      ChangedIs(h, changes[..|changes| - 1], i, v);
      assert changes == changes[..|changes| - 1] + [changes[|changes| - 1]];
    }
  }

  lemma WantedHeights(changes: seq<(nat, real)>, items: seq<string>, h: seq<real>, m: seq<bool>, m': seq<bool>,
                      measure: string -> real)
    requires Wanted(changes, items, h, m, m', measure)
    ensures Heights(h, m, Changed(h, changes), m', items, measure)
  {
    forall i | 0 <= i < |items|
      ensures Height(h[i], m[i], Changed(h, changes)[i], m'[i], measure(items[i]))
    {
      forall k | 0 <= k < |changes| && changes[k].0 == i
        ensures changes[k].1 == measure(items[i])
      {
        assert Change(changes[k], items, m, m', measure);
      }
      ChangedIs(h, changes, i, measure(items[i]));
      if (i, measure(items[i])) in changes {
        var k :| 0 <= k < |changes| && changes[k] == (i, measure(items[i]));
        assert Change(changes[k], items, m, m', measure);
      }
    }
  }

  lemma HeightsTrans(h: seq<real>, m: seq<bool>, h': seq<real>, m': seq<bool>, h'': seq<real>, m'': seq<bool>,
                     items: seq<string>, measure: string -> real)
    requires Heights(h, m, h', m', items, measure) && Heights(h', m', h'', m'', items, measure)
    ensures Heights(h, m, h'', m'', items, measure)
  {
  }

  // A batch and what the render after it did.
  lemma MovedFirst(h: seq<real>, m: seq<bool>, top: real, h': seq<real>, m': seq<bool>, top': real,
                   h'': seq<real>, m'': seq<bool>, top'': real,
                   items: seq<string>, measure: string -> real, changes: seq<(nat, real)>, more: seq<seq<(nat, real)>>)
    requires Wanted(changes, items, h, m, m', measure) && (h', top') == Adjusted(h, top, changes)
    requires Moved(h', m', top', h'', m'', top'', items, measure, more)
    ensures Moved(h, m, top, h'', m'', top'', items, measure, [changes] + more)
  {
    WantedHeights(changes, items, h, m, m', measure);
    HeightsTrans(h, m, h', m', h'', m'', items, measure);
    assert ([changes] + more)[1..] == more;
  }

  lemma NotMoved(h: seq<real>, m: seq<bool>, top: real, items: seq<string>, measure: string -> real)
    requires |h| == |m| == |items|
    ensures Moved(h, m, top, h, m, top, items, measure, [])
  {
  }

  lemma NothingWanted(items: seq<string>, h: seq<real>, m: seq<bool>, m': seq<bool>, top: real, measure: string -> real)
    requires Wanted([], items, h, m, m', measure)
    ensures Moved(h, m, top, h, m', top, items, measure, [])
  {
  }

  // Where scrolling to a row aims: its start, or its end at the viewport's bottom.
  function Target(o: seq<real>, n: nat, clientHeight: real, index: int, alignEnd: bool): real
    requires |o| == n + 1 && n > 0
  {
    var i := if index < 0 then 0 else if index > n - 1 then n - 1 else index;
    Clamp(if alignEnd then o[i + 1] - clientHeight else o[i], MaxScroll(o[n], clientHeight))
  }

  // An index past either end is the last row or the first. The row's start comes to the top
  // of the viewport, or its end to the bottom, as far as the scroll range reaches.
  lemma TargetShows(o: seq<real>, n: nat, clientHeight: real, index: int, alignEnd: bool, i: nat)
    requires |o| == n + 1 && n > 0 && Ascending(o) && o[0] == 0.0
    requires i < n && (index == i || (index < 0 && i == 0) || (index >= n && i == n - 1))
    ensures var top, end := Target(o, n, clientHeight, index, alignEnd), o[n] - clientHeight;
      && top >= 0.0 && (top <= end || top == 0.0)
      && (alignEnd && o[i + 1] >= clientHeight ==> top + clientHeight == o[i + 1])
      && (alignEnd && o[i + 1] < clientHeight ==> top == 0.0)
      && (!alignEnd && o[i] <= end ==> top == o[i])
      && (!alignEnd && o[i] > end && end >= 0.0 ==> top == end)
  {
  }

  lemma MarkedNone(m: seq<bool>, items: seq<string>, mounted: map<string, Row>)
    requires |m| == |items|
    ensures Marked(m, items, mounted, []) == m
  {
  }

  // Measured flags with those of the mounted rows among `indices` taken back.
  function Reset(m: seq<bool>, items: seq<string>, mounted: map<string, Row>, indices: seq<nat>): (r: seq<bool>)
    requires |m| == |items|
    ensures |r| == |m|
  {
    if indices == [] then m
    else
      var r, i := Reset(m, items, mounted, indices[..|indices| - 1]), indices[|indices| - 1];
      if i < |items| && items[i] in mounted then r[i := false] else r
  }

  lemma {:induction false} ResetSame(m: seq<bool>, items: seq<string>, mounted: map<string, Row>, indices: seq<nat>)
    requires |m| == |items| && forall i :: i in indices && i < |items| ==> !m[i]
    ensures Reset(m, items, mounted, indices) == m
  {
    if indices != [] {
      var init, i := indices[..|indices| - 1], indices[|indices| - 1];
      ResetSame(m, items, mounted, init);
      assert i in indices;
      assert i < |m| ==> m[i := false] == m;
    }
  }

  lemma OneReset(m: seq<bool>, items: seq<string>, mounted: map<string, Row>, i: nat)
    requires |m| == |items| && i < |items| && items[i] in mounted
    ensures Reset(m, items, mounted, [i]) == m[i := false]
  {
    assert [i][..0] == [];
  }

  lemma OneMarked(m: seq<bool>, items: seq<string>, mounted: map<string, Row>, i: nat)
    requires |m| == |items| && i < |items| && items[i] in mounted
    ensures Marked(m, items, mounted, [i]) == m[i := true]
  {
    assert [i][1..] == [];
  }

  // Measured flags after measuring the mounted rows among `indices`.
  function Marked(m: seq<bool>, items: seq<string>, mounted: map<string, Row>, indices: seq<nat>): (r: seq<bool>)
    requires |m| == |items|
    ensures |r| == |m|
    decreases |indices|
  {
    if indices == [] then m
    else
      var i := indices[0];
      Marked(if i < |items| && items[i] in mounted then m[i := true] else m, items, mounted, indices[1..])
  }

  lemma {:induction false} MarkedSnoc(m: seq<bool>, items: seq<string>, mounted: map<string, Row>,
                                      indices: seq<nat>, i: nat)
    requires |m| == |items|
    ensures var r := Marked(m, items, mounted, indices);
      Marked(m, items, mounted, indices + [i]) == if i < |items| && items[i] in mounted then r[i := true] else r
    decreases |indices|
  {
    if indices == [] {
      assert [i][1..] == [];
    } else {
      assert (indices + [i])[1..] == indices[1..] + [i];
      var j := indices[0];
      MarkedSnoc(if j < |items| && items[j] in mounted then m[j := true] else m, items, mounted, indices[1..], i);
    }
  }

  lemma {:induction false} MarkedIs(m: seq<bool>, items: seq<string>, mounted: map<string, Row>,
                                    indices: seq<nat>, i: nat)
    requires |m| == |items| && i < |m|
    ensures Marked(m, items, mounted, indices)[i] == (m[i] || (i in indices && items[i] in mounted))
    ensures Unmeasured(Marked(m, items, mounted, indices)) <= Unmeasured(m)
    decreases |indices|
  {
    if indices != [] {
      var j := indices[0];
      var m' := if j < |items| && items[j] in mounted then m[j := true] else m;
      if j < |items| {
        MarkMeasured(m, j);
      }
      MarkedIs(m', items, mounted, indices[1..], i);
      assert i in indices <==> i == j || i in indices[1..];
    }
  }

  // Measuring a mounted row that was not measured leaves fewer of those.
  lemma MarkingHelps(m: seq<bool>, items: seq<string>, mounted: map<string, Row>, indices: seq<nat>)
    requires |m| == |items| && indices != [] && indices[0] < |m|
    requires !m[indices[0]] && items[indices[0]] in mounted
    ensures Unmeasured(Marked(m, items, mounted, indices)) < Unmeasured(m)
  {
    MarkMeasured(m, indices[0]);
    MarkedIs(m[indices[0] := true], items, mounted, indices[1..], indices[0]);
  }

  lemma MarkedAre(m: seq<bool>, items: seq<string>, mounted: map<string, Row>, indices: seq<nat>)
    requires |m| == |items|
    ensures forall i: nat :: i < |m| ==>
        Marked(m, items, mounted, indices)[i] == (m[i] || (i in indices && items[i] in mounted))
  {
    forall i: nat | i < |m|
      ensures Marked(m, items, mounted, indices)[i] == (m[i] || (i in indices && items[i] in mounted))
    {
      MarkedIs(m, items, mounted, indices, i);
    }
  }

  ghost predicate Distinct(s: seq<string>) {
    forall i, j :: 0 <= i < j < |s| ==> s[i] != s[j]
  }

  ghost predicate PlacedAt(mounted: map<string, Row>, items: seq<string>, offsets: seq<real>, i: int) {
    && 0 <= i < |items| && i < |offsets|
    && items[i] in mounted && mounted[items[i]].index == i && mounted[items[i]].top == offsets[i]
  }

  // The attached elements are those of the mounted rows, each showing its own row; the
  // pool holds other elements, each once.
  ghost predicate DomOk(mounted: map<string, Row>, children: set<nat>, shows: map<nat, string>, pool: seq<nat>,
                        next: nat) {
    && (forall k :: k in mounted ==> mounted[k].el in children && mounted[k].el in shows && shows[mounted[k].el] == k)
    && (forall e :: e in children ==> e < next && exists k :: k in mounted && mounted[k].el == e)
    && (forall i :: 0 <= i < |pool| ==> pool[i] < next && pool[i] !in children)
    && forall i, j :: 0 <= i < j < |pool| ==> pool[i] != pool[j]
  }

  lemma DetachOk(mounted: map<string, Row>, children: set<nat>, shows: map<nat, string>, pool: seq<nat>,
                 next: nat, k: string)
    requires DomOk(mounted, children, shows, pool, next) && k in mounted
    ensures var e := mounted[k].el;
      DomOk(mounted - {k}, children - {e}, shows, pool, next)
      && DomOk(mounted - {k}, children - {e}, shows, pool + [e], next)
  {
    var m, c := mounted - {k}, children - {mounted[k].el};
    forall e | e in c
      ensures exists j :: j in m && m[j].el == e
    {
      var j :| j in mounted && mounted[j].el == e;
      assert j in m;
    }
  }

  // A detached, unpooled element takes key `k`.
  lemma AttachOk(mounted: map<string, Row>, children: set<nat>, shows: map<nat, string>, pool: seq<nat>, next: nat,
                 k: string, row: Row)
    requires DomOk(mounted, children, shows, pool, next) && k !in mounted
    requires row.el < next && row.el !in children && forall i :: 0 <= i < |pool| ==> pool[i] != row.el
    ensures DomOk(mounted[k := row], children + {row.el}, shows[row.el := k], pool, next)
  {
    var m := mounted[k := row];
    forall e | e in children + {row.el}
      ensures exists j :: j in m && m[j].el == e
    {
      if e == row.el {
        assert m[k].el == e;
      } else {
        var j :| j in mounted && mounted[j].el == e;
        assert m[j].el == e;
      }
    }
  }

  // Moving the row of `k` keeps its element where it was.
  lemma PlaceOk(mounted: map<string, Row>, children: set<nat>, shows: map<nat, string>, pool: seq<nat>, next: nat,
                k: string, row: Row)
    requires DomOk(mounted, children, shows, pool, next) || DomOk(mounted[k := row], children, shows, pool, next)
    requires k in mounted ==> mounted[k].el == row.el
    requires k !in mounted ==> DomOk(mounted[k := row], children, shows, pool, next)
    ensures DomOk(mounted[k := row], children, shows, pool, next)
  {
    var m := mounted[k := row];
    if k in mounted && DomOk(mounted, children, shows, pool, next) {
      forall e | e in children
        ensures exists j :: j in m && m[j].el == e
      {
        var j :| j in mounted && mounted[j].el == e;
        assert m[j].el == e;
      }
    }
  }
}
