/**
 * `tree_view_include_size_calculator` of
 * src/ui/tree_view_include_size_calculator.hpp: the size column of the
 * include view once the user has unchecked some files.
 *
 * Every include is charged the size of its file only when the file is
 * included exactly once once the includes below unchecked items are set
 * aside; otherwise it is charged 0. Each item then shows its charge plus
 * what the items directly below it show, computed with a stack of running
 * totals.
 *
 * The check state of each item is the parameter `checked`, the file size of
 * each vertex `size` and the visitor's `get_current_include_count` the
 * parameter `count`, all fixed during a run. The background colour and the
 * expansion of the view are not modelled.
 */
module TreeViewIncludeSizeCalculator {
  import opened IncludeTraversals
  import opened Vectors
  import opened IncludeTreeWidgets
  import opened LegacyTreeViewBuilder

  /**
   * What entering an include pushes: the size of its file when its include
   * count less its skip count is 1, and 0 otherwise. The counts are
   * unsigned, so the difference is 1 exactly when the count is one more
   * than the skip count.
   */
  function Charge(count: nat, skip: nat, size: nat): nat
  {
    if count == skip + 1 then size else 0
  }

  /** `n` zero totals. */
  function Zeros(n: nat): (r: seq<nat>)
    ensures |r| == n && forall i :: 0 <= i < n ==> r[i] == 0
  {
    seq(n, _ => 0)
  }

  /** A stack of running totals whose top has grown by `d`. */
  function AddToTop(s: seq<nat>, d: nat): (r: seq<nat>)
    requires s != []
    ensures |r| == |s| && r[..|s| - 1] == s[..|s| - 1] && r[|s| - 1] == s[|s| - 1] + d
  {
    s[..|s| - 1] + [s[|s| - 1] + d]
  }

  /** Growing the top twice is growing it once by the sum. */
  lemma AddToTopTwice(s: seq<nat>, d: nat, e: nat)
    requires s != []
    ensures AddToTop(AddToTop(s, d), e) == AddToTop(s, d + e)
  {
    assert AddToTop(AddToTop(s, d), e)[..|s| - 1] == AddToTop(s, d + e)[..|s| - 1];
  }

  /** Leaving the root: its total, grown by `d`, is popped onto the 0 pushed under it. */
  lemma AddToRoot(s: seq<nat>, rootSize: nat, d: nat)
    ensures var t := AddToTop(s + [0, rootSize], d);
      AddToTop(t[..|t| - 1], t[|t| - 1]) == s + [rootSize + d]
  {
    var t := AddToTop(s + [0, rootSize], d);
    assert t[..|t| - 1] == s + [0];
  }

  /** The number of unchecked items on a path of items. */
  function UncheckedOn(path: seq<nat>, checked: seq<bool>): nat
  {
    if path == [] then 0
    else UncheckedOn(path[..|path| - 1], checked) + (if path[|path| - 1] < |checked| && !checked[path[|path| - 1]] then 1 else 0)
  }

  /** What the items of a forest's top-level includes show, added up. */
  function Recorded(ns: seq<Include>, sizes: seq<nat>): nat
    decreases ns
  {
    if ns == [] then 0
    else (if ns[0].index < |sizes| then sizes[ns[0].index] else 0) + Recorded(ns[1..], sizes)
  }

  /** Every include of the forest shows its charge plus what the items directly below it show. */
  ghost predicate RolledUp(ns: seq<Include>, sizes: seq<nat>, charged: seq<nat>)
    decreases ns
  {
    ns != [] ==>
      ns[0].index < |sizes| && ns[0].index < |charged| &&
      sizes[ns[0].index] == charged[ns[0].index] + Recorded(ns[0].children, sizes) &&
      RolledUp(ns[0].children, sizes, charged) && RolledUp(ns[1..], sizes, charged)
  }

  /** The total of the top-level items only looks at those items. */
  lemma {:induction false} RecordedFrame(ns: seq<Include>, sizes: seq<nat>, sizes1: seq<nat>)
    requires |sizes1| == |sizes|
    requires forall i :: 0 <= i < |sizes| && i in Indices(ns) ==> sizes1[i] == sizes[i]
    ensures Recorded(ns, sizes1) == Recorded(ns, sizes)
    decreases ns
  {
    if ns != [] {
      RecordedFrame(ns[1..], sizes, sizes1);
    }
  }

  /** Whether a forest is rolled up only looks at its own items and charges. */
  lemma {:induction false} RolledUpFrame(
    ns: seq<Include>, sizes: seq<nat>, charged: seq<nat>, sizes1: seq<nat>, charged1: seq<nat>)
    requires RolledUp(ns, sizes, charged)
    requires |sizes1| == |sizes| && |charged1| == |charged|
    requires forall i :: 0 <= i < |sizes| && i in Indices(ns) ==> sizes1[i] == sizes[i]
    requires forall i :: 0 <= i < |charged| && i in Indices(ns) ==> charged1[i] == charged[i]
    ensures RolledUp(ns, sizes1, charged1)
    decreases ns
  {
    if ns != [] {
      RecordedFrame(ns[0].children, sizes, sizes1);
      RolledUpFrame(ns[0].children, sizes, charged, sizes1, charged1);
      RolledUpFrame(ns[1..], sizes, charged, sizes1, charged1);
    }
  }

  /** A forest is rolled up when its first include is, with everything below it, and so are the rest. */
  lemma RolledUpCons(ns: seq<Include>, sizes: seq<nat>, charged: seq<nat>)
    requires ns != [] && ns[0].index < |sizes| && ns[0].index < |charged|
    requires sizes[ns[0].index] == charged[ns[0].index] + Recorded(ns[0].children, sizes)
    requires RolledUp(ns[0].children, sizes, charged) && RolledUp(ns[1..], sizes, charged)
    ensures RolledUp(ns, sizes, charged)
  {
  }

  /**
   * Rolling up a forest one include at a time: when walking the first
   * include rolled it up changing only its own items (`a0` to `a1`, `c0` to
   * `c1`), and walking the rest rolled them up changing only theirs (`a1` to
   * `a2`, `c1` to `c2`), the whole forest is rolled up, its top-level total
   * is the first item's plus the rest's, and nothing outside it changed.
   */
  lemma ForestStep(ns: seq<Include>, a0: seq<nat>, c0: seq<nat>, a1: seq<nat>, c1: seq<nat>, a2: seq<nat>, c2: seq<nat>)
    requires ns != [] && DistinctIndices(ns) && ns[0].index < |a0|
    requires |a1| == |a0| && |a2| == |a0| && |c0| == |a0| && |c1| == |a0| && |c2| == |a0|
    requires a1[ns[0].index] == c1[ns[0].index] + Recorded(ns[0].children, a1) && RolledUp(ns[0].children, a1, c1)
    requires forall i :: 0 <= i < |a0| && i != ns[0].index && i !in Indices(ns[0].children) ==>
      a1[i] == a0[i] && c1[i] == c0[i]
    requires RolledUp(ns[1..], a2, c2)
    requires forall i :: 0 <= i < |a0| && i !in Indices(ns[1..]) ==> a2[i] == a1[i] && c2[i] == c1[i]
    ensures RolledUp(ns, a2, c2)
    ensures Recorded(ns, a2) == a1[ns[0].index] + Recorded(ns[1..], a2)
    ensures forall i :: 0 <= i < |a0| && i !in Indices(ns) ==> a2[i] == a0[i] && c2[i] == c0[i]
  {
    assert ns[0].index !in Indices(ns[1..]);
    assert forall i :: 0 <= i < |a0| && i in Indices(ns[0].children) ==> a2[i] == a1[i] && c2[i] == c1[i];
    RecordedFrame(ns[0].children, a1, a2);
    RolledUpFrame(ns[0].children, a1, c1, a2, c2);
    RolledUpCons(ns, a2, c2);
  }

  /** Every include of the forest is charged by the fixed skip counts `skip`. */
  ghost predicate FixedCharges(ns: seq<Include>, charged: seq<nat>, count: nat -> nat, skip: seq<nat>, size: nat -> nat)
    decreases ns
  {
    ns != [] ==>
      ns[0].index < |charged| && ns[0].vertex < |skip| &&
      charged[ns[0].index] == Charge(count(ns[0].vertex), skip[ns[0].vertex], size(ns[0].vertex)) &&
      FixedCharges(ns[0].children, charged, count, skip, size) && FixedCharges(ns[1..], charged, count, skip, size)
  }

  /** Whether a forest is charged by `skip` only looks at its own items' charges. */
  lemma {:induction false} FixedChargesFrame(
    ns: seq<Include>, charged: seq<nat>, charged1: seq<nat>, count: nat -> nat, skip: seq<nat>, size: nat -> nat)
    requires FixedCharges(ns, charged, count, skip, size) && |charged1| == |charged|
    requires forall i :: 0 <= i < |charged| && i in Indices(ns) ==> charged1[i] == charged[i]
    ensures FixedCharges(ns, charged1, count, skip, size)
    decreases ns
  {
    if ns != [] {
      FixedChargesFrame(ns[0].children, charged, charged1, count, skip, size);
      FixedChargesFrame(ns[1..], charged, charged1, count, skip, size);
    }
  }

  /** Charging a forest by `skip` one include at a time, as `ForestStep` rolls it up. */
  lemma FixedStep(ns: seq<Include>, c1: seq<nat>, c2: seq<nat>, count: nat -> nat, skip: seq<nat>, size: nat -> nat)
    requires ns != [] && DistinctIndices(ns) && ns[0].index < |c1| && |c2| == |c1| && ns[0].vertex < |skip|
    requires c1[ns[0].index] == Charge(count(ns[0].vertex), skip[ns[0].vertex], size(ns[0].vertex))
    requires FixedCharges(ns[0].children, c1, count, skip, size) && FixedCharges(ns[1..], c2, count, skip, size)
    requires forall i :: 0 <= i < |c1| && i !in Indices(ns[1..]) ==> c2[i] == c1[i]
    ensures FixedCharges(ns, c2, count, skip, size)
  {
    assert ns[0].index !in Indices(ns[1..]);
    FixedChargesFrame(ns[0].children, c1, c2, count, skip, size);
  }

  /** What a file counts for when the skip counts stay `skip`: its size when it is included exactly once more than skipped. */
  function OnceSize(count: nat -> nat, skip: seq<nat>, size: nat -> nat): nat -> nat
  {
    (v: nat) => if v < |skip| then Charge(count(v), skip[v], size(v)) else 0
  }

  /**
   * With fixed skip counts, rolling up is the tree size of the legacy view
   * with each file counted by `OnceSize`: every item shows the size of the
   * files at and below it that nothing else includes.
   */
  lemma {:induction false} RolledUpIsTreeSize(
    ns: seq<Include>, sizes: seq<nat>, charged: seq<nat>, count: nat -> nat, skip: seq<nat>, size: nat -> nat)
    requires RolledUp(ns, sizes, charged) && FixedCharges(ns, charged, count, skip, size)
    ensures Recorded(ns, sizes) == ForestSize(ns, OnceSize(count, skip, size))
    ensures ns != [] ==> sizes[ns[0].index] == TreeSize(ns[0], OnceSize(count, skip, size))
    decreases ns
  {
    if ns != [] {
      RolledUpIsTreeSize(ns[0].children, sizes, charged, count, skip, size);
      RolledUpIsTreeSize(ns[1..], sizes, charged, count, skip, size);
    }
  }

  /** No item of a rolled-up forest shows more than the forest's top-level items together. */
  lemma {:induction false} ItemWithinRecorded(ns: seq<Include>, sizes: seq<nat>, charged: seq<nat>, i: nat)
    requires RolledUp(ns, sizes, charged) && i in Indices(ns)
    ensures i < |sizes| && sizes[i] <= Recorded(ns, sizes)
    decreases ns
  {
    if i in Indices(ns[0].children) {
      ItemWithinRecorded(ns[0].children, sizes, charged, i);
    } else if i != ns[0].index {
      ItemWithinRecorded(ns[1..], sizes, charged, i);
    }
  }

  /** Every item is checked. */
  ghost predicate AllChecked(checked: seq<bool>)
  {
    forall k :: 0 <= k < |checked| ==> checked[k]
  }

  /** With every item checked, no item on any path is unchecked. */
  lemma {:induction false} NoneUnchecked(path: seq<nat>, checked: seq<bool>)
    requires AllChecked(checked)
    ensures UncheckedOn(path, checked) == 0
    decreases |path|
  {
    if path != [] {
      NoneUnchecked(path[..|path| - 1], checked);
    }
  }

  class IncludeSizeCalculator {
    /** `items_by_index_`: the widget item of each include, by item number. */
    const items: seq<IncludeTreeWidgetItem>
    /** `size_stack_`: one running total per include on the current path, over a 0 pushed first. */
    var sizeStack: seq<nat>
    /** `skip_count_by_vertex_`: per vertex, the includes of it met below an unchecked item. */
    var skipCount: seq<nat>
    /** `unchecked_counter_`. */
    var unchecked: int
    /** `size_by_index_`: per item, the size it shows. */
    var sizeByIndex: seq<nat>
    /** The items of the includes entered and not yet left, root first. */
    ghost var path: seq<nat>
    /** Per item, what entering its include pushed. */
    ghost var charged: seq<nat>

    /**
     * The path has a running total each, over at least one more entry; the
     * counter is the number of unchecked items on the path.
     */
    ghost predicate Valid(checked: seq<bool>)
      reads this
    {
      |path| + 1 <= |sizeStack| && |charged| == |sizeByIndex| &&
      (forall j :: 0 <= j < |path| ==> path[j] < |sizeByIndex| && path[j] < |checked|) &&
      unchecked == UncheckedOn(path, checked)
    }

    /** src/ui/tree_view_include_size_calculator.hpp:27-30: the caller's items; all vectors empty. */
    constructor (items: seq<IncludeTreeWidgetItem>)
      ensures this.items == items
      ensures sizeStack == [] && skipCount == [] && sizeByIndex == [] && unchecked == 0
    {
      this.items := items;
      sizeStack := [];
      skipCount := [];
      unchecked := 0;
      sizeByIndex := [];
      path := [];
      charged := [];
    }

    /**
     * `include_file` (src/ui/tree_view_include_size_calculator.hpp:59-104):
     * an unchecked item raises the counter; while the counter is positive
     * (some item on the path, this one included, is unchecked) the vertex's
     * skip count goes up; then the include's charge is pushed.
     */
    method IncludeFile(v: nat, index: nat, checked: seq<bool>, count: nat -> nat, size: nat -> nat)
      requires Valid(checked) && v < |skipCount| && index < |sizeByIndex| && index < |checked|
      modifies this
      ensures path == old(path) + [index]
      ensures unchecked == old(unchecked) + (if checked[index] then 0 else 1)
      ensures skipCount == old(skipCount)[v := old(skipCount[v]) + (if unchecked > 0 then 1 else 0)]
      ensures sizeStack == old(sizeStack) + [Charge(count(v), skipCount[v], size(v))]
      ensures charged == old(charged)[index := Charge(count(v), skipCount[v], size(v))]
      ensures sizeByIndex == old(sizeByIndex)
      ensures Valid(checked)
    {
      if !checked[index] {
        unchecked := unchecked + 1;
      }
      if unchecked > 0 {
        skipCount := skipCount[v := skipCount[v] + 1];
      }
      var pushed := if count(v) == skipCount[v] + 1 then size(v) else 0;
      sizeStack := sizeStack + [pushed];
      path := path + [index];
      assert path[..|path| - 1] == old(path);
      charged := charged[index := pushed];
    }

    /**
     * `finish_file` (src/ui/tree_view_include_size_calculator.hpp:106-118):
     * the include's running total is popped, added to the one below it and
     * shown by its item; leaving an unchecked item lowers the counter.
     */
    method FinishFile(index: nat, checked: seq<bool>)
      requires Valid(checked) && path != [] && path[|path| - 1] == index
      modifies this
      ensures path == old(path[..|path| - 1])
      ensures unchecked == old(unchecked) - (if checked[index] then 0 else 1)
      ensures sizeStack == AddToTop(old(sizeStack[..|sizeStack| - 1]), old(sizeStack[|sizeStack| - 1]))
      ensures sizeByIndex == old(sizeByIndex)[index := old(sizeStack[|sizeStack| - 1])]
      ensures skipCount == old(skipCount) && charged == old(charged)
      ensures Valid(checked)
    {
      var back := sizeStack[|sizeStack| - 1];
      sizeStack := sizeStack[..|sizeStack| - 1];
      sizeStack := sizeStack[|sizeStack| - 1 := sizeStack[|sizeStack| - 1] + back];
      sizeByIndex := sizeByIndex[index := back];
      if !checked[index] {
        unchecked := unchecked - 1;
      }
      path := path[..|path| - 1];
    }

    /**
     * Entering `n`, walking the includes below it and leaving it. The item
     * of `n` shows its charge, which depends on the skip count of its vertex
     * after entering it, plus what the items directly below it show; every
     * include below is rolled up the same way; the running total below
     * grows by what `n` shows. No other item changes, and skip counts only
     * grow.
     */
    method VisitInclude(n: Include, checked: seq<bool>, count: nat -> nat, size: nat -> nat)
      requires Valid(checked) && |sizeByIndex| == |checked|
      requires n.vertex < |skipCount| && VerticesWithin(n.children, |skipCount|)
      requires n.index < |sizeByIndex| && ItemsWithin(n.children, |sizeByIndex|)
      requires n.index !in Indices(n.children) && DistinctIndices(n.children)
      modifies this
      ensures Valid(checked)
      ensures path == old(path) && unchecked == old(unchecked)
      ensures |sizeByIndex| == old(|sizeByIndex|) && |skipCount| == old(|skipCount|)
      ensures sizeStack == AddToTop(old(sizeStack), sizeByIndex[n.index])
      ensures charged[n.index] == Charge(count(n.vertex),
        old(skipCount[n.vertex]) + (if unchecked > 0 || !checked[n.index] then 1 else 0), size(n.vertex))
      ensures sizeByIndex[n.index] == charged[n.index] + Recorded(n.children, sizeByIndex)
      ensures RolledUp(n.children, sizeByIndex, charged)
      ensures forall i :: 0 <= i < |sizeByIndex| && i != n.index && i !in Indices(n.children) ==>
        sizeByIndex[i] == old(sizeByIndex[i]) && charged[i] == old(charged[i])
      ensures forall u :: 0 <= u < |skipCount| ==> old(skipCount[u]) <= skipCount[u]
      ensures AllChecked(checked) ==>
        skipCount == old(skipCount) &&
        charged[n.index] == Charge(count(n.vertex), skipCount[n.vertex], size(n.vertex)) &&
        FixedCharges(n.children, charged, count, skipCount, size)
      decreases n
    {
      if AllChecked(checked) {
        NoneUnchecked(path, checked);
      }
      IncludeFile(n.vertex, n.index, checked, count, size);
      VisitIncludes(n.children, checked, count, size);
      ghost var sizes1 := sizeByIndex;
      FinishFile(n.index, checked);
      RecordedFrame(n.children, sizes1, sizeByIndex);
      RolledUpFrame(n.children, sizes1, charged, sizeByIndex, charged);
    }

    /** Walking a forest of includes in order: the running total grows by what its top-level items show. */
    method VisitIncludes(ns: seq<Include>, checked: seq<bool>, count: nat -> nat, size: nat -> nat)
      requires Valid(checked) && |sizeByIndex| == |checked|
      requires VerticesWithin(ns, |skipCount|) && ItemsWithin(ns, |sizeByIndex|) && DistinctIndices(ns)
      modifies this
      ensures Valid(checked)
      ensures path == old(path) && unchecked == old(unchecked)
      ensures |sizeByIndex| == old(|sizeByIndex|) && |skipCount| == old(|skipCount|)
      ensures sizeStack == AddToTop(old(sizeStack), Recorded(ns, sizeByIndex))
      ensures RolledUp(ns, sizeByIndex, charged)
      ensures forall i :: 0 <= i < |sizeByIndex| && i !in Indices(ns) ==>
        sizeByIndex[i] == old(sizeByIndex[i]) && charged[i] == old(charged[i])
      ensures forall u :: 0 <= u < |skipCount| ==> old(skipCount[u]) <= skipCount[u]
      ensures AllChecked(checked) ==> skipCount == old(skipCount) && FixedCharges(ns, charged, count, skipCount, size)
      decreases ns
    {
      if ns == [] {
        assert sizeStack == AddToTop(sizeStack, 0);
      } else {
        ghost var stack0 := sizeStack;
        VisitInclude(ns[0], checked, count, size);
        ghost var sizes1, charged1 := sizeByIndex, charged;
        VisitIncludes(ns[1..], checked, count, size);
        AddToTopTwice(stack0, sizes1[ns[0].index], Recorded(ns[1..], sizeByIndex));
        ForestStep(ns, old(sizeByIndex), old(charged), sizes1, charged1, sizeByIndex, charged);
        if AllChecked(checked) {
          FixedStep(ns, charged1, charged, count, skipCount, size);
        }
      }
    }

    /**
     * src/ui/tree_view_include_size_calculator.hpp:50-51: every item shows
     * its size, in kilobytes and as a share of the root's.
     */
    method ShowSizes()
      requires 0 < |sizeByIndex| <= |items|
      requires forall i, j :: 0 <= i < j < |items| ==> items[i] != items[j]
      modifies items
      ensures forall i :: 0 <= i < |sizeByIndex| ==>
        items[i].size == sizeByIndex[i] && items[i].kbShown == KiloBytes(sizeByIndex[i]) &&
        items[i].percentShown == Percent(sizeByIndex[i], sizeByIndex[0])
      ensures forall i :: |sizeByIndex| <= i < |items| ==>
        items[i].size == old(items[i].size) && items[i].kbShown == old(items[i].kbShown) &&
        items[i].percentShown == old(items[i].percentShown)
      ensures forall i :: 0 <= i < |items| ==>
        items[i].parent == old(items[i].parent) && items[i].file == old(items[i].file) &&
        items[i].order == old(items[i].order) && items[i].orderShown == old(items[i].orderShown)
    {
      var i := 0;
      while i < |sizeByIndex|
        invariant i <= |sizeByIndex|
        invariant forall j :: 0 <= j < i ==>
          items[j].size == sizeByIndex[j] && items[j].kbShown == KiloBytes(sizeByIndex[j]) &&
          items[j].percentShown == Percent(sizeByIndex[j], sizeByIndex[0])
        invariant forall j :: i <= j < |items| ==>
          items[j].size == old(items[j].size) && items[j].kbShown == old(items[j].kbShown) &&
          items[j].percentShown == old(items[j].percentShown)
        invariant forall j :: 0 <= j < |items| ==>
          items[j].parent == old(items[j].parent) && items[j].file == old(items[j].file) &&
          items[j].order == old(items[j].order) && items[j].orderShown == old(items[j].orderShown)
      {
        items[i].SetColumnSize(sizeByIndex[i], sizeByIndex[0]);
        i := i + 1;
      }
    }

    /** src/ui/tree_view_include_size_calculator.hpp:42-46: the root's total starts as its own size over a 0; an unchecked root raises the counter. */
    method RootFile(rootSize: nat, checked: seq<bool>)
      requires path == [] && unchecked == 0 && |charged| == |sizeByIndex| && 0 < |sizeByIndex| && 0 < |checked|
      modifies this
      ensures sizeStack == old(sizeStack) + [0, rootSize] && path == [0]
      ensures unchecked == (if checked[0] then 0 else 1)
      ensures sizeByIndex == old(sizeByIndex) && charged == old(charged) && skipCount == old(skipCount)
      ensures Valid(checked)
    {
      sizeStack := sizeStack + [0, rootSize];
      if !checked[0] {
        unchecked := unchecked + 1;
      }
      path := [0];
      assert path[..0] == [];
    }

    /**
     * The walk from the root (src/ui/tree_view_include_size_calculator.hpp:42-48
     * and `finish_file` on the root): the root's total starts as its own
     * size over a 0, an unchecked root raises the counter, the includes
     * below are walked and the root's item shows its size plus what the
     * items directly below it show. The new 0 at the bottom keeps that
     * total; no item outside the walk changes.
     */
    method VisitRoot(root: Include, checked: seq<bool>, count: nat -> nat, size: nat -> nat)
      requires path == [] && unchecked == 0 && |charged| == |sizeByIndex| && |sizeByIndex| == |checked|
      requires root.index == 0 && 0 < |sizeByIndex|
      requires VerticesWithin(root.children, |skipCount|) && ItemsWithin(root.children, |sizeByIndex|)
      requires 0 !in Indices(root.children) && DistinctIndices(root.children)
      modifies this
      ensures path == [] && unchecked == 0 && |charged| == |sizeByIndex|
      ensures |sizeByIndex| == old(|sizeByIndex|) && |skipCount| == old(|skipCount|)
      ensures sizeStack == old(sizeStack) + [sizeByIndex[0]]
      ensures sizeByIndex[0] == size(root.vertex) + Recorded(root.children, sizeByIndex)
      ensures RolledUp(root.children, sizeByIndex, charged)
      ensures forall i :: 0 < i < |sizeByIndex| && i !in Indices(root.children) ==> sizeByIndex[i] == old(sizeByIndex[i])
      ensures AllChecked(checked) ==>
        skipCount == old(skipCount) && FixedCharges(root.children, charged, count, skipCount, size)
    {
      ghost var stack0 := sizeStack;
      RootFile(size(root.vertex), checked);
      VisitIncludes(root.children, checked, count, size);
      ghost var sizes1 := sizeByIndex;
      FinishFile(0, checked);
      AddToRoot(stack0, size(root.vertex), Recorded(root.children, sizes1));
      RecordedFrame(root.children, sizes1, sizeByIndex);
      RolledUpFrame(root.children, sizes1, charged, sizeByIndex, charged);
    }

    /**
     * src/ui/tree_view_include_size_calculator.hpp:34-48: the sizes of a run
     * on a graph of `numVertices` vertices whose root is vertex 0, shown by
     * item 0. The skip counts are resized but kept from any earlier run, and
     * the stack keeps what earlier runs left on it. On a non-empty graph the
     * root shows its own size plus what the items directly below it show,
     * every include below is rolled up, the items of no include show 0 and
     * no item shows more than the root. With every item checked the skip
     * counts stay as resized, and the root shows its own size plus the size
     * of every file below it counted by `OnceSize`.
     */
    method Calculate(root: Include, numVertices: nat, checked: seq<bool>, count: nat -> nat, size: nat -> nat)
      requires root.index == 0 && root.vertex == 0 && |checked| == |items|
      requires numVertices > 0 ==> |items| > 0
      requires VerticesWithin(root.children, numVertices) && ItemsWithin(root.children, |items|)
      requires 0 !in Indices(root.children) && DistinctIndices(root.children)
      modifies this
      ensures |skipCount| == numVertices && unchecked == 0
      ensures numVertices == 0 ==> sizeByIndex == [] && sizeStack == old(sizeStack)
      ensures numVertices > 0 ==>
        |sizeByIndex| == |items| &&
        sizeStack == old(sizeStack) + [sizeByIndex[0]] &&
        sizeByIndex[0] == size(0) + Recorded(root.children, sizeByIndex) &&
        RolledUp(root.children, sizeByIndex, charged) &&
        (forall i :: 0 < i < |items| && i !in Indices(root.children) ==> sizeByIndex[i] == 0) &&
        (forall i :: 0 <= i < |items| ==> sizeByIndex[i] <= sizeByIndex[0])
      ensures numVertices > 0 && AllChecked(checked) ==>
        skipCount == Resize(old(skipCount), numVertices, 0) &&
        sizeByIndex[0] == size(0) + ForestSize(root.children, OnceSize(count, skipCount, size))
    {
      sizeByIndex := [];
      skipCount := Resize(skipCount, numVertices, 0);
      unchecked := 0;
      path := [];
      if numVertices > 0 {
        sizeByIndex := Zeros(|items|);
        charged := Zeros(|items|);
        VisitRoot(root, checked, count, size);
        forall i | 0 <= i < |items|
          ensures sizeByIndex[i] <= sizeByIndex[0]
        {
          if i in Indices(root.children) {
            ItemWithinRecorded(root.children, sizeByIndex, charged, i);
          }
        }
        if AllChecked(checked) {
          RolledUpIsTreeSize(root.children, sizeByIndex, charged, count, skipCount, size);
        }
      }
    }

    /**
     * `operator()` (src/ui/tree_view_include_size_calculator.hpp:32-53): the
     * sizes of `Calculate`, then, on a non-empty graph, every item shows its
     * size, in kilobytes and as a share of the root's, never above 100%. An
     * empty graph writes no item; no other column of any item changes.
     */
    method Run(root: Include, numVertices: nat, checked: seq<bool>, count: nat -> nat, size: nat -> nat)
      requires root.index == 0 && root.vertex == 0 && |checked| == |items|
      requires numVertices > 0 ==> |items| > 0
      requires VerticesWithin(root.children, numVertices) && ItemsWithin(root.children, |items|)
      requires 0 !in Indices(root.children) && DistinctIndices(root.children)
      requires forall i, j :: 0 <= i < j < |items| ==> items[i] != items[j]
      modifies this, items
      ensures |skipCount| == numVertices && unchecked == 0
      ensures numVertices == 0 ==> sizeByIndex == [] && sizeStack == old(sizeStack)
      ensures numVertices > 0 ==>
        |sizeByIndex| == |items| &&
        sizeByIndex[0] == size(0) + Recorded(root.children, sizeByIndex) &&
        RolledUp(root.children, sizeByIndex, charged) &&
        forall i :: 0 <= i < |items| ==>
          items[i].size == sizeByIndex[i] && items[i].kbShown == KiloBytes(sizeByIndex[i]) &&
          items[i].percentShown == Percent(sizeByIndex[i], sizeByIndex[0]) && items[i].percentShown <= 100
      ensures numVertices == 0 ==> forall i :: 0 <= i < |items| ==>
        items[i].size == old(items[i].size) && items[i].kbShown == old(items[i].kbShown) &&
        items[i].percentShown == old(items[i].percentShown)
      ensures forall i :: 0 <= i < |items| ==>
        items[i].parent == old(items[i].parent) && items[i].file == old(items[i].file) &&
        items[i].order == old(items[i].order) && items[i].orderShown == old(items[i].orderShown)
    {
      Calculate(root, numVertices, checked, count, size);
      if numVertices > 0 {
        ShowSizes();
      }
    }
  }
}
