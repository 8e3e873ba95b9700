/**
 * `tree_view_filter` of src/ui/tree_view_filter.hpp: hides every item of the
 * include view that neither passes the filter nor has an include below it
 * that does.
 *
 * `filter_func_(v, g)` is the parameter `pass`, a function of the vertex
 * (the graph is fixed during a walk).
 */
module TreeViewFilter {
  import opened IncludeTraversals

  /** `filter_builder`: walks the includes and marks the items to keep visible. */
  class FilterBuilder {
    /** Items of the includes entered and not yet left, root first. */
    var indexStack: seq<nat>
    /** `visible_by_index_`: one flag per item. */
    var visible: seq<bool>

    /** The stack only holds items that have a flag. */
    ghost predicate Valid()
      reads this
    {
      forall j :: 0 <= j < |indexStack| ==> indexStack[j] < |visible|
    }

    /** src/ui/tree_view_filter.hpp:51-54: every item starts hidden. */
    constructor (numItems: nat)
      ensures |visible| == numItems && indexStack == []
      ensures forall i :: 0 <= i < numItems ==> !visible[i]
      ensures Valid()
    {
      indexStack := [];
      visible := seq(numItems, _ => false);
    }

    /** src/ui/tree_view_filter.hpp:56-59: the root's item goes on the stack; the root is not filtered. */
    method RootFile(index: nat)
      requires Valid() && index < |visible|
      modifies this
      ensures indexStack == old(indexStack) + [index] && visible == old(visible)
      ensures Valid()
    {
      indexStack := indexStack + [index];
    }

    /**
     * src/ui/tree_view_filter.hpp:61-73: an include that passes makes its
     * own item and every item on the stack visible; no flag is cleared. Its
     * item then goes on the stack.
     */
    method IncludeFile(index: nat, passes: bool)
      requires Valid() && index < |visible|
      modifies this
      ensures indexStack == old(indexStack) + [index] && |visible| == old(|visible|)
      ensures forall i :: 0 <= i < |visible| ==>
        visible[i] == (old(visible[i]) || (passes && (i == index || i in old(indexStack))))
      ensures Valid()
    {
      if passes {
        visible := visible[index := true];
        var j := 0;
        while j < |indexStack|
          invariant j <= |indexStack| && |visible| == old(|visible|) && indexStack == old(indexStack)
          invariant forall i :: 0 <= i < |visible| ==>
            visible[i] == (old(visible[i]) || i == index || i in indexStack[..j])
        {
          assert indexStack[..j + 1] == indexStack[..j] + [indexStack[j]];
          visible := visible[indexStack[j] := true];
          j := j + 1;
        }
        assert indexStack[..j] == indexStack;
      }
      indexStack := indexStack + [index];
    }

    /** src/ui/tree_view_filter.hpp:75-78: leaving an include pops its item. */
    method FinishFile()
      requires Valid() && indexStack != []
      modifies this
      ensures indexStack == old(indexStack[..|indexStack| - 1]) && visible == old(visible)
      ensures Valid()
    {
      indexStack := indexStack[..|indexStack| - 1];
    }

    /**
     * Entering `n`, walking the includes below it and leaving it: the items
     * of the kept includes at and below `n` become visible, and so do the
     * items on the stack when `n` is kept. The stack is as before.
     */
    method VisitInclude(n: Include, pass: nat -> bool)
      requires Valid() && n.index < |visible| && ItemsWithin(n.children, |visible|)
      modifies this
      ensures indexStack == old(indexStack) && |visible| == old(|visible|)
      ensures forall i :: 0 <= i < |visible| ==>
        visible[i] == (old(visible[i]) || i in ShownIndices(n.children, pass) ||
                       (Shown(n, pass) && (i == n.index || i in old(indexStack))))
      ensures Valid()
      decreases n
    {
      IncludeFile(n.index, pass(n.vertex));
      VisitIncludes(n.children, pass);
      FinishFile();
    }

    /** Walking a forest of includes in order, each one entered and left in turn. */
    method VisitIncludes(ns: seq<Include>, pass: nat -> bool)
      requires Valid() && ItemsWithin(ns, |visible|)
      modifies this
      ensures indexStack == old(indexStack) && |visible| == old(|visible|)
      ensures forall i :: 0 <= i < |visible| ==>
        visible[i] == (old(visible[i]) || i in ShownIndices(ns, pass) || (AnyShown(ns, pass) && i in old(indexStack)))
      ensures Valid()
      decreases ns
    {
      if ns != [] {
        VisitInclude(ns[0], pass);
        VisitIncludes(ns[1..], pass);
      }
    }

    /** `filter_builder::operator()`: the whole walk, from `root_file` on the root to its `finish_file`. */
    method Visit(root: Include, pass: nat -> bool)
      requires Valid() && root.index < |visible| && ItemsWithin(root.children, |visible|)
      modifies this
      ensures indexStack == old(indexStack) && |visible| == old(|visible|)
      ensures forall i :: 0 <= i < |visible| ==>
        visible[i] == (old(visible[i]) || i in ShownIndices(root.children, pass) ||
                       (AnyShown(root.children, pass) && (i == root.index || i in old(indexStack))))
      ensures Valid()
    {
      RootFile(root.index);
      VisitIncludes(root.children, pass);
      FinishFile();
    }
  }

  /**
   * `tree_view_filter::operator()` (src/ui/tree_view_filter.hpp:29-39): the
   * flag `setHidden` receives for each of the `numItems` items. An item is
   * hidden exactly when no kept include shows it: its include neither passes
   * the filter nor has a passing include below it, and the root, which is
   * never filtered itself, is hidden when nothing below it passes.
   */
  method FilterTreeView(root: Include, numItems: nat, pass: nat -> bool) returns (hidden: seq<bool>)
    requires root.index < numItems && ItemsWithin(root.children, numItems)
    ensures |hidden| == numItems
    ensures forall i :: 0 <= i < numItems ==>
      (hidden[i] <==> i !in ShownIndices(root.children, pass) && !(i == root.index && AnyShown(root.children, pass)))
  {
    var filter := new FilterBuilder(numItems);
    filter.Visit(root, pass);
    hidden := [];
    var i := 0;
    while i < numItems
      invariant i <= numItems && |hidden| == i
      invariant forall j :: 0 <= j < i ==> hidden[j] == !filter.visible[j]
    {
      hidden := hidden + [!filter.visible[i]];
      i := i + 1;
    }
  }
}
