/**
 * `tree_view_builder` of ui/dialog.cpp, the first version of the include
 * view: a Boost depth-first-search visitor that gives every file of the
 * search tree an item showing the size of the file together with all the
 * files below it, computed with a stack of running totals.
 *
 * Boost calls `start_vertex` on the root of the search, then for each tree
 * edge `tree_edge` before the search descends to its target, and
 * `finish_vertex` on each vertex when the search leaves it; the other
 * events do nothing here. An `Include` is one vertex of the search tree,
 * its children the targets of its tree edges in order. `QFileInfo::size`
 * on a vertex's file name is the parameter `size`.
 */
module LegacyTreeViewBuilder {
  import opened IncludeTraversals

  /** The size of a file together with every file below it in the search tree. */
  function TreeSize(n: Include, size: nat -> nat): nat
    decreases n
  {
    size(n.vertex) + ForestSize(n.children, size)
  }

  /** The size of a forest of search trees. */
  function ForestSize(ns: seq<Include>, size: nat -> nat): nat
    decreases ns
  {
    if ns == [] then 0 else TreeSize(ns[0], size) + ForestSize(ns[1..], size)
  }

  /** The vertices of a forest in the order the search discovers them. */
  function Discovered(ns: seq<Include>): (vs: seq<nat>)
    ensures forall v :: v in vs <==> v in Vertices(ns)
    decreases ns
  {
    if ns == [] then [] else [ns[0].vertex] + Discovered(ns[0].children) + Discovered(ns[1..])
  }

  /** The total of the sizes of a run of vertices. */
  function SumSizes(vs: seq<nat>, size: nat -> nat): nat
  {
    if vs == [] then 0 else size(vs[0]) + SumSizes(vs[1..], size)
  }

  lemma {:induction false} SumSizesAppend(a: seq<nat>, b: seq<nat>, size: nat -> nat)
    ensures SumSizes(a + b, size) == SumSizes(a, size) + SumSizes(b, size)
    decreases a
  {
    if a == [] {
      assert a + b == b;
    } else {
      assert (a + b)[0] == a[0] && (a + b)[1..] == a[1..] + b;
      SumSizesAppend(a[1..], b, size);
    }
  }

  /** The size of a forest is the plain total of the sizes of the files the search discovers in it. */
  lemma {:induction false} ForestSizeIsTotal(ns: seq<Include>, size: nat -> nat)
    ensures ForestSize(ns, size) == SumSizes(Discovered(ns), size)
    decreases ns
  {
    if ns != [] {
      ForestSizeIsTotal(ns[0].children, size);
      ForestSizeIsTotal(ns[1..], size);
      SumSizesAppend([ns[0].vertex] + Discovered(ns[0].children), Discovered(ns[1..]), size);
      SumSizesAppend([ns[0].vertex], Discovered(ns[0].children), size);
    }
  }

  /** Every entry of a stack of totals grown by `d`: the `std::transform` of `tree_edge`. */
  function AddAll(s: seq<nat>, d: nat): (r: seq<nat>)
    ensures |r| == |s| && forall i :: 0 <= i < |s| ==> r[i] == s[i] + d
  {
    seq(|s|, i requires 0 <= i < |s| => s[i] + d)
  }

  /** Growing the totals twice is growing them once by the sum. */
  lemma AddAllTwice(s: seq<nat>, d: nat, e: nat)
    ensures AddAll(AddAll(s, d), e) == AddAll(s, d + e)
  {
  }

  /** The size column written on the item of `vertex`. */
  datatype SizeText = SizeText(vertex: nat, size: nat)

  /** What the search writes for a forest of tree edges: each item once the files below it are done, with its own size and theirs. */
  function Finished(ns: seq<Include>, size: nat -> nat): seq<SizeText>
    decreases ns
  {
    if ns == [] then []
    else Finished(ns[0].children, size) + [SizeText(ns[0].vertex, TreeSize(ns[0], size))] + Finished(ns[1..], size)
  }

  class TreeViewBuilder {
    /** `size_stack_`: one running total per file on the current search path. */
    var sizeStack: seq<nat>
    /** `current_` with its chain of parent items, by vertex, root first. */
    var path: seq<nat>
    /** The size column of every finished item, in the order it was written. */
    var sizeTexts: seq<SizeText>

    /** One running total per item on the current path: one for the root and one per tree edge taken. */
    ghost predicate Valid()
      reads this
    {
      |sizeStack| == |path|
    }

    /** ui/dialog.cpp:11-14: no current item yet. */
    constructor ()
      ensures sizeStack == [] && path == [] && sizeTexts == []
      ensures Valid()
    {
      sizeStack := [];
      path := [];
      sizeTexts := [];
    }

    /** ui/dialog.cpp:16-24: a new top-level item for the root, whose running total starts at 0. */
    method StartVertex(v: nat)
      requires Valid()
      modifies this
      ensures sizeStack == old(sizeStack) + [0] && path == old(path) + [v] && sizeTexts == old(sizeTexts)
      ensures Valid()
    {
      path := path + [v];
      sizeStack := sizeStack + [0];
    }

    /**
     * ui/dialog.cpp:26-49: the size of the target is added to the total of
     * every file on the path, then starts the target's own total, under a
     * new child item.
     */
    method TreeEdge(target: nat, size: nat -> nat)
      requires Valid()
      modifies this
      ensures sizeStack == AddAll(old(sizeStack), size(target)) + [size(target)]
      ensures path == old(path) + [target] && sizeTexts == old(sizeTexts)
      ensures Valid()
    {
      var thisSize := size(target);
      var i := 0;
      while i < |sizeStack|
        invariant i <= |sizeStack| == old(|sizeStack|)
        invariant path == old(path) && sizeTexts == old(sizeTexts)
        invariant forall j :: 0 <= j < |sizeStack| ==> sizeStack[j] == old(sizeStack[j]) + (if j < i then thisSize else 0)
      {
        sizeStack := sizeStack[i := sizeStack[i] + thisSize];
        i := i + 1;
      }
      sizeStack := sizeStack + [thisSize];
      path := path + [target];
    }

    /** ui/dialog.cpp:51-58: the current item shows the top total, which is popped, and its parent becomes current. */
    method FinishVertex()
      requires Valid() && path != []
      modifies this
      ensures sizeTexts == old(sizeTexts) + [SizeText(old(path[|path| - 1]), old(sizeStack[|sizeStack| - 1]))]
      ensures sizeStack == old(sizeStack[..|sizeStack| - 1]) && path == old(path[..|path| - 1])
      ensures Valid()
    {
      sizeTexts := sizeTexts + [SizeText(path[|path| - 1], sizeStack[|sizeStack| - 1])];
      sizeStack := sizeStack[..|sizeStack| - 1];
      path := path[..|path| - 1];
    }

    /**
     * A tree edge to `n`, the search below it and the finish of `n`: `n`
     * shows its size with everything below it, and every file on the path
     * has grown by that much.
     */
    method VisitTreeEdge(n: Include, size: nat -> nat)
      requires Valid()
      modifies this
      ensures sizeStack == AddAll(old(sizeStack), TreeSize(n, size)) && path == old(path)
      ensures sizeTexts == old(sizeTexts) + Finished(n.children, size) + [SizeText(n.vertex, TreeSize(n, size))]
      ensures Valid()
      decreases n
    {
      TreeEdge(n.vertex, size);
      VisitTreeEdges(n.children, size);
      assert sizeStack[|sizeStack| - 1] == TreeSize(n, size);
      FinishVertex();
    }

    /** The tree edges leaving one vertex, in order. */
    method VisitTreeEdges(ns: seq<Include>, size: nat -> nat)
      requires Valid()
      modifies this
      ensures sizeStack == AddAll(old(sizeStack), ForestSize(ns, size)) && path == old(path)
      ensures sizeTexts == old(sizeTexts) + Finished(ns, size)
      ensures Valid()
      decreases ns
    {
      if ns == [] {
        assert sizeStack == AddAll(sizeStack, 0);
      } else {
        ghost var stack0, texts0 := sizeStack, sizeTexts;
        VisitTreeEdge(ns[0], size);
        ghost var texts1 := sizeTexts;
        VisitTreeEdges(ns[1..], size);
        AddAllTwice(stack0, TreeSize(ns[0], size), ForestSize(ns[1..], size));
        assert Finished(ns, size) == Finished(ns[0].children, size) + [SizeText(ns[0].vertex, TreeSize(ns[0], size))] + Finished(ns[1..], size);
      }
    }

    /**
     * The search from `root`: every file below the root shows its size with
     * everything below it, and the root, whose total starts at 0, shows the
     * size of everything below it without its own.
     */
    method DepthFirstSearch(root: Include, size: nat -> nat)
      requires Valid()
      modifies this
      ensures sizeStack == AddAll(old(sizeStack), ForestSize(root.children, size)) && path == old(path)
      ensures sizeTexts == old(sizeTexts) + Finished(root.children, size) + [SizeText(root.vertex, ForestSize(root.children, size))]
      ensures Valid()
    {
      StartVertex(root.vertex);
      ghost var stack0 := sizeStack;
      VisitTreeEdges(root.children, size);
      assert sizeStack[..|sizeStack| - 1] == AddAll(stack0[..|stack0| - 1], ForestSize(root.children, size));
      FinishVertex();
    }
  }
}
