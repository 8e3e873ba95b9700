/**
 * `filtered_tree_view_builder` of src/ui/filtered_tree_view_builder.hpp:
 * decides, vertex by vertex, which files of the include graph the filtered
 * view keeps: those that pass the filter and every file on the include path
 * to one of them.
 *
 * `filter_func_(v, g)` is the parameter `pass`. Building the Qt view from
 * the decision (`tree_view_builder_base`) is not part of this model.
 */
module FilteredTreeViewBuilder {
  import opened IncludeTraversals
  import opened Vectors

  /** `filter_builder`: walks the includes and marks the vertices to keep. */
  class FilterBuilder {
    /** Vertices of the includes entered and not yet left, root first. */
    var vertexStack: seq<nat>
    /** `keepers_`: the caller's flags, one per vertex. */
    var keepers: seq<bool>
    /** `visited_`: the vertices the walk has entered. */
    var visited: seq<bool>

    /** The stack only holds vertices that have a flag. */
    ghost predicate Valid()
      reads this
    {
      forall j :: 0 <= j < |vertexStack| ==> vertexStack[j] < |keepers|
    }

    /** src/ui/filtered_tree_view_builder.hpp:49-52: the builder writes into the caller's `keepers`; nothing is visited yet. */
    constructor (keepers: seq<bool>)
      ensures this.keepers == keepers && vertexStack == [] && visited == []
      ensures Valid()
    {
      this.keepers := keepers;
      vertexStack := [];
      visited := [];
    }

    /** src/ui/filtered_tree_view_builder.hpp:54-58: one visited flag per vertex, then the root goes on the stack. */
    method RootFile(v: nat, numVertices: nat)
      requires Valid() && v < |keepers|
      modifies this
      ensures visited == Resize(old(visited), numVertices, false)
      ensures vertexStack == old(vertexStack) + [v] && keepers == old(keepers)
      ensures Valid()
    {
      visited := Resize(visited, numVertices, false);
      vertexStack := vertexStack + [v];
    }

    /**
     * src/ui/filtered_tree_view_builder.hpp:60-81: the vertex is marked
     * visited; when it passes, it and every vertex on the stack are kept
     * (the whole stack, whatever its top says); no flag is cleared. The
     * vertex then goes on the stack.
     */
    method IncludeFile(v: nat, passes: bool)
      requires Valid() && v < |keepers| && v < |visited|
      modifies this
      ensures vertexStack == old(vertexStack) + [v]
      ensures visited == old(visited)[v := true] && |keepers| == old(|keepers|)
      ensures forall u :: 0 <= u < |keepers| ==>
        keepers[u] == (old(keepers[u]) || (passes && (u == v || u in old(vertexStack))))
      ensures Valid()
    {
      visited := visited[v := true];
      if passes {
        keepers := keepers[v := true];
        var j := 0;
        while j < |vertexStack|
          invariant j <= |vertexStack| && |keepers| == old(|keepers|)
          invariant vertexStack == old(vertexStack) && visited == old(visited)[v := true]
          invariant forall u :: 0 <= u < |keepers| ==>
            keepers[u] == (old(keepers[u]) || u == v || u in vertexStack[..j])
        {
          assert vertexStack[..j + 1] == vertexStack[..j] + [vertexStack[j]];
          keepers := keepers[vertexStack[j] := true];
          j := j + 1;
        }
        assert vertexStack[..j] == vertexStack;
      }
      vertexStack := vertexStack + [v];
    }

    /** src/ui/filtered_tree_view_builder.hpp:83-86: leaving an include pops its vertex. */
    method FinishFile()
      requires Valid() && vertexStack != []
      modifies this
      ensures vertexStack == old(vertexStack[..|vertexStack| - 1])
      ensures keepers == old(keepers) && visited == old(visited)
      ensures Valid()
    {
      vertexStack := vertexStack[..|vertexStack| - 1];
    }

    /**
     * Entering `n`, walking the includes below it and leaving it: every
     * vertex at or below `n` is visited, the vertices of the kept includes
     * at and below it are kept, and so are the vertices on the stack when
     * `n` is kept. The stack is as before.
     */
    method VisitInclude(n: Include, pass: nat -> bool)
      requires Valid() && |visited| == |keepers|
      requires n.vertex < |keepers| && VerticesWithin(n.children, |keepers|)
      modifies this
      ensures vertexStack == old(vertexStack) && |keepers| == old(|keepers|) && |visited| == |keepers|
      ensures forall u :: 0 <= u < |keepers| ==>
        keepers[u] == (old(keepers[u]) || u in ShownVertices(n.children, pass) ||
                       (Shown(n, pass) && (u == n.vertex || u in old(vertexStack))))
      ensures forall u :: 0 <= u < |visited| ==>
        visited[u] == (old(visited[u]) || u == n.vertex || u in Vertices(n.children))
      ensures Valid()
      decreases n
    {
      IncludeFile(n.vertex, pass(n.vertex));
      VisitIncludes(n.children, pass);
      FinishFile();
    }

    /** Walking a forest of includes in order, each one entered and left in turn. */
    method VisitIncludes(ns: seq<Include>, pass: nat -> bool)
      requires Valid() && |visited| == |keepers| && VerticesWithin(ns, |keepers|)
      modifies this
      ensures vertexStack == old(vertexStack) && |keepers| == old(|keepers|) && |visited| == |keepers|
      ensures forall u :: 0 <= u < |keepers| ==>
        keepers[u] == (old(keepers[u]) || u in ShownVertices(ns, pass) || (AnyShown(ns, pass) && u in old(vertexStack)))
      ensures forall u :: 0 <= u < |visited| ==>
        visited[u] == (old(visited[u]) || u in Vertices(ns))
      ensures Valid()
      decreases ns
    {
      if ns != [] {
        VisitInclude(ns[0], pass);
        VisitIncludes(ns[1..], pass);
      }
    }

    /** `filter_builder::operator()`: the whole walk, from `root_file` on the root to its `finish_file`. */
    method Visit(root: Include, numVertices: nat, pass: nat -> bool)
      requires Valid() && |keepers| == numVertices
      requires root.vertex < numVertices && VerticesWithin(root.children, numVertices)
      modifies this
      ensures vertexStack == old(vertexStack) && |keepers| == numVertices && |visited| == numVertices
      ensures forall u :: 0 <= u < numVertices ==>
        keepers[u] == (old(keepers[u]) || u in ShownVertices(root.children, pass) ||
                       (AnyShown(root.children, pass) && (u == root.vertex || u in old(vertexStack))))
      ensures forall u :: 0 <= u < numVertices ==>
        visited[u] == ((u < |old(visited)| && old(visited[u])) || u in Vertices(root.children))
      ensures Valid()
    {
      RootFile(root.vertex, numVertices);
      VisitIncludes(root.children, pass);
      FinishFile();
    }
  }

  /** `filter_applier`: the view builder asks it, vertex by vertex, whether to show a file. */
  class FilterApplier {
    const keepers: seq<bool>

    constructor (keepers: seq<bool>)
      ensures this.keepers == keepers
    {
      this.keepers := keepers;
    }

    /** src/ui/filtered_tree_view_builder.hpp:101-104: a vertex is shown when it was kept. */
    predicate Filter(v: nat)
      requires v < |keepers|
    {
      keepers[v]
    }
  }

  /**
   * `filtered_tree_view_builder::operator()`
   * (src/ui/filtered_tree_view_builder.hpp:29-37): all `numVertices` flags
   * start false, the walk sets them, and the applier shows exactly the
   * vertices of kept includes: those passing the filter, those with a
   * passing include below them, and the root when anything below it passes.
   */
  method BuildFilteredTreeView(root: Include, numVertices: nat, pass: nat -> bool) returns (apply: FilterApplier)
    requires root.vertex < numVertices && VerticesWithin(root.children, numVertices)
    ensures |apply.keepers| == numVertices
    ensures forall v :: 0 <= v < numVertices ==>
      (apply.Filter(v) <==> v in ShownVertices(root.children, pass) || (v == root.vertex && AnyShown(root.children, pass)))
  {
    var keepers := seq(numVertices, _ => false);
    var build := new FilterBuilder(keepers);
    build.Visit(root, numVertices, pass);
    apply := new FilterApplier(build.keepers);
  }
}
