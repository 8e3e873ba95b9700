/**
 * The include graph of contrib/cpp_dep/cpp_dep.hpp.
 *
 * A vertex is one included file. The graph is a Boost adjacency list over
 * vectors: a vertex descriptor is an index into the vertex store, handed out
 * in insertion order, and the first vertex added (the root) is index 0.
 * Edges go from the including file to the included one.
 */
module IncludeGraphs {

  /** `include_vertex_t`: one file of the include tree. */
  datatype IncludeVertex = IncludeVertex(
    name: string,
    size: nat,
    sizeDependencies: nat,
    alreadyIncluded: bool)

  /** `include_vertex_t()`: the vertex used for the root of a trace. */
  function DefaultVertex(): (v: IncludeVertex)
    ensures v.name == [] && v.size == 0 && v.sizeDependencies == 0 && !v.alreadyIncluded
  {
    IncludeVertex([], 0, 0, false)
  }

  /** `include_vertex_t(name, size, already_included)`: the dependency total starts at 0. */
  function NewVertex(name: string, size: nat, alreadyIncluded: bool): (v: IncludeVertex)
    ensures v.name == name && v.size == size && v.alreadyIncluded == alreadyIncluded
    ensures v.sizeDependencies == 0
  {
    IncludeVertex(name, size, 0, alreadyIncluded)
  }

  /** A directed edge between two vertex descriptors. */
  datatype IncludeEdge = IncludeEdge(source: nat, target: nat)

  /**
   * The shape every parse produces: vertex 0 is the root and the j-th edge
   * is the one in-edge of vertex j + 1, coming from a vertex added before it.
   */
  ghost predicate TreeShaped(vs: seq<IncludeVertex>, es: seq<IncludeEdge>)
  {
    |vs| == |es| + 1 &&
    forall j :: 0 <= j < |es| ==> es[j].target == j + 1 && es[j].source <= j
  }

  /** `vs1` keeps every vertex of `vs`, each with its name, size and flag (its dependency total may differ). */
  ghost predicate Extends(vs: seq<IncludeVertex>, vs1: seq<IncludeVertex>)
  {
    |vs| <= |vs1| &&
    forall i :: 0 <= i < |vs| ==>
      vs1[i].name == vs[i].name && vs1[i].size == vs[i].size &&
      vs1[i].alreadyIncluded == vs[i].alreadyIncluded
  }

  /** The names of a run of vertices, in store order. */
  function Names(vs: seq<IncludeVertex>): (names: seq<string>)
    ensures |names| == |vs|
    ensures forall i :: 0 <= i < |vs| ==> names[i] == vs[i].name
  {
    seq(|vs|, i requires 0 <= i < |vs| => vs[i].name)
  }

  /** Total of the own sizes of a run of vertices. */
  function SumSizes(vs: seq<IncludeVertex>): nat
  {
    if vs == [] then 0 else SumSizes(vs[..|vs| - 1]) + vs[|vs| - 1].size
  }

  /** What a child contributes to its parent's total: its own size and everything below it. */
  function Weight(vs: seq<IncludeVertex>, t: nat): nat
  {
    if t < |vs| then vs[t].size + vs[t].sizeDependencies else 0
  }

  /** Sum of the weights of the targets of the first `hi` edges that leave `p`. */
  function ChildTotalUpTo(vs: seq<IncludeVertex>, es: seq<IncludeEdge>, p: nat, hi: nat): nat
    requires hi <= |es|
  {
    if hi == 0 then 0
    else
      ChildTotalUpTo(vs, es, p, hi - 1) +
      (if es[hi - 1].source == p then Weight(vs, es[hi - 1].target) else 0)
  }

  /** Sum over the direct children of `p` of (child size + child dependency total). */
  function ChildTotal(vs: seq<IncludeVertex>, es: seq<IncludeEdge>, p: nat): nat
  {
    ChildTotalUpTo(vs, es, p, |es|)
  }

  /** Every vertex from `lo` on carries the total of its children as its dependency size. */
  ghost predicate ClosedFrom(vs: seq<IncludeVertex>, es: seq<IncludeEdge>, lo: nat)
  {
    forall v :: lo <= v < |vs| ==> vs[v].sizeDependencies == ChildTotal(vs, es, v)
  }

  // ---------------------------------------------------------------------------
  // Facts about the sums.

  /** Sizes add up over concatenation. */
  lemma {:induction false} SumSizesAppend(a: seq<IncludeVertex>, b: seq<IncludeVertex>)
    ensures SumSizes(a + b) == SumSizes(a) + SumSizes(b)
    decreases |b|
  {
    if b == [] {
      assert a + b == a;
    } else {
      var b' := b[..|b| - 1];
      assert (a + b)[..|a + b| - 1] == a + b';
      SumSizesAppend(a, b');
    }
  }

  /** The size total depends on the sizes alone. */
  lemma {:induction false} SumSizesSame(a: seq<IncludeVertex>, b: seq<IncludeVertex>)
    requires |a| == |b|
    requires forall i :: 0 <= i < |a| ==> a[i].size == b[i].size
    ensures SumSizes(a) == SumSizes(b)
    decreases |a|
  {
    if a != [] {
      SumSizesSame(a[..|a| - 1], b[..|b| - 1]);
    }
  }

  /** Edges that do not leave `p` add nothing to its total. */
  lemma {:induction false} ChildTotalSkip(vs: seq<IncludeVertex>, es: seq<IncludeEdge>, p: nat, lo: nat, hi: nat)
    requires lo <= hi <= |es|
    requires forall j :: lo <= j < hi ==> es[j].source != p
    ensures ChildTotalUpTo(vs, es, p, hi) == ChildTotalUpTo(vs, es, p, lo)
    decreases hi - lo
  {
    if lo < hi {
      ChildTotalSkip(vs, es, p, lo, hi - 1);
    }
  }

  /** The total of `p` only looks at the edges leaving `p` and at the weights of their targets. */
  lemma {:induction false} ChildTotalFrame(
    vs: seq<IncludeVertex>, es: seq<IncludeEdge>, vs1: seq<IncludeVertex>, es1: seq<IncludeEdge>, p: nat, hi: nat)
    requires hi <= |es| && hi <= |es1|
    requires forall j :: 0 <= j < hi ==> es1[j] == es[j]
    requires forall j :: 0 <= j < hi && es[j].source == p ==> Weight(vs1, es[j].target) == Weight(vs, es[j].target)
    ensures ChildTotalUpTo(vs1, es1, p, hi) == ChildTotalUpTo(vs, es, p, hi)
  {
    if hi > 0 {
      ChildTotalFrame(vs, es, vs1, es1, p, hi - 1);
    }
  }

  /**
   * Changing the weight of one vertex `c` of a tree changes the total of its
   * parent by the same amount and leaves every other total alone.
   */
  lemma {:induction false} ChildTotalBump(
    vs: seq<IncludeVertex>, vs1: seq<IncludeVertex>, es: seq<IncludeEdge>, p: nat, c: nat, hi: nat)
    requires hi <= |es|
    requires forall j :: 0 <= j < hi ==> es[j].target == j + 1
    requires 1 <= c
    requires forall t :: 1 <= t <= hi && t != c ==> Weight(vs1, t) == Weight(vs, t)
    ensures ChildTotalUpTo(vs1, es, p, hi) + (if c - 1 < hi && es[c - 1].source == p then Weight(vs, c) else 0)
         == ChildTotalUpTo(vs, es, p, hi) + (if c - 1 < hi && es[c - 1].source == p then Weight(vs1, c) else 0)
  {
    if hi > 0 {
      ChildTotalBump(vs, vs1, es, p, c, hi - 1);
    }
  }

  // ---------------------------------------------------------------------------
  // The graph as the parser sees it: a store it appends to in place.

  /** `include_graph_t`: vertex and edge stores of a `vecS` adjacency list. */
  class IncludeGraph {
    var vertices: seq<IncludeVertex>
    var edges: seq<IncludeEdge>

    /** An empty graph. */
    constructor ()
      ensures vertices == [] && edges == []
    {
      vertices := [];
      edges := [];
    }

    /** `boost::add_vertex`: the new descriptor is the next free index. */
    method AddVertex(v: IncludeVertex) returns (d: nat)
      modifies this
      ensures vertices == old(vertices) + [v] && edges == old(edges)
      ensures d == old(|vertices|) && d < |vertices|
    {
      d := |vertices|;
      vertices := vertices + [v];
    }

    /** `boost::add_edge`: a `vecS` edge list accepts every edge, parallel ones included. */
    method AddEdge(source: nat, target: nat) returns (inserted: bool)
      requires source < |vertices| && target < |vertices|
      modifies this
      ensures edges == old(edges) + [IncludeEdge(source, target)] && vertices == old(vertices)
      ensures inserted
    {
      edges := edges + [IncludeEdge(source, target)];
      inserted := true;
    }
  }
}
