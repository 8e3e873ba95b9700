/**
 * The include tree as the views walk it.
 *
 * The views of src/ui do not walk the graph themselves: a visitor base
 * (`inferred_include_visitor`, which is not part of this model) calls
 * `root_file` on the root, then, in depth-first preorder, `include_file` on
 * entering each further include and `finish_file` on leaving it, and last
 * `finish_file` on the root. While it does so it can say which widget item
 * the current include is (`get_current_include_index`). An `Include` is
 * one node of that walk; the callbacks are driven over it by the views'
 * own `Visit` methods.
 */
module IncludeTraversals {

  /** One include met by the walk: its widget item, the graph vertex it shows, and the includes below it, in order. */
  datatype Include = Include(index: nat, vertex: nat, children: seq<Include>)

  /** Every include of the forest names an item below `numItems`. */
  ghost predicate ItemsWithin(ns: seq<Include>, numItems: nat)
    decreases ns
  {
    ns != [] ==>
      ns[0].index < numItems && ItemsWithin(ns[0].children, numItems) && ItemsWithin(ns[1..], numItems)
  }

  /** Every include of the forest shows a vertex below `numVertices`. */
  ghost predicate VerticesWithin(ns: seq<Include>, numVertices: nat)
    decreases ns
  {
    ns != [] ==>
      ns[0].vertex < numVertices && VerticesWithin(ns[0].children, numVertices) && VerticesWithin(ns[1..], numVertices)
  }

  /** The vertices shown anywhere in the forest. */
  function Vertices(ns: seq<Include>): set<nat>
    decreases ns
  {
    if ns == [] then {} else {ns[0].vertex} + Vertices(ns[0].children) + Vertices(ns[1..])
  }

  /** The items of the forest. */
  function Indices(ns: seq<Include>): set<nat>
    decreases ns
  {
    if ns == [] then {} else {ns[0].index} + Indices(ns[0].children) + Indices(ns[1..])
  }

  /** No two includes of the forest share an item, as when the items are numbered in walk order. */
  ghost predicate DistinctIndices(ns: seq<Include>)
    decreases ns
  {
    ns != [] ==>
      ns[0].index !in Indices(ns[0].children) && ns[0].index !in Indices(ns[1..]) &&
      Indices(ns[0].children) !! Indices(ns[1..]) &&
      DistinctIndices(ns[0].children) && DistinctIndices(ns[1..])
  }

  /** An include is kept on screen when its vertex passes the filter or one of the includes below it is kept. */
  predicate Shown(n: Include, pass: nat -> bool)
    decreases n
  {
    pass(n.vertex) || AnyShown(n.children, pass)
  }

  /** Some include of the forest is kept. */
  predicate AnyShown(ns: seq<Include>, pass: nat -> bool)
    decreases ns
  {
    ns != [] && (Shown(ns[0], pass) || AnyShown(ns[1..], pass))
  }

  /** The items of the kept includes of the forest. */
  function ShownIndices(ns: seq<Include>, pass: nat -> bool): set<nat>
    decreases ns
  {
    if ns == [] then {}
    else (if Shown(ns[0], pass) then {ns[0].index} else {}) + ShownIndices(ns[0].children, pass) + ShownIndices(ns[1..], pass)
  }

  /** The vertices of the kept includes of the forest. */
  function ShownVertices(ns: seq<Include>, pass: nat -> bool): set<nat>
    decreases ns
  {
    if ns == [] then {}
    else (if Shown(ns[0], pass) then {ns[0].vertex} else {}) + ShownVertices(ns[0].children, pass) + ShownVertices(ns[1..], pass)
  }

  /** A forest holds a kept include exactly when one of its vertices passes the filter. */
  lemma {:induction false} AnyShownIffSomePasses(ns: seq<Include>, pass: nat -> bool)
    ensures AnyShown(ns, pass) <==> exists v :: v in Vertices(ns) && pass(v)
    decreases ns
  {
    if ns != [] {
      AnyShownIffSomePasses(ns[0].children, pass);
      AnyShownIffSomePasses(ns[1..], pass);
      if AnyShown(ns, pass) {
        if pass(ns[0].vertex) {
          assert ns[0].vertex in Vertices(ns);
        } else if AnyShown(ns[0].children, pass) {
          var v :| v in Vertices(ns[0].children) && pass(v);
          assert v in Vertices(ns);
        } else {
          var v :| v in Vertices(ns[1..]) && pass(v);
          assert v in Vertices(ns);
        }
      }
    }
  }

  /** Every kept include is itself in the forest: its vertex is one the walk shows. */
  lemma {:induction false} ShownVerticesShown(ns: seq<Include>, pass: nat -> bool)
    ensures ShownVertices(ns, pass) <= Vertices(ns)
    ensures AnyShown(ns, pass) <==> ShownVertices(ns, pass) != {}
    decreases ns
  {
    if ns != [] {
      ShownVerticesShown(ns[0].children, pass);
      ShownVerticesShown(ns[1..], pass);
    }
  }
}
