/**
 * What the include-trace parser of contrib/cpp_dep/cpp_dep.cpp computes,
 * stated on the list of trace lines rather than on the text.
 *
 * `ParseCall` is one call of `read_deps_file_recursive`: it reads lines
 * while they nest below its depth, makes every line one level down a child
 * of `parent`, hands a deeper line to a nested call on the vertex added
 * last, and stops without reading a line at its depth or above. On the way
 * out it stores the total size of what it added as the dependency size of
 * `parent`. `ParseCallSound` proves what such a call achieves (`CallDone`).
 */
module TraceParse {
  import opened TraceScan
  import opened IncludeGraphs


  /** The new vertices from `lo` on have the size the size lookup gives for their name and are not marked as repeats. */
  ghost predicate SizedBy(vs: seq<IncludeVertex>, lo: nat, fileSize: string -> nat)
  {
    forall i :: lo <= i < |vs| ==> vs[i].size == fileSize(vs[i].name) && !vs[i].alreadyIncluded
  }

  /**
   * What one call may do to the graph it starts from, on any trace: it keeps
   * the tree shape and every existing vertex and edge, it changes the
   * dependency size of no vertex other than `parent` and the root, and every
   * edge it adds leaves `parent`, the root or a vertex it added itself.
   */
  ghost predicate Grown(
    vs0: seq<IncludeVertex>, es0: seq<IncludeEdge>, parent: nat, vs: seq<IncludeVertex>, es: seq<IncludeEdge>)
  {
    TreeShaped(vs, es) && Extends(vs0, vs) &&
    |es0| <= |es| && (forall j :: 0 <= j < |es0| ==> es[j] == es0[j]) &&
    (forall i :: 0 <= i < |vs0| && i != parent && i != 0 ==> vs[i] == vs0[i]) &&
    (forall j :: |es0| <= j < |es| ==> es[j].source == parent || es[j].source == 0 || |vs0| <= es[j].source)
  }

  /**
   * What one call does on a well-nested trace: no existing vertex other than
   * `parent` changes, every new edge leaves `parent` or a new vertex, and
   * every new vertex carries the total of its children.
   */
  ghost predicate GrownNested(
    vs0: seq<IncludeVertex>, es0: seq<IncludeEdge>, parent: nat, vs: seq<IncludeVertex>, es: seq<IncludeEdge>)
  {
    |vs0| <= |vs| &&
    (forall i :: 0 <= i < |vs0| && i != parent ==> vs[i] == vs0[i]) &&
    (forall j :: |es0| <= j < |es| ==> es[j].source == parent || |vs0| <= es[j].source) &&
    ClosedFrom(vs, es, |vs0|)
  }

  // ---------------------------------------------------------------------------
  // One step of the parse loop, on graph values.

  /** Adding a child of `parent` (cpp_dep.cpp:108-112) keeps what a call promises and adds its size. */
  lemma AddChild(
    vs0: seq<IncludeVertex>, es0: seq<IncludeEdge>, parent: nat,
    vs: seq<IncludeVertex>, es: seq<IncludeEdge>, v: IncludeVertex, fileSize: string -> nat)
    requires parent < |vs0|
    requires Grown(vs0, es0, parent, vs, es) && SizedBy(vs, |vs0|, fileSize)
    requires v.size == fileSize(v.name) && !v.alreadyIncluded
    ensures Grown(vs0, es0, parent, vs + [v], es + [IncludeEdge(parent, |vs|)])
    ensures SizedBy(vs + [v], |vs0|, fileSize)
    ensures SumSizes((vs + [v])[|vs0|..]) == SumSizes(vs[|vs0|..]) + v.size
    ensures Names((vs + [v])[|vs0|..]) == Names(vs[|vs0|..]) + [v.name]
  {
    assert (vs + [v])[|vs0|..] == vs[|vs0|..] + [v];
    SumSizesAppend(vs[|vs0|..], [v]);
    assert SumSizes([v]) == SumSizes([]) + v.size;
  }

  /** On a well-nested trace, the new child is a closed leaf and raises the parent's total by its size. */
  lemma AddChildNested(
    vs0: seq<IncludeVertex>, es0: seq<IncludeEdge>, parent: nat,
    vs: seq<IncludeVertex>, es: seq<IncludeEdge>, v: IncludeVertex)
    requires parent < |vs0| && v.sizeDependencies == 0
    requires Grown(vs0, es0, parent, vs, es) && GrownNested(vs0, es0, parent, vs, es)
    ensures GrownNested(vs0, es0, parent, vs + [v], es + [IncludeEdge(parent, |vs|)])
    ensures ChildTotal(vs + [v], es + [IncludeEdge(parent, |vs|)], parent) == ChildTotal(vs, es, parent) + v.size
  {
    var vs1, es1 := vs + [v], es + [IncludeEdge(parent, |vs|)];
    forall w | 0 <= w < |vs|
      ensures ChildTotalUpTo(vs1, es1, w, |es|) == ChildTotal(vs, es, w)
    {
      ChildTotalFrame(vs, es, vs1, es1, w, |es|);
    }
    forall w | |vs0| <= w < |vs1|
      ensures vs1[w].sizeDependencies == ChildTotal(vs1, es1, w)
    {
      if w < |vs| {
        assert vs1[w] == vs[w];
      } else {
        ChildTotalSkip(vs1, es1, w, 0, |es1|);
      }
    }
  }

  /**
   * A nested call on `c` (cpp_dep.cpp:115-128) keeps what the caller
   * promises about the graph.
   */
  lemma Recurse(
    vs0: seq<IncludeVertex>, es0: seq<IncludeEdge>, parent: nat,
    vs: seq<IncludeVertex>, es: seq<IncludeEdge>, c: nat,
    vs1: seq<IncludeVertex>, es1: seq<IncludeEdge>, fileSize: string -> nat)
    requires parent < |vs0| && (c == 0 || |vs0| <= c)
    requires Grown(vs0, es0, parent, vs, es) && SizedBy(vs, |vs0|, fileSize)
    requires Grown(vs, es, c, vs1, es1) && SizedBy(vs1, |vs|, fileSize)
    ensures Grown(vs0, es0, parent, vs1, es1)
    ensures SizedBy(vs1, |vs0|, fileSize)
  {
  }

  /** The vertices a nested call adds follow the caller's, by name and by size. */
  lemma RecurseTotals(vs: seq<IncludeVertex>, vs1: seq<IncludeVertex>, n0: nat)
    requires n0 <= |vs| && Extends(vs, vs1)
    ensures SumSizes(vs1[n0..]) == SumSizes(vs[n0..]) + SumSizes(vs1[|vs|..])
    ensures Names(vs1[n0..]) == Names(vs[n0..]) + Names(vs1[|vs|..])
  {
    assert vs1[n0..] == vs1[n0..|vs|] + vs1[|vs|..];
    SumSizesAppend(vs1[n0..|vs|], vs1[|vs|..]);
    SumSizesSame(vs1[n0..|vs|], vs[n0..]);
    assert Names(vs1[n0..|vs|]) == Names(vs[n0..]);
  }

  /**
   * On a well-nested trace the nested call is on the child just added, so
   * the dependency size it stores for that child is exactly the amount by
   * which the parent's total grows.
   */
  lemma RecurseNested(
    vs0: seq<IncludeVertex>, es0: seq<IncludeEdge>, parent: nat,
    vs: seq<IncludeVertex>, es: seq<IncludeEdge>, c: nat,
    vs1: seq<IncludeVertex>, es1: seq<IncludeEdge>)
    requires parent < |vs0| <= c && c + 1 == |vs|
    requires Grown(vs0, es0, parent, vs, es) && GrownNested(vs0, es0, parent, vs, es)
    requires es[c - 1].source == parent && vs[c].sizeDependencies == 0
    requires Grown(vs, es, c, vs1, es1) && GrownNested(vs, es, c, vs1, es1)
    requires vs1[c].sizeDependencies == ChildTotal(vs1, es1, c)
    ensures GrownNested(vs0, es0, parent, vs1, es1)
    ensures ChildTotal(vs1, es1, parent) == ChildTotal(vs, es, parent) + vs1[c].sizeDependencies
  {
    assert Weight(vs1, c) == Weight(vs, c) + vs1[c].sizeDependencies;
    forall w | 0 <= w < |vs| && w != c
      ensures ChildTotal(vs1, es1, w) == ChildTotal(vs, es, w) + (if w == parent then vs1[c].sizeDependencies else 0)
    {
      ChildTotalSkip(vs1, es1, w, |es|, |es1|);
      ChildTotalFrame(vs1, es, vs1, es1, w, |es|);
      ChildTotalBump(vs, vs1, es, w, c, |es|);
    }
  }

  /** The store of the parent's dependency size at the end of a call (cpp_dep.cpp:132). */
  lemma FinalWrite(
    vs0: seq<IncludeVertex>, es0: seq<IncludeEdge>, parent: nat,
    vs: seq<IncludeVertex>, es: seq<IncludeEdge>, x: nat, fileSize: string -> nat)
    requires parent < |vs0|
    requires Grown(vs0, es0, parent, vs, es) && SizedBy(vs, |vs0|, fileSize)
    ensures Grown(vs0, es0, parent, vs[parent := vs[parent].(sizeDependencies := x)], es)
    ensures SizedBy(vs[parent := vs[parent].(sizeDependencies := x)], |vs0|, fileSize)
    ensures vs[parent := vs[parent].(sizeDependencies := x)][|vs0|..] == vs[|vs0|..]
  {
  }

  /** On a well-nested trace, storing the parent's total leaves every total the same. */
  lemma FinalWriteNested(
    vs0: seq<IncludeVertex>, es0: seq<IncludeEdge>, parent: nat,
    vs: seq<IncludeVertex>, es: seq<IncludeEdge>, x: nat)
    requires parent + 1 == |vs0|
    requires Grown(vs0, es0, parent, vs, es) && GrownNested(vs0, es0, parent, vs, es)
    ensures GrownNested(vs0, es0, parent, vs[parent := vs[parent].(sizeDependencies := x)], es)
    ensures ChildTotal(vs[parent := vs[parent].(sizeDependencies := x)], es, parent) == ChildTotal(vs, es, parent)
  {
    var vs1 := vs[parent := vs[parent].(sizeDependencies := x)];
    forall w | parent <= w < |vs|
      ensures ChildTotal(vs1, es, w) == ChildTotal(vs, es, w)
    {
      ChildTotalFrame(vs, es, vs1, es, w, |es|);
    }
  }

  // ---------------------------------------------------------------------------
  // What a call achieves.

  /**
   * A call on `parent` at `depth`, given the lines `ls` from where it
   * starts and the graph (`vs0`, `es0`), that read `consumed` lines and
   * returned the graph (`vs1`, `es1`):
   *  - it stopped at the end of the trace or at a line at `depth` or above,
   *    which it left unread; a call that starts on such a line reads nothing;
   *  - it added one vertex per line it read that is below `depth` and names
   *    a file, in the order of the lines, sized by the size lookup, and kept
   *    the tree shape;
   *  - the dependency size of `parent` is the sum of the sizes of all the
   *    vertices it added;
   *  - on a well-nested trace, started on a vertex without children, every
   *    vertex it added and `parent` itself carry the total of their children,
   *    and the lines after the ones it read are still well nested.
   */
  ghost predicate CallDone(
    fileSize: string -> nat, parent: nat, depth: nat, ls: seq<Line>,
    vs0: seq<IncludeVertex>, es0: seq<IncludeEdge>, vs1: seq<IncludeVertex>, es1: seq<IncludeEdge>, consumed: nat)
  {
    consumed <= |ls| && parent < |vs0| &&
    (consumed == |ls| || 1 <= ls[consumed].depth <= depth) &&
    ((ls == [] || 1 <= ls[0].depth <= depth) ==> consumed == 0) &&
    Grown(vs0, es0, parent, vs1, es1) &&
    Names(vs1[|vs0|..]) == Files(ls[..consumed]) &&
    SizedBy(vs1, |vs0|, fileSize) &&
    vs1[parent].sizeDependencies == SumSizes(vs1[|vs0|..]) &&
    (WellNested(ls, depth) && parent + 1 == |vs0| ==>
      GrownNested(vs0, es0, parent, vs1, es1) &&
      vs1[parent].sizeDependencies == ChildTotal(vs1, es1, parent) &&
      WellNested(ls[consumed..], depth))
  }

  // ---------------------------------------------------------------------------
  // The state of one call between two lines of the trace.

  /**
   * The state of a call on `parent` at `depth`, given the lines `ls` from
   * where it started and the graph (`vs0`, `es0`), after it has read `k`
   * lines: the vertices it added are the files those lines name, in order,
   * and `subTree` is the sum of their sizes. On a well-nested trace,
   * `subTree` is also the total of `parent`'s children, and the next line may
   * go at most one level below `depth` + 1, or below `depth` + 2 right after
   * a child was added.
   */
  ghost predicate LoopState(
    fileSize: string -> nat, parent: nat, depth: nat, ls: seq<Line>,
    vs0: seq<IncludeVertex>, es0: seq<IncludeEdge>,
    vs: seq<IncludeVertex>, es: seq<IncludeEdge>, subTree: nat, lastAdded: nat, k: nat)
  {
    k <= |ls| && parent < |vs0| &&
    ((ls == [] || 1 <= ls[0].depth <= depth) ==> k == 0) &&
    Grown(vs0, es0, parent, vs, es) && SizedBy(vs, |vs0|, fileSize) &&
    (lastAdded == 0 || |vs0| <= lastAdded < |vs|) &&
    Names(vs[|vs0|..]) == Files(ls[..k]) &&
    subTree == SumSizes(vs[|vs0|..]) &&
    (WellNested(ls, depth) && parent + 1 == |vs0| ==>
      GrownNested(vs0, es0, parent, vs, es) && vs[parent] == vs0[parent] &&
      subTree == ChildTotal(vs, es, parent) &&
      WellNested(ls[k..], depth + 1) &&
      (WellNested(ls[k..], depth) ||
       (|vs0| <= lastAdded && lastAdded + 1 == |vs| &&
        es[lastAdded - 1].source == parent && vs[lastAdded].sizeDependencies == 0)))
  }

  /** Before the first line. */
  lemma StartState(
    fileSize: string -> nat, parent: nat, depth: nat, ls: seq<Line>, vs0: seq<IncludeVertex>, es0: seq<IncludeEdge>)
    requires parent < |vs0| && TreeShaped(vs0, es0)
    ensures LoopState(fileSize, parent, depth, ls, vs0, es0, vs0, es0, 0, 0, 0)
  {
    assert vs0[|vs0|..] == [] && ls[..0] == [] && ls[0..] == ls;
    if WellNested(ls, depth) && parent + 1 == |vs0| {
      WellNestedWeaken(ls, depth, depth + 1);
      ChildTotalSkip(vs0, es0, parent, 0, |es0|);
    }
  }

  /** Reading one more line extends the names read by that line's name, if it has one. */
  lemma ReadOneLine(ls: seq<Line>, k: nat)
    requires k < |ls|
    ensures Files(ls[..k + 1]) == Files(ls[..k]) + LineFiles(ls[k])
    ensures ls[k..][0] == ls[k] && ls[k..][1..] == ls[k + 1..]
  {
    assert ls[..k + 1][..k] == ls[..k];
  }

  /** A line without depth marks is skipped (cpp_dep.cpp:78-83). */
  lemma NoiseStep(
    fileSize: string -> nat, parent: nat, depth: nat, ls: seq<Line>,
    vs0: seq<IncludeVertex>, es0: seq<IncludeEdge>,
    vs: seq<IncludeVertex>, es: seq<IncludeEdge>, subTree: nat, lastAdded: nat, k: nat)
    requires LoopState(fileSize, parent, depth, ls, vs0, es0, vs, es, subTree, lastAdded, k)
    requires k < |ls| && ls[k].depth == 0
    ensures LoopState(fileSize, parent, depth, ls, vs0, es0, vs, es, subTree, lastAdded, k + 1)
  {
    ReadOneLine(ls, k);
    assert Files(ls[..k]) + [] == Files(ls[..k]);
  }

  /** A line one level down whose path is empty is read and dropped (cpp_dep.cpp:105-106). */
  lemma EmptyPathStep(
    fileSize: string -> nat, parent: nat, depth: nat, ls: seq<Line>,
    vs0: seq<IncludeVertex>, es0: seq<IncludeEdge>,
    vs: seq<IncludeVertex>, es: seq<IncludeEdge>, subTree: nat, lastAdded: nat, k: nat)
    requires LoopState(fileSize, parent, depth, ls, vs0, es0, vs, es, subTree, lastAdded, k)
    requires k < |ls| && ls[k].depth == depth + 1 && ls[k].path == []
    ensures LoopState(fileSize, parent, depth, ls, vs0, es0, vs, es, subTree, lastAdded, k + 1)
  {
    ReadOneLine(ls, k);
    assert Files(ls[..k]) + [] == Files(ls[..k]);
  }

  /** A line one level down that names a file becomes a child of `parent` (cpp_dep.cpp:91-114). */
  lemma ChildStep(
    fileSize: string -> nat, parent: nat, depth: nat, ls: seq<Line>,
    vs0: seq<IncludeVertex>, es0: seq<IncludeEdge>,
    vs: seq<IncludeVertex>, es: seq<IncludeEdge>, subTree: nat, lastAdded: nat, k: nat,
    vs1: seq<IncludeVertex>, es1: seq<IncludeEdge>, subTree1: nat, lastAdded1: nat)
    requires LoopState(fileSize, parent, depth, ls, vs0, es0, vs, es, subTree, lastAdded, k)
    requires k < |ls| && ls[k].depth == depth + 1 && ls[k].path != []
    requires vs1 == vs + [NewVertex(ls[k].path, fileSize(ls[k].path), false)]
    requires es1 == es + [IncludeEdge(parent, |vs|)]
    requires subTree1 == subTree + fileSize(ls[k].path) && lastAdded1 == |vs|
    ensures LoopState(fileSize, parent, depth, ls, vs0, es0, vs1, es1, subTree1, lastAdded1, k + 1)
  {
    var file := ls[k].path;
    var v := NewVertex(file, fileSize(file), false);
    ReadOneLine(ls, k);
    AddChild(vs0, es0, parent, vs, es, v, fileSize);
    if WellNested(ls, depth) && parent + 1 == |vs0| {
      AddChildNested(vs0, es0, parent, vs, es, v);
    }
  }

  /**
   * A deeper line is handed to a nested call on the vertex added last
   * (cpp_dep.cpp:115-128), which reads `c` lines and returns the graph
   * (`vs1`, `es1`).
   */
  lemma NestedCallStep(
    fileSize: string -> nat, parent: nat, depth: nat, ls: seq<Line>,
    vs0: seq<IncludeVertex>, es0: seq<IncludeEdge>,
    vs: seq<IncludeVertex>, es: seq<IncludeEdge>, subTree: nat, lastAdded: nat, k: nat,
    vs1: seq<IncludeVertex>, es1: seq<IncludeEdge>, subTree1: nat, c: nat, k1: nat)
    requires LoopState(fileSize, parent, depth, ls, vs0, es0, vs, es, subTree, lastAdded, k)
    requires k < |ls| && ls[k].depth > depth + 1
    requires CallDone(fileSize, lastAdded, depth + 1, ls[k..], vs, es, vs1, es1, c)
    requires subTree1 == subTree + vs1[lastAdded].sizeDependencies
    requires k1 == k + c
    ensures k < k1 <= |ls|
    ensures LoopState(fileSize, parent, depth, ls, vs0, es0, vs1, es1, subTree1, lastAdded, k1)
  {
    NestedCallGrows(fileSize, parent, depth, ls, vs0, es0, vs, es, subTree, lastAdded, k, vs1, es1, subTree1, c, k1);
    if WellNested(ls, depth) && parent + 1 == |vs0| {
      NestedCallNested(fileSize, parent, depth, ls, vs0, es0, vs, es, subTree, lastAdded, k, vs1, es1, subTree1, c, k1);
    }
  }

  /** The part of `NestedCallStep` that holds on any trace: the nested call's vertices follow the caller's. */
  lemma NestedCallGrows(
    fileSize: string -> nat, parent: nat, depth: nat, ls: seq<Line>,
    vs0: seq<IncludeVertex>, es0: seq<IncludeEdge>,
    vs: seq<IncludeVertex>, es: seq<IncludeEdge>, subTree: nat, lastAdded: nat, k: nat,
    vs1: seq<IncludeVertex>, es1: seq<IncludeEdge>, subTree1: nat, c: nat, k1: nat)
    requires LoopState(fileSize, parent, depth, ls, vs0, es0, vs, es, subTree, lastAdded, k)
    requires k < |ls| && ls[k].depth > depth + 1
    requires CallDone(fileSize, lastAdded, depth + 1, ls[k..], vs, es, vs1, es1, c)
    requires subTree1 == subTree + vs1[lastAdded].sizeDependencies
    requires k1 == k + c
    ensures k < k1 <= |ls|
    ensures Grown(vs0, es0, parent, vs1, es1) && SizedBy(vs1, |vs0|, fileSize)
    ensures lastAdded == 0 || |vs0| <= lastAdded < |vs1|
    ensures Names(vs1[|vs0|..]) == Files(ls[..k1]) && subTree1 == SumSizes(vs1[|vs0|..])
  {
    assert ls[k..][0] == ls[k];
    assert ls[k..][..c] == ls[k..k1];
    assert ls[..k1] == ls[..k] + ls[k..k1];
    FilesAppend(ls[..k], ls[k..k1]);
    Recurse(vs0, es0, parent, vs, es, lastAdded, vs1, es1, fileSize);
    RecurseTotals(vs, vs1, |vs0|);
  }

  /**
   * On a well-nested trace the deeper line follows a child just added, so
   * the nested call completes that child's total, which the parent's total
   * then takes in, and it stops on a line the caller may read.
   */
  lemma NestedCallNested(
    fileSize: string -> nat, parent: nat, depth: nat, ls: seq<Line>,
    vs0: seq<IncludeVertex>, es0: seq<IncludeEdge>,
    vs: seq<IncludeVertex>, es: seq<IncludeEdge>, subTree: nat, lastAdded: nat, k: nat,
    vs1: seq<IncludeVertex>, es1: seq<IncludeEdge>, subTree1: nat, c: nat, k1: nat)
    requires LoopState(fileSize, parent, depth, ls, vs0, es0, vs, es, subTree, lastAdded, k)
    requires k < |ls| && ls[k].depth > depth + 1
    requires CallDone(fileSize, lastAdded, depth + 1, ls[k..], vs, es, vs1, es1, c)
    requires subTree1 == subTree + vs1[lastAdded].sizeDependencies
    requires k1 == k + c
    requires WellNested(ls, depth) && parent + 1 == |vs0|
    ensures GrownNested(vs0, es0, parent, vs1, es1) && vs1[parent] == vs0[parent]
    ensures subTree1 == ChildTotal(vs1, es1, parent)
    ensures WellNested(ls[k1..], depth + 1) && WellNested(ls[k1..], depth)
  {
    assert ls[k..][0] == ls[k];
    assert !WellNested(ls[k..], depth);
    assert ls[k..][c..] == ls[k1..];
    if k1 < |ls| {
      assert ls[k..][c] == ls[k1];
    }
    WellNestedStop(ls[k1..], depth);
    RecurseNested(vs0, es0, parent, vs, es, lastAdded, vs1, es1);
  }

  /** The end of a call (cpp_dep.cpp:131-132): the parent's dependency size becomes `subTree`. */
  lemma FinishState(
    fileSize: string -> nat, parent: nat, depth: nat, ls: seq<Line>,
    vs0: seq<IncludeVertex>, es0: seq<IncludeEdge>,
    vs: seq<IncludeVertex>, es: seq<IncludeEdge>, subTree: nat, lastAdded: nat, k: nat)
    requires LoopState(fileSize, parent, depth, ls, vs0, es0, vs, es, subTree, lastAdded, k)
    requires k == |ls| || 1 <= ls[k].depth <= depth
    ensures CallDone(fileSize, parent, depth, ls, vs0, es0, vs[parent := vs[parent].(sizeDependencies := subTree)], es, k)
  {
    FinalWrite(vs0, es0, parent, vs, es, subTree, fileSize);
    if WellNested(ls, depth) && parent + 1 == |vs0| {
      FinalWriteNested(vs0, es0, parent, vs, es, subTree);
      if k < |ls| {
        assert ls[k..][0] == ls[k];
      }
    }
  }


  // ---------------------------------------------------------------------------
  // The parse as a function of the lines.

  /** What one call leaves behind: the graph and the number of lines it read. */
  datatype Parsed = Parsed(vertices: seq<IncludeVertex>, edges: seq<IncludeEdge>, consumed: nat)

  /** How many levels the `k`-th line lies below `depth` (0 when it does not). */
  function Reach(ls: seq<Line>, k: nat, depth: nat): nat
  {
    if k < |ls| && ls[k].depth > depth then ls[k].depth - depth else 0
  }

  /**
   * One call of the parser on `parent` at `depth`, over the lines `ls`, from
   * the graph (`vs`, `es`). It never drops a vertex, and it reads at least
   * one line unless the first line lies at `depth` or above.
   */
  function ParseCall(
    fileSize: string -> nat, parent: nat, depth: nat, ls: seq<Line>,
    vs: seq<IncludeVertex>, es: seq<IncludeEdge>): (r: Parsed)
    requires parent < |vs|
    ensures r.consumed <= |ls| && |vs| <= |r.vertices|
    ensures ls != [] && (ls[0].depth == 0 || ls[0].depth > depth) ==> r.consumed > 0
    decreases |ls|, Reach(ls, 0, depth), 1
  {
    ParseLines(fileSize, parent, depth, ls, 0, vs, es, 0, 0)
  }

  /**
   * The rest of a call that has read `k` lines, added children whose sizes
   * sum to `subTree`, and added `lastAdded` last (0 before the first child).
   */
  function ParseLines(
    fileSize: string -> nat, parent: nat, depth: nat, ls: seq<Line>, k: nat,
    vs: seq<IncludeVertex>, es: seq<IncludeEdge>, subTree: nat, lastAdded: nat): (r: Parsed)
    requires k <= |ls| && parent < |vs| && lastAdded < |vs|
    ensures k <= r.consumed <= |ls| && |vs| <= |r.vertices|
    ensures k < |ls| && (ls[k].depth == 0 || ls[k].depth > depth) ==> r.consumed > k
    decreases |ls| - k, Reach(ls, k, depth), 0
  {
    if k == |ls| || 1 <= ls[k].depth <= depth then
      Parsed(vs[parent := vs[parent].(sizeDependencies := subTree)], es, k)
    else if ls[k].depth == 0 then
      ParseLines(fileSize, parent, depth, ls, k + 1, vs, es, subTree, lastAdded)
    else if ls[k].depth == depth + 1 then
      if ls[k].path == [] then
        ParseLines(fileSize, parent, depth, ls, k + 1, vs, es, subTree, lastAdded)
      else
        var file := ls[k].path;
        ParseLines(fileSize, parent, depth, ls, k + 1,
                   vs + [NewVertex(file, fileSize(file), false)], es + [IncludeEdge(parent, |vs|)],
                   subTree + fileSize(file), |vs|)
    else
      assert ls[k..][0] == ls[k];
      var r := ParseCall(fileSize, lastAdded, depth + 1, ls[k..], vs, es);
      ParseLines(fileSize, parent, depth, ls, k + r.consumed, r.vertices, r.edges,
                 subTree + r.vertices[lastAdded].sizeDependencies, lastAdded)
  }

  /** A line without depth marks, or one level down with an empty path, is read and changes nothing (cpp_dep.cpp:78-83, 105-106). */
  lemma ParseLinesSkip(
    fileSize: string -> nat, parent: nat, depth: nat, ls: seq<Line>, k: nat,
    vs: seq<IncludeVertex>, es: seq<IncludeEdge>, subTree: nat, lastAdded: nat)
    requires k < |ls| && parent < |vs| && lastAdded < |vs|
    requires ls[k].depth == 0 || (ls[k].depth == depth + 1 && ls[k].path == [])
    ensures ParseLines(fileSize, parent, depth, ls, k, vs, es, subTree, lastAdded)
         == ParseLines(fileSize, parent, depth, ls, k + 1, vs, es, subTree, lastAdded)
  {
  }

  /** A line one level down that names a file adds it as the next vertex, a child of `parent` (cpp_dep.cpp:91-114). */
  lemma ParseLinesChild(
    fileSize: string -> nat, parent: nat, depth: nat, ls: seq<Line>, k: nat,
    vs: seq<IncludeVertex>, es: seq<IncludeEdge>, subTree: nat, lastAdded: nat)
    requires k < |ls| && parent < |vs| && lastAdded < |vs|
    requires ls[k].depth == depth + 1 && ls[k].path != []
    ensures ParseLines(fileSize, parent, depth, ls, k, vs, es, subTree, lastAdded)
         == ParseLines(fileSize, parent, depth, ls, k + 1,
                       vs + [NewVertex(ls[k].path, fileSize(ls[k].path), false)], es + [IncludeEdge(parent, |vs|)],
                       subTree + fileSize(ls[k].path), |vs|)
  {
  }

  /** A deeper line goes to a nested call on the vertex added last, whose graph and line count the caller carries on with (cpp_dep.cpp:115-128). */
  lemma ParseLinesNested(
    fileSize: string -> nat, parent: nat, depth: nat, ls: seq<Line>, k: nat,
    vs: seq<IncludeVertex>, es: seq<IncludeEdge>, subTree: nat, lastAdded: nat, r: Parsed)
    requires k < |ls| && parent < |vs| && lastAdded < |vs|
    requires ls[k].depth > depth + 1
    requires r == ParseCall(fileSize, lastAdded, depth + 1, ls[k..], vs, es)
    ensures k < k + r.consumed <= |ls| && lastAdded < |r.vertices|
    ensures ParseLines(fileSize, parent, depth, ls, k, vs, es, subTree, lastAdded)
         == ParseLines(fileSize, parent, depth, ls, k + r.consumed, r.vertices, r.edges,
                       subTree + r.vertices[lastAdded].sizeDependencies, lastAdded)
  {
    assert ls[k..][0] == ls[k];
  }

  /**
   * `ParseLinesNested` in the terms of a caller that has made the nested
   * call on `rest`, the lines from the `k`-th on, and got back the graph
   * (`vs1`, `es1`), `c` lines read and the new `subTree1`.
   */
  lemma ParseLinesAfterNested(
    fileSize: string -> nat, parent: nat, depth: nat, ls: seq<Line>, k: nat,
    vs: seq<IncludeVertex>, es: seq<IncludeEdge>, subTree: nat, lastAdded: nat,
    rest: seq<Line>, vs1: seq<IncludeVertex>, es1: seq<IncludeEdge>, subTree1: nat, c: nat, k1: nat)
    requires k < |ls| && parent < |vs| && lastAdded < |vs|
    requires ls[k].depth > depth + 1 && rest == ls[k..]
    requires vs1 == ParseCall(fileSize, lastAdded, depth + 1, rest, vs, es).vertices
    requires es1 == ParseCall(fileSize, lastAdded, depth + 1, rest, vs, es).edges
    requires c == ParseCall(fileSize, lastAdded, depth + 1, rest, vs, es).consumed
    requires subTree1 == subTree + vs1[lastAdded].sizeDependencies && k1 == k + c
    ensures k < k1 <= |ls| && lastAdded < |vs1|
    ensures ParseLines(fileSize, parent, depth, ls, k1, vs1, es1, subTree1, lastAdded)
         == ParseLines(fileSize, parent, depth, ls, k, vs, es, subTree, lastAdded)
  {
    ParseLinesNested(fileSize, parent, depth, ls, k, vs, es, subTree, lastAdded,
                     ParseCall(fileSize, lastAdded, depth + 1, rest, vs, es));
  }

  /** A line at `depth` or above, or the end of the lines, ends the call: `parent` gets `subTree` (cpp_dep.cpp:85-89, 131-132). */
  lemma ParseLinesStop(
    fileSize: string -> nat, parent: nat, depth: nat, ls: seq<Line>, k: nat,
    vs: seq<IncludeVertex>, es: seq<IncludeEdge>, subTree: nat, lastAdded: nat)
    requires k <= |ls| && parent < |vs| && lastAdded < |vs|
    requires k == |ls| || 1 <= ls[k].depth <= depth
    ensures ParseLines(fileSize, parent, depth, ls, k, vs, es, subTree, lastAdded)
         == Parsed(vs[parent := vs[parent].(sizeDependencies := subTree)], es, k)
  {
  }

  /** A call does what `CallDone` describes, whatever the lines. */
  lemma {:induction false} ParseCallSound(
    fileSize: string -> nat, parent: nat, depth: nat, ls: seq<Line>, vs: seq<IncludeVertex>, es: seq<IncludeEdge>)
    requires parent < |vs| && TreeShaped(vs, es)
    ensures var r := ParseCall(fileSize, parent, depth, ls, vs, es);
      CallDone(fileSize, parent, depth, ls, vs, es, r.vertices, r.edges, r.consumed)
    decreases |ls|, Reach(ls, 0, depth), 3
  {
    StartState(fileSize, parent, depth, ls, vs, es);
    ParseLinesSound(fileSize, parent, depth, ls, vs, es, vs, es, 0, 0, 0, ParseCall(fileSize, parent, depth, ls, vs, es));
  }

  /** From any state a call can reach, the rest of the call completes `CallDone`. */
  lemma {:induction false} ParseLinesSound(
    fileSize: string -> nat, parent: nat, depth: nat, ls: seq<Line>,
    vs0: seq<IncludeVertex>, es0: seq<IncludeEdge>,
    vs: seq<IncludeVertex>, es: seq<IncludeEdge>, subTree: nat, lastAdded: nat, k: nat, r: Parsed)
    requires LoopState(fileSize, parent, depth, ls, vs0, es0, vs, es, subTree, lastAdded, k)
    requires parent < |vs| && lastAdded < |vs|
    requires r == ParseLines(fileSize, parent, depth, ls, k, vs, es, subTree, lastAdded)
    ensures CallDone(fileSize, parent, depth, ls, vs0, es0, r.vertices, r.edges, r.consumed)
    decreases |ls| - k, Reach(ls, k, depth), 2
  {
    if k == |ls| || 1 <= ls[k].depth <= depth {
      ParseLinesStop(fileSize, parent, depth, ls, k, vs, es, subTree, lastAdded);
      FinishState(fileSize, parent, depth, ls, vs0, es0, vs, es, subTree, lastAdded, k);
    } else if ls[k].depth == 0 || (ls[k].depth == depth + 1 && ls[k].path == []) {
      SkipSound(fileSize, parent, depth, ls, vs0, es0, vs, es, subTree, lastAdded, k, r);
    } else if ls[k].depth == depth + 1 {
      ChildSound(fileSize, parent, depth, ls, vs0, es0, vs, es, subTree, lastAdded, k, r);
    } else {
      NestedSound(fileSize, parent, depth, ls, vs0, es0, vs, es, subTree, lastAdded, k, r);
    }
  }

  /** `ParseLinesSound` on a line that is read and dropped. */
  lemma {:induction false} SkipSound(
    fileSize: string -> nat, parent: nat, depth: nat, ls: seq<Line>,
    vs0: seq<IncludeVertex>, es0: seq<IncludeEdge>,
    vs: seq<IncludeVertex>, es: seq<IncludeEdge>, subTree: nat, lastAdded: nat, k: nat, r: Parsed)
    requires LoopState(fileSize, parent, depth, ls, vs0, es0, vs, es, subTree, lastAdded, k)
    requires k < |ls| && (ls[k].depth == 0 || (ls[k].depth == depth + 1 && ls[k].path == []))
    requires parent < |vs| && lastAdded < |vs|
    requires r == ParseLines(fileSize, parent, depth, ls, k, vs, es, subTree, lastAdded)
    ensures CallDone(fileSize, parent, depth, ls, vs0, es0, r.vertices, r.edges, r.consumed)
    decreases |ls| - k, Reach(ls, k, depth), 1
  {
    if ls[k].depth == 0 {
      NoiseStep(fileSize, parent, depth, ls, vs0, es0, vs, es, subTree, lastAdded, k);
    } else {
      EmptyPathStep(fileSize, parent, depth, ls, vs0, es0, vs, es, subTree, lastAdded, k);
    }
    ParseLinesSkip(fileSize, parent, depth, ls, k, vs, es, subTree, lastAdded);
    ParseLinesSound(fileSize, parent, depth, ls, vs0, es0, vs, es, subTree, lastAdded, k + 1, r);
  }

  /** `ParseLinesSound` on a line that adds a child of `parent`. */
  lemma {:induction false} ChildSound(
    fileSize: string -> nat, parent: nat, depth: nat, ls: seq<Line>,
    vs0: seq<IncludeVertex>, es0: seq<IncludeEdge>,
    vs: seq<IncludeVertex>, es: seq<IncludeEdge>, subTree: nat, lastAdded: nat, k: nat, r: Parsed)
    requires LoopState(fileSize, parent, depth, ls, vs0, es0, vs, es, subTree, lastAdded, k)
    requires k < |ls| && ls[k].depth == depth + 1 && ls[k].path != []
    requires parent < |vs| && lastAdded < |vs|
    requires r == ParseLines(fileSize, parent, depth, ls, k, vs, es, subTree, lastAdded)
    ensures CallDone(fileSize, parent, depth, ls, vs0, es0, r.vertices, r.edges, r.consumed)
    decreases |ls| - k, Reach(ls, k, depth), 1
  {
    var file := ls[k].path;
    var vs1 := vs + [NewVertex(file, fileSize(file), false)];
    var es1 := es + [IncludeEdge(parent, |vs|)];
    ChildStep(fileSize, parent, depth, ls, vs0, es0, vs, es, subTree, lastAdded, k,
              vs1, es1, subTree + fileSize(file), |vs|);
    ParseLinesChild(fileSize, parent, depth, ls, k, vs, es, subTree, lastAdded);
    ParseLinesSound(fileSize, parent, depth, ls, vs0, es0, vs1, es1, subTree + fileSize(file), |vs|, k + 1, r);
  }

  /** `ParseLinesSound` on a line that starts a nested call. */
  lemma {:induction false} NestedSound(
    fileSize: string -> nat, parent: nat, depth: nat, ls: seq<Line>,
    vs0: seq<IncludeVertex>, es0: seq<IncludeEdge>,
    vs: seq<IncludeVertex>, es: seq<IncludeEdge>, subTree: nat, lastAdded: nat, k: nat, r: Parsed)
    requires LoopState(fileSize, parent, depth, ls, vs0, es0, vs, es, subTree, lastAdded, k)
    requires k < |ls| && ls[k].depth > depth + 1
    requires parent < |vs| && lastAdded < |vs|
    requires r == ParseLines(fileSize, parent, depth, ls, k, vs, es, subTree, lastAdded)
    ensures CallDone(fileSize, parent, depth, ls, vs0, es0, r.vertices, r.edges, r.consumed)
    decreases |ls| - k, Reach(ls, k, depth), 1
  {
    assert ls[k..][0] == ls[k];
    var n := ParseCall(fileSize, lastAdded, depth + 1, ls[k..], vs, es);
    ParseCallSound(fileSize, lastAdded, depth + 1, ls[k..], vs, es);
    var subTree1 := subTree + n.vertices[lastAdded].sizeDependencies;
    NestedCallStep(fileSize, parent, depth, ls, vs0, es0, vs, es, subTree, lastAdded, k,
                   n.vertices, n.edges, subTree1, n.consumed, k + n.consumed);
    ParseLinesAfterNested(fileSize, parent, depth, ls, k, vs, es, subTree, lastAdded,
                          ls[k..], n.vertices, n.edges, subTree1, n.consumed, k + n.consumed);
    ParseLinesSound(fileSize, parent, depth, ls, vs0, es0, n.vertices, n.edges, subTree1, lastAdded, k + n.consumed, r);
  }

  // ---------------------------------------------------------------------------
  // A whole trace.

  /**
   * The graph a whole trace gives (cpp_dep.cpp:137-158, 162-183): a default
   * root, then one call at depth 0 on it from the start of the text.
   */
  function ParseTrace(text: string, prefix: string, mark: char, fileSize: string -> nat): (r: Parsed)
    ensures |r.vertices| >= 1
  {
    ParseCall(fileSize, 0, 0, Lines(text, prefix, mark, 0), [DefaultVertex()], [])
  }

  /**
   * What the parser makes of any trace: it reads every line; vertex 0 is
   * the default root and the other vertices are the files the lines name, in
   * order, each sized by the size lookup and none marked as a repeat; every
   * vertex but the root has one in-edge from a vertex before it; no name
   * holds a backslash; the root's dependency size is the sum of all other
   * sizes; and on a well-nested trace (no marked line skips a level or has an
   * empty path) every vertex's dependency size is the total of its children's
   * sizes and dependency sizes.
   */
  lemma ParseTraceSound(text: string, prefix: string, mark: char, fileSize: string -> nat)
    ensures var r := ParseTrace(text, prefix, mark, fileSize);
      r.consumed == |Lines(text, prefix, mark, 0)| &&
      TreeShaped(r.vertices, r.edges) &&
      r.vertices[0].name == [] && r.vertices[0].size == 0 && !r.vertices[0].alreadyIncluded &&
      Names(r.vertices[1..]) == Files(Lines(text, prefix, mark, 0)) &&
      SizedBy(r.vertices, 1, fileSize) &&
      r.vertices[0].sizeDependencies == SumSizes(r.vertices[1..])
    ensures var r := ParseTrace(text, prefix, mark, fileSize);
      forall i :: 0 <= i < |r.vertices| ==> '\\' !in r.vertices[i].name
    ensures var r := ParseTrace(text, prefix, mark, fileSize);
      WellNested(Lines(text, prefix, mark, 0), 0) ==> ClosedFrom(r.vertices, r.edges, 0)
  {
    var ls := Lines(text, prefix, mark, 0);
    var r := ParseTrace(text, prefix, mark, fileSize);
    ParseCallSound(fileSize, 0, 0, ls, [DefaultVertex()], []);
    assert ls[..r.consumed] == ls;
    LinesClean(text, prefix, mark, 0);
    FilesClean(ls);
    forall i | 0 <= i < |r.vertices|
      ensures '\\' !in r.vertices[i].name
    {
      if i > 0 {
        assert r.vertices[i].name == Names(r.vertices[1..])[i - 1];
      }
    }
  }

  /**
   * A trace that skips a level. Every call starts with the root as the
   * vertex added last (cpp_dep.cpp:61), and a line two or more levels below
   * the call recurses on that vertex (cpp_dep.cpp:115-128). In `.a` followed
   * by `...b`, the call on `a` has added nothing when it meets `...b`, so a
   * call on the root makes `b` a child of the root, while the dependency
   * size of `a` still counts `b`. This is why `ParseTraceSound` promises the
   * per-vertex totals only for well-nested traces.
   */
  lemma SkippedLevelUnderRoot(fileSize: string -> nat)
    ensures !WellNested(Lines(SkippedLevelTrace, [], '.', 0), 0)
    ensures var r := ParseTrace(SkippedLevelTrace, [], '.', fileSize);
      |r.vertices| == 3 && r.vertices[1].name == "a" && r.vertices[2].name == "b" &&
      r.edges == [IncludeEdge(0, 1), IncludeEdge(0, 2)] &&
      r.vertices[1].sizeDependencies == fileSize("b") &&
      r.vertices[2].sizeDependencies == 0 &&
      r.vertices[0].sizeDependencies == fileSize("a") + fileSize("b")
  {
    SkippedLevelLines();
    SkippedLevelOuter(fileSize);
  }

  /** The trace `.a` then `...b` in the GCC syntax. */
  const SkippedLevelTrace: string := ".a\n...b\n"

  lemma SkippedLevelFirstLine()
    ensures ScanLine(SkippedLevelTrace, [], '.', 0) == Line(0, 1, "a", 3)
  {
    var text := SkippedLevelTrace;
    assert MarkEnd(text, 0, '.') == 1 && NewlineFrom(text, 1) == 2;
    assert text[1..2] == "a" && ReplaceBackslashes("a") == "a";
  }

  lemma SkippedLevelSecondLine()
    ensures ScanLine(SkippedLevelTrace, [], '.', 3) == Line(3, 3, "b", 8)
  {
    var text := SkippedLevelTrace;
    assert MarkEnd(text, 3, '.') == 6 && NewlineFrom(text, 6) == 7;
    assert text[6..7] == "b" && ReplaceBackslashes("b") == "b";
  }

  lemma SkippedLevelLines()
    ensures Lines(SkippedLevelTrace, [], '.', 0) == [Line(0, 1, "a", 3), Line(3, 3, "b", 8)]
  {
    var text := SkippedLevelTrace;
    SkippedLevelFirstLine();
    SkippedLevelSecondLine();
    assert NextLine(text, [], '.', 0) == 3 && NextLine(text, [], '.', 3) == 8 == |text|;
    assert Lines(text, [], '.', 3) == [ScanLine(text, [], '.', 3)] + Lines(text, [], '.', 8);
    assert Lines(text, [], '.', 0) == [ScanLine(text, [], '.', 0)] + Lines(text, [], '.', 3);
  }

  /** The call on the root at depth 2 adds `b` under the root and stores its size on the root. */
  lemma SkippedLevelInner(fileSize: string -> nat)
    ensures ParseCall(fileSize, 0, 2, [Line(3, 3, "b", 8)],
                      [DefaultVertex(), NewVertex("a", fileSize("a"), false)], [IncludeEdge(0, 1)])
         == Parsed([DefaultVertex().(sizeDependencies := fileSize("b")), NewVertex("a", fileSize("a"), false),
                    NewVertex("b", fileSize("b"), false)],
                   [IncludeEdge(0, 1), IncludeEdge(0, 2)], 1)
  {
    var rest := [Line(3, 3, "b", 8)];
    var va := [DefaultVertex(), NewVertex("a", fileSize("a"), false)];
    var vb := va + [NewVertex("b", fileSize("b"), false)];
    ParseLinesChild(fileSize, 0, 2, rest, 0, va, [IncludeEdge(0, 1)], 0, 0);
    ParseLinesStop(fileSize, 0, 2, rest, 1, vb, [IncludeEdge(0, 1), IncludeEdge(0, 2)], fileSize("b"), 2);
  }

  /** The call on `a` at depth 1 has added nothing, hands `...b` to a call on the root and stores its total on `a`. */
  lemma SkippedLevelMiddle(fileSize: string -> nat)
    ensures ParseCall(fileSize, 1, 1, [Line(3, 3, "b", 8)],
                      [DefaultVertex(), NewVertex("a", fileSize("a"), false)], [IncludeEdge(0, 1)])
         == Parsed([DefaultVertex().(sizeDependencies := fileSize("b")),
                    NewVertex("a", fileSize("a"), false).(sizeDependencies := fileSize("b")),
                    NewVertex("b", fileSize("b"), false)],
                   [IncludeEdge(0, 1), IncludeEdge(0, 2)], 1)
  {
    var rest := [Line(3, 3, "b", 8)];
    var va := [DefaultVertex(), NewVertex("a", fileSize("a"), false)];
    assert rest[0..] == rest;
    SkippedLevelInner(fileSize);
    var inner := ParseCall(fileSize, 0, 2, rest, va, [IncludeEdge(0, 1)]);
    ParseLinesNested(fileSize, 1, 1, rest, 0, va, [IncludeEdge(0, 1)], 0, 0, inner);
    ParseLinesStop(fileSize, 1, 1, rest, 1, inner.vertices, inner.edges, fileSize("b"), 0);
  }

  /** The call on the root at depth 0 adds `a`, recurses on it and stores both sizes on the root. */
  lemma SkippedLevelOuter(fileSize: string -> nat)
    ensures ParseCall(fileSize, 0, 0, [Line(0, 1, "a", 3), Line(3, 3, "b", 8)], [DefaultVertex()], [])
         == Parsed([DefaultVertex().(sizeDependencies := fileSize("a") + fileSize("b")),
                    NewVertex("a", fileSize("a"), false).(sizeDependencies := fileSize("b")),
                    NewVertex("b", fileSize("b"), false)],
                   [IncludeEdge(0, 1), IncludeEdge(0, 2)], 2)
  {
    var ls := [Line(0, 1, "a", 3), Line(3, 3, "b", 8)];
    var va := [DefaultVertex(), NewVertex("a", fileSize("a"), false)];
    assert ls[1..] == [Line(3, 3, "b", 8)];
    SkippedLevelMiddle(fileSize);
    var middle := ParseCall(fileSize, 1, 1, ls[1..], va, [IncludeEdge(0, 1)]);
    ParseLinesChild(fileSize, 0, 0, ls, 0, [DefaultVertex()], [], 0, 0);
    ParseLinesNested(fileSize, 0, 0, ls, 1, va, [IncludeEdge(0, 1)], fileSize("a"), 1, middle);
    ParseLinesStop(fileSize, 0, 0, ls, 2, middle.vertices, middle.edges, fileSize("a") + fileSize("b"), 1);
  }

  /**
   * A trace with a marked line that names no file. One level below the call,
   * such a line is read and skipped, and the vertex added last stays as it
   * was (cpp_dep.cpp:105-106). In `.a`, `..b`, `.`, `..c` the line `.` ends
   * the call on `a` and is then skipped by the call on the root, so `..c`
   * starts a second call on `a`. Both `b` and `c` become children of `a`,
   * but that second call overwrites the dependency size of `a` with the size
   * of `c` alone (cpp_dep.cpp:118-132). This is the other reason why
   * `ParseTraceSound` promises the per-vertex totals only for well-nested
   * traces.
   */
  lemma EmptyPathSplitsChildren(fileSize: string -> nat)
    ensures !WellNested(Lines(EmptyPathTrace, [], '.', 0), 0)
    ensures var r := ParseTrace(EmptyPathTrace, [], '.', fileSize);
      |r.vertices| == 4 && r.vertices[1].name == "a" && r.vertices[2].name == "b" && r.vertices[3].name == "c" &&
      r.edges == [IncludeEdge(0, 1), IncludeEdge(1, 2), IncludeEdge(1, 3)] &&
      r.vertices[1].sizeDependencies == fileSize("c") &&
      r.vertices[0].sizeDependencies == fileSize("a") + fileSize("b") + fileSize("c")
  {
    EmptyPathLines();
    EmptyPathOuter(fileSize);
  }

  /** The trace `.a`, `..b`, `.`, `..c` in the GCC syntax. */
  const EmptyPathTrace: string := ".a\n..b\n.\n..c\n"

  lemma EmptyPathFirstLines()
    ensures ScanLine(EmptyPathTrace, [], '.', 0) == Line(0, 1, "a", 3)
    ensures ScanLine(EmptyPathTrace, [], '.', 3) == Line(3, 2, "b", 7)
  {
    var text := EmptyPathTrace;
    assert MarkEnd(text, 0, '.') == 1 && NewlineFrom(text, 1) == 2;
    assert text[1..2] == "a" && ReplaceBackslashes("a") == "a";
    assert MarkEnd(text, 3, '.') == 5 && NewlineFrom(text, 5) == 6;
    assert text[5..6] == "b" && ReplaceBackslashes("b") == "b";
  }

  lemma EmptyPathLastLines()
    ensures ScanLine(EmptyPathTrace, [], '.', 7) == Line(7, 1, "", 9)
    ensures ScanLine(EmptyPathTrace, [], '.', 9) == Line(9, 2, "c", 13)
  {
    var text := EmptyPathTrace;
    assert MarkEnd(text, 7, '.') == 8 && NewlineFrom(text, 8) == 8;
    assert text[8..8] == "" && ReplaceBackslashes("") == "";
    assert MarkEnd(text, 9, '.') == 11 && NewlineFrom(text, 11) == 12;
    assert text[11..12] == "c" && ReplaceBackslashes("c") == "c";
  }

  lemma EmptyPathLines()
    ensures Lines(EmptyPathTrace, [], '.', 0)
         == [Line(0, 1, "a", 3), Line(3, 2, "b", 7), Line(7, 1, "", 9), Line(9, 2, "c", 13)]
  {
    var text := EmptyPathTrace;
    EmptyPathFirstLines();
    EmptyPathLastLines();
    assert NextLine(text, [], '.', 0) == 3 && NextLine(text, [], '.', 3) == 7;
    assert NextLine(text, [], '.', 7) == 9 && NextLine(text, [], '.', 9) == 13 == |text|;
    assert Lines(text, [], '.', 9) == [ScanLine(text, [], '.', 9)] + Lines(text, [], '.', 13);
    assert Lines(text, [], '.', 7) == [ScanLine(text, [], '.', 7)] + Lines(text, [], '.', 9);
    assert Lines(text, [], '.', 3) == [ScanLine(text, [], '.', 3)] + Lines(text, [], '.', 7);
    assert Lines(text, [], '.', 0) == [ScanLine(text, [], '.', 0)] + Lines(text, [], '.', 3);
  }

  /** The first call on `a` adds `b`, stops at the line `.` and stores the size of `b` on `a`. */
  lemma EmptyPathFirstCall(fileSize: string -> nat)
    ensures ParseCall(fileSize, 1, 1, [Line(3, 2, "b", 7), Line(7, 1, "", 9), Line(9, 2, "c", 13)],
                      [DefaultVertex(), NewVertex("a", fileSize("a"), false)], [IncludeEdge(0, 1)])
         == Parsed([DefaultVertex(), NewVertex("a", fileSize("a"), false).(sizeDependencies := fileSize("b")),
                    NewVertex("b", fileSize("b"), false)],
                   [IncludeEdge(0, 1), IncludeEdge(1, 2)], 1)
  {
    var rest := [Line(3, 2, "b", 7), Line(7, 1, "", 9), Line(9, 2, "c", 13)];
    var va := [DefaultVertex(), NewVertex("a", fileSize("a"), false)];
    var vb := va + [NewVertex("b", fileSize("b"), false)];
    ParseLinesChild(fileSize, 1, 1, rest, 0, va, [IncludeEdge(0, 1)], 0, 0);
    ParseLinesStop(fileSize, 1, 1, rest, 1, vb, [IncludeEdge(0, 1), IncludeEdge(1, 2)], fileSize("b"), 2);
  }

  /** The second call on `a` adds `c` and stores the size of `c` alone on `a`. */
  lemma EmptyPathSecondCall(fileSize: string -> nat)
    ensures ParseCall(fileSize, 1, 1, [Line(9, 2, "c", 13)],
                      [DefaultVertex(), NewVertex("a", fileSize("a"), false).(sizeDependencies := fileSize("b")),
                       NewVertex("b", fileSize("b"), false)],
                      [IncludeEdge(0, 1), IncludeEdge(1, 2)])
         == Parsed([DefaultVertex(), NewVertex("a", fileSize("a"), false).(sizeDependencies := fileSize("c")),
                    NewVertex("b", fileSize("b"), false), NewVertex("c", fileSize("c"), false)],
                   [IncludeEdge(0, 1), IncludeEdge(1, 2), IncludeEdge(1, 3)], 1)
  {
    var rest := [Line(9, 2, "c", 13)];
    var vb := [DefaultVertex(), NewVertex("a", fileSize("a"), false).(sizeDependencies := fileSize("b")),
               NewVertex("b", fileSize("b"), false)];
    var vc := vb + [NewVertex("c", fileSize("c"), false)];
    ParseLinesChild(fileSize, 1, 1, rest, 0, vb, [IncludeEdge(0, 1), IncludeEdge(1, 2)], 0, 0);
    ParseLinesStop(fileSize, 1, 1, rest, 1, vc, [IncludeEdge(0, 1), IncludeEdge(1, 2), IncludeEdge(1, 3)],
                   fileSize("c"), 3);
  }

  /** After the first call on `a`, the call on the root skips `.`, calls on `a` again and stores all three sizes. */
  lemma EmptyPathOuterTail(fileSize: string -> nat)
    ensures ParseLines(fileSize, 0, 0, [Line(0, 1, "a", 3), Line(3, 2, "b", 7), Line(7, 1, "", 9), Line(9, 2, "c", 13)], 2,
                       [DefaultVertex(), NewVertex("a", fileSize("a"), false).(sizeDependencies := fileSize("b")),
                        NewVertex("b", fileSize("b"), false)],
                       [IncludeEdge(0, 1), IncludeEdge(1, 2)], fileSize("a") + fileSize("b"), 1)
         == Parsed([DefaultVertex().(sizeDependencies := fileSize("a") + fileSize("b") + fileSize("c")),
                    NewVertex("a", fileSize("a"), false).(sizeDependencies := fileSize("c")),
                    NewVertex("b", fileSize("b"), false), NewVertex("c", fileSize("c"), false)],
                   [IncludeEdge(0, 1), IncludeEdge(1, 2), IncludeEdge(1, 3)], 4)
  {
    var ls := [Line(0, 1, "a", 3), Line(3, 2, "b", 7), Line(7, 1, "", 9), Line(9, 2, "c", 13)];
    var vb := [DefaultVertex(), NewVertex("a", fileSize("a"), false).(sizeDependencies := fileSize("b")),
               NewVertex("b", fileSize("b"), false)];
    var eb := [IncludeEdge(0, 1), IncludeEdge(1, 2)];
    var sub := fileSize("a") + fileSize("b");
    assert ls[3..] == [Line(9, 2, "c", 13)];
    EmptyPathSecondCall(fileSize);
    var second := ParseCall(fileSize, 1, 1, ls[3..], vb, eb);
    ParseLinesSkip(fileSize, 0, 0, ls, 2, vb, eb, sub, 1);
    ParseLinesNested(fileSize, 0, 0, ls, 3, vb, eb, sub, 1, second);
    ParseLinesStop(fileSize, 0, 0, ls, 4, second.vertices, second.edges, sub + fileSize("c"), 1);
  }

  /** The call on the root adds `a` and makes the first call on it. */
  lemma EmptyPathOuter(fileSize: string -> nat)
    ensures ParseCall(fileSize, 0, 0, [Line(0, 1, "a", 3), Line(3, 2, "b", 7), Line(7, 1, "", 9), Line(9, 2, "c", 13)],
                      [DefaultVertex()], [])
         == Parsed([DefaultVertex().(sizeDependencies := fileSize("a") + fileSize("b") + fileSize("c")),
                    NewVertex("a", fileSize("a"), false).(sizeDependencies := fileSize("c")),
                    NewVertex("b", fileSize("b"), false), NewVertex("c", fileSize("c"), false)],
                   [IncludeEdge(0, 1), IncludeEdge(1, 2), IncludeEdge(1, 3)], 4)
  {
    var ls := [Line(0, 1, "a", 3), Line(3, 2, "b", 7), Line(7, 1, "", 9), Line(9, 2, "c", 13)];
    var va := [DefaultVertex(), NewVertex("a", fileSize("a"), false)];
    assert ls[1..] == [Line(3, 2, "b", 7), Line(7, 1, "", 9), Line(9, 2, "c", 13)];
    EmptyPathFirstCall(fileSize);
    var first := ParseCall(fileSize, 1, 1, ls[1..], va, [IncludeEdge(0, 1)]);
    ParseLinesChild(fileSize, 0, 0, ls, 0, [DefaultVertex()], [], 0, 0);
    ParseLinesNested(fileSize, 0, 0, ls, 1, va, [IncludeEdge(0, 1)], fileSize("a"), 1, first);
    EmptyPathOuterTail(fileSize);
  }
}
