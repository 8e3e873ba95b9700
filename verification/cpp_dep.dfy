/**
 * The include-trace parser of contrib/cpp_dep/cpp_dep.cpp, over the text.
 *
 * `ReadDepsFileRecursive` walks the trace line by line and uses its own call
 * stack as the parse stack; it appends to the graph in place and computes
 * exactly what `TraceParse.ParseCall` computes on the lines of the text.
 */
module CppDep {
  import opened Wrappers
  import opened TraceScan
  import opened IncludeGraphs
  import opened TraceParse

  // ---------------------------------------------------------------------------
  // The parser.

  /**
   * `read_deps_file_recursive` (cpp_dep.cpp:58-133): reads lines from
   * `current` while they nest below `depth`, adding the files at `depth` + 1
   * as children of `parent` and handing deeper lines to nested calls. The
   * graph it leaves and the number of lines it reads are those of
   * `ParseCall` on the lines of the text; it returns the caller's `size`
   * grown by the dependency size it stores for `parent`, and where it
   * stopped: the end of the trace or the start of the first line it left
   * unread.
   */
  method ReadDepsFileRecursive(
    text: string, prefix: string, mark: char, fileSize: string -> nat,
    parent: nat, depth: nat, g: IncludeGraph, size: nat, current: nat)
    returns (sizeAfter: nat, currentAfter: nat, ghost consumed: nat)
    requires current <= |text| && parent < |g.vertices|
    modifies g
    ensures var r := ParseCall(fileSize, parent, depth, Lines(text, prefix, mark, current), old(g.vertices), old(g.edges));
      g.vertices == r.vertices && g.edges == r.edges && consumed == r.consumed
    ensures consumed <= |Lines(text, prefix, mark, current)| && parent < |g.vertices|
    ensures currentAfter == StartOf(text, Lines(text, prefix, mark, current), consumed)
    ensures sizeAfter == size + g.vertices[parent].sizeDependencies
    decreases |Lines(text, prefix, mark, current)|, |text| - depth, 2
  {
    ghost var ls := Lines(text, prefix, mark, current);
    ghost var vs0, es0 := g.vertices, g.edges;
    var lastAdded: nat := 0;
    var subTree: nat := 0;
    var cur := current;
    ghost var k: nat := 0;
    while cur < |text|
      invariant k <= |ls| && parent < |g.vertices| && lastAdded < |g.vertices|
      invariant cur == StartOf(text, ls, k)
      invariant ParseLines(fileSize, parent, depth, ls, k, g.vertices, g.edges, subTree, lastAdded)
             == ParseCall(fileSize, parent, depth, ls, vs0, es0)
      decreases |ls| - k
    {
      var stop: bool;
      stop, cur, subTree, lastAdded, k :=
        ReadTraceLine(text, prefix, mark, fileSize, parent, depth, g, current, k, cur, subTree, lastAdded);
      if stop {
        break;
      }
    }
    if k < |ls| && |text| <= cur {
      LineAt(text, prefix, mark, current, k);
      assert false;
    }
    ParseLinesStop(fileSize, parent, depth, ls, k, g.vertices, g.edges, subTree, lastAdded);
    g.vertices := g.vertices[parent := g.vertices[parent].(sizeDependencies := subTree)];
    sizeAfter := size + subTree;
    currentAfter := cur;
    consumed := k;
  }

  /**
   * One turn of the loop of `read_deps_file_recursive` (cpp_dep.cpp:67-129),
   * on the `k`-th line of the trace from `current`, which starts at `cur`.
   * A line at `depth` or above stops the call and is left unread; any other
   * line is read, along with the lines of the nested call it may start, and
   * the rest of the call is the same as before it.
   */
  method ReadTraceLine(
    text: string, prefix: string, mark: char, fileSize: string -> nat,
    parent: nat, depth: nat, g: IncludeGraph, ghost current: nat, ghost k: nat,
    cur: nat, subTree: nat, lastAdded: nat)
    returns (stop: bool, next: nat, subTree1: nat, lastAdded1: nat, ghost k1: nat)
    requires current <= |text| && k < |Lines(text, prefix, mark, current)|
    requires cur == Lines(text, prefix, mark, current)[k].start
    requires parent < |g.vertices| && lastAdded < |g.vertices|
    modifies g
    ensures stop <==> 1 <= Lines(text, prefix, mark, current)[k].depth <= depth
    ensures stop ==> k1 == k
    ensures !stop ==> k < k1
    ensures k1 <= |Lines(text, prefix, mark, current)| && parent < |g.vertices| && lastAdded1 < |g.vertices|
    ensures next == StartOf(text, Lines(text, prefix, mark, current), k1)
    ensures ParseLines(fileSize, parent, depth, Lines(text, prefix, mark, current), k1, g.vertices, g.edges, subTree1, lastAdded1)
         == ParseLines(fileSize, parent, depth, Lines(text, prefix, mark, current), k, old(g.vertices), old(g.edges), subTree, lastAdded)
    decreases |Lines(text, prefix, mark, current)| - k, |text| - depth, 1
  {
    ghost var ls := Lines(text, prefix, mark, current);
    LineAt(text, prefix, mark, current, k);
    stop, next, subTree1, lastAdded1, k1 := false, cur, subTree, lastAdded, k + 1;
    var afterMarks, lineDepth := ReadLineHead(text, prefix, mark, current, k, cur);

    if lineDepth == 0 {
      var line: string;
      next, line := GetLine(text, afterMarks);
      ParseLinesSkip(fileSize, parent, depth, ls, k, g.vertices, g.edges, subTree, lastAdded);
    } else if lineDepth <= depth {
      stop, k1 := true, k;
    } else if lineDepth == depth + 1 {
      var file: string;
      next, file := ReadLinePath(text, prefix, mark, current, k, afterMarks);
      if file == [] {
        ParseLinesSkip(fileSize, parent, depth, ls, k, g.vertices, g.edges, subTree, lastAdded);
      } else {
        ParseLinesChild(fileSize, parent, depth, ls, k, g.vertices, g.edges, subTree, lastAdded);
        var thisSize := fileSize(file);
        subTree1 := subTree + thisSize;
        lastAdded1 := g.AddVertex(NewVertex(file, thisSize, false));
        var inserted := g.AddEdge(parent, lastAdded1);
        assert inserted;
      }
    } else {
      subTree1, next, k1 := ReadNestedLines(text, prefix, mark, fileSize, parent, depth, g, current, k, cur, subTree, lastAdded);
    }
  }

  /**
   * A line more than one level below `depth` (cpp_dep.cpp:115-128): a nested
   * call on the vertex added last reads it and the lines below it, and adds
   * what it stored for that vertex to `subTree`.
   */
  method ReadNestedLines(
    text: string, prefix: string, mark: char, fileSize: string -> nat,
    parent: nat, depth: nat, g: IncludeGraph, ghost current: nat, ghost k: nat,
    cur: nat, subTree: nat, lastAdded: nat)
    returns (subTree1: nat, next: nat, ghost k1: nat)
    requires current <= |text| && k < |Lines(text, prefix, mark, current)|
    requires cur == Lines(text, prefix, mark, current)[k].start
    requires Lines(text, prefix, mark, current)[k].depth > depth + 1
    requires parent < |g.vertices| && lastAdded < |g.vertices|
    modifies g
    ensures k < k1 <= |Lines(text, prefix, mark, current)| && parent < |g.vertices| && lastAdded < |g.vertices|
    ensures next == StartOf(text, Lines(text, prefix, mark, current), k1)
    ensures ParseLines(fileSize, parent, depth, Lines(text, prefix, mark, current), k1, g.vertices, g.edges, subTree1, lastAdded)
         == ParseLines(fileSize, parent, depth, Lines(text, prefix, mark, current), k, old(g.vertices), old(g.edges), subTree, lastAdded)
    decreases |Lines(text, prefix, mark, current)| - k, |text| - depth, 0
  {
    ghost var ls := Lines(text, prefix, mark, current);
    LineAt(text, prefix, mark, current, k);
    LinesSuffix(text, prefix, mark, current, k);
    ghost var vs, es := g.vertices, g.edges;
    ghost var rest := Lines(text, prefix, mark, cur);
    ghost var c: nat;
    subTree1, next, c := ReadDepsFileRecursive(text, prefix, mark, fileSize, lastAdded, depth + 1, g, subTree, cur);
    k1 := k + c;
    ParseLinesAfterNested(fileSize, parent, depth, ls, k, vs, es, subTree, lastAdded,
                          rest, g.vertices, g.edges, subTree1, c, k1);
  }

  // ---------------------------------------------------------------------------
  // Whole traces.

  /** How a trace marks its lines: a prefix every line starts with, and the character that counts one level. */
  datatype TraceSyntax = TraceSyntax(prefix: string, mark: char)

  /** `g++ -H`: no prefix, one dot per level (cpp_dep.cpp:145-146). */
  const GccSyntax := TraceSyntax("", '.')

  /** `cl /showIncludes`: the note prefix, one space per level (cpp_dep.cpp:170-171). */
  const MsvcSyntax := TraceSyntax("Note: including file:", ' ')

  /** The format `read_deps_file` reads a trace in: GCC when its first character is a dot, MSVC otherwise, the empty trace included (cpp_dep.cpp:198-205). */
  function SyntaxOf(text: string): (s: TraceSyntax)
    ensures s == GccSyntax || s == MsvcSyntax
    ensures s == GccSyntax <==> |text| > 0 && text[0] == '.'
  {
    if |text| > 0 && text[0] == '.' then GccSyntax else MsvcSyntax
  }

  /** The message of the exception `read_deps_file` throws when the trace cannot be opened (cpp_dep.cpp:191-193). */
  function OpenError(file: string): string
  {
    "Failed to open " + file + " for reading."
  }

  /**
   * `ReadGccDepsFile` and `ReadMsvcDepsFile` (cpp_dep.cpp:137-183), which
   * differ only in the syntax: a new graph holding the default root, filled
   * by one call at depth 0 from the start of the trace.
   */
  method ReadTrace(text: string, syntax: TraceSyntax, fileSize: string -> nat) returns (g: IncludeGraph)
    ensures fresh(g)
    ensures var r := ParseTrace(text, syntax.prefix, syntax.mark, fileSize);
      g.vertices == r.vertices && g.edges == r.edges
  {
    g := new IncludeGraph();
    var root := g.AddVertex(DefaultVertex());
    assert root == 0 && g.vertices == [DefaultVertex()] && g.edges == [];
    var treeSize, stop;
    ghost var consumed;
    treeSize, stop, consumed := ReadDepsFileRecursive(text, syntax.prefix, syntax.mark, fileSize, root, 0, g, 0, 0);
  }

  /**
   * `read_deps_file` (cpp_dep.cpp:187-206). `contents` is what opening the
   * file gives: nothing when it cannot be opened, which fails with the
   * source's message, or the whole trace, which is read in the format its
   * first character selects.
   */
  method ReadDepsFile(file: string, contents: Option<string>, fileSize: string -> nat)
    returns (result: Result<IncludeGraph, string>)
    ensures contents.None? ==> result == Failure(OpenError(file))
    ensures contents.Some? ==> result.Success? && fresh(result.value)
    ensures contents.Some? ==>
      var syntax := SyntaxOf(contents.value);
      var r := ParseTrace(contents.value, syntax.prefix, syntax.mark, fileSize);
      result.Success? && result.value.vertices == r.vertices && result.value.edges == r.edges
  {
    if contents.None? {
      return Failure(OpenError(file));
    }
    var text := contents.value;
    var g;
    if |text| > 0 && text[0] == '.' {
      g := ReadTrace(text, GccSyntax, fileSize);
    } else {
      g := ReadTrace(text, MsvcSyntax, fileSize);
    }
    result := Success(g);
  }
}

