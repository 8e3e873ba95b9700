# cpp-size include analysis, modelled in Dafny

cpp-size shows how much source text each `#include` of a C++ translation
unit pulls in. Its core has two parts, and this project models both.

The first part is the **include-trace parser** (contrib/cpp_dep). It reads the
text that `g++ -H` or `cl /showIncludes` prints. Each include line starts with
a run of depth marks: dots for GCC, and spaces after the
`Note: including file:` prefix for MSVC. From these lines the parser rebuilds
the include tree as an index-based graph. In that graph, vertex 0 is a default
root. Every other vertex is a file with its size and the total size of
everything below it.

The second part is a set of **stack and queue algorithms** in the user
interface:

- the two filters, which keep every include that matches and every include
  on the path down to it;
- the size calculator, which rolls up sizes with a stack while skipping files
  that unchecked items pull in;
- the first tree builder, which rolls up sizes through Boost's depth-first
  search;
- the coalescing work queue, which holds the running job and at most one job
  waiting behind it;
- the arithmetic and the sort order of the size and percent columns;
- the simple tree-item container.

Layout, one module per file:

| file | module | models |
|---|---|---|
| wrappers.dfy | Wrappers | `Option` and `Result` |
| cpp_dep_graph.dfy | IncludeGraphs | `include_vertex_t` and the `vecS` graph (contrib/cpp_dep/cpp_dep.hpp) |
| trace_scan.dfy | TraceScan | `getline`, prefix skipping and depth-mark counting, over the text |
| trace_parse.dfy | TraceParse | what one call of the recursive reader computes, on the list of lines, and its soundness |
| cpp_dep.dfy | CppDep | the recursive reader and `read_deps_file`, proved equal to `TraceParse` |
| traversal.dfy | IncludeTraversals | the enter/leave walk the views are driven by |
| tree_view_filter.dfy | TreeViewFilter | src/ui/tree_view_filter.hpp |
| filtered_tree_view_builder.dfy | FilteredTreeViewBuilder | src/ui/filtered_tree_view_builder.hpp |
| include_size_calculator.dfy | TreeViewIncludeSizeCalculator | src/ui/tree_view_include_size_calculator.hpp |
| legacy_tree_view_builder.dfy | LegacyTreeViewBuilder | `tree_view_builder` of ui/dialog.cpp |
| work_queue.dfy | WorkQueues | `run_or_enqueue` and `dequeue_and_run` of src/ui/dialog.hpp |
| include_tree_widget_item.dfy | IncludeTreeWidgets | src/ui/include_tree_widget_item.hpp |
| include_tree_item.dfy | IncludeTreeItems | ui/include_tree_item.cpp |
| vectors.dfy | Vectors | `std::vector::resize` |
| findings.dfy | PercentFinding | the empty-trace input behind the finding below |

The source's loops and in-place updates are kept as they are:

- the reader is a recursive `method` that appends to an `IncludeGraph` object;
- every visitor is a `class` whose fields are its stacks and flag vectors.

Each method is proved against a pure function or predicate: `ParseCall`,
`Shown`/`ShownIndices`, `RolledUp`, `TreeSize`/`Finished`, `Percent`. The
properties the source promises are then proved about those functions.

The views never walk the graph themselves. The visitor base
`inferred_include_visitor` does that, and it is not part of this model. It is
modelled as a tree of `Include` nodes. Each node gives the widget item of one
include, the vertex it shows and the includes below it. The views' own
`Visit` methods drive the callbacks over that tree in the order the views rely
on:

- `root_file` on the root;
- then, in depth-first preorder, `include_file` on entering each further
  include and `finish_file` on leaving it;
- last, `finish_file` on the root.

`get_current_include_index` is the node's `index`. `get_current_include_count`
is the parameter `count`.

## Model

| member | source | states |
|---|---|---|
| TraceScan.GetLine | contrib/cpp_dep/cpp_dep.cpp:31-45 | The line is exactly the text before the first '\n', with no '\n' in it. Reading resumes past that '\n' and at most one '\r' right after it. A '\r' before the '\n' stays in the line. |
| TraceScan.LineAfter | contrib/cpp_dep/cpp_dep.cpp:38-44 | `getline` always advances on non-empty input. It steps over at most two characters after the line, and a second one is a '\r'. |
| TraceScan.NewlineFromFirst | contrib/cpp_dep/cpp_dep.cpp:35-36 | No '\n' comes before the position where the copy stops. |
| TraceScan.SkipPrefix | contrib/cpp_dep/cpp_dep.cpp:69-70 | The prefix loop stops at the end of the longest stretch that agrees with the prefix, bounded by the prefix's length. |
| TraceScan.PrefixEndMatches | contrib/cpp_dep/cpp_dep.cpp:69-70 | Every skipped character matches the prefix. Skipping stops at the prefix's end, the text's end or a mismatch. |
| TraceScan.CountDepthMarks | contrib/cpp_dep/cpp_dep.cpp:72-76 | The depth is the length of the run of marks after the prefix, and the run ends at a non-mark or at the end. |
| TraceScan.MarkEndRun | contrib/cpp_dep/cpp_dep.cpp:72-76 | Every character the depth run covers is a mark. |
| TraceScan.ReplaceBackslashes | contrib/cpp_dep/cpp_dep.cpp:98-103 | The result has the same length and holds no backslash. |
| TraceScan.ReplaceBackslashesAt | contrib/cpp_dep/cpp_dep.cpp:98-103 | Each backslash becomes '/' and every other character stays. |
| TraceScan.PathStart | contrib/cpp_dep/cpp_dep.cpp:93-95 | A path starts after the marks, skipping at most one space. |
| TraceScan.FileLineScan | contrib/cpp_dep/cpp_dep.cpp:93-104 | A line with marks yields the rest of the line after an optional space, with its backslashes replaced, and the next line starts where `getline` leaves off. |
| TraceScan.NoiseLineScan | contrib/cpp_dep/cpp_dep.cpp:78-83 | A line without marks is skipped with `getline` from where the marks would end. |
| TraceScan.ScanLine | contrib/cpp_dep/cpp_dep.cpp:66-104 | Scanning a line always advances and never yields a path with a backslash. |
| TraceScan.LinesSuffix | contrib/cpp_dep/cpp_dep.cpp:64-67 | Scanning the text from the start of the k-th line gives exactly the lines from k on. |
| TraceScan.LineAt | contrib/cpp_dep/cpp_dep.cpp:64-67 | The k-th line is the one scanned at its start, and the next line starts where it ends. |
| TraceScan.LinesBounded | contrib/cpp_dep/cpp_dep.cpp:64 | Every line starts inside the text, at or after the reading position. |
| TraceScan.ReadLineHead | contrib/cpp_dep/cpp_dep.cpp:66-76 | Reading a line's head gives that line's depth. On a line without marks, `getline` from there reaches the next line. |
| TraceScan.ReadLinePath | contrib/cpp_dep/cpp_dep.cpp:93-104 | Reading a marked line gives its path and the start of the next line. |
| TraceScan.FilesAppend | contrib/cpp_dep/cpp_dep.cpp:105-110 | The file names of consecutive runs of lines concatenate. |
| TraceScan.LinesClean | contrib/cpp_dep/cpp_dep.cpp:98-103 | No line of any trace has a backslash in its path. |
| TraceScan.WellNestedWeaken | contrib/cpp_dep/cpp_dep.cpp:85-91 | A trace that is well nested from one depth is well nested from any deeper one. |
| TraceScan.WellNestedStop | contrib/cpp_dep/cpp_dep.cpp:85-89 | A well-nested run that stops at a line the caller may read is well nested for the caller. |
| IncludeGraphs.DefaultVertex | contrib/cpp_dep/cpp_dep.hpp:29-34 | The default vertex has an empty name, size 0, dependency size 0 and is not a repeat. |
| IncludeGraphs.NewVertex | contrib/cpp_dep/cpp_dep.hpp:36-41 | The three-argument vertex keeps name, size and flag as given, and its dependency size starts at 0. |
| IncludeGraphs.IncludeGraph.constructor | contrib/cpp_dep/cpp_dep.hpp:52-58 | A new graph has no vertices and no edges. |
| IncludeGraphs.IncludeGraph.AddVertex | contrib/cpp_dep/cpp_dep.hpp:52-58 | A new vertex is appended and its descriptor is the next index. |
| IncludeGraphs.IncludeGraph.AddEdge | contrib/cpp_dep/cpp_dep.hpp:52-58 | A new edge is appended and always accepted, and the vertices are unchanged. |
| IncludeGraphs.SumSizesAppend | contrib/cpp_dep/cpp_dep.cpp:109 | Size totals add up over concatenated runs of vertices. |
| IncludeGraphs.ChildTotalBump | contrib/cpp_dep/cpp_dep.cpp:131-132 | Changing one vertex's weight in a tree changes only its parent's child total, and by the same amount. |
| TraceParse.ParseCall | contrib/cpp_dep/cpp_dep.cpp:58-133 | One call never drops a vertex and reads at most the remaining lines. It reads at least one line unless the first line is at its depth or above. |
| TraceParse.ParseLines | contrib/cpp_dep/cpp_dep.cpp:64-129 | The rest of a call's loop only adds vertices and moves forward. |
| TraceParse.ParseLinesSkip | contrib/cpp_dep/cpp_dep.cpp:78-83 | A line without marks, or a line one level down with an empty path, is consumed and adds nothing. |
| TraceParse.ParseLinesChild | contrib/cpp_dep/cpp_dep.cpp:91-114 | A line one level down with a path adds exactly one vertex and one edge from the parent, and the running total grows by its size. |
| TraceParse.ParseLinesNested | contrib/cpp_dep/cpp_dep.cpp:115-128 | A deeper line starts a nested call on the vertex added last, and the caller continues from the graph and line count that call returns. |
| TraceParse.ParseLinesStop | contrib/cpp_dep/cpp_dep.cpp:85-89 | A line at the call's depth or above is not consumed. The call ends and stores its total as the parent's dependency size. |
| TraceParse.ParseLinesSound | contrib/cpp_dep/cpp_dep.cpp:64-132 | From any point of the loop that keeps its invariant, the rest of the call meets everything a finished call promises. |
| TraceParse.AddChild | contrib/cpp_dep/cpp_dep.cpp:108-112 | Adding a child keeps the tree shape and the existing vertices, and extends the added names and sizes by the child's. |
| TraceParse.AddChildNested | contrib/cpp_dep/cpp_dep.cpp:108-112 | On a well-nested trace, a new child is a closed leaf and raises its parent's child total by its size. |
| TraceParse.Recurse | contrib/cpp_dep/cpp_dep.cpp:115-128 | A nested call keeps everything the caller promises about the graph. |
| TraceParse.RecurseNested | contrib/cpp_dep/cpp_dep.cpp:118-127 | On a well-nested trace, the parent's child total grows by exactly the dependency size the nested call stores for the child. |
| TraceParse.FinalWrite | contrib/cpp_dep/cpp_dep.cpp:131-132 | Storing the parent's dependency size keeps the tree shape and the added vertices. |
| TraceParse.FinalWriteNested | contrib/cpp_dep/cpp_dep.cpp:132 | Storing the parent's dependency size changes no vertex's child total. |
| TraceParse.FinishState | contrib/cpp_dep/cpp_dep.cpp:131-132 | After the last line of a call, the parent's dependency size is the sum of the sizes of all the vertices the call added. |
| TraceParse.NoiseStep | contrib/cpp_dep/cpp_dep.cpp:78-83 | Skipping an unmarked line keeps the loop invariant. |
| TraceParse.ChildStep | contrib/cpp_dep/cpp_dep.cpp:91-114 | Adding a child keeps the loop invariant: the names read so far and their size total. |
| TraceParse.NestedCallStep | contrib/cpp_dep/cpp_dep.cpp:115-128 | A nested call keeps the loop invariant and reads at least one line. |
| TraceParse.ParseCallSound | contrib/cpp_dep/cpp_dep.cpp:58-133 | Every call does the following on any trace: it stops at the end or on an unread line at its depth or above; it adds one vertex per file line, in order and sized by the lookup; it keeps the tree shape; and it stores the sum of the added sizes as the parent's dependency size. On a well-nested trace, every vertex it touches carries its children's total. |
| TraceParse.ParseTrace | contrib/cpp_dep/cpp_dep.cpp:137-158 | The graph of a trace always holds at least the root. |
| TraceParse.ParseTraceSound | contrib/cpp_dep/cpp_dep.cpp:137-183 | Parsing a trace reads every line and gives a tree rooted at a default vertex 0. The other vertices are the trace's file names in order, sized by the lookup, with no backslash in any name. The root's dependency size is the total of all sizes. On a well-nested trace, where no marked line skips a level or has an empty path, every vertex's dependency size is the sum over its children of their size plus their dependency size. |
| TraceParse.SkippedLevelUnderRoot | contrib/cpp_dep/cpp_dep.cpp:58-133 | On the trace `.a` then `...b`, which skips a level, `b` becomes a child of the root, `a`'s dependency size is the size of `b` all the same, and the root's dependency size is both sizes. The trace is not well nested. |
| TraceParse.EmptyPathSplitsChildren | contrib/cpp_dep/cpp_dep.cpp:58-133 | On the trace `.a`, `..b`, `.`, `..c`, the line `.` names no file and is skipped, and `..c` starts a second call on `a`. Both `b` and `c` become children of `a`, but `a`'s dependency size is the size of `c` alone, while the root's is all three sizes. The trace is not well nested. |
| CppDep.ReadDepsFileRecursive | contrib/cpp_dep/cpp_dep.cpp:49-133 | The imperative reader leaves exactly the graph of `ParseCall` on the lines from `current`. It reads that many lines and stops at the start of the first unread line. The caller's `size` grows by the dependency size it stores for `parent`. |
| CppDep.ReadTraceLine | contrib/cpp_dep/cpp_dep.cpp:66-128 | One turn of the loop stops exactly on a line at depth 1 to `depth`, and otherwise reads forward. The rest of the call is the same function as before. |
| CppDep.ReadNestedLines | contrib/cpp_dep/cpp_dep.cpp:115-128 | The nested branch reads at least one line and leaves the rest of the call unchanged. |
| CppDep.SyntaxOf | contrib/cpp_dep/cpp_dep.cpp:198-205 | A trace is read as GCC exactly when its first character is '.', and as MSVC otherwise, including when it is empty. |
| CppDep.ReadTrace | contrib/cpp_dep/cpp_dep.cpp:137-183 | The GCC and MSVC readers give exactly the graph of `ParseTrace` for their syntax. |
| CppDep.ReadDepsFile | contrib/cpp_dep/cpp_dep.cpp:187-206 | A file that cannot be opened fails with the source's message. Otherwise the result is the graph of the trace in the format its first character selects. |
| IncludeTraversals.AnyShownIffSomePasses | src/ui/tree_view_filter.hpp:63-69 | A forest holds a kept include exactly when one of its vertices passes the filter. |
| IncludeTraversals.ShownVerticesShown | src/ui/filtered_tree_view_builder.hpp:64-78 | Kept vertices are vertices of the forest, and some are kept exactly when some include is kept. |
| TreeViewFilter.FilterBuilder.constructor | src/ui/tree_view_filter.hpp:51-54 | Every item starts not visible and the stack is empty. |
| TreeViewFilter.FilterBuilder.RootFile | src/ui/tree_view_filter.hpp:56-59 | The root's item is pushed and no flag changes. |
| TreeViewFilter.FilterBuilder.IncludeFile | src/ui/tree_view_filter.hpp:61-73 | A passing include makes its item and every item on the stack visible. No flag is ever cleared, and exactly one item is pushed. |
| TreeViewFilter.FilterBuilder.FinishFile | src/ui/tree_view_filter.hpp:75-78 | Exactly one item is popped and no flag changes. |
| TreeViewFilter.FilterBuilder.VisitInclude | src/ui/tree_view_filter.hpp:61-78 | After one include and everything below it, the stack is as before. The items of kept includes are visible, and so is the path above when the include is kept. |
| TreeViewFilter.FilterBuilder.VisitIncludes | src/ui/tree_view_filter.hpp:61-78 | After a run of sibling includes, the stack is as before. The items of kept includes are visible, and so is the path above when any of them is kept. |
| TreeViewFilter.FilterBuilder.Visit | src/ui/tree_view_filter.hpp:46-78 | After the whole walk, an item is visible exactly when it was visible before, belongs to a kept include, or is the root, or was on the stack, while something below the root is kept. |
| TreeViewFilter.FilterTreeView | src/ui/tree_view_filter.hpp:29-39 | An item is hidden exactly when neither it nor any include below it passes the filter. The root is hidden when nothing below it passes. |
| FilteredTreeViewBuilder.FilterBuilder.constructor | src/ui/filtered_tree_view_builder.hpp:49-52 | The builder writes into the caller's flags, and nothing is visited or on the stack. |
| FilteredTreeViewBuilder.FilterBuilder.RootFile | src/ui/filtered_tree_view_builder.hpp:54-58 | `visited` is resized to one flag per vertex and the root is pushed. |
| FilteredTreeViewBuilder.FilterBuilder.IncludeFile | src/ui/filtered_tree_view_builder.hpp:60-81 | The vertex is marked visited. A passing vertex is kept, along with every vertex on the stack. No keeper is cleared, and exactly one vertex is pushed. |
| FilteredTreeViewBuilder.FilterBuilder.FinishFile | src/ui/filtered_tree_view_builder.hpp:83-86 | Exactly one vertex is popped and no flag changes. |
| FilteredTreeViewBuilder.FilterBuilder.VisitInclude | src/ui/filtered_tree_view_builder.hpp:60-86 | Every vertex at or below the include is visited, and the vertices of kept includes are kept. The stack is unchanged. |
| FilteredTreeViewBuilder.FilterBuilder.VisitIncludes | src/ui/filtered_tree_view_builder.hpp:60-86 | After a run of sibling includes, their vertices are visited and the vertices of kept includes are kept, along with the stack when any is kept. The stack is unchanged. |
| FilteredTreeViewBuilder.FilterBuilder.Visit | src/ui/filtered_tree_view_builder.hpp:44-86 | After the whole walk, exactly the vertices that were kept before, or that belong to kept includes, or the root when something below it is kept, are kept. Exactly the vertices that were visited before or that the walk reached are visited. |
| FilteredTreeViewBuilder.FilterApplier.Filter | src/ui/filtered_tree_view_builder.hpp:101-104 | `filter` is the builder's flag for the vertex. It has no contract of its own; `BuildFilteredTreeView` states exactly which vertices it holds for. |
| FilteredTreeViewBuilder.BuildFilteredTreeView | src/ui/filtered_tree_view_builder.hpp:29-37 | There is one flag per vertex, and `filter(v)` holds exactly for the vertices of kept includes, and for the root when anything below it passes. |
| FilteredTreeViewBuilder.FilterApplier.constructor | src/ui/filtered_tree_view_builder.hpp:96-99 | The applier holds the flags the builder computed. |
| TreeViewIncludeSizeCalculator.IncludeSizeCalculator.constructor | src/ui/tree_view_include_size_calculator.hpp:27-30 | The calculator holds the items, and its stack, skip counts, counter and recorded sizes start empty or at 0. |
| TreeViewIncludeSizeCalculator.IncludeSizeCalculator.IncludeFile | src/ui/tree_view_include_size_calculator.hpp:59-104 | An unchecked item raises the counter. The vertex's skip count rises exactly when the counter is then positive. The push is the file's size when include count minus skip count is 1, and 0 otherwise. |
| TreeViewIncludeSizeCalculator.IncludeSizeCalculator.FinishFile | src/ui/tree_view_include_size_calculator.hpp:106-118 | The top total is popped, added to the one below and recorded as the item's size. Leaving an unchecked item lowers the counter, which stays the number of unchecked items on the path. |
| TreeViewIncludeSizeCalculator.IncludeSizeCalculator.RootFile | src/ui/tree_view_include_size_calculator.hpp:42-46 | The stack gets 0 and then the root's size, and an unchecked root raises the counter. |
| TreeViewIncludeSizeCalculator.IncludeSizeCalculator.VisitInclude | src/ui/tree_view_include_size_calculator.hpp:59-118 | An include's item shows its charge plus what the items directly below it show, and every include below rolls up the same way. The running total grows by that amount, no other item changes and skip counts only grow. With every item checked, skip counts stay the same. |
| TreeViewIncludeSizeCalculator.IncludeSizeCalculator.VisitIncludes | src/ui/tree_view_include_size_calculator.hpp:59-118 | After a run of sibling includes, every item in it is rolled up and the running total grows by what their items show together. No other item changes. |
| TreeViewIncludeSizeCalculator.IncludeSizeCalculator.VisitRoot | src/ui/tree_view_include_size_calculator.hpp:42-48 | The root's item shows its own size plus what the items directly below it show, and the counter returns to 0. |
| TreeViewIncludeSizeCalculator.IncludeSizeCalculator.Calculate | src/ui/tree_view_include_size_calculator.hpp:34-48 | On a non-empty graph the following hold: the sizes are rolled up, items outside the walk show 0, and no item shows more than the root. With everything checked, the root shows its own size plus the sum, over the files below it, of each file's size counted only when it is included once more than it is skipped. An empty graph records nothing. |
| TreeViewIncludeSizeCalculator.IncludeSizeCalculator.ShowSizes | src/ui/tree_view_include_size_calculator.hpp:50-51 | Every item with a recorded size gets that size, in kilobytes and as a percent of the root's size. Items beyond the recorded sizes keep their size columns. No item's parent, file, order or shown order changes. |
| TreeViewIncludeSizeCalculator.IncludeSizeCalculator.Run | src/ui/tree_view_include_size_calculator.hpp:32-53 | On a non-empty graph, `operator()` writes every item's size, kilobytes and percent, never above 100, with the root's size as the total. An empty graph writes no item. Neither case changes any item's parent, file, order or shown order. |
| TreeViewIncludeSizeCalculator.RolledUpIsTreeSize | src/ui/tree_view_include_size_calculator.hpp:78-111 | With fixed skip counts, the roll-up equals the first tree builder's `TreeSize`, with each file counted by `OnceSize`. |
| TreeViewIncludeSizeCalculator.ItemWithinRecorded | src/ui/tree_view_include_size_calculator.hpp:108-111 | No item of a rolled-up forest shows more than the forest's top-level items together. |
| TreeViewIncludeSizeCalculator.NoneUnchecked | src/ui/tree_view_include_size_calculator.hpp:65-69 | With every item checked, the counter is 0 on every path, so no skip count rises. |
| TreeViewIncludeSizeCalculator.ForestStep | src/ui/tree_view_include_size_calculator.hpp:108-111 | Rolling up a forest one include at a time rolls up the whole forest, and its top-level total is the first item's plus the rest's. |
| LegacyTreeViewBuilder.TreeViewBuilder.StartVertex | ui/dialog.cpp:16-24 | The root starts a total of 0. |
| LegacyTreeViewBuilder.TreeViewBuilder.TreeEdge | ui/dialog.cpp:26-49 | Every total on the stack grows by the target's size, then the target's size is pushed. |
| LegacyTreeViewBuilder.TreeViewBuilder.FinishVertex | ui/dialog.cpp:51-58 | The top total is written for the current item and popped, and the parent becomes current. |
| LegacyTreeViewBuilder.TreeViewBuilder.VisitTreeEdge | ui/dialog.cpp:26-58 | The target's item shows its own size plus the size of everything below it, and every total on the path grows by that much. |
| LegacyTreeViewBuilder.TreeViewBuilder.VisitTreeEdges | ui/dialog.cpp:26-58 | After the tree edges from one vertex, each target shows its tree size, in postorder, and every total on the path grows by the size of the forest. |
| LegacyTreeViewBuilder.TreeViewBuilder.DepthFirstSearch | ui/dialog.cpp:16-58 | Every file below the root shows its tree size, in postorder, and the root shows the size of everything below it. The stack stays one total per file on the path. |
| LegacyTreeViewBuilder.ForestSizeIsTotal | ui/dialog.cpp:34-44 | A forest's size is the plain total of the sizes of the files the search discovers in it. |
| LegacyTreeViewBuilder.TreeViewBuilder.constructor | ui/dialog.cpp:11-14 | No current item, no totals and nothing written. |
| LegacyTreeViewBuilder.Discovered | ui/dialog.cpp:26-29 | The search discovers exactly the vertices of the forest. |
| WorkQueues.WorkQueue.RunOrEnqueue | src/ui/dialog.hpp:73-92 | A waiting job is dropped only when two are queued, and never the running front. The new job goes at the back. It starts exactly when the queue was empty. At most two jobs are ever queued. |
| WorkQueues.WorkQueue.DequeueAndRun | src/ui/dialog.hpp:94-104 | The front job leaves the queue and the waiting job, if any, starts. An empty queue is unchanged. |
| WorkQueues.WorkQueue.constructor | src/ui/dialog.hpp:106 | The queue starts empty and nothing has started. |
| IncludeTreeWidgets.KiloBytes | src/ui/include_tree_widget_item.hpp:65 | The kilobyte figure is the size divided by 1024, rounded up. |
| IncludeTreeWidgets.PercentAsWritten | src/ui/include_tree_widget_item.hpp:66 | The percent is `size*100/total` rounded down, and is defined only for a non-zero total. |
| IncludeTreeWidgets.Percent | src/ui/include_tree_widget_item.hpp:66 | The corrected percent agrees with the source's on a non-zero total, shows 0 on a zero total, and is at most 100 when size does not exceed the total. |
| IncludeTreeWidgets.IncludeTreeWidgetItem.TopLevel | src/ui/include_tree_widget_item.hpp:36-42 | A new top-level item has size 0 and order 0. |
| IncludeTreeWidgets.IncludeTreeWidgetItem.Under | src/ui/include_tree_widget_item.hpp:44-48 | A new child item has its parent, size 0 and order 0. |
| IncludeTreeWidgets.IncludeTreeWidgetItem.SetColumnFile | src/ui/include_tree_widget_item.hpp:50-53 | The file text is set and nothing else changes. |
| IncludeTreeWidgets.IncludeTreeWidgetItem.SetColumnOrder | src/ui/include_tree_widget_item.hpp:55-60 | The order is stored and shown, and nothing else changes. |
| IncludeTreeWidgets.IncludeTreeWidgetItem.SetColumnSize | src/ui/include_tree_widget_item.hpp:62-69 | The size is stored and shown in kilobytes and as a percent of the total. The percent agrees with the source's division on every non-zero total, and a zero total shows 0 percent instead of dividing by it (see Findings). The parent, file and order columns are unchanged. |
| IncludeTreeWidgets.IncludeTreeWidgetItem.Less | src/ui/include_tree_widget_item.hpp:85-104 | `operator<` sorts by file text for the file column, by size for the size and percent columns, and by order for the order column and any other. It has no contract of its own; `LessIrreflexive` and `LessTransitive` prove it a strict order. |
| IncludeTreeWidgets.LessIrreflexive | src/ui/include_tree_widget_item.hpp:85-104 | No item sorts before itself, in any column. |
| IncludeTreeWidgets.LessTransitive | src/ui/include_tree_widget_item.hpp:85-104 | The column order is transitive: file text for the file column, size for the size and percent columns, and order for the rest. |
| IncludeTreeWidgets.TextLessTransitive | src/ui/include_tree_widget_item.hpp:93 | Lexicographic text order is transitive. |
| IncludeTreeItems.IncludeTreeItem.constructor | ui/include_tree_item.cpp:51-55 | Data and parent are stored as given, with no children. |
| IncludeTreeItems.IncludeTreeItem.AppendChild | ui/include_tree_item.cpp:62-65 | The child count grows by one, the new item is in the last row and earlier rows are unchanged. |
| IncludeTreeItems.IncludeTreeItem.Child | ui/include_tree_item.cpp:67-70 | Gives the child in that row, or null out of range. |
| IncludeTreeItems.IncludeTreeItem.ChildCount | ui/include_tree_item.cpp:72-75 | The child count is exactly the number of rows `child` finds an item in: rows 0 to count-1, and no other. |
| IncludeTreeItems.IncludeTreeItem.ColumnCount | ui/include_tree_item.cpp:77-80 | The column count is exactly the number of columns `data` has a value for: columns 0 to count-1, and no other. |
| IncludeTreeItems.IncludeTreeItem.Data | ui/include_tree_item.cpp:82-85 | Gives a value exactly for a column below the column count, and that value is the column's entry. |
| IncludeTreeItems.IncludeTreeItem.ParentItem | ui/include_tree_item.cpp:87-90 | An item without a parent is in row 0. A parent that holds the item has it as the child in the item's row, so `parentItem()->child(row())` leads back to the item. |
| IncludeTreeItems.IncludeTreeItem.Row | ui/include_tree_item.cpp:92-98 | An item without a parent is in row 0. Otherwise the row is the first position where the parent holds the item, or -1 if the parent does not hold it. |
| IncludeTreeItems.IndexOf | ui/include_tree_item.cpp:95 | `indexOf` gives the first position of the item, or -1 exactly when it is absent. |
| IncludeTreeItems.RowOfAppended | ui/include_tree_item.cpp:62-65 | A child appended once has the child count before the append as its row. |
| Vectors.Resize | src/ui/filtered_tree_view_builder.hpp:56 | A resize keeps the existing entries below the new size and fills the rest with the given value. |
| PercentFinding.EmptyTraceTotalIsZero | contrib/cpp_dep/cpp_dep.cpp:137-158 | An empty trace parses to the root alone, whose size plus dependency size is 0. |
| PercentFinding.EmptyTracePercent | src/ui/dialog.cpp:169 | With the corrected percent, the root item of an empty trace shows 0 percent. |

## Left out

- Reading the trace file and `get_file_size` are not modelled as code. The file's contents are an `Option<string>` parameter, where `None` means it could not be opened. The size lookup is an uninterpreted `fileSize: string -> nat`. `QFileInfo::size` in ui/dialog.cpp is the parameter `size`.
- `line_number` is dropped because nothing reads it.
- The `tree_size` out-parameter of the GCC and MSVC readers is uninitialised in the source. Its value is discarded here.
- The prefix loop of the reader compares against the prefix's terminating NUL. The model bounds it by the prefix's length, which differs only on a trace that holds a NUL there.
- `*current == ' '` is read without an end check in the source. The model checks for the end first.
- The header's vertex constructor takes three arguments, but the reader calls it with two (contrib/cpp_dep/cpp_dep.cpp:110). The model uses the three-argument constructor with `already_included` false.
- The parser shown does no deduplication and no lower-casing, and never sets `already_included`. None of these is modelled.
- Every call of the reader starts with the root, descriptor 0, as its last-added vertex (contrib/cpp_dep/cpp_dep.cpp:61). A line two or more levels below the call recurses on that vertex (contrib/cpp_dep/cpp_dep.cpp:115-128). So in a trace that skips a level anywhere, the deeper file gets an edge from the root, while the dependency size of the file above it still counts that file. The root's own dependency size is overwritten afterwards and stays the total of all sizes. The model does this as the code does, and `TraceParse.SkippedLevelUnderRoot` shows it on `.a` followed by `...b`. A marked line one level below the call whose path is empty is read and skipped, and the vertex added last stays as it was (contrib/cpp_dep/cpp_dep.cpp:105-106). If such a line ends a nested call and a deeper line follows it, that deeper line starts a second nested call on the same vertex. The second call overwrites the vertex's dependency size with the total of its own children only (contrib/cpp_dep/cpp_dep.cpp:118-132). `TraceParse.EmptyPathSplitsChildren` shows this on `.a`, `..b`, `.`, `..c`: `b` and `c` are both children of `a`, but `a`'s dependency size is the size of `c`. For these two reasons, `TraceParse.ParseTraceSound` promises the per-vertex child totals only on well-nested traces (`TraceScan.WellNested`), where no line skips a level and every marked line names a file. GCC and MSVC print each include one level below the file that includes it, always with a file name, so their traces are well nested.
- `invert_to_paths` is only declared, so it is not part of this model.
- All sizes are unbounded naturals. The 64-bit wrap-around of `std::size_t` and `qint64` is not modelled, nor are negative `qint64` sizes.
- The unsigned difference `get_current_include_count(v) - skip_count_by_vertex_[v] == 1` is modelled as `count == skip + 1`. This is the same test as long as nothing wraps around.
- `inferred_include_visitor` is not part of this model. Its enter/leave stream is modelled as a walk over an `Include` tree. Its include counts are the parameter `count`, and an item's check state is the parameter `checked`; both are fixed during a run.
- The calculator never clears `size_stack_` and never resets the skip counts between runs. It only resizes them. The model keeps both as they are, so a second run starts from the first run's skip counts.
- Qt is not modelled: widgets, item creation in the first tree builder, background colours, row expansion, `expanded_counter_`, text alignment and `QString::number` formatting. A column holds the number it would print.
- `QString::operator<` is modelled as lexicographic order on `char`s. The order of UTF-16 code units is not modelled.
- The `Q_ASSERT` on an unknown sort column is not modelled. Such a column sorts by order, as in a release build.
- `QtConcurrent::run` and the future watcher are modelled only as appending the job to `started`. Concurrency and the jobs' results are not modelled.
- The first tree builder runs Boost's depth-first search on a tree, which is the shape every parse produces. There every edge is a tree edge, and the search is modelled as a walk over that tree. Back, forward and cross edges do nothing in the source's visitor and are not modelled.
- The destructor of `IncludeTreeItem` (ui/include_tree_item.cpp:57-60) only frees memory and is not modelled.
- `FilteredTreeViewBuilder.FilterApplier.Filter` is the plain lookup `keepers_[v]`. What it means is stated by `BuildFilteredTreeView`. Building the Qt view from it (`tree_view_builder_base`) is not part of this model.

## Findings

| source | as written | input that shows it | evidently intended | confidence | as-written member | corrected member |
|---|---|---|---|---|---|---|
| src/ui/include_tree_widget_item.hpp:66 | `(size * 100) / total_size` on `qint64`, with no check of the total | An empty trace, for example a translation unit with no includes. Its graph is the default root alone, with size 0 and dependency size 0. So the total passed at src/ui/dialog.cpp:169 and at src/ui/tree_view_include_size_calculator.hpp:51, which is `size_by_index_[0]`, is 0, and the root's item divides by zero. | A zero total shows 0 percent. | medium, not executed | IncludeTreeWidgets.PercentAsWritten, PercentFinding.EmptyTraceTotalIsZero | IncludeTreeWidgets.Percent, IncludeTreeWidgets.IncludeTreeWidgetItem.SetColumnSize |
