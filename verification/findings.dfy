/**
 * The percent column on an empty trace: the graph of a trace with no
 * include lines is the default root alone, whose size and dependency size
 * are both 0. The total every item's percent is divided by
 * (src/ui/dialog.cpp:169 and src/ui/tree_view_include_size_calculator.hpp:51)
 * is then 0, which `PercentAsWritten` cannot take and `Percent` shows as 0.
 */
module PercentFinding {
  import opened IncludeGraphs
  import opened TraceScan
  import opened TraceParse
  import opened IncludeTreeWidgets

  /** An empty trace parses to the root alone, with a total size of 0. */
  lemma EmptyTraceTotalIsZero(prefix: string, mark: char, fileSize: string -> nat)
    ensures var r := ParseTrace([], prefix, mark, fileSize);
      r.vertices == [DefaultVertex()] && r.vertices[0].size + r.vertices[0].sizeDependencies == 0
  {
    assert Lines([], prefix, mark, 0) == [];
  }

  /** On that total the corrected column shows 0 percent for the root's own size. */
  lemma EmptyTracePercent(prefix: string, mark: char, fileSize: string -> nat)
    ensures var root := ParseTrace([], prefix, mark, fileSize).vertices[0];
      Percent(root.size, root.size + root.sizeDependencies) == 0
  {
    EmptyTraceTotalIsZero(prefix, mark, fileSize);
  }
}
