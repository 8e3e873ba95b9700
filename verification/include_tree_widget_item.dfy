/**
 * `IncludeTreeWidgetItem` of src/ui/include_tree_widget_item.hpp: one row
 * of the include view, with the file, its size in kilobytes, its share of
 * the total in percent and its include order, sortable by any column.
 *
 * `QString::number` and the alignment flags are not modelled: a column
 * holds the number it would print. Sizes are non-negative, so C++'s
 * truncating division agrees with Dafny's.
 */
module IncludeTreeWidgets {

  /** The columns (`Col`). */
  const ColFile := 0
  const ColSize := 1
  const ColPercent := 2
  const ColOrder := 3

  /** The kilobyte figure of the size column: the size in 1024-byte blocks, rounded up. */
  function KiloBytes(size: nat): (kb: nat)
    ensures size <= kb * 1024 < size + 1024
  {
    (size + 1023) / 1024
  }

  /**
   * The percent figure of the percent column as the source computes it,
   * `size * 100 / total` in integer division: a division by zero when the
   * total is 0.
   */
  function PercentAsWritten(size: nat, total: nat): (p: nat)
    requires total != 0
    ensures p * total <= size * 100 < (p + 1) * total
  {
    size * 100 / total
  }

  /** A product bounded by a larger one with the same positive factor has the smaller other factor. */
  lemma MulCancel(a: nat, b: nat, c: nat)
    requires c > 0 && a * c <= b * c
    ensures a <= b
  {
    if a > b {
      MulMonotone(b + 1, a, c);
    }
  }

  /** Multiplying by the same factor keeps the order. */
  lemma {:induction false} MulMonotone(x: nat, y: nat, c: nat)
    requires x <= y
    ensures x * c <= y * c
    decreases c
  {
    if c > 0 {
      MulMonotone(x, y, c - 1);
      assert x * c == x * (c - 1) + x && y * c == y * (c - 1) + y;
    }
  }

  /** The percent figure with a zero total shown as 0 instead of dividing by it. */
  function Percent(size: nat, total: nat): (p: nat)
    ensures total == 0 ==> p == 0
    ensures total != 0 ==> p == PercentAsWritten(size, total)
    ensures size <= total ==> p <= 100
  {
    if total == 0 then 0
    else
      var p := PercentAsWritten(size, total);
      assert size <= total ==> p * total <= 100 * total;
      if size <= total then MulCancel(p, 100, total); p else p
  }

  /** `QString::operator<`: lexicographic order on the characters. */
  predicate TextLess(a: string, b: string)
  {
    if a == [] then b != []
    else b != [] && (a[0] < b[0] || (a[0] == b[0] && TextLess(a[1..], b[1..])))
  }

  lemma {:induction false} TextLessIrreflexive(a: string)
    ensures !TextLess(a, a)
    decreases a
  {
    if a != [] {
      TextLessIrreflexive(a[1..]);
    }
  }

  lemma {:induction false} TextLessTransitive(a: string, b: string, c: string)
    requires TextLess(a, b) && TextLess(b, c)
    ensures TextLess(a, c)
    decreases a
  {
    if a != [] && a[0] == b[0] && b[0] == c[0] {
      TextLessTransitive(a[1..], b[1..], c[1..]);
    }
  }

  class IncludeTreeWidgetItem {
    /** The parent row; null for a top-level row. */
    var parent: IncludeTreeWidgetItem?
    /** The text of the file column. */
    var file: string
    /** `size_`, the figure the size and percent columns sort by. */
    var size: nat
    /** `order_`, the figure the order column sorts by. */
    var order: int
    /** The numbers shown in the size, percent and order columns. */
    var kbShown: nat
    var percentShown: nat
    var orderShown: int

    /** src/ui/include_tree_widget_item.hpp:36-42: a top-level row, with size and order 0. */
    constructor TopLevel()
      ensures parent == null && file == [] && size == 0 && order == 0
      ensures kbShown == 0 && percentShown == 0 && orderShown == 0
    {
      parent := null;
      file := [];
      size, order := 0, 0;
      kbShown, percentShown, orderShown := 0, 0, 0;
    }

    /** src/ui/include_tree_widget_item.hpp:44-48: a row under `parent`, with size and order 0. */
    constructor Under(parent: IncludeTreeWidgetItem)
      ensures this.parent == parent && file == [] && size == 0 && order == 0
      ensures kbShown == 0 && percentShown == 0 && orderShown == 0
    {
      this.parent := parent;
      file := [];
      size, order := 0, 0;
      kbShown, percentShown, orderShown := 0, 0, 0;
    }

    /** src/ui/include_tree_widget_item.hpp:50-53. */
    method SetColumnFile(file: string)
      modifies this
      ensures this.file == file
      ensures parent == old(parent) && size == old(size) && order == old(order)
      ensures kbShown == old(kbShown) && percentShown == old(percentShown) && orderShown == old(orderShown)
    {
      this.file := file;
    }

    /** src/ui/include_tree_widget_item.hpp:55-60: the order is stored and shown. */
    method SetColumnOrder(order: int)
      modifies this
      ensures this.order == order && orderShown == order
      ensures parent == old(parent) && file == old(file) && size == old(size)
      ensures kbShown == old(kbShown) && percentShown == old(percentShown)
    {
      this.order := order;
      orderShown := order;
    }

    /**
     * src/ui/include_tree_widget_item.hpp:62-69: the size is stored, shown
     * in kilobytes rounded up and as a share of `total`; a zero total shows
     * 0 percent (see `PercentAsWritten` for the source's division).
     */
    method SetColumnSize(size: nat, total: nat)
      modifies this
      ensures this.size == size && kbShown == KiloBytes(size) && percentShown == Percent(size, total)
      ensures parent == old(parent) && file == old(file) && order == old(order)
      ensures orderShown == old(orderShown)
    {
      this.size := size;
      kbShown := (size + 1023) / 1024;
      percentShown := if total == 0 then 0 else size * 100 / total;
    }

    /**
     * `operator<` (src/ui/include_tree_widget_item.hpp:85-104) with the
     * view sorted by `column`: the file text for the file column, the size
     * for the size and percent columns, the order for the order column and
     * for any other column.
     */
    predicate Less(other: IncludeTreeWidgetItem, column: int)
      reads this, other
    {
      if column == ColFile then TextLess(file, other.file)
      else if column == ColSize || column == ColPercent then size < other.size
      else order < other.order
    }
  }

  /** Whatever the column, no row sorts before itself. */
  lemma LessIrreflexive(a: IncludeTreeWidgetItem, column: int)
    ensures !a.Less(a, column)
  {
    TextLessIrreflexive(a.file);
  }

  /** Whatever the column, sorting before is transitive, so the rows can be sorted by it. */
  lemma LessTransitive(a: IncludeTreeWidgetItem, b: IncludeTreeWidgetItem, c: IncludeTreeWidgetItem, column: int)
    requires a.Less(b, column) && b.Less(c, column)
    ensures a.Less(c, column)
  {
    if column == ColFile {
      TextLessTransitive(a.file, b.file, c.file);
    }
  }
}
