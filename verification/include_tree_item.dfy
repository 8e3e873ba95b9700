/**
 * `IncludeTreeItem` of ui/include_tree_item.cpp: a node of a simple item
 * model, holding one row of column data, its children in order and a
 * link back to its parent. `QVariant` is the type parameter `T`; an
 * empty `QVariant` is `None`.
 */
module IncludeTreeItems {
  import opened Wrappers

  /** `QList::indexOf`: the position of the first occurrence of `x`, or -1. */
  function IndexOf<T(==)>(s: seq<T>, x: T): (i: int)
    ensures -1 <= i < |s|
    ensures i == -1 <==> x !in s
    ensures 0 <= i ==> s[i] == x && x !in s[..i]
  {
    if s == [] then -1
    else if s[0] == x then 0
    else
      var i := IndexOf(s[1..], x);
      if i == -1 then -1
      else
        assert s[..i + 1] == [s[0]] + s[1..][..i];
        i + 1
  }

  class IncludeTreeItem<T> {
    /** `m_itemData`: one value per column. */
    var itemData: seq<T>
    /** `m_parentItem`; null for the invisible root of the model. */
    var parent: IncludeTreeItem?<T>
    /** `m_childItems`, in row order. */
    var childItems: seq<IncludeTreeItem<T>>

    /** ui/include_tree_item.cpp:51-55: the data and parent are kept as given; there are no children yet. */
    constructor (data: seq<T>, parent: IncludeTreeItem?<T>)
      ensures itemData == data && this.parent == parent && childItems == []
    {
      itemData := data;
      this.parent := parent;
      childItems := [];
    }

    /** ui/include_tree_item.cpp:62-65: the item becomes the last child; the earlier rows are untouched. */
    method AppendChild(item: IncludeTreeItem<T>)
      modifies this
      ensures childItems == old(childItems) + [item]
      ensures itemData == old(itemData) && parent == old(parent)
      ensures ChildCount() == old(ChildCount()) + 1 && Child(old(ChildCount())) == item
      ensures forall row :: 0 <= row < old(ChildCount()) ==> Child(row) == old(Child(row))
    {
      childItems := childItems + [item];
    }

    /** ui/include_tree_item.cpp:67-70: the child in `row`, or null when there is no such row. */
    function Child(row: int): (c: IncludeTreeItem?<T>)
      reads this
      ensures 0 <= row < |childItems| ==> c == childItems[row]
      ensures !(0 <= row < |childItems|) ==> c == null
    {
      if 0 <= row < |childItems| then childItems[row] else null
    }

    /** ui/include_tree_item.cpp:72-75: the number of children, which are exactly the rows `Child` finds an item in. */
    function ChildCount(): (n: nat)
      reads this
      ensures forall row :: Child(row) != null <==> 0 <= row < n
    {
      |childItems|
    }

    /** ui/include_tree_item.cpp:77-80: the number of columns, which are exactly the columns `Data` has a value for. */
    function ColumnCount(): (n: nat)
      reads this
      ensures forall column :: Data(column).Some? <==> 0 <= column < n
    {
      |itemData|
    }

    /** ui/include_tree_item.cpp:82-85: the value in `column`, or an empty value when there is no such column. */
    function Data(column: int): (d: Option<T>)
      reads this
      ensures d.Some? <==> 0 <= column < |itemData|
      ensures d.Some? ==> d.value == itemData[column]
    {
      if 0 <= column < |itemData| then Some(itemData[column]) else None
    }

    /**
     * ui/include_tree_item.cpp:87-90: the parent, which holds this item in
     * the row `Row` gives when it holds it at all; an item without a parent
     * is in row 0.
     */
    function ParentItem(): (p: IncludeTreeItem?<T>)
      reads this, parent
      ensures p == null ==> Row() == 0
      ensures p != null && this in p.childItems ==> p.Child(Row()) == this
    {
      parent
    }

    /**
     * ui/include_tree_item.cpp:92-98: the row of this item among its
     * parent's children (the first one holding it, -1 when the parent does
     * not hold it), and 0 for an item without a parent.
     */
    function Row(): (r: int)
      reads this, parent
      ensures parent == null ==> r == 0
      ensures parent != null ==> -1 <= r < parent.ChildCount()
      ensures parent != null && this in parent.childItems ==> r >= 0 && parent.Child(r) == this
      ensures parent != null && this !in parent.childItems ==> r == -1
    {
      if parent == null then 0 else IndexOf(parent.childItems, this)
    }
  }

  /** A child appended once sits in the last row: its row is the child count before the append. */
  lemma RowOfAppended<T>(p: IncludeTreeItem<T>, item: IncludeTreeItem<T>, before: seq<IncludeTreeItem<T>>)
    requires item.parent == p && p.childItems == before + [item] && item !in before
    ensures item.Row() == |before|
  {
    assert IndexOf(p.childItems, item) >= 0;
    assert p.childItems[|before|] == item;
    assert p.childItems[..|before|] == before;
  }
}
