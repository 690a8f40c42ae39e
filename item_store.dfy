/** The `item` store module (item.js): a plain list of items. */
module ItemStore {
  import opened Js
  import opened Lists

  class ItemState {
    var items: seq<Value>

    /** The initial state: an empty list. */
    constructor ()
      ensures items == []
    {
      items := [];
    }

    /** The `items` getter. */
    function Items(): seq<Value>
      reads this
    {
      items
    }

    /** `addItem`: appends; the list grows by one and the earlier items keep their places. */
    method AddItem(item: Value)
      modifies this
      ensures items == old(items) + [item]
      ensures |items| == |old(items)| + 1 && items[|items| - 1] == item
    {
      items := items + [item];
    }

    /**
     * `deleteItem(index)`: `splice(index, 1)`. An index inside the list removes
     * exactly that item, an index at or past the end removes nothing, and a
     * negative index counts from the end.
     */
    method DeleteItem(index: int)
      modifies this
      ensures items == Splice1(old(items), index)
      ensures 0 <= index < |old(items)| ==> items == old(items)[..index] + old(items)[index + 1..]
      ensures index >= |old(items)| ==> items == old(items)
    {
      items := Splice1(items, index);
    }
  }
}
