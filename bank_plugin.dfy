/**
 * The bank plugin's own state, shared by the value search and the bank
 * ordering: the sort order the last value query selected and the cached item
 * counts of the bank, with the events that update them.
 */
module Plugin {
  import opened Wrappers
  import opened BankTypes
  import opened ValueQuery
  import opened Valuation
  import opened Aggregation
  import opened StableSort
  import opened BankLayout

  /**
   * The recognised query q in the state it leaves: the counts are taken
   * from the bank when none are cached, the order token sets orderType, and
   * the answer is the verdict on the item's value.
   */
  ghost predicate Answered(q: Query, itemId: int, bank: Option<seq<Item>>, cat: Catalog,
                           parse: string -> Option<int>, cached: Option<multiset<int>>,
                           counts: Option<multiset<int>>, order: int, matched: bool)
  {
    && counts.Some?
    && (cached.Some? ==> counts == cached)
    && (cached.None? ==>
          forall id :: counts.value[id] == (if bank.Some? then BankCount(bank.value, id) else 0))
    && order == OrderCode(q.order)
    && matched == Evaluate(q, itemId, counts.value, cat, parse)
  }

  /**
   * The order is set before the number is parsed: a threshold that does not
   * parse answers false but still changes the sort order.
   */
  lemma ParseFailureKeepsOrder(q: Query, itemId: int, bank: Option<seq<Item>>, cat: Catalog,
                               parse: string -> Option<int>, cached: Option<multiset<int>>,
                               counts: Option<multiset<int>>, order: int, matched: bool)
    requires Answered(q, itemId, bank, cat, parse, cached, counts, order, matched)
    requires q.Compare? && parse(NumberText(q.threshold)).None?
    ensures !matched && order == OrderCode(q.order)
  {
  }

  class BankPlugin {
    /** 1: by value ascending, -1: by value descending, 0: the bank's own order. */
    var orderType: int
    /** The bank's item counts; None (null in the source) until they are counted again. */
    var itemQuantities: Option<multiset<int>>

    /** A new plugin has the bank's own order and no counts. */
    constructor ()
      ensures orderType == 0 && itemQuantities == None
    {
      orderType := 0;
      itemQuantities := None;
    }

    /**
     * valueSearch(itemId, str): whether the item matches the value query str.
     * `bank` is the bank container as the client reports it (None when it is
     * not loaded). A query that does not match the pattern changes nothing;
     * a recognised one is answered by Answer.
     */
    method ValueSearch(itemId: int, str: string, bank: Option<seq<Item>>, cat: Catalog,
                       parse: string -> Option<int>) returns (matched: bool)
      requires itemQuantities.None? && bank.Some? ==>
                 forall i :: 0 <= i < |bank.value| ==> bank.value[i].quantity >= 0
      modifies this
      ensures Recognize(str).None? ==>
                !matched && orderType == old(orderType) && itemQuantities == old(itemQuantities)
      ensures Recognize(str).Some? ==> Answered(Recognize(str).value, itemId, bank, cat, parse,
                                                old(itemQuantities), itemQuantities, orderType, matched)
    {
      var query := Recognize(str);
      if query.None? {
        return false;
      }
      matched := Answer(query.value, itemId, bank, cat, parse);
    }

    /** valueSearch from the point where the pattern has matched. */
    method Answer(q: Query, itemId: int, bank: Option<seq<Item>>, cat: Catalog,
                  parse: string -> Option<int>) returns (matched: bool)
      requires itemQuantities.None? && bank.Some? ==>
                 forall i :: 0 <= i < |bank.value| ==> bank.value[i].quantity >= 0
      modifies this
      ensures Answered(q, itemId, bank, cat, parse, old(itemQuantities), itemQuantities, orderType, matched)
    {
      var counts: multiset<int>;
      if itemQuantities.None? {
        counts := BankItemSet(bank);
        itemQuantities := Some(counts);
      } else {
        counts := itemQuantities.value;
      }
      matched := Evaluate(q, itemId, counts, cat, parse);
      orderType := OrderCode(q.order);
    }

    /**
     * onItemContainerChanged: a change of the bank container drops the
     * cached counts; any other container leaves them.
     */
    method OnItemContainerChanged(containerId: int)
      modifies this
      ensures itemQuantities == (if containerId == BANK_CONTAINER_ID then None else old(itemQuantities))
      ensures orderType == old(orderType)
    {
      if containerId == BANK_CONTAINER_ID {
        itemQuantities := None;
      }
    }

    /** shutDown drops the cached counts; the sort order is kept. */
    method ShutDown()
      modifies this
      ensures itemQuantities == None
      ensures orderType == old(orderType)
    {
      itemQuantities := None;
    }

    /**
     * orderBank: sorts the children of the bank item container (null when
     * the container widget is missing) by the comparator orderType selects,
     * then lays them out and hides the separators. `written` lists, in walk
     * order, the indices of the children that were moved and revalidated.
     */
    method OrderBank(children: array?<Widget>, cat: Catalog) returns (written: seq<nat>)
      modifies children
      ensures children == null ==> written == []
      ensures children != null ==>
                children[..] == Layout(Sort(old(children[..]), OrderKey(orderType, cat)))
      ensures children != null ==>
                written == Moved(Sort(old(children[..]), OrderKey(orderType, cat)))
    {
      written := [];
      if children == null {
        return;
      }
      SortInPlace(children, OrderKey(orderType, cat));
      written := LayOut(children);
    }
  }

  /**
   * The walk of orderBank over the sorted children: each child that shows an
   * item and is not hidden goes to the next grid cell, and is moved and
   * revalidated when it is elsewhere; each separator is hidden. Returns the
   * indices of the moved children.
   */
  method LayOut(children: array<Widget>) returns (written: seq<nat>)
    modifies children
    ensures children[..] == Layout(old(children[..]))
    ensures written == Moved(old(children[..]))
  {
    ghost var sorted := children[..];
    written := [];
    var items := 0;
    for i := 0 to children.Length
      invariant items == PlacedCount(sorted[..i])
      invariant children[..i] == Layout(sorted[..i])
      invariant children[i..] == sorted[i..]
      invariant written == Moved(sorted[..i])
    {
      LayoutStep(sorted, i);
      var child, moved := PlaceChild(children[i], items);
      if moved {
        written := written + [i];
      }
      if Placed(children[i]) {
        items := items + 1;
      }
      children[i] := child;
    }
    assert sorted[..children.Length] == sorted;
  }

  /**
   * One child of the walk, with `items` children placed before it: the
   * child as the walk leaves it, and whether it was moved (revalidated).
   */
  method PlaceChild(child: Widget, items: nat) returns (result: Widget, moved: bool)
    ensures result == Relayout(child, items)
    ensures moved <==> Placed(child) && (child.originalX, child.originalY) != Cell(items)
  {
    result := child;
    moved := false;
    if child.itemId != -1 && !child.IsHidden() {
      var adjYOffset := (items / ITEMS_PER_ROW) * ITEM_VERTICAL_SPACING;
      var adjXOffset := (items % ITEMS_PER_ROW) * ITEM_HORIZONTAL_SPACING + ITEM_ROW_START;
      if child.originalY != adjYOffset || child.originalX != adjXOffset {
        result := child.(originalY := adjYOffset, originalX := adjXOffset);
        moved := true;
      }
    }
    if result.spriteId == SEPARATOR_SPRITE || Contains(result.text, "Tab") {
      result := result.(hidden := true);
    }
  }
}
