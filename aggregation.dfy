/**
 * The totals the bank plugin computes over item containers: the item counts
 * of the bank (getBankItemSet), the exchange and alchemy value of a
 * container's slots (calculate with getHaPrice), and the same totals read
 * from the bank interface's widgets (getWidgetContainerPrices).
 */
module Aggregation {
  import opened Wrappers
  import opened BankTypes
  import opened JavaLong

  // ---------------------------------------------------------------- bank counts

  /**
   * How many of item `id` the slots hold; bank fillers are not counted. No
   * slot holding a negative quantity means no negative count.
   */
  function BankCount(items: seq<Item>, id: int): (n: int)
    ensures (forall i :: 0 <= i < |items| ==> items[i].quantity >= 0) ==> n >= 0
  {
    if items == [] then 0
    else
      var last := items[|items| - 1];
      BankCount(items[..|items| - 1], id)
        + (if last.id == id && last.id != BANK_FILLER then last.quantity else 0)
  }

  /**
   * getBankItemSet: the multiset that holds every item id of the bank as
   * often as the bank holds that item, bank fillers left out; empty when the
   * bank container is not loaded. Multiset.add rejects a negative count,
   * hence the requirement on the quantities.
   */
  method BankItemSet(bank: Option<seq<Item>>) returns (counts: multiset<int>)
    requires bank.Some? ==> forall i :: 0 <= i < |bank.value| ==> bank.value[i].quantity >= 0
    ensures bank.None? ==> counts == multiset{}
    ensures bank.Some? ==> forall id :: counts[id] == BankCount(bank.value, id)
  {
    counts := multiset{};
    if bank.None? {
      return;
    }
    var items := bank.value;
    for i := 0 to |items|
      invariant forall id :: counts[id] == BankCount(items[..i], id)
    {
      assert items[..i + 1][..i] == items[..i];
      var item := items[i];
      if item.id != BANK_FILLER {
        counts := counts[item.id := counts[item.id] + item.quantity];
      }
    }
    assert items[..|items|] == items;
  }

  /** Bank fillers never appear in the counts. */
  lemma {:induction false} FillerNotCounted(items: seq<Item>)
    ensures BankCount(items, BANK_FILLER) == 0
  {
    if items != [] {
      FillerNotCounted(items[..|items| - 1]);
    }
  }

  /** Counting is additive over the slots, so the slot order does not matter. */
  lemma {:induction false} BankCountAppend(a: seq<Item>, b: seq<Item>, id: int)
    ensures BankCount(a + b, id) == BankCount(a, id) + BankCount(b, id)
  {
    if b == [] {
      assert a + b == a;
    } else {
      assert (a + b)[..|a + b| - 1] == a + b[..|b| - 1];
      BankCountAppend(a, b[..|b| - 1], id);
    }
  }

  /** An id that no slot holds has count 0. */
  lemma {:induction false} BankCountAbsent(items: seq<Item>, id: int)
    requires forall i :: 0 <= i < |items| ==> items[i].id != id
    ensures BankCount(items, id) == 0
  {
    if items != [] {
      BankCountAbsent(items[..|items| - 1], id);
    }
  }

  // ---------------------------------------------------------------- prices

  /**
   * getHaPrice: coins are worth 1 each and platinum tokens 1000 each; every
   * other item is worth its high-alchemy price.
   */
  function HaPrice(cat: Catalog, id: int): (p: int)
    ensures id == COINS_995 ==> p == 1
    ensures id == PLATINUM_TOKEN ==> p == 1000
    ensures id != COINS_995 && id != PLATINUM_TOKEN ==> p == cat.haPrice(id)
  {
    if id == COINS_995 then 1
    else if id == PLATINUM_TOKEN then 1000
    else cat.haPrice(id)
  }

  /** getHaPrice as a price table. */
  function HaUnit(cat: Catalog): int -> int {
    id => HaPrice(cat, id)
  }

  /** The totals of a container, exchange value first (ContainerPrices). */
  datatype ContainerPrices = ContainerPrices(gePrice: int, highAlchPrice: int)

  /** calculate skips empty slots and slots with a non-positive id. */
  predicate Counted(item: Item) {
    item.id > 0 && item.quantity != 0
  }

  /**
   * The exact value of the counted slots at the given unit prices; never
   * negative when no price and no quantity is.
   */
  function Worth(items: seq<Item>, unit: int -> int): (w: int)
    ensures (forall id :: unit(id) >= 0) && (forall i :: 0 <= i < |items| ==> items[i].quantity >= 0)
            ==> w >= 0
  {
    if items == [] then 0
    else
      var last := items[|items| - 1];
      Worth(items[..|items| - 1], unit)
        + (if Counted(last) then unit(last.id) * last.quantity else 0)
  }

  /**
   * calculate: null for a missing container; otherwise the exchange and the
   * alchemy totals, each accumulated in a Java long and so wrapped to 64 bits.
   */
  method Calculate(items: Option<seq<Item>>, cat: Catalog) returns (prices: Option<ContainerPrices>)
    ensures prices.None? <==> items.None?
    ensures prices.Some? ==> prices.value.gePrice == Long(Worth(items.value, cat.price))
    ensures prices.Some? ==> prices.value.highAlchPrice == Long(Worth(items.value, HaUnit(cat)))
  {
    if items.None? {
      return None;
    }
    var s := items.value;
    var ge, alch := 0, 0;
    for i := 0 to |s|
      invariant ge == Long(Worth(s[..i], cat.price))
      invariant alch == Long(Worth(s[..i], HaUnit(cat)))
    {
      assert s[..i + 1][..i] == s[..i];
      var item := s[i];
      if Counted(item) {
        LongAddAbsorbs(Worth(s[..i], HaUnit(cat)), HaPrice(cat, item.id) * item.quantity);
        LongAddAbsorbs(Worth(s[..i], cat.price), cat.price(item.id) * item.quantity);
        alch := Long(alch + HaPrice(cat, item.id) * item.quantity);
        ge := Long(ge + cat.price(item.id) * item.quantity);
      }
    }
    assert s[..|s|] == s;
    return Some(ContainerPrices(ge, alch));
  }

  /** The value of a container is the sum of the values of its parts. */
  lemma {:induction false} WorthAppend(a: seq<Item>, b: seq<Item>, unit: int -> int)
    ensures Worth(a + b, unit) == Worth(a, unit) + Worth(b, unit)
  {
    if b == [] {
      assert a + b == a;
    } else {
      assert (a + b)[..|a + b| - 1] == a + b[..|b| - 1];
      WorthAppend(a, b[..|b| - 1], unit);
    }
  }

  /** Moving slots around does not change the value. */
  lemma WorthSwap(a: seq<Item>, b: seq<Item>, unit: int -> int)
    ensures Worth(a + b, unit) == Worth(b + a, unit)
  {
    WorthAppend(a, b, unit);
    WorthAppend(b, a, unit);
  }

  /** Slots that calculate skips add nothing, whatever their prices. */
  lemma {:induction false} WorthSkipped(items: seq<Item>, unit: int -> int)
    requires forall i :: 0 <= i < |items| ==> !Counted(items[i])
    ensures Worth(items, unit) == 0
  {
    if items != [] {
      WorthSkipped(items[..|items| - 1], unit);
    }
  }

  // ---------------------------------------------------------------- widget totals

  /** getWidgetContainerPrices prices a child that exists, is not hidden itself and shows an item. */
  predicate Priced(child: Option<Widget>) {
    child.Some? && !child.value.hidden && child.value.itemId > -1
  }

  /**
   * The exact value of the priced children at the given unit prices; never
   * negative when no price and no quantity is.
   */
  function WidgetWorth(children: seq<Option<Widget>>, unit: int -> int): (w: int)
    ensures (forall id :: unit(id) >= 0)
            && (forall i :: 0 <= i < |children| && children[i].Some? ==> children[i].value.itemQuantity >= 0)
            ==> w >= 0
  {
    if children == [] then 0
    else
      var last := children[|children| - 1];
      WidgetWorth(children[..|children| - 1], unit)
        + (if Priced(last) then unit(last.value.itemId) * last.value.itemQuantity else 0)
  }

  /**
   * getWidgetContainerPrices: null unless both the container and the
   * widget's children are there; otherwise the totals over the first
   * size-of-container children, accumulated in Java longs. The children array
   * must be at least as long as the container (the bank interface always has
   * 816 children).
   */
  method WidgetContainerPrices(container: Option<seq<Item>>, children: Option<seq<Option<Widget>>>,
                               cat: Catalog) returns (prices: Option<ContainerPrices>)
    requires container.Some? && children.Some? ==> |container.value| <= |children.value|
    ensures prices.Some? <==> container.Some? && children.Some?
    ensures prices.Some? ==>
              prices.value.gePrice == Long(WidgetWorth(children.value[..|container.value|], cat.price))
    ensures prices.Some? ==>
              prices.value.highAlchPrice == Long(WidgetWorth(children.value[..|container.value|], HaUnit(cat)))
  {
    prices := None;
    if container.Some? && children.Some? {
      var kids := children.value;
      var size := |container.value|;
      var geTotal, haTotal := 0, 0;
      for i := 0 to size
        invariant geTotal == Long(WidgetWorth(kids[..i], cat.price))
        invariant haTotal == Long(WidgetWorth(kids[..i], HaUnit(cat)))
      {
        assert kids[..i + 1][..i] == kids[..i];
        var child := kids[i];
        if child.Some? && !child.value.hidden && child.value.itemId > -1 {
          var w := child.value;
          var alchPrice := HaPrice(cat, w.itemId);
          LongAddAbsorbs(WidgetWorth(kids[..i], cat.price), cat.price(w.itemId) * w.itemQuantity);
          LongAddAbsorbs(WidgetWorth(kids[..i], HaUnit(cat)), alchPrice * w.itemQuantity);
          geTotal := Long(geTotal + cat.price(w.itemId) * w.itemQuantity);
          haTotal := Long(haTotal + alchPrice * w.itemQuantity);
        }
      }
      prices := Some(ContainerPrices(geTotal, haTotal));
    }
  }

  /** Child i shows slot i of the container and is not hidden. */
  predicate Mirrors(child: Option<Widget>, item: Item) {
    child.Some? && !child.value.hidden
    && child.value.itemId == item.id && child.value.itemQuantity == item.quantity
  }

  /**
   * When the widgets show the container's slots one for one, the widget
   * totals agree with calculate's, provided no slot holds item id 0 (which
   * calculate skips and the widget count includes).
   */
  lemma {:induction false} WidgetWorthMatchesWorth(children: seq<Option<Widget>>, items: seq<Item>, unit: int -> int)
    requires |children| == |items|
    requires forall i :: 0 <= i < |items| ==> Mirrors(children[i], items[i]) && items[i].id != 0
    ensures WidgetWorth(children, unit) == Worth(items, unit)
  {
    if items != [] {
      WidgetWorthMatchesWorth(children[..|children| - 1], items[..|items| - 1], unit);
    }
  }
}
