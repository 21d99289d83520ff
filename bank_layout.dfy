/**
 * orderBank: the sort key it gives the bank's item widgets, and the grid
 * layout it then writes into them.
 *
 * After sorting, the children are walked in order. Every child that shows an
 * item and is not hidden is the next item of the grid: row-major, eight to a
 * row, and it is moved (and revalidated) when its position differs from its
 * cell. Every child that is a tab separator line or shows tab text is hidden.
 */
module BankLayout {
  import opened BankTypes
  import opened StableSort

  const ITEMS_PER_ROW: nat := 8
  const ITEM_VERTICAL_SPACING: nat := 36
  const ITEM_HORIZONTAL_SPACING: nat := 48
  const ITEM_ROW_START: nat := 51

  // ---------------------------------------------------------------- sort keys

  /**
   * The value orderBank sorts by: the larger of the alchemy and the exchange
   * price times the quantity, and 0 for a hidden widget or an item whose
   * placeholder template is 14401.
   */
  function ValueKey(w: Widget, cat: Catalog): (v: int)
    ensures w.IsHidden() || cat.placeholderTemplateId(w.itemId) == SORT_EXCLUDED_TEMPLATE ==> v == 0
    ensures !w.IsHidden() && cat.placeholderTemplateId(w.itemId) != SORT_EXCLUDED_TEMPLATE ==>
              v == Max(cat.haPrice(w.itemId), cat.price(w.itemId)) * w.itemQuantity
    ensures cat.haPrice(w.itemId) >= 0 && w.itemQuantity >= 0 ==> v >= 0
  {
    if w.IsHidden() || cat.placeholderTemplateId(w.itemId) == SORT_EXCLUDED_TEMPLATE then 0
    else Max(cat.haPrice(w.itemId), cat.price(w.itemId)) * w.itemQuantity
  }

  /**
   * The comparator orderBank picks for orderType: by value descending (-1;
   * the reversed comparator, written as the negated value), by value
   * ascending (1), and otherwise by original position, y first then x.
   */
  function OrderKey(orderType: int, cat: Catalog): (key: Widget -> SortKey)
    ensures orderType == -1 ==>
              forall v, w :: KeyLe(key(v), key(w)) <==> ValueKey(v, cat) >= ValueKey(w, cat)
    ensures orderType == 1 ==>
              forall v, w :: KeyLe(key(v), key(w)) <==> ValueKey(v, cat) <= ValueKey(w, cat)
    ensures orderType != -1 && orderType != 1 ==>
              forall v, w :: KeyLe(key(v), key(w)) <==>
                v.originalY < w.originalY || (v.originalY == w.originalY && v.originalX <= w.originalX)
  {
    if orderType == -1 then (w: Widget) => SortKey(-ValueKey(w, cat), 0)
    else if orderType == 1 then (w: Widget) => SortKey(ValueKey(w, cat), 0)
    else (w: Widget) => SortKey(w.originalY, w.originalX)
  }

  /** Each comparator orders the sorted children as orderBank intends. */
  lemma OrderKeySorted(t: seq<Widget>, orderType: int, cat: Catalog)
    requires Sorted(t, OrderKey(orderType, cat))
    ensures orderType == -1 ==>
              forall i, j :: 0 <= i < j < |t| ==> ValueKey(t[i], cat) >= ValueKey(t[j], cat)
    ensures orderType == 1 ==>
              forall i, j :: 0 <= i < j < |t| ==> ValueKey(t[i], cat) <= ValueKey(t[j], cat)
    ensures orderType != -1 && orderType != 1 ==>
              forall i, j :: 0 <= i < j < |t| ==>
                t[i].originalY < t[j].originalY
                || (t[i].originalY == t[j].originalY && t[i].originalX <= t[j].originalX)
  {
  }

  // ---------------------------------------------------------------- layout

  /**
   * The position (x, y) of the k-th item of the grid: one of eight columns,
   * 48 apart from x = 51, and rows 36 apart from y = 0.
   */
  function Cell(k: nat): (c: (int, int))
    ensures ITEM_ROW_START <= c.0 <= ITEM_ROW_START + (ITEMS_PER_ROW - 1) * ITEM_HORIZONTAL_SPACING
    ensures (c.0 - ITEM_ROW_START) % ITEM_HORIZONTAL_SPACING == 0
    ensures c.1 >= 0 && c.1 % ITEM_VERTICAL_SPACING == 0
    ensures c.1 / ITEM_VERTICAL_SPACING * ITEMS_PER_ROW + (c.0 - ITEM_ROW_START) / ITEM_HORIZONTAL_SPACING == k
  {
    ((k % ITEMS_PER_ROW) * ITEM_HORIZONTAL_SPACING + ITEM_ROW_START,
     (k / ITEMS_PER_ROW) * ITEM_VERTICAL_SPACING)
  }

  /** Different grid indices have different cells. */
  lemma CellInjective(k1: nat, k2: nat)
    requires Cell(k1) == Cell(k2)
    ensures k1 == k2
  {
  }

  /** A child that takes a grid cell: it shows an item and is not hidden. */
  predicate Placed(w: Widget) {
    w.itemId != -1 && !w.IsHidden()
  }

  /** String.contains: sub occurs in s at some offset. */
  predicate Contains(s: string, sub: string)
    decreases |s|
  {
    |sub| <= |s| && (s[..|sub|] == sub || Contains(s[1..], sub))
  }

  /** sub occurs in s at offset j. */
  predicate OccursAt(s: string, sub: string, j: nat) {
    j + |sub| <= |s| && s[j..j + |sub|] == sub
  }

  /** An occurrence anywhere makes Contains true. */
  lemma {:induction false} OccurrenceContained(s: string, sub: string, i: nat)
    requires OccursAt(s, sub, i)
    ensures Contains(s, sub)
    decreases i
  {
    if i > 0 {
      assert s[1..][i - 1..i - 1 + |sub|] == s[i..i + |sub|];
      OccurrenceContained(s[1..], sub, i - 1);
    }
  }

  /** Contains is true only when sub occurs somewhere; the offset is returned. */
  lemma {:induction false} ContainedOccurrence(s: string, sub: string) returns (j: nat)
    requires Contains(s, sub)
    ensures OccursAt(s, sub, j)
    decreases |s|
  {
    if s[..|sub|] == sub {
      j := 0;
    } else {
      var j' := ContainedOccurrence(s[1..], sub);
      assert s[1..][j'..j' + |sub|] == s[j' + 1..j' + 1 + |sub|];
      j := j' + 1;
    }
  }

  /** A tab separator line or a widget showing tab text. */
  predicate IsSeparator(w: Widget) {
    w.spriteId == SEPARATOR_SPRITE || Contains(w.text, "Tab")
  }

  /** One step of the walk: child w, with k items placed before it. */
  function Relayout(w: Widget, k: nat): (r: Widget)
    ensures r.itemId == w.itemId && r.itemQuantity == w.itemQuantity
    ensures r.spriteId == w.spriteId && r.text == w.text && r.parentHidden == w.parentHidden
    ensures Placed(w) ==> (r.originalX, r.originalY) == Cell(k)
    ensures !Placed(w) ==> r.originalX == w.originalX && r.originalY == w.originalY
    ensures r.hidden == (w.hidden || IsSeparator(w))
  {
    var moved := if Placed(w) then w.(originalX := Cell(k).0, originalY := Cell(k).1) else w;
    if IsSeparator(moved) then moved.(hidden := true) else moved
  }

  /** The number of children of s that take a grid cell. */
  function PlacedCount(s: seq<Widget>): (n: nat)
    ensures n <= |s|
  {
    if s == [] then 0
    else PlacedCount(s[..|s| - 1]) + (if Placed(s[|s| - 1]) then 1 else 0)
  }

  /** The children after the walk. */
  function Layout(s: seq<Widget>): (r: seq<Widget>)
    ensures |r| == |s|
  {
    if s == [] then []
    else Layout(s[..|s| - 1]) + [Relayout(s[|s| - 1], PlacedCount(s[..|s| - 1]))]
  }

  /** The indices of the children the walk moves, in walk order (each is revalidated). */
  function Moved(s: seq<Widget>): seq<nat> {
    if s == [] then []
    else
      var w := s[|s| - 1];
      Moved(s[..|s| - 1])
        + (if Placed(w) && (w.originalX, w.originalY) != Cell(PlacedCount(s[..|s| - 1]))
           then [|s| - 1] else [])
  }

  // ---------------------------------------------------------------- properties

  /** Child i after the walk is child i relaid out with the items before it counted. */
  lemma {:induction false} LayoutAt(s: seq<Widget>, i: nat)
    requires i < |s|
    ensures Layout(s)[i] == Relayout(s[i], PlacedCount(s[..i]))
  {
    if i < |s| - 1 {
      LayoutAt(s[..|s| - 1], i);
      assert s[..|s| - 1][..i] == s[..i];
    }
  }

  /** One more child: the walk's results grow by that child's step. */
  lemma LayoutStep(s: seq<Widget>, i: nat)
    requires i < |s|
    ensures Layout(s[..i + 1]) == Layout(s[..i]) + [Relayout(s[i], PlacedCount(s[..i]))]
    ensures PlacedCount(s[..i + 1]) == PlacedCount(s[..i]) + (if Placed(s[i]) then 1 else 0)
    ensures Moved(s[..i + 1]) == Moved(s[..i])
              + (if Placed(s[i]) && (s[i].originalX, s[i].originalY) != Cell(PlacedCount(s[..i]))
                 then [i] else [])
  {
    assert s[..i + 1][..i] == s[..i];
  }

  /** Counting is monotone: a placed child has more placed children after it than before. */
  lemma {:induction false} PlacedCountGrows(s: seq<Widget>, i: nat, j: nat)
    requires i < j <= |s| && Placed(s[i])
    ensures PlacedCount(s[..i]) < PlacedCount(s[..j])
  {
    if j == i + 1 {
      assert s[..j][..i] == s[..i];
    } else {
      PlacedCountGrows(s, i, j - 1);
      assert s[..j][..j - 1] == s[..j - 1];
    }
  }

  /**
   * The placed children end up in distinct cells, the k-th of them in cell
   * k, so the walk fills cells 0, 1, 2, ... without gaps or overlaps.
   */
  lemma LayoutGrid(s: seq<Widget>, i: nat, j: nat)
    requires i < j < |s| && Placed(s[i]) && Placed(s[j])
    ensures (Layout(s)[i].originalX, Layout(s)[i].originalY) == Cell(PlacedCount(s[..i]))
    ensures (Layout(s)[i].originalX, Layout(s)[i].originalY)
            != (Layout(s)[j].originalX, Layout(s)[j].originalY)
    ensures PlacedCount(s[..j]) < PlacedCount(s)
  {
    LayoutAt(s, i);
    LayoutAt(s, j);
    PlacedCountGrows(s, i, j);
    PlacedCountGrows(s, j, |s|);
    assert s[..|s|] == s;
    if Cell(PlacedCount(s[..i])) == Cell(PlacedCount(s[..j])) {
      CellInjective(PlacedCount(s[..i]), PlacedCount(s[..j]));
    }
  }

  /** After the walk no separator is left visible. */
  lemma SeparatorsHidden(s: seq<Widget>, i: nat)
    requires i < |s| && IsSeparator(s[i])
    ensures Layout(s)[i].IsHidden()
  {
  }

  /** The walk moves only the children it places. */
  lemma {:induction false} MovedArePlaced(s: seq<Widget>)
    ensures forall m :: 0 <= m < |Moved(s)| ==> Moved(s)[m] < |s| && Placed(s[Moved(s)[m]])
  {
    if s != [] {
      MovedArePlaced(s[..|s| - 1]);
    }
  }

  /** A child is moved exactly when it is placed and is not already in its cell. */
  lemma {:induction false} MovedExactly(s: seq<Widget>, i: nat)
    requires i < |s|
    ensures i in Moved(s) <==>
              Placed(s[i]) && (s[i].originalX, s[i].originalY) != Cell(PlacedCount(s[..i]))
  {
    var n := |s| - 1;
    MovedArePlaced(s[..n]);
    if i < n {
      MovedExactly(s[..n], i);
      assert s[..n][..i] == s[..i];
    } else {
      assert i !in Moved(s[..n]);
    }
  }

  /**
   * Laying out a laid-out bank changes nothing and moves nothing, as long as
   * no separator takes a grid cell.
   */
  lemma {:induction false} LayoutIdempotent(s: seq<Widget>)
    requires forall i :: 0 <= i < |s| ==> !(Placed(s[i]) && IsSeparator(s[i]))
    ensures PlacedCount(Layout(s)) == PlacedCount(s)
    ensures Layout(Layout(s)) == Layout(s)
    ensures Moved(Layout(s)) == []
  {
    if s != [] {
      var n := |s| - 1;
      LayoutIdempotent(s[..n]);
      assert Layout(s)[..n] == Layout(s[..n]);
      var w := s[n];
      var r := Relayout(w, PlacedCount(s[..n]));
      assert Placed(r) == Placed(w);
      assert Relayout(r, PlacedCount(s[..n])) == r;
    }
  }
}
