/**
 * What valueSearch does once VALUE_SEARCH_PATTERN has matched: the quantity
 * and the value of the item stack it looks at, the sort order the query
 * selects, and the verdict of the comparison or the range test.
 *
 * QuantityFormatter.parseQuantity is not part of this model; it is the
 * parameter `parse`, which gives None where the Java method throws a
 * ParseException.
 */
module Valuation {
  import opened Wrappers
  import opened ValueQuery
  import opened BankTypes

  // ---------------------------------------------------------------- sort order

  /**
   * The orderType an order token selects: 1 ascending, -1 descending, 0 the
   * bank's own order. The switch looks at the token as typed, so an upper-case
   * token, which the case-insensitive pattern accepts, selects 0.
   */
  function OrderCode(t: string): (code: int)
    ensures -1 <= code <= 1
    ensures code != 0 ==> t != [] && (code == 1 <==> t[0] == 'a')
  {
    if t == "a" || t == "asc" then 1
    else if t == "d" || t == "des" || t == "desc" then -1
    else 0
  }

  /** A string without upper-case letters is its own lower-case form. */
  lemma LowerStrFixed(t: string)
    requires forall i :: 0 <= i < |t| ==> !('A' <= t[i] <= 'Z')
    ensures LowerStr(t) == t
  {
  }

  /**
   * For every token the pattern accepts: a direction is chosen exactly when
   * the token is non-empty and written in lower case, and it is ascending
   * exactly when the token starts with 'a'.
   */
  lemma OrderCodeOfToken(t: string)
    requires IsOrderToken(t)
    ensures OrderCode(t) != 0 <==> t != [] && LowerStr(t) == t
    ensures OrderCode(t) == 1 <==> t != [] && LowerStr(t) == t && t[0] == 'a'
  {
  }

  // ---------------------------------------------------------------- value

  /**
   * qty: one item for a query with an individual scope (i, iv, individual,
   * per), otherwise the number of the item held in the bank.
   */
  function HeldQuantity(q: Query, banked: int): (qty: int)
    ensures qty == 1 || qty == banked
    ensures q.Range? || q.scope == [] ==> qty == banked
  {
    if q.Compare? && q.scope != [] then 1 else banked
  }

  /**
   * The value the query tests, for qty items of an item with exchange price
   * `price`, alchemy price `haPrice`, and which is a placeholder or not. The
   * mode is compared in lower case; the range form has no mode.
   */
  function StackValue(q: Query, qty: int, price: int, haPrice: int, placeholder: bool): (value: int)
    ensures q.Range? || q.mode == [] ==> value == Max(price * qty, haPrice * qty)
  {
    var ge := price * qty;
    var ha := haPrice * qty;
    if q.Compare? && q.mode != [] then
      var m := LowerStr(q.mode);
      if m == "qty" then (if placeholder then 0 else qty)
      else if m == "ge" then ge
      else if m == "ha" || m == "alch" then ha
      else Max(ge, ha)
    else Max(ge, ha)
  }

  /**
   * The result of the comparison `value op compare`: each operator accepts
   * the relations its characters name, and no other string accepts anything.
   */
  function Holds(op: string, value: int, compare: int): (r: bool)
    ensures r ==> IsOpToken(op)
    ensures IsOpToken(op) ==>
              (r <==> (value < compare && '<' in op) || (value == compare && '=' in op)
                      || (value > compare && '>' in op))
  {
    if op == ">" then value > compare
    else if op == "<" then value < compare
    else if op == "=" then value == compare
    else if op == ">=" then value >= compare
    else if op == "<=" then value <= compare
    else false
  }

  /**
   * The answer for a recognised query once the value is known. A number that
   * does not parse makes the answer false.
   */
  function Verdict(q: Query, value: int, parse: string -> Option<int>): (r: bool)
    ensures r && q.Compare? ==> parse(NumberText(q.threshold)).Some?
    ensures r && q.Range? ==> parse(NumberText(q.low)).Some? && parse(NumberText(q.high)).Some?
    ensures r && q.Range? ==> parse(NumberText(q.low)).value <= parse(NumberText(q.high)).value
  {
    match q
    case Compare(_, _, _, _, op, _, num, _, _) =>
      (match parse(NumberText(num))
       case None => false
       case Some(c) => Holds(op, value, c))
    case Range(low, _, _, high, _, _) =>
      (match (parse(NumberText(low)), parse(NumberText(high)))
       case (Some(a), Some(b)) => a <= value <= b
       case _ => false)
  }

  /**
   * valueSearch for the item `itemId`, given the recognised query and the
   * bank's item counts.
   */
  function Evaluate(q: Query, itemId: int, counts: multiset<int>, cat: Catalog,
                    parse: string -> Option<int>): (matched: bool)
    ensures q.Compare? && q.scope != [] ==>
              matched == Verdict(q, StackValue(q, 1, cat.price(itemId), cat.haPrice(itemId),
                                               cat.placeholderTemplateId(itemId) != -1), parse)
    ensures q.Range? ==>
              matched == Verdict(q, Max(cat.price(itemId) * counts[itemId], cat.haPrice(itemId) * counts[itemId]), parse)
  {
    var qty := HeldQuantity(q, counts[itemId]);
    var placeholder := cat.placeholderTemplateId(itemId) != -1;
    Verdict(q, StackValue(q, qty, cat.price(itemId), cat.haPrice(itemId), placeholder), parse)
  }

  // ---------------------------------------------------------------- properties

  /** A threshold or a bound that does not parse rejects the item. */
  lemma ParseFailureRejects(q: Query, value: int, parse: string -> Option<int>)
    requires q.Compare? ==> parse(NumberText(q.threshold)).None?
    requires q.Range? ==> parse(NumberText(q.low)).None? || parse(NumberText(q.high)).None?
    ensures !Verdict(q, value, parse)
  {
  }

  /** A range accepts exactly the values between its bounds, both included. */
  lemma RangeInclusive(q: Query, value: int, parse: string -> Option<int>, a: int, b: int)
    requires q.Range?
    requires parse(NumberText(q.low)) == Some(a) && parse(NumberText(q.high)) == Some(b)
    ensures Verdict(q, value, parse) <==> a <= value && value <= b
    ensures a <= b ==> Verdict(q, a, parse) && Verdict(q, b, parse)
    ensures a > b ==> !Verdict(q, value, parse)
  {
  }

  /**
   * The five operators agree with each other: exactly one of <, = and > holds,
   * >= is > or =, and <= is the negation of >.
   */
  lemma OperatorsAgree(q: Query, value: int, parse: string -> Option<int>)
    requires q.Compare? && parse(NumberText(q.threshold)).Some?
    ensures var lt := Verdict(q.(op := "<"), value, parse);
            var eq := Verdict(q.(op := "="), value, parse);
            var gt := Verdict(q.(op := ">"), value, parse);
            && (lt || eq || gt) && !(lt && eq) && !(lt && gt) && !(eq && gt)
            && Verdict(q.(op := ">="), value, parse) == (gt || eq)
            && Verdict(q.(op := "<="), value, parse) == !gt
  {
  }

  /** With an individual scope the answer does not depend on the bank. */
  lemma IndividualIgnoresBank(q: Query, itemId: int, c1: multiset<int>, c2: multiset<int>,
                              cat: Catalog, parse: string -> Option<int>)
    requires q.Compare? && q.scope != []
    ensures Evaluate(q, itemId, c1, cat, parse) == Evaluate(q, itemId, c2, cat, parse)
  {
  }

  /**
   * Without the qty mode the value of a stack is its quantity times the value
   * of a single item.
   */
  lemma StackValueScales(q: Query, qty: nat, price: int, haPrice: int, placeholder: bool)
    requires WellFormed(q)
    requires q.Compare? && q.mode != [] ==> LowerStr(q.mode) != "qty"
    ensures StackValue(q, qty, price, haPrice, placeholder)
            == qty * StackValue(q, 1, price, haPrice, placeholder)
  {
  }

  /** In qty mode a placeholder is worth nothing and a real item counts its quantity. */
  lemma QtyMode(q: Query, qty: int, price: int, haPrice: int, placeholder: bool)
    requires q.Compare? && LowerStr(q.mode) == "qty"
    ensures StackValue(q, qty, price, haPrice, placeholder) == if placeholder then 0 else qty
  {
  }

  /** The ge and the ha/alch modes pick one price each; no mode picks the larger. */
  lemma PriceModes(q: Query, qty: int, price: int, haPrice: int, placeholder: bool)
    requires q.Compare?
    ensures LowerStr(q.mode) == "ge" ==> StackValue(q, qty, price, haPrice, placeholder) == price * qty
    ensures LowerStr(q.mode) == "ha" || LowerStr(q.mode) == "alch" ==>
              StackValue(q, qty, price, haPrice, placeholder) == haPrice * qty
    ensures q.mode == [] ==>
              StackValue(q, qty, price, haPrice, placeholder) >= price * qty &&
              StackValue(q, qty, price, haPrice, placeholder) >= haPrice * qty
  {
  }

  /** The compare form answers exactly `value op threshold`, for each of the five operators. */
  lemma CompareExact(q: Query, value: int, parse: string -> Option<int>, c: int)
    requires q.Compare? && IsOpToken(q.op) && parse(NumberText(q.threshold)) == Some(c)
    ensures q.op == ">" ==> (Verdict(q, value, parse) <==> value > c)
    ensures q.op == "<" ==> (Verdict(q, value, parse) <==> value < c)
    ensures q.op == "=" ==> (Verdict(q, value, parse) <==> value == c)
    ensures q.op == ">=" ==> (Verdict(q, value, parse) <==> value >= c)
    ensures q.op == "<=" ==> (Verdict(q, value, parse) <==> value <= c)
  {
  }

  /** The range form has neither mode nor scope: it tests the larger price times the full bank count. */
  lemma RangeUsesFullCount(q: Query, itemId: int, counts: multiset<int>, cat: Catalog,
                           parse: string -> Option<int>)
    requires q.Range?
    ensures Evaluate(q, itemId, counts, cat, parse)
            == Verdict(q, Max(cat.price(itemId) * counts[itemId], cat.haPrice(itemId) * counts[itemId]), parse)
  {
  }

  // ---------------------------------------------------------------- examples

  /** "ge>1000 a": exchange value above 1000, ascending order. */
  function GeAbove(): Query {
    Compare("ge", 0, "", 0, ">", 0, Number("1000", "", ""), 1, "a")
  }

  /** "100-500 d": default value between 100 and 500, descending order. */
  function Between(): Query {
    Range(Number("100", "", ""), 0, 0, Number("500", "", ""), 1, "d")
  }

  lemma ExampleTexts()
    ensures WellFormed(GeAbove()) && Render(GeAbove()) == "ge>1000 a"
    ensures WellFormed(Between()) && Render(Between()) == "100-500 d"
  {
  }

  /** Both texts are recognised, as the queries above. */
  lemma ExamplesRecognized()
    ensures Recognize("ge>1000 a") == Some(GeAbove())
    ensures Recognize("100-500 d") == Some(Between())
  {
    ExampleTexts();
    RecognizeComplete(GeAbove());
    RecognizeComplete(Between());
  }

  /**
   * "ge>1000 a" on 30 held items at exchange price 50: the value is 1500, the
   * item matches, and the order becomes ascending.
   */
  lemma ExampleGeAbove(itemId: int, counts: multiset<int>, cat: Catalog, parse: string -> Option<int>)
    requires counts[itemId] == 30 && cat.price(itemId) == 50
    requires parse("1000") == Some(1000)
    ensures Evaluate(GeAbove(), itemId, counts, cat, parse)
    ensures OrderCode(GeAbove().order) == 1
  {
    LowerStrFixed("ge");
    assert NumberText(Number("1000", "", "")) == "1000";
    assert StackValue(GeAbove(), 30, 50, cat.haPrice(itemId), cat.placeholderTemplateId(itemId) != -1) == 1500;
  }

  /**
   * "100-500 d" on 5 held items at exchange price 10 and alchemy price 40:
   * the value is max(50, 200) = 200, inside the range, and the order becomes
   * descending.
   */
  lemma ExampleBetween(itemId: int, counts: multiset<int>, cat: Catalog, parse: string -> Option<int>)
    requires counts[itemId] == 5 && cat.price(itemId) == 10 && cat.haPrice(itemId) == 40
    requires parse("100") == Some(100) && parse("500") == Some(500)
    ensures Evaluate(Between(), itemId, counts, cat, parse)
    ensures OrderCode(Between().order) == -1
  {
    assert NumberText(Number("100", "", "")) == "100";
    assert NumberText(Number("500", "", "")) == "500";
    assert StackValue(Between(), 5, 10, 40, cat.placeholderTemplateId(itemId) != -1) == 200;
  }
}
