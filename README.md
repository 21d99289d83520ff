# Bank value search and bank ordering (RuneLite bank plugin)

A Dafny model of the core of RuneLite's `BankPlugin`:

- the value-search query language typed into the bank search box
  (`VALUE_SEARCH_PATTERN`) and its evaluation for one item (`valueSearch`);
- the sort order a query selects, and the way `orderBank` sorts the bank's
  item widgets by it and lays them out again on the eight-wide grid;
- the bank item counts `valueSearch` caches (`getBankItemSet`), and when
  they are dropped (`onItemContainerChanged`, `shutDown`);
- the container price totals (`calculate`, `getHaPrice`,
  `getWidgetContainerPrices`), with Java's 64-bit `long` wrap-around.

Modules, one per file:

| file | module | models |
|---|---|---|
| `wrappers.dfy` | `Wrappers` | `Option` |
| `java_long.dfy` | `JavaLong` | two's-complement wrap-around of `long` sums |
| `bank_types.dfy` | `BankTypes` | items, widgets, the item catalog, item and container ids |
| `value_query.dfy` | `ValueQuery` | the query grammar (`WellFormed`, `Render`) and a recogniser for it (`Recognize`) |
| `valuation.dfy` | `Valuation` | stack value, comparison and range verdicts, order codes |
| `aggregation.dfy` | `Aggregation` | bank item counts and container price totals |
| `stable_sort.dfy` | `StableSort` | a stable sort: a reference insertion sort and an in-place one |
| `bank_layout.dfy` | `BankLayout` | `orderBank`'s comparators and its grid layout |
| `bank_plugin.dfy` | `Plugin` | the plugin object (`orderType`, `itemQuantities`) and its methods |

The recogniser is specified from both sides:

- `Recognize` accepts only the rendering of a well-formed query, and gives that query back.
- `RecognizeComplete` shows that every well-formed query is recognised from its rendering.

So `Recognize` accepts exactly the language of the pattern.

`orderBank` sorts with `Arrays.sort`, which is stable. The model sorts by insertion, and `SortUnique` shows that this is the only possible result: any sorted, stable rearrangement of the input equals `Sort`.

Three behaviours of `valueSearch` worth knowing:

- **A number the quantity formatter rejects.** `valueSearch` writes `orderType` before it parses the numbers (lines 527-544 and 575-592 come before 552 and 601). A query whose threshold or bounds fail to parse therefore answers false but still changes the sort order. See `ParseFailureKeepsOrder`.
- **A query without an order token.** The `order` group always takes part in a match; it is empty when no token is typed. So a compare query without a token sets `orderType` to 0, the bank's own order.
- **Case of the order token.** The pattern accepts order tokens in any case, but the switch compares them as typed. So `A` or `DESC` set `orderType` to 0.

## Model

| member | source | states |
|---|---|---|
| ValueQuery.Recognize | runelite-client/src/main/java/net/runelite/client/plugins/bank/BankPlugin.java:93-99 | a string the matcher accepts is exactly the rendering of a well-formed query: a compare form or a range form, anchored at both ends |
| ValueQuery.RecognizeComplete | runelite-client/src/main/java/net/runelite/client/plugins/bank/BankPlugin.java:93-99 | every well-formed query is matched from its text, and its groups are given back unchanged |
| ValueQuery.CompareAtOf | runelite-client/src/main/java/net/runelite/client/plugins/bank/BankPlugin.java:96-98 | the compare alternative matches every well-formed compare query's text |
| ValueQuery.RangeComplete | runelite-client/src/main/java/net/runelite/client/plugins/bank/BankPlugin.java:99 | a range query's text is not matched by the compare alternative, and is matched by the range alternative |
| ValueQuery.NoCompareAtDigit | runelite-client/src/main/java/net/runelite/client/plugins/bank/BankPlugin.java:96-98 | a string starting with a digit never matches the compare form |
| ValueQuery.NumberAtOf | runelite-client/src/main/java/net/runelite/client/plugins/bank/BankPlugin.java:93 | a number literal (digits, optional fraction, optional k/m/b suffix) is captured whole when followed by a space, a dash, an order letter or the end |
| ValueQuery.ModeAtOf | runelite-client/src/main/java/net/runelite/client/plugins/bank/BankPlugin.java:96 | the mode group captures exactly the mode token written, in any case |
| ValueQuery.ScopeAtOf | runelite-client/src/main/java/net/runelite/client/plugins/bank/BankPlugin.java:97 | the individual group captures exactly the scope token written (i, iv, individual, per) |
| ValueQuery.OpAtOf | runelite-client/src/main/java/net/runelite/client/plugins/bank/BankPlugin.java:98 | the op group captures exactly the operator written (one of <, >, =, >=, <=) when a space or a digit follows it |
| ValueQuery.RangeAtOf | runelite-client/src/main/java/net/runelite/client/plugins/bank/BankPlugin.java:99 | the range alternative captures both numbers and the order token of a well-formed range query |
| Valuation.OrderCodeOfToken | runelite-client/src/main/java/net/runelite/client/plugins/bank/BankPlugin.java:527-544 | a direction is chosen exactly for a non-empty lower-case token, ascending exactly when it starts with 'a'; empty or upper-case tokens give 0 |
| Valuation.OrderCode | runelite-client/src/main/java/net/runelite/client/plugins/bank/BankPlugin.java:530-543 | the orderType of an order token: -1, 0 or 1; a direction only for a non-empty token, ascending exactly when the token starts with 'a' |
| Valuation.StackValue | runelite-client/src/main/java/net/runelite/client/plugins/bank/BankPlugin.java:501-525 | without a mode, and always in the range form, the value is the larger of the exchange and the alchemy price of the stack |
| Valuation.HeldQuantity | runelite-client/src/main/java/net/runelite/client/plugins/bank/BankPlugin.java:502 | qty is 1 with an individual scope and otherwise the bank count; the range form always uses the bank count |
| Valuation.Holds | runelite-client/src/main/java/net/runelite/client/plugins/bank/BankPlugin.java:559-571 | the comparison for an operator: each operator accepts exactly the relations its characters name (<, =, >), and a string that is no operator accepts nothing |
| Valuation.Verdict | runelite-client/src/main/java/net/runelite/client/plugins/bank/BankPlugin.java:546-610 | the answer once the value is known: a true answer needs the threshold, or both bounds, to parse, and a true range answer needs its lower bound not above its upper bound |
| Valuation.Evaluate | runelite-client/src/main/java/net/runelite/client/plugins/bank/BankPlugin.java:501-612 | valueSearch after the match: an individual query tests the value of one item, and a range query tests the larger price times the bank count |
| Valuation.PriceModes | runelite-client/src/main/java/net/runelite/client/plugins/bank/BankPlugin.java:507-525 | ge takes the exchange price of the stack, ha and alch the alchemy price, in any case; no mode is at least both |
| Valuation.QtyMode | runelite-client/src/main/java/net/runelite/client/plugins/bank/BankPlugin.java:514-516 | in qty mode a placeholder is worth 0 and a real item its quantity |
| Valuation.IndividualIgnoresBank | runelite-client/src/main/java/net/runelite/client/plugins/bank/BankPlugin.java:502 | with an individual scope the answer is the same whatever the bank holds |
| Valuation.StackValueScales | runelite-client/src/main/java/net/runelite/client/plugins/bank/BankPlugin.java:502-507 | outside qty mode a stack is worth its quantity times one item |
| Valuation.ParseFailureRejects | runelite-client/src/main/java/net/runelite/client/plugins/bank/BankPlugin.java:546-610 | a threshold, or either range bound, that does not parse makes the answer false |
| Valuation.CompareExact | runelite-client/src/main/java/net/runelite/client/plugins/bank/BankPlugin.java:559-571 | each of the five operators answers exactly its comparison of the value with the threshold |
| Valuation.OperatorsAgree | runelite-client/src/main/java/net/runelite/client/plugins/bank/BankPlugin.java:559-571 | exactly one of <, = and > holds; >= is > or =; <= is not > |
| Valuation.RangeInclusive | runelite-client/src/main/java/net/runelite/client/plugins/bank/BankPlugin.java:594-610 | a range accepts exactly the values between its bounds, both included, and nothing when the bounds are reversed |
| Valuation.RangeUsesFullCount | runelite-client/src/main/java/net/runelite/client/plugins/bank/BankPlugin.java:501-509 | the range form tests the larger price times the full bank count |
| Valuation.ExampleTexts | runelite-client/src/main/java/net/runelite/client/plugins/bank/BankPlugin.java:96-99 | "ge>1000 a" and "100-500 d" are the texts of well-formed queries |
| Valuation.ExamplesRecognized | runelite-client/src/main/java/net/runelite/client/plugins/bank/BankPlugin.java:96-99 | "ge>1000 a" is recognised as a compare query and "100-500 d" as a range query |
| Valuation.ExampleGeAbove | runelite-client/src/main/java/net/runelite/client/plugins/bank/BankPlugin.java:501-562 | 30 items at exchange price 50 match "ge>1000 a", and the order becomes ascending |
| Valuation.ExampleBetween | runelite-client/src/main/java/net/runelite/client/plugins/bank/BankPlugin.java:501-609 | 5 items at prices 10 and 40 (value 200) match "100-500 d", and the order becomes descending |
| Aggregation.BankItemSet | runelite-client/src/main/java/net/runelite/client/plugins/bank/BankPlugin.java:615-632 | no bank gives empty counts; otherwise each id counts the summed quantities of its slots, fillers excluded |
| Aggregation.BankCount | runelite-client/src/main/java/net/runelite/client/plugins/bank/BankPlugin.java:624-630 | the count of one id over the slots, fillers excluded; never negative when no slot quantity is |
| Aggregation.FillerNotCounted | runelite-client/src/main/java/net/runelite/client/plugins/bank/BankPlugin.java:626-629 | bank fillers are never counted |
| Aggregation.BankCountAppend | runelite-client/src/main/java/net/runelite/client/plugins/bank/BankPlugin.java:624-630 | the count over two runs of slots is the sum of the counts over each |
| Aggregation.BankCountAbsent | runelite-client/src/main/java/net/runelite/client/plugins/bank/BankPlugin.java:624-630 | an id in no slot counts 0 |
| Aggregation.HaPrice | runelite-client/src/main/java/net/runelite/client/plugins/bank/BankPlugin.java:662-673 | coins are worth 1, platinum tokens 1000, any other item its catalog alchemy price |
| Aggregation.Calculate | runelite-client/src/main/java/net/runelite/client/plugins/bank/BankPlugin.java:634-660 | null items give null; otherwise both totals are the wrapped sums of price times quantity over the slots with a positive id and non-zero quantity |
| Aggregation.Worth | runelite-client/src/main/java/net/runelite/client/plugins/bank/BankPlugin.java:645-657 | the exact total over the slots with a positive id and a non-zero quantity; never negative when no price and no quantity is |
| Aggregation.WorthAppend | runelite-client/src/main/java/net/runelite/client/plugins/bank/BankPlugin.java:645-657 | the total over two runs of slots is the sum of the totals |
| Aggregation.WorthSwap | runelite-client/src/main/java/net/runelite/client/plugins/bank/BankPlugin.java:645-657 | the total does not depend on the order of the runs |
| Aggregation.WorthSkipped | runelite-client/src/main/java/net/runelite/client/plugins/bank/BankPlugin.java:650-653 | slots that are all skipped are worth 0 |
| Aggregation.WidgetContainerPrices | runelite-client/src/main/java/net/runelite/client/plugins/bank/BankPlugin.java:675-704 | prices exist exactly when both container and children do; they are the wrapped sums over the first container-size children that are present, not self-hidden and have an item id above -1 |
| Aggregation.WidgetWorth | runelite-client/src/main/java/net/runelite/client/plugins/bank/BankPlugin.java:689-698 | the exact total over the children that exist, are not self-hidden and show an item; never negative when no price and no quantity is |
| Aggregation.WidgetWorthMatchesWorth | runelite-client/src/main/java/net/runelite/client/plugins/bank/BankPlugin.java:689-698 | when the children mirror the container slots, the widget total equals the item total |
| JavaLong.Long | runelite-client/src/main/java/net/runelite/client/plugins/bank/BankPlugin.java:642-656 | the wrapped value is a long and agrees with the exact sum modulo 2^64 |
| JavaLong.LongAddAbsorbs | runelite-client/src/main/java/net/runelite/client/plugins/bank/BankPlugin.java:655-656 | wrapping after every addition equals wrapping once at the end |
| JavaLong.LongExact | runelite-client/src/main/java/net/runelite/client/plugins/bank/BankPlugin.java:655-656 | a sum within the long range is not changed by wrapping |
| StableSort.KeyLeTotal | runelite-client/src/main/java/net/runelite/client/plugins/bank/BankPlugin.java:373-374 | the y-then-x key order is a total order |
| StableSort.SortPermutation | runelite-client/src/main/java/net/runelite/client/plugins/bank/BankPlugin.java:347-375 | sorting rearranges the children and loses or adds none |
| StableSort.SortSorted | runelite-client/src/main/java/net/runelite/client/plugins/bank/BankPlugin.java:347-375 | the result is ordered by the key |
| StableSort.SortStable | runelite-client/src/main/java/net/runelite/client/plugins/bank/BankPlugin.java:347-375 | children with equal keys keep their relative order |
| StableSort.SortedUnique | runelite-client/src/main/java/net/runelite/client/plugins/bank/BankPlugin.java:347-375 | two sorted sequences with the same children per key are equal |
| StableSort.SortUnique | runelite-client/src/main/java/net/runelite/client/plugins/bank/BankPlugin.java:347-375 | any sorted, stable rearrangement of the input equals the reference sort, so a stable library sort gives the same array |
| StableSort.SortInPlace | runelite-client/src/main/java/net/runelite/client/plugins/bank/BankPlugin.java:347-375 | the array ends up as the stable sort of its old contents |
| StableSort.InsertInPlace | runelite-client/src/main/java/net/runelite/client/plugins/bank/BankPlugin.java:347-375 | one insertion step puts the next child into the sorted prefix and leaves the rest of the array alone |
| BankLayout.OrderKeySorted | runelite-client/src/main/java/net/runelite/client/plugins/bank/BankPlugin.java:345-375 | sorted children are by value descending for -1, ascending for 1, and otherwise by original y then x |
| BankLayout.ValueKey | runelite-client/src/main/java/net/runelite/client/plugins/bank/BankPlugin.java:347-356 | the value orderBank sorts by: 0 for a hidden widget or an item with placeholder template 14401, otherwise the larger of the alchemy and exchange price times the quantity, never negative when the alchemy price and the quantity are not |
| BankLayout.OrderKey | runelite-client/src/main/java/net/runelite/client/plugins/bank/BankPlugin.java:345-375 | the comparator for orderType: -1 orders by value with larger first, 1 by value with smaller first, anything else by original y then x |
| BankLayout.Cell | runelite-client/src/main/java/net/runelite/client/plugins/bank/BankPlugin.java:383-384 | the cell of the k-th item: one of eight columns 48 apart from x = 51, rows 36 apart from y = 0, and k is recovered from the cell |
| BankLayout.CellInjective | runelite-client/src/main/java/net/runelite/client/plugins/bank/BankPlugin.java:383-384 | distinct grid indices get distinct positions |
| BankLayout.Relayout | runelite-client/src/main/java/net/runelite/client/plugins/bank/BankPlugin.java:380-401 | a visible item child goes to its grid cell and any other child keeps its position; separators and tab text get hidden; nothing else changes |
| BankLayout.Layout | runelite-client/src/main/java/net/runelite/client/plugins/bank/BankPlugin.java:378-402 | the walk keeps the number of children |
| BankLayout.LayoutAt | runelite-client/src/main/java/net/runelite/client/plugins/bank/BankPlugin.java:378-402 | each child is laid out with the number of visible item children before it |
| BankLayout.LayoutStep | runelite-client/src/main/java/net/runelite/client/plugins/bank/BankPlugin.java:378-402 | one iteration extends the layout by one child and increments the item counter exactly for a visible item child |
| BankLayout.PlacedCountGrows | runelite-client/src/main/java/net/runelite/client/plugins/bank/BankPlugin.java:380-394 | the item counter grows past every visible item child |
| BankLayout.LayoutGrid | runelite-client/src/main/java/net/runelite/client/plugins/bank/BankPlugin.java:380-394 | visible item children get successive cells, two of them never share one |
| BankLayout.MovedExactly | runelite-client/src/main/java/net/runelite/client/plugins/bank/BankPlugin.java:386-391 | a child is moved and revalidated exactly when it is a visible item child not already in its cell |
| BankLayout.MovedArePlaced | runelite-client/src/main/java/net/runelite/client/plugins/bank/BankPlugin.java:380-391 | only visible item children are ever moved |
| BankLayout.SeparatorsHidden | runelite-client/src/main/java/net/runelite/client/plugins/bank/BankPlugin.java:396-401 | separator lines and tab text are hidden after the walk |
| BankLayout.LayoutIdempotent | runelite-client/src/main/java/net/runelite/client/plugins/bank/BankPlugin.java:378-402 | walking again moves nothing and changes nothing, when no visible item child is itself a separator |
| BankLayout.OccurrenceContained | runelite-client/src/main/java/net/runelite/client/plugins/bank/BankPlugin.java:398 | text with "Tab" at some position contains "Tab" |
| BankLayout.ContainedOccurrence | runelite-client/src/main/java/net/runelite/client/plugins/bank/BankPlugin.java:398 | text that contains "Tab" has it at some position |
| Plugin.ParseFailureKeepsOrder | runelite-client/src/main/java/net/runelite/client/plugins/bank/BankPlugin.java:527-557 | a threshold that does not parse answers false and still sets the order |
| Plugin.BankPlugin.constructor | runelite-client/src/main/java/net/runelite/client/plugins/bank/BankPlugin.java:120-122 | a new plugin has no cached counts and order 0 |
| Plugin.BankPlugin.ValueSearch | runelite-client/src/main/java/net/runelite/client/plugins/bank/BankPlugin.java:486-613 | an unmatched query answers false and changes nothing; a matched one caches the counts when none are cached, sets the order from its token, and answers the verdict on the item's value |
| Plugin.BankPlugin.Answer | runelite-client/src/main/java/net/runelite/client/plugins/bank/BankPlugin.java:495-612 | counts are reused when cached and taken from the bank otherwise; the order and the answer follow the query |
| Plugin.BankPlugin.OnItemContainerChanged | runelite-client/src/main/java/net/runelite/client/plugins/bank/BankPlugin.java:318-331 | a bank change drops the cached counts; other containers keep them; the order is kept |
| Plugin.BankPlugin.ShutDown | runelite-client/src/main/java/net/runelite/client/plugins/bank/BankPlugin.java:168-176 | the cached counts are dropped and the order is kept |
| Plugin.BankPlugin.OrderBank | runelite-client/src/main/java/net/runelite/client/plugins/bank/BankPlugin.java:333-403 | no container does nothing; otherwise the children end as the layout of their stable sort under the current order, and exactly the misplaced visible item children are revalidated |
| Plugin.LayOut | runelite-client/src/main/java/net/runelite/client/plugins/bank/BankPlugin.java:377-402 | the walk leaves the array as the layout of its old contents and revalidates exactly the moved children |
| Plugin.PlaceChild | runelite-client/src/main/java/net/runelite/client/plugins/bank/BankPlugin.java:380-401 | one child is laid out in its cell, and is reported moved exactly when it was a visible item child elsewhere |

## Left out

- The plugin's UI and lifecycle code is not modelled: the search hotkey, the menu and script callbacks, the value text, and the client-thread scheduling. The seed vault branch of `onItemContainerChanged` is also out. The value search reaches none of these.
- `shutDown` also unregisters the hotkey, resets the bank search and clears `forceRightClickFlag` and `searchString`. Only `itemQuantities` is part of this model.
- `QuantityFormatter.parseQuantity` is not part of this model. It is the parameter `parse`, whose `None` stands for a `ParseException`.
- `ItemManager` is not part of this model. Its answers are the functions of `Catalog`, and the client's containers and widgets are passed in as values.
- Aggregation.BankItemSet: requires non-negative slot quantities. Guava's `Multiset.add` throws on a negative count, which is not modelled. Counts are unbounded, so an `int` count overflowing is not modelled either.
- Aggregation.WidgetContainerPrices: requires at least as many children as container slots. The source would throw an index exception otherwise. A null widget (line 679) is not modelled.
- Widgets are values, not objects. The model does not capture aliasing between children, and `revalidate` appears only as the returned list of moved indices.
- The number of `SpriteID.RESIZEABLE_MODE_SIDE_PANEL_BACKGROUND` is in the game's sprite table, which is not part of this model, so it is an unspecified constant. The item and container ids come from the game's tables.
- StableSort.SortInPlace: this is an insertion sort, not Java's TimSort. Its result is the same, by `SortUnique`, but the number of comparisons is not modelled.
- The `log.debug` call in `getWidgetContainerPrices` is not modelled.
- A widget whose text is null is not modelled.
- Item prices, alchemy prices and quantities are unbounded integers, while the client gives them as 32-bit `int`s. The model computes the products `price * qty` exactly, in `StackValue`, `Calculate`, `WidgetContainerPrices` and `ValueKey`. This agrees with Java because the source widens one factor to `long`, and the product of two `int`s always fits in a `long`. Only the running sums can wrap, and `Long` models that.
- The `int` arithmetic of the grid offsets is unbounded. It cannot overflow for a bank of realistic size.
- Java's `String.toLowerCase` is modelled for ASCII letters only. The pattern only accepts ASCII tokens.
