/**
 * The entities the bank plugin reads from the game client: item slots of a
 * container, widgets of the bank interface, and the item catalog kept by the
 * client's item manager.
 */
module BankTypes {
  /** An item slot of a container (net.runelite.api.Item). */
  datatype Item = Item(id: int, quantity: int)

  /**
   * A child widget of the bank item container. `hidden` is the widget's own
   * hidden flag (what isSelfHidden() reports and setHidden writes);
   * `parentHidden` says an enclosing widget is hidden, so isHidden() is
   * `hidden || parentHidden`. originalX/originalY are the layout position.
   */
  datatype Widget = Widget(
    itemId: int,
    itemQuantity: int,
    originalX: int,
    originalY: int,
    hidden: bool,
    parentHidden: bool,
    spriteId: int,
    text: string)
  {
    predicate IsHidden() { hidden || parentHidden }
  }

  /**
   * What the item manager answers about an item id: the exchange price
   * (getItemPrice), and from the item's composition its high-alchemy price
   * (getHaPrice) and its placeholder template id (-1 for a real item).
   */
  datatype Catalog = Catalog(
    price: int -> int,
    haPrice: int -> int,
    placeholderTemplateId: int -> int)

  /** ItemID.COINS_995 */
  const COINS_995: int := 995
  /** ItemID.PLATINUM_TOKEN */
  const PLATINUM_TOKEN: int := 13204
  /** ItemID.BANK_FILLER */
  const BANK_FILLER: int := 20594
  /** InventoryID.BANK.getId() */
  const BANK_CONTAINER_ID: int := 95
  /** Placeholder template id of the items that orderBank keys as worthless. */
  const SORT_EXCLUDED_TEMPLATE: int := 14401
  /**
   * SpriteID.RESIZEABLE_MODE_SIDE_PANEL_BACKGROUND, the sprite of the tab
   * separator lines. Its number lives in the game's sprite table, which is not
   * part of this model, so it is left unspecified.
   */
  const SEPARATOR_SPRITE: int

  function Max(a: int, b: int): (m: int)
    ensures m >= a && m >= b && (m == a || m == b)
  {
    if a >= b then a else b
  }
}
