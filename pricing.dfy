/**
 * Prices as the store pages show them. A price has an id and an amount in
 * whole cents (`unit_amount`), which may be absent; an item may have a
 * `display_price` and a `default_price`. `formatPrice` is written out four
 * times in the front end, identically (frontend/src/utils/stripe.tsx,
 * pages/services.tsx, pages/products.tsx, components/Cards/ItemCard.tsx);
 * it is defined once here.
 */
module Pricing {
  import opened Wrappers
  import Text

  datatype Price = Price(id: string, unitAmount: Option<int>)

  datatype Item = Item(id: string, displayPrice: Option<Price>, defaultPrice: Option<Price>)

  const NotAvailable := "Price not available"

  /** `(n / 100).toFixed(2)` for a whole number of cents `n`. */
  function Decimal(n: int): string {
    if n < 0 then "-" + Unsigned(-n) else Unsigned(n)
  }

  /** `m` cents as dollars, `.` and two digits of cents. */
  function Unsigned(m: nat): string {
    Text.NatToString(m / 100) + "." + Text.TwoDigits(m % 100)
  }

  /** `formatPrice(price)`: a price object with a non-zero amount in dollars, anything else not available. */
  function FormatPrice(price: Option<Price>): string {
    if price.Some? && price.value.unitAmount.Some? && price.value.unitAmount.value != 0
    then "$" + Decimal(price.value.unitAmount.value)
    else NotAvailable
  }

  /** The amount a label shows: present only for a price with a non-zero amount. */
  function Charged(price: Option<Price>): Option<int> {
    if price.Some? && price.value.unitAmount.Some? && price.value.unitAmount.value != 0
    then price.value.unitAmount else None
  }

  /**
   * Reads a label back: `$`, an optional `-`, the dollars, `.` and exactly
   * two digits of cents; `None` for any other text.
   */
  function ReadPrice(s: string): Option<int> {
    if |s| == 0 || s[0] != '$' then None
    else
      var negative := |s| > 1 && s[1] == '-';
      var body := if negative then s[2..] else s[1..];
      var parts := Text.Split(body, '.');
      if |parts| == 2 && |parts[0]| > 0 && |parts[1]| == 2 && Text.AllDigits(parts[0]) && Text.AllDigits(parts[1]) then
        var m := Text.ParseDigits(parts[0]) * 100 + Text.ParseDigits(parts[1]);
        Some(if negative then -m else m)
      else None
  }

  /** `item.display_price ? item.display_price : item.default_price`: the price a card shows and the services page sorts on. */
  function ShownPrice(item: Item): Option<Price> {
    if item.displayPrice.Some? then item.displayPrice else item.defaultPrice
  }

  /** The price label of a card. */
  function PriceLabel(item: Item): string {
    FormatPrice(ShownPrice(item))
  }

  /**
   * The arguments a card's button passes to `onButtonClick`:
   * `(item.display_price.id, item.id)`; absent when there is no display
   * price, as the click then throws.
   */
  function ButtonArgs(item: Item): Option<(string, string)> {
    if item.displayPrice.Some? then Some((item.displayPrice.value.id, item.id)) else None
  }

  // ---------------------------------------------------------------------------
  // Properties
  // ---------------------------------------------------------------------------

  lemma DigitsHaveNoDot(s: string)
    requires Text.AllDigits(s)
    ensures '.' !in s && (|s| > 0 ==> s[0] != '-')
  {
  }

  /** The dollars and cents of an amount split at the `.` and read back as the amount. */
  lemma UnsignedReadsBack(m: nat)
    ensures var parts := Text.Split(Unsigned(m), '.');
      |parts| == 2 && |parts[0]| > 0 && |parts[1]| == 2 && Text.AllDigits(parts[0]) && Text.AllDigits(parts[1]) &&
      Text.ParseDigits(parts[0]) * 100 + Text.ParseDigits(parts[1]) == m
  {
    var d, c := Text.NatToString(m / 100), Text.TwoDigits(m % 100);
    DigitsHaveNoDot(d);
    DigitsHaveNoDot(c);
    Text.SplitAfterPiece(d, '.', c);
    Text.NoSeparatorSplit(c, '.');
    assert Unsigned(m) == d + ['.'] + c;
    Text.ParseNatToString(m / 100);
  }

  /** The text after `$` of a label reads back as the amount, with its sign. */
  lemma {:induction false} ReadDecimal(n: int)
    ensures ReadPrice("$" + Decimal(n)) == Some(n)
  {
    var s := "$" + Decimal(n);
    var m: nat := if n < 0 then -n else n;
    var body := Unsigned(m);
    UnsignedReadsBack(m);
    var d := Text.NatToString(m / 100);
    DigitsHaveNoDot(d);
    if n < 0 {
      assert s[1] == '-' && s[2..] == body;
    } else {
      assert s[1] == d[0] && s[1..] == body;
    }
  }

  /**
   * A label is "Price not available" exactly when the price is absent or
   * its amount is absent or zero; otherwise it reads back as the amount in
   * cents, so no two amounts share a label.
   */
  lemma FormatPriceReadsBack(price: Option<Price>)
    ensures FormatPrice(price) == NotAvailable <==> Charged(price).None?
    ensures ReadPrice(FormatPrice(price)) == Charged(price)
  {
    if Charged(price).Some? {
      var n := price.value.unitAmount.value;
      ReadDecimal(n);
      assert FormatPrice(price)[0] == '$' != NotAvailable[0];
    } else {
      assert NotAvailable[0] == 'P';
    }
  }

  /**
   * A card's label shows the display price when there is one and the
   * default price otherwise, and reads back as that price's amount.
   */
  lemma PriceLabelShows(item: Item)
    ensures item.displayPrice.Some? ==> PriceLabel(item) == FormatPrice(item.displayPrice)
    ensures item.displayPrice.None? ==> PriceLabel(item) == FormatPrice(item.defaultPrice)
    ensures ReadPrice(PriceLabel(item)) == Charged(ShownPrice(item))
  {
    FormatPriceReadsBack(ShownPrice(item));
  }

  /**
   * The button buys the price the card shows, for the card's item; it
   * works exactly when there is a display price, so a card that falls back
   * to its default price shows a label whose button throws.
   */
  lemma ButtonBuysShownPrice(item: Item)
    ensures ButtonArgs(item).Some? <==> item.displayPrice.Some?
    ensures ButtonArgs(item).Some? ==> ButtonArgs(item).value == (ShownPrice(item).value.id, item.id)
  {
  }
}
