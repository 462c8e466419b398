/**
 * The fetch handlers of the products page (frontend/src/pages/products.tsx)
 * and the services page (frontend/src/pages/services.tsx), as the change
 * they make to the page's list. The request itself is a parameter: its
 * status and the item list under `result.data`, absent when `result.data`
 * is missing (the handler then throws, and the error is caught).
 */
module StorePages {
  import opened Wrappers
  import opened Pricing
  import Sorting

  datatype Response = Response(status: int, items: Option<seq<Item>>)

  /** `setProducts(result.data.products)` on a 200 with data; otherwise the list stays. */
  function FetchedProducts(current: seq<Item>, r: Response): seq<Item> {
    if r.status != 200 || r.items.None? then current else r.items.value
  }

  /** The comparator reads `default_price.unit_amount` without a display price, so it throws on an item with neither. */
  predicate Comparable(item: Item) {
    item.displayPrice.Some? || item.defaultPrice.Some?
  }

  /** The item has an amount to sort on. */
  predicate Priced(item: Item) {
    Comparable(item) && ShownPrice(item).value.unitAmount.Some?
  }

  /**
   * `priceA - priceB`. A missing amount is `undefined`, the difference
   * `NaN`, which `sort` reads as 0.
   */
  function ByAmount(a: Item, b: Item): int {
    if Priced(a) && Priced(b) then ShownPrice(a).value.unitAmount.value - ShownPrice(b).value.unitAmount.value else 0
  }

  /**
   * The sort throws when it compares an item with neither price; with two
   * or more items every item is compared, with fewer none is.
   */
  predicate SortThrows(items: seq<Item>) {
    |items| >= 2 && exists i :: 0 <= i < |items| && !Comparable(items[i])
  }

  /** `setServices(result.data.services.sort(...))` on a 200 with data; otherwise the list stays. */
  function FetchedServices(current: seq<Item>, r: Response): seq<Item> {
    if r.status != 200 || r.items.None? || SortThrows(r.items.value) then current
    else Sorting.Sort(r.items.value, ByAmount)
  }

  predicate AllPriced(items: seq<Item>) {
    forall i :: 0 <= i < |items| ==> Priced(items[i])
  }

  /** Every two items are priced and the earlier one's amount is not greater. */
  predicate AscendingByAmount(items: seq<Item>) {
    forall i, j :: 0 <= i < j < |items| ==>
      Priced(items[i]) && Priced(items[j]) &&
      ShownPrice(items[i]).value.unitAmount.value <= ShownPrice(items[j]).value.unitAmount.value
  }

  // ---------------------------------------------------------------------------
  // Properties
  // ---------------------------------------------------------------------------

  /** A response other than 200, or one without data, leaves the products as they were; otherwise they are replaced. */
  lemma ProductsFetch(current: seq<Item>, r: Response)
    ensures r.status != 200 || r.items.None? ==> FetchedProducts(current, r) == current
    ensures r.status == 200 && r.items.Some? ==> FetchedProducts(current, r) == r.items.value
  {
  }

  /** On priced items the difference of amounts is a consistent comparison. */
  lemma ByAmountConsistent(items: seq<Item>)
    requires AllPriced(items)
    ensures Sorting.ConsistentOn(ByAmount, items)
  {
  }

  /**
   * The services page changes its list only on a 200 with data, and then to
   * a permutation of the fetched services; when every service has an
   * amount, the list is in ascending order of amount.
   */
  lemma ServicesFetch(current: seq<Item>, r: Response)
    ensures r.status != 200 || r.items.None? ==> FetchedServices(current, r) == current
    ensures r.status == 200 && r.items.Some? && !SortThrows(r.items.value) ==>
      multiset(FetchedServices(current, r)) == multiset(r.items.value)
    ensures r.status == 200 && r.items.Some? && AllPriced(r.items.value) ==>
      AscendingByAmount(FetchedServices(current, r))
  {
    if r.status == 200 && r.items.Some? && !SortThrows(r.items.value) {
      var items := r.items.value;
      Sorting.SortIsPermutation(items, ByAmount);
      if AllPriced(items) {
        ByAmountConsistent(items);
        var sorted := Sorting.Sort(items, ByAmount);
        forall i | 0 <= i < |sorted| ensures Priced(sorted[i]) {
          assert sorted[i] in multiset(items);
        }
      }
    } else if r.status == 200 && r.items.Some? {
      var items := r.items.value;
      var i :| 0 <= i < |items| && !Comparable(items[i]);
      assert !Priced(items[i]);
    }
  }
}
