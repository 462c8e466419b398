/**
 * The newer server's catalogue services (backend/server/services/stripe.py,
 * and the identical backend/server/services/product.py and service.py):
 * the items fetched from Stripe get a `display_price`, then those whose
 * price type is the wanted one and that are active are kept, in order.
 * One-time items are "products", recurring ones "services".
 *
 * The Stripe calls are inputs: `fetched` is the result of `fetch_products()`
 * (absent when it raises), `fetchPrice` the price fetched for a
 * `default_price` (absent when it raises), `fetchedSession` the session
 * looked up (absent when it raises). Any exception inside the `try` gives
 * `(False, 'Unexpected error occurred', [])`.
 */
module Catalog {
  import opened Wrappers
  import opened Json
  import opened Sequences

  type Item = Dict

  datatype Fetched = Fetched(success: bool, message: string, items: seq<Item>)

  const OneTime := "one_time"
  const Recurring := "recurring"
  const Unexpected := "Unexpected error occurred"

  /** `stripe.fetch_price(item['default_price'])`, absent when it raises (a missing key included). */
  function PriceOf(item: Item, fetchPrice: Value -> Option<Value>): Option<Value> {
    if "default_price" in item then fetchPrice(item["default_price"]) else None
  }

  /** The first loop: every item with its `display_price` set; absent when some lookup raises. */
  function Priced(items: seq<Item>, fetchPrice: Value -> Option<Value>): Option<seq<Item>>
    decreases |items|
  {
    if items == [] then Some([])
    else
      match Priced(items[..|items| - 1], fetchPrice)
      case None => None
      case Some(front) =>
        match PriceOf(items[|items| - 1], fetchPrice)
        case None => None
        case Some(p) => Some(front + [items[|items| - 1]["display_price" := p]])
  }

  /**
   * `item['display_price']['type'] == kind and item['active'] is True`;
   * absent when it raises. `active` is read only when the type matches.
   */
  function Keep(item: Item, kind: string): Option<bool> {
    if "display_price" !in item || !item["display_price"].Object? || "type" !in item["display_price"].fields then None
    else if item["display_price"].fields["type"] != Str(kind) then Some(false)
    else if "active" !in item then None
    else Some(item["active"] == Bool(true))
  }

  /** The second loop: the items kept, in order; absent when a test raises. */
  function Filtered(items: seq<Item>, kind: string): Option<seq<Item>>
    decreases |items|
  {
    if items == [] then Some([])
    else
      match Filtered(items[..|items| - 1], kind)
      case None => None
      case Some(front) =>
        match Keep(items[|items| - 1], kind)
        case None => None
        case Some(b) => Some(if b then front + [items[|items| - 1]] else front)
  }

  /** `get_products()` (kind "one_time") and `get_services()` (kind "recurring"). */
  function GetItems(fetched: Option<Fetched>, fetchPrice: Value -> Option<Value>, kind: string): Fetched {
    match fetched
    case None => Fetched(false, Unexpected, [])
    case Some(f) =>
      match Priced(f.items, fetchPrice)
      case None => Fetched(false, Unexpected, [])
      case Some(ps) =>
        match Filtered(ps, kind)
        case None => Fetched(false, Unexpected, [])
        case Some(kept) => Fetched(f.success, f.message, kept)
  }

  /** The two loops of `get_products()` / `get_services()`, on the fetched list. */
  method FetchCatalog(fetched: Option<Fetched>, fetchPrice: Value -> Option<Value>, kind: string)
    returns (success: bool, message: string, kept: seq<Item>)
    ensures Fetched(success, message, kept) == GetItems(fetched, fetchPrice, kind)
  {
    if fetched.None? {
      return false, Unexpected, [];
    }
    var priced := PriceAll(fetched.value.items, fetchPrice);
    if priced.None? {
      return false, Unexpected, [];
    }
    var filtered := FilterKind(priced.value, kind);
    if filtered.None? {
      return false, Unexpected, [];
    }
    success, message, kept := fetched.value.success, fetched.value.message, filtered.value;
  }

  /** The first loop: `product['display_price'] = stripe.fetch_price(product['default_price'])`. */
  method PriceAll(source: seq<Item>, fetchPrice: Value -> Option<Value>) returns (r: Option<seq<Item>>)
    ensures r == Priced(source, fetchPrice)
  {
    var items := source;
    var i := 0;
    while i < |items|
      invariant 0 <= i <= |items| == |source|
      invariant Priced(source[..i], fetchPrice) == Some(items[..i])
      invariant forall k :: i <= k < |items| ==> items[k] == source[k]
    {
      assert source[..i + 1][..i] == source[..i];
      var p := PriceOf(items[i], fetchPrice);
      if p.None? {
        PricedAborts(source, fetchPrice, i + 1);
        return None;
      }
      ghost var before := items;
      items := items[i := items[i]["display_price" := p.value]];
      assert items[..i + 1] == before[..i] + [items[i]];
      i := i + 1;
    }
    assert source[..i] == source;
    assert items[..i] == items;
    return Some(items);
  }

  /** The second loop: `filtered.append(product)` for the items of the wanted kind that are active. */
  method FilterKind(items: seq<Item>, kind: string) returns (r: Option<seq<Item>>)
    ensures r == Filtered(items, kind)
  {
    var kept := [];
    var j := 0;
    while j < |items|
      invariant 0 <= j <= |items|
      invariant Filtered(items[..j], kind) == Some(kept)
    {
      assert items[..j + 1][..j] == items[..j];
      var keep := Keep(items[j], kind);
      if keep.None? {
        FilteredAborts(items, kind, j + 1);
        return None;
      }
      if keep.value {
        kept := kept + [items[j]];
      }
      j := j + 1;
    }
    assert items[..j] == items;
    return Some(kept);
  }

  /** Once a prefix fails to price, the whole list does. */
  lemma {:induction false} PricedAborts(items: seq<Item>, fetchPrice: Value -> Option<Value>, n: int)
    requires 0 <= n <= |items| && Priced(items[..n], fetchPrice).None?
    ensures Priced(items, fetchPrice).None?
    decreases |items| - n
  {
    if n < |items| {
      assert items[..n + 1][..n] == items[..n];
      PricedAborts(items, fetchPrice, n + 1);
    } else {
      assert items[..n] == items;
    }
  }

  /** Once a prefix fails to filter, the whole list does. */
  lemma {:induction false} FilteredAborts(items: seq<Item>, kind: string, n: int)
    requires 0 <= n <= |items| && Filtered(items[..n], kind).None?
    ensures Filtered(items, kind).None?
    decreases |items| - n
  {
    if n < |items| {
      assert items[..n + 1][..n] == items[..n];
      FilteredAborts(items, kind, n + 1);
    } else {
      assert items[..n] == items;
    }
  }

  /** `get_session_by_id(session_id)`. */
  function GetSessionById(fetchedSession: Option<Dict>): (bool, string, Dict) {
    match fetchedSession
    case None => (false, Unexpected, map[])
    case Some(s) => if s != map[] then (true, "Successfully fetched session", s) else (false, "Session not found", map[])
  }

  // ---------------------------------------------------------------------------
  // Properties
  // ---------------------------------------------------------------------------

  /**
   * The kept items are exactly the items that pass the test, in their
   * original order.
   */
  lemma FilteredExactly(items: seq<Item>, kind: string)
    requires Filtered(items, kind).Some?
    ensures IsSubsequence(Filtered(items, kind).value, items)
    ensures forall y :: y in Filtered(items, kind).value ==> Keep(y, kind) == Some(true)
    ensures forall i :: 0 <= i < |items| && Keep(items[i], kind) == Some(true) ==> items[i] in Filtered(items, kind).value
    ensures forall i :: 0 <= i < |items| ==> Keep(items[i], kind).Some?
    ensures Filtered(items, kind).value == Select(items, Passes(items, kind))
  {
    FilteredIsSelect(items, kind);
    FilteredTestsSucceed(items, kind);
    SelectIsSubsequence(items, Passes(items, kind));
  }

  /** When filtering succeeds, the test succeeded on every item. */
  lemma {:induction false} FilteredTestsSucceed(items: seq<Item>, kind: string)
    requires Filtered(items, kind).Some?
    ensures forall i :: 0 <= i < |items| ==> Keep(items[i], kind).Some?
    decreases |items|
  {
    if items != [] {
      var front := items[..|items| - 1];
      FilteredTestsSucceed(front, kind);
      assert forall i :: 0 <= i < |front| ==> front[i] == items[i];
    }
  }

  /** The kept items are the selection of the input by the test's flags. */
  lemma {:induction false} FilteredIsSelect(items: seq<Item>, kind: string)
    requires Filtered(items, kind).Some?
    ensures Filtered(items, kind).value == Select(items, Passes(items, kind))
    decreases |items|
  {
    if items != [] {
      var front := items[..|items| - 1];
      FilteredIsSelect(front, kind);
      assert Passes(items, kind)[..|items| - 1] == Passes(front, kind);
    }
  }

  /** For each item, whether it passes the test for `kind`. */
  function Passes(items: seq<Item>, kind: string): (r: seq<bool>)
    ensures |r| == |items|
  {
    seq(|items|, i requires 0 <= i < |items| => Keep(items[i], kind) == Some(true))
  }

  /** Pricing sets `display_price` of every item to the price fetched for it, and changes nothing else. */
  lemma {:induction false} PricedExactly(items: seq<Item>, fetchPrice: Value -> Option<Value>)
    requires Priced(items, fetchPrice).Some?
    ensures |Priced(items, fetchPrice).value| == |items|
    ensures forall i :: 0 <= i < |items| ==>
      PriceOf(items[i], fetchPrice).Some? &&
      Priced(items, fetchPrice).value[i] == items[i]["display_price" := PriceOf(items[i], fetchPrice).value]
    decreases |items|
  {
    if items != [] {
      PricedExactly(items[..|items| - 1], fetchPrice);
    }
  }

  /** No item is both a product and a service. */
  lemma KindsDisjoint(item: Item)
    ensures !(Keep(item, OneTime) == Some(true) && Keep(item, Recurring) == Some(true))
  {
  }

  /**
   * From one fetched list, when both calls succeed, the products are all
   * one-time and the services all recurring, so no item is in both; the
   * fetch's flag and message are passed through.
   */
  lemma ProductsAndServices(fetched: Fetched, fetchPrice: Value -> Option<Value>)
    requires Priced(fetched.items, fetchPrice).Some?
    requires Filtered(Priced(fetched.items, fetchPrice).value, OneTime).Some?
    requires Filtered(Priced(fetched.items, fetchPrice).value, Recurring).Some?
    ensures var products := GetItems(Some(fetched), fetchPrice, OneTime);
            var services := GetItems(Some(fetched), fetchPrice, Recurring);
            && products.success == fetched.success && products.message == fetched.message
            && services.success == fetched.success && services.message == fetched.message
            && forall y :: y in products.items ==> y !in services.items
  {
    var ps := Priced(fetched.items, fetchPrice).value;
    FilteredExactly(ps, OneTime);
    FilteredExactly(ps, Recurring);
    forall y | y in GetItems(Some(fetched), fetchPrice, OneTime).items
      ensures y !in GetItems(Some(fetched), fetchPrice, Recurring).items
    {
      KindsDisjoint(y);
    }
  }

  /** An exception anywhere gives failure, the fixed message and no items. */
  lemma ExceptionsGiveNothing(fetched: Option<Fetched>, fetchPrice: Value -> Option<Value>, kind: string)
    requires fetched.None? || Priced(fetched.value.items, fetchPrice).None?
    ensures GetItems(fetched, fetchPrice, kind) == Fetched(false, Unexpected, [])
  {
  }

  /** A session is found exactly when the lookup returns one that is not empty. */
  lemma SessionLookup(fetchedSession: Option<Dict>)
    ensures GetSessionById(fetchedSession).0 <==> fetchedSession.Some? && fetchedSession.value != map[]
    ensures GetSessionById(fetchedSession).0 ==> GetSessionById(fetchedSession).2 == fetchedSession.value
    ensures fetchedSession == Some(map[]) ==> GetSessionById(fetchedSession) == (false, "Session not found", map[])
  {
  }
}
