/**
 * The checkout decision of `handleItemAction` (frontend/src/utils/stripe.tsx):
 * a signed-out user is sent to the login page; otherwise the user record
 * is fetched and, when Stripe has loaded, the browser is redirected to a
 * checkout session for one unit of the price. The asynchronous calls are
 * parameters: whether the user is authenticated, the fetched user's email
 * (absent when the fetch does not answer 200 or throws) and whether Stripe
 * loaded.
 */
module Checkout {
  import opened Wrappers
  import Text

  datatype Mode = Payment | Subscription

  datatype LineItem = LineItem(price: string, quantity: nat)

  datatype Session = Session(
    lineItems: seq<LineItem>,
    mode: Mode,
    successUrl: string,
    cancelUrl: string,
    customerEmail: string,
    clientReferenceId: string)

  datatype Action =
    | ToLogin                     // `window.location.assign('/login')`
    | Stopped                     // the user fetch failed, or Stripe did not load
    | RedirectToCheckout(session: Session)

  const SessionQuery := "?session_id={CHECKOUT_SESSION_ID}&item_id="

  function SuccessUrl(apiUrl: string, successUrlPath: string, itemId: string): string {
    apiUrl + successUrlPath + SessionQuery + itemId
  }

  /** The page to return to: products for a payment, services for a subscription. */
  function CancelUrl(apiUrl: string, mode: Mode): string {
    apiUrl + "/" + (if mode == Payment then "products" else "services")
  }

  function ItemAction(apiUrl: string, priceId: string, itemId: string, mode: Mode, successUrlPath: string,
                      authenticated: bool, userEmail: Option<string>, stripeLoaded: bool): Action {
    if !authenticated then ToLogin
    else if userEmail.None? || !stripeLoaded then Stopped
    else RedirectToCheckout(Session([LineItem(priceId, 1)], mode, SuccessUrl(apiUrl, successUrlPath, itemId),
                                    CancelUrl(apiUrl, mode), userEmail.value, "your_reference_id"))
  }

  /** The value of the last query parameter of a URL: the text after its last `=`. */
  function LastParameter(url: string): string {
    Text.Last(Text.Split(url, '='))
  }

  // ---------------------------------------------------------------------------
  // Properties
  // ---------------------------------------------------------------------------

  /** The item id is the success URL's last parameter, whatever the base URL and path, when it has no `=` itself. */
  lemma SuccessUrlCarriesItem(apiUrl: string, successUrlPath: string, itemId: string)
    requires '=' !in itemId
    ensures LastParameter(SuccessUrl(apiUrl, successUrlPath, itemId)) == itemId
  {
    var front := apiUrl + successUrlPath + "?session_id={CHECKOUT_SESSION_ID}&item_id";
    assert SuccessUrl(apiUrl, successUrlPath, itemId) == front + ['='] + itemId;
    Text.SplitLastPiece(front, '=', itemId);
  }

  /** The two modes return to different pages under the same base URL. */
  lemma CancelUrlByMode(apiUrl: string, mode: Mode)
    ensures Text.StartsWith(CancelUrl(apiUrl, mode), apiUrl + "/")
    ensures CancelUrl(apiUrl, Payment) != CancelUrl(apiUrl, Subscription)
  {
    assert CancelUrl(apiUrl, Payment)[|apiUrl| + 1] == 'p';
    assert CancelUrl(apiUrl, Subscription)[|apiUrl| + 1] == 's';
  }

  /**
   * A signed-out user always goes to the login page and never to checkout;
   * a checkout needs the user record and Stripe, charges exactly one unit of
   * the given price in the given mode, and is billed to the fetched email.
   */
  lemma ItemActionOutcomes(apiUrl: string, priceId: string, itemId: string, mode: Mode, successUrlPath: string,
                            authenticated: bool, userEmail: Option<string>, stripeLoaded: bool)
    ensures ItemAction(apiUrl, priceId, itemId, mode, successUrlPath, authenticated, userEmail, stripeLoaded) == ToLogin
            <==> !authenticated
    ensures ItemAction(apiUrl, priceId, itemId, mode, successUrlPath, authenticated, userEmail, stripeLoaded).RedirectToCheckout?
            <==> authenticated && userEmail.Some? && stripeLoaded
    ensures ItemAction(apiUrl, priceId, itemId, mode, successUrlPath, authenticated, userEmail, stripeLoaded).RedirectToCheckout? ==>
      var session := ItemAction(apiUrl, priceId, itemId, mode, successUrlPath, authenticated, userEmail, stripeLoaded).session;
      session.lineItems == [LineItem(priceId, 1)] && session.mode == mode && session.customerEmail == userEmail.value &&
      Text.StartsWith(session.successUrl, apiUrl + successUrlPath) &&
      session.cancelUrl == CancelUrl(apiUrl, mode)
  {
    var url := SuccessUrl(apiUrl, successUrlPath, itemId);
    assert url[..|apiUrl + successUrlPath|] == apiUrl + successUrlPath;
  }
}
