/**
 * The newer server's catalogue handlers (backend/server/handlers/stripe.py,
 * and backend/server/handlers/service.py, which repeats `handle_get_services`):
 * products, services and one checkout session as replies. A user is seen
 * here through `is_admin()` and `email`.
 */
module StripeHandlers {
  import opened Wrappers
  import opened Json
  import opened HttpReply
  import opened Outcomes
  import Catalog

  const Unauthorised := "Unauthorised to access this session"

  datatype Viewer = Viewer(isAdmin: bool, email: Value)

  /** A list of catalogue items as a JSON value. */
  function ItemList(items: seq<Catalog.Item>): Value {
    List(seq(|items|, i requires 0 <= i < |items| => Object(items[i])))
  }

  function HandleGetProducts(products: Catalog.Fetched): Reply {
    if !products.success then UnifiedResponse(false, products.message, map[], 500)
    else UnifiedResponse(true, products.message, Single("products", ItemList(products.items)), 200)
  }

  function HandleGetServices(services: Catalog.Fetched): Reply {
    if !services.success then UnifiedResponse(false, services.message, map[], 500)
    else UnifiedResponse(true, services.message, Single("services", ItemList(services.items)), 200)
  }

  function HandleGetSessionById(user: Viewer, found: (bool, string, Dict)): Reply {
    var (success, message, session) := found;
    if !success then UnifiedResponse(success, message, map[], 500)
    else if user.isAdmin then UnifiedResponse(success, message, Single("session", Object(session)), 200)
    else if Get(session, "customer_email") != user.email then UnifiedResponse(false, Unauthorised, map[], 404)
    else UnifiedResponse(true, message, Single("session", Object(session)), 200)
  }

  // ---------------------------------------------------------------------------
  // Properties
  // ---------------------------------------------------------------------------

  /**
   * The catalogue replies 200 with the items under "products" / "services"
   * when the service succeeds, and the classified failure otherwise; an
   * exception in the service is a 500 with 'Unexpected error occurred'.
   */
  lemma CatalogueReplies(f: Catalog.Fetched)
    ensures f.success ==> HandleGetProducts(f) == Reply(200, Single("products", ItemList(f.items)))
    ensures f.success ==> HandleGetServices(f) == Reply(200, Single("services", ItemList(f.items)))
    ensures !f.success ==> HandleGetProducts(f) == Classify(f.message) && HandleGetServices(f) == Classify(f.message)
    ensures f == Catalog.Fetched(false, Catalog.Unexpected, []) ==>
      HandleGetProducts(f) == Error(500, Catalog.Unexpected) && HandleGetServices(f) == Error(500, Catalog.Unexpected)
  {
    assert "products" in Single("products", ItemList(f.items));
    assert "services" in Single("services", ItemList(f.items));
    if f == Catalog.Fetched(false, Catalog.Unexpected, []) {
      ShortMessageIs500(Catalog.Unexpected);
    }
  }

  /**
   * A session reaches the user exactly when the lookup succeeds and the user
   * is an administrator or the session's customer; the reply is then 200
   * with the session.
   */
  lemma SessionAccess(user: Viewer, found: (bool, string, Dict))
    ensures HandleGetSessionById(user, found).code == 200 <==>
      found.0 && (user.isAdmin || Get(found.2, "customer_email") == user.email)
    ensures HandleGetSessionById(user, found).code == 200 ==>
      HandleGetSessionById(user, found).data == Single("session", Object(found.2))
  {
    assert "session" in Single("session", Object(found.2));
    ClassifierCodes(found.1);
    ClassifierCodes(Unauthorised);
  }

  /**
   * Someone else's session is refused with 500, not the 404 passed in; a
   * session that is not found is a 500 as well.
   */
  lemma ForeignSessionIs500(user: Viewer, message: string, session: Dict)
    requires !user.isAdmin && Get(session, "customer_email") != user.email
    ensures HandleGetSessionById(user, (true, message, session)) == Error(500, Unauthorised)
    ensures HandleGetSessionById(user, Catalog.GetSessionById(Some(map[]))) == Error(500, "Session not found")
  {
    ShortMessageIs500(Unauthorised);
    ShortMessageIs500("Session not found");
  }
}
