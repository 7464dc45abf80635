/**
 * The seller's order page (app/seller/orders/page.tsx): the orders are
 * fetched from Firestore for a signed-in seller and fall back to the
 * bundled sample orders in every other case. The fetch is an input: either
 * the list it returned or a failure.
 */
module SellerOrders {
  import opened Wrappers
  import opened Domain

  datatype Fetch = Fetched(orders: seq<Order>) | FetchFailed

  const LoadError := "Failed to load orders"

  /** A seller is signed in. */
  predicate IsSeller(session: Option<User>) {
    session.Some? && session.value.role == Seller
  }

  /** The orders `loadOrders` settles on. */
  function LoadedOrders(session: Option<User>, configValid: bool, fetch: Fetch, mock: seq<Order>): (r: seq<Order>)
    ensures r == mock || (IsSeller(session) && configValid && fetch.Fetched? && r == fetch.orders)
    ensures |mock| > 0 ==> |r| > 0
  {
    if !IsSeller(session) || !configValid then mock
    else if fetch.FetchFailed? then mock
    else if |fetch.orders| > 0 then fetch.orders
    else mock
  }

  /** The error `loadOrders` reports, if any: only a failed fetch for a seller sets one. */
  function LoadedError(session: Option<User>, configValid: bool, fetch: Fetch, previous: Option<string>): (e: Option<string>)
    ensures IsSeller(session) && configValid && fetch.FetchFailed? ==> e == Some(LoadError)
    ensures !(IsSeller(session) && configValid && fetch.FetchFailed?) ==> e == previous
  {
    if IsSeller(session) && configValid && fetch.FetchFailed? then Some(LoadError) else previous
  }

  /** Fetched orders are shown exactly when a seller's fetch under a valid configuration returned some. */
  lemma FetchedShownIff(session: Option<User>, configValid: bool, fetch: Fetch, mock: seq<Order>)
    requires fetch.Fetched? && fetch.orders != mock
    ensures LoadedOrders(session, configValid, fetch, mock) == fetch.orders <==>
      IsSeller(session) && configValid && |fetch.orders| > 0
  {
  }

  /** The page state. */
  class SellerOrdersPage {
    var orders: seq<Order>
    var loading: bool
    var error: Option<string>
    const mock: seq<Order>

    /** The page starts with the sample orders, loading, and no error. */
    constructor (mock: seq<Order>)
      ensures this.mock == mock && orders == mock && loading && error.None?
    {
      this.mock := mock;
      orders := mock;
      loading := true;
      error := None;
    }

    /** `loadOrders` for the session, the configuration check and the fetch's result. */
    method LoadOrders(session: Option<User>, configValid: bool, fetch: Fetch)
      modifies this`orders, this`loading, this`error
      ensures orders == LoadedOrders(session, configValid, fetch, mock)
      ensures error == LoadedError(session, configValid, fetch, old(error))
      ensures !loading
    {
      if !IsSeller(session) {
        orders := mock;
        loading := false;
        return;
      }
      if configValid {
        if fetch.FetchFailed? {
          error := Some(LoadError);
          orders := mock;
        } else if |fetch.orders| > 0 {
          orders := fetch.orders;
        } else {
          orders := mock;
        }
      } else {
        orders := mock;
      }
      loading := false;
    }
  }
}
