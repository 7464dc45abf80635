/**
 * The cart page (app/cart/page.tsx): it joins the cart lines with the
 * catalog, drops the lines whose product is unknown, shows a subtotal per
 * row and the store's total, and clamps an edited quantity to at least 1.
 */
module CartPage {
  import opened Wrappers
  import opened Domain
  import opened Cart

  /** One table row: the catalog product and the line's quantity. */
  datatype Row = Row(product: Product, qty: int)

  /**
   * `items.map(i => find ? {product, qty} : null).filter(Boolean)`: one row
   * per line whose product the catalog knows, in cart order.
   */
  function Rows(items: seq<CartItem>, catalog: seq<Product>): (rows: seq<Row>)
    ensures |rows| <= |items|
    ensures forall k :: 0 <= k < |rows| ==> rows[k].product in catalog
    decreases |items|
  {
    if |items| == 0 then []
    else
      var rest := Rows(items[1..], catalog);
      match FindProduct(catalog, items[0].productId)
      case None => rest
      case Some(p) => [Row(p, items[0].qty)] + rest
  }

  /** The page lists the rows of two runs of lines one after the other, in cart order. */
  lemma {:induction false} RowsAppend(a: seq<CartItem>, b: seq<CartItem>, catalog: seq<Product>)
    ensures Rows(a + b, catalog) == Rows(a, catalog) + Rows(b, catalog)
    decreases |a|
  {
    if |a| == 0 {
      assert a + b == b;
    } else {
      assert (a + b)[0] == a[0] && (a + b)[1..] == a[1..] + b;
      RowsAppend(a[1..], b, catalog);
    }
  }

  /**
   * A single line gives one row, with the catalog product and the line's
   * quantity, exactly when the catalog knows its product, and none otherwise.
   */
  lemma RowsOfOneLine(item: CartItem, catalog: seq<Product>)
    ensures FindProduct(catalog, item.productId).Some? ==>
      Rows([item], catalog) == [Row(FindProduct(catalog, item.productId).value, item.qty)]
    ensures FindProduct(catalog, item.productId).None? ==> Rows([item], catalog) == []
  {
    assert [item][1..] == [];
  }

  /** A row's subtotal in cents: `product.price * qty`. */
  function Subtotal(row: Row): int {
    row.product.price * row.qty
  }

  /** The sum of the row subtotals. */
  function SumSubtotals(rows: seq<Row>): int
    decreases |rows|
  {
    if |rows| == 0 then 0 else Subtotal(rows[0]) + SumSubtotals(rows[1..])
  }

  /**
   * The total the page shows (the store's `total`) is the sum of the
   * subtotals of the rows it lists: both skip the unknown ids.
   */
  lemma {:induction false} TotalIsSumOfSubtotals(items: seq<CartItem>, catalog: seq<Product>)
    ensures SumSubtotals(Rows(items, catalog)) == Total(items, catalog)
    decreases |items|
  {
    if |items| > 0 {
      TotalIsSumOfSubtotals(items[1..], catalog);
      var rest := Rows(items[1..], catalog);
      match FindProduct(catalog, items[0].productId)
      case None =>
      case Some(p) =>
        var rows := [Row(p, items[0].qty)] + rest;
        assert rows[1..] == rest;
    }
  }

  /** The rows are exactly the known lines: a line yields a row iff its product is in the catalog. */
  lemma {:induction false} RowsKeepKnownLines(items: seq<CartItem>, catalog: seq<Product>)
    ensures |Rows(items, catalog)| == |items| - UnknownCount(items, catalog)
    decreases |items|
  {
    if |items| > 0 {
      RowsKeepKnownLines(items[1..], catalog);
    }
  }

  /** How many lines name a product the catalog does not know. */
  function UnknownCount(items: seq<CartItem>, catalog: seq<Product>): (n: nat)
    ensures n <= |items|
    decreases |items|
  {
    if |items| == 0 then 0
    else (if FindProduct(catalog, items[0].productId).None? then 1 else 0) + UnknownCount(items[1..], catalog)
  }

  /**
   * The page shows "Your cart is empty." exactly when no line names a known
   * product, which includes a cart holding only stale ids.
   */
  lemma {:induction false} EmptyStateIffNoKnownLine(items: seq<CartItem>, catalog: seq<Product>)
    ensures Rows(items, catalog) == [] <==>
      forall k :: 0 <= k < |items| ==> FindProduct(catalog, items[k].productId).None?
    decreases |items|
  {
    if |items| > 0 {
      EmptyStateIffNoKnownLine(items[1..], catalog);
      assert forall k :: 1 <= k < |items| ==> items[k] == items[1..][k - 1];
    }
  }

  /** `Math.max(1, Number(value))`: the quantity sent to `updateQty`. */
  function ClampQty(entered: int): (q: int)
    ensures q >= 1 && q >= entered
    ensures q == entered || q == 1
  {
    if entered < 1 then 1 else entered
  }

  /** Editing a row's quantity leaves the line with a positive quantity. */
  lemma EditedQuantityIsPositive(items: seq<CartItem>, id: string, entered: int)
    ensures forall k :: 0 <= k < |items| && items[k].productId == id ==>
      Requantified(items, id, ClampQty(entered))[k].qty >= 1
  {
  }
}
