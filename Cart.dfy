/**
 * The cart store (components/CartContext.tsx): a list of
 * `{productId, qty}` lines, changed by add, remove, update-quantity and
 * clear, mirrored to local storage after every change, with a total looked
 * up against the catalog.
 *
 * The lists each operation builds are the functions `Added`, `Removed`,
 * `Requantified`; `Total` is the `reduce`. The class `CartStore` holds the
 * `items` state and the storage write.
 */
module Cart {
  import opened Wrappers
  import opened Domain
  import opened BrowserEnv

  /** Some line is for product `id`: `prev.find((i) => i.productId === id)` is truthy. */
  predicate HasProduct(items: seq<CartItem>, id: string) {
    exists k :: 0 <= k < |items| && items[k].productId == id
  }

  /** At most one line per product: the invariant the store keeps for its callers. */
  predicate UniqueIds(items: seq<CartItem>) {
    forall i, j :: 0 <= i < j < |items| ==> items[i].productId != items[j].productId
  }

  /** How many lines are for product `id`. */
  function Count(items: seq<CartItem>, id: string): nat
    decreases |items|
  {
    if |items| == 0 then 0
    else (if items[0].productId == id then 1 else 0) + Count(items[1..], id)
  }

  /** The summed quantity of the lines for product `id`. */
  function QtyOf(items: seq<CartItem>, id: string): int
    decreases |items|
  {
    if |items| == 0 then 0
    else (if items[0].productId == id then items[0].qty else 0) + QtyOf(items[1..], id)
  }

  /** `prev.map((i) => i.productId === id ? { ...i, qty: i.qty + qty } : i)` */
  function Bumped(items: seq<CartItem>, id: string, qty: int): seq<CartItem> {
    seq(|items|, k requires 0 <= k < |items| =>
      if items[k].productId == id then items[k].(qty := items[k].qty + qty) else items[k])
  }

  /** The list `addItem(product, qty)` leaves. */
  function Added(items: seq<CartItem>, id: string, qty: int): (r: seq<CartItem>)
    ensures HasProduct(items, id) ==>
      && |r| == |items|
      && (forall k :: 0 <= k < |items| ==> r[k].productId == items[k].productId)
      && (forall k :: 0 <= k < |items| && items[k].productId != id ==> r[k] == items[k])
      && (forall k :: 0 <= k < |items| && items[k].productId == id ==> r[k].qty == items[k].qty + qty)
    ensures !HasProduct(items, id) ==> |r| == |items| + 1 && r[..|items|] == items && r[|items|] == CartItem(id, qty)
  {
    if HasProduct(items, id) then Bumped(items, id, qty)
    else items + [CartItem(id, qty)]
  }

  /** The list `removeItem(id)` leaves: `prev.filter((i) => i.productId !== id)`. */
  function Removed(items: seq<CartItem>, id: string): (r: seq<CartItem>)
    ensures forall k :: 0 <= k < |r| ==> r[k].productId != id
    ensures |r| == |items| - Count(items, id)
    decreases |items|
  {
    if |items| == 0 then []
    else
      var rest := Removed(items[1..], id);
      if items[0].productId == id then rest else [items[0]] + rest
  }

  /** `filter` works run by run, so removal keeps the surviving lines in their order. */
  lemma {:induction false} RemovedAppend(a: seq<CartItem>, b: seq<CartItem>, id: string)
    ensures Removed(a + b, id) == Removed(a, id) + Removed(b, id)
    decreases |a|
  {
    if |a| == 0 {
      assert a + b == b;
    } else {
      assert (a + b)[0] == a[0] && (a + b)[1..] == a[1..] + b;
      RemovedAppend(a[1..], b, id);
    }
  }

  /**
   * `removeItem` keeps exactly the other lines: every line for another
   * product survives, nothing new appears, and an absent id changes nothing.
   */
  lemma {:induction false} RemovedKeepsOthers(items: seq<CartItem>, id: string)
    ensures forall x :: x in items && x.productId != id ==> x in Removed(items, id)
    ensures forall x :: x in Removed(items, id) ==> x in items
    decreases |items|
  {
    if |items| > 0 {
      RemovedKeepsOthers(items[1..], id);
      assert forall x :: x in items ==> x == items[0] || x in items[1..];
    }
  }

  /** Removing an id the cart does not hold leaves the list as it was. */
  lemma {:induction false} RemovedAbsentUnchanged(items: seq<CartItem>, id: string)
    requires !HasProduct(items, id)
    ensures Removed(items, id) == items
    decreases |items|
  {
    if |items| > 0 {
      forall k | 0 <= k < |items[1..]| ensures items[1..][k].productId != id {
        assert items[1..][k] == items[k + 1];
      }
      RemovedAbsentUnchanged(items[1..], id);
      assert items == [items[0]] + items[1..];
    }
  }

  /** The list `updateQty(id, qty)` leaves: the matching lines get quantity `qty`. */
  function Requantified(items: seq<CartItem>, id: string, qty: int): (r: seq<CartItem>)
    ensures |r| == |items|
    ensures forall k :: 0 <= k < |items| ==> r[k].productId == items[k].productId
    ensures forall k :: 0 <= k < |items| && items[k].productId != id ==> r[k] == items[k]
    ensures forall k :: 0 <= k < |items| && items[k].productId == id ==> r[k].qty == qty
  {
    seq(|items|, k requires 0 <= k < |items| =>
      if items[k].productId == id then items[k].(qty := qty) else items[k])
  }

  /** What one line adds to the total: `p ? p.price * i.qty : 0`. */
  function LineValue(item: CartItem, catalog: seq<Product>): int {
    match FindProduct(catalog, item.productId)
    case None => 0
    case Some(p) => p.price * item.qty
  }

  /** The price of one unit of `id`, or 0 for an id the catalog does not know. */
  function UnitPrice(id: string, catalog: seq<Product>): nat {
    match FindProduct(catalog, id)
    case None => 0
    case Some(p) => p.price
  }

  /** `items.reduce((sum, i) => sum + lineValue(i), 0)` */
  function Total(items: seq<CartItem>, catalog: seq<Product>): int
    decreases |items|
  {
    if |items| == 0 then 0 else LineValue(items[0], catalog) + Total(items[1..], catalog)
  }

  /** An empty cart is worth nothing: the total after `clear`. */
  lemma TotalOfEmpty(catalog: seq<Product>)
    ensures Total([], catalog) == 0
  {
  }

  /** A line for a product missing from the catalog contributes nothing. */
  lemma {:induction false} UnknownLinesAddNothing(items: seq<CartItem>, catalog: seq<Product>)
    requires forall k :: 0 <= k < |items| ==> FindProduct(catalog, items[k].productId).None?
    ensures Total(items, catalog) == 0
    decreases |items|
  {
    if |items| > 0 {
      UnknownLinesAddNothing(items[1..], catalog);
    }
  }

  /** The total of two lists put together is the sum of their totals. */
  lemma {:induction false} TotalAppend(a: seq<CartItem>, b: seq<CartItem>, catalog: seq<Product>)
    ensures Total(a + b, catalog) == Total(a, catalog) + Total(b, catalog)
    decreases |a|
  {
    if |a| > 0 {
      assert (a + b)[0] == a[0] && (a + b)[1..] == a[1..] + b;
      TotalAppend(a[1..], b, catalog);
      assert Total(a + b, catalog) == LineValue(a[0], catalog) + Total(a[1..] + b, catalog);
    } else {
      assert a + b == b;
    }
  }

  /** The total does not depend on the order of the lines. */
  lemma {:induction false} TotalPermutation(a: seq<CartItem>, b: seq<CartItem>, catalog: seq<Product>)
    requires multiset(a) == multiset(b)
    ensures Total(a, catalog) == Total(b, catalog)
    decreases |a|
  {
    if |a| == 0 {
      assert |b| == |multiset(b)| == 0;
      assert b == [];
    } else {
      var x := a[0];
      assert x in multiset(b);
      var k :| 0 <= k < |b| && b[k] == x;
      assert a == [x] + a[1..];
      assert multiset(a[1..]) == multiset(a) - multiset{x};
      TotalWithout(b, k, catalog);
      TotalPermutation(a[1..], b[..k] + b[k + 1..], catalog);
    }
  }

  /** Taking line `k` out of a list takes its value out of the total. */
  lemma TotalWithout(b: seq<CartItem>, k: nat, catalog: seq<Product>)
    requires k < |b|
    ensures multiset(b[..k] + b[k + 1..]) == multiset(b) - multiset{b[k]}
    ensures Total(b, catalog) == LineValue(b[k], catalog) + Total(b[..k] + b[k + 1..], catalog)
  {
    var tail := b[k..];
    assert b == b[..k] + tail;
    assert tail == [b[k]] + b[k + 1..];
    TotalAppend(b[..k], tail, catalog);
    TotalAppend(b[..k], b[k + 1..], catalog);
    assert tail[0] == b[k] && tail[1..] == b[k + 1..];
  }

  /** Bumping every line for `id` by `qty` raises the total by `qty` units per such line. */
  lemma {:induction false} TotalBumped(items: seq<CartItem>, id: string, qty: int, catalog: seq<Product>)
    ensures Total(Bumped(items, id, qty), catalog)
         == Total(items, catalog) + Count(items, id) * (UnitPrice(id, catalog) * qty)
    decreases |items|
  {
    if |items| > 0 {
      var b := Bumped(items, id, qty);
      assert b[1..] == Bumped(items[1..], id, qty);
      TotalBumped(items[1..], id, qty, catalog);
      var v := UnitPrice(id, catalog) * qty;
      var c := Count(items[1..], id);
      if items[0].productId == id {
        var price := UnitPrice(id, catalog);
        assert LineValue(b[0], catalog) == LineValue(items[0], catalog) + v by {
          assert price * (items[0].qty + qty) == price * items[0].qty + price * qty;
        }
        SuccTimes(c, v);
      }
    }
  }

  lemma SuccTimes(c: int, v: int)
    ensures (c + 1) * v == c * v + v
  {
  }

  /** A list without duplicate ids has at most one line per id, and one if the id is present. */
  lemma {:induction false} CountUnique(items: seq<CartItem>, id: string)
    requires UniqueIds(items)
    ensures Count(items, id) <= 1
    ensures Count(items, id) == 1 <==> HasProduct(items, id)
    decreases |items|
  {
    if |items| > 0 {
      CountUnique(items[1..], id);
      if items[0].productId == id {
        assert !HasProduct(items[1..], id) by {
          forall k | 0 <= k < |items[1..]| ensures items[1..][k].productId != id {
            assert items[1..][k] == items[k + 1];
          }
        }
      }
      if HasProduct(items, id) && items[0].productId != id {
        var k :| 0 <= k < |items| && items[k].productId == id;
        assert items[1..][k - 1].productId == id;
      }
      if HasProduct(items[1..], id) {
        var k :| 0 <= k < |items[1..]| && items[1..][k].productId == id;
        assert items[k + 1].productId == id;
      }
    }
  }

  /** `addItem` keeps the product ids unique. */
  lemma AddedKeepsUnique(items: seq<CartItem>, id: string, qty: int)
    requires UniqueIds(items)
    ensures UniqueIds(Added(items, id, qty))
  {
  }

  /** `removeItem` and `updateQty` keep the product ids unique. */
  lemma RemovedAndRequantifiedKeepUnique(items: seq<CartItem>, id: string, qty: int)
    requires UniqueIds(items)
    ensures UniqueIds(Requantified(items, id, qty))
    ensures UniqueIds(Removed(items, id))
  {
    RemovedKeepsUnique(items, id);
  }

  lemma {:induction false} RemovedKeepsUnique(items: seq<CartItem>, id: string)
    requires UniqueIds(items)
    ensures UniqueIds(Removed(items, id))
    decreases |items|
  {
    if |items| > 0 {
      RemovedKeepsUnique(items[1..], id);
      RemovedKeepsOthers(items[1..], id);
      var rest := Removed(items[1..], id);
      if items[0].productId != id {
        forall k | 0 <= k < |rest| ensures rest[k].productId != items[0].productId {
          assert rest[k] in items[1..];
        }
      }
    }
  }

  /** With unique ids, `addItem(product, qty)` raises the product's quantity by exactly `qty`. */
  lemma {:induction false} AddedQuantity(items: seq<CartItem>, id: string, qty: int)
    requires UniqueIds(items)
    ensures QtyOf(Added(items, id, qty), id) == QtyOf(items, id) + qty
    ensures Count(Added(items, id, qty), id) == 1
  {
    CountUnique(items, id);
    if HasProduct(items, id) {
      QtyOfBumped(items, id, qty);
      CountBumped(items, id, qty);
    } else {
      QtyOfAppend(items, [CartItem(id, qty)], id);
      CountAppend(items, [CartItem(id, qty)], id);
    }
  }

  lemma {:induction false} QtyOfBumped(items: seq<CartItem>, id: string, qty: int)
    ensures QtyOf(Bumped(items, id, qty), id) == QtyOf(items, id) + Count(items, id) * qty
    decreases |items|
  {
    if |items| > 0 {
      assert Bumped(items, id, qty)[1..] == Bumped(items[1..], id, qty);
      QtyOfBumped(items[1..], id, qty);
      var c := Count(items[1..], id);
      assert (c + 1) * qty == c * qty + qty;
    }
  }

  lemma {:induction false} CountBumped(items: seq<CartItem>, id: string, qty: int)
    ensures Count(Bumped(items, id, qty), id) == Count(items, id)
    decreases |items|
  {
    if |items| > 0 {
      assert Bumped(items, id, qty)[1..] == Bumped(items[1..], id, qty);
      CountBumped(items[1..], id, qty);
    }
  }

  lemma {:induction false} QtyOfAppend(a: seq<CartItem>, b: seq<CartItem>, id: string)
    ensures QtyOf(a + b, id) == QtyOf(a, id) + QtyOf(b, id)
    decreases |a|
  {
    if |a| > 0 {
      assert (a + b)[0] == a[0] && (a + b)[1..] == a[1..] + b;
      QtyOfAppend(a[1..], b, id);
    } else {
      assert a + b == b;
    }
  }

  lemma {:induction false} CountAppend(a: seq<CartItem>, b: seq<CartItem>, id: string)
    ensures Count(a + b, id) == Count(a, id) + Count(b, id)
    decreases |a|
  {
    if |a| > 0 {
      assert (a + b)[0] == a[0] && (a + b)[1..] == a[1..] + b;
      CountAppend(a[1..], b, id);
    } else {
      assert a + b == b;
    }
  }

  /** With unique ids, `addItem(product, qty)` raises the total by the product's price times `qty`. */
  lemma TotalAfterAdd(items: seq<CartItem>, id: string, qty: int, catalog: seq<Product>)
    requires UniqueIds(items)
    ensures Total(Added(items, id, qty), catalog) == Total(items, catalog) + UnitPrice(id, catalog) * qty
  {
    CountUnique(items, id);
    if HasProduct(items, id) {
      TotalBumped(items, id, qty, catalog);
    } else {
      TotalAppend(items, [CartItem(id, qty)], catalog);
    }
  }

  /** Removing a product and adding it again leaves exactly one line for it, with the new quantity. */
  lemma RemoveThenAdd(items: seq<CartItem>, id: string, qty: int)
    ensures Count(Added(Removed(items, id), id, qty), id) == 1
    ensures QtyOf(Added(Removed(items, id), id, qty), id) == qty
  {
    var r := Removed(items, id);
    assert !HasProduct(r, id);
    QtyOfAppend(r, [CartItem(id, qty)], id);
    CountAppend(r, [CartItem(id, qty)], id);
    QtyOfNone(r, id);
  }

  lemma {:induction false} QtyOfNone(items: seq<CartItem>, id: string)
    requires !HasProduct(items, id)
    ensures QtyOf(items, id) == 0 && Count(items, id) == 0
    decreases |items|
  {
    if |items| > 0 {
      assert !HasProduct(items[1..], id) by {
        forall k | 0 <= k < |items[1..]| ensures items[1..][k].productId != id {
          assert items[1..][k] == items[k + 1];
        }
      }
      QtyOfNone(items[1..], id);
    }
  }

  /**
   * The cart state of one page load. `items` is the React state; the store
   * writes the whole list to `browser.cart` whenever it changes, so
   * `Persisted()` holds after every operation.
   */
  class CartStore {
    var items: seq<CartItem>
    const browser: Browser

    /** Local storage under the cart key holds exactly the current list. */
    ghost predicate Persisted()
      reads this, browser
    {
      browser.cart == Stored(items)
    }

    /**
     * Mounting the provider: the list starts empty, is replaced by the stored
     * list when one parses, and is then written back.
     */
    constructor Mount(browser: Browser)
      modifies browser`cart
      ensures this.browser == browser
      ensures items == (if old(browser.cart).Stored? then old(browser.cart).value else [])
      ensures Persisted()
    {
      this.browser := browser;
      var hydrated: seq<CartItem> := [];
      if browser.cart.Stored? {
        hydrated := browser.cart.value;
      }
      items := hydrated;
      browser.cart := Stored(hydrated);
    }

    method AddItem(product: Product, qty: int)
      requires Persisted()
      modifies this, browser`cart
      ensures Persisted()
      ensures items == Added(old(items), product.id, qty)
    {
      items := Added(items, product.id, qty);
      browser.cart := Stored(items);
    }

    /** `addItem(product)` with the default quantity 1. */
    method AddOne(product: Product)
      requires Persisted()
      modifies this, browser`cart
      ensures Persisted()
      ensures items == Added(old(items), product.id, 1)
    {
      AddItem(product, 1);
    }

    method RemoveItem(productId: string)
      requires Persisted()
      modifies this, browser`cart
      ensures Persisted()
      ensures items == Removed(old(items), productId)
    {
      items := Removed(items, productId);
      browser.cart := Stored(items);
    }

    method UpdateQty(productId: string, qty: int)
      requires Persisted()
      modifies this, browser`cart
      ensures Persisted()
      ensures items == Requantified(old(items), productId, qty)
    {
      items := Requantified(items, productId, qty);
      browser.cart := Stored(items);
    }

    method Clear()
      requires Persisted()
      modifies this, browser`cart
      ensures Persisted()
      ensures items == [] && Total(items, Catalog) == 0
    {
      items := [];
      browser.cart := Stored(items);
    }

    /** The derived `total`, in cents, over the bundled catalog. */
    function CartTotal(): int
      reads this
    {
      Total(items, Catalog)
    }
  }

  /** The end-to-end scenario: two adds of the headphones, then a remove. */
  method Scenario(browser: Browser)
    modifies browser`cart
    ensures browser.cart == Stored([])
  {
    browser.cart := Absent;
    var cart := new CartStore.Mount(browser);
    assert cart.items == [];
    var headphones := Catalog[0];
    cart.AddItem(headphones, 1);
    cart.AddItem(headphones, 2);
    assert cart.items == [CartItem("p1", 3)];
    assert FindProduct(Catalog, "p1") == Some(headphones);
    assert Total(cart.items, Catalog) == LineValue(CartItem("p1", 3), Catalog) + Total([], Catalog);
    assert cart.CartTotal() == 26997;
    cart.RemoveItem("p1");
    assert cart.CartTotal() == 0;
    assert browser.cart == Stored([]);
  }
}
