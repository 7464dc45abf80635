/**
 * The records the marketplace passes around (products, cart lines, users,
 * orders) and the bundled three-product catalog. Prices are whole cents:
 * 89.99 dollars is 8999.
 */
module Domain {
  import opened Wrappers

  /** A catalog product. `price` is in cents. */
  datatype Product = Product(id: string, name: string, price: nat, description: string)

  /** One cart line. The quantity is a plain number: no store checks its sign. */
  datatype CartItem = CartItem(productId: string, qty: int)

  datatype Role = Buyer | Seller | Admin

  /** The public part of an account: what a session holds. */
  datatype User = User(id: string, name: string, email: string, role: Role)

  /** A row of the credential table kept in local storage, password in clear. */
  datatype Credential = Credential(id: string, name: string, email: string, password: string, role: Role)

  /** A record of the bundled server-side user list (`users.json`); it has no password. */
  datatype Account = Account(id: string, name: string, email: string, role: Role, createdAt: string)

  /** A buyer's order, with the fields the order pages look at. */
  datatype Order = Order(id: string, buyerId: string, buyerEmail: string, status: string)

  function RoleName(r: Role): string {
    match r
    case Buyer => "buyer"
    case Seller => "seller"
    case Admin => "admin"
  }

  /** `const { password, ...rest } = record`: the record without its password. */
  function WithoutPassword(c: Credential): (u: User)
    ensures u.id == c.id && u.name == c.name && u.email == c.email && u.role == c.role
  {
    User(c.id, c.name, c.email, c.role)
  }

  /** The bundled catalog. */
  const Catalog: seq<Product> := [
    Product("p1", "Wireless Headphones", 8999,
      "Comfortable over-ear wireless headphones with noise cancellation."),
    Product("p2", "Smartwatch Pro", 14999,
      "Feature-rich smartwatch with fitness tracking and notifications."),
    Product("p3", "Portable Speaker", 3999,
      "Compact Bluetooth speaker with clear sound and long battery life.")
  ]

  /** `catalog.find((p) => p.id === id)`: the first product with that id. */
  function FindProduct(catalog: seq<Product>, id: string): (r: Option<Product>)
    ensures r.Some? <==> exists k :: 0 <= k < |catalog| && catalog[k].id == id
    ensures r.Some? ==> r.value in catalog && r.value.id == id
    decreases |catalog|
  {
    if |catalog| == 0 then None
    else if catalog[0].id == id then Some(catalog[0])
    else
      var r := FindProduct(catalog[1..], id);
      assert forall k :: 1 <= k < |catalog| ==> catalog[k] == catalog[1..][k - 1];
      r
  }

  /** The product found is the one at the first position carrying the id. */
  lemma {:induction false} FindProductIsFirst(catalog: seq<Product>, id: string, k: nat)
    requires k < |catalog| && catalog[k].id == id
    requires forall j :: 0 <= j < k ==> catalog[j].id != id
    ensures FindProduct(catalog, id) == Some(catalog[k])
    decreases k
  {
    if k > 0 {
      FindProductIsFirst(catalog[1..], id, k - 1);
    }
  }

  /** The ids of the bundled catalog are distinct. */
  lemma CatalogIdsDistinct()
    ensures forall i, j :: 0 <= i < j < |Catalog| ==> Catalog[i].id != Catalog[j].id
  {
  }
}
