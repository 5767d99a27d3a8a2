/** The storefront's tables, one datatype per row kind.
    Rows of the tables addressed by primary key (users, categories, products,
    orders) are stored in maps keyed by that id; cart lines and order items are
    kept in table order, because the handlers iterate over them. */
module Models {

  datatype Option<T> = None | Some(value: T)

  /** `passwordHash` is whatever the password hasher produced at registration. */
  datatype User = User(name: string, email: string, passwordHash: string, isAdmin: bool)

  datatype Category = Category(name: string)

  /** `price` is in cents; `categoryId` is None when the form left it unset. */
  datatype Product = Product(name: string, description: string, price: int,
                             categoryId: Option<nat>, image: string)

  datatype CartItem = CartItem(id: nat, userId: nat, productId: nat, quantity: int)

  /** `status` is None until an administrator sets it. */
  datatype Order = Order(userId: nat, total: int, status: Option<string>)

  /** `price` is the product's price when the order was placed. */
  datatype OrderItem = OrderItem(orderId: nat, productId: nat, quantity: int, price: int)

  /** The id the database gives the next row of a table whose ids are `used`:
      one more than the largest id, or 1 for an empty table. */
  method FreshId(used: set<nat>) returns (k: nat)
    ensures k !in used && 1 <= k
    ensures forall j :: j in used ==> j < k
    ensures k == 1 || k - 1 in used
  {
    k := 1;
    var rest := used;
    while rest != {}
      invariant rest <= used
      invariant forall j :: j in used && j !in rest ==> j < k
      invariant k == 1 || k - 1 in used
      decreases rest
    {
      var j :| j in rest;
      if k <= j {
        k := j + 1;
      }
      rest := rest - {j};
    }
  }
}
