/** The storefront's database and the request handlers that change it.
    Each handler is a method of `Store`; the id of the logged-in user is
    passed in as `uid`, and the method reports with an `Outcome` what the
    handler's flash message and redirect tell the user. */
module Shop {
  import opened Models
  import opened Upload
  import opened Cart
  import opened Checkout

  datatype Outcome =
    | Ok(id: nat)     // the id of the row created or changed
    | NotFound        // get_or_404 found no row
    | Denied          // not an administrator, or another user's cart line
    | Duplicate       // the email or category name is already taken
    | Conflict        // the category still has products
    | Missing         // a required form field is empty or absent
    | EmptyCart       // checkout with nothing in the cart
    | Failed          // a cart line refers to a product that no longer exists

  /** The image name a product gets when no acceptable image is uploaded. */
  const DefaultImage: string := "default_product.jpg"

  ghost predicate UniqueEmails(users: map<nat, User>)
  {
    forall a, b :: a in users && b in users && users[a].email == users[b].email ==> a == b
  }

  ghost predicate UniqueNames(categories: map<nat, Category>)
  {
    forall a, b :: a in categories && b in categories && categories[a].name == categories[b].name ==> a == b
  }

  /** User.query.filter_by(email=email).first() finds a row. */
  predicate EmailTaken(users: map<nat, User>, email: string)
  {
    exists id :: id in users && users[id].email == email
  }

  /** Category.query.filter_by(name=name).first() finds a row. */
  predicate NameTaken(categories: map<nat, Category>, name: string)
  {
    exists id :: id in categories && categories[id].name == name
  }

  /** `category.products` is not empty. */
  predicate HasProducts(products: map<nat, Product>, categoryId: nat)
  {
    exists pid :: pid in products && products[pid].categoryId == Some(categoryId)
  }

  /** The handlers store an upload when there is a file, its name is not
      empty, and the name passes allowed_file. */
  predicate Accepted(upload: Option<string>)
  {
    upload.Some? && upload.value != "" && AllowedFile(upload.value)
  }

  /** The empty-name test is subsumed by allowed_file. */
  lemma AcceptedSpec(upload: Option<string>)
    ensures Accepted(upload) <==> upload.Some? && AllowedFile(upload.value)
  {
    EmptyNameRejected();
  }

  class Store {
    var users: map<nat, User>
    var categories: map<nat, Category>
    var products: map<nat, Product>
    var carts: seq<CartItem>
    var orders: map<nat, Order>
    var orderItems: seq<OrderItem>

    /** Emails and category names are unique, the cart holds one line per
        (user, product) with distinct ids, and each order's total is the sum
        of its items' price snapshots. */
    ghost predicate Valid()
      reads this
    {
      UniqueEmails(users) && UniqueNames(categories) && DistinctLines(carts) &&
      OrdersBalanced(orders, orderItems)
    }

    constructor ()
      ensures Valid()
      ensures users == map[] && categories == map[] && products == map[]
      ensures carts == [] && orders == map[] && orderItems == []
    {
      users := map[];
      categories := map[];
      products := map[];
      carts := [];
      orders := map[];
      orderItems := [];
    }

    /** require_admin lets the request through. */
    predicate IsAdmin(uid: nat)
      reads this
    {
      uid in users && users[uid].isAdmin
    }

    // ---- Accounts ----

    /** register: refuses a taken email; otherwise adds one user, who is an
        administrator exactly when the user table was empty. */
    method Register(name: string, email: string, passwordHash: string) returns (r: Outcome)
      requires Valid()
      modifies this`users
      ensures Valid()
      ensures EmailTaken(old(users), email) ==> r == Duplicate && users == old(users)
      ensures !EmailTaken(old(users), email) ==>
        r.Ok? && r.id !in old(users) &&
        users == old(users)[r.id := User(name, email, passwordHash, old(users) == map[])]
    {
      if EmailTaken(users, email) {
        return Duplicate;
      }
      var id := FreshId(users.Keys);
      var isAdmin := false;
      if |users| == 0 {
        isAdmin := true;
      }
      users := users[id := User(name, email, passwordHash, isAdmin)];
      r := Ok(id);
    }

    /** login: the session's user, when a user has this email and the
        password check accepts the password against its stored hash. The
        check is the password hasher's, given as a parameter. Nothing in the
        store changes. */
    method Login(email: string, password: string, checkPassword: (string, string) -> bool)
      returns (session: Option<nat>)
      requires Valid()
      ensures session.Some? <==>
        exists id :: id in users && users[id].email == email && checkPassword(users[id].passwordHash, password)
      ensures session.Some? ==> session.value in users && users[session.value].email == email
    {
      session := None;
      if EmailTaken(users, email) {
        var id :| id in users && users[id].email == email;
        if checkPassword(users[id].passwordHash, password) {
          session := Some(id);
        }
      }
    }

    // ---- Cart ----

    /** add_to_cart: adds `quantity` of an existing product to the line the
        user already has for it, or appends a new line. */
    method AddToCart(uid: nat, pid: nat, quantity: int) returns (r: Outcome)
      requires Valid() && uid in users
      modifies this`carts
      ensures Valid()
      ensures pid !in products ==> r == NotFound && carts == old(carts)
      ensures pid in products ==> r.Ok? && carts == AddedLines(old(carts), uid, pid, quantity, r.id)
      ensures pid in products && FindLine(old(carts), uid, pid).None? ==> r.id !in Ids(old(carts))
    {
      if pid !in products {
        return NotFound;
      }
      var found := FindLine(carts, uid, pid);
      if found.Some? {
        var i := found.value;
        carts := carts[i := carts[i].(quantity := carts[i].quantity + quantity)];
        r := Ok(carts[i].id);
        MergeSpec(old(carts), uid, pid, quantity, r.id);
      } else {
        var id := FreshId(Ids(carts));
        carts := carts + [CartItem(id, uid, pid, quantity)];
        r := Ok(id);
        AppendSpec(old(carts), uid, pid, quantity, r.id);
      }
    }

    /** update_cart: applies `action` to a line of the user's own cart. */
    method UpdateCart(uid: nat, itemId: nat, action: string) returns (r: Outcome)
      requires Valid() && uid in users
      modifies this`carts
      ensures Valid()
      ensures FindItem(old(carts), itemId).None? ==> r == NotFound && carts == old(carts)
      ensures FindItem(old(carts), itemId).Some? && old(carts)[FindItem(old(carts), itemId).value].userId != uid ==>
        r == Denied && carts == old(carts)
      ensures FindItem(old(carts), itemId).Some? && old(carts)[FindItem(old(carts), itemId).value].userId == uid ==>
        r == Ok(itemId) && carts == Adjusted(old(carts), FindItem(old(carts), itemId).value, action)
    {
      var found := FindItem(carts, itemId);
      if found.None? {
        return NotFound;
      }
      var i := found.value;
      var item := carts[i];
      if item.userId != uid {
        return Denied;
      }
      var next := carts;
      if action == "increase" {
        next := next[i := item.(quantity := item.quantity + 1)];
      } else if action == "decrease" {
        next := next[i := item.(quantity := item.quantity - 1)];
        if next[i].quantity <= 0 {
          next := DeleteItem(next, item.id);
        }
      } else if action == "remove" {
        next := DeleteItem(next, item.id);
      }
      assert next == Adjusted(carts, i, action);
      AdjustedSpec(carts, i, action);
      carts := next;
      r := Ok(itemId);
    }

    /** checkout: turns the user's cart into one order and one item per line,
        then deletes the user's lines. */
    method Checkout(uid: nat) returns (r: Outcome)
      requires Valid() && uid in users
      modifies this`carts, this`orders, this`orderItems
      ensures Valid()
      ensures LinesOf(old(carts), uid) == [] ==>
        r == EmptyCart && carts == old(carts) && orders == old(orders) && orderItems == old(orderItems)
      ensures LinesOf(old(carts), uid) != [] && CartTotal(old(carts), products, uid).None? ==>
        r == Failed && carts == old(carts) && orders == old(orders) && orderItems == old(orderItems)
      ensures LinesOf(old(carts), uid) != [] && CartTotal(old(carts), products, uid).Some? ==>
        r.Ok? && r.id !in old(orders) &&
        orders == old(orders)[r.id := Order(uid, CartTotal(old(carts), products, uid).value, None)] &&
        orderItems == old(orderItems) + Snapshot(LinesOf(old(carts), uid), products, r.id) &&
        carts == ClearedCart(old(carts), uid)
    {
      var lines := LinesOf(carts, uid);
      if lines == [] {
        return EmptyCart;
      }
      var total := LinesTotal(lines, products);
      if total.None? {
        return Failed;
      }
      var oid := FreshId(orders.Keys);
      orders := orders[oid := Order(uid, total.value, None)];
      SelectDistinct(carts, OwnedBy(uid));
      MoveLinesToOrder(uid, lines, oid);
      SelectDistinct(old(carts), NotOwnedBy(uid));
      PlaceOrderBalanced(old(orders), old(orderItems), oid, Order(uid, total.value, None), lines, products);
      r := Ok(oid);
    }

    /** The loop of checkout: for each of the user's lines, in table order,
        add an order item with the product's current price and delete the
        line. */
    method MoveLinesToOrder(uid: nat, lines: seq<CartItem>, oid: nat)
      requires DistinctLines(carts) && lines == LinesOf(carts, uid)
      requires forall c :: c in lines ==> c.productId in products
      modifies this`carts, this`orderItems
      ensures orderItems == old(orderItems) + Snapshot(lines, products, oid)
      ensures carts == ClearedCart(old(carts), uid)
    {
      ghost var start := carts;
      PendingAll(start, uid);
      var before := orderItems;
      var made: seq<OrderItem> := [];
      var rest := carts;
      var i := 0;
      while i < |lines|
        invariant 0 <= i <= |lines|
        invariant made == Snapshot(lines[..i], products, oid)
        invariant rest == Select(start, Pending(uid, Ids(lines[i..])))
      {
        var item := lines[i];
        CheckoutStep(start, uid, lines, products, oid, i);
        made := made + [OrderItem(oid, item.productId, item.quantity, products[item.productId].price)];
        rest := DeleteItem(rest, item.id);
        i := i + 1;
      }
      assert lines[..i] == lines;
      assert Ids(lines[i..]) == {};
      PendingNone(start, uid);
      orderItems, carts := before + made, rest;
    }

    // ---- Administration ----

    /** add_category: a non-empty name not already in use becomes a new
        category. */
    method AddCategory(uid: nat, name: string) returns (r: Outcome)
      requires Valid()
      modifies this`categories
      ensures Valid()
      ensures !IsAdmin(uid) ==> r == Denied && categories == old(categories)
      ensures IsAdmin(uid) && name == "" ==> r == Missing && categories == old(categories)
      ensures IsAdmin(uid) && name != "" && NameTaken(old(categories), name) ==>
        r == Duplicate && categories == old(categories)
      ensures IsAdmin(uid) && name != "" && !NameTaken(old(categories), name) ==>
        r.Ok? && r.id !in old(categories) && categories == old(categories)[r.id := Category(name)]
    {
      if !IsAdmin(uid) {
        return Denied;
      }
      if name == "" {
        return Missing;
      }
      if NameTaken(categories, name) {
        return Duplicate;
      }
      var id := FreshId(categories.Keys);
      categories := categories[id := Category(name)];
      r := Ok(id);
    }

    /** delete_category: removes a category that no product refers to. */
    method DeleteCategory(uid: nat, id: nat) returns (r: Outcome)
      requires Valid()
      modifies this`categories
      ensures Valid()
      ensures !IsAdmin(uid) ==> r == Denied && categories == old(categories)
      ensures IsAdmin(uid) && id !in old(categories) ==> r == NotFound && categories == old(categories)
      ensures IsAdmin(uid) && id in old(categories) && HasProducts(products, id) ==>
        r == Conflict && categories == old(categories)
      ensures IsAdmin(uid) && id in old(categories) && !HasProducts(products, id) ==>
        r == Ok(id) && categories == old(categories) - {id}
    {
      if !IsAdmin(uid) {
        return Denied;
      }
      if id !in categories {
        return NotFound;
      }
      if HasProducts(products, id) {
        return Conflict;
      }
      categories := categories - {id};
      r := Ok(id);
    }

    /** add_product: with a category chosen, adds one product whose image is
        the stored upload when one was accepted, else the default image.
        `storedName` is the name the file store gave the upload. */
    method AddProduct(uid: nat, name: string, description: string, price: int, categoryId: Option<nat>,
                      upload: Option<string>, storedName: string) returns (r: Outcome)
      requires Valid()
      modifies this`products
      ensures Valid()
      ensures !IsAdmin(uid) ==> r == Denied && products == old(products)
      ensures IsAdmin(uid) && categoryId.None? ==> r == Missing && products == old(products)
      ensures IsAdmin(uid) && categoryId.Some? ==>
        r.Ok? && r.id !in old(products) &&
        products == old(products)[r.id := Product(name, description, price, categoryId,
                                                  if Accepted(upload) then storedName else DefaultImage)]
    {
      if !IsAdmin(uid) {
        return Denied;
      }
      if categoryId.None? {
        return Missing;
      }
      var image := DefaultImage;
      if upload.Some? && upload.value != "" && AllowedFile(upload.value) {
        image := storedName;
      }
      var id := FreshId(products.Keys);
      products := products[id := Product(name, description, price, categoryId, image)];
      r := Ok(id);
    }

    /** edit_product: overwrites name, description, price and category, and
        the image only when an upload was accepted. */
    method EditProduct(uid: nat, id: nat, name: string, description: string, price: int,
                       categoryId: Option<nat>, upload: Option<string>, storedName: string) returns (r: Outcome)
      requires Valid()
      modifies this`products
      ensures Valid()
      ensures !IsAdmin(uid) ==> r == Denied && products == old(products)
      ensures IsAdmin(uid) && id !in old(products) ==> r == NotFound && products == old(products)
      ensures IsAdmin(uid) && id in old(products) ==>
        r == Ok(id) &&
        products == old(products)[id := Product(name, description, price, categoryId,
                                                if Accepted(upload) then storedName else old(products)[id].image)]
    {
      if !IsAdmin(uid) {
        return Denied;
      }
      if id !in products {
        return NotFound;
      }
      var p := products[id].(name := name, description := description, price := price, categoryId := categoryId);
      if upload.Some? && upload.value != "" && AllowedFile(upload.value) {
        p := p.(image := storedName);
      }
      products := products[id := p];
      r := Ok(id);
    }

    /** delete_product: removes exactly the product with this id. */
    method DeleteProduct(uid: nat, id: nat) returns (r: Outcome)
      requires Valid()
      modifies this`products
      ensures Valid()
      ensures !IsAdmin(uid) ==> r == Denied && products == old(products)
      ensures IsAdmin(uid) && id !in old(products) ==> r == NotFound && products == old(products)
      ensures IsAdmin(uid) && id in old(products) ==> r == Ok(id) && products == old(products) - {id}
    {
      if !IsAdmin(uid) {
        return Denied;
      }
      if id !in products {
        return NotFound;
      }
      products := products - {id};
      r := Ok(id);
    }

    /** order_details (POST): a non-empty status replaces the order's status
        and nothing else. */
    method UpdateOrderStatus(uid: nat, id: nat, status: string) returns (r: Outcome)
      requires Valid()
      modifies this`orders
      ensures Valid()
      ensures !IsAdmin(uid) ==> r == Denied && orders == old(orders)
      ensures IsAdmin(uid) && id !in old(orders) ==> r == NotFound && orders == old(orders)
      ensures IsAdmin(uid) && id in old(orders) && status == "" ==> r == Missing && orders == old(orders)
      ensures IsAdmin(uid) && id in old(orders) && status != "" ==>
        r == Ok(id) && orders == old(orders)[id := old(orders)[id].(status := Some(status))]
    {
      if !IsAdmin(uid) {
        return Denied;
      }
      if id !in orders {
        return NotFound;
      }
      if status == "" {
        return Missing;
      }
      StatusKeepsBalance(orders, orderItems, id, status);
      orders := orders[id := orders[id].(status := Some(status))];
      r := Ok(id);
    }
  }
}
