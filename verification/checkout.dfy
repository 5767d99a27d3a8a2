/** Checkout: the order items a cart turns into, the order totals they must
    add up to, and the step-by-step emptying of the cart. */
module Checkout {
  import opened Models
  import opened Cart

  /** The order items checkout creates for `lines`: one per line, in the same
      order, with the line's product and quantity and the product's price at
      that moment. */
  function Snapshot(lines: seq<CartItem>, products: map<nat, Product>, orderId: nat): (r: seq<OrderItem>)
    requires forall c :: c in lines ==> c.productId in products
    ensures |r| == |lines|
    ensures forall k :: 0 <= k < |lines| ==>
      r[k] == OrderItem(orderId, lines[k].productId, lines[k].quantity, products[lines[k].productId].price)
  {
    if lines == [] then []
    else
      assert forall c :: c in lines[1..] ==> c in lines;
      [OrderItem(orderId, lines[0].productId, lines[0].quantity, products[lines[0].productId].price)]
      + Snapshot(lines[1..], products, orderId)
  }

  /** The loop's step: the snapshot of one more line is one more item. */
  lemma SnapshotPrefix(lines: seq<CartItem>, products: map<nat, Product>, orderId: nat, i: nat)
    requires forall c :: c in lines ==> c.productId in products
    requires i < |lines|
    ensures Snapshot(lines[..i + 1], products, orderId) ==
      Snapshot(lines[..i], products, orderId) +
      [OrderItem(orderId, lines[i].productId, lines[i].quantity, products[lines[i].productId].price)]
  {
    assert forall c :: c in lines[..i + 1] ==> c in lines;
  }

  /** The sum of price times quantity over some order items. */
  function ItemsTotal(items: seq<OrderItem>): int
  {
    if items == [] then 0 else items[0].price * items[0].quantity + ItemsTotal(items[1..])
  }

  /** The items of one order, in table order. */
  function ItemsOf(items: seq<OrderItem>, orderId: nat): (r: seq<OrderItem>)
    ensures forall it :: it in r <==> it in items && it.orderId == orderId
  {
    if items == [] then []
    else if items[0].orderId == orderId then [items[0]] + ItemsOf(items[1..], orderId)
    else ItemsOf(items[1..], orderId)
  }

  /** Every order item belongs to a stored order, and every order's total is
      the sum of its items' price snapshots. */
  ghost predicate OrdersBalanced(orders: map<nat, Order>, items: seq<OrderItem>)
  {
    (forall it :: it in items ==> it.orderId in orders) &&
    (forall id :: id in orders ==> orders[id].total == ItemsTotal(ItemsOf(items, id)))
  }

  /** The total checkout computes from the cart equals the sum of the
      snapshots it stores. */
  lemma {:induction false} SnapshotTotal(lines: seq<CartItem>, products: map<nat, Product>, orderId: nat)
    requires forall c :: c in lines ==> c.productId in products
    ensures LinesTotal(lines, products) == Some(ItemsTotal(Snapshot(lines, products, orderId)))
  {
    if lines != [] {
      assert forall c :: c in lines[1..] ==> c in lines;
      SnapshotTotal(lines[1..], products, orderId);
      assert Snapshot(lines, products, orderId)[1..] == Snapshot(lines[1..], products, orderId);
    }
  }

  lemma {:induction false} ItemsTotalAppend(a: seq<OrderItem>, b: seq<OrderItem>)
    ensures ItemsTotal(a + b) == ItemsTotal(a) + ItemsTotal(b)
  {
    if a != [] {
      assert (a + b)[1..] == a[1..] + b;
      ItemsTotalAppend(a[1..], b);
    } else {
      assert a + b == b;
    }
  }

  lemma {:induction false} ItemsOfAppend(a: seq<OrderItem>, b: seq<OrderItem>, orderId: nat)
    ensures ItemsOf(a + b, orderId) == ItemsOf(a, orderId) + ItemsOf(b, orderId)
  {
    if a != [] {
      assert (a + b)[1..] == a[1..] + b;
      ItemsOfAppend(a[1..], b, orderId);
    } else {
      assert a + b == b;
    }
  }

  lemma {:induction false} ItemsOfAll(items: seq<OrderItem>, orderId: nat)
    requires forall it :: it in items ==> it.orderId == orderId
    ensures ItemsOf(items, orderId) == items
  {
    if items != [] {
      assert items[0] in items;
      ItemsOfAll(items[1..], orderId);
    }
  }

  lemma {:induction false} ItemsOfNone(items: seq<OrderItem>, orderId: nat)
    requires forall it :: it in items ==> it.orderId != orderId
    ensures ItemsOf(items, orderId) == []
  {
    if items != [] {
      assert items[0] in items;
      ItemsOfNone(items[1..], orderId);
    }
  }

  /** Placing an order whose total is the cart total, together with the
      cart's snapshot items, keeps every order balanced; the new order's items
      are exactly the snapshot. */
  lemma PlaceOrderBalanced(orders: map<nat, Order>, items: seq<OrderItem>, orderId: nat, order: Order,
                           lines: seq<CartItem>, products: map<nat, Product>)
    requires OrdersBalanced(orders, items)
    requires orderId !in orders
    requires forall c :: c in lines ==> c.productId in products
    requires LinesTotal(lines, products) == Some(order.total)
    ensures ItemsOf(items + Snapshot(lines, products, orderId), orderId) == Snapshot(lines, products, orderId)
    ensures OrdersBalanced(orders[orderId := order], items + Snapshot(lines, products, orderId))
  {
    var snap := Snapshot(lines, products, orderId);
    var all := items + snap;
    SnapshotTotal(lines, products, orderId);
    ItemsOfNone(items, orderId);
    ItemsOfAll(snap, orderId);
    ItemsOfAppend(items, snap, orderId);
    assert ItemsOf(all, orderId) == snap;
    forall id | id in orders ensures ItemsOf(all, id) == ItemsOf(items, id) {
      OtherOrderItems(items, snap, orderId, id);
    }
  }

  lemma OtherOrderItems(items: seq<OrderItem>, snap: seq<OrderItem>, orderId: nat, id: nat)
    requires forall it :: it in snap ==> it.orderId == orderId
    requires id != orderId
    ensures ItemsOf(items + snap, id) == ItemsOf(items, id)
  {
    ItemsOfNone(snap, id);
    ItemsOfAppend(items, snap, id);
    assert ItemsOf(items, id) + [] == ItemsOf(items, id);
  }

  /** Setting an order's status keeps every order balanced. */
  lemma StatusKeepsBalance(orders: map<nat, Order>, items: seq<OrderItem>, orderId: nat, status: string)
    requires OrdersBalanced(orders, items) && orderId in orders
    ensures OrdersBalanced(orders[orderId := orders[orderId].(status := Some(status))], items)
  {
  }

  /** Before the loop deletes anything, every line of the table is kept by
      the Pending rule holding all of the user's line ids. */
  lemma PendingAll(carts: seq<CartItem>, uid: nat)
    ensures Select(carts, Pending(uid, Ids(LinesOf(carts, uid)))) == carts
  {
    forall c | c in carts ensures Keeps(Pending(uid, Ids(LinesOf(carts, uid))), c) {
      if c.userId == uid {
        assert c in LinesOf(carts, uid);
      }
    }
    SelectAll(carts, Pending(uid, Ids(LinesOf(carts, uid))));
  }

  /** Once no line of the user is pending, what is left is the cart of every
      other user. */
  lemma PendingNone(carts: seq<CartItem>, uid: nat)
    ensures Select(carts, Pending(uid, {})) == ClearedCart(carts, uid)
  {
    SelectSame(carts, Pending(uid, {}), NotOwnedBy(uid));
  }

  /** One turn of the checkout loop: deleting the user's line `x` from the
      table removes its id from the pending set. */
  lemma PendingStep(carts: seq<CartItem>, uid: nat, x: CartItem, pending: set<nat>)
    requires DistinctLines(carts) && x in carts && x.userId == uid
    ensures DeleteItem(Select(carts, Pending(uid, pending)), x.id) == Select(carts, Pending(uid, pending - {x.id}))
  {
    forall c | c in carts
      ensures Keeps(Pending(uid, pending - {x.id}), c) <==> Keeps(Pending(uid, pending), c) && Keeps(NotId(x.id), c)
    {
      if c.id == x.id {
        SameIdSameLine(carts, c, x);
      }
    }
    SelectSelect(carts, Pending(uid, pending), NotId(x.id), Pending(uid, pending - {x.id}));
  }

  /** The ids of the lines still to process are those of the next line and
      of the lines after it. */
  lemma IdsSplit(lines: seq<CartItem>, i: nat)
    requires DistinctLines(lines) && i < |lines|
    ensures Ids(lines[i..]) - {lines[i].id} == Ids(lines[i + 1..])
    ensures Ids(lines[i..]) == Ids(lines[i + 1..]) + {lines[i].id}
  {
    assert lines[i..] == [lines[i]] + lines[i + 1..];
    forall c | c in lines[i + 1..] ensures c.id != lines[i].id {
      var k :| 0 <= k < |lines[i + 1..]| && lines[i + 1..][k] == c;
      assert lines[i + 1 + k] == c;
    }
  }

  /** One whole turn of the checkout loop over `lines`, the user's lines of
      `start`: deleting line `i` leaves the lines after it pending, and its
      order item extends the snapshot of the lines before it. */
  lemma CheckoutStep(start: seq<CartItem>, uid: nat, lines: seq<CartItem>,
                     products: map<nat, Product>, orderId: nat, i: nat)
    requires DistinctLines(start) && lines == LinesOf(start, uid) && i < |lines|
    requires forall c :: c in lines ==> c.productId in products
    ensures DeleteItem(Select(start, Pending(uid, Ids(lines[i..]))), lines[i].id)
            == Select(start, Pending(uid, Ids(lines[i + 1..])))
    ensures Snapshot(lines[..i + 1], products, orderId) ==
      Snapshot(lines[..i], products, orderId) +
      [OrderItem(orderId, lines[i].productId, lines[i].quantity, products[lines[i].productId].price)]
  {
    SelectDistinct(start, OwnedBy(uid));
    assert lines[i] in lines;
    PendingStep(start, uid, lines[i], Ids(lines[i..]));
    IdsSplit(lines, i);
    SnapshotPrefix(lines, products, orderId, i);
  }

  /** One laptop at the seeded price of 1200.00 and two headphones at the
      seeded price of 150.00 make an order of 1500.00 whose items carry the
      prices 1200.00 and 150.00. Prices are in cents. */
  lemma CheckoutExample(categoryId: nat)
    ensures var products := map[1 := Product("Laptop", "", 120000, Some(categoryId), "default_product.jpg"),
                                2 := Product("Headphones", "", 15000, Some(categoryId), "default_product.jpg")];
            var lines := [CartItem(1, 7, 1, 1), CartItem(2, 7, 2, 2)];
            LinesTotal(lines, products) == Some(150000) &&
            Snapshot(lines, products, 3) == [OrderItem(3, 1, 1, 120000), OrderItem(3, 2, 2, 15000)]
  {
    var products := map[1 := Product("Laptop", "", 120000, Some(categoryId), "default_product.jpg"),
                        2 := Product("Headphones", "", 15000, Some(categoryId), "default_product.jpg")];
    var lines := [CartItem(1, 7, 1, 1), CartItem(2, 7, 2, 2)];
    assert lines[1..] == [CartItem(2, 7, 2, 2)];
    assert lines[1..][1..] == [];
    assert LinesTotal(lines[1..], products) == Some(30000);
  }
}
