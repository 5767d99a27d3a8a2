# Storefront state model

This project models the state-changing core of a small Flask storefront. Shoppers register, log in,
fill a cart and check out. Administrators manage categories, products and order statuses.
Each request handler becomes one method of a `Store` class. The class holds the six tables the
handlers read and write: users, categories, products, cart lines, orders and order items. The
upload extension check `allowed_file` is modelled as a pure predicate.

Modules:

- `Models` (models.dfy) holds the row datatypes and `FreshId`. `FreshId` models the database's
  id assignment: one more than the largest id in use, or 1 for an empty table.
- `Upload` (upload.dfy) holds `allowed_file`: a name is allowed when it has a `.` and the
  lower-cased text after the last `.` is `png`, `jpg`, `jpeg` or `gif`.
- `Cart` (cart.dfy) holds the cart table:
  - its well-formedness, `DistinctLines`: every line has its own id, and there is at most one line
    per (user, product);
  - the queries `filter_by(...)` and `query.get(...)`;
  - the merge done by add-to-cart, the increase, decrease and remove actions of update-cart, and
    the cart total.
- `Checkout` (checkout.dfy) holds the order items checkout creates (price snapshots), the order
  totals, and the invariant `OrdersBalanced`: every order's total is the sum of its items.
- `Shop` (shop.dfy) holds the `Store` class. Its invariant `Valid()` says:
  - emails are unique;
  - category names are unique;
  - the cart is well formed;
  - orders are balanced.

  Every handler method requires `Valid()`, keeps it, and states its whole new state.
  - A `modifies this`field` frame names the tables the handler may change.
  - Every handler except `Login` reports its outcome as an `Outcome` value: `Ok`, `NotFound`,
    `Denied`, `Duplicate`, `Conflict`, `Missing`, `EmptyCart` or `Failed`. `Login` returns the
    session's user id, or `None`.

Modelling choices:

- The logged-in user is the `uid` parameter.
- `login_required` becomes `requires uid in users`.
- `require_admin` (admin/routes.py:16-21) becomes the first guard of every administrative method.
  A caller who is not an administrator gets `Denied`, and the table is unchanged.
- Prices are integers, in cents.
- Uploaded file names are a parameter. `storedName` stands for the name the file store gives a
  saved upload.
- The password hasher is a parameter:
  - `Register` receives the stored hash;
  - `Login` receives the check as a function `checkPassword(hash, password)`.

Where the code leaves something unchecked, the model leaves it unchecked too:

- Add-to-cart adds any integer quantity (main/routes.py:67-76). Nothing checks that it is positive,
  so a line with quantity zero or below can be stored by add-to-cart. Only a decrease deletes a
  line because its quantity fell to zero or below; remove and checkout delete lines whatever their
  quantity.
- Nothing checks that a product's category exists. The add and edit handlers never compare
  `category_id` with the category table (admin/routes.py:88-90, 124). Edit may even clear it,
  so `EditProduct` stores whatever `categoryId` it is given, including `None`.
- Checkout does not set an order status (main/routes.py:121). The new order's status is `None`
  until an administrator sets one.
- Checkout reads `item.product.price`. When a cart line's product has been deleted, that read
  fails and nothing is stored. The model returns `Failed` and changes nothing; the cart total is
  then `None`.

## Model

| member | source | states |
|---|---|---|
| Models.FreshId | main/routes.py:121-123 | the id a newly added row gets is unused, larger than every id in the table, and is 1 on an empty table or one more than an id in use |
| Upload.LastDot | main/routes.py:14-15 | `rsplit('.', 1)` splits at the last `.`: there is none exactly when the name has no `.`, otherwise no `.` follows it |
| Upload.Lower | main/routes.py:15 | ASCII lower-casing keeps the length of the name |
| Upload.LowerAt | main/routes.py:15 | ASCII lower-casing works character by character, in place: ASCII capitals become small letters and every other character stays |
| Upload.AllowedFileSpec | main/routes.py:11-15 | `allowed_file(f)` holds exactly when `f` has a last `.` and the lower-cased text after it is one of png, jpg, jpeg, gif; the copy at admin/routes.py:10-14 has the same text and the same rule |
| Upload.AllowedFileIgnoresCase | main/routes.py:13-15 | lower-casing the whole name first never changes the verdict |
| Upload.UpperCaseExtensionAllowed | main/routes.py:13-15 | `photo.PNG` is allowed, because the extension is compared lower-cased |
| Upload.LastExtensionDecides | main/routes.py:13-15 | `notes.tar.gz` is refused, because only the text after the last `.` counts |
| Upload.NoDotRejected | main/routes.py:14 | a name without a `.` is refused, even one that spells an extension |
| Upload.EmptyNameRejected | admin/routes.py:97 | the empty name is refused by `allowed_file` alone |
| Shop.AcceptedSpec | admin/routes.py:97 | an upload is accepted exactly when a file is present and its name passes `allowed_file`; the empty-name test adds nothing |
| Cart.LinesOf | main/routes.py:85 | `filter_by(user_id=uid)` returns exactly the table's lines of that user |
| Cart.DeleteItem | main/routes.py:102-104 | deleting a line leaves exactly the lines with another id |
| Cart.ClearedCart | main/routes.py:125-128 | the table after checkout holds exactly the other users' lines |
| Cart.ClearedCartLines | main/routes.py:125-128 | after checkout the user has no line left, and every other user's lines are the same, in the same order |
| Cart.FindLine | main/routes.py:70 | `filter_by(user_id, product_id).first()` finds the first line for the pair, or there is none |
| Cart.FindItem | main/routes.py:92 | `CartItem.query.get(item_id)` finds a line with that id, or there is none |
| Cart.AddedLinesSpec | main/routes.py:69-76 | add-to-cart keeps at most one line per (user, product); the pair ends with exactly one line, grown by q or created with q; no other pair's lines change |
| Cart.MergeSpec | main/routes.py:72-73 | when the pair has a line, that line grows by q and no line is added |
| Cart.BumpLineSpec | main/routes.py:73 | growing a line in place keeps the table well formed and changes nothing for the other pairs |
| Cart.AppendSpec | main/routes.py:74-76 | when the pair has no line, exactly one line with quantity q is added and every old line stays |
| Cart.AddTwiceMerges | main/routes.py:69-76 | adding q1 and then q2 of one product leaves one line holding q1 + q2 more than before |
| Cart.AdjustedLine | main/routes.py:96-104 | what an action leaves of a line keeps its id, user and product; a line kept after a decrease has a quantity above 0 |
| Cart.AdjustedSpec | main/routes.py:96-106 | update-cart keeps the table well formed, touches no other line, and leaves of the chosen line exactly what `AdjustedLine` says |
| Cart.DecreaseNeverStoresNonPositive | main/routes.py:99-102 | a decrease never leaves the line stored with quantity 0 or below |
| Cart.LinesTotal | main/routes.py:86 | the sum of price times quantity exists exactly when every line's product exists |
| Cart.CartTotal | main/routes.py:84-86 | the cart total is defined exactly when every product behind the user's lines exists |
| Cart.TotalAfterBump | main/routes.py:97-100 | changing one line's quantity by d moves its owner's total by price times d, and no other user's total |
| Cart.TotalAfterAppend | main/routes.py:74-76 | a new line moves its owner's total by its price times its quantity, and no other user's total |
| Cart.TotalAfterUpdate | main/routes.py:96-104 | update-cart moves the owner's cart total by the product's price times the change in the line's quantity (its whole quantity when the line is deleted), and no other user's total |
| Cart.AdjustedDropsLine | main/routes.py:99-104 | a remove, or a decrease to zero or below, takes exactly that line out of the table and keeps the other lines in order |
| Cart.DeleteUnique | main/routes.py:102-104 | in a well-formed table, deleting a line by its id takes out that one line and keeps the rest in order |
| Cart.TotalAfterDelete | main/routes.py:102-104 | taking a line out lowers its owner's total by its price times its quantity, and no other user's total |
| Cart.CartTotalAfterAdd | main/routes.py:63-86 | add-to-cart raises the user's cart total by price times q and leaves every other user's total alone |
| Checkout.Snapshot | main/routes.py:125-127 | one order item per cart line, in order, with the line's product and quantity and the product's current price |
| Checkout.SnapshotTotal | main/routes.py:117-127 | the order total checkout computes equals the sum over the order items it stores |
| Checkout.CheckoutStep | main/routes.py:125-128 | one turn of the loop: deleting a line leaves the remaining lines pending and adds its snapshot item |
| Checkout.PlaceOrderBalanced | main/routes.py:121-130 | a new order with the cart total and the cart's snapshot items keeps every order's total equal to the sum of its items; the new order's items are exactly the snapshot |
| Checkout.StatusKeepsBalance | admin/routes.py:162-164 | setting a status keeps every order balanced |
| Checkout.CheckoutExample | main/routes.py:117-127 | a laptop at 1200.00 and two headphones at 150.00 make an order of 1500.00 with items priced 1200.00 and 150.00 |
| Shop.Store.constructor | app.py:54-55 | a new database has empty tables and satisfies every invariant |
| Shop.Store.Register | auth/routes.py:10-30 | a taken email adds no user; otherwise exactly one user is added, emails stay unique, and the user is an administrator exactly when the user table was empty |
| Shop.Store.Login | auth/routes.py:38-47 | a session is opened exactly when a user has this email and the password check passes, for that user; no table changes |
| Shop.Store.AddToCart | main/routes.py:63-80 | a missing product changes nothing; otherwise the cart becomes the merged table, and a new line gets a fresh id |
| Shop.Store.UpdateCart | main/routes.py:89-107 | a missing line gives not-found, and another user's line gives denied, each with nothing changed; otherwise the action is applied to that line alone |
| Shop.Store.Checkout | main/routes.py:109-132 | an empty cart creates nothing; a line whose product is gone makes checkout fail with nothing changed; otherwise one new order with the cart total, the snapshot items appended, and only that user's lines deleted |
| Shop.Store.MoveLinesToOrder | main/routes.py:125-130 | the loop appends the snapshot of every line; when it ends the table holds exactly the other users' lines, in order |
| Shop.Store.AddCategory | admin/routes.py:43-59 | non-administrators, an empty name or a taken name change nothing; otherwise exactly one category is added and names stay unique |
| Shop.Store.DeleteCategory | admin/routes.py:62-73 | non-administrators, a missing id or a category with products change nothing; otherwise exactly that category is removed |
| Shop.Store.AddProduct | admin/routes.py:81-112 | non-administrators or no category change nothing; otherwise one product is added, whose image is the stored upload when accepted and `default_product.jpg` otherwise |
| Shop.Store.EditProduct | admin/routes.py:115-139 | name, description, price and category are overwritten; the image changes only for an accepted upload; a missing id or a non-administrator changes nothing |
| Shop.Store.DeleteProduct | admin/routes.py:143-149 | exactly the product with that id is removed; a missing id or a non-administrator changes nothing |
| Shop.Store.UpdateOrderStatus | admin/routes.py:157-166 | a non-empty status replaces only that order's status; an empty status, a missing id or a non-administrator changes nothing |

## Left out

- Upload.Lower: lowers ASCII capitals only, while Python's `str.lower` lowers every Unicode
  letter and turns `İ` (U+0130) into two characters, so the model's result can differ from
  Python's. The verdict of `allowed_file` does not: no non-ASCII character lower-cases to one of
  the letters of `png`, `jpg`, `jpeg` or `gif`. U+0130 is the only one whose lower case contains
  such a letter, and that lower case is two characters long.
- Upload.LowerAt: states that every character other than an ASCII capital stays, which holds for
  the model's ASCII lowering but not for Python's, which changes `É` to `é`. The reason above
  applies: the verdict of `allowed_file` is the same.

- Routing, templates, `flash`, `redirect` and `url_for` are left out. Each outcome is the
  `Outcome` value a method returns.
- Saving files is left out, along with `os.makedirs`, `secure_filename` and the timestamp prefix
  of stored image names (admin/routes.py:98-105, 128-135). These are I/O, an unseen library and
  the clock; the stored name is the parameter `storedName`.
- Password hashing (`set_password`, `check_password`) is left out. It lives in models.py, which
  is not part of this model. The hash and the check are parameters.
- Float prices are left out. `float(request.form['price'])` and the float sums become integer
  cents, with no rounding.
- `int(request.form.get('quantity', 1))` is left out: the quantity arrives already parsed. A
  malformed quantity raises before any change.
- Shop.Store.Checkout: checkout commits the order before it adds the items
  (main/routes.py:123, 130). Here the whole checkout is one step, so no state where the order is
  stored without its items is modelled. The GET request that only shows the checkout page is left
  out.
- Shop.Store.Register: the bare `except` around the insert (auth/routes.py:31-32) is left out.
  Database failures are not modelled.
- Shop.Store.Login: the session itself is the returned user id. `logout` only ends the session
  and changes no table, so it is not modelled.
- Column defaults and cascades declared in models.py are left out, because models.py is not part
  of this model. This covers the order date, an order's initial status, the order item's own id,
  and what deleting a product does to cart lines and order items. Deleting a product here removes
  only the product. A cart line left pointing at it makes the cart total undefined and checkout
  fail, until a new product is given the same id. `FreshId` gives a deleted largest id to the next
  product, and the stale line then refers to that new product.
- The read-only handlers are left out: home, about, contact, product details, dashboard counts,
  and the date-ordered listings. So are `upload_profile_pic`, `app.py` configuration,
  `seed_products.py` and `check_users.py`.
