/** The cart table: its well-formedness, the queries and deletions the
    handlers apply to it, the merge done by add-to-cart, the adjustments done
    by update-cart, and the total shown on the cart page. */
module Cart {
  import opened Models

  /** Every line has its own id, and no two lines hold the same (user, product). */
  ghost predicate DistinctLines(carts: seq<CartItem>)
  {
    forall i, j :: 0 <= i < j < |carts| ==>
      carts[i].id != carts[j].id &&
      (carts[i].userId != carts[j].userId || carts[i].productId != carts[j].productId)
  }

  lemma DistinctCons(x: CartItem, t: seq<CartItem>)
    requires DistinctLines(t)
    requires forall c :: c in t ==> c.id != x.id && (c.userId != x.userId || c.productId != x.productId)
    ensures DistinctLines([x] + t)
  {
    var s := [x] + t;
    forall i, j | 0 <= i < j < |s|
      ensures s[i].id != s[j].id && (s[i].userId != s[j].userId || s[i].productId != s[j].productId)
    {
      assert s[j] == t[j - 1];
      if i > 0 {
        assert s[i] == t[i - 1];
      } else {
        assert t[j - 1] in t;
      }
    }
  }

  lemma DistinctTail(s: seq<CartItem>)
    requires DistinctLines(s) && s != []
    ensures DistinctLines(s[1..])
    ensures forall c :: c in s[1..] ==> c.id != s[0].id && (c.userId != s[0].userId || c.productId != s[0].productId)
  {
    forall c | c in s[1..]
      ensures c.id != s[0].id && (c.userId != s[0].userId || c.productId != s[0].productId)
    {
      var k :| 0 <= k < |s[1..]| && s[1..][k] == c;
      assert s[k + 1] == c;
    }
  }

  /** In a well-formed table a line is identified by its id. */
  lemma SameIdSameLine(carts: seq<CartItem>, a: CartItem, b: CartItem)
    requires DistinctLines(carts) && a in carts && b in carts && a.id == b.id
    ensures a == b
  {
    var i :| 0 <= i < |carts| && carts[i] == a;
    var j :| 0 <= j < |carts| && carts[j] == b;
  }

  /** The row filters the handlers apply to the cart table. */
  datatype Rule =
    | OwnedBy(uid: nat)                  // the lines of one user
    | NotId(id: nat)                     // every line but one
    | NotOwnedBy(uid: nat)               // every other user's lines
    | Pending(uid: nat, ids: set<nat>)   // other users' lines, and these lines of the user

  predicate Keeps(rule: Rule, c: CartItem)
  {
    match rule
    case OwnedBy(u) => c.userId == u
    case NotId(id) => c.id != id
    case NotOwnedBy(u) => c.userId != u
    case Pending(u, ids) => c.userId != u || c.id in ids
  }

  /** The lines that `rule` keeps, in table order. */
  function Select(carts: seq<CartItem>, rule: Rule): (r: seq<CartItem>)
    ensures forall c :: c in r <==> c in carts && Keeps(rule, c)
    ensures |r| <= |carts|
  {
    if carts == [] then []
    else if Keeps(rule, carts[0]) then [carts[0]] + Select(carts[1..], rule)
    else Select(carts[1..], rule)
  }

  lemma {:induction false} SelectDistinct(carts: seq<CartItem>, rule: Rule)
    requires DistinctLines(carts)
    ensures DistinctLines(Select(carts, rule))
  {
    if carts != [] {
      DistinctTail(carts);
      SelectDistinct(carts[1..], rule);
      if Keeps(rule, carts[0]) {
        DistinctCons(carts[0], Select(carts[1..], rule));
      }
    }
  }

  lemma {:induction false} SelectAll(carts: seq<CartItem>, rule: Rule)
    requires forall c :: c in carts ==> Keeps(rule, c)
    ensures Select(carts, rule) == carts
  {
    if carts != [] {
      assert carts[0] in carts;
      SelectAll(carts[1..], rule);
    }
  }

  lemma {:induction false} SelectNone(carts: seq<CartItem>, rule: Rule)
    requires forall c :: c in carts ==> !Keeps(rule, c)
    ensures Select(carts, rule) == []
  {
    if carts != [] {
      assert carts[0] in carts;
      SelectNone(carts[1..], rule);
    }
  }

  lemma {:induction false} SelectSame(carts: seq<CartItem>, p: Rule, q: Rule)
    requires forall c :: c in carts ==> (Keeps(p, c) <==> Keeps(q, c))
    ensures Select(carts, p) == Select(carts, q)
  {
    if carts != [] {
      assert carts[0] in carts;
      SelectSame(carts[1..], p, q);
    }
  }

  /** Filtering twice is filtering once by the conjunction of the rules. */
  lemma {:induction false} SelectSelect(carts: seq<CartItem>, p: Rule, q: Rule, both: Rule)
    requires forall c :: c in carts ==> (Keeps(both, c) <==> Keeps(p, c) && Keeps(q, c))
    ensures Select(Select(carts, p), q) == Select(carts, both)
  {
    if carts != [] {
      assert carts[0] in carts;
      SelectSelect(carts[1..], p, q, both);
    }
  }

  lemma {:induction false} SelectAppend(a: seq<CartItem>, b: seq<CartItem>, rule: Rule)
    ensures Select(a + b, rule) == Select(a, rule) + Select(b, rule)
  {
    if a == [] {
      assert a + b == b;
    } else {
      assert (a + b)[1..] == a[1..] + b;
      SelectAppend(a[1..], b, rule);
    }
  }

  /** CartItem.query.filter_by(user_id=uid).all() */
  function LinesOf(carts: seq<CartItem>, uid: nat): (r: seq<CartItem>)
    ensures forall c :: c in r <==> c in carts && c.userId == uid
  {
    Select(carts, OwnedBy(uid))
  }

  /** The table after db.session.delete of the line with this id. */
  function DeleteItem(carts: seq<CartItem>, id: nat): (r: seq<CartItem>)
    ensures forall c :: c in r <==> c in carts && c.id != id
  {
    Select(carts, NotId(id))
  }

  /** The table once every line of `uid` has been deleted. */
  function ClearedCart(carts: seq<CartItem>, uid: nat): (r: seq<CartItem>)
    ensures forall c :: c in r <==> c in carts && c.userId != uid
  {
    Select(carts, NotOwnedBy(uid))
  }

  /** Emptying one user's cart leaves that user with no lines and every other
      user's lines exactly as they were, in the same order. */
  lemma ClearedCartLines(carts: seq<CartItem>, uid: nat, other: nat)
    ensures LinesOf(ClearedCart(carts, uid), uid) == []
    ensures other != uid ==> LinesOf(ClearedCart(carts, uid), other) == LinesOf(carts, other)
  {
    SelectNone(ClearedCart(carts, uid), OwnedBy(uid));
    if other != uid {
      SelectSelect(carts, NotOwnedBy(uid), OwnedBy(other), OwnedBy(other));
    }
  }

  /** CartItem.query.filter_by(user_id=uid, product_id=pid).first(): the
      index of the first line of `uid` for `pid`. */
  function FindLine(carts: seq<CartItem>, uid: nat, pid: nat): (r: Option<nat>)
    ensures r.Some? ==> r.value < |carts| && carts[r.value].userId == uid && carts[r.value].productId == pid
    ensures r.Some? ==> forall k :: 0 <= k < r.value ==> carts[k].userId != uid || carts[k].productId != pid
    ensures r.None? ==> forall c :: c in carts ==> c.userId != uid || c.productId != pid
  {
    if carts == [] then None
    else if carts[0].userId == uid && carts[0].productId == pid then Some(0)
    else
      match FindLine(carts[1..], uid, pid)
      case None => None
      case Some(k) => Some(k + 1)
  }

  /** CartItem.query.get(id): the index of the line with this id. */
  function FindItem(carts: seq<CartItem>, id: nat): (r: Option<nat>)
    ensures r.Some? ==> r.value < |carts| && carts[r.value].id == id
    ensures r.None? ==> forall c :: c in carts ==> c.id != id
  {
    if carts == [] then None
    else if carts[0].id == id then Some(0)
    else
      match FindItem(carts[1..], id)
      case None => None
      case Some(k) => Some(k + 1)
  }

  /** The ids of some lines. */
  function Ids(lines: seq<CartItem>): set<nat>
  {
    set c | c in lines :: c.id
  }

  /** The table after add-to-cart of `q` units of `pid` for `uid`: the
      existing line for the pair grows by `q`, or a line with id `newId` and
      quantity `q` is appended. */
  function AddedLines(carts: seq<CartItem>, uid: nat, pid: nat, q: int, newId: nat): seq<CartItem>
  {
    match FindLine(carts, uid, pid)
    case Some(i) => Bump(carts, i, q)
    case None => carts + [CartItem(newId, uid, pid, q)]
  }

  /** The table with line `i` grown by `q` units, in place. */
  function Bump(carts: seq<CartItem>, i: nat, q: int): seq<CartItem>
    requires i < |carts|
  {
    carts[i := carts[i].(quantity := carts[i].quantity + q)]
  }

  /** The quantities `uid` holds of `pid`, one entry per line. */
  function Held(carts: seq<CartItem>, uid: nat, pid: nat): seq<int>
  {
    if carts == [] then []
    else (if carts[0].userId == uid && carts[0].productId == pid then [carts[0].quantity] else [])
         + Held(carts[1..], uid, pid)
  }

  /** Add-to-cart keeps the table well formed, holds exactly one line for the
      pair afterwards, grows that line by `q` (or creates it with `q`), and
      leaves every line of another pair where it was. */
  lemma AddedLinesSpec(carts: seq<CartItem>, uid: nat, pid: nat, q: int, newId: nat)
    requires DistinctLines(carts)
    requires forall c :: c in carts ==> c.id != newId
    ensures DistinctLines(AddedLines(carts, uid, pid, q, newId))
    ensures FindLine(carts, uid, pid).Some? ==>
      Held(AddedLines(carts, uid, pid, q, newId), uid, pid) == [carts[FindLine(carts, uid, pid).value].quantity + q]
    ensures FindLine(carts, uid, pid).None? ==>
      Held(AddedLines(carts, uid, pid, q, newId), uid, pid) == [q]
    ensures forall u, p :: u != uid || p != pid ==>
      Held(AddedLines(carts, uid, pid, q, newId), u, p) == Held(carts, u, p)
    ensures forall c :: c in carts && (c.userId != uid || c.productId != pid) ==>
      c in AddedLines(carts, uid, pid, q, newId)
  {
    if FindLine(carts, uid, pid).Some? {
      MergeSpec(carts, uid, pid, q, newId);
    } else {
      AppendSpec(carts, uid, pid, q, newId);
    }
  }

  lemma MergeSpec(carts: seq<CartItem>, uid: nat, pid: nat, q: int, newId: nat)
    requires DistinctLines(carts) && FindLine(carts, uid, pid).Some?
    ensures DistinctLines(AddedLines(carts, uid, pid, q, newId))
    ensures Held(AddedLines(carts, uid, pid, q, newId), uid, pid) == [carts[FindLine(carts, uid, pid).value].quantity + q]
    ensures forall u, p :: u != uid || p != pid ==>
      Held(AddedLines(carts, uid, pid, q, newId), u, p) == Held(carts, u, p)
    ensures forall c :: c in carts && (c.userId != uid || c.productId != pid) ==>
      c in AddedLines(carts, uid, pid, q, newId)
  {
    BumpLineSpec(carts, FindLine(carts, uid, pid).value, q);
  }

  /** Growing line `i` by `q` keeps the table well formed, leaves its pair
      held by that line alone, and changes nothing for the other pairs. */
  lemma BumpLineSpec(carts: seq<CartItem>, i: nat, q: int)
    requires DistinctLines(carts) && i < |carts|
    ensures DistinctLines(Bump(carts, i, q))
    ensures Held(Bump(carts, i, q), carts[i].userId, carts[i].productId) == [carts[i].quantity + q]
    ensures forall u, p :: u != carts[i].userId || p != carts[i].productId ==>
      Held(Bump(carts, i, q), u, p) == Held(carts, u, p)
    ensures forall c :: c in carts && (c.userId != carts[i].userId || c.productId != carts[i].productId) ==>
      c in Bump(carts, i, q)
  {
    var y := carts[i].(quantity := carts[i].quantity + q);
    var r := carts[i := y];
    ReplaceDistinct(carts, i, y);
    HeldSingle(r, i);
    forall u, p | u != y.userId || p != y.productId ensures Held(r, u, p) == Held(carts, u, p) {
      HeldUpdate(carts, i, y, u, p);
    }
    forall c | c in carts && (c.userId != y.userId || c.productId != y.productId) ensures c in r {
      UpdateKeepsOthers(carts, i, y, c);
    }
  }

  /** Replacing line `i` keeps every line of another pair. */
  lemma UpdateKeepsOthers(carts: seq<CartItem>, i: nat, y: CartItem, c: CartItem)
    requires i < |carts| && c in carts
    requires c.userId != carts[i].userId || c.productId != carts[i].productId
    ensures c in carts[i := y]
  {
    var k :| 0 <= k < |carts| && carts[k] == c;
    assert carts[i := y][k] == c;
  }

  lemma AppendSpec(carts: seq<CartItem>, uid: nat, pid: nat, q: int, newId: nat)
    requires DistinctLines(carts) && FindLine(carts, uid, pid).None?
    requires forall c :: c in carts ==> c.id != newId
    ensures DistinctLines(AddedLines(carts, uid, pid, q, newId))
    ensures Held(AddedLines(carts, uid, pid, q, newId), uid, pid) == [q]
    ensures forall u, p :: u != uid || p != pid ==>
      Held(AddedLines(carts, uid, pid, q, newId), u, p) == Held(carts, u, p)
    ensures forall c :: c in carts ==> c in AddedLines(carts, uid, pid, q, newId)
  {
    var x := CartItem(newId, uid, pid, q);
    var r := carts + [x];
    assert AddedLines(carts, uid, pid, q, newId) == r;
    forall a, b | 0 <= a < b < |r|
      ensures r[a].id != r[b].id && (r[a].userId != r[b].userId || r[a].productId != r[b].productId)
    {
      if b == |carts| {
        assert r[a] in carts;
      }
    }
    assert [x][1..] == [];
    forall u, p ensures Held(r, u, p) == Held(carts, u, p) + Held([x], u, p) {
      HeldAppend(carts, [x], u, p);
    }
    forall u, p | u != uid || p != pid ensures Held([x], u, p) == [] {
      assert Held([x], u, p) == [] + Held([], u, p);
    }
    HeldNone(carts, uid, pid);
    calc {
      Held(r, uid, pid);
      Held(carts, uid, pid) + Held([x], uid, pid);
      [] + [q];
    }
  }

  lemma {:induction false} HeldAppend(a: seq<CartItem>, b: seq<CartItem>, u: nat, p: nat)
    ensures Held(a + b, u, p) == Held(a, u, p) + Held(b, u, p)
  {
    if a == [] {
      assert a + b == b;
    } else {
      assert (a + b)[1..] == a[1..] + b;
      HeldAppend(a[1..], b, u, p);
    }
  }

  lemma {:induction false} HeldNone(carts: seq<CartItem>, u: nat, p: nat)
    requires forall c :: c in carts ==> c.userId != u || c.productId != p
    ensures Held(carts, u, p) == []
  {
    if carts != [] {
      assert carts[0] in carts;
      HeldNone(carts[1..], u, p);
    }
  }

  /** Replacing line `i` by a line of the same pair leaves what every other
      pair holds unchanged. */
  lemma {:induction false} HeldUpdate(carts: seq<CartItem>, i: nat, y: CartItem, u: nat, p: nat)
    requires i < |carts| && y.userId == carts[i].userId && y.productId == carts[i].productId
    requires u != y.userId || p != y.productId
    ensures Held(carts[i := y], u, p) == Held(carts, u, p)
  {
    if i == 0 {
      assert carts[i := y][1..] == carts[1..];
    } else {
      assert carts[i := y][1..] == carts[1..][i - 1 := y];
      HeldUpdate(carts[1..], i - 1, y, u, p);
    }
  }

  /** In a well-formed table the pair of line `i` is held by that line alone. */
  lemma {:induction false} HeldSingle(carts: seq<CartItem>, i: nat)
    requires DistinctLines(carts) && i < |carts|
    ensures Held(carts, carts[i].userId, carts[i].productId) == [carts[i].quantity]
  {
    DistinctTail(carts);
    if i == 0 {
      HeldNone(carts[1..], carts[0].userId, carts[0].productId);
    } else {
      assert carts[i] == carts[1..][i - 1];
      HeldSingle(carts[1..], i - 1);
    }
  }

  /** Adding `q1` and then `q2` units of the same product leaves one line for
      the pair, holding `q1 + q2` more than before (or `q1 + q2` when the
      pair had no line). */
  lemma AddTwiceMerges(carts: seq<CartItem>, uid: nat, pid: nat, q1: int, q2: int, n1: nat, n2: nat)
    requires DistinctLines(carts)
    requires forall c :: c in carts ==> c.id != n1
    ensures Held(AddedLines(AddedLines(carts, uid, pid, q1, n1), uid, pid, q2, n2), uid, pid) ==
      [(if FindLine(carts, uid, pid).Some? then carts[FindLine(carts, uid, pid).value].quantity else 0) + q1 + q2]
  {
    var c1 := AddedLines(carts, uid, pid, q1, n1);
    if FindLine(carts, uid, pid).Some? {
      MergeSpec(carts, uid, pid, q1, n1);
    } else {
      AppendSpec(carts, uid, pid, q1, n1);
    }
    HeldWithoutLine(c1, uid, pid);
    var i := FindLine(c1, uid, pid).value;
    HeldSingle(c1, i);
    MergeSpec(c1, uid, pid, q2, n2);
  }

  lemma HeldWithoutLine(carts: seq<CartItem>, u: nat, p: nat)
    ensures FindLine(carts, u, p).None? ==> Held(carts, u, p) == []
  {
    if FindLine(carts, u, p).None? {
      HeldNone(carts, u, p);
    }
  }

  /** What update-cart leaves of one line for each action; None when the line
      is deleted. */
  function AdjustedLine(c: CartItem, action: string): (r: Option<CartItem>)
    ensures r.Some? ==> r.value.id == c.id && r.value.userId == c.userId && r.value.productId == c.productId
    ensures action == "decrease" && r.Some? ==> r.value.quantity > 0
  {
    if action == "increase" then Some(c.(quantity := c.quantity + 1))
    else if action == "decrease" then
      if c.quantity - 1 <= 0 then None else Some(c.(quantity := c.quantity - 1))
    else if action == "remove" then None
    else Some(c)
  }

  /** The table after update-cart applies `action` to line `i`: the line's
      quantity is changed in place, and the line is deleted on "remove" or
      when "decrease" brings it to zero or below. */
  function Adjusted(carts: seq<CartItem>, i: nat, action: string): seq<CartItem>
    requires i < |carts|
  {
    var c := carts[i];
    if action == "increase" then carts[i := c.(quantity := c.quantity + 1)]
    else if action == "decrease" then
      var d := carts[i := c.(quantity := c.quantity - 1)];
      if d[i].quantity <= 0 then DeleteItem(d, c.id) else d
    else if action == "remove" then DeleteItem(carts, c.id)
    else carts
  }

  /** Update-cart touches only the chosen line, leaves of it exactly what
      AdjustedLine says, and keeps the table well formed. */
  lemma AdjustedSpec(carts: seq<CartItem>, i: nat, action: string)
    requires DistinctLines(carts) && i < |carts|
    ensures DistinctLines(Adjusted(carts, i, action))
    ensures forall x: CartItem :: x.id != carts[i].id ==> (x in Adjusted(carts, i, action) <==> x in carts)
    ensures forall x :: x in Adjusted(carts, i, action) && x.id == carts[i].id ==> AdjustedLine(carts[i], action) == Some(x)
    ensures AdjustedLine(carts[i], action).Some? ==> AdjustedLine(carts[i], action).value in Adjusted(carts, i, action)
  {
    if action == "increase" {
      IncreaseSpec(carts, i);
    } else if action == "decrease" {
      DecreaseSpec(carts, i);
    } else if action == "remove" {
      RemoveSpec(carts, i);
    } else {
      OtherActionSpec(carts, i, action);
    }
  }

  lemma IncreaseSpec(carts: seq<CartItem>, i: nat)
    requires DistinctLines(carts) && i < |carts|
    ensures DistinctLines(Adjusted(carts, i, "increase"))
    ensures forall x: CartItem :: x.id != carts[i].id ==> (x in Adjusted(carts, i, "increase") <==> x in carts)
    ensures forall x :: x in Adjusted(carts, i, "increase") && x.id == carts[i].id ==> AdjustedLine(carts[i], "increase") == Some(x)
    ensures AdjustedLine(carts[i], "increase").Some? ==> AdjustedLine(carts[i], "increase").value in Adjusted(carts, i, "increase")
  {
    ReplaceSpec(carts, i, carts[i].(quantity := carts[i].quantity + 1));
  }

  lemma DecreaseSpec(carts: seq<CartItem>, i: nat)
    requires DistinctLines(carts) && i < |carts|
    ensures DistinctLines(Adjusted(carts, i, "decrease"))
    ensures forall x: CartItem :: x.id != carts[i].id ==> (x in Adjusted(carts, i, "decrease") <==> x in carts)
    ensures forall x :: x in Adjusted(carts, i, "decrease") && x.id == carts[i].id ==> AdjustedLine(carts[i], "decrease") == Some(x)
    ensures AdjustedLine(carts[i], "decrease").Some? ==> AdjustedLine(carts[i], "decrease").value in Adjusted(carts, i, "decrease")
  {
    var c := carts[i];
    var y := c.(quantity := c.quantity - 1);
    var d := carts[i := y];
    if y.quantity <= 0 {
      assert Adjusted(carts, i, "decrease") == DeleteItem(d, c.id);
      ReplaceDistinct(carts, i, y);
      SelectDistinct(d, NotId(c.id));
      forall x: CartItem | x.id != c.id ensures x in DeleteItem(d, c.id) <==> x in carts {
        ReplaceOthers(carts, i, y, x);
      }
    } else {
      assert Adjusted(carts, i, "decrease") == d;
      ReplaceSpec(carts, i, y);
    }
  }

  lemma RemoveSpec(carts: seq<CartItem>, i: nat)
    requires DistinctLines(carts) && i < |carts|
    ensures DistinctLines(Adjusted(carts, i, "remove"))
    ensures forall x: CartItem :: x.id != carts[i].id ==> (x in Adjusted(carts, i, "remove") <==> x in carts)
    ensures forall x :: x in Adjusted(carts, i, "remove") && x.id == carts[i].id ==> AdjustedLine(carts[i], "remove") == Some(x)
    ensures AdjustedLine(carts[i], "remove").Some? ==> AdjustedLine(carts[i], "remove").value in Adjusted(carts, i, "remove")
  {
    SelectDistinct(carts, NotId(carts[i].id));
  }

  lemma OtherActionSpec(carts: seq<CartItem>, i: nat, action: string)
    requires action != "increase" && action != "decrease" && action != "remove"
    requires DistinctLines(carts) && i < |carts|
    ensures DistinctLines(Adjusted(carts, i, action))
    ensures forall x: CartItem :: x.id != carts[i].id ==> (x in Adjusted(carts, i, action) <==> x in carts)
    ensures forall x :: x in Adjusted(carts, i, action) && x.id == carts[i].id ==> AdjustedLine(carts[i], action) == Some(x)
    ensures AdjustedLine(carts[i], action).Some? ==> AdjustedLine(carts[i], action).value in Adjusted(carts, i, action)
  {
    assert Adjusted(carts, i, action) == carts;
    assert carts[i] in carts;
    forall x | x in carts && x.id == carts[i].id ensures x == carts[i] {
      SameIdSameLine(carts, x, carts[i]);
    }
  }

  /** Replacing line `i` by a line with the same id and pair keeps the table
      well formed and changes no other line. */
  lemma ReplaceSpec(carts: seq<CartItem>, i: nat, y: CartItem)
    requires DistinctLines(carts) && i < |carts|
    requires y.id == carts[i].id && y.userId == carts[i].userId && y.productId == carts[i].productId
    ensures DistinctLines(carts[i := y])
    ensures forall x: CartItem :: x.id != y.id ==> (x in carts[i := y] <==> x in carts)
    ensures forall x :: x in carts[i := y] && x.id == y.id ==> x == y
    ensures y in carts[i := y]
  {
    var d := carts[i := y];
    ReplaceDistinct(carts, i, y);
    assert d[i] == y;
    forall x: CartItem | x.id != y.id ensures x in d <==> x in carts {
      ReplaceOthers(carts, i, y, x);
    }
    forall x | x in d && x.id == y.id ensures x == y {
      assert d[i] == y;
      SameIdSameLine(d, x, y);
    }
  }

  lemma ReplaceDistinct(carts: seq<CartItem>, i: nat, y: CartItem)
    requires DistinctLines(carts) && i < |carts|
    requires y.id == carts[i].id && y.userId == carts[i].userId && y.productId == carts[i].productId
    ensures DistinctLines(carts[i := y])
  {
  }

  lemma ReplaceOthers(carts: seq<CartItem>, i: nat, y: CartItem, x: CartItem)
    requires i < |carts| && y.id == carts[i].id && x.id != y.id
    ensures x in carts[i := y] <==> x in carts
  {
    if x in carts {
      var k :| 0 <= k < |carts| && carts[k] == x;
      assert carts[i := y][k] == x;
    }
    if x in carts[i := y] {
      var k :| 0 <= k < |carts| && carts[i := y][k] == x;
      assert carts[k] == x;
    }
  }

  /** A decrease never leaves a stored line at zero or below. */
  lemma DecreaseNeverStoresNonPositive(carts: seq<CartItem>, i: nat)
    requires DistinctLines(carts) && i < |carts|
    ensures forall x :: x in Adjusted(carts, i, "decrease") && x.id == carts[i].id ==> x.quantity > 0
  {
    AdjustedSpec(carts, i, "decrease");
  }

  /** A price times quantity sum over cart lines; None when a line's product
      is missing, where reading `item.product.price` fails. */
  function LinesTotal(lines: seq<CartItem>, products: map<nat, Product>): (r: Option<int>)
    ensures r.Some? <==> forall c :: c in lines ==> c.productId in products
  {
    if lines == [] then Some(0)
    else if lines[0].productId !in products then None
    else
      match LinesTotal(lines[1..], products)
      case None => None
      case Some(t) => Some(products[lines[0].productId].price * lines[0].quantity + t)
  }

  /** The total shown on the cart page of `uid`. */
  function CartTotal(carts: seq<CartItem>, products: map<nat, Product>, uid: nat): (r: Option<int>)
    ensures r.Some? <==> forall c :: c in carts && c.userId == uid ==> c.productId in products
  {
    LinesTotal(LinesOf(carts, uid), products)
  }

  function Shift(t: Option<int>, d: int): Option<int>
  {
    match t
    case None => None
    case Some(v) => Some(v + d)
  }

  lemma {:induction false} LinesTotalAppend(a: seq<CartItem>, b: seq<CartItem>, products: map<nat, Product>)
    ensures LinesTotal(a + b, products) ==
      if LinesTotal(a, products).Some? && LinesTotal(b, products).Some?
      then Some(LinesTotal(a, products).value + LinesTotal(b, products).value)
      else None
  {
    if a == [] {
      assert a + b == b;
    } else {
      assert (a + b)[1..] == a[1..] + b;
      LinesTotalAppend(a[1..], b, products);
    }
  }

  lemma Distribute(p: int, a: int, b: int)
    ensures p * (a + b) == p * a + p * b
  {
  }

  lemma ShiftShift(t: Option<int>, a: int, b: int)
    ensures Shift(Shift(t, a), b) == Shift(t, a + b)
  {
  }

  /** The cart total of a table is built line by line from its front. */
  lemma TotalCons(x: CartItem, t: seq<CartItem>, products: map<nat, Product>, who: nat)
    ensures CartTotal([x] + t, products, who) ==
      if x.userId != who then CartTotal(t, products, who)
      else if x.productId !in products then None
      else Shift(CartTotal(t, products, who), products[x.productId].price * x.quantity)
  {
    assert ([x] + t)[1..] == t;
    if x.userId == who {
      var rest := Select(t, OwnedBy(who));
      assert Select([x] + t, OwnedBy(who)) == [x] + rest;
      assert ([x] + rest)[1..] == rest;
    }
  }

  /** Changing the quantity of line `i` by `d` moves its owner's total by
      `d` times the product's price and no one else's. */
  lemma {:induction false} TotalAfterBump(carts: seq<CartItem>, i: nat, d: int, products: map<nat, Product>, who: nat)
    requires i < |carts| && carts[i].productId in products
    ensures CartTotal(Bump(carts, i, d), products, who) ==
      Shift(CartTotal(carts, products, who),
            if carts[i].userId == who then products[carts[i].productId].price * d else 0)
  {
    var c := carts[i];
    var y := c.(quantity := c.quantity + d);
    var tail := carts[1..];
    if i == 0 {
      assert carts == [c] + tail;
      assert carts[i := y] == [y] + tail;
      BumpHead(c, d, tail, products, who);
    } else {
      assert carts == [carts[0]] + tail;
      assert carts[i := y] == [carts[0]] + tail[i - 1 := y];
      TotalAfterBump(tail, i - 1, d, products, who);
      BumpBehind(carts[0], tail[i - 1 := y], tail, products, who,
                 if c.userId == who then products[c.productId].price * d else 0);
    }
  }

  /** The base case of TotalAfterBump: the changed line is the first one. */
  lemma BumpHead(c: CartItem, d: int, tail: seq<CartItem>, products: map<nat, Product>, who: nat)
    requires c.productId in products
    ensures CartTotal([c.(quantity := c.quantity + d)] + tail, products, who) ==
      Shift(CartTotal([c] + tail, products, who), if c.userId == who then products[c.productId].price * d else 0)
  {
    var y := c.(quantity := c.quantity + d);
    TotalCons(c, tail, products, who);
    TotalCons(y, tail, products, who);
    if c.userId == who {
      var p := products[c.productId].price;
      var t := CartTotal(tail, products, who);
      Distribute(p, c.quantity, d);
      ShiftShift(t, p * c.quantity, p * d);
      assert CartTotal([y] + tail, products, who) == Shift(t, p * (c.quantity + d));
      assert CartTotal([c] + tail, products, who) == Shift(t, p * c.quantity);
    } else {
      ShiftShift(CartTotal(tail, products, who), 0, 0);
    }
  }

  /** The step of TotalAfterBump: a shift behind the first line is a shift of
      the whole total. */
  lemma BumpBehind(h: CartItem, t: seq<CartItem>, tail: seq<CartItem>, products: map<nat, Product>,
                   who: nat, b: int)
    requires CartTotal(t, products, who) == Shift(CartTotal(tail, products, who), b)
    ensures CartTotal([h] + t, products, who) == Shift(CartTotal([h] + tail, products, who), b)
  {
    TotalCons(h, t, products, who);
    TotalCons(h, tail, products, who);
    if h.userId == who && h.productId in products {
      var a := products[h.productId].price * h.quantity;
      ShiftShift(CartTotal(tail, products, who), b, a);
      ShiftShift(CartTotal(tail, products, who), a, b);
    }
  }

  /** Adding `q` units of `pid` for `uid` raises that user's cart total by
      `q` times the product's price and leaves every other user's total alone. */
  lemma CartTotalAfterAdd(carts: seq<CartItem>, uid: nat, pid: nat, q: int, newId: nat,
                          products: map<nat, Product>, who: nat)
    requires pid in products
    ensures CartTotal(AddedLines(carts, uid, pid, q, newId), products, who) ==
      Shift(CartTotal(carts, products, who), if who == uid then products[pid].price * q else 0)
  {
    match FindLine(carts, uid, pid)
    case Some(i) =>
      TotalAfterBump(carts, i, q, products, who);
    case None =>
      TotalAfterAppend(carts, CartItem(newId, uid, pid, q), products, who);
  }

  /** Appending a line moves its owner's total by the line's amount. */
  lemma TotalAfterAppend(carts: seq<CartItem>, x: CartItem, products: map<nat, Product>, who: nat)
    requires x.productId in products
    ensures CartTotal(carts + [x], products, who) ==
      Shift(CartTotal(carts, products, who), if x.userId == who then products[x.productId].price * x.quantity else 0)
  {
    var mine := Select([x], OwnedBy(who));
    SelectAppend(carts, [x], OwnedBy(who));
    assert [x][1..] == [];
    LinesTotalAppend(LinesOf(carts, who), mine, products);
    if x.userId == who {
      assert mine == [x];
      assert LinesTotal(mine, products) == Some(products[x.productId].price * x.quantity);
    } else {
      assert mine == [];
      assert LinesOf(carts, who) + mine == LinesOf(carts, who);
    }
  }

  /** The quantity a line keeps after update-cart; 0 when it is deleted. */
  function QuantityLeft(r: Option<CartItem>): int
  {
    match r
    case None => 0
    case Some(x) => x.quantity
  }

  /** Update-cart moves the owner's total by the price of the line's product
      times the change in its quantity (its whole quantity when the line is
      deleted), and leaves every other user's total alone. */
  lemma TotalAfterUpdate(carts: seq<CartItem>, i: nat, action: string, products: map<nat, Product>, who: nat)
    requires DistinctLines(carts) && i < |carts| && carts[i].productId in products
    ensures CartTotal(Adjusted(carts, i, action), products, who) ==
      Shift(CartTotal(carts, products, who),
            if carts[i].userId == who
            then products[carts[i].productId].price * (QuantityLeft(AdjustedLine(carts[i], action)) - carts[i].quantity)
            else 0)
  {
    if action == "increase" || (action == "decrease" && carts[i].quantity - 1 > 0) {
      TotalAfterBumpAction(carts, i, action, products, who);
    } else if action == "decrease" || action == "remove" {
      TotalAfterDropAction(carts, i, action, products, who);
    } else {
      assert Adjusted(carts, i, action) == carts;
      assert QuantityLeft(AdjustedLine(carts[i], action)) - carts[i].quantity == 0;
      TotalUnchanged(CartTotal(carts, products, who), products[carts[i].productId].price, carts[i].userId == who);
    }
  }

  /** An increase, or a decrease that keeps the line, moves the owner's total
      by the price times the one unit added or taken. */
  lemma TotalAfterBumpAction(carts: seq<CartItem>, i: nat, action: string, products: map<nat, Product>, who: nat)
    requires i < |carts| && carts[i].productId in products
    requires action == "increase" || (action == "decrease" && carts[i].quantity - 1 > 0)
    ensures CartTotal(Adjusted(carts, i, action), products, who) ==
      Shift(CartTotal(carts, products, who),
            if carts[i].userId == who
            then products[carts[i].productId].price * (QuantityLeft(AdjustedLine(carts[i], action)) - carts[i].quantity)
            else 0)
  {
    var dq := if action == "increase" then 1 else -1;
    assert Adjusted(carts, i, action) == Bump(carts, i, dq);
    assert QuantityLeft(AdjustedLine(carts[i], action)) - carts[i].quantity == dq;
    TotalAfterBump(carts, i, dq, products, who);
  }

  /** A remove, or a decrease to zero or below, moves the owner's total down
      by the whole amount of the line. */
  lemma TotalAfterDropAction(carts: seq<CartItem>, i: nat, action: string, products: map<nat, Product>, who: nat)
    requires DistinctLines(carts) && i < |carts| && carts[i].productId in products
    requires action == "remove" || (action == "decrease" && carts[i].quantity - 1 <= 0)
    ensures CartTotal(Adjusted(carts, i, action), products, who) ==
      Shift(CartTotal(carts, products, who),
            if carts[i].userId == who
            then products[carts[i].productId].price * (QuantityLeft(AdjustedLine(carts[i], action)) - carts[i].quantity)
            else 0)
  {
    AdjustedDropsLine(carts, i, action);
    TotalAfterDelete(carts, i, products, who);
    assert QuantityLeft(AdjustedLine(carts[i], action)) - carts[i].quantity == -carts[i].quantity;
    Negate(products[carts[i].productId].price, carts[i].quantity);
  }

  lemma Negate(p: int, q: int)
    ensures p * -q == -(p * q)
  {
  }

  lemma TotalUnchanged(t: Option<int>, p: int, owner: bool)
    ensures Shift(t, if owner then p * 0 else 0) == t
  {
  }

  /** A remove, or a decrease that brings the line to zero or below, takes
      the line out of the table and leaves the others in order. */
  lemma AdjustedDropsLine(carts: seq<CartItem>, i: nat, action: string)
    requires DistinctLines(carts) && i < |carts|
    requires action == "remove" || (action == "decrease" && carts[i].quantity - 1 <= 0)
    ensures Adjusted(carts, i, action) == carts[..i] + carts[i + 1..]
  {
    var c := carts[i];
    if action == "decrease" {
      var d := carts[i := c.(quantity := c.quantity - 1)];
      assert Adjusted(carts, i, action) == DeleteItem(d, c.id);
      assert forall j :: 0 <= j < |d| && j != i ==> d[j] == carts[j];
      DeleteUnique(d, i);
      assert d[..i] + d[i + 1..] == carts[..i] + carts[i + 1..];
    } else {
      DeleteUnique(carts, i);
    }
  }

  /** In a well-formed table, deleting a line by its id takes out that line
      alone. */
  lemma {:induction false} DeleteUnique(carts: seq<CartItem>, i: nat)
    requires i < |carts| && forall j :: 0 <= j < |carts| && j != i ==> carts[j].id != carts[i].id
    ensures DeleteItem(carts, carts[i].id) == carts[..i] + carts[i + 1..]
  {
    var tail := carts[1..];
    DropSplit(carts, i);
    if i == 0 {
      DeleteFirst(carts);
    } else {
      assert forall j :: 0 <= j < |tail| && j != i - 1 ==> tail[j] == carts[j + 1];
      DeleteUnique(tail, i - 1);
    }
  }

  /** The base case of DeleteUnique: the line to delete is the first one. */
  lemma DeleteFirst(carts: seq<CartItem>)
    requires carts != [] && forall j :: 0 < j < |carts| ==> carts[j].id != carts[0].id
    ensures DeleteItem(carts, carts[0].id) == carts[1..]
  {
    var tail := carts[1..];
    forall x | x in tail ensures Keeps(NotId(carts[0].id), x) {
      var k :| 0 <= k < |tail| && tail[k] == x;
      assert carts[k + 1] == x;
    }
    SelectAll(tail, NotId(carts[0].id));
  }

  /** Taking line `i` out of the table moves its owner's total down by the
      line's amount and no one else's. */
  lemma {:induction false} TotalAfterDelete(carts: seq<CartItem>, i: nat, products: map<nat, Product>, who: nat)
    requires i < |carts| && carts[i].productId in products
    ensures CartTotal(carts[..i] + carts[i + 1..], products, who) ==
      Shift(CartTotal(carts, products, who),
            if carts[i].userId == who then -(products[carts[i].productId].price * carts[i].quantity) else 0)
  {
    var c := carts[i];
    var tail := carts[1..];
    DropSplit(carts, i);
    if i == 0 {
      DeleteHead(c, tail, products, who);
    } else {
      TotalAfterDelete(tail, i - 1, products, who);
      BumpBehind(carts[0], tail[..i - 1] + tail[i..], tail, products, who,
                 if c.userId == who then -(products[c.productId].price * c.quantity) else 0);
    }
  }

  /** Taking out line `i` of a table is taking out line `i - 1` of its tail. */
  lemma DropSplit(carts: seq<CartItem>, i: nat)
    requires i < |carts|
    ensures carts == [carts[0]] + carts[1..]
    ensures i == 0 ==> carts[..i] + carts[i + 1..] == carts[1..]
    ensures i > 0 ==> carts[..i] + carts[i + 1..] == [carts[0]] + (carts[1..][..i - 1] + carts[1..][i..])
    ensures i > 0 ==> carts[1..][i - 1] == carts[i]
  {
    if i > 0 {
      assert carts[..i] == [carts[0]] + carts[1..][..i - 1];
    }
  }

  /** The base case of TotalAfterDelete: the deleted line is the first one. */
  lemma DeleteHead(c: CartItem, tail: seq<CartItem>, products: map<nat, Product>, who: nat)
    requires c.productId in products
    ensures CartTotal(tail, products, who) ==
      Shift(CartTotal([c] + tail, products, who), if c.userId == who then -(products[c.productId].price * c.quantity) else 0)
  {
    TotalCons(c, tail, products, who);
    if c.userId == who {
      var a := products[c.productId].price * c.quantity;
      ShiftShift(CartTotal(tail, products, who), a, -a);
    }
  }
}
