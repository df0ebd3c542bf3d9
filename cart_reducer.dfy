/**
 * The shopping-cart reducer of the storefront (`cartReducer` in src/App.js).
 * State is `{items, total}`; the reducer is a pure function from a state and an
 * action to the next state. Prices are whole cents, so totals are exact.
 */
module CartReducer {
  import opened Wrappers

  /** A product's backend identifier (the `_id` string). */
  type ProductId = string

  /** A catalogue product as the backend delivers it. */
  datatype Product = Product(id: ProductId, name: string, price: int)

  /** A cart line: the product's own fields together with a quantity. */
  datatype Item = Item(product: Product, quantity: int)

  datatype Cart = Cart(items: seq<Item>, total: int)

  /**
   * The actions the reducer is dispatched with. `Unrecognized` stands for an
   * action whose type is none of the three the reducer names.
   */
  datatype Action =
    | AddToCart(payload: Product)
    | RemoveFromCart(id: ProductId)
    | ClearCart
    | Unrecognized(kind: string)

  /** The empty cart the reducer starts from and CLEAR_CART returns to. */
  const InitialCart: Cart := Cart([], 0)

  // ---------------------------------------------------------------------------
  // Line-item helpers: first-match lookup, per-id map and per-id filter
  // ---------------------------------------------------------------------------

  predicate HasItem(items: seq<Item>, id: ProductId) {
    exists i :: 0 <= i < |items| && items[i].product.id == id
  }

  /** The first line whose product has the given id, as array `find` returns it. */
  function Find(items: seq<Item>, id: ProductId): (r: Option<Item>)
    ensures r.Some? <==> HasItem(items, id)
    ensures r.Some? ==> exists k :: 0 <= k < |items| && items[k] == r.value && r.value.product.id == id &&
                                    !HasItem(items[..k], id)
  {
    if |items| == 0 then None
    else if items[0].product.id == id then
      assert items[..0] == [];
      Some(items[0])
    else
      var r := Find(items[1..], id);
      assert HasItem(items, id) ==> HasItem(items[1..], id) by {
        if HasItem(items, id) {
          var i :| 0 <= i < |items| && items[i].product.id == id;
          assert items[1..][i - 1] == items[i];
        }
      }
      if r.Some? then
        var k :| 0 <= k < |items[1..]| && items[1..][k] == r.value && r.value.product.id == id &&
                 !HasItem(items[1..][..k], id);
        assert items[k + 1] == r.value;
        assert items[..k + 1] == [items[0]] + items[1..][..k];
        r
      else
        r
  }

  /**
   * Every line with the given id has its quantity shifted by `delta`; every
   * other line is kept as it is, in place.
   */
  function Bump(items: seq<Item>, id: ProductId, delta: int): (r: seq<Item>)
    ensures |r| == |items|
    ensures forall i :: 0 <= i < |items| ==> r[i].product == items[i].product
    ensures forall i :: 0 <= i < |items| ==>
              r[i] == if items[i].product.id == id then items[i].(quantity := items[i].quantity + delta) else items[i]
  {
    if |items| == 0 then []
    else
      var head := if items[0].product.id == id then items[0].(quantity := items[0].quantity + delta) else items[0];
      [head] + Bump(items[1..], id, delta)
  }

  /**
   * The lines whose id differs from the given one, in their original order:
   * no line with the id is left, and at least one line goes when the id is
   * present. `WithoutKeeps` and `WithoutAt` say which lines remain.
   */
  function Without(items: seq<Item>, id: ProductId): (r: seq<Item>)
    ensures !HasItem(r, id)
    ensures HasItem(items, id) ==> |r| < |items|
    ensures |r| <= |items|
  {
    if |items| == 0 then []
    else if items[0].product.id == id then Without(items[1..], id)
    else [items[0]] + Without(items[1..], id)
  }

  /** The filtered lines are exactly the lines whose id differs. */
  lemma {:induction false} WithoutKeeps(items: seq<Item>, id: ProductId, x: Item)
    ensures x in Without(items, id) <==> x in items && x.product.id != id
  {
    if |items| > 0 {
      WithoutKeeps(items[1..], id, x);
      assert items == [items[0]] + items[1..];
    }
  }

  // ---------------------------------------------------------------------------
  // Cart invariants
  // ---------------------------------------------------------------------------

  function LineTotal(it: Item): int {
    it.product.price * it.quantity
  }

  /** The sum of price times quantity over the lines. */
  function Total(items: seq<Item>): int {
    if |items| == 0 then 0 else LineTotal(items[0]) + Total(items[1..])
  }

  predicate UniqueIds(items: seq<Item>) {
    forall i, j :: 0 <= i < j < |items| ==> items[i].product.id != items[j].product.id
  }

  predicate AllPositive(items: seq<Item>) {
    forall i :: 0 <= i < |items| ==> items[i].quantity >= 1
  }

  /** The shape every reachable cart has: ids are unique and no line has a quantity below one. */
  predicate WellFormed(items: seq<Item>) {
    UniqueIds(items) && AllPositive(items)
  }

  /**
   * The reducer's full invariant: a well-formed cart whose running total is
   * exactly the sum over the lines.
   */
  predicate Exact(c: Cart) {
    WellFormed(c.items) && c.total == Total(c.items)
  }

  /** Every line already holding this product carries the product's price. */
  predicate PriceAgrees(items: seq<Item>, p: Product) {
    forall i :: 0 <= i < |items| && items[i].product.id == p.id ==> items[i].product.price == p.price
  }

  // ---------------------------------------------------------------------------
  // The reducer
  // ---------------------------------------------------------------------------

  /** ADD_TO_CART: merge into the line with the same id, or append a new line. */
  function Add(state: Cart, p: Product): (r: Cart)
    ensures r.total == state.total + p.price
    ensures |r.items| == if HasItem(state.items, p.id) then |state.items| else |state.items| + 1
    ensures forall i :: 0 <= i < |state.items| ==> r.items[i].product == state.items[i].product
  {
    if Find(state.items, p.id).Some? then
      Cart(Bump(state.items, p.id, 1), state.total + p.price)
    else
      Cart(state.items + [Item(p, 1)], state.total + p.price)
  }

  /**
   * REMOVE_FROM_CART: decrement the line, or drop it when its quantity is not
   * above one; the total loses the stored line's price. The source reads the
   * found line's quantity without a check, so the id must be in the cart.
   */
  function Remove(state: Cart, id: ProductId): (r: Cart)
    requires HasItem(state.items, id)
    ensures r.total == state.total - Find(state.items, id).value.product.price
    ensures Find(state.items, id).value.quantity > 1 ==> |r.items| == |state.items|
    ensures Find(state.items, id).value.quantity <= 1 ==> |r.items| < |state.items| && !HasItem(r.items, id)
  {
    var found := Find(state.items, id).value;
    if found.quantity > 1 then
      Cart(Bump(state.items, id, -1), state.total - found.product.price)
    else
      Cart(Without(state.items, id), state.total - found.product.price)
  }

  predicate Applicable(state: Cart, action: Action) {
    action.RemoveFromCart? ==> HasItem(state.items, action.id)
  }

  function Reduce(state: Cart, action: Action): (r: Cart)
    requires Applicable(state, action)
    ensures action.ClearCart? ==> r.items == [] && r.total == 0
    ensures action.Unrecognized? ==> r == state
  {
    match action
    case AddToCart(p) => Add(state, p)
    case RemoveFromCart(id) => Remove(state, id)
    case ClearCart => InitialCart
    case Unrecognized(_) => state
  }

  /**
   * A run of dispatches from a starting state; `None` is the run that reaches a
   * REMOVE_FROM_CART for an id the cart does not hold, where the source throws.
   */
  function Run(state: Cart, actions: seq<Action>): (r: Option<Cart>)
    ensures r.None? ==> exists i :: 0 <= i < |actions| && actions[i].RemoveFromCart?
    decreases |actions|
  {
    if |actions| == 0 then Some(state)
    else if !Applicable(state, actions[0]) then None
    else Run(Reduce(state, actions[0]), actions[1..])
  }

  // ---------------------------------------------------------------------------
  // Lemmas about the helpers
  // ---------------------------------------------------------------------------

  /** Under unique ids the first match is the only match. */
  lemma FindAt(items: seq<Item>, id: ProductId, k: nat)
    requires UniqueIds(items) && k < |items| && items[k].product.id == id
    ensures Find(items, id) == Some(items[k])
  {
    var r := Find(items, id);
    var j :| 0 <= j < |items| && items[j] == r.value && r.value.product.id == id && !HasItem(items[..j], id);
  }

  lemma {:induction false} TotalAppend(items: seq<Item>, x: Item)
    ensures Total(items + [x]) == Total(items) + LineTotal(x)
  {
    if |items| == 0 {
      assert items + [x] == [x];
    } else {
      assert (items + [x])[1..] == items[1..] + [x];
      TotalAppend(items[1..], x);
    }
  }

  /** Shifting the quantity of the one line with id `id` moves the total by `delta` times its price. */
  lemma {:induction false} TotalBump(items: seq<Item>, id: ProductId, delta: int, k: nat)
    requires UniqueIds(items) && k < |items| && items[k].product.id == id
    ensures Total(Bump(items, id, delta)) == Total(items) + delta * items[k].product.price
  {
    var b := Bump(items, id, delta);
    if k == 0 {
      assert b[1..] == items[1..] by {
        forall i | 0 <= i < |items| - 1 ensures b[1..][i] == items[1..][i] {
          assert items[i + 1].product.id != id;
        }
      }
      var p, q := items[0].product.price, items[0].quantity;
      assert LineTotal(b[0]) == p * (q + delta);
      assert p * (q + delta) == p * q + delta * p;
    } else {
      assert b[1..] == Bump(items[1..], id, delta);
      assert items[0].product.id != id;
      TotalBump(items[1..], id, delta, k - 1);
    }
  }

  /** With unique ids, removing the lines of one id removes exactly position `k`, keeping the order of the rest. */
  lemma {:induction false} WithoutAt(items: seq<Item>, id: ProductId, k: nat)
    requires UniqueIds(items) && k < |items| && items[k].product.id == id
    ensures Without(items, id) == items[..k] + items[k + 1..]
  {
    var rest := items[1..];
    if k == 0 {
      forall i | 0 <= i < |rest| ensures rest[i].product.id != id {
        assert rest[i] == items[i + 1];
      }
      WithoutAbsent(rest, id);
      assert items[..0] + items[1..] == rest;
    } else {
      UniqueTail(items);
      assert items[0].product.id != id;
      assert Without(items, id) == [items[0]] + Without(rest, id);
      WithoutAt(rest, id, k - 1);
      assert items[..k] + items[k + 1..] == [items[0]] + (rest[..k - 1] + rest[k..]);
    }
  }

  lemma UniqueTail(items: seq<Item>)
    requires UniqueIds(items) && |items| > 0
    ensures UniqueIds(items[1..])
  {
    forall i, j | 0 <= i < j < |items| - 1 ensures items[1..][i].product.id != items[1..][j].product.id {
      assert items[1..][i] == items[i + 1] && items[1..][j] == items[j + 1];
    }
  }

  lemma {:induction false} WithoutAbsent(items: seq<Item>, id: ProductId)
    requires forall i :: 0 <= i < |items| ==> items[i].product.id != id
    ensures Without(items, id) == items
  {
    if |items| > 0 {
      WithoutAbsent(items[1..], id);
    }
  }

  lemma {:induction false} TotalDeleteAt(items: seq<Item>, k: nat)
    requires k < |items|
    ensures Total(items[..k] + items[k + 1..]) == Total(items) - LineTotal(items[k])
  {
    if k == 0 {
      assert items[..0] + items[1..] == items[1..];
    } else {
      var rest := items[1..];
      assert items[..k] + items[k + 1..] == [items[0]] + (rest[..k - 1] + rest[k..]);
      TotalDeleteAt(rest, k - 1);
    }
  }

  // ---------------------------------------------------------------------------
  // Lemmas about ADD_TO_CART
  // ---------------------------------------------------------------------------

  /**
   * Adding a product already in the cart raises that line's quantity by one and
   * leaves every other line, and the order of lines, as it was.
   */
  lemma AddExisting(c: Cart, p: Product, k: nat)
    requires UniqueIds(c.items) && k < |c.items| && c.items[k].product.id == p.id
    ensures var r := Add(c, p);
      && |r.items| == |c.items|
      && r.items[k] == c.items[k].(quantity := c.items[k].quantity + 1)
      && (forall i :: 0 <= i < |c.items| && i != k ==> r.items[i] == c.items[i])
      && r.total == c.total + p.price
  {
    FindAt(c.items, p.id, k);
    forall i | 0 <= i < |c.items| && i != k ensures c.items[i].product.id != p.id {
      assert i < k || k < i;
    }
  }

  /** Adding a product not yet in the cart appends a line of quantity one after the existing lines. */
  lemma AddNew(c: Cart, p: Product)
    requires !HasItem(c.items, p.id)
    ensures Add(c, p).items == c.items + [Item(p, 1)]
    ensures Add(c, p).total == c.total + p.price
  {
  }

  lemma AddPreservesExact(c: Cart, p: Product)
    requires Exact(c) && PriceAgrees(c.items, p)
    ensures Exact(Add(c, p))
  {
    if HasItem(c.items, p.id) {
      var k :| 0 <= k < |c.items| && c.items[k].product.id == p.id;
      BumpExact(c, p.id, 1, k, c.total + p.price);
    } else {
      AppendExact(c, p);
      assert Find(c.items, p.id).None?;
    }
  }

  /** Shifting the quantity of a line keeps ids unique and moves the total by the line's price times the shift. */
  lemma BumpExact(c: Cart, id: ProductId, delta: int, k: nat, total: int)
    requires Exact(c) && k < |c.items| && c.items[k].product.id == id && c.items[k].quantity + delta >= 1
    requires total == c.total + delta * c.items[k].product.price
    ensures Exact(Cart(Bump(c.items, id, delta), total))
  {
    var b := Bump(c.items, id, delta);
    TotalBump(c.items, id, delta, k);
    assert UniqueIds(b) by {
      forall i, j | 0 <= i < j < |b| ensures b[i].product.id != b[j].product.id {
        assert b[i].product == c.items[i].product && b[j].product == c.items[j].product;
      }
    }
    assert AllPositive(b) by {
      forall i | 0 <= i < |b| ensures b[i].quantity >= 1 {
        if i != k {
          assert c.items[i].product.id != id by {
            assert i < k || k < i;
          }
        }
      }
    }
  }

  lemma AppendExact(c: Cart, p: Product)
    requires Exact(c) && !HasItem(c.items, p.id)
    ensures Exact(Cart(c.items + [Item(p, 1)], c.total + p.price))
  {
    var r := c.items + [Item(p, 1)];
    TotalAppend(c.items, Item(p, 1));
    assert UniqueIds(r) by {
      forall i, j | 0 <= i < j < |r| ensures r[i].product.id != r[j].product.id {
        if j == |c.items| {
          assert r[i] == c.items[i];
        } else {
          assert r[i] == c.items[i] && r[j] == c.items[j];
        }
      }
    }
    assert AllPositive(r) by {
      forall i | 0 <= i < |r| ensures r[i].quantity >= 1 {
        if i < |c.items| {
          assert r[i] == c.items[i];
        }
      }
    }
  }

  // ---------------------------------------------------------------------------
  // Lemmas about REMOVE_FROM_CART
  // ---------------------------------------------------------------------------

  /** Removing from a line of quantity above one decrements that line only; the total drops by its price. */
  lemma RemoveDecrements(c: Cart, k: nat)
    requires UniqueIds(c.items) && k < |c.items| && c.items[k].quantity > 1
    ensures var r := Remove(c, c.items[k].product.id);
      && |r.items| == |c.items|
      && r.items[k] == c.items[k].(quantity := c.items[k].quantity - 1)
      && (forall i :: 0 <= i < |c.items| && i != k ==> r.items[i] == c.items[i])
      && r.total == c.total - c.items[k].product.price
  {
    FindAt(c.items, c.items[k].product.id, k);
    forall i | 0 <= i < |c.items| && i != k ensures c.items[i].product.id != c.items[k].product.id {
      assert i < k || k < i;
    }
  }

  /** Removing from a line of quantity one deletes it and keeps the other lines in order; the total drops by its price. */
  lemma RemoveDeletes(c: Cart, k: nat)
    requires UniqueIds(c.items) && k < |c.items| && c.items[k].quantity <= 1
    ensures Remove(c, c.items[k].product.id).items == c.items[..k] + c.items[k + 1..]
    ensures Remove(c, c.items[k].product.id).total == c.total - c.items[k].product.price
  {
    FindAt(c.items, c.items[k].product.id, k);
    WithoutAt(c.items, c.items[k].product.id, k);
  }

  lemma RemovePreservesExact(c: Cart, id: ProductId)
    requires Exact(c) && HasItem(c.items, id)
    ensures Exact(Remove(c, id))
  {
    var k :| 0 <= k < |c.items| && c.items[k].product.id == id;
    RemoveForm(c, k);
    if c.items[k].quantity > 1 {
      BumpExact(c, id, -1, k, c.total - c.items[k].product.price);
    } else {
      DeleteExact(c, k);
      assert LineTotal(c.items[k]) == c.items[k].product.price;
    }
  }

  /** The cart REMOVE_FROM_CART produces for the line at `k`, in terms of that line. */
  lemma RemoveForm(c: Cart, k: nat)
    requires UniqueIds(c.items) && k < |c.items|
    ensures var it := c.items[k];
      Remove(c, it.product.id) ==
        if it.quantity > 1 then Cart(Bump(c.items, it.product.id, -1), c.total - it.product.price)
        else Cart(c.items[..k] + c.items[k + 1..], c.total - it.product.price)
  {
    var it := c.items[k];
    FindAt(c.items, it.product.id, k);
    if it.quantity <= 1 {
      WithoutAt(c.items, it.product.id, k);
    }
  }

  /** Deleting one line keeps ids unique and quantities positive, and the total drops by that line's total. */
  lemma DeleteExact(c: Cart, k: nat)
    requires Exact(c) && k < |c.items|
    ensures Exact(Cart(c.items[..k] + c.items[k + 1..], c.total - LineTotal(c.items[k])))
  {
    var r := c.items[..k] + c.items[k + 1..];
    TotalDeleteAt(c.items, k);
    assert forall i :: 0 <= i < |r| ==> r[i] == c.items[if i < k then i else i + 1];
    assert UniqueIds(r) by {
      forall i, j | 0 <= i < j < |r| ensures r[i].product.id != r[j].product.id {
        var i', j' := if i < k then i else i + 1, if j < k then j else j + 1;
        assert r[i] == c.items[i'] && r[j] == c.items[j'];
      }
    }
  }

  // ---------------------------------------------------------------------------
  // Lemmas about the whole reducer
  // ---------------------------------------------------------------------------

  /** Every action keeps the invariant, provided an added product's price agrees with its line. */
  lemma ReducePreservesExact(c: Cart, a: Action)
    requires Exact(c) && Applicable(c, a)
    requires a.AddToCart? ==> PriceAgrees(c.items, a.payload)
    ensures Exact(Reduce(c, a))
  {
    match a
    case AddToCart(p) => AddPreservesExact(c, p);
    case RemoveFromCart(id) => RemovePreservesExact(c, id);
    case ClearCart =>
    case Unrecognized(_) =>
  }

  /**
   * Every action keeps ids unique and quantities at least one, whatever the
   * prices and whatever the running total.
   */
  lemma ReduceKeepsWellFormed(c: Cart, a: Action)
    requires WellFormed(c.items) && Applicable(c, a)
    ensures WellFormed(Reduce(c, a).items)
  {
    var exact := Cart(c.items, Total(c.items));
    match a
    case AddToCart(p) =>
      if HasItem(c.items, p.id) {
        var k :| 0 <= k < |c.items| && c.items[k].product.id == p.id;
        BumpExact(exact, p.id, 1, k, exact.total + c.items[k].product.price);
      } else {
        AppendExact(exact, p);
      }
    case RemoveFromCart(id) =>
      RemovePreservesExact(exact, id);
      assert Remove(exact, id).items == Remove(c, id).items;
    case ClearCart =>
    case Unrecognized(_) =>
  }

  /**
   * The total equation needs one price per id: a product re-added at a new
   * price is counted at that price in the total, while its line keeps the old one.
   */
  lemma PriceChangeDrifts(mug: Product)
    requires mug == Product("1", "Mug", 10)
    ensures Run(InitialCart, [AddToCart(mug), AddToCart(mug.(price := 12))]) == Some(Cart([Item(mug, 2)], 22))
    ensures !Exact(Cart([Item(mug, 2)], 22))
  {
    var c1 := Cart([Item(mug, 1)], 10);
    assert Add(InitialCart, mug) == c1;
    FindAt(c1.items, "1", 0);
    assert Bump(c1.items, "1", 1) == [Item(mug, 2)];
    var run := [AddToCart(mug), AddToCart(mug.(price := 12))];
    var c2 := Cart([Item(mug, 2)], 22);
    assert Add(c1, mug.(price := 12)) == c2;
    assert run[1..] == [AddToCart(mug.(price := 12))];
    assert Run(InitialCart, run) == Run(c1, run[1..]);
    assert Run(c1, run[1..]) == Run(c2, []);
    assert Total([Item(mug, 2)]) == 20;
  }

  /** ADD_TO_CART followed at once by REMOVE_FROM_CART of the same product gives back the cart. */
  lemma AddThenRemove(c: Cart, p: Product)
    requires WellFormed(c.items) && PriceAgrees(c.items, p)
    ensures Applicable(Add(c, p), RemoveFromCart(p.id))
    ensures Reduce(Reduce(c, AddToCart(p)), RemoveFromCart(p.id)) == c
  {
    ReduceKeepsWellFormed(c, AddToCart(p));
    if HasItem(c.items, p.id) {
      var k :| 0 <= k < |c.items| && c.items[k].product.id == p.id;
      RemoveUndoesMerge(c, p, k);
    } else {
      RemoveUndoesAppend(c, p);
    }
  }

  lemma RemoveUndoesMerge(c: Cart, p: Product, k: nat)
    requires WellFormed(c.items) && PriceAgrees(c.items, p) && k < |c.items| && c.items[k].product.id == p.id
    requires UniqueIds(Add(c, p).items)
    ensures HasItem(Add(c, p).items, p.id) && Remove(Add(c, p), p.id) == c
  {
    var a := Add(c, p);
    AddExisting(c, p, k);
    RemoveForm(a, k);
    var back := Bump(a.items, p.id, -1);
    assert back == c.items by {
      forall i | 0 <= i < |c.items| ensures back[i] == c.items[i] {
        if i != k {
          assert a.items[i] == c.items[i];
        }
      }
    }
    assert a.items[k].quantity > 1 && a.items[k].product.price == p.price;
  }

  lemma RemoveUndoesAppend(c: Cart, p: Product)
    requires !HasItem(c.items, p.id) && UniqueIds(Add(c, p).items)
    ensures HasItem(Add(c, p).items, p.id) && Remove(Add(c, p), p.id) == c
  {
    var a := Add(c, p);
    var n := |c.items|;
    AddNew(c, p);
    assert a.items[n] == Item(p, 1);
    RemoveForm(a, n);
    assert a.items[..n] + a.items[n + 1..] == c.items;
  }

  /**
   * Without price agreement the round trip fails: re-adding id "1" at 12 and
   * removing it again leaves the line at 10 but the total at 10 + 12 - 10.
   */
  lemma RoundTripNeedsPrice(mug: Product)
    requires mug == Product("1", "Mug", 10)
    ensures var c := Cart([Item(mug, 1)], 10);
      Reduce(Reduce(c, AddToCart(mug.(price := 12))), RemoveFromCart("1")) == Cart([Item(mug, 1)], 12) != c
  {
    var c := Cart([Item(mug, 1)], 10);
    var pricier := mug.(price := 12);
    FindAt(c.items, "1", 0);
    assert Bump(c.items, "1", 1) == [Item(mug, 2)];
    var a := Cart([Item(mug, 2)], 22);
    assert Add(c, pricier) == a;
    FindAt(a.items, "1", 0);
    assert Bump(a.items, "1", -1) == [Item(mug, 1)];
  }

  /** A price list that every line and every added product agrees with. */
  predicate Priced(items: seq<Item>, catalog: map<ProductId, int>) {
    forall i :: 0 <= i < |items| ==>
      items[i].product.id in catalog && catalog[items[i].product.id] == items[i].product.price
  }

  predicate ActionPriced(a: Action, catalog: map<ProductId, int>) {
    a.AddToCart? ==> a.payload.id in catalog && catalog[a.payload.id] == a.payload.price
  }

  /** Every action keeps every line priced as the price list says, if an added product is. */
  lemma ReducePreservesPriced(c: Cart, a: Action, catalog: map<ProductId, int>)
    requires UniqueIds(c.items) && Applicable(c, a) && Priced(c.items, catalog) && ActionPriced(a, catalog)
    ensures Priced(Reduce(c, a).items, catalog)
  {
    match a
    case AddToCart(p) => AddPreservesPriced(c, p, catalog);
    case RemoveFromCart(id) => RemovePreservesPriced(c, id, catalog);
    case ClearCart =>
    case Unrecognized(_) =>
  }

  lemma AddPreservesPriced(c: Cart, p: Product, catalog: map<ProductId, int>)
    requires Priced(c.items, catalog) && p.id in catalog && catalog[p.id] == p.price
    ensures Priced(Add(c, p).items, catalog)
  {
    var next := Add(c, p).items;
    if HasItem(c.items, p.id) {
      assert forall i :: 0 <= i < |next| ==> next[i].product == c.items[i].product;
    } else {
      assert forall i :: 0 <= i < |c.items| ==> next[i] == c.items[i];
    }
  }

  lemma RemovePreservesPriced(c: Cart, id: ProductId, catalog: map<ProductId, int>)
    requires UniqueIds(c.items) && HasItem(c.items, id) && Priced(c.items, catalog)
    ensures Priced(Remove(c, id).items, catalog)
  {
    var k :| 0 <= k < |c.items| && c.items[k].product.id == id;
    RemoveForm(c, k);
    if c.items[k].quantity > 1 {
      BumpPriced(c.items, id, -1, catalog);
    } else {
      DeletePriced(c.items, k, catalog);
    }
  }

  lemma BumpPriced(items: seq<Item>, id: ProductId, delta: int, catalog: map<ProductId, int>)
    requires Priced(items, catalog)
    ensures Priced(Bump(items, id, delta), catalog)
  {
    var b := Bump(items, id, delta);
    assert forall i :: 0 <= i < |b| ==> b[i].product == items[i].product;
  }

  lemma DeletePriced(items: seq<Item>, k: nat, catalog: map<ProductId, int>)
    requires k < |items| && Priced(items, catalog)
    ensures Priced(items[..k] + items[k + 1..], catalog)
  {
    var r := items[..k] + items[k + 1..];
    forall i | 0 <= i < |r|
      ensures r[i].product.id in catalog && catalog[r[i].product.id] == r[i].product.price
    {
      if i < k {
        assert r[i] == items[i];
      } else {
        assert r[i] == items[i + 1];
      }
    }
  }

  /** Over any run of dispatches that does not throw, the invariant holds at the end. */
  lemma {:induction false} RunPreservesExact(c: Cart, actions: seq<Action>, catalog: map<ProductId, int>)
    requires Exact(c) && Priced(c.items, catalog)
    requires forall i :: 0 <= i < |actions| ==> ActionPriced(actions[i], catalog)
    ensures Run(c, actions).Some? ==> Exact(Run(c, actions).value) && Priced(Run(c, actions).value.items, catalog)
    decreases |actions|
  {
    if |actions| > 0 && Applicable(c, actions[0]) {
      var a := actions[0];
      var next := Reduce(c, a);
      ReducePreservesExact(c, a);
      ReducePreservesPriced(c, a, catalog);
      assert forall i :: 0 <= i < |actions[1..]| ==> ActionPriced(actions[1..][i], catalog) by {
        forall i | 0 <= i < |actions[1..]| ensures ActionPriced(actions[1..][i], catalog) {
          assert actions[1..][i] == actions[i + 1];
        }
      }
      RunPreservesExact(next, actions[1..], catalog);
    }
  }

  /** A worked run: two units of one product and one of another. */
  lemma ExampleAdds(a: Product, b: Product)
    requires a == Product("1", "Mug", 10) && b == Product("2", "Pen", 5)
    ensures Add(Add(Add(InitialCart, a), b), a) == Cart([Item(a, 2), Item(b, 1)], 25)
  {
    var c2 := Cart([Item(a, 1), Item(b, 1)], 15);
    assert Add(InitialCart, a) == Cart([Item(a, 1)], 10);
    assert !HasItem([Item(a, 1)], "2");
    assert Add(Cart([Item(a, 1)], 10), b) == c2;
    FindAt(c2.items, "1", 0);
    assert Bump(c2.items, "1", 1) == [Item(a, 2), Item(b, 1)];
  }

  /** Continuing the worked run: one REMOVE_FROM_CART of the first product decrements its line. */
  lemma ExampleRemove(a: Product, b: Product)
    requires a == Product("1", "Mug", 10) && b == Product("2", "Pen", 5)
    ensures Run(Cart([Item(a, 2), Item(b, 1)], 25), [RemoveFromCart("1")]) == Some(Cart([Item(a, 1), Item(b, 1)], 15))
  {
    var c3 := Cart([Item(a, 2), Item(b, 1)], 25);
    assert c3.items[0].product.id == "1";
    FindAt(c3.items, "1", 0);
    assert Bump(c3.items, "1", -1) == [Item(a, 1), Item(b, 1)];
  }
}
