/**
 * The `App` component's cart-facing behaviour (src/App.js): the cart state it
 * holds through the reducer, the message banner, the add-to-cart handler, the
 * checkout handler and the quantity badge on the cart icon. The order POST is
 * not performed here: its outcome is an input.
 */
module Storefront {
  import opened Wrappers
  import opened CartReducer

  /** What the backend answers to the order POST. */
  datatype PostResult =
    | Created                       // the request resolved
    | Rejected(serverMsg: string)   // an error response carrying a message
    | NoResponse                    // the request failed without any response

  /** How a checkout attempt ends. */
  datatype Outcome =
    | CartEmpty
    | LoginRequired
    | OrderPlaced
    | CheckoutFailed(reason: string)

  /** The order body and credential that a checkout sends to the backend. */
  datatype OrderRequest = OrderRequest(cartItems: seq<Item>, totalPrice: int, authToken: string)

  datatype CheckoutResult = CheckoutResult(cart: Cart, request: Option<OrderRequest>, outcome: Outcome)

  const EmptyCartMessage := "Your cart is empty!"
  const LoginMessage := "Please log in to checkout!"
  const PlacedMessage := "Order placed successfully!"
  const FallbackFailureMessage := "Checkout failed. Please try again."
  const AddedSuffix := " added to cart!"

  /** A stored token counts only when it is present and non-empty (JavaScript truthiness). */
  predicate LoggedIn(token: Option<string>) {
    token.Some? && token.value != ""
  }

  /** The banner text shown for a failed order POST. */
  function FailureText(post: PostResult): string {
    match post
    case Rejected(m) => m
    case _ => FallbackFailureMessage
  }

  /**
   * The checkout decision: the empty-cart guard first, then the token guard,
   * then the order POST, with the cart cleared only when the POST succeeds.
   */
  function Checkout(cart: Cart, token: Option<string>, post: PostResult): (r: CheckoutResult)
    ensures r.request.Some? <==> |cart.items| > 0 && LoggedIn(token)
    ensures r.request.Some? ==> r.request.value == OrderRequest(cart.items, cart.total, token.value)
    ensures |cart.items| == 0 ==> r.outcome == CartEmpty && r.cart == cart
    ensures |cart.items| > 0 && !LoggedIn(token) ==> r.outcome == LoginRequired && r.cart == cart
    ensures r.outcome == OrderPlaced <==> r.request.Some? && post.Created?
    ensures r.outcome == OrderPlaced ==> r.cart == Cart([], 0)
    ensures r.request.Some? && !post.Created? ==> r.outcome == CheckoutFailed(FailureText(post)) && r.cart == cart
  {
    if |cart.items| == 0 then
      CheckoutResult(cart, None, CartEmpty)
    else if !LoggedIn(token) then
      CheckoutResult(cart, None, LoginRequired)
    else
      var request := Some(OrderRequest(cart.items, cart.total, token.value));
      if post.Created? then
        CheckoutResult(Reduce(cart, ClearCart), request, OrderPlaced)
      else
        CheckoutResult(cart, request, CheckoutFailed(FailureText(post)))
  }

  function MessageFor(o: Outcome): string {
    match o
    case CartEmpty => EmptyCartMessage
    case LoginRequired => LoginMessage
    case OrderPlaced => PlacedMessage
    case CheckoutFailed(reason) => reason
  }

  /** The cart after a checkout is either the cart before it or the empty cart, so it keeps its shape and its total. */
  lemma CheckoutKeepsCart(cart: Cart, token: Option<string>, post: PostResult)
    ensures Checkout(cart, token, post).cart in {cart, InitialCart}
    ensures WellFormed(cart.items) ==> WellFormed(Checkout(cart, token, post).cart.items)
    ensures Exact(cart) ==> Exact(Checkout(cart, token, post).cart)
  {
  }

  /** The banner a checkout leaves, with the texts the component shows. */
  lemma CheckoutBanner(cart: Cart, token: Option<string>, post: PostResult)
    ensures MessageFor(Checkout(cart, token, post).outcome) ==
      if |cart.items| == 0 then "Your cart is empty!"
      else if !LoggedIn(token) then "Please log in to checkout!"
      else if post.Created? then "Order placed successfully!"
      else if post.Rejected? then post.serverMsg
      else "Checkout failed. Please try again."
  {
  }

  /** A missing token and an empty token both count as logged out; any other token counts as logged in. */
  lemma TokenTruthiness(t: string)
    ensures !LoggedIn(None) && !LoggedIn(Some(""))
    ensures LoggedIn(Some(t)) <==> t != ""
  {
  }

  // ---------------------------------------------------------------------------
  // The cart badge: the sum of the lines' quantities, shown for a non-empty cart
  // ---------------------------------------------------------------------------

  /** The number of units in the cart. */
  function Units(items: seq<Item>): int {
    if |items| == 0 then 0 else items[0].quantity + Units(items[1..])
  }

  /** The left fold over the lines that adds up their quantities, starting from `acc`. */
  function FoldQuantities(acc: int, items: seq<Item>): (r: int)
    ensures r == acc + Units(items)
    decreases |items|
  {
    if |items| == 0 then acc else FoldQuantities(acc + items[0].quantity, items[1..])
  }

  /** The count on the cart icon, shown only while the cart has lines. */
  function Badge(cart: Cart): (r: Option<int>)
    ensures r.Some? <==> |cart.items| > 0
    ensures r.Some? ==> r.value == Units(cart.items)
  {
    if |cart.items| > 0 then Some(FoldQuantities(0, cart.items)) else None
  }

  lemma {:induction false} UnitsAtLeastLines(items: seq<Item>)
    requires AllPositive(items)
    ensures Units(items) >= |items|
  {
    if |items| > 0 {
      assert AllPositive(items[1..]) by {
        forall i | 0 <= i < |items| - 1 ensures items[1..][i].quantity >= 1 {
          assert items[1..][i] == items[i + 1];
        }
      }
      UnitsAtLeastLines(items[1..]);
    }
  }

  /** The badge is shown exactly when the cart has lines, and then it counts at least one unit per line. */
  lemma BadgeShown(c: Cart)
    requires AllPositive(c.items)
    ensures Badge(c).Some? <==> |c.items| > 0
    ensures Badge(c).Some? ==> Badge(c).value >= |c.items| >= 1
  {
    UnitsAtLeastLines(c.items);
  }

  lemma {:induction false} UnitsAppend(items: seq<Item>, x: Item)
    ensures Units(items + [x]) == Units(items) + x.quantity
  {
    if |items| == 0 {
      assert items + [x] == [x];
    } else {
      assert (items + [x])[1..] == items[1..] + [x];
      UnitsAppend(items[1..], x);
    }
  }

  lemma {:induction false} UnitsBump(items: seq<Item>, id: ProductId, delta: int, k: nat)
    requires UniqueIds(items) && k < |items| && items[k].product.id == id
    ensures Units(Bump(items, id, delta)) == Units(items) + delta
  {
    var b := Bump(items, id, delta);
    if k == 0 {
      assert b[1..] == items[1..] by {
        forall i | 0 <= i < |items| - 1 ensures b[1..][i] == items[1..][i] {
          assert items[i + 1].product.id != id;
        }
      }
    } else {
      assert b[1..] == Bump(items[1..], id, delta);
      assert items[0].product.id != id;
      UnitsBump(items[1..], id, delta, k - 1);
    }
  }

  lemma {:induction false} UnitsDeleteAt(items: seq<Item>, k: nat)
    requires k < |items|
    ensures Units(items[..k] + items[k + 1..]) == Units(items) - items[k].quantity
  {
    if k == 0 {
      assert items[..0] + items[1..] == items[1..];
    } else {
      var rest := items[1..];
      assert items[..k] + items[k + 1..] == [items[0]] + (rest[..k - 1] + rest[k..]);
      UnitsDeleteAt(rest, k - 1);
    }
  }

  /** Every ADD_TO_CART puts one more unit on the badge. */
  lemma UnitsAfterAdd(c: Cart, p: Product)
    requires UniqueIds(c.items)
    ensures Units(Add(c, p).items) == Units(c.items) + 1
  {
    if HasItem(c.items, p.id) {
      var k :| 0 <= k < |c.items| && c.items[k].product.id == p.id;
      UnitsBump(c.items, p.id, 1, k);
    } else {
      UnitsAppend(c.items, Item(p, 1));
    }
  }

  /** Every REMOVE_FROM_CART on a well-formed cart takes one unit off the badge. */
  lemma UnitsAfterRemove(c: Cart, id: ProductId)
    requires WellFormed(c.items) && HasItem(c.items, id)
    ensures Units(Remove(c, id).items) == Units(c.items) - 1
  {
    var k :| 0 <= k < |c.items| && c.items[k].product.id == id;
    FindAt(c.items, id, k);
    if c.items[k].quantity > 1 {
      UnitsBump(c.items, id, -1, k);
    } else {
      WithoutAt(c.items, id, k);
      UnitsDeleteAt(c.items, k);
    }
  }

  // ---------------------------------------------------------------------------
  // The component's state
  // ---------------------------------------------------------------------------

  /**
   * The cart-related state the component holds: the reducer's cart, the stored
   * login token and the message banner. The component never checks prices, so
   * its invariant is the cart's shape; the total equation is carried from one
   * state to the next only while every added product keeps its line's price.
   */
  class App {
    var cart: Cart
    var token: Option<string>
    var message: string

    ghost predicate Valid()
      reads this
    {
      WellFormed(cart.items)
    }

    /** Mounting: the reducer starts from the empty cart and the token is read from storage. */
    constructor (storedToken: Option<string>)
      ensures Valid() && Exact(cart)
      ensures cart == InitialCart && token == storedToken && message == ""
    {
      cart := InitialCart;
      token := storedToken;
      message := "";
    }

    /** Hands an action to the reducer and replaces the cart with the result. */
    method Dispatch(action: Action)
      requires Valid() && Applicable(cart, action)
      modifies this
      ensures Valid()
      ensures cart == Reduce(old(cart), action)
      ensures (old(Exact(cart)) && (action.AddToCart? ==> old(PriceAgrees(cart.items, action.payload))))
              ==> Exact(cart)
      ensures token == old(token) && message == old(message)
    {
      ReduceKeepsWellFormed(cart, action);
      if Exact(cart) && (action.AddToCart? ==> PriceAgrees(cart.items, action.payload)) {
        ReducePreservesExact(cart, action);
      }
      cart := Reduce(cart, action);
    }

    /** Adds the product and announces it in the banner. */
    method HandleAddToCart(product: Product)
      requires Valid()
      modifies this
      ensures Valid()
      ensures cart == Add(old(cart), product)
      ensures old(Exact(cart)) && old(PriceAgrees(cart.items, product)) ==> Exact(cart)
      ensures Units(cart.items) == Units(old(cart).items) + 1
      ensures message == product.name + AddedSuffix && token == old(token)
    {
      UnitsAfterAdd(cart, product);
      Dispatch(AddToCart(product));
      message := product.name + AddedSuffix;
    }

    /**
     * The guarded checkout sequence; `post` is what the backend answers if the
     * order is sent. Returns the request that was sent, if any. The order's
     * total is the cart's running total, whether or not it matches the lines.
     */
    method HandleCheckout(post: PostResult) returns (request: Option<OrderRequest>)
      requires Valid()
      modifies this
      ensures Valid()
      ensures var r := Checkout(old(cart), old(token), post);
        cart == r.cart && request == r.request && message == MessageFor(r.outcome)
      ensures old(Exact(cart)) ==> Exact(cart)
      ensures token == old(token)
    {
      if |cart.items| == 0 {
        message := EmptyCartMessage;
        return None;
      }
      if !LoggedIn(token) {
        message := LoginMessage;
        return None;
      }
      request := Some(OrderRequest(cart.items, cart.total, token.value));
      if post.Created? {
        Dispatch(ClearCart);
        message := PlacedMessage;
      } else {
        message := FailureText(post);
      }
    }
  }
}
