# Storefront cart model

A Dafny model of the shopping-cart logic of a React storefront client
(`src/App.js`):

- `CartReducer` (cart_reducer.dfy) models the cart reducer and its initial
  state. A cart is `{items, total}`. The reducer is a pure function from a
  cart and an action to the next cart. ADD_TO_CART merges by product id or
  appends. REMOVE_FROM_CART decrements or deletes. CLEAR_CART resets. Any
  other action leaves the cart as it is. Find, map and filter are modelled as
  the array operations do them: `Find` returns the first match, `Bump` changes
  every line with the id, `Without` drops every line with the id.
- `Storefront` (storefront.dfy) models the component around the reducer. The
  class `App` holds the cart, the stored login token and the message banner.
  It has the add-to-cart handler and the checkout handler. `Checkout` is the
  checkout decision as a function and states what the handler must do. `Badge`
  adds up the quantities shown on the cart icon.
- `Wrappers` (wrappers.dfy) holds `Option`.

The cart has two invariants. `CartReducer.WellFormed` says ids are unique and
every quantity is at least one; every action keeps it, whatever the prices.
`CartReducer.Exact` (the total is exact) adds that `total` equals the sum of price times quantity.
The reducer keeps that equation only when an added product's price agrees with
the line already in the cart: ADD adds the payload's price, but a merged line
keeps its stored price, and REMOVE subtracts the stored price. `PriceAgrees`,
and `Priced` against a price list for whole runs, state that assumption. The
component does not check it: the product list is fetched again each time the
home view opens (src/App.js:69-79), so a product can come back at a new price
and the total then drifts from the lines (`PriceChangeDrifts`). The `App`
class therefore keeps only `WellFormed` as its invariant, and each of its
methods carries the total equation forward when the price assumption holds.

Prices are whole integers (for example cents), not floating point.

Facts of the code that the model follows:

- REMOVE of an id that is not in the cart throws, because the code reads
  `.quantity` of the `undefined` that `find` returns (src/App.js:35-36). So
  `Reduce` requires the id to be present, and `Run` yields `None` for a run
  that reaches such a REMOVE.
- Checkout only sets a banner message, posts one order request and clears the
  cart when the post succeeds (src/App.js:117-151). The code has no order
  statuses, payment step or roles. The model has the outcome tags
  `CartEmpty`, `LoginRequired`, `OrderPlaced` and `CheckoutFailed` with the
  code's message texts.
- Being logged in is the JavaScript truthiness of the stored token
  (src/App.js:123). A present but empty token counts as logged out
  (`LoggedIn`).

## Model

| member | source | states |
|---|---|---|
| CartReducer.Add | src/App.js:17-33 | the total grows by the payload price; the line count is unchanged when the id is present and grows by one otherwise; the existing lines keep their products in their places |
| CartReducer.Remove | src/App.js:34-50 | the total drops by the found line's stored price; a found quantity above 1 keeps the line count; otherwise the line count drops and no line with the id is left |
| CartReducer.Without | src/App.js:47 | no line with the removed id is left, and at least one line goes when the id was present |
| CartReducer.Run | src/App.js:15-56 | a run of dispatches can only fail (the thrown TypeError) if it contains a REMOVE_FROM_CART |
| CartReducer.ReduceKeepsWellFormed | src/App.js:15-56 | every action the reducer accepts keeps ids unique and quantities at least 1, with no assumption on prices or the total |
| CartReducer.PriceChangeDrifts | src/App.js:18-25 | adding a product at 10 and then the same id at 12 gives one line at 10 with quantity 2 and total 22, a cart whose total is not its line sum |
| CartReducer.Find | src/App.js:18 | the result is present exactly when some line has the id; it is then the first such line |
| CartReducer.Bump | src/App.js:22-24 | same length; each line with the id has its quantity shifted by delta, product kept; every other line unchanged in place |
| CartReducer.WithoutKeeps | src/App.js:47 | a line is in the filtered result exactly when it is in the cart and its id differs from the removed one |
| CartReducer.WithoutAt | src/App.js:47 | with unique ids, filtering out one id deletes exactly that position and keeps the others in order |
| CartReducer.Reduce | src/App.js:51-54 | CLEAR_CART yields no items and total 0; an unrecognized action returns the state unchanged |
| CartReducer.FindAt | src/App.js:18 | with unique ids, the lookup returns the one line that has the id |
| CartReducer.TotalBump | src/App.js:22-25 | with unique ids, shifting one line's quantity by delta moves the line sum by delta times its price |
| CartReducer.TotalAppend | src/App.js:30-31 | appending a line adds its price times quantity to the line sum |
| CartReducer.TotalDeleteAt | src/App.js:47-48 | deleting a line takes its price times quantity off the line sum |
| CartReducer.AddExisting | src/App.js:18-26 | ADD of an id already present raises only that line's quantity by 1; all other lines and their order unchanged; total grows by the payload price |
| CartReducer.AddNew | src/App.js:27-32 | ADD of a new id appends the payload with quantity 1 after the existing lines; total grows by the payload price |
| CartReducer.AddPreservesExact | src/App.js:17-33 | ADD keeps ids unique, quantities at least 1 and total equal to the line sum, when the payload price agrees with any existing line |
| CartReducer.BumpExact | src/App.js:19-26 | shifting one line's quantity (staying at least 1) and the total by that many prices keeps `Exact` |
| CartReducer.AppendExact | src/App.js:27-32 | appending a new id with quantity 1 and adding its price keeps `Exact` |
| CartReducer.RemoveDecrements | src/App.js:34-43 | REMOVE of a line with quantity above 1 decrements only that line, keeps the others in place; total drops by its price |
| CartReducer.RemoveDeletes | src/App.js:44-50 | REMOVE of a line with quantity 1 deletes it and keeps the other lines in order; total drops by its price |
| CartReducer.RemoveForm | src/App.js:34-50 | for the line at k with unique ids, REMOVE yields the decremented cart when its quantity is above 1 and the cart without position k otherwise, minus the stored price |
| CartReducer.DeleteExact | src/App.js:44-50 | deleting one line and its line total keeps `Exact` |
| CartReducer.RemovePreservesExact | src/App.js:34-50 | REMOVE of a present id keeps `Exact`, with no price assumption |
| CartReducer.ReducePreservesExact | src/App.js:15-56 | every action the reducer accepts keeps `Exact`, given price agreement for ADD |
| CartReducer.AddThenRemove | src/App.js:17-50 | on a well-formed cart, whatever its total, ADD(p) followed by REMOVE(p) returns exactly the prior cart, whether or not p was present, when p's price agrees with the line of its id |
| CartReducer.RemoveUndoesMerge | src/App.js:18-43 | the round trip when p's line already exists, on a well-formed cart at an agreeing price |
| CartReducer.RemoveUndoesAppend | src/App.js:27-50 | the round trip when p is new: the appended line is filtered out again |
| CartReducer.RoundTripNeedsPrice | src/App.js:18-42 | one Mug at 10 with total 10, re-added at 12 and removed, comes back with total 12: the round trip needs the price agreement |
| CartReducer.ReducePreservesPriced | src/App.js:15-56 | every action keeps each line's price equal to the price list's, when an added product follows the list |
| CartReducer.AddPreservesPriced | src/App.js:17-33 | ADD of a listed product keeps each line's price equal to the list's |
| CartReducer.RemovePreservesPriced | src/App.js:34-50 | REMOVE keeps each line's price equal to the list's |
| CartReducer.RunPreservesExact | src/App.js:15-56 | across any run of dispatches that does not throw, `Exact` and agreement with a price list hold at the end |
| CartReducer.ExampleAdds | src/App.js:17-33 | adding products 1, 2, 1 to the empty cart gives lines of quantity 2 and 1 in first-add order with total 25 |
| CartReducer.ExampleRemove | src/App.js:34-43 | removing product 1 from that cart leaves quantities 1 and 1 with total 15 |
| Storefront.Checkout | src/App.js:117-151 | a request is issued exactly when the cart is non-empty and the token is truthy; it carries the cart's items, total and the token; an empty cart wins over a missing token; both leave the cart unchanged; a successful post clears the cart; a failed post leaves it unchanged with the server's or the fallback message |
| Storefront.CheckoutKeepsCart | src/App.js:117-151 | after checkout the cart is the previous cart or the empty cart, so it keeps its shape, and its total equation when it had one |
| Storefront.FoldQuantities | src/App.js:358 | the left fold over the quantities equals its start value plus the independently defined quantity sum |
| Storefront.Badge | src/App.js:356-358 | the badge is shown exactly when the cart has lines, and then shows the quantity sum |
| Storefront.CheckoutBanner | src/App.js:118-150 | the banner after checkout is "Your cart is empty!", "Please log in to checkout!", "Order placed successfully!", the server's message, or "Checkout failed. Please try again.", in that order of precedence (covers `MessageFor` and `FailureText`) |
| Storefront.TokenTruthiness | src/App.js:123 | a missing or empty token counts as logged out and any non-empty token as logged in (covers `LoggedIn`) |
| Storefront.UnitsAtLeastLines | src/App.js:358 | with every quantity at least 1, the quantity sum is at least the number of lines |
| Storefront.BadgeShown | src/App.js:356-358 | when every quantity is at least 1, the badge is shown exactly when there are lines and then counts at least one per line |
| Storefront.UnitsAppend | src/App.js:30 | appending a line adds its quantity to the quantity sum |
| Storefront.UnitsBump | src/App.js:22-24 | with unique ids, shifting one line's quantity by delta moves the quantity sum by delta |
| Storefront.UnitsDeleteAt | src/App.js:47 | deleting a line takes its quantity off the quantity sum |
| Storefront.UnitsAfterAdd | src/App.js:17-33 | on a cart with unique ids, as every reachable cart has, every ADD raises the badge count by exactly 1 |
| Storefront.UnitsAfterRemove | src/App.js:34-50 | every REMOVE of a present id on a well-formed cart lowers the badge count by exactly 1 |
| Storefront.App.constructor | src/App.js:62-66 | the cart starts empty (so with an exact total), the token is the stored one, the message is empty |
| Storefront.App.Dispatch | src/App.js:62 | any action the reducer accepts, at any price; the cart becomes the reducer's result and stays well-formed; its total equation carries over when an added product agrees with its line; token and message unchanged |
| Storefront.App.HandleAddToCart | src/App.js:86-90 | any product is added; the cart stays well-formed; the badge count rises by 1; the total equation carries over when the price agrees; the banner names the product |
| Storefront.App.HandleCheckout | src/App.js:117-151 | on any well-formed cart, whatever its total, the guarded steps give the cart, the issued request and the banner that `Checkout` prescribes; the cart stays well-formed, and exact if it was; the token is unchanged |

## Left out

- Rendering, view switching and form state (`renderView`, the auth form, the navigation and banners). These are UI.
- Product fetching, login and registration requests, logout and the token's storage (src/App.js:76-114). The token is a constructor parameter.
- The order POST itself. Its answer is the `post` parameter of `Checkout` and `HandleCheckout`, and the handler runs as one atomic step. In the code, CLEAR_CART runs after the `await` (src/App.js:142-144), so it also clears lines added while the request was in flight, which were never sent (src/App.js:138); and a second checkout click while the first is pending sends a second order. The model cannot show either interleaving.
- The timers that clear the banner and change the view later (src/App.js:89, 125, 146).
- Floating-point prices and `toFixed(2)` formatting. Prices are integers, so totals are exact.
- Product fields other than id, name and price (image URL, description). They are copied into a line unchanged and play no part in the logic.
- JavaScript's dynamic action objects. The action type is a datatype constructor, and `Unrecognized` stands for every other type string. A REMOVE payload is reduced to its id, the only field the reducer reads.
- An order status workflow, payment handoff and role gate: the code has no order statuses, payment step or roles, so there is nothing of them to model.
- CartReducer.AddPreservesExact: `Exact` is proved only when the added product's price agrees with an existing line of the same id, because the code itself loses it otherwise.
- CartReducer.AddThenRemove: the round trip is proved only when p's price agrees with the line of its id, because the code does not give the cart back otherwise: the merged line keeps its stored price while the total gains the new one (`RoundTripNeedsPrice`).
