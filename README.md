# Storefront commerce state, modelled in Dafny

This project models the client-side commerce state of a mobile storefront. The context hook in
`contexts/AppContext.tsx` owns the signed-in `user`, the `isAuthenticated` flag, the `cart` (a list
of cart lines), the `wishlist` and the cached product catalog. It offers cart and wishlist edits,
local likes, the derived `cartTotal` and `cartItemCount`, and the session transitions: login,
signup, logout and the startup restore from persistent storage. The search screen in
`app/search.tsx` adds a case-insensitive product filter and a short list of recent searches.

Layout:

- `wrappers.dfy`: `Option`.
- `seqs.dfy`: `Array.prototype.filter` as `Seqs.Filter`, with its characterisation. It keeps every
  element the test accepts, with all its occurrences and in order (`IsSubsequence`), and it
  preserves pairwise properties such as "distinct ids".
- `types.dfy`: the records from `types/index.ts`. It also holds the shape of a login or signup
  result and how an async call settles.
- `cart.dfy`, `wishlist.dfy`, `catalog.dfy`: the pure updaters the hook passes to `setCart`,
  `setWishlist` and `setQueryData`, the aggregates, and the lemmas about them.
- `app_context.dfy`: the class `AppState`. Its fields are the hook's state plus the two persisted
  keys (`user` and `authToken`). Each method states the new state in terms of the old one and the
  pure updaters.
- `text.dfy`: `trim`, `toLowerCase` and `includes` as the search screen uses them.
- `search.dfy`: the filter, the recent-search updates, and the class `SearchState`.

Remote calls are inputs. A login or signup result is `AuthOk(token, user?)` or
`AuthFailed(error)`. A remote cart or wishlist fetch is an `Option`, where `None` means the call
threw. Line and entry ids, which the source takes from `Date.now()`, are a `freshId` parameter.
The source does not itself ensure these ids are unique. So freshness appears only as a
precondition of the lemmas that preserve "distinct ids" and of the undo lemmas
`Cart.RemoveLineUndoesAdd` and `Wishlist.RemoveEntryUndoesAdd`, never of the operations.

Guest-mode cart well-formedness means: one line per product, distinct line ids, and every
quantity at least 1. It is proved as lemmas over the updaters, not as an object invariant. The
signed-in paths store whatever the remote service returns, so no such invariant can hold there.
The class invariant `AppState.Valid` covers the session. A user is present exactly when the
session is authenticated. While authenticated, the persisted user record equals the in-memory
user and a token is stored.

Three behaviours of the code that a reader might not expect, modelled as written:

- `addToCart` has no guard against a quantity of 0 or less. The model accepts any quantity.
  Well-formedness is proved for quantity at least 1, which is what every caller in `app/` passes.
- In `login`, the user is set before the cart and wishlist are fetched. If a fetch throws, the
  session stays signed in with the old cart or wishlist, and the returned promise rejects
  (`Settled.Rejected`).
- A successful restore at startup does not fetch the remote cart or wishlist. They start empty.

## Model

| member | source | states |
|---|---|---|
| Cart.FindProduct | contexts/AppContext.tsx:87 | `find` by product id: the index of the first line holding the product, none exactly when no line holds it |
| Cart.AddToGuestCartEffect | contexts/AppContext.tsx:86-96 | in a cart with one line per product, a product already present gets `quantity` more units on its line and nothing else changes; an absent product gets exactly one appended line `{freshId, product, quantity, ordered: false}` after the unchanged old lines |
| Cart.AddToGuestCartKeepsProductsUnique | contexts/AppContext.tsx:86-96 | guest add never creates a second line for a product, for any quantity and id |
| Cart.AddToGuestCartPreservesWellFormed | contexts/AppContext.tsx:85-96 | with quantity at least 1 and an unused line id, guest add keeps one line per product, distinct line ids and positive quantities |
| Cart.AddToGuestCartTotals | contexts/AppContext.tsx:85-96 | guest add raises the unit count by `quantity`, and the total by `quantity` times the price on the line that took the units |
| Cart.AddRepeatedlyToLine | contexts/AppContext.tsx:87-93 | repeated adds of a product that has a line raise that line's quantity by the sum of the added quantities and change nothing else |
| Cart.AddRepeatedlyMerges | contexts/AppContext.tsx:86-96 | n adds of a new product with quantities q1..qn leave exactly one line for it, appended, with the first add's id and quantity q1+...+qn; earlier lines are unchanged |
| Cart.RemoveLineSpec | contexts/AppContext.tsx:100-102 | `removeFromCart(id)` leaves no line with that id; every other line stays, with all its occurrences and in its original order; an absent id changes nothing |
| Cart.RemoveLinePreservesWellFormed | contexts/AppContext.tsx:100-102 | removal keeps every cart invariant |
| Cart.RemoveLineUndoesAdd | contexts/AppContext.tsx:95-101 | adding a new product under an unused id and then removing that id restores the cart |
| Cart.UpdateQuantitySpec | contexts/AppContext.tsx:104-112 | quantity <= 0 is exactly `removeFromCart`, on any cart; quantity > 0 on a cart with distinct line ids sets that line's quantity and changes nothing else; quantity > 0 with no line of that id changes nothing, on any cart |
| Cart.UpdateQuantityPreservesWellFormed | contexts/AppContext.tsx:104-112 | for every requested quantity, updating keeps every cart invariant, so no quantity below 1 is stored |
| Cart.FoldTotal | contexts/AppContext.tsx:160 | the `reduce` left fold from any start value equals that value plus the sum of price times quantity |
| Cart.FoldCount | contexts/AppContext.tsx:164 | the `reduce` left fold from any start value equals that value plus the sum of quantities |
| Cart.CartTotal | contexts/AppContext.tsx:159-161 | `cartTotal` is the sum over the lines of price times quantity |
| Cart.CartItemCount | contexts/AppContext.tsx:163-165 | `cartItemCount` is the sum of the quantities (units, not lines) |
| Cart.TwoProductScenario | contexts/AppContext.tsx:85-96 | 2 units at 45000 plus 1 unit at 35000 give total 125000 and count 3 |
| Cart.MergeScenario | contexts/AppContext.tsx:87-93 | adding one product with 1 unit, then 2 units, gives one line of 3 units, total 135000 at price 45000 |
| Wishlist.AddToGuestWishlistSpec | contexts/AppContext.tsx:127-147 | after a guest add the product is in the wishlist; an absent product gets exactly one appended entry; a present one changes nothing; a second add of the same product changes nothing |
| Wishlist.AddToGuestWishlistKeepsProductsUnique | contexts/AppContext.tsx:127-135 | guest add never creates a second entry for a product, whatever the entry id |
| Wishlist.AddToGuestWishlistPreservesWellFormed | contexts/AppContext.tsx:127-135 | with an unused entry id, guest add keeps one entry per product and distinct entry ids |
| Wishlist.RemoveEntrySpec | contexts/AppContext.tsx:138-140 | no entry with the id remains; every other entry keeps all its occurrences and its order; an absent id changes nothing |
| Wishlist.RemoveEntryKeepsWellFormed | contexts/AppContext.tsx:138-140 | removal by any id keeps products and entry ids distinct |
| Wishlist.RemoveEntryPreservesWellFormed | contexts/AppContext.tsx:138-147 | removal keeps the wishlist invariants, and removing an entry makes `isInWishlist` false for its product |
| Wishlist.RemoveEntryUndoesAdd | contexts/AppContext.tsx:127-140 | adding an absent product under an unused id and then removing that id restores the wishlist |
| Catalog.LikeInExposedProducts | contexts/AppContext.tsx:149-174 | the `products` list the context exposes (`data`, or `[]` before loading) after a like is the liked catalog, and stays `[]` while nothing is loaded |
| Catalog.LikeSpec | contexts/AppContext.tsx:149-157 | every product with the id gets exactly one more like and every other product is unchanged, keeping the catalog's order and length; and adds to the sum of likes exactly the number of products with that id |
| Catalog.LikeAbsentIsNoOp | contexts/AppContext.tsx:153 | liking an id that is not in the catalog changes nothing |
| AppContext.AppState.constructor | contexts/AppContext.tsx:10-13 | a fresh mount has no user, is not authenticated, has an empty cart and wishlist and no catalog, over the given persistent store |
| AppContext.AppState.LoadUserData | contexts/AppContext.tsx:15-27 | startup restores the stored user and authenticates exactly when a user record and a non-empty token are stored; otherwise nothing changes |
| AppContext.Startup | contexts/AppContext.tsx:8-27 | after mount, the session is authenticated if and only if the store can restore one, and the cart and wishlist are empty |
| AppContext.AppState.ReceiveProducts | contexts/AppContext.tsx:31-34 | the catalog query settling puts its data in the cache |
| AppContext.AppState.Login | contexts/AppContext.tsx:36-52 | a failed login changes nothing and returns the failure; a success with a user sets user, authentication and the stored user, then replaces the cart and the wishlist with the remote results; a throwing fetch rejects and leaves the rest unchanged |
| AppContext.AppState.Signup | contexts/AppContext.tsx:54-64 | like login, but never touches the cart or the wishlist; returns the remote result |
| AppContext.AppState.Logout | contexts/AppContext.tsx:66-74 | from any state: no user, not authenticated, empty cart and wishlist (total and count 0, nothing wishlisted), both persisted keys erased |
| AppContext.AppState.AddToCart | contexts/AppContext.tsx:76-98 | signed in: the cart becomes the remote cart, or stays unchanged when a remote call threw; guest: the merge-or-append update, which keeps the cart invariants for a positive quantity and unused id |
| AppContext.AppState.RemoveFromCart | contexts/AppContext.tsx:100-102 | local removal in both modes, keeping the cart invariants |
| AppContext.AppState.UpdateCartQuantity | contexts/AppContext.tsx:104-112 | local update in both modes, keeping the cart invariants for every quantity |
| AppContext.AppState.ClearCart | contexts/AppContext.tsx:114-116 | the cart becomes empty, with total and count 0 |
| AppContext.AppState.AddToWishlist | contexts/AppContext.tsx:118-136 | signed in: the wishlist becomes the remote wishlist, or stays unchanged when a remote call threw; guest: add-if-absent owned by user 0 (`user?.id or 0`), after which the product is wishlisted; one entry per product is kept under any id, and the full wishlist invariant under an unused id |
| AppContext.AppState.RemoveFromWishlist | contexts/AppContext.tsx:138-140 | local removal in both modes; no entry with the id remains; a well-formed wishlist stays well-formed |
| AppContext.AppState.LikeProduct | contexts/AppContext.tsx:149-157 | the cache takes the local like (`LikeInCache`, an unloaded cache staying unloaded), whose effect on each product `Catalog.LikeSpec` states |
| Text.TrimStart | app/search.tsx:40 | the suffix of the input from its first non-whitespace character; everything cut is whitespace |
| Text.TrimEnd | app/search.tsx:40 | the prefix of the input up to its last non-whitespace character; everything cut is whitespace |
| Text.TrimSpec | app/search.tsx:40 | `trim` returns a contiguous piece of the input, empty if and only if the input is all whitespace, otherwise starting and ending with non-whitespace; everything cut off before and after it is whitespace |
| Text.TrimIdempotent | app/search.tsx:40-41 | trimming a trimmed string changes nothing |
| Text.LowerChar | app/search.tsx:33-35 | ASCII upper-case letters map to their lower-case letters, every other character to itself; no upper-case ASCII letter remains |
| Text.ToLowerIdempotent | app/search.tsx:33-35 | lower-casing an already lower-cased string changes nothing |
| Text.ContainsIff | app/search.tsx:33-35 | `includes` holds if and only if the part occurs at some position |
| Search.FilteredProductsSpec | app/search.tsx:31-36 | the filter keeps exactly the products whose lower-cased title, desc or typ includes the lower-cased query, with all their occurrences and in their original order |
| Search.EmptyQueryKeepsAll | app/search.tsx:31-36 | an empty query keeps every product |
| Search.QueryCaseInsensitive | app/search.tsx:31-36 | lower-casing the query does not change the result |
| Search.PushRecentSpec | app/search.tsx:38-43 | the list is unchanged if and only if the trimmed query is blank or already listed; otherwise it is the trimmed query followed by the first four old entries; a non-blank query is listed afterwards; at most five entries stay at most five |
| Search.PushRecentIdempotent | app/search.tsx:40-41 | repeating a search leaves the list as the first search left it |
| Search.PushRecentPreservesWellFormed | app/search.tsx:38-43 | the update keeps the list at five entries or fewer, free of duplicates, and made of trimmed non-blank strings |
| Search.RemoveRecentSpec | app/search.tsx:49-51 | every occurrence of the search is removed and every other entry stays with all its occurrences, in order; an unlisted search changes nothing |
| Search.RemoveRecentPreservesWellFormed | app/search.tsx:49-51 | removal keeps the recent list's invariant |
| Search.InitialRecentWellFormed | app/search.tsx:25-29 | the initial three recent searches satisfy the recent list's invariant |
| Search.SearchState.constructor | app/search.tsx:24-29 | a fresh screen has an empty query and the three initial recent searches |
| Search.SearchState.HandleSearch | app/search.tsx:38-43 | the query is stored as typed, and the recent list takes the update, keeping its invariant |
| Search.SearchState.ClearSearch | app/search.tsx:45-47 | the query becomes empty, so every product is shown, and the recent list is untouched |
| Search.SearchState.RemoveRecentSearch | app/search.tsx:49-51 | the recent list takes the removal, keeping its invariant |

## Left out

- Networking: `services/api.ts` is not part of this model. Login, signup, the remote cart and wishlist adds, and the cart and wishlist fetches are inputs. The token write that the HTTP layer makes on a successful login or signup (services/api.ts:150, 174) is folded into `Login` and `Signup`.
- Concurrency: the operations run one at a time. The model does not cover interleavings of in-flight remote calls (last response wins), stale `isAuthenticated`/`user` captured by `useCallback` closures, or the react-query loading flag and cache policy.
- JSON: `JSON.stringify`/`JSON.parse` of the stored user are not modelled; the stored user is a `User` value. A JSON user record is never the empty string, so "stored" is simply `Some`.
- Ids: `Date.now()` is replaced by a caller-supplied id. Two adds within one millisecond would share an id in the source. `RemoveLineSpec` shows that removal then drops every line with that id.
- Numbers: prices, quantities, likes and sums are unbounded integers. JavaScript numbers are doubles, so sums above 2^53 and fractional quantities are not modelled.
- Text.LowerChar: only ASCII letters are lower-cased; JavaScript's full Unicode case mapping (for example of accented letters) is not modelled.
- Text.ToLower: inherits the ASCII-only case mapping of Text.LowerChar.
- Product fields not read by the core (image, thumbnails, discount, rates, sizes, colour, description boxes) are dropped. The floating-point discount percentage, the `toFixed` likes display and `toLocaleString` prices are display logic and are left out.
- Presentation: rendering, styles and navigation in `app/search.tsx`, `app/auth/login.tsx` and `app/_layout.tsx` are left out. So is the login form's submit and error handling. The search box calls `handleSearch` on every keystroke (app/search.tsx:122); `HandleSearch` models a single call.
- `logout`: `api.logout()` makes no remote call; it only removes the `authToken` key, and `Logout` does that first. Removing a persisted key is assumed to succeed. In the source, a throw there would reject `logout` before any state is cleared.
