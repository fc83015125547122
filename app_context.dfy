/** The commerce state manager: the state the app's context hook owns and the operations it
    exposes (contexts/AppContext.tsx), together with the two persisted keys it reads and writes. */
module AppContext {
  import opened Types
  import opened Wrappers
  import Cart
  import Wishlist
  import Catalog
  import Seqs

  /** Startup restores a session exactly when a user record is stored and the stored token is a
      non-empty string (the truthiness test `userData && token`). */
  predicate Restorable(storedUser: Option<User>, storedToken: Option<string>)
  {
    storedUser.Some? && storedToken.Some? && storedToken.value != ""
  }

  class AppState {
    var user: Option<User>
    var isAuthenticated: bool
    var cart: seq<CartItem>
    var wishlist: seq<WishlistItem>
    /** The react-query cache for the catalog; `None` until the query has data. */
    var productCache: Option<seq<Product>>
    /** The persisted `user` key. */
    var storedUser: Option<User>
    /** The persisted `authToken` key. */
    var storedToken: Option<string>

    /** A user is present exactly when the session is authenticated, and an authenticated session
        is backed by the persisted user record and a persisted token. */
    ghost predicate Valid()
      reads this
    {
      (isAuthenticated <==> user.Some?)
      && (isAuthenticated ==> storedUser == user && storedToken.Some?)
    }

    /** A fresh mount: empty in-memory state over whatever the persistent store holds. */
    constructor (storedUser: Option<User>, storedToken: Option<string>)
      ensures Valid()
      ensures user == None && !isAuthenticated && cart == [] && wishlist == [] && productCache == None
      ensures this.storedUser == storedUser && this.storedToken == storedToken
    {
      user := None;
      isAuthenticated := false;
      cart := [];
      wishlist := [];
      productCache := None;
      this.storedUser := storedUser;
      this.storedToken := storedToken;
    }

    /** The startup effect `loadUserData`: restore the stored user when both keys are present. */
    method LoadUserData()
      requires Valid()
      modifies this`user, this`isAuthenticated
      ensures Valid()
      ensures Restorable(storedUser, storedToken) ==> user == storedUser && isAuthenticated
      ensures !Restorable(storedUser, storedToken) ==> user == old(user) && isAuthenticated == old(isAuthenticated)
    {
      if storedUser.Some? && storedToken.Some? && storedToken.value != "" {
        user := storedUser;
        isAuthenticated := true;
      }
    }

    /** The catalog query settling with data. */
    method ReceiveProducts(products: seq<Product>)
      modifies this`productCache
      ensures productCache == Some(products)
    {
      productCache := Some(products);
    }

    /** `login`. `result` is what the remote login call reported (on success the HTTP layer has
        already stored the token); `remoteCart` and `remoteWishlist` are the remote fetches, `None`
        when the fetch threw. A throw rejects the returned promise after the updates made so far. */
    method Login(result: AuthResult, remoteCart: Option<seq<CartItem>>, remoteWishlist: Option<seq<WishlistItem>>)
      returns (outcome: Settled<AuthResult>)
      requires Valid()
      modifies this`user, this`isAuthenticated, this`cart, this`wishlist, this`storedUser, this`storedToken
      ensures Valid()
      ensures result.AuthFailed? ==> unchanged(this) && outcome == Resolved(result)
      ensures result.AuthOk? ==> storedToken == Some(result.token)
      ensures result.AuthOk? && result.user.None? ==>
        outcome == Resolved(result)
        && user == old(user) && isAuthenticated == old(isAuthenticated) && storedUser == old(storedUser)
        && cart == old(cart) && wishlist == old(wishlist)
      ensures result.AuthOk? && result.user.Some? ==>
        && user == result.user && isAuthenticated && storedUser == result.user
        && cart == (if remoteCart.Some? then remoteCart.value else old(cart))
        && wishlist == (if remoteCart.Some? && remoteWishlist.Some? then remoteWishlist.value else old(wishlist))
        && outcome == (if remoteCart.Some? && remoteWishlist.Some? then Resolved(result) else Rejected)
    {
      outcome := Resolved(result);
      if result.AuthOk? {
        storedToken := Some(result.token);
        if result.user.Some? {
          user := result.user;
          isAuthenticated := true;
          storedUser := result.user;
          if remoteCart.None? {
            outcome := Rejected;
            return;
          }
          cart := remoteCart.value;
          if remoteWishlist.None? {
            outcome := Rejected;
            return;
          }
          wishlist := remoteWishlist.value;
        }
      }
    }

    /** `signup`: like `login`, without refreshing the cart or the wishlist. */
    method Signup(result: AuthResult) returns (outcome: AuthResult)
      requires Valid()
      modifies this`user, this`isAuthenticated, this`storedUser, this`storedToken
      ensures Valid()
      ensures outcome == result
      ensures result.AuthFailed? ==> unchanged(this)
      ensures result.AuthOk? ==> storedToken == Some(result.token)
      ensures result.AuthOk? && result.user.None? ==>
        user == old(user) && isAuthenticated == old(isAuthenticated) && storedUser == old(storedUser)
      ensures result.AuthOk? && result.user.Some? ==>
        user == result.user && isAuthenticated && storedUser == result.user
    {
      outcome := result;
      if result.AuthOk? {
        storedToken := Some(result.token);
        if result.user.Some? {
          user := result.user;
          isAuthenticated := true;
          storedUser := result.user;
        }
      }
    }

    /** `logout`: whatever the prior state, no user, not authenticated, empty cart and wishlist,
        and both persisted keys erased. The catalog cache is kept. */
    method Logout()
      requires Valid()
      modifies this`user, this`isAuthenticated, this`cart, this`wishlist, this`storedUser, this`storedToken
      ensures Valid()
      ensures user == None && !isAuthenticated && cart == [] && wishlist == []
      ensures storedUser == None && storedToken == None
      ensures Cart.CartTotal(cart) == 0 && Cart.CartItemCount(cart) == 0
      ensures forall productId :: !Wishlist.InWishlist(wishlist, productId)
    {
      storedToken := None;
      user := None;
      isAuthenticated := false;
      cart := [];
      wishlist := [];
      storedUser := None;
    }

    /** `addToCart`. Signed in: the cart becomes the remote cart fetched after the remote add, or
        stays as it was when either call threw. Guest: the local merge-or-append update, with
        `freshId` standing for the line id the source takes from the clock. */
    method AddToCart(product: Product, quantity: int, freshId: int, remoteCart: Option<seq<CartItem>>)
      requires Valid()
      modifies this`cart
      ensures Valid()
      ensures isAuthenticated ==> cart == (if remoteCart.Some? then remoteCart.value else old(cart))
      ensures !isAuthenticated ==> cart == Cart.AddToGuestCart(old(cart), product, quantity, freshId)
      ensures !isAuthenticated && Cart.WellFormed(old(cart)) && quantity >= 1 && !Cart.HasLine(old(cart), freshId)
        ==> Cart.WellFormed(cart)
    {
      if isAuthenticated {
        if remoteCart.Some? {
          cart := remoteCart.value;
        }
      } else {
        if Cart.WellFormed(cart) && quantity >= 1 && !Cart.HasLine(cart, freshId) {
          Cart.AddToGuestCartPreservesWellFormed(cart, product, quantity, freshId);
        }
        cart := Cart.AddToGuestCart(cart, product, quantity, freshId);
      }
    }

    /** `removeFromCart`, local in both modes. */
    method RemoveFromCart(lineId: int)
      modifies this`cart
      ensures cart == Cart.RemoveLine(old(cart), lineId)
      ensures Cart.WellFormed(old(cart)) ==> Cart.WellFormed(cart)
    {
      if Cart.WellFormed(cart) {
        Cart.RemoveLinePreservesWellFormed(cart, lineId);
      }
      cart := Cart.RemoveLine(cart, lineId);
    }

    /** `updateCartQuantity`, local in both modes. */
    method UpdateCartQuantity(lineId: int, quantity: int)
      modifies this`cart
      ensures cart == Cart.UpdateQuantity(old(cart), lineId, quantity)
      ensures Cart.WellFormed(old(cart)) ==> Cart.WellFormed(cart)
    {
      if Cart.WellFormed(cart) {
        Cart.UpdateQuantityPreservesWellFormed(cart, lineId, quantity);
      }
      cart := Cart.UpdateQuantity(cart, lineId, quantity);
    }

    /** `clearCart`. */
    method ClearCart()
      modifies this`cart
      ensures cart == [] && Cart.CartTotal(cart) == 0 && Cart.CartItemCount(cart) == 0
    {
      cart := [];
    }

    /** `addToWishlist`. Signed in: the wishlist becomes the remote wishlist fetched after the
        remote add, or stays as it was when either call threw. Guest: add-if-absent, owned by
        `user?.id || 0`, which is 0 for every guest. */
    method AddToWishlist(product: Product, freshId: int, remoteWishlist: Option<seq<WishlistItem>>)
      requires Valid()
      modifies this`wishlist
      ensures Valid()
      ensures isAuthenticated ==> wishlist == (if remoteWishlist.Some? then remoteWishlist.value else old(wishlist))
      ensures !isAuthenticated ==> wishlist == Wishlist.AddToGuestWishlist(old(wishlist), product, freshId, 0)
      ensures !isAuthenticated ==> Wishlist.InWishlist(wishlist, product.id)
      ensures !isAuthenticated && Seqs.Pairwise(old(wishlist), Wishlist.DistinctProducts)
        ==> Seqs.Pairwise(wishlist, Wishlist.DistinctProducts)
      ensures !isAuthenticated && Wishlist.WellFormed(old(wishlist)) && !Wishlist.HasEntry(old(wishlist), freshId)
        ==> Wishlist.WellFormed(wishlist)
    {
      if isAuthenticated {
        if remoteWishlist.Some? {
          wishlist := remoteWishlist.value;
        }
      } else {
        Wishlist.AddToGuestWishlistSpec(wishlist, product, freshId, Wishlist.OwnerId(user), freshId);
        if Seqs.Pairwise(wishlist, Wishlist.DistinctProducts) {
          Wishlist.AddToGuestWishlistKeepsProductsUnique(wishlist, product, freshId, Wishlist.OwnerId(user));
        }
        if Wishlist.WellFormed(wishlist) && !Wishlist.HasEntry(wishlist, freshId) {
          Wishlist.AddToGuestWishlistPreservesWellFormed(wishlist, product, freshId, Wishlist.OwnerId(user));
        }
        wishlist := Wishlist.AddToGuestWishlist(wishlist, product, freshId, Wishlist.OwnerId(user));
      }
    }

    /** `removeFromWishlist`, local in both modes. */
    method RemoveFromWishlist(entryId: int)
      modifies this`wishlist
      ensures wishlist == Wishlist.RemoveEntry(old(wishlist), entryId)
      ensures !Wishlist.HasEntry(wishlist, entryId)
      ensures Wishlist.WellFormed(old(wishlist)) ==> Wishlist.WellFormed(wishlist)
    {
      Wishlist.RemoveEntrySpec(wishlist, entryId);
      if Wishlist.WellFormed(wishlist) {
        Wishlist.RemoveEntryKeepsWellFormed(wishlist, entryId);
      }
      wishlist := Wishlist.RemoveEntry(wishlist, entryId);
    }

    /** `likeProduct`: local only; an unloaded cache stays unloaded. */
    method LikeProduct(productId: int)
      modifies this`productCache
      ensures productCache == Catalog.LikeInCache(old(productCache), productId)
    {
      productCache := Catalog.LikeInCache(productCache, productId);
    }
  }

  /** Mounting the provider: a fresh state, then the startup effect. The session is authenticated
      exactly when the store can restore one, and the cart and wishlist start empty either way. */
  method Startup(storedUser: Option<User>, storedToken: Option<string>) returns (app: AppState)
    ensures fresh(app) && app.Valid()
    ensures app.isAuthenticated <==> Restorable(storedUser, storedToken)
    ensures app.user == (if Restorable(storedUser, storedToken) then storedUser else None)
    ensures app.cart == [] && app.wishlist == []
  {
    app := new AppState(storedUser, storedToken);
    app.LoadUserData();
  }
}
