/** The cached product catalog and the local like counter (contexts/AppContext.tsx). */
module Catalog {
  import opened Types
  import opened Wrappers

  /** `productsQuery.data || []`: the catalog once loaded, empty before. */
  function ProductsOrEmpty(cache: Option<seq<Product>>): seq<Product>
  {
    match cache
    case None => []
    case Some(products) => products
  }

  /** The `likeProduct` map: one more like on every product with this id. */
  function LikeInCatalog(products: seq<Product>, productId: int): seq<Product>
  {
    seq(|products|, i requires 0 <= i < |products| =>
      if products[i].id == productId then products[i].(likes := products[i].likes + 1) else products[i])
  }

  /** The `likeProduct` updater on the cache: an unloaded cache stays unloaded. */
  function LikeInCache(cache: Option<seq<Product>>, productId: int): Option<seq<Product>>
  {
    match cache
    case None => None
    case Some(products) => Some(LikeInCatalog(products, productId))
  }

  /** The `products` list the context exposes after a like is the liked catalog; before the
      catalog is loaded it stays empty. */
  lemma LikeInExposedProducts(cache: Option<seq<Product>>, productId: int)
    ensures ProductsOrEmpty(LikeInCache(cache, productId)) == LikeInCatalog(ProductsOrEmpty(cache), productId)
    ensures cache.None? ==> ProductsOrEmpty(LikeInCache(cache, productId)) == []
  {
  }

  function TotalLikes(products: seq<Product>): int
  {
    if products == [] then 0 else products[0].likes + TotalLikes(products[1..])
  }

  function CountWithId(products: seq<Product>, productId: int): nat
  {
    if products == [] then 0 else (if products[0].id == productId then 1 else 0) + CountWithId(products[1..], productId)
  }

  /** A like gives every product with that id one more like and leaves every other product as it
      was, in the same order; it adds to the sum of likes exactly the number of products that carry
      the id (one in a catalog with distinct ids). */
  lemma {:induction false} LikeSpec(products: seq<Product>, productId: int)
    ensures |LikeInCatalog(products, productId)| == |products|
    ensures forall i :: 0 <= i < |products| ==>
      LikeInCatalog(products, productId)[i]
      == if products[i].id == productId then products[i].(likes := products[i].likes + 1) else products[i]
    ensures TotalLikes(LikeInCatalog(products, productId)) == TotalLikes(products) + CountWithId(products, productId)
  {
    if products != [] {
      LikeSpec(products[1..], productId);
      assert LikeInCatalog(products, productId)[1..] == LikeInCatalog(products[1..], productId);
    }
  }

  /** Liking a product that is absent from the catalog changes nothing. */
  lemma {:induction false} LikeAbsentIsNoOp(products: seq<Product>, productId: int)
    requires forall i :: 0 <= i < |products| ==> products[i].id != productId
    ensures LikeInCatalog(products, productId) == products
    ensures CountWithId(products, productId) == 0
  {
    if products != [] {
      LikeAbsentIsNoOp(products[1..], productId);
    }
  }
}
