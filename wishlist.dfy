/** The wishlist transforms of the commerce state manager (contexts/AppContext.tsx). */
module Wishlist {
  import opened Types
  import opened Wrappers
  import opened Seqs

  /** `isInWishlist(productId)`: `wishlist.some(item => item.product.id === productId)`. */
  predicate InWishlist(wishlist: seq<WishlistItem>, productId: int)
  {
    exists i :: 0 <= i < |wishlist| && wishlist[i].product.id == productId
  }

  /** Some entry has this entry id. */
  predicate HasEntry(wishlist: seq<WishlistItem>, entryId: int)
  {
    exists i :: 0 <= i < |wishlist| && wishlist[i].id == entryId
  }

  predicate DistinctProducts(a: WishlistItem, b: WishlistItem)
  {
    a.product.id != b.product.id
  }

  predicate DistinctEntryIds(a: WishlistItem, b: WishlistItem)
  {
    a.id != b.id
  }

  /** The wishlist invariants: one entry per product and distinct entry ids. */
  ghost predicate WellFormed(wishlist: seq<WishlistItem>)
  {
    Pairwise(wishlist, DistinctProducts) && Pairwise(wishlist, DistinctEntryIds)
  }

  /** `user?.id || 0`: the signed-in user's id, or 0 for a guest. */
  function OwnerId(user: Option<User>): int
  {
    match user
    case None => 0
    case Some(u) => u.id
  }

  /** The guest-mode `addToWishlist` updater: append an entry unless the product is already there. */
  function AddToGuestWishlist(wishlist: seq<WishlistItem>, product: Product, freshId: int, owner: int): seq<WishlistItem>
  {
    if !InWishlist(wishlist, product.id) then wishlist + [WishlistItem(freshId, product, owner)] else wishlist
  }

  /** The `removeFromWishlist` updater: drop every entry with this id. */
  function RemoveEntry(wishlist: seq<WishlistItem>, entryId: int): seq<WishlistItem>
  {
    Filter(wishlist, (item: WishlistItem) => item.id != entryId)
  }

  /** Guest add: afterwards the product is in the wishlist; an absent product gets exactly one
      appended entry, a present one leaves the wishlist unchanged; and a second add of the same
      product, under any id, changes nothing. */
  lemma AddToGuestWishlistSpec(wishlist: seq<WishlistItem>, product: Product, freshId: int, owner: int, laterId: int)
    ensures InWishlist(AddToGuestWishlist(wishlist, product, freshId, owner), product.id)
    ensures InWishlist(wishlist, product.id) ==> AddToGuestWishlist(wishlist, product, freshId, owner) == wishlist
    ensures !InWishlist(wishlist, product.id) ==>
      AddToGuestWishlist(wishlist, product, freshId, owner) == wishlist + [WishlistItem(freshId, product, owner)]
    ensures var once := AddToGuestWishlist(wishlist, product, freshId, owner);
      AddToGuestWishlist(once, product, laterId, owner) == once
  {
    var once := AddToGuestWishlist(wishlist, product, freshId, owner);
    if !InWishlist(wishlist, product.id) {
      assert once[|wishlist|].product.id == product.id;
    }
  }

  /** Guest add never creates a second entry for a product, whatever the id. */
  lemma AddToGuestWishlistKeepsProductsUnique(wishlist: seq<WishlistItem>, product: Product, freshId: int, owner: int)
    requires Pairwise(wishlist, DistinctProducts)
    ensures Pairwise(AddToGuestWishlist(wishlist, product, freshId, owner), DistinctProducts)
  {
    var r := AddToGuestWishlist(wishlist, product, freshId, owner);
    if !InWishlist(wishlist, product.id) {
      forall i, j | 0 <= i < j < |r| ensures DistinctProducts(r[i], r[j]) {
        if j < |wishlist| {
          assert r[i] == wishlist[i] && r[j] == wishlist[j];
        } else {
          assert r[i] == wishlist[i];
        }
      }
    }
  }

  /** Guest add keeps the wishlist invariants when the new entry's id is unused. */
  lemma AddToGuestWishlistPreservesWellFormed(wishlist: seq<WishlistItem>, product: Product, freshId: int, owner: int)
    requires WellFormed(wishlist)
    requires !HasEntry(wishlist, freshId)
    ensures WellFormed(AddToGuestWishlist(wishlist, product, freshId, owner))
  {
    var r := AddToGuestWishlist(wishlist, product, freshId, owner);
    if !InWishlist(wishlist, product.id) {
      forall i, j | 0 <= i < j < |r| ensures DistinctProducts(r[i], r[j]) && DistinctEntryIds(r[i], r[j]) {
        if j < |wishlist| {
          assert r[i] == wishlist[i] && r[j] == wishlist[j];
        } else {
          assert r[i] == wishlist[i];
        }
      }
    }
  }

  /** `removeFromWishlist(id)`: no entry with that id remains, every other entry stays with all its
      occurrences and in its original order, and an absent id changes nothing. */
  lemma RemoveEntrySpec(wishlist: seq<WishlistItem>, entryId: int)
    ensures !HasEntry(RemoveEntry(wishlist, entryId), entryId)
    ensures forall i :: 0 <= i < |wishlist| && wishlist[i].id != entryId ==> wishlist[i] in RemoveEntry(wishlist, entryId)
    ensures IsSubsequence(RemoveEntry(wishlist, entryId), wishlist)
    ensures forall item :: multiset(RemoveEntry(wishlist, entryId))[item] == (if item.id != entryId then multiset(wishlist)[item] else 0)
    ensures !HasEntry(wishlist, entryId) ==> RemoveEntry(wishlist, entryId) == wishlist
  {
    var keep := (item: WishlistItem) => item.id != entryId;
    FilterIsSubsequence(wishlist, keep);
    forall item ensures multiset(RemoveEntry(wishlist, entryId))[item] == (if item.id != entryId then multiset(wishlist)[item] else 0) {
      FilterMultiplicity(wishlist, keep, item);
    }
    if !HasEntry(wishlist, entryId) {
      FilterKeepsAll(wishlist, keep);
    }
  }

  /** Removal keeps the wishlist invariants, and in a well-formed wishlist removing an entry takes
      its product out of the wishlist. */
  lemma RemoveEntryPreservesWellFormed(wishlist: seq<WishlistItem>, k: nat)
    requires WellFormed(wishlist) && k < |wishlist|
    ensures WellFormed(RemoveEntry(wishlist, wishlist[k].id))
    ensures !InWishlist(RemoveEntry(wishlist, wishlist[k].id), wishlist[k].product.id)
  {
    var entryId := wishlist[k].id;
    var keep := (item: WishlistItem) => item.id != entryId;
    FilterPreservesPairwise(wishlist, keep, DistinctProducts);
    FilterPreservesPairwise(wishlist, keep, DistinctEntryIds);
    var r := RemoveEntry(wishlist, entryId);
    forall i | 0 <= i < |r| ensures r[i].product.id != wishlist[k].product.id {
      var j :| 0 <= j < |wishlist| && wishlist[j] == r[i];
      if j < k {
        assert DistinctProducts(wishlist[j], wishlist[k]);
      } else if j > k {
        assert DistinctProducts(wishlist[k], wishlist[j]);
      }
    }
  }

  /** Removal by any id keeps the wishlist invariants. */
  lemma RemoveEntryKeepsWellFormed(wishlist: seq<WishlistItem>, entryId: int)
    requires WellFormed(wishlist)
    ensures WellFormed(RemoveEntry(wishlist, entryId))
  {
    var keep := (item: WishlistItem) => item.id != entryId;
    FilterPreservesPairwise(wishlist, keep, DistinctProducts);
    FilterPreservesPairwise(wishlist, keep, DistinctEntryIds);
  }

  /** Adding a product that is not wishlisted under an unused id, then removing that id, restores
      the wishlist. */
  lemma RemoveEntryUndoesAdd(wishlist: seq<WishlistItem>, product: Product, freshId: int, owner: int)
    requires !InWishlist(wishlist, product.id) && !HasEntry(wishlist, freshId)
    ensures RemoveEntry(AddToGuestWishlist(wishlist, product, freshId, owner), freshId) == wishlist
  {
    var entry := WishlistItem(freshId, product, owner);
    var keep := (item: WishlistItem) => item.id != freshId;
    FilterKeepsAll(wishlist, keep);
    FilterAppend(wishlist, [entry], keep);
    assert Filter([entry], keep) == [];
  }
}
