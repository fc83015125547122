/** The cart transforms and aggregates of the commerce state manager (contexts/AppContext.tsx). */
module Cart {
  import opened Types
  import opened Wrappers
  import opened Seqs

  /** Some line holds the product with this id. */
  predicate HasProduct(cart: seq<CartItem>, productId: int)
  {
    exists i :: 0 <= i < |cart| && cart[i].product.id == productId
  }

  /** Some line has this line id. */
  predicate HasLine(cart: seq<CartItem>, lineId: int)
  {
    exists i :: 0 <= i < |cart| && cart[i].id == lineId
  }

  /** `cart.find(item => item.product.id === productId)`, as the index of the first matching line. */
  function FindProduct(cart: seq<CartItem>, productId: int): (r: Option<nat>)
    ensures r.Some? ==> r.value < |cart| && cart[r.value].product.id == productId
    ensures r.Some? ==> forall j :: 0 <= j < r.value ==> cart[j].product.id != productId
    ensures r.None? <==> !HasProduct(cart, productId)
  {
    if cart == [] then None
    else if cart[0].product.id == productId then Some(0)
    else
      match FindProduct(cart[1..], productId)
      case None =>
        assert forall i :: 1 <= i < |cart| ==> cart[i] == cart[1..][i - 1];
        None
      case Some(k) => Some(k + 1)
  }

  predicate DistinctProducts(a: CartItem, b: CartItem)
  {
    a.product.id != b.product.id
  }

  predicate DistinctLineIds(a: CartItem, b: CartItem)
  {
    a.id != b.id
  }

  ghost predicate UniqueProducts(cart: seq<CartItem>)
  {
    Pairwise(cart, DistinctProducts)
  }

  ghost predicate UniqueLineIds(cart: seq<CartItem>)
  {
    Pairwise(cart, DistinctLineIds)
  }

  ghost predicate PositiveQuantities(cart: seq<CartItem>)
  {
    forall i :: 0 <= i < |cart| ==> cart[i].quantity >= 1
  }

  /** The cart invariants: one line per product, distinct line ids, every quantity at least 1. */
  ghost predicate WellFormed(cart: seq<CartItem>)
  {
    UniqueProducts(cart) && UniqueLineIds(cart) && PositiveQuantities(cart)
  }

  /** The guest-mode `addToCart` updater: merge into the product's line(s), or append a new line. */
  function AddToGuestCart(cart: seq<CartItem>, product: Product, quantity: int, freshId: int): seq<CartItem>
  {
    match FindProduct(cart, product.id)
    case Some(_) =>
      seq(|cart|, i requires 0 <= i < |cart| =>
        if cart[i].product.id == product.id then cart[i].(quantity := cart[i].quantity + quantity) else cart[i])
    case None => cart + [CartItem(freshId, product, quantity, false)]
  }

  /** The `removeFromCart` updater: drop every line with this id. */
  function RemoveLine(cart: seq<CartItem>, lineId: int): seq<CartItem>
  {
    Filter(cart, (item: CartItem) => item.id != lineId)
  }

  /** The `map` half of `updateCartQuantity`: give every line with this id the new quantity. */
  function SetLineQuantity(cart: seq<CartItem>, lineId: int, quantity: int): seq<CartItem>
  {
    seq(|cart|, i requires 0 <= i < |cart| =>
      if cart[i].id == lineId then cart[i].(quantity := quantity) else cart[i])
  }

  /** The `updateCartQuantity` updater. */
  function UpdateQuantity(cart: seq<CartItem>, lineId: int, quantity: int): seq<CartItem>
  {
    if quantity <= 0 then RemoveLine(cart, lineId) else SetLineQuantity(cart, lineId, quantity)
  }

  function LineSubtotal(item: CartItem): int
  {
    item.product.price * item.quantity
  }

  /** The sum over the lines of price times quantity. */
  function Total(cart: seq<CartItem>): int
  {
    if cart == [] then 0 else LineSubtotal(cart[0]) + Total(cart[1..])
  }

  /** The sum over the lines of their quantities. */
  function ItemCount(cart: seq<CartItem>): int
  {
    if cart == [] then 0 else cart[0].quantity + ItemCount(cart[1..])
  }

  /** The left fold `cart.reduce((total, item) => total + price * quantity, acc)`. */
  function FoldTotal(cart: seq<CartItem>, acc: int): (r: int)
    ensures r == acc + Total(cart)
  {
    if cart == [] then acc else FoldTotal(cart[1..], acc + LineSubtotal(cart[0]))
  }

  /** The left fold `cart.reduce((count, item) => count + quantity, acc)`. */
  function FoldCount(cart: seq<CartItem>, acc: int): (r: int)
    ensures r == acc + ItemCount(cart)
  {
    if cart == [] then acc else FoldCount(cart[1..], acc + cart[0].quantity)
  }

  /** `cartTotal`. */
  function CartTotal(cart: seq<CartItem>): (r: int)
    ensures r == Total(cart)
  {
    FoldTotal(cart, 0)
  }

  /** `cartItemCount`. */
  function CartItemCount(cart: seq<CartItem>): (r: int)
    ensures r == ItemCount(cart)
  {
    FoldCount(cart, 0)
  }

  // ---------------------------------------------------------------- sums

  lemma {:induction false} TotalsAppend(a: seq<CartItem>, b: seq<CartItem>)
    ensures Total(a + b) == Total(a) + Total(b)
    ensures ItemCount(a + b) == ItemCount(a) + ItemCount(b)
  {
    if a != [] {
      TotalsAppend(a[1..], b);
      assert (a + b)[0] == a[0] && (a + b)[1..] == a[1..] + b;
    } else {
      assert a + b == b;
    }
  }

  /** Replacing one line changes the sums by the difference between the new and the old line. */
  lemma {:induction false} TotalsUpdate(cart: seq<CartItem>, k: nat, item: CartItem)
    requires k < |cart|
    ensures Total(cart[k := item]) == Total(cart) - LineSubtotal(cart[k]) + LineSubtotal(item)
    ensures ItemCount(cart[k := item]) == ItemCount(cart) - cart[k].quantity + item.quantity
  {
    if k == 0 {
      assert cart[k := item][1..] == cart[1..];
    } else {
      TotalsUpdate(cart[1..], k - 1, item);
      assert cart[k := item][1..] == cart[1..][k - 1 := item];
    }
  }

  // ---------------------------------------------------------------- guest add

  /** Guest add: a product already in a well-formed cart gets `quantity` more units on its line and
      nothing else changes; a product not in the cart gets exactly one new line, appended. */
  lemma AddToGuestCartEffect(cart: seq<CartItem>, product: Product, quantity: int, freshId: int)
    requires UniqueProducts(cart)
    ensures match FindProduct(cart, product.id)
      case Some(k) => AddToGuestCart(cart, product, quantity, freshId) == cart[k := cart[k].(quantity := cart[k].quantity + quantity)]
      case None => AddToGuestCart(cart, product, quantity, freshId) == cart + [CartItem(freshId, product, quantity, false)]
  {
    match FindProduct(cart, product.id)
    case Some(k) =>
      var r := AddToGuestCart(cart, product, quantity, freshId);
      forall i | 0 <= i < |cart| && i != k ensures cart[i].product.id != product.id {
        if i < k {
          assert DistinctProducts(cart[i], cart[k]);
        } else {
          assert DistinctProducts(cart[k], cart[i]);
        }
      }
      assert r == cart[k := cart[k].(quantity := cart[k].quantity + quantity)];
    case None =>
  }

  /** In a cart with one line per product, `find` locates the product's only line. */
  lemma FindInUniqueCart(cart: seq<CartItem>, k: nat)
    requires UniqueProducts(cart) && k < |cart|
    ensures FindProduct(cart, cart[k].product.id) == Some(k)
  {
    forall j | 0 <= j < k ensures cart[j].product.id != cart[k].product.id {
      assert DistinctProducts(cart[j], cart[k]);
    }
  }

  /** Guest add never creates a second line for a product, whatever the quantity or id. */
  lemma AddToGuestCartKeepsProductsUnique(cart: seq<CartItem>, product: Product, quantity: int, freshId: int)
    requires UniqueProducts(cart)
    ensures UniqueProducts(AddToGuestCart(cart, product, quantity, freshId))
  {
    var r := AddToGuestCart(cart, product, quantity, freshId);
    AddToGuestCartEffect(cart, product, quantity, freshId);
    assert forall i :: 0 <= i < |cart| ==> r[i].product.id == cart[i].product.id;
  }

  /** With a positive quantity and an unused id, guest add keeps every cart invariant. */
  lemma AddToGuestCartPreservesWellFormed(cart: seq<CartItem>, product: Product, quantity: int, freshId: int)
    requires WellFormed(cart)
    requires quantity >= 1
    requires !HasLine(cart, freshId)
    ensures WellFormed(AddToGuestCart(cart, product, quantity, freshId))
  {
    var r := AddToGuestCart(cart, product, quantity, freshId);
    AddToGuestCartKeepsProductsUnique(cart, product, quantity, freshId);
    AddToGuestCartEffect(cart, product, quantity, freshId);
    assert forall i :: 0 <= i < |cart| ==> r[i].id == cart[i].id;
    assert forall i :: 0 <= i < |cart| ==> r[i].quantity >= cart[i].quantity;
  }

  /** Guest add raises the unit count by `quantity`, and the total by `quantity` times the price
      held on the line that received the units. */
  lemma AddToGuestCartTotals(cart: seq<CartItem>, product: Product, quantity: int, freshId: int)
    requires UniqueProducts(cart)
    ensures ItemCount(AddToGuestCart(cart, product, quantity, freshId)) == ItemCount(cart) + quantity
    ensures Total(AddToGuestCart(cart, product, quantity, freshId)) == Total(cart) + quantity *
      (match FindProduct(cart, product.id) case Some(k) => cart[k].product.price case None => product.price)
  {
    AddToGuestCartEffect(cart, product, quantity, freshId);
    match FindProduct(cart, product.id)
    case Some(k) =>
      var item := cart[k].(quantity := cart[k].quantity + quantity);
      TotalsUpdate(cart, k, item);
      MoreUnits(cart[k].product.price, cart[k].quantity, quantity);
    case None =>
      var line := CartItem(freshId, product, quantity, false);
      TotalsAppend(cart, [line]);
      assert Total([line]) == LineSubtotal(line);
  }

  lemma MoreUnits(price: int, held: int, added: int)
    ensures price * (held + added) == price * held + added * price
  {
  }

  function Sum(xs: seq<int>): int
  {
    if xs == [] then 0 else xs[0] + Sum(xs[1..])
  }

  /** A run of guest adds of one product, each with its own quantity and fresh id. */
  function AddRepeatedly(cart: seq<CartItem>, product: Product, quantities: seq<int>, ids: seq<int>): seq<CartItem>
    requires |ids| == |quantities|
    decreases |quantities|
  {
    if quantities == [] then cart
    else AddRepeatedly(AddToGuestCart(cart, product, quantities[0], ids[0]), product, quantities[1..], ids[1..])
  }

  lemma {:induction false} AddRepeatedlyToLine(cart: seq<CartItem>, product: Product, quantities: seq<int>, ids: seq<int>, k: nat)
    requires |ids| == |quantities|
    requires UniqueProducts(cart)
    requires k < |cart| && cart[k].product.id == product.id
    ensures AddRepeatedly(cart, product, quantities, ids) == cart[k := cart[k].(quantity := cart[k].quantity + Sum(quantities))]
    decreases |quantities|
  {
    if quantities != [] {
      var q, rest := quantities[0], quantities[1..];
      var next := AddToGuestCart(cart, product, q, ids[0]);
      FindInUniqueCart(cart, k);
      AddToGuestCartEffect(cart, product, q, ids[0]);
      assert next == cart[k := cart[k].(quantity := cart[k].quantity + q)];
      AddToGuestCartKeepsProductsUnique(cart, product, q, ids[0]);
      AddRepeatedlyToLine(next, product, rest, ids[1..], k);
      assert AddRepeatedly(cart, product, quantities, ids) == AddRepeatedly(next, product, rest, ids[1..]);
      assert Sum(quantities) == q + Sum(rest);
    }
  }

  /** n guest adds of a product not yet in the cart, with quantities q1..qn, leave exactly one line
      for it: appended after the old lines, holding the first add's id and quantity q1 + ... + qn. */
  lemma AddRepeatedlyMerges(cart: seq<CartItem>, product: Product, quantities: seq<int>, ids: seq<int>)
    requires |ids| == |quantities| && |quantities| >= 1
    requires UniqueProducts(cart) && !HasProduct(cart, product.id)
    ensures var r := AddRepeatedly(cart, product, quantities, ids);
      && |r| == |cart| + 1
      && r[..|cart|] == cart
      && r[|cart|] == CartItem(ids[0], product, Sum(quantities), false)
      && forall i :: 0 <= i < |r| && r[i].product.id == product.id ==> i == |cart|
  {
    var first := AddToGuestCart(cart, product, quantities[0], ids[0]);
    AddToGuestCartEffect(cart, product, quantities[0], ids[0]);
    AddToGuestCartKeepsProductsUnique(cart, product, quantities[0], ids[0]);
    AddRepeatedlyToLine(first, product, quantities[1..], ids[1..], |cart|);
    var r := AddRepeatedly(cart, product, quantities, ids);
    assert r == first[|cart| := first[|cart|].(quantity := quantities[0] + Sum(quantities[1..]))];
    assert forall i :: 0 <= i < |cart| ==> r[i] == cart[i];
  }

  // ---------------------------------------------------------------- removal and update

  /** `removeFromCart(id)`: no line with that id remains, every other line stays with all its
      occurrences and in its original order, and an absent id changes nothing. */
  lemma RemoveLineSpec(cart: seq<CartItem>, lineId: int)
    ensures !HasLine(RemoveLine(cart, lineId), lineId)
    ensures forall i :: 0 <= i < |cart| && cart[i].id != lineId ==> cart[i] in RemoveLine(cart, lineId)
    ensures IsSubsequence(RemoveLine(cart, lineId), cart)
    ensures forall item :: multiset(RemoveLine(cart, lineId))[item] == if item.id != lineId then multiset(cart)[item] else 0
    ensures !HasLine(cart, lineId) ==> RemoveLine(cart, lineId) == cart
  {
    var keep := (item: CartItem) => item.id != lineId;
    FilterIsSubsequence(cart, keep);
    forall item ensures multiset(RemoveLine(cart, lineId))[item] == if item.id != lineId then multiset(cart)[item] else 0 {
      FilterMultiplicity(cart, keep, item);
    }
    if !HasLine(cart, lineId) {
      FilterKeepsAll(cart, keep);
    }
  }

  /** Removal keeps every cart invariant. */
  lemma RemoveLinePreservesWellFormed(cart: seq<CartItem>, lineId: int)
    requires WellFormed(cart)
    ensures WellFormed(RemoveLine(cart, lineId))
  {
    var keep := (item: CartItem) => item.id != lineId;
    FilterPreservesPairwise(cart, keep, DistinctProducts);
    FilterPreservesPairwise(cart, keep, DistinctLineIds);
  }

  /** Adding a product that is not in the cart under an unused id and then removing that id
      restores the cart. */
  lemma RemoveLineUndoesAdd(cart: seq<CartItem>, product: Product, quantity: int, freshId: int)
    requires !HasProduct(cart, product.id) && !HasLine(cart, freshId)
    ensures RemoveLine(AddToGuestCart(cart, product, quantity, freshId), freshId) == cart
  {
    var line := CartItem(freshId, product, quantity, false);
    var keep := (item: CartItem) => item.id != freshId;
    assert AddToGuestCart(cart, product, quantity, freshId) == cart + [line];
    FilterKeepsAll(cart, keep);
    FilterAppend(cart, [line], keep);
    assert Filter([line], keep) == [];
  }

  /** `updateCartQuantity(id, q)`: with q <= 0 exactly `removeFromCart(id)`; with q > 0, in a cart
      with distinct line ids, the line with that id gets quantity q and nothing else changes. */
  lemma UpdateQuantitySpec(cart: seq<CartItem>, lineId: int, quantity: int)
    ensures quantity <= 0 ==> UpdateQuantity(cart, lineId, quantity) == RemoveLine(cart, lineId)
    ensures quantity > 0 && UniqueLineIds(cart) ==> forall k :: 0 <= k < |cart| && cart[k].id == lineId ==>
      UpdateQuantity(cart, lineId, quantity) == cart[k := cart[k].(quantity := quantity)]
    ensures quantity > 0 && !HasLine(cart, lineId) ==> UpdateQuantity(cart, lineId, quantity) == cart
  {
    if quantity > 0 && UniqueLineIds(cart) {
      var r := UpdateQuantity(cart, lineId, quantity);
      forall k | 0 <= k < |cart| && cart[k].id == lineId ensures r == cart[k := cart[k].(quantity := quantity)] {
        forall i | 0 <= i < |cart| && i != k ensures cart[i].id != lineId {
          if i < k {
            assert DistinctLineIds(cart[i], cart[k]);
          } else {
            assert DistinctLineIds(cart[k], cart[i]);
          }
        }
      }
    }
  }

  /** Whatever quantity is asked for, updating keeps every cart invariant: a non-positive
      quantity removes the line instead of storing it. */
  lemma UpdateQuantityPreservesWellFormed(cart: seq<CartItem>, lineId: int, quantity: int)
    requires WellFormed(cart)
    ensures WellFormed(UpdateQuantity(cart, lineId, quantity))
  {
    if quantity <= 0 {
      RemoveLinePreservesWellFormed(cart, lineId);
    } else {
      var r := SetLineQuantity(cart, lineId, quantity);
      assert forall i :: 0 <= i < |cart| ==> r[i].id == cart[i].id && r[i].product == cart[i].product;
    }
  }

  // ---------------------------------------------------------------- scenarios

  /** Two products, 2 units of the first at 45000 and 1 of the second at 35000, into an empty cart. */
  lemma TwoProductScenario(a: Product, b: Product, id1: int, id2: int)
    requires a.price == 45000 && b.price == 35000 && a.id != b.id
    ensures var cart := AddToGuestCart(AddToGuestCart([], a, 2, id1), b, 1, id2);
      CartTotal(cart) == 125000 && CartItemCount(cart) == 3
  {
    var one := AddToGuestCart([], a, 2, id1);
    AddToGuestCartTotals([], a, 2, id1);
    AddToGuestCartKeepsProductsUnique([], a, 2, id1);
    assert one == [CartItem(id1, a, 2, false)];
    AddToGuestCartTotals(one, b, 1, id2);
  }

  /** Adding one product twice (1 unit, then 2) merges into a single line of 3 units. */
  lemma MergeScenario(a: Product, id1: int, id2: int)
    requires a.price == 45000
    ensures var cart := AddToGuestCart(AddToGuestCart([], a, 1, id1), a, 2, id2);
      cart == [CartItem(id1, a, 3, false)] && CartTotal(cart) == 135000 && CartItemCount(cart) == 3
  {
    var one := AddToGuestCart([], a, 1, id1);
    assert one == [CartItem(id1, a, 1, false)];
    AddToGuestCartEffect(one, a, 2, id2);
  }
}
