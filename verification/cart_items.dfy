/** The local cart as a list of line items, and the list operations the
    unauthenticated branches of the cart service perform on it. */
module CartItems {
  import opened Wrappers

  /** A product or product-type identifier (a 128-bit GUID). */
  newtype Guid = x: int | 0 <= x < 0x1_0000_0000_0000_0000_0000_0000_0000_0000

  /** The identity of a line item: which product, in which variant. */
  datatype CartKey = CartKey(productId: Guid, productTypeId: Guid)

  /** One line item of the cart. Quantity is a mathematical integer. */
  datatype CartItem = CartItem(productId: Guid, productTypeId: Guid, quantity: int) {
    function Key(): CartKey {
      CartKey(productId, productTypeId)
    }
  }

  type Cart = seq<CartItem>

  /** The keys present in the cart. */
  function Keys(c: Cart): set<CartKey> {
    set i | 0 <= i < |c| :: c[i].Key()
  }

  /** No two entries share a key. */
  predicate Unique(c: Cart) {
    forall i, j :: 0 <= i < j < |c| ==> c[i].Key() != c[j].Key()
  }

  /** Entry `i` is the first one with key `k`: the one a linear search finds. */
  predicate IsFirst(c: Cart, k: CartKey, i: int) {
    && 0 <= i < |c|
    && c[i].Key() == k
    && forall j :: 0 <= j < i ==> c[j].Key() != k
  }

  /** Total quantity held under key `k`, over all entries carrying it. */
  function QuantityOf(c: Cart, k: CartKey): int {
    if |c| == 0 then 0
    else (if c[0].Key() == k then c[0].quantity else 0) + QuantityOf(c[1..], k)
  }

  /** Linear search for the first entry with key `k`. */
  function Find(c: Cart, k: CartKey): (r: Option<nat>)
    ensures r.Some? ==> IsFirst(c, k, r.value)
    ensures r.None? <==> k !in Keys(c)
  {
    if |c| == 0 then None
    else if c[0].Key() == k then
      assert c[0].Key() in Keys(c);
      Some(0)
    else
      assert Keys(c) == {c[0].Key()} + Keys(c[1..]) by {
        KeysCons(c);
      }
      match Find(c[1..], k)
      case None => None
      case Some(i) => Some(i + 1)
  }

  /** Add-or-merge: a new key is appended; an existing key has its first
      entry's quantity increased by the item's quantity. */
  function Add(c: Cart, item: CartItem): (r: Cart)
    ensures |r| == if item.Key() in Keys(c) then |c| else |c| + 1
    ensures forall j :: 0 <= j < |c| ==> r[j].Key() == c[j].Key()
    ensures forall j :: 0 <= j < |c| && !IsFirst(c, item.Key(), j) ==> r[j] == c[j]
    ensures forall j :: IsFirst(c, item.Key(), j) ==>
              r[j] == c[j].(quantity := c[j].quantity + item.quantity)
    ensures item.Key() !in Keys(c) ==> r[|c|] == item
    ensures Keys(r) == Keys(c) + {item.Key()}
  {
    match Find(c, item.Key())
    case None =>
      assert Keys(c + [item]) == Keys(c) + {item.Key()} by {
        KeysAppend(c, item);
      }
      c + [item]
    case Some(i) =>
      FirstIsUnique(c, item.Key(), i);
      var r := c[i := c[i].(quantity := c[i].quantity + item.quantity)];
      assert Keys(r) == Keys(c) by {
        KeysOfSameKeys(c, r);
      }
      r
  }

  /** Remove the first entry with key `k`, keeping the others in order;
      the cart is returned as it is when `k` is absent. */
  function Remove(c: Cart, k: CartKey): (r: Cart)
    ensures k !in Keys(c) ==> r == c
    ensures k in Keys(c) ==> exists i :: IsFirst(c, k, i) && r == c[..i] + c[i + 1..]
    ensures |r| == if k in Keys(c) then |c| - 1 else |c|
    ensures Keys(r) <= Keys(c)
  {
    match Find(c, k)
    case None => c
    case Some(i) =>
      var r := c[..i] + c[i + 1..];
      assert Keys(r) <= Keys(c) by {
        forall x | x in Keys(r) ensures x in Keys(c) {
          var j :| 0 <= j < |r| && r[j].Key() == x;
          if j < i {
            assert r[j] == c[j];
          } else {
            assert r[j] == c[j + 1];
          }
        }
      }
      r
  }

  /** Overwrite the quantity of the first entry with key `k`; the cart is
      returned as it is when `k` is absent. */
  function SetQuantity(c: Cart, k: CartKey, q: int): (r: Cart)
    ensures |r| == |c|
    ensures forall j :: 0 <= j < |c| ==> r[j].Key() == c[j].Key()
    ensures forall j :: 0 <= j < |c| && !IsFirst(c, k, j) ==> r[j] == c[j]
    ensures forall j :: IsFirst(c, k, j) ==> r[j] == c[j].(quantity := q)
    ensures k !in Keys(c) ==> r == c
  {
    match Find(c, k)
    case None => c
    case Some(i) =>
      FirstIsUnique(c, k, i);
      c[i := c[i].(quantity := q)]
  }

  /** The number of entries of a possibly absent cart (an absent cart counts as empty). */
  function Count(cart: Option<Cart>): (n: nat)
    ensures cart.None? ==> n == 0
    ensures cart.Some? ==> n == |cart.value|
    ensures cart.Some? && Unique(cart.value) ==> n == |Keys(cart.value)|
  {
    match cart
    case None => 0
    case Some(c) =>
      assert Unique(c) ==> |Keys(c)| == |c| by {
        if Unique(c) { UniqueCountsKeys(c); }
      }
      |c|
  }

  // ---------------------------------------------------------------------
  // Helper facts about keys

  lemma KeysCons(c: Cart)
    requires |c| > 0
    ensures Keys(c) == {c[0].Key()} + Keys(c[1..])
  {
    forall x | x in Keys(c) ensures x in {c[0].Key()} + Keys(c[1..]) {
      var j :| 0 <= j < |c| && c[j].Key() == x;
      if j > 0 {
        assert c[1..][j - 1] == c[j];
      }
    }
    forall x | x in Keys(c[1..]) ensures x in Keys(c) {
      var j :| 0 <= j < |c[1..]| && c[1..][j].Key() == x;
      assert c[j + 1] == c[1..][j];
    }
  }

  lemma KeysAppend(c: Cart, item: CartItem)
    ensures Keys(c + [item]) == Keys(c) + {item.Key()}
  {
    var r := c + [item];
    assert r[|c|] == item;
    forall x | x in Keys(c) ensures x in Keys(r) {
      var j :| 0 <= j < |c| && c[j].Key() == x;
      assert r[j] == c[j];
    }
  }

  lemma KeysOfSameKeys(c: Cart, r: Cart)
    requires |r| == |c|
    requires forall j :: 0 <= j < |c| ==> r[j].Key() == c[j].Key()
    ensures Keys(r) == Keys(c)
  {
    forall x | x in Keys(c) ensures x in Keys(r) {
      var j :| 0 <= j < |c| && c[j].Key() == x;
      assert r[j].Key() == x;
    }
  }

  /** At most one index is the first match. */
  lemma FirstIsUnique(c: Cart, k: CartKey, i: int)
    requires IsFirst(c, k, i)
    ensures forall j :: IsFirst(c, k, j) ==> j == i
  {
  }

  /** In a cart without duplicate keys, the count is the number of
      distinct product variants. */
  lemma {:induction false} UniqueCountsKeys(c: Cart)
    requires Unique(c)
    ensures |Keys(c)| == |c|
  {
    if |c| > 0 {
      KeysCons(c);
      assert Unique(c[1..]) by {
        forall i, j | 0 <= i < j < |c[1..]| ensures c[1..][i].Key() != c[1..][j].Key() {
          assert c[1..][i] == c[i + 1] && c[1..][j] == c[j + 1];
        }
      }
      UniqueCountsKeys(c[1..]);
      assert c[0].Key() !in Keys(c[1..]) by {
        forall j | 0 <= j < |c[1..]| ensures c[1..][j].Key() != c[0].Key() {
          assert c[1..][j] == c[j + 1];
        }
      }
    }
  }
}
