/** Properties of the local-cart list operations: per-key quantities move as
    the service promises, and no operation introduces a duplicate key. */
module CartProperties {
  import opened CartItems

  // ---------------------------------------------------------------------
  // Per-key quantity: the reference view the list operations are measured against

  lemma {:induction false} QuantityOfConcat(a: Cart, b: Cart, k: CartKey)
    ensures QuantityOf(a + b, k) == QuantityOf(a, k) + QuantityOf(b, k)
  {
    if |a| == 0 {
      assert a + b == b;
    } else {
      assert (a + b)[0] == a[0];
      assert (a + b)[1..] == a[1..] + b;
      QuantityOfConcat(a[1..], b, k);
    }
  }

  /** A key that no entry carries holds quantity zero. */
  lemma {:induction false} QuantityOfAbsent(c: Cart, k: CartKey)
    requires k !in Keys(c)
    ensures QuantityOf(c, k) == 0
  {
    if |c| > 0 {
      KeysCons(c);
      QuantityOfAbsent(c[1..], k);
    }
  }

  /** Under uniqueness the quantity held under a key is that of its one entry. */
  lemma {:induction false} QuantityOfUniqueEntry(c: Cart, k: CartKey, i: int)
    requires Unique(c)
    requires 0 <= i < |c| && c[i].Key() == k
    ensures QuantityOf(c, k) == c[i].quantity
  {
    Split(c, i);
    assert k !in Keys(c[..i]) by {
      forall j | 0 <= j < i ensures c[..i][j].Key() != k {
        assert c[..i][j] == c[j];
      }
    }
    var tail := c[i + 1..];
    assert k !in Keys(tail) by {
      forall j | 0 <= j < |tail| ensures tail[j].Key() != k {
        assert tail[j] == c[i + 1 + j];
      }
    }
    QuantityOfAbsent(c[..i], k);
    QuantityOfAbsent(c[i + 1..], k);
    QuantityOfConcat(c[..i], [c[i]] + c[i + 1..], k);
    QuantityOfConcat([c[i]], c[i + 1..], k);
  }

  /** Replacing entry `i` changes the per-key quantities by the difference
      between the old and the new entry. */
  lemma QuantityOfUpdate(c: Cart, i: int, x: CartItem, k: CartKey)
    requires 0 <= i < |c|
    ensures QuantityOf(c[i := x], k)
         == QuantityOf(c, k)
          - (if c[i].Key() == k then c[i].quantity else 0)
          + (if x.Key() == k then x.quantity else 0)
  {
    Split(c, i);
    var r := c[i := x];
    assert r == c[..i] + ([x] + c[i + 1..]);
    QuantityOfConcat(c[..i], [c[i]] + c[i + 1..], k);
    QuantityOfConcat([c[i]], c[i + 1..], k);
    QuantityOfConcat(c[..i], [x] + c[i + 1..], k);
    QuantityOfConcat([x], c[i + 1..], k);
  }

  lemma Split(c: Cart, i: int)
    requires 0 <= i < |c|
    ensures c == c[..i] + ([c[i]] + c[i + 1..])
  {
  }

  /** Deleting entry `i` shifts the later entries down by one. */
  lemma DeleteShifts(c: Cart, i: int)
    requires 0 <= i < |c|
    ensures |c[..i] + c[i + 1..]| == |c| - 1
    ensures forall j :: 0 <= j < i ==> (c[..i] + c[i + 1..])[j] == c[j]
    ensures forall j :: i < j < |c| ==> (c[..i] + c[i + 1..])[j - 1] == c[j]
  {
  }

  // ---------------------------------------------------------------------
  // Add

  /** Adding an item raises the quantity under its key by the item's
      quantity and leaves every other key's quantity as it was. */
  lemma AddQuantity(c: Cart, item: CartItem, k: CartKey)
    ensures QuantityOf(Add(c, item), k)
         == QuantityOf(c, k) + (if k == item.Key() then item.quantity else 0)
  {
    if item.Key() !in Keys(c) {
      assert Add(c, item) == c + [item];
      QuantityOfConcat(c, [item], k);
      assert QuantityOf([item], k) == if k == item.Key() then item.quantity else 0;
    } else {
      var i := Find(c, item.Key()).value;
      var x := c[i].(quantity := c[i].quantity + item.quantity);
      assert Add(c, item) == c[i := x];
      QuantityOfUpdate(c, i, x, k);
    }
  }

  /** The per-key effect of adding, for all keys at once. */
  lemma AddQuantities(c: Cart, item: CartItem)
    ensures forall k :: (QuantityOf(Add(c, item), k)
         == QuantityOf(c, k) + (if k == item.Key() then item.quantity else 0))
  {
    forall k ensures QuantityOf(Add(c, item), k)
         == QuantityOf(c, k) + (if k == item.Key() then item.quantity else 0)
    {
      AddQuantity(c, item, k);
    }
  }

  /** Adding never creates a second entry for a key. */
  lemma AddPreservesUnique(c: Cart, item: CartItem)
    requires Unique(c)
    ensures Unique(Add(c, item))
  {
    var r := Add(c, item);
    if item.Key() !in Keys(c) {
      forall i, j | 0 <= i < j < |r| ensures r[i].Key() != r[j].Key() {
        if j == |c| {
          assert c[i].Key() in Keys(c);
        }
      }
    }
  }

  /** Adding to an absent cart (treated as empty) gives a one-element cart
      holding exactly the item. */
  lemma AddToEmpty(item: CartItem)
    ensures Add([], item) == [item]
  {
    assert item.Key() !in Keys([]);
  }

  /** Adding two items with the same key yields one entry for that key whose
      quantity is the sum. */
  lemma AddSameKeyTwice(c: Cart, a: CartItem, b: CartItem)
    requires Unique(c)
    requires a.Key() == b.Key()
    ensures |Add(Add(c, a), b)| == |Add(c, a)|
    ensures Unique(Add(Add(c, a), b))
    ensures forall i :: 0 <= i < |Add(Add(c, a), b)| && Add(Add(c, a), b)[i].Key() == a.Key() ==>
              Add(Add(c, a), b)[i].quantity == QuantityOf(c, a.Key()) + a.quantity + b.quantity
  {
    var k := a.Key();
    var r1 := Add(c, a);
    var r2 := Add(r1, b);
    AddPreservesUnique(c, a);
    AddPreservesUnique(r1, b);
    AddQuantity(c, a, k);
    AddQuantity(r1, b, k);
    forall i | 0 <= i < |r2| && r2[i].Key() == k
      ensures r2[i].quantity == QuantityOf(c, k) + a.quantity + b.quantity
    {
      QuantityOfUniqueEntry(r2, k, i);
    }
  }

  // ---------------------------------------------------------------------
  // Remove

  /** Removing affects only the removed key's quantity, which drops by the
      quantity of its first entry. */
  lemma RemoveQuantity(c: Cart, k: CartKey, k': CartKey)
    ensures k' != k ==> QuantityOf(Remove(c, k), k') == QuantityOf(c, k')
    ensures forall i :: IsFirst(c, k, i) ==>
              QuantityOf(Remove(c, k), k) == QuantityOf(c, k) - c[i].quantity
  {
    match Find(c, k)
    case None =>
    case Some(i) =>
      FirstIsUnique(c, k, i);
      Split(c, i);
      QuantityOfConcat(c[..i], [c[i]] + c[i + 1..], k');
      QuantityOfConcat([c[i]], c[i + 1..], k');
      QuantityOfConcat(c[..i], c[i + 1..], k');
      QuantityOfConcat(c[..i], [c[i]] + c[i + 1..], k);
      QuantityOfConcat([c[i]], c[i + 1..], k);
      QuantityOfConcat(c[..i], c[i + 1..], k);
  }

  /** Deleting one entry of a duplicate-free cart keeps it duplicate-free
      and drops exactly that entry's key. */
  lemma DeleteUnique(c: Cart, i: int)
    requires Unique(c)
    requires 0 <= i < |c|
    ensures Unique(c[..i] + c[i + 1..])
    ensures Keys(c[..i] + c[i + 1..]) == Keys(c) - {c[i].Key()}
  {
    var r := c[..i] + c[i + 1..];
    DeleteShifts(c, i);
    forall a, b | 0 <= a < b < |r| ensures r[a].Key() != r[b].Key() {
      var a' := if a < i then a else a + 1;
      var b' := if b < i then b else b + 1;
      assert r[a] == c[a'] && r[b] == c[b'];
    }
    forall x | x in Keys(r) ensures x in Keys(c) - {c[i].Key()} {
      var j :| 0 <= j < |r| && r[j].Key() == x;
      var j' := if j < i then j else j + 1;
      assert r[j] == c[j'];
    }
    forall x | x in Keys(c) - {c[i].Key()} ensures x in Keys(r) {
      var j :| 0 <= j < |c| && c[j].Key() == x;
      if j < i {
        assert r[j] == c[j];
      } else {
        assert r[j - 1] == c[j];
      }
    }
  }

  /** Under uniqueness, removing a key leaves no entry with it, keeps every
      other key, and keeps the cart free of duplicates. */
  lemma RemoveUnique(c: Cart, k: CartKey)
    requires Unique(c)
    ensures Unique(Remove(c, k))
    ensures Keys(Remove(c, k)) == Keys(c) - {k}
    ensures QuantityOf(Remove(c, k), k) == 0
  {
    if k !in Keys(c) {
      QuantityOfAbsent(c, k);
    } else {
      var i := Find(c, k).value;
      assert Remove(c, k) == c[..i] + c[i + 1..];
      DeleteUnique(c, i);
      QuantityOfAbsent(Remove(c, k), k);
    }
  }

  // ---------------------------------------------------------------------
  // SetQuantity

  /** Setting a quantity affects only that key; under uniqueness the key
      then holds exactly the new quantity, and no duplicate appears. */
  lemma SetQuantityEffect(c: Cart, k: CartKey, q: int, k': CartKey)
    ensures k' != k ==> QuantityOf(SetQuantity(c, k, q), k') == QuantityOf(c, k')
    ensures Keys(SetQuantity(c, k, q)) == Keys(c)
    ensures Unique(c) ==> Unique(SetQuantity(c, k, q))
    ensures Unique(c) ==> QuantityOf(SetQuantity(c, k, q), k) == if k in Keys(c) then q else 0
  {
    var r := SetQuantity(c, k, q);
    KeysOfSameKeys(c, r);
    match Find(c, k)
    case None =>
      QuantityOfAbsent(c, k);
    case Some(i) =>
      QuantityOfUpdate(c, i, c[i].(quantity := q), k');
      if Unique(c) {
        QuantityOfUniqueEntry(r, k, i);
      }
  }
}
