/** The cart service as pure transitions over a small state: the local
    storage entries `cart` and `cartItemsCount`, and an ordered log of what
    the service did to the outside world (remote calls, storage writes,
    change notifications). Authentication is an input flag; the server's
    answers are inputs too. */
module CartService {
  import opened Wrappers
  import opened CartItems
  import opened CartProperties

  /** The enriched line item the server returns for display; only the fields
      the service reads are kept. */
  datatype CartProduct = CartProduct(productId: Guid, productTypeId: Guid, quantity: int) {
    function Key(): CartKey {
      CartKey(productId, productTypeId)
    }

    /** The line item sent to the server to set this product's quantity. */
    function Item(): CartItem {
      CartItem(productId, productTypeId, quantity)
    }
  }

  /** A request sent to the cart API. */
  datatype RemoteCall =
    | PostAdd(item: CartItem)                       // POST api/cart/add
    | GetCount                                      // GET api/cart/count
    | GetCart                                       // GET api/cart
    | PostProducts(items: Cart)                     // POST api/cart/products
    | Delete(productId: Guid, productTypeId: Guid)  // DELETE api/cart/{productId}/{productTypeId}
    | PostCart(items: Cart)                         // POST api/cart
    | PutQuantity(item: CartItem)                   // PUT api/cart/update-quantity

  /** Something the service did, in the order it did it. */
  datatype Event =
    | Remote(call: RemoteCall)
    | SetCart(items: Cart)     // local storage write of `cart`
    | RemoveCart               // local storage removal of `cart`
    | SetCount(count: int)     // local storage write of `cartItemsCount`
    | Changed                  // OnChange raised

  /** `cart` is absent when `None`; `count` is the stored `cartItemsCount`. */
  datatype State = State(cart: Option<Cart>, count: int, log: seq<Event>)

  /** The invariant of the local cart: no two entries share a key. */
  predicate Valid(s: State) {
    s.cart.Some? ==> Unique(s.cart.value)
  }

  // ---------------------------------------------------------------------
  // Views of the log

  /** How many times OnChange was raised. */
  function Fired(log: seq<Event>): nat {
    if |log| == 0 then 0
    else Fired(log[..|log| - 1]) + (if log[|log| - 1].Changed? then 1 else 0)
  }

  /** The requests sent to the server, in order. */
  function Calls(log: seq<Event>): seq<RemoteCall> {
    if |log| == 0 then []
    else Calls(log[..|log| - 1]) + (if log[|log| - 1].Remote? then [log[|log| - 1].call] else [])
  }

  /** The carts uploaded to the server by StoreCartItems, in order. */
  function Uploaded(log: seq<Event>): seq<Cart> {
    if |log| == 0 then []
    else
      var e := log[|log| - 1];
      Uploaded(log[..|log| - 1]) + (if e.Remote? && e.call.PostCart? then [e.call.items] else [])
  }

  /** Append one event to the log; each view of the log grows by that event's share. */
  function Emit(log: seq<Event>, e: Event): (r: seq<Event>)
    ensures |r| == |log| + 1 && r[..|log|] == log && r[|log|] == e
    ensures Fired(r) == Fired(log) + (if e.Changed? then 1 else 0)
    ensures Calls(r) == Calls(log) + (if e.Remote? then [e.call] else [])
    ensures Uploaded(r) == Uploaded(log) + (if e.Remote? && e.call.PostCart? then [e.call.items] else [])
  {
    var r := log + [e];
    assert r[..|log|] == log;
    r
  }

  // ---------------------------------------------------------------------
  // Operations

  /** GetCartItemsCount: store the count (the server's when authenticated,
      the local cart's length otherwise, 0 for an absent cart), then raise
      OnChange once. */
  function GetCartItemsCount(s: State, authenticated: bool, serverCount: int): (t: State)
    ensures t.cart == s.cart
    ensures authenticated ==> t.count == serverCount
    ensures !authenticated && s.cart.None? ==> t.count == 0
    ensures !authenticated && s.cart.Some? ==> t.count == |s.cart.value|
    ensures !authenticated && Valid(s) ==> t.count == |Keys(s.cart.GetOr([]))|
    ensures Fired(t.log) == Fired(s.log) + 1
    ensures authenticated ==> t.log == s.log + [Remote(GetCount), SetCount(serverCount), Changed]
    ensures !authenticated ==> t.log == s.log + [SetCount(t.count), Changed]
    ensures Calls(t.log) == Calls(s.log) + (if authenticated then [GetCount] else [])
    ensures Uploaded(t.log) == Uploaded(s.log)
  {
    if authenticated then
      var log := Emit(Emit(Emit(s.log, Remote(GetCount)), SetCount(serverCount)), Changed);
      assert log == s.log + [Remote(GetCount), SetCount(serverCount), Changed];
      State(s.cart, serverCount, log)
    else
      var n := Count(s.cart);
      var log := Emit(Emit(s.log, SetCount(n)), Changed);
      assert log == s.log + [SetCount(n), Changed];
      State(s.cart, n, log)
  }

  /** The local branch of AddToCart before the count refresh: add-or-merge
      the item into the local cart (an absent cart counts as empty) and store it. */
  function AddLocal(s: State, item: CartItem): (t: State)
    ensures t.cart == Some(Add(s.cart.GetOr([]), item)) && t.count == s.count
    ensures s.cart.None? ==> t.cart == Some([item])
    ensures Keys(t.cart.value) == Keys(s.cart.GetOr([])) + {item.Key()}
    ensures forall k :: (QuantityOf(t.cart.value, k)
              == QuantityOf(s.cart.GetOr([]), k) + (if k == item.Key() then item.quantity else 0))
    ensures Valid(s) ==> Valid(t)
    ensures t.log == s.log + [SetCart(t.cart.value)]
    ensures Fired(t.log) == Fired(s.log) && Calls(t.log) == Calls(s.log) && Uploaded(t.log) == Uploaded(s.log)
  {
    var c := s.cart.GetOr([]);
    var c' := Add(c, item);
    AddToEmpty(item);
    AddQuantities(c, item);
    assert Valid(s) ==> Unique(c') by {
      if Valid(s) { AddPreservesUnique(c, item); }
    }
    State(Some(c'), s.count, Emit(s.log, SetCart(c')))
  }

  /** AddToCart: when authenticated, forward the item to the server; otherwise
      add-or-merge it into the local cart. Either way the count is refreshed
      afterwards. The source asks whether the user is signed in twice, once
      here and once inside the count refresh; `authenticated` is the first
      answer and `refreshAuthenticated` the second, and they may differ. */
  function AddToCart(s: State, authenticated: bool, refreshAuthenticated: bool, item: CartItem, serverCount: int): (t: State)
    ensures authenticated ==> t.cart == s.cart
    ensures !authenticated ==> t.cart == Some(Add(s.cart.GetOr([]), item))
    ensures !authenticated && s.cart.None? ==> t.cart == Some([item])
    ensures !authenticated ==> Keys(t.cart.value) == Keys(s.cart.GetOr([])) + {item.Key()}
    ensures !authenticated ==> forall k :: (QuantityOf(t.cart.value, k)
              == QuantityOf(s.cart.GetOr([]), k) + (if k == item.Key() then item.quantity else 0))
    ensures Calls(t.log) == Calls(s.log) + (if authenticated then [PostAdd(item)] else [])
                                         + (if refreshAuthenticated then [GetCount] else [])
    ensures refreshAuthenticated ==> t.count == serverCount
    ensures !refreshAuthenticated ==> t.count == Count(t.cart)
    ensures !authenticated && !refreshAuthenticated ==> t.count == |t.cart.value|
    ensures Valid(s) ==> Valid(t)
    ensures !refreshAuthenticated && Valid(s) ==> t.count == |Keys(t.cart.GetOr([]))|
    ensures Fired(t.log) == Fired(s.log) + 1
    ensures t.log == s.log
                     + (if authenticated then [Remote(PostAdd(item))] else [SetCart(Add(s.cart.GetOr([]), item))])
                     + (if refreshAuthenticated then [Remote(GetCount)] else [])
                     + [SetCount(t.count), Changed]
    ensures Uploaded(t.log) == Uploaded(s.log)
  {
    var first := if authenticated then [Remote(PostAdd(item))] else [SetCart(Add(s.cart.GetOr([]), item))];
    var s1 := if authenticated then s.(log := Emit(s.log, Remote(PostAdd(item)))) else AddLocal(s, item);
    assert s1.log == s.log + first;
    var t := GetCartItemsCount(s1, refreshAuthenticated, serverCount);
    var refresh := if refreshAuthenticated then [Remote(GetCount)] else [];
    assert t.log == s1.log + refresh + [SetCount(t.count), Changed];
    assert t.log == s.log + first + refresh + [SetCount(t.count), Changed];
    t
  }

  /** The result of GetCartProducts: the state after the call and the list returned. */
  datatype Reply = Reply(state: State, products: seq<CartProduct>)

  /** GetCartProducts: the server's enriched list; for an unauthenticated user
      with no local cart, the empty list without any request. */
  function GetCartProducts(s: State, authenticated: bool, serverResponse: seq<CartProduct>): (r: Reply)
    ensures r.state.cart == s.cart && r.state.count == s.count
    ensures !authenticated && s.cart.None? ==> r.products == [] && r.state == s
    ensures !authenticated && s.cart.Some? ==>
              r.products == serverResponse && Calls(r.state.log) == Calls(s.log) + [PostProducts(s.cart.value)]
    ensures authenticated ==> r.products == serverResponse && Calls(r.state.log) == Calls(s.log) + [GetCart]
    ensures authenticated ==> r.state == s.(log := s.log + [Remote(GetCart)])
    ensures !authenticated && s.cart.Some? ==> r.state == s.(log := s.log + [Remote(PostProducts(s.cart.value))])
    ensures Fired(r.state.log) == Fired(s.log)
    ensures Uploaded(r.state.log) == Uploaded(s.log)
  {
    if authenticated then
      Reply(s.(log := Emit(s.log, Remote(GetCart))), serverResponse)
    else
      match s.cart
      case None => Reply(s, [])
      case Some(c) => Reply(s.(log := Emit(s.log, Remote(PostProducts(c)))), serverResponse)
  }

  /** RemoveProductFromCart: when authenticated, ask the server to delete;
      otherwise drop the first local entry with the key and store the cart,
      writing nothing when the cart is absent or has no such entry. The count
      is not refreshed and OnChange is not raised. */
  function RemoveProductFromCart(s: State, authenticated: bool, productId: Guid, productTypeId: Guid): (t: State)
    ensures authenticated ==> t.cart == s.cart && Calls(t.log) == Calls(s.log) + [Delete(productId, productTypeId)]
    ensures authenticated ==> t == s.(log := s.log + [Remote(Delete(productId, productTypeId))])
    ensures !authenticated && (s.cart.None? || CartKey(productId, productTypeId) !in Keys(s.cart.value)) ==> t == s
    ensures !authenticated && s.cart.Some? && CartKey(productId, productTypeId) in Keys(s.cart.value) ==>
              && t.cart.Some?
              && |t.cart.value| == |s.cart.value| - 1
              && (exists i :: IsFirst(s.cart.value, CartKey(productId, productTypeId), i) &&
                     t.cart.value == s.cart.value[..i] + s.cart.value[i + 1..])
              && t.log == s.log + [SetCart(t.cart.value)]
    ensures !authenticated ==> Calls(t.log) == Calls(s.log)
    ensures Valid(s) ==> Valid(t)
    ensures !authenticated && Valid(s) && t.cart.Some? ==>
              Keys(t.cart.value) == Keys(s.cart.value) - {CartKey(productId, productTypeId)}
    ensures t.count == s.count && Fired(t.log) == Fired(s.log)
    ensures Uploaded(t.log) == Uploaded(s.log)
  {
    var k := CartKey(productId, productTypeId);
    if authenticated then
      s.(log := Emit(s.log, Remote(Delete(productId, productTypeId))))
    else
      match s.cart
      case None => s
      case Some(c) =>
        if k !in Keys(c) then s
        else
          var c' := Remove(c, k);
          assert Unique(c) ==> Unique(c') && Keys(c') == Keys(c) - {k} by {
            if Unique(c) { RemoveUnique(c, k); }
          }
          State(Some(c'), s.count, Emit(s.log, SetCart(c')))
  }

  /** StoreCartItems: upload the whole local cart, then remove it from local
      storage when `emptyLocalCart` holds; nothing happens when there is no
      local cart. Authentication is not consulted. */
  function StoreCartItems(s: State, emptyLocalCart: bool): (t: State)
    ensures s.cart.None? ==> t == s
    ensures s.cart.Some? ==> Uploaded(t.log) == Uploaded(s.log) + [s.cart.value]
    ensures s.cart.Some? ==> Calls(t.log) == Calls(s.log) + [PostCart(s.cart.value)]
    ensures s.cart.Some? && emptyLocalCart ==>
              t.cart.None? && t.log == s.log + [Remote(PostCart(s.cart.value)), RemoveCart]
    ensures s.cart.Some? && !emptyLocalCart ==>
              t.cart == s.cart && t.log == s.log + [Remote(PostCart(s.cart.value))]
    ensures t.count == s.count && Fired(t.log) == Fired(s.log)
    ensures Valid(s) ==> Valid(t)
  {
    match s.cart
    case None => s
    case Some(c) =>
      var uploaded := Emit(s.log, Remote(PostCart(c)));
      if emptyLocalCart then State(None, s.count, Emit(uploaded, RemoveCart))
      else s.(log := uploaded)
  }

  /** UpdateQuantity: when authenticated, send the new quantity to the server;
      otherwise overwrite the quantity of the first local entry with the key
      and store the cart, writing nothing when the cart is absent or has no
      such entry. */
  function UpdateQuantity(s: State, authenticated: bool, product: CartProduct): (t: State)
    ensures authenticated ==> t.cart == s.cart && Calls(t.log) == Calls(s.log) + [PutQuantity(product.Item())]
    ensures authenticated ==> t == s.(log := s.log + [Remote(PutQuantity(product.Item()))])
    ensures !authenticated && (s.cart.None? || product.Key() !in Keys(s.cart.value)) ==> t == s
    ensures !authenticated && s.cart.Some? && product.Key() in Keys(s.cart.value) ==>
              && t.cart.Some?
              && |t.cart.value| == |s.cart.value|
              && (forall j :: 0 <= j < |s.cart.value| ==> t.cart.value[j].Key() == s.cart.value[j].Key())
              && (forall j :: 0 <= j < |s.cart.value| && !IsFirst(s.cart.value, product.Key(), j) ==>
                    t.cart.value[j] == s.cart.value[j])
              && (forall j :: IsFirst(s.cart.value, product.Key(), j) ==>
                    t.cart.value[j] == s.cart.value[j].(quantity := product.quantity))
              && t.log == s.log + [SetCart(t.cart.value)]
    ensures !authenticated && Valid(s) && s.cart.Some? && product.Key() in Keys(s.cart.value) ==>
              QuantityOf(t.cart.value, product.Key()) == product.quantity
    ensures !authenticated ==> Calls(t.log) == Calls(s.log)
    ensures Valid(s) ==> Valid(t)
    ensures t.count == s.count && Fired(t.log) == Fired(s.log)
    ensures Uploaded(t.log) == Uploaded(s.log)
  {
    var k := product.Key();
    if authenticated then
      s.(log := Emit(s.log, Remote(PutQuantity(product.Item()))))
    else
      match s.cart
      case None => s
      case Some(c) =>
        if k !in Keys(c) then s
        else
          var c' := SetQuantity(c, k, product.quantity);
          SetQuantityEffect(c, k, product.quantity, k);
          State(Some(c'), s.count, Emit(s.log, SetCart(c')))
  }
}
