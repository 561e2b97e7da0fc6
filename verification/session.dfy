/** A session: any sequence of cart-service calls, each with its own
    authentication state and server answers, applied one after another. */
module Session {
  import opened CartItems
  import opened CartService

  /** One call into the cart service, with the inputs the outside world supplies. */
  datatype Op =
    | AddOp(authenticated: bool, refreshAuthenticated: bool, item: CartItem, serverCount: int)
    | CountOp(authenticated: bool, serverCount: int)
    | ProductsOp(authenticated: bool, serverResponse: seq<CartProduct>)
    | RemoveOp(authenticated: bool, productId: Guid, productTypeId: Guid)
    | StoreOp(emptyLocalCart: bool)
    | UpdateOp(authenticated: bool, product: CartProduct)

  /** Whether the call raises OnChange (only those that refresh the count do). */
  predicate Notifies(op: Op) {
    op.AddOp? || op.CountOp?
  }

  /** The number of calls in `ops` that raise OnChange. */
  function Notifying(ops: seq<Op>): nat {
    if |ops| == 0 then 0
    else (if Notifies(ops[0]) then 1 else 0) + Notifying(ops[1..])
  }

  /** Apply one call. */
  function Step(s: State, op: Op): (t: State)
    ensures Valid(s) ==> Valid(t)
    ensures Fired(t.log) == Fired(s.log) + (if Notifies(op) then 1 else 0)
  {
    match op
    case AddOp(a, a', item, n) => AddToCart(s, a, a', item, n)
    case CountOp(a, n) => GetCartItemsCount(s, a, n)
    case ProductsOp(a, resp) => GetCartProducts(s, a, resp).state
    case RemoveOp(a, pid, ptid) => RemoveProductFromCart(s, a, pid, ptid)
    case StoreOp(e) => StoreCartItems(s, e)
    case UpdateOp(a, p) => UpdateQuantity(s, a, p)
  }

  /** Apply the calls in order. No call ever leaves two local entries with
      the same key, and OnChange is raised exactly once per call that
      refreshes the count. */
  function Run(s: State, ops: seq<Op>): (t: State)
    ensures Valid(s) ==> Valid(t)
    ensures Fired(t.log) == Fired(s.log) + Notifying(ops)
    decreases |ops|
  {
    if |ops| == 0 then s
    else Run(Step(s, ops[0]), ops[1..])
  }
}
