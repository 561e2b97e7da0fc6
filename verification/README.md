# Cart service: the local cart, modelled in Dafny

This project models the client-side `CartService` of the ASMC6P shop. For a
signed-out user the service keeps the cart in the browser's local storage
under the key `cart`: a list of line items `(ProductId, ProductTypeId,
Quantity)`. A line item is identified by its pair `(ProductId,
ProductTypeId)`. The service adds an item, merging it into an existing entry
with the same key. It removes an entry by key and sets an entry's quantity by
key. It stores the item count under `cartItemsCount` and raises `OnChange`.
At sign-in it uploads the local cart to the server.

The model has four modules:

- `CartItems` (`cart_items.dfy`): the line item, the cart as `seq<CartItem>`,
  and the list operations of the signed-out branches. These are `Find` (the
  `List.Find` by key), `Add` (add or merge), `Remove`, `SetQuantity` and
  `Count`. Two views serve as reference definitions: `Keys` (the set of keys
  present) and `QuantityOf` (the total quantity under a key).
- `CartProperties` (`cart_properties.dfy`): lemmas about those operations.
  They state how each operation changes the per-key quantities, and that none
  of them creates a duplicate key.
- `CartService` (`cart_service.dfy`): each public method is a pure function
  from a `State` to the next `State`. The state holds the `cart` entry
  (`Option`, `None` when absent), the stored `cartItemsCount`, and an ordered
  log of what the service did. The log records remote requests, local-storage
  writes and removals, and `OnChange` firings. Three views read the log:
  `Fired` counts the notifications, `Calls` lists the requests sent, and
  `Uploaded` lists the carts sent by `StoreCartItems`. Whether the user is
  authenticated is an input flag. The server's answers (the count, the
  enriched product list) are inputs too. A signed-in branch never touches the
  local cart: it appends its request to the log. In `GetCartItemsCount` it
  also stores the server's count and raises `OnChange`, and `AddToCart` does
  the same through its count refresh.
- `Session` (`session.dfy`): any sequence of calls applied in order. It
  proves that the no-duplicate-keys invariant survives every call. It also
  proves that `OnChange` fires exactly once for each call that refreshes the
  count.

Behaviours of the code that the model keeps, some of which a reader might
not expect:

- For a signed-out user with no local cart, `GetCartProducts` returns an
  empty list at once and sends no request (CartService.cs lines 84-85). A
  signed-in user always gets the `GET api/cart` request, whatever the local
  cart holds.
- `AddToCart` asks whether the user is signed in twice: once itself and once
  inside the count refresh it calls. The model takes the two answers as two
  inputs. If the session ends between them, the item goes to the server and
  the stored count is then taken from the local cart.
- Removing the last local entry writes an empty list. The `cart` entry stays
  present.
- `RemoveProductFromCart`, `UpdateQuantity` and `StoreCartItems` do not
  refresh `cartItemsCount` and do not raise `OnChange`. Only `AddToCart`
  (through `GetCartItemsCount`) and `GetCartItemsCount` do.
- `StoreCartItems` does not look at the authentication state.
- `List.Remove` is called on the element that `List.Find` returned. That is
  the first entry with the key, so `Remove` drops the first matching entry.

## Model

| member | source | states |
|---|---|---|
| `CartItems.Find` | ASMC6P/Clients/Client/Services/CartService/CartService.cs:40-41 | the search by `(ProductId, ProductTypeId)` returns the index of the first entry with that key, and returns nothing exactly when no entry has the key |
| `CartItems.Add` | ASMC6P/Clients/Client/Services/CartService/CartService.cs:40-49 | a new key is appended at the end: the length grows by 1 and earlier entries are unchanged. An existing key leaves the length unchanged, adds the item's quantity to the first entry with that key, and leaves every other entry and every key as they were. The key set gains the item's key |
| `CartItems.Remove` | ASMC6P/Clients/Client/Services/CartService/CartService.cs:108-112 | a missing key leaves the cart as it was. Otherwise the first entry with the key is dropped and the rest keep their order; the length falls by 1 and no key is added |
| `CartItems.SetQuantity` | ASMC6P/Clients/Client/Services/CartService/CartService.cs:154-158 | only the first entry with the key changes, and only in its quantity, which becomes the given value. Length, keys, order and all other entries are unchanged; a missing key changes nothing |
| `CartItems.Count` | ASMC6P/Clients/Client/Services/CartService/CartService.cs:68 | the signed-out count treats an absent cart as empty (0) and is otherwise the number of entries, which for a cart without duplicate keys is the number of distinct product variants |
| `CartItems.UniqueCountsKeys` | ASMC6P/Clients/Client/Services/CartService/CartService.cs:67-68 | in a cart without duplicate keys, the number of entries equals the number of distinct keys |
| `CartProperties.QuantityOfUniqueEntry` | ASMC6P/Clients/Client/Services/CartService/CartService.cs:40-48 | in a cart without duplicate keys, the total quantity under a key is the quantity of its one entry |
| `CartProperties.AddQuantity` | ASMC6P/Clients/Client/Services/CartService/CartService.cs:40-48 | adding an item raises the total quantity under its key by the item's quantity and leaves every other key's total unchanged |
| `CartProperties.AddPreservesUnique` | ASMC6P/Clients/Client/Services/CartService/CartService.cs:40-49 | if no two entries share a key before adding, none do after |
| `CartProperties.AddToEmpty` | ASMC6P/Clients/Client/Services/CartService/CartService.cs:34-44 | adding to an empty cart gives the one-element cart holding exactly the item |
| `CartProperties.AddSameKeyTwice` | ASMC6P/Clients/Client/Services/CartService/CartService.cs:40-48 | adding two items with the same key adds no second entry. The single entry with that key holds the earlier quantity plus both items' quantities |
| `CartProperties.RemoveQuantity` | ASMC6P/Clients/Client/Services/CartService/CartService.cs:108-112 | removing a key leaves every other key's total quantity unchanged. The removed key's total falls by the quantity of its first entry |
| `CartProperties.RemoveUnique` | ASMC6P/Clients/Client/Services/CartService/CartService.cs:108-112 | in a cart without duplicate keys, removing a key leaves no entry with it. It keeps every other key and keeps the cart free of duplicates |
| `CartProperties.SetQuantityEffect` | ASMC6P/Clients/Client/Services/CartService/CartService.cs:154-158 | setting a quantity leaves the key set and every other key's total unchanged and keeps the cart free of duplicates. With no duplicates, the key then holds exactly the new quantity |
| `CartService.GetCartItemsCount` | ASMC6P/Clients/Client/Services/CartService/CartService.cs:56-72 | the stored count becomes the server's count when signed in. Signed out, it becomes the local cart's length, or 0 when the cart is absent, which is the number of distinct variants. A signed-out call sends no request. The events appended are exactly the count request (signed in only), the count write and one `OnChange`, in that order. The cart is unchanged |
| `CartService.AddLocal` | ASMC6P/Clients/Client/Services/CartService/CartService.cs:34-51 | the stored cart is the add-or-merge of the item into the old cart, with an absent cart treated as empty, so adding to it stores `[item]`. The stored cart's keys gain the item's key and its per-key totals rise by the item's quantity. The cart is written once, no request is sent, and no duplicate key appears |
| `CartService.AddToCart` | ASMC6P/Clients/Client/Services/CartService/CartService.cs:26-54 | signed in, the local cart is unchanged and the add request is sent. Signed out, the item is added or merged into the local cart (a new key at the end) without the add request. The call then refreshes the count using the second sign-in answer: the server's count when signed in, otherwise the local cart's length (0 when absent), sending the count request only when signed in. It ends by raising `OnChange` once. The events appended are exactly the add request or the cart write, then the count request (second answer signed in only), the count write and `OnChange` |
| `CartService.GetCartProducts` | ASMC6P/Clients/Client/Services/CartService/CartService.cs:74-91 | signed out with no local cart, the result is an empty list and the state is unchanged. Otherwise the server's list is returned after a `GET api/cart` request (signed in) or a `POST api/cart/products` of the local cart (signed out). That request is the only event logged, and the local cart and count are never changed |
| `CartService.RemoveProductFromCart` | ASMC6P/Clients/Client/Services/CartService/CartService.cs:94-116 | signed in, only the delete request is recorded. Signed out with an absent cart or a missing key, the state is unchanged and nothing is written. Otherwise the first matching entry is removed with the order kept, and the cart is written once. No duplicate key appears and the removed key is gone. The count is not refreshed |
| `CartService.StoreCartItems` | ASMC6P/Clients/Client/Services/CartService/CartService.cs:118-132 | with no local cart, the state is unchanged and nothing is uploaded. Otherwise the whole local cart is uploaded. It is removed from storage only when `emptyLocalCart` holds, and that removal is the event right after the upload |
| `CartService.UpdateQuantity` | ASMC6P/Clients/Client/Services/CartService/CartService.cs:134-162 | signed in, only the update request is recorded. Signed out with an absent cart or a missing key, the state is unchanged. Otherwise only the first matching entry's quantity changes, to the given value; keys, order and other entries stay, and the cart is written once. With no duplicates, the key's total becomes the given quantity |
| `Session.Step` | ASMC6P/Clients/Client/Services/CartService/CartService.cs:26-162 | no call leaves two local entries sharing a key. `OnChange` fires exactly once for `AddToCart` and `GetCartItemsCount` and never for the other calls |
| `Session.Run` | ASMC6P/Clients/Client/Services/CartService/CartService.cs:26-162 | over any sequence of calls the no-duplicate-keys invariant holds throughout. `OnChange` fires once for each call that refreshes the count |

## Left out

- HTTP transport: the requests are recorded in the log and the server's answers are inputs. The server-side cart API and its enrichment of items into `CartProductDto` are not part of this model.
- `CartProductDto` keeps only the three fields the service reads (`ProductId`, `ProductTypeId`, `Quantity`). The display fields are dropped.
- `IAuthenticationService.IsUserAuthenticated` is an input flag for each time the source asks it; `AddToCart` asks twice and gets two flags. The authentication service is not part of this model.
- Local storage (`ILocalStorageService`) becomes the `cart` and `count` fields of the state. JSON serialisation and the asynchronous API are not modelled.
- `async`/`await` and the `OnChange` event mechanics become `Changed` entries in the log. In C#, invoking `OnChange` with no subscriber throws a null-reference exception; the model assumes a subscriber is present.
- `CartItems.Add`: `Quantity += cartItem.Quantity` is 32-bit `int` arithmetic in the source and can wrap around. The model uses mathematical integers.
- Network and storage faults, which propagate to the caller unhandled, are not modelled.
- `ICategoryService` is an interface with no behaviour, so nothing of it is modelled.
