/** The records the storefront exchanges with its remote service (types/index.ts). */
module Types {
  import opened Wrappers

  /** A catalog entry. Only the fields the state manager and the search screen read are kept. */
  datatype Product = Product(id: int, title: string, price: int, desc: string, typ: string, likes: int)

  /** One cart line: its own id, a snapshot of the product, a unit count and the order-placed flag. */
  datatype CartItem = CartItem(id: int, product: Product, quantity: int, ordered: bool)

  /** One wishlist entry: its own id, the product and the owning user's id (0 for a guest). */
  datatype WishlistItem = WishlistItem(id: int, product: Product, user: int)

  datatype User = User(id: int, username: string, email: string, firstName: Option<string>, lastName: Option<string>)

  /** What the remote login or signup call reports: success with the issued token and, when the
      response carries one, the user record; or failure with a message. */
  datatype AuthResult = AuthOk(token: string, user: Option<User>) | AuthFailed(error: string)

  /** How an asynchronous operation settles: its promise resolves with a value or is rejected. */
  datatype Settled<T> = Resolved(value: T) | Rejected
}
