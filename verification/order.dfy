/** The `Order` document of the `orders` collection and its nested `Item`. */
module OrderEntity {
  import opened Wrappers

  /** Orders are keyed by the string form of a random UUID. */
  type Id = string

  /** A `LocalDateTime` reading. Only equality and order of readings matter
      here, so a reading is an abstract tick count. */
  type Timestamp = int

  /** A Java `int`. Quantities are copied, never computed on. */
  type Int32 = x: int | -0x8000_0000 <= x < 0x8000_0000

  /** A Java `double`, as its IEEE-754 bit pattern. Prices are copied, never
      computed on, so the bits are all that matters. */
  type Price = bv64

  /** The status every order starts in. */
  const DefaultStatus: string := "NEW"

  datatype Item = Item(sku: string, quantity: Int32, price: Price)

  /** `status` is free text: nothing in the entity restricts it. */
  datatype Order = Order(
    id: Id,
    customerId: Option<string>,
    status: string,
    items: seq<Item>,
    createdAt: Timestamp,
    updatedAt: Timestamp)

  /** `new Order()`: the generated id, status NEW, and the two clock readings
      taken by the two field initialisers. The customer is still null and the
      item list still unset (empty here); the caller fills both in before the
      order is saved. */
  function Construct(id: Id, createdAt: Timestamp, updatedAt: Timestamp): (o: Order)
    ensures o.id == id && o.status == DefaultStatus
    ensures o.createdAt == createdAt && o.updatedAt == updatedAt
    ensures o.customerId == None
  {
    Order(id, None, DefaultStatus, [], createdAt, updatedAt)
  }
}
