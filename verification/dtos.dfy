/** The request and response shapes the service accepts and returns. */
module OrderDtos {
  import opened Wrappers
  import opened OrderEntity

  datatype ItemDto = ItemDto(sku: string, quantity: Int32, price: Price)

  /** The body of a create request; both fields are null when the client
      leaves them out. */
  datatype CreateOrderDto = CreateOrderDto(customerId: Option<string>, items: Option<seq<ItemDto>>)

  /** The order as returned to clients and as held in the cache. */
  datatype OrderResponseDto = OrderResponseDto(
    id: Id,
    customerId: Option<string>,
    status: string,
    items: seq<ItemDto>,
    createdAt: Timestamp,
    updatedAt: Timestamp)

  /** A status change, as published to the event topic. */
  datatype EventDto = EventDto(orderId: Id, oldStatus: string, newStatus: string, timestamp: Timestamp)
}
