/** The service's private mappers between entities and DTOs. Each copies
    fields one for one; the lemmas show that no information is lost. */
module OrderMapping {
  import opened OrderEntity
  import opened OrderDtos

  /** The entity item carries the request item's sku, quantity and price. */
  function MapToItem(d: ItemDto): (i: Item)
    ensures i.sku == d.sku && i.quantity == d.quantity && i.price == d.price
  {
    Item(d.sku, d.quantity, d.price)
  }

  /** The response item maps back to the entity item it came from. */
  function MapToItemDto(i: Item): (d: ItemDto)
    ensures MapToItem(d) == i
  {
    ItemDto(i.sku, i.quantity, i.price)
  }

  /** An item survives the trip to the entity and back, in both directions. */
  lemma ItemRoundTrip(d: ItemDto, i: Item)
    ensures MapToItemDto(MapToItem(d)) == d
    ensures MapToItem(MapToItemDto(i)) == i
  {
  }

  /** The request's item list, mapped element by element: same length, same
      order, and every field of every element preserved. */
  function MapItems(ds: seq<ItemDto>): (r: seq<Item>)
    ensures |r| == |ds|
    ensures forall k :: 0 <= k < |ds| ==>
      r[k].sku == ds[k].sku && r[k].quantity == ds[k].quantity && r[k].price == ds[k].price
  {
    if ds == [] then [] else [MapToItem(ds[0])] + MapItems(ds[1..])
  }

  /** The entity's item list, mapped element by element for a response. */
  function MapItemDtos(items: seq<Item>): (r: seq<ItemDto>)
    ensures |r| == |items|
    ensures forall k :: 0 <= k < |items| ==>
      r[k].sku == items[k].sku && r[k].quantity == items[k].quantity && r[k].price == items[k].price
  {
    if items == [] then [] else [MapToItemDto(items[0])] + MapItemDtos(items[1..])
  }

  /** Request items mapped to entities and back are the request items. */
  lemma RequestItemsRoundTrip(ds: seq<ItemDto>)
    ensures MapItemDtos(MapItems(ds)) == ds
  {
  }

  /** Entity items mapped to response items and back are the entity items. */
  lemma EntityItemsRoundTrip(items: seq<Item>)
    ensures MapItems(MapItemDtos(items)) == items
  {
  }

  /** The response a client sees for an order: the order's scalar fields,
      and items that map back to the order's items. */
  function MapToDto(o: Order): (d: OrderResponseDto)
    ensures d.id == o.id && d.customerId == o.customerId && d.status == o.status
    ensures d.createdAt == o.createdAt && d.updatedAt == o.updatedAt
    ensures MapItems(d.items) == o.items
  {
    OrderResponseDto(o.id, o.customerId, o.status, MapItemDtos(o.items), o.createdAt, o.updatedAt)
  }

  /** The response carries every field of the order: two orders with equal
      responses are equal, and the response's items map back to the order's. */
  lemma MapToDtoLossless(a: Order, b: Order)
    ensures MapItems(MapToDto(a).items) == a.items
    ensures MapToDto(a) == MapToDto(b) ==> a == b
  {
  }

  /** A list of orders mapped to responses, in the same order. */
  function MapDtos(os: seq<Order>): (r: seq<OrderResponseDto>)
    ensures |r| == |os|
    ensures forall k :: 0 <= k < |os| ==> r[k] == MapToDto(os[k])
  {
    if os == [] then [] else [MapToDto(os[0])] + MapDtos(os[1..])
  }
}
