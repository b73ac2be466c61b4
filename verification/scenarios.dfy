/** The create-read-update flow and the filtered listing, end to end. */
module OrderServiceScenarios {
  import opened Wrappers
  import opened OrderEntity
  import opened OrderDtos
  import opened OrderMapping
  import opened OrderStores
  import opened OrderService

  const Empty: State := State(map[], [], map[], [])

  /** 10.0 as a Java double. */
  const TenPointZero: Price := 0x4024_0000_0000_0000

  /** Create an order for customer 123, read it (which caches it as NEW),
      move it to DELIVERED, read it again: the second read shows DELIVERED,
      the collection holds one order, and one event NEW -> DELIVERED keyed
      by the order's id was sent. */
  lemma CreateReadUpdateRead(env: NewOrderEnv, now: Timestamp, eventNow: Timestamp)
    ensures var items := [ItemDto("SKU1", 1, TenPointZero)];
      var created := Create(Empty, CreateOrderDto(Some("123"), Some(items)), env);
      var read1 := GetById(created.next, env.id);
      var updated := UpdateStatus(read1.next, env.id, Some("DELIVERED"), now, eventNow, Sent);
      var read2 := GetById(updated.next, env.id);
      && created.result.Ok? && created.result.value.status == "NEW"
      && created.result.value.items == items
      && read1.result == created.result && env.id in read1.next.cache
      && updated.result.Ok? && updated.result.value.status == "DELIVERED"
      && read2.result == updated.result
      && |read2.next.store| == 1
      && read2.next.events == [Record(Topic, env.id, EventDto(env.id, "NEW", "DELIVERED", eventNow))]
  {
  }

  /** Two orders for customer c1, one moved to DELIVERED: listing NEW orders
      of c1 gives exactly the other one. */
  lemma ListNewOrdersOfCustomer(e1: NewOrderEnv, e2: NewOrderEnv, now: Timestamp, eventNow: Timestamp)
    requires e1.id != e2.id
    ensures var dto := CreateOrderDto(Some("c1"), Some([]));
      var c1 := Create(Empty, dto, e1);
      var c2 := Create(c1.next, dto, e2);
      var u := UpdateStatus(c2.next, e2.id, Some("DELIVERED"), now, eventNow, Sent);
      GetFiltered(u.next, Some("NEW"), Some("c1")) == [c1.result.value]
  {
    var dto := CreateOrderDto(Some("c1"), Some([]));
    var o1 := Order(e1.id, Some("c1"), "NEW", [], e1.createdAt, e1.updatedAt);
    var o2 := Order(e2.id, Some("c1"), "NEW", [], e2.createdAt, e2.updatedAt);
    var c1 := Create(Empty, dto, e1);
    assert c1.next == State(map[e1.id := o1], [e1.id], map[], []);
    assert c1.result.value == MapToDto(o1);
    var c2 := Create(c1.next, dto, e2);
    assert c2.next == State(map[e1.id := o1, e2.id := o2], [e1.id, e2.id], map[], []);
    var u := UpdateStatus(c2.next, e2.id, Some("DELIVERED"), now, eventNow, Sent);
    var delivered := o2.(status := "DELIVERED", updatedAt := now);
    var stored := map[e1.id := o1, e2.id := delivered];
    assert u.next.store == stored && u.next.ids == [e1.id, e2.id];
    ListingOfTwo(u.next, o1, delivered);
  }

  /** Over two orders of c1, one NEW and one not, listing NEW orders of c1
      gives the NEW one. */
  lemma ListingOfTwo(s: State, a: Order, b: Order)
    requires a.id != b.id && s.ids == [a.id, b.id] && s.store == map[a.id := a, b.id := b]
    requires a.status == "NEW" && a.customerId == Some("c1") && b.status != "NEW"
    ensures GetFiltered(s, Some("NEW"), Some("c1")) == [MapToDto(a)]
  {
    var q := ByStatusAndCustomer("NEW", "c1");
    assert FilterQuery(Some("NEW"), Some("c1")) == q;
    assert ScanIds([b.id], s.store, q) == [];
    assert ScanIds([a.id, b.id], s.store, q) == [a.id];
    assert Find(s, q) == [a];
  }

}
