/** The order service: creation, cache-aside lookup, filtered listing and the
    status transition that writes the store, publishes an event and evicts
    the cache entry. Each operation takes the state and the values the
    environment supplies (generated id, clock readings, the producer's
    behaviour) and returns its result together with the next state. */
module OrderService {
  import opened Wrappers
  import opened OrderEntity
  import opened OrderDtos
  import opened OrderMapping
  import opened OrderStores

  /** The topic status-change events are sent to. */
  const Topic: string := "orders.events"

  /** The only statuses `updateStatus` accepts. */
  const AllowedStatuses: seq<string> := ["NEW", "IN_PROGRESS", "DELIVERED", "CANCELLED"]

  /** The exceptions the operations can end in.
      - NotFound: `RuntimeException("Order not found")`;
      - NullItems: the `NullPointerException` of streaming a null item list;
      - NullStatus: the `NullPointerException` an immutable `List.of(...)`
        throws when asked whether it contains null;
      - InvalidStatus: `IllegalArgumentException("Invalid status")`;
      - PublishFailed: `RuntimeException("Failed to publish event")`, after
        serialising or sending the event threw. */
  datatype Error = NotFound | NullItems | NullStatus | InvalidStatus | PublishFailed

  /** What an operation returned (or threw), and the state it left behind. */
  datatype Step<+T> = Step(result: Result<T, Error>, next: State)

  /** The values `new Order()` draws from its environment: a random UUID and
      two separate clock readings, for createdAt and then updatedAt. */
  datatype NewOrderEnv = NewOrderEnv(id: Id, createdAt: Timestamp, updatedAt: Timestamp)

  /** Whether serialising and sending the event returned normally or threw. */
  datatype SendOutcome = Sent | Threw

  /** `create`: builds a new order from the request without validating it and
      saves it. The cache and the event log are not touched; a null item list
      fails before anything is written. */
  function Create(s: State, dto: CreateOrderDto, env: NewOrderEnv): (r: Step<OrderResponseDto>)
    ensures r.result.Ok? <==> dto.items.Some?
    ensures r.result.Err? ==> r.result.error == NullItems && r.next == s
    ensures r.next.cache == s.cache && r.next.events == s.events
    ensures r.result.Ok? ==>
      && r.next.store.Keys == s.store.Keys + {env.id}
      && r.result.value == MapToDto(r.next.store[env.id])
      && r.result.value.items == dto.items.value
      && r.result.value.status == DefaultStatus
      && r.result.value.customerId == dto.customerId
  {
    var order := Construct(env.id, env.createdAt, env.updatedAt);
    match dto.items
    case None => Step(Err(NullItems), s)
    case Some(ds) =>
      var filled := order.(customerId := dto.customerId, items := MapItems(ds));
      Step(Ok(MapToDto(filled)), Save(s, filled))
  }

  /** `getById`, behind the cache `orders` keyed by id: a hit answers from
      the cache; a miss reads the store and caches the response; an absent
      id throws, and exceptions are not cached. */
  function GetById(s: State, id: Id): (r: Step<OrderResponseDto>)
    ensures r.next.store == s.store && r.next.ids == s.ids && r.next.events == s.events
    ensures r.result.Ok? <==> id in s.cache || id in s.store
    ensures id in s.cache ==> r.result == Ok(s.cache[id]) && r.next == s
    ensures id !in s.cache && id in s.store ==>
      r.result == Ok(MapToDto(s.store[id])) && r.next.cache == s.cache[id := MapToDto(s.store[id])]
    ensures r.result.Err? ==> r.result.error == NotFound && r.next == s
  {
    if id in s.cache then Step(Ok(s.cache[id]), s)
    else
      match FindById(s, id)
      case None => Step(Err(NotFound), s)
      case Some(order) =>
        var d := MapToDto(order);
        Step(Ok(d), CachePut(s, id, d))
  }

  /** The listing the two optional filters describe: every filter present
      must match. */
  ghost predicate Selected(status: Option<string>, customerId: Option<string>, o: Order)
  {
    && (status.None? || o.status == status.value)
    && (customerId.None? || o.customerId == customerId)
  }

  /** The query `getFiltered` picks: both filters, or the status alone; a
      customer filter without a status is dropped, so the query then matches
      every order. */
  function FilterQuery(status: Option<string>, customerId: Option<string>): (q: Query)
    ensures status.Some? || customerId.None? ==>
      forall o :: Matches(q, o) == Selected(status, customerId, o)
    ensures status.None? ==> forall o :: Matches(q, o)
  {
    if status.Some? && customerId.Some? then ByStatusAndCustomer(status.value, customerId.value)
    else if status.Some? then ByStatus(status.value)
    else All
  }

  /** The listing the filters evidently intend: each filter that is present
      is applied, a customer filter alone included. */
  function IntendedQuery(status: Option<string>, customerId: Option<string>): (q: Query)
    ensures forall o :: Matches(q, o) == Selected(status, customerId, o)
  {
    if status.Some? && customerId.Some? then ByStatusAndCustomer(status.value, customerId.value)
    else if status.Some? then ByStatus(status.value)
    else if customerId.Some? then ByCustomer(customerId.value)
    else All
  }

  /** `getFiltered` with the customer-only case corrected. */
  function GetFilteredIntended(s: State, status: Option<string>, customerId: Option<string>): (r: seq<OrderResponseDto>)
  {
    MapDtos(Find(s, IntendedQuery(status, customerId)))
  }

  /** `getFiltered`: runs the chosen query against the store, bypassing the
      cache, and maps every order to a response. */
  function GetFiltered(s: State, status: Option<string>, customerId: Option<string>): (r: seq<OrderResponseDto>)
    ensures Valid(s) ==> forall k :: 0 <= k < |r| ==>
      r[k].id in s.store && r[k] == MapToDto(s.store[r[k].id])
    ensures Valid(s) && (status.Some? || customerId.None?) ==> forall k :: 0 <= k < |r| ==>
      Selected(status, customerId, s.store[r[k].id])
    ensures Valid(s) ==> forall i, j :: 0 <= i < j < |r| ==> r[i].id != r[j].id
  {
    MapDtos(Find(s, FilterQuery(status, customerId)))
  }

  /** `updateStatus`: find the order, check the new status is one of the
      four allowed values, save it with the new status and a fresh updatedAt,
      then publish the change. Any failure before the save leaves everything
      as it was. A publish that throws leaves the saved order in place and the
      cache entry unevicted, since eviction happens only when the call
      returns normally. */
  function UpdateStatus(s: State, id: Id, newStatus: Option<string>,
                        now: Timestamp, eventNow: Timestamp, send: SendOutcome): (r: Step<OrderResponseDto>)
    ensures r.result.Ok? <==>
      id in s.store && newStatus.Some? && newStatus.value in AllowedStatuses && send == Sent
    ensures id !in s.store ==> r == Step(Err(NotFound), s)
    ensures r.result.Err? && r.result.error != PublishFailed ==> r.next == s
    ensures r.result.Err? && r.result.error == PublishFailed ==>
      r.next.cache == s.cache && r.next.events == s.events
    ensures r.result.Ok? ==> r.result.value.status == newStatus.value && r.result.value.updatedAt == now
    ensures Valid(s) ==> r.next.ids == s.ids && Valid(r.next)
  {
    match FindById(s, id)
    case None => Step(Err(NotFound), s)
    case Some(order) =>
      var oldStatus := order.status;
      if newStatus.None? then Step(Err(NullStatus), s)
      else if newStatus.value !in AllowedStatuses then Step(Err(InvalidStatus), s)
      else
        var updated := order.(status := newStatus.value, updatedAt := now);
        var saved := Save(s, updated);
        var event := EventDto(id, oldStatus, newStatus.value, eventNow);
        match send
        case Threw => Step(Err(PublishFailed), saved)
        case Sent => Step(Ok(MapToDto(updated)), Evict(Send(saved, Record(Topic, id, event)), id))
  }
}
