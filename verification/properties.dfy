/** Properties of single calls and pairs of calls of the order service. */
module OrderServiceProperties {
  import opened Wrappers
  import opened OrderEntity
  import opened OrderDtos
  import opened OrderMapping
  import opened OrderStores
  import opened OrderService

  // ---------------------------------------------------------------- create

  /** Creating under a fresh id adds exactly one order and changes no other:
      status NEW, the requested customer, the requested items field for field
      in the same order, the constructor's two clock readings; appended to
      the natural order; cache and event log untouched. */
  lemma CreateAddsOneOrder(s: State, dto: CreateOrderDto, env: NewOrderEnv)
    requires Valid(s) && env.id !in s.store && dto.items.Some?
    ensures var r := Create(s, dto, env);
      && r.result.Ok?
      && Valid(r.next)
      && r.next.store.Keys == s.store.Keys + {env.id}
      && |r.next.store| == |s.store| + 1
      && (forall k :: k in s.store ==> r.next.store[k] == s.store[k])
      && r.next.ids == s.ids + [env.id]
      && r.next.cache == s.cache && r.next.events == s.events
      && var o := r.next.store[env.id];
         && o.id == env.id
         && o.status == DefaultStatus
         && o.customerId == dto.customerId
         && |o.items| == |dto.items.value|
         && (forall k :: 0 <= k < |o.items| ==>
               o.items[k].sku == dto.items.value[k].sku
               && o.items[k].quantity == dto.items.value[k].quantity
               && o.items[k].price == dto.items.value[k].price)
         && o.createdAt == env.createdAt && o.updatedAt == env.updatedAt
         && r.result.value == MapToDto(o)
  {
  }

  /** Nothing about the request is checked: an empty item list, a null or
      empty customer and a negative quantity are all accepted. */
  lemma CreateDoesNotValidate(s: State, env: NewOrderEnv)
    ensures Create(s, CreateOrderDto(None, Some([])), env).result.Ok?
    ensures Create(s, CreateOrderDto(Some(""), Some([ItemDto("", -1, 0)])), env).result.Ok?
  {
  }

  // --------------------------------------------------------------- getById

  /** A cache hit does not depend on the store: two states with the same
      cache give the same answer for a cached id, whatever they store. */
  lemma GetByIdHitIgnoresStore(s1: State, s2: State, id: Id)
    requires s1.cache == s2.cache && id in s1.cache
    ensures GetById(s1, id).result == GetById(s2, id).result == Ok(s1.cache[id])
  {
  }

  /** A second lookup of the same id is answered from the cache with the
      value the first one returned, and changes nothing further. */
  lemma GetByIdTwice(s: State, id: Id)
    ensures var r1 := GetById(s, id);
      r1.result.Ok? ==> GetById(r1.next, id) == Step(r1.result, r1.next)
  {
  }

  // ---------------------------------------------------------- updateStatus

  /** The lookup comes first: an unknown id fails with NotFound whatever
      status is asked for, null and invalid ones included, and changes
      nothing. */
  lemma UpdateStatusUnknownId(s: State, id: Id, newStatus: Option<string>,
                              now: Timestamp, eventNow: Timestamp, send: SendOutcome)
    requires id !in s.store
    ensures UpdateStatus(s, id, newStatus, now, eventNow, send) == Step(Err(NotFound), s)
  {
  }

  /** A status outside the four allowed values fails with InvalidStatus
      (a null one with NullStatus) and changes nothing: no write, no event,
      no eviction. */
  lemma UpdateStatusRejectsStatus(s: State, id: Id, newStatus: Option<string>,
                                  now: Timestamp, eventNow: Timestamp, send: SendOutcome)
    requires id in s.store
    requires newStatus.None? || newStatus.value !in AllowedStatuses
    ensures var r := UpdateStatus(s, id, newStatus, now, eventNow, send);
      && r.next == s
      && r.result == Err(if newStatus.None? then NullStatus else InvalidStatus)
  {
  }

  /** A successful transition replaces the order under `id` by the same
      order with the new status and updatedAt set to the clock reading, and
      touches no other order; it appends exactly one event, keyed by `id` on
      topic orders.events, carrying the status read before the change, the
      requested status and the event's own clock reading; and it evicts the
      cache entry for `id` and no other. */
  lemma UpdateStatusSucceeds(s: State, id: Id, st: string, now: Timestamp, eventNow: Timestamp)
    requires Valid(s) && id in s.store && st in AllowedStatuses
    ensures var r := UpdateStatus(s, id, Some(st), now, eventNow, Sent);
      var before := s.store[id];
      && r.result.Ok?
      && r.next.store.Keys == s.store.Keys
      && (forall k :: k in s.store && k != id ==> r.next.store[k] == s.store[k])
      && var after := r.next.store[id];
         && after.status == st && after.updatedAt == now
         && after.id == before.id && after.customerId == before.customerId
         && after.items == before.items && after.createdAt == before.createdAt
         && r.result.value == MapToDto(after)
         && r.next.ids == s.ids
         && r.next.events == s.events + [Record(Topic, id, EventDto(id, before.status, st, eventNow))]
         && r.next.cache == s.cache - {id}
  {
  }

  /** No transition graph: any allowed status is accepted, whatever the
      order's current status is. */
  lemma AnyAllowedTransition(s: State, id: Id, st: string, now: Timestamp, eventNow: Timestamp)
    requires id in s.store && st in AllowedStatuses
    ensures UpdateStatus(s, id, Some(st), now, eventNow, Sent).result.Ok?
  {
  }

  /** A delivered order can be moved back to NEW. */
  lemma DeliveredBackToNew(o: Order, now: Timestamp, eventNow: Timestamp)
    requires o.status == "DELIVERED"
    ensures var s := State(map[o.id := o], [o.id], map[], []);
      var r := UpdateStatus(s, o.id, Some("NEW"), now, eventNow, Sent);
      r.result.Ok? && r.next.store[o.id].status == "NEW"
      && r.next.events == [Record(Topic, o.id, EventDto(o.id, "DELIVERED", "NEW", eventNow))]
  {
  }

  /** When the publish throws, the call fails, yet the store already holds
      the new status; no event is logged and the cache is left as it was. */
  lemma UpdateStatusPublishThrows(s: State, id: Id, st: string, now: Timestamp, eventNow: Timestamp)
    requires Valid(s) && id in s.store && st in AllowedStatuses
    ensures var r := UpdateStatus(s, id, Some(st), now, eventNow, Threw);
      && r.result == Err(PublishFailed)
      && r.next.store == s.store[id := s.store[id].(status := st, updatedAt := now)]
      && r.next.cache == s.cache
      && r.next.events == s.events
  {
  }

  /** After a successful transition the next lookup reads the store, so it
      returns the new status, whatever was cached before. */
  lemma ReadAfterUpdate(s: State, id: Id, st: string, now: Timestamp, eventNow: Timestamp)
    requires Valid(s)
    ensures var r := UpdateStatus(s, id, Some(st), now, eventNow, Sent);
      r.result.Ok? ==>
        && GetById(r.next, id).result == r.result
        && r.result.value.status == st
  {
  }

  /** After a publish failure on a cached id the next lookup still returns
      the cached response; if that response was the stored order's, its
      status is the old one, not the one now in the store. */
  lemma StaleReadAfterPublishFailure(s: State, id: Id, st: string, now: Timestamp, eventNow: Timestamp)
    requires Valid(s) && id in s.store && id in s.cache && st in AllowedStatuses
    requires s.cache[id] == MapToDto(s.store[id]) && s.store[id].status != st
    ensures var r := UpdateStatus(s, id, Some(st), now, eventNow, Threw);
      var read := GetById(r.next, id).result;
      && r.result == Err(PublishFailed)
      && read == Ok(s.cache[id])
      && read.value.status == s.store[id].status
      && r.next.store[id].status == st
  {
  }

  // ----------------------------------------------------------- getFiltered

  /** `r` lists the responses of exactly the stored orders `Selected` picks,
      each once, each mapped field for field. */
  ghost predicate ListsExactly(r: seq<OrderResponseDto>, s: State,
                               status: Option<string>, customerId: Option<string>)
  {
    && (forall k :: 0 <= k < |r| ==>
          r[k].id in s.store && r[k] == MapToDto(s.store[r[k].id]) && Selected(status, customerId, s.store[r[k].id]))
    && (forall id :: id in s.store && Selected(status, customerId, s.store[id]) ==> MapToDto(s.store[id]) in r)
    && (forall i, j :: 0 <= i < j < |r| ==> r[i].id != r[j].id)
  }

  /** A query returns exactly the responses of the orders it matches. */
  lemma FindListsExactly(s: State, q: Query, status: Option<string>, customerId: Option<string>)
    requires Valid(s)
    requires forall id :: id in s.store ==> Matches(q, s.store[id]) == Selected(status, customerId, s.store[id])
    ensures ListsExactly(MapDtos(Find(s, q)), s, status, customerId)
  {
  }

  /** With both filters, or with a status alone, or with none, `getFiltered`
      lists exactly the orders the filters select. */
  lemma GetFilteredSelects(s: State, status: Option<string>, customerId: Option<string>)
    requires Valid(s)
    requires status.Some? || customerId.None?
    ensures ListsExactly(GetFiltered(s, status, customerId), s, status, customerId)
  {
    FindListsExactly(s, FilterQuery(status, customerId), status, customerId);
  }

  /** A customer filter without a status is ignored: every order is listed. */
  lemma GetFilteredCustomerOnly(s: State, c: string)
    requires Valid(s)
    ensures ListsExactly(GetFiltered(s, None, Some(c)), s, None, None)
  {
    FindListsExactly(s, All, None, None);
  }

  /** The customer-only listing as written returns an order of another
      customer. */
  lemma CustomerOnlyFilterCounterexample()
    ensures var a := Order("a", Some("c1"), "NEW", [], 0, 0);
      var b := Order("b", Some("c2"), "NEW", [], 0, 0);
      var s := State(map["a" := a, "b" := b], ["a", "b"], map[], []);
      GetFiltered(s, None, Some("c1")) == [MapToDto(a), MapToDto(b)]
      && !Selected(None, Some("c1"), b)
  {
  }

  /** The corrected listing selects exactly what the filters say, for every
      combination of present and absent filters. */
  lemma GetFilteredIntendedSelects(s: State, status: Option<string>, customerId: Option<string>)
    requires Valid(s)
    ensures ListsExactly(GetFilteredIntended(s, status, customerId), s, status, customerId)
  {
    FindListsExactly(s, IntendedQuery(status, customerId), status, customerId);
  }
}
