/** Invariants the service keeps across any sequence of calls, and the one
    it does not keep: agreement between the cache and the store. */
module OrderServiceInvariants {
  import opened Wrappers
  import opened OrderEntity
  import opened OrderDtos
  import opened OrderMapping
  import opened OrderStores
  import opened OrderService

  /** Every stored order has one of the four allowed statuses. */
  ghost predicate StatusesAllowed(s: State)
  {
    forall id :: id in s.store ==> s.store[id].status in AllowedStatuses
  }

  /** Every logged record is a status change on the orders topic, keyed by
      the order it describes, between two allowed statuses. */
  ghost predicate EventsWellFormed(s: State)
  {
    forall k :: 0 <= k < |s.events| ==>
      && s.events[k].topic == Topic
      && s.events[k].key == s.events[k].value.orderId
      && s.events[k].value.oldStatus in AllowedStatuses
      && s.events[k].value.newStatus in AllowedStatuses
  }

  /** Every cached response is the response for the stored order. */
  ghost predicate CacheCoherent(s: State)
  {
    forall id :: id in s.cache ==> id in s.store && s.cache[id] == MapToDto(s.store[id])
  }

  ghost predicate Inv(s: State)
  {
    Valid(s) && StatusesAllowed(s) && EventsWellFormed(s)
  }

  /** One call of the service, with everything its environment supplies. */
  datatype Op =
    | CreateOp(dto: CreateOrderDto, env: NewOrderEnv)
    | GetByIdOp(id: Id)
    | GetFilteredOp(status: Option<string>, customerId: Option<string>)
    | UpdateStatusOp(id: Id, newStatus: Option<string>, now: Timestamp, eventNow: Timestamp, send: SendOutcome)

  /** The state after one call, whether it returned or threw. */
  function Apply(s: State, op: Op): (r: State)
    ensures |s.events| <= |r.events| && r.events[..|s.events|] == s.events
  {
    match op
    case CreateOp(dto, env) => Create(s, dto, env).next
    case GetByIdOp(id) => GetById(s, id).next
    case GetFilteredOp(_, _) => s
    case UpdateStatusOp(id, st, now, eventNow, send) => UpdateStatus(s, id, st, now, eventNow, send).next
  }

  /** The state after a sequence of calls, in order. */
  function Run(s: State, ops: seq<Op>): State
    decreases |ops|
  {
    if ops == [] then s else Run(Apply(s, ops[0]), ops[1..])
  }

  /** One call keeps the collection well formed, every stored status allowed
      and every logged event well formed. */
  lemma ApplyPreservesInv(s: State, op: Op)
    requires Inv(s)
    ensures Inv(Apply(s, op))
  {
  }

  /** Any sequence of calls keeps the invariant. */
  lemma {:induction false} RunPreservesInv(s: State, ops: seq<Op>)
    requires Inv(s)
    ensures Inv(Run(s, ops))
    decreases |ops|
  {
    if ops != [] {
      ApplyPreservesInv(s, ops[0]);
      RunPreservesInv(Apply(s, ops[0]), ops[1..]);
    }
  }

  /** The event log is append-only: any sequence of calls only extends it. */
  lemma {:induction false} RunExtendsLog(s: State, ops: seq<Op>)
    ensures |s.events| <= |Run(s, ops).events|
    ensures Run(s, ops).events[..|s.events|] == s.events
    decreases |ops|
  {
    if ops != [] {
      var t := Apply(s, ops[0]);
      RunExtendsLog(t, ops[1..]);
    }
  }

  /** Only a successful transition logs anything, and it logs one record. */
  lemma OnlySuccessfulUpdatesLog(s: State, op: Op)
    ensures |Apply(s, op).events| == |s.events| + (
      if op.UpdateStatusOp? && UpdateStatus(s, op.id, op.newStatus, op.now, op.eventNow, op.send).result.Ok?
      then 1 else 0)
  {
  }

  /** While the cache agrees with the store, a lookup answers exactly what
      reading the store would, and the cache keeps agreeing afterwards. */
  lemma GetByIdAgreesWithStore(s: State, id: Id)
    requires CacheCoherent(s)
    ensures var r := GetById(s, id);
      && r.result == (if id in s.store then Ok(MapToDto(s.store[id])) else Err(NotFound))
      && CacheCoherent(r.next)
  {
  }

  /** Creating under a fresh id, listing, and every transition except a
      failed publish for a cached id keep the cache in agreement with the
      store. */
  lemma ApplyKeepsCacheCoherent(s: State, op: Op)
    requires Valid(s) && CacheCoherent(s)
    requires op.CreateOp? ==> op.env.id !in s.store
    requires op.UpdateStatusOp? && op.send == Threw && op.id in s.cache ==>
      op.id !in s.store || op.newStatus.None? || op.newStatus.value !in AllowedStatuses
    ensures CacheCoherent(Apply(s, op))
  {
    match op
    case CreateOp(dto, env) =>
    case GetByIdOp(id) =>
      GetByIdAgreesWithStore(s, id);
    case GetFilteredOp(_, _) =>
    case UpdateStatusOp(id, st, now, eventNow, send) =>
  }

  /** A failed publish for a cached id breaks the agreement: afterwards the
      cached response still shows the old status while the store shows the
      new one. */
  lemma PublishFailureBreaksCoherence(o: Order, now: Timestamp, eventNow: Timestamp)
    requires o.status == "NEW"
    ensures var s := State(map[o.id := o], [o.id], map[o.id := MapToDto(o)], []);
      && CacheCoherent(s)
      && !CacheCoherent(UpdateStatus(s, o.id, Some("DELIVERED"), now, eventNow, Threw).next)
  {
  }

  /** Every stored order was last updated no earlier than it was created. */
  ghost predicate TimesOrdered(s: State)
  {
    forall id :: id in s.store ==> s.store[id].createdAt <= s.store[id].updatedAt
  }

  /** The code does not enforce TimesOrdered; it holds as long as the clock
      does not run backwards: the constructor's second reading is not before
      its first, and a transition's reading is not before the order's
      creation. */
  lemma ApplyKeepsTimesOrdered(s: State, op: Op)
    requires TimesOrdered(s)
    requires op.CreateOp? ==> op.env.createdAt <= op.env.updatedAt
    requires op.UpdateStatusOp? && op.id in s.store ==> s.store[op.id].createdAt <= op.now
    ensures TimesOrdered(Apply(s, op))
  {
  }
}
