/** The three collaborators of the service, kept abstract: the Mongo
    collection `orders` with the repository's queries, the Redis cache
    `orders`, and the Kafka producer. */
module OrderStores {
  import opened Wrappers
  import opened OrderEntity
  import opened OrderDtos

  /** One message handed to the Kafka producer: topic, key and value. The
      value is the event itself; its JSON rendering is not modelled. */
  datatype Record = Record(topic: string, key: Id, value: EventDto)

  /** Everything the service can observe or change.
      - store: the documents of the collection, by `_id`;
      - ids: the collection's natural order, used by the list queries;
      - cache: the cache `orders`, holding responses by order id;
      - events: every record sent so far, oldest first. */
  datatype State = State(
    store: map<Id, Order>,
    ids: seq<Id>,
    cache: map<Id, OrderResponseDto>,
    events: seq<Record>)

  ghost predicate Distinct(xs: seq<Id>)
  {
    forall i, j :: 0 <= i < j < |xs| ==> xs[i] != xs[j]
  }

  /** The collection is well formed: each document sits under its own id, and
      the natural order lists every document exactly once. */
  ghost predicate Valid(s: State)
  {
    && (forall id :: id in s.store ==> s.store[id].id == id)
    && (forall id :: id in s.store <==> id in s.ids)
    && Distinct(s.ids)
  }

  /** `repository.findById`. */
  function FindById(s: State, id: Id): (r: Option<Order>)
    ensures r.Some? <==> id in s.store
    ensures r.Some? ==> r.value == s.store[id]
  {
    if id in s.store then Some(s.store[id]) else None
  }

  /** `repository.save`: an upsert. A new id is appended to the natural
      order; an existing one is replaced in place. */
  function Save(s: State, o: Order): (r: State)
    ensures r.store == s.store[o.id := o]
    ensures r.cache == s.cache && r.events == s.events
    ensures Valid(s) && o.id !in s.store ==> r.ids == s.ids + [o.id] && Valid(r)
    ensures Valid(s) && o.id in s.store ==> r.ids == s.ids && Valid(r)
  {
    var ids := if o.id in s.store then s.ids else s.ids + [o.id];
    s.(store := s.store[o.id := o], ids := ids)
  }

  /** Evicting a cache entry removes it and nothing else; evicting an absent
      key changes nothing. */
  function Evict(s: State, id: Id): (r: State)
    ensures id !in r.cache
    ensures forall k :: k in s.cache && k != id ==> k in r.cache && r.cache[k] == s.cache[k]
    ensures forall k :: k in r.cache ==> k in s.cache
    ensures r.store == s.store && r.ids == s.ids && r.events == s.events
  {
    s.(cache := s.cache - {id})
  }

  /** Filling the cache after a miss. */
  function CachePut(s: State, id: Id, d: OrderResponseDto): (r: State)
    ensures id in r.cache && r.cache[id] == d
    ensures forall k :: k in s.cache && k != id ==> k in r.cache && r.cache[k] == s.cache[k]
    ensures r.store == s.store && r.ids == s.ids && r.events == s.events
  {
    s.(cache := s.cache[id := d])
  }

  /** A record the producer accepted, appended to the log. */
  function Send(s: State, rec: Record): (r: State)
    ensures |r.events| == |s.events| + 1 && r.events[..|s.events|] == s.events
    ensures r.events[|s.events|] == rec
    ensures r.store == s.store && r.ids == s.ids && r.cache == s.cache
  {
    s.(events := s.events + [rec])
  }

  /** The three list queries of the repository: `findAll`, `findByStatus`
      and `findByStatusAndCustomerId`; and `ByCustomer`, a query by customer
      alone that the repository does not declare, used only by the corrected
      listing. */
  datatype Query =
    | All
    | ByStatus(status: string)
    | ByStatusAndCustomer(status: string, customerId: string)
    | ByCustomer(customerId: string)

  predicate Matches(q: Query, o: Order)
  {
    match q
    case All => true
    case ByStatus(st) => o.status == st
    case ByStatusAndCustomer(st, c) => o.status == st && o.customerId == Some(c)
    case ByCustomer(c) => o.customerId == Some(c)
  }

  /** The ids, in the given order, whose documents the query matches. */
  function ScanIds(ids: seq<Id>, store: map<Id, Order>, q: Query): (r: seq<Id>)
    ensures forall x :: x in r ==> x in ids && x in store && Matches(q, store[x])
    ensures forall x :: x in ids && x in store && Matches(q, store[x]) ==> x in r
    ensures Distinct(ids) ==> Distinct(r)
  {
    if ids == [] then []
    else
      var rest := ScanIds(ids[1..], store, q);
      if ids[0] in store && Matches(q, store[ids[0]]) then [ids[0]] + rest else rest
  }

  /** Runs a query over the collection in its natural order. */
  function Find(s: State, q: Query): (r: seq<Order>)
    ensures Valid(s) ==> forall k :: 0 <= k < |r| ==>
      r[k].id in s.store && s.store[r[k].id] == r[k] && Matches(q, r[k])
    ensures Valid(s) ==> forall id :: id in s.store && Matches(q, s.store[id]) ==> s.store[id] in r
    ensures Valid(s) ==> forall i, j :: 0 <= i < j < |r| ==> r[i].id != r[j].id
  {
    var found := ScanIds(s.ids, s.store, q);
    var r := seq(|found|, k requires 0 <= k < |found| => s.store[found[k]]);
    assert forall k :: 0 <= k < |found| ==> found[k] in found;
    assert forall id :: id in found ==> s.store[id] in r by {
      forall id | id in found
        ensures s.store[id] in r
      {
        var k :| 0 <= k < |found| && found[k] == id;
        assert r[k] == s.store[id];
      }
    }
    r
  }
}
