# Order service: a Dafny model

This project models the order orchestration of a small order service. The
service keeps purchase orders in a document collection (`orders`), answers
single-order reads through a cache (`orders`, keyed by order id), and sends a
status-change event to the topic `orders.events` whenever an order's status
changes. It offers four operations:

- **create**: builds an order with a generated id, status `NEW` and two clock
  readings, copies in the customer and the items without checking them, and
  saves it;
- **getById**: answers from the cache on a hit; on a miss it reads the store
  and caches the response; an unknown id throws and nothing is cached;
- **getFiltered**: runs one of three queries, chosen by which of the two
  optional filters (status, customer) are present;
- **updateStatus**: looks the order up, checks the new status is one of
  NEW, IN_PROGRESS, DELIVERED, CANCELLED, saves it with a new `updatedAt`,
  then publishes an event. The cache entry is evicted only when the call
  returns normally.

The state is an immutable record (`OrderStores.State`): the collection as a
map from id to order plus its natural order, the cache as a map from id to
response, and the log of sent records. Each operation is a pure function from
the state and the values its environment supplies to a result (a value or an
`OrderService.Error`) and the next state. Those values are the generated
UUID, every `LocalDateTime.now()` reading, and whether serialising and
sending the event threw.

Modules, one per part of the program:

| file | module | models |
|---|---|---|
| wrappers.dfy | Wrappers | nullable references, value-or-exception results |
| order.dfy | OrderEntity | `Order` and `Order.Item`, construction defaults |
| dtos.dfy | OrderDtos | the request, response and event shapes |
| mapping.dfy | OrderMapping | `mapToItem`, `mapToItemDto`, `mapToDto` |
| stores.dfy | OrderStores | collection, repository queries, cache, producer |
| order_service.dfy | OrderService | `create`, `getById`, `getFiltered`, `updateStatus` |
| properties.dfy | OrderServiceProperties | properties of single calls and pairs of calls |
| invariants.dfy | OrderServiceInvariants | invariants over any sequence of calls |
| scenarios.dfy | OrderServiceScenarios | the create-read-update flow and a filtered listing |

Behaviours of the code worth noting:

- create validates nothing: an empty item list, a null or empty customer and
  a negative quantity are all accepted (`CreateDoesNotValidate`);
- `createdAt` and `updatedAt` of a new order come from two separate clock
  readings and need not be equal;
- the cache entry is evicted after the method returns, not between the store
  write and the publish. A publish that throws therefore leaves a stale entry
  that later reads return (`StaleReadAfterPublishFailure`);
- the event's timestamp is its own clock reading, not the order's `updatedAt`;
- a customer filter without a status is ignored (see Findings);
- `updatedAt` is set to the clock reading. It is not forced forward, so
  `createdAt <= updatedAt` holds only while the clock does not run backwards
  (`ApplyKeepsTimesOrdered`);
- a null status makes the immutable `List.of(...)` throw
  `NullPointerException` on the membership check. This is
  `Error.NullStatus`, raised after the not-found check.

## Model

| member | source | states |
|---|---|---|
| OrderMapping.ItemRoundTrip | src/main/java/com/example/orderservice/service/OrderService.java:95-120 | mapToItem and mapToItemDto are inverse to each other: an item keeps sku, quantity and price both ways |
| OrderMapping.MapItems | src/main/java/com/example/orderservice/service/OrderService.java:38 | the request's items become entity items one for one: same length, same order, every field kept |
| OrderMapping.MapItemDtos | src/main/java/com/example/orderservice/service/OrderService.java:108 | the entity's items become response items one for one: same length, same order, every field kept |
| OrderMapping.RequestItemsRoundTrip | src/main/java/com/example/orderservice/service/OrderService.java:38 | a request item list mapped to entities and back is the list itself |
| OrderMapping.EntityItemsRoundTrip | src/main/java/com/example/orderservice/entity/Order.java:27-35 | an entity item list mapped to response items and back is the list itself |
| OrderMapping.MapToItem | src/main/java/com/example/orderservice/service/OrderService.java:95-101 | the entity item carries the request item's sku, quantity and price |
| OrderMapping.MapToItemDto | src/main/java/com/example/orderservice/service/OrderService.java:114-120 | the response item maps back to the entity item it came from |
| OrderMapping.MapToDto | src/main/java/com/example/orderservice/service/OrderService.java:103-112 | the response carries the order's id, customer, status and timestamps, and items that map back to the order's items |
| OrderEntity.Construct | src/main/java/com/example/orderservice/entity/Order.java:15-25 | a new order has the generated id, status NEW, no customer yet, and the two clock readings as createdAt and updatedAt |
| OrderMapping.MapToDtoLossless | src/main/java/com/example/orderservice/service/OrderService.java:103-112 | the response keeps every field of the order: equal responses come from equal orders |
| OrderMapping.MapDtos | src/main/java/com/example/orderservice/service/OrderService.java:59 | a listing maps each order to its response, in order |
| OrderStores.FindById | src/main/java/com/example/orderservice/service/OrderService.java:46 | a lookup finds an order exactly when the id is stored, and finds the stored one |
| OrderStores.Save | src/main/java/com/example/orderservice/service/OrderService.java:75 | save upserts: the order lands under its id; a new id is appended to the natural order and the collection stays well formed |
| OrderStores.Evict | src/main/java/com/example/orderservice/service/OrderService.java:62 | eviction removes the one entry and keeps every other; an absent key changes nothing |
| OrderStores.CachePut | src/main/java/com/example/orderservice/service/OrderService.java:44 | filling the cache sets the one entry and keeps every other |
| OrderStores.Send | src/main/java/com/example/orderservice/service/OrderService.java:85 | a sent record is appended to the log, which is otherwise unchanged |
| OrderStores.ScanIds | src/main/java/com/example/orderservice/repository/OrderRepository.java:11-14 | a scan returns exactly the ids whose documents match the query, each once if the input has no repeats |
| OrderStores.Find | src/main/java/com/example/orderservice/repository/OrderRepository.java:11-14 | a query returns exactly the stored orders it matches, each once |
| OrderService.Create | src/main/java/com/example/orderservice/service/OrderService.java:34-42 | create succeeds exactly when the item list is not null, adds the new id, returns the saved order with status NEW, the requested customer and items, and leaves cache and log alone; a null list changes nothing |
| OrderService.GetById | src/main/java/com/example/orderservice/service/OrderService.java:44-48 | a hit returns the cached response and changes nothing; a miss on a stored id returns and caches its response; a miss on an unknown id fails with NotFound and caches nothing |
| OrderService.UpdateStatus | src/main/java/com/example/orderservice/service/OrderService.java:62-93 | the call succeeds exactly when the id is stored, the status is allowed and the publish returns; an unknown id fails first and changes nothing; only a failed publish leaves a change behind, with cache and log untouched |
| OrderService.FilterQuery | src/main/java/com/example/orderservice/service/OrderService.java:52-58 | with both filters, a status alone or no filter the chosen query matches exactly the orders meeting every filter given; without a status it matches every order |
| OrderService.GetFiltered | src/main/java/com/example/orderservice/service/OrderService.java:50-59 | every listed response is a stored order's response, field for field, meets every filter given unless the customer filter stands alone, and appears once |
| OrderServiceProperties.CreateAddsOneOrder | src/main/java/com/example/orderservice/service/OrderService.java:35-41 | a fresh id gets one new order with status NEW, the given customer, the items field for field, the two clock readings; nothing else changes |
| OrderServiceProperties.CreateDoesNotValidate | src/main/java/com/example/orderservice/service/OrderService.java:36-38 | empty items, a null or empty customer and a negative quantity are accepted |
| OrderServiceProperties.GetByIdHitIgnoresStore | src/main/java/com/example/orderservice/service/OrderService.java:44-45 | a cache hit gives the same answer whatever the store holds |
| OrderServiceProperties.GetByIdTwice | src/main/java/com/example/orderservice/service/OrderService.java:44-48 | a second read of the same id is answered from the cache with the first answer |
| OrderServiceProperties.UpdateStatusUnknownId | src/main/java/com/example/orderservice/service/OrderService.java:65 | an unknown id fails with NotFound for every requested status, null and invalid ones included, and changes nothing |
| OrderServiceProperties.UpdateStatusRejectsStatus | src/main/java/com/example/orderservice/service/OrderService.java:66-70 | a status outside the four fails (InvalidStatus, or NullStatus for null) with no write, no event and no eviction |
| OrderServiceProperties.UpdateStatusSucceeds | src/main/java/com/example/orderservice/service/OrderService.java:73-92 | success rewrites only status and updatedAt of the one order, appends exactly one event (topic, key, id, old and new status, its own timestamp) and evicts exactly that cache entry |
| OrderServiceProperties.AnyAllowedTransition | src/main/java/com/example/orderservice/service/OrderService.java:66-75 | any allowed status is accepted, whatever the order's current status is |
| OrderServiceProperties.DeliveredBackToNew | src/main/java/com/example/orderservice/service/OrderService.java:68-75 | a DELIVERED order can be moved back to NEW, with the matching event |
| OrderServiceProperties.UpdateStatusPublishThrows | src/main/java/com/example/orderservice/service/OrderService.java:83-90 | a throwing publish fails the call although the store already holds the new status; no event, no eviction |
| OrderServiceProperties.ReadAfterUpdate | src/test/java/com/example/orderservice/integration/OrderIntegrationTest.java:98-103 | after a successful transition the next read returns the new status |
| OrderServiceProperties.StaleReadAfterPublishFailure | src/main/java/com/example/orderservice/service/OrderService.java:62-90 | after a failed publish on a cached id the next read still returns the old status while the store holds the new one |
| OrderServiceProperties.FindListsExactly | src/main/java/com/example/orderservice/repository/OrderRepository.java:11-14 | a query whose match agrees with the filters lists exactly the selected orders, each once, mapped field for field |
| OrderServiceProperties.GetFilteredSelects | src/main/java/com/example/orderservice/service/OrderService.java:50-59 | with both filters, a status alone or no filter, the listing holds exactly the orders meeting every filter given |
| OrderServiceProperties.GetFilteredCustomerOnly | src/main/java/com/example/orderservice/service/OrderService.java:54-57 | a customer filter without a status lists every order |
| OrderServiceProperties.CustomerOnlyFilterCounterexample | src/main/java/com/example/orderservice/service/OrderService.java:52-58 | the customer-only listing for c1 includes an order of c2 |
| OrderServiceProperties.GetFilteredIntendedSelects | src/main/java/com/example/orderservice/service/OrderService.java:50-59 | the corrected listing holds exactly the orders meeting every filter given, for all four filter combinations |
| OrderServiceInvariants.Apply | src/main/java/com/example/orderservice/service/OrderService.java:34-93 | no call shortens or rewrites the event log |
| OrderServiceInvariants.ApplyPreservesInv | src/main/java/com/example/orderservice/service/OrderService.java:62-93 | every call keeps the collection well formed, every stored status allowed and every logged event well formed |
| OrderServiceInvariants.RunPreservesInv | src/main/java/com/example/orderservice/service/OrderService.java:34-93 | the same holds after any sequence of calls |
| OrderServiceInvariants.RunExtendsLog | src/main/java/com/example/orderservice/service/OrderService.java:85 | any sequence of calls only appends to the event log |
| OrderServiceInvariants.OnlySuccessfulUpdatesLog | src/main/java/com/example/orderservice/service/OrderService.java:78-90 | a call logs one record when it is a successful transition, none otherwise |
| OrderServiceInvariants.GetByIdAgreesWithStore | src/main/java/com/example/orderservice/service/OrderService.java:44-48 | while every cached response matches the store, a read answers what the store holds and keeps the cache matching |
| OrderServiceInvariants.ApplyKeepsCacheCoherent | src/main/java/com/example/orderservice/service/OrderService.java:62 | creation under a fresh id, reads, listings and every transition except a failed publish on a cached id keep the cache matching the store |
| OrderServiceInvariants.PublishFailureBreaksCoherence | src/main/java/com/example/orderservice/service/OrderService.java:83-90 | a failed publish on a cached id leaves the cache disagreeing with the store |
| OrderServiceInvariants.ApplyKeepsTimesOrdered | src/main/java/com/example/orderservice/entity/Order.java:23-25 | createdAt <= updatedAt is kept as long as clock readings do not go backwards |
| OrderServiceScenarios.CreateReadUpdateRead | src/test/java/com/example/orderservice/integration/OrderIntegrationTest.java:62-107 | create, read, move to DELIVERED, read: the second read shows DELIVERED, one order is stored, one NEW to DELIVERED event is sent |
| OrderServiceScenarios.ListNewOrdersOfCustomer | src/main/java/com/example/orderservice/service/OrderService.java:52-53 | of two orders of c1 with one moved to DELIVERED, listing NEW orders of c1 gives the other one |

## Left out

- The HTTP layer (controller, health endpoint) and JSON rendering of
  requests, responses and events, including the event's date pattern.
- `UpdateStatusDto.java` is not part of this model; its one field, the
  requested status, is modelled as a nullable string argument.
- The repository's derived queries are modelled as filters over the
  collection. The collection's natural order is taken to be insertion order;
  the properties state which orders are listed and that each appears once,
  not their order.
- Failures of the document store and of the cache (connection errors,
  timeouts) are not modelled; every `findById` and `save` succeeds.
- `@Transactional` rollback: its effect depends on a transaction manager
  that is not part of this model, so a save counts as committed when called.
- Kafka's asynchronous delivery, broker ordering and retries: only a
  synchronous throw from serialising or sending is modelled. Failures of the
  returned future are not observed by the code.
- Concurrency: races between updates and cache fills.
- UUID generation and the clock: the generated id and every clock reading
  are parameters. A generated id that collides with a stored one overwrites
  it, since save is an upsert.
- Prices are IEEE-754 bit patterns and are only copied, never computed on.
- Logging (`log.info`, `log.error`): it has no effect on the state or the
  results.
- The store is taken to keep clock readings exactly. MongoDB stores a
  `LocalDateTime` as a date with millisecond precision, so a reading with
  finer precision comes back truncated from a later read. The members below
  compare a response or a stored order with a clock reading or with a
  response built before the save, and so assume an exact store:
- OrderService.Create: its ensures equates the returned response with the
  stored order's response; with MongoDB the stored timestamps are truncated.
- OrderServiceProperties.CreateAddsOneOrder: states the stored createdAt and
  updatedAt equal the clock readings; with MongoDB they are truncated.
- OrderServiceProperties.UpdateStatusSucceeds: states the stored updatedAt
  equals the clock reading; with MongoDB it is truncated.
- OrderServiceProperties.ReadAfterUpdate: states the next read returns the
  update's response exactly; with MongoDB its updatedAt is truncated (the
  status is as stated).
- OrderServiceScenarios.CreateReadUpdateRead: states each read returns the
  preceding response exactly; with MongoDB the timestamps are truncated
  (status, items and the event are as stated).
- OrderServiceProperties.UpdateStatusPublishThrows: states the stored
  updatedAt equals the clock reading; with MongoDB it is truncated (the
  stored status, the untouched cache and the unchanged log are as stated).
- OrderServiceScenarios.ListNewOrdersOfCustomer: equates the listing, read
  back from the store, with create's response, built before the save; with
  MongoDB the listed timestamps are truncated (the listed order's id, status,
  customer and items are as stated).
- A null request body, a null element inside the item list and a null sku.
- Process bootstrap and environment loading.

## Findings

| source | as written | input that shows it | evidently intended | confidence | as-written member | corrected member |
|---|---|---|---|---|---|---|
| src/main/java/com/example/orderservice/service/OrderService.java:52-58 | a customer filter without a status falls through to `findAll` | `getFiltered(null, "c1")` with one order of c1 and one of c2 lists both | only the orders of customer c1, since both filters are independent optional parameters of the listing endpoint | medium, not executed | OrderServiceProperties.CustomerOnlyFilterCounterexample | OrderServiceProperties.GetFilteredIntendedSelects |

The corrected listing is `OrderService.GetFilteredIntended`. It runs a
query by customer alone (`Query.ByCustomer`) in the customer-only case.
`OrderService.GetFiltered` keeps the behaviour as written, because that is
what the service does.
