# Food ordering system: order lifecycle, user validation and client helpers

A Dafny model of the core of a food-ordering system. The backend is a Spring service and the web client is an Angular application. The model covers:

- **Order lifecycle** (`order_lifecycle.dfy`, `order_service.dfy`).
  - Placing an order runs a fixed chain of checks: empty list, more than 50 dishes, the cap of three in-flight orders, unknown dish. A placed order is either dispatched to a background run at once or stored dormant until its scheduled time.
  - A run marks the order as processing. It then moves the order ORDERED → PREPARING → IN_DELIVERY → DELIVERED. Before each edge it re-validates that the order is still stored, active and in the expected status, and otherwise aborts and clears the flag.
  - Cancelling is owner-or-admin only and only from ORDERED. Tracking is read-only.
  - The scheduler tick dispatches the due orders while the cap allows and logs a skip otherwise.
  - Every refusal is appended to an error log.
  - `OrderLifecycle` states all of this as pure transitions over a `Store` value: the order table, the error log, the dispatched runs and the id generators. The class `OrderServices.OrderService` holds the same state as fields. Its methods update those fields step by step as the service does and are proved to end in the state the matching transition gives, so everything proved about the transitions holds of the class.
  - A run's sleeps are the points where other operations can interleave. A run is therefore a sequence of explicit steps: `Dispatch`, then `BeginRun` after the settling delay, then one `AdvanceRun` per edge. Lemmas interleave cancellations and ticks between these steps.
- **Order table queries** (`order_repository.dfy`): the count behind the cap, the search with its NULL-as-wildcard parameters, the due-order query and the dormant-order query, as filters and counts over the table.
- **User service** (`user_service.dfy`): the required-field check of `createUser` with Java's `trim`, the defaults it fills in, the fields `updateUser` overwrites, and the DTO that never carries the password.
- **Order-creation screen** (`order_create.dfy`): the quantity form and the duplicate-free selection it keeps, the category filter, the category list, and the submit handler. The submit handler expands quantities into the repeated dish-id list that placement consumes.
- **Order-list screen** (`order_list.dfy`): grouping an order's items back into (name, price, quantity) lines, the status colours, and the status guard before a cancel request. `PlacedSelectionIsShownBack` proves end to end that the list screen groups a placed order back into the selection the create screen expanded.

`orders.dfy` holds the entities and DTOs. `seqs.dfy` holds the sequence vocabulary: occurrence counts, order-preserving de-duplication (`stream().distinct()`, an insertion-ordered JavaScript `Set`/`Map`) and removal of one value.

Times are whole seconds and days are numbered from the epoch. The clock is a `now` parameter of each operation that reads it.

Behaviour of the code worth noting:

- **Due-order query.** It selects orders whose `scheduledFor` is strictly before now (`DueQueryBoundIsStrict`).
- **Cap check.** The cap is checked only when placing an order and in the tick. The run never re-checks it, so four orders can be in flight (`FirstEdgeIgnoresCap`, `CapExceededFromEmptyStore`).
- **Double dispatch.** The due-order query does not exclude orders a run already owns. A tick can dispatch a second run for an ORDERED order (`DueQueryIgnoresProcessingFlag`, `TickRedispatchesOwnedOrder`). The second run's abort then clears the flag while the first run is still alive (`DuplicateRunClearsProcessingFlag`).
- **Authorization.** Cancel and track check owner-or-admin themselves.
- **Cap at placement.** An immediate order placed at the cap is rejected with an error at placement.
- **Unknown user in a search.** An administrator who names an unknown user id searches everybody's orders (`AdminUnknownUserIsWildcard`).
- **Unavailable dishes.** `findAllById` ignores a dish's `available` flag.
- **The `active` flag.** Nothing in the service ever sets `active` to false. `OrderLifecycle.Valid` records that every stored order is active.

## Model

| member | source | states |
|---|---|---|
| Orders.NewOrder | FoodSystemBackend/src/main/java/rs/raf/foodsystembackend/models/Order.java:21-49 | definition: the entity's defaults with the service's setters applied; properties in `OrderLifecycle.PlacedOrder` |
| Orders.ToOrderDTO | FoodSystemBackend/src/main/java/rs/raf/foodsystembackend/services/OrderService.java:325-353 | the DTO carries the order's id, status, flag and times; the owner is given by id and as "first last"; there is one dish DTO per item, in item order |
| OrderRepository.CountByStatusInAndActiveTrue | FoodSystemBackend/src/main/java/rs/raf/foodsystembackend/repositories/OrderRepository.java:23-24 | the count is zero exactly when no active order has one of the statuses |
| OrderRepository.ActiveInStatusesEmpty | FoodSystemBackend/src/main/java/rs/raf/foodsystembackend/repositories/OrderRepository.java:23-24 | the set of counted ids is empty exactly when no active order has one of the statuses |
| OrderRepository.ActiveAfterWrite | FoodSystemBackend/src/main/java/rs/raf/foodsystembackend/repositories/OrderRepository.java:23-24 | after a write, the other ids count as before and the written id counts by its new record |
| OrderRepository.CountAfterWrite | FoodSystemBackend/src/main/java/rs/raf/foodsystembackend/repositories/OrderRepository.java:23-24 | one write changes the count by exactly what the old and the new record contribute |
| OrderRepository.CountUnchangedByWrite | FoodSystemBackend/src/main/java/rs/raf/foodsystembackend/repositories/OrderRepository.java:23-24 | a write keeping `active` and the status leaves every count unchanged |
| OrderRepository.SearchOrders | FoodSystemBackend/src/main/java/rs/raf/foodsystembackend/repositories/OrderRepository.java:26-35 | returns exactly the stored orders matching every given criterion, records unchanged |
| OrderRepository.SearchNeverReturnsInactive | FoodSystemBackend/src/main/java/rs/raf/foodsystembackend/repositories/OrderRepository.java:31 | no returned order is inactive, whatever the criteria |
| OrderRepository.SearchHonoursCriteria | FoodSystemBackend/src/main/java/rs/raf/foodsystembackend/repositories/OrderRepository.java:27-30 | each given status, date bound and user holds of every returned order |
| OrderRepository.SearchAllWildcards | FoodSystemBackend/src/main/java/rs/raf/foodsystembackend/repositories/OrderRepository.java:26-31 | with every parameter NULL the result is exactly the active orders |
| OrderRepository.SearchDroppingCriterionWidens | FoodSystemBackend/src/main/java/rs/raf/foodsystembackend/repositories/OrderRepository.java:27-30 | replacing any single criterion by NULL keeps every result: NULL is a wildcard |
| OrderRepository.SearchDateBoundsInclusive | FoodSystemBackend/src/main/java/rs/raf/foodsystembackend/repositories/OrderRepository.java:28-29 | an order created exactly at both bounds is found: the bounds are inclusive |
| OrderRepository.FindByScheduledForBeforeAndStatusAndActiveTrue | FoodSystemBackend/src/main/java/rs/raf/foodsystembackend/repositories/OrderRepository.java:37 | returns exactly the active orders in the status scheduled strictly before the time |
| OrderRepository.FindByStatusAndActiveTrueAndIsProcessingFalse | FoodSystemBackend/src/main/java/rs/raf/foodsystembackend/repositories/OrderRepository.java:39 | returns exactly the active, non-processing orders in the status |
| OrderRepository.DueQueryIgnoresProcessingFlag | FoodSystemBackend/src/main/java/rs/raf/foodsystembackend/repositories/OrderRepository.java:37-39 | a due ORDERED order that a run owns is listed by the due query but not by the dormant query |
| OrderRepository.DueQueryBoundIsStrict | FoodSystemBackend/src/main/java/rs/raf/foodsystembackend/repositories/OrderRepository.java:37 | an order scheduled exactly at the query time is not due |
| OrderLifecycle.UpdateOrderStatusFrame | FoodSystemBackend/src/main/java/rs/raf/foodsystembackend/services/OrderService.java:188-199 | only the status and its timestamp of an active stored order change; a missing or inactive order is left alone; no other order changes |
| OrderLifecycle.MarkOrderAsProcessingFrame | FoodSystemBackend/src/main/java/rs/raf/foodsystembackend/services/OrderService.java:202-210 | only the processing flag of the stored order changes |
| OrderLifecycle.IsOrderValidForProcessing | FoodSystemBackend/src/main/java/rs/raf/foodsystembackend/services/OrderService.java:178-185 | definition: the order is stored, active and in the expected status; properties in `AdvanceRunCommitsOrAborts` |
| OrderLifecycle.FindAllById | FoodSystemBackend/src/main/java/rs/raf/foodsystembackend/services/OrderService.java:67 | finds at most one dish per requested id |
| OrderLifecycle.FindAllByIdComplete | FoodSystemBackend/src/main/java/rs/raf/foodsystembackend/services/OrderService.java:67-68 | one dish is found per id exactly when every id is in the catalogue |
| OrderLifecycle.AllDishesFoundIffKnown | FoodSystemBackend/src/main/java/rs/raf/foodsystembackend/services/OrderService.java:66-72 | the count comparison on distinct ids passes exactly when every requested id is a known dish |
| OrderLifecycle.OrderItems | FoodSystemBackend/src/main/java/rs/raf/foodsystembackend/services/OrderService.java:75-80 | definition: one catalogue dish per requested id, in request order; properties in `PlacedOrder` |
| OrderLifecycle.DispatchNow | FoodSystemBackend/src/main/java/rs/raf/foodsystembackend/services/OrderService.java:90-91 | definition: no schedule, or a schedule less than 60 seconds after now; properties in `PlacedOrder` |
| OrderLifecycle.CreateOrder | FoodSystemBackend/src/main/java/rs/raf/foodsystembackend/services/OrderService.java:39-115 | definition; properties in `PlacementSucceedsIff`, `PlacementRejection`, `PlacedOrder` and `PlaceKeepsInvariants` |
| OrderLifecycle.PlacementSucceedsIff | FoodSystemBackend/src/main/java/rs/raf/foodsystembackend/services/OrderService.java:39-115 | placement succeeds exactly when the list is present with 1 to 50 entries, fewer than 3 orders are in flight and every entry is known |
| OrderLifecycle.PlacementRejection | FoodSystemBackend/src/main/java/rs/raf/foodsystembackend/services/OrderService.java:41-72 | a rejection saves and dispatches nothing and appends one PLACE_ORDER entry with no order id; the message follows the check order: empty, too many, cap, unknown dish |
| OrderLifecycle.FiftyDishesPassSizeCheck | FoodSystemBackend/src/main/java/rs/raf/foodsystembackend/services/OrderService.java:48-52 | exactly 50 entries are never refused as empty or too many |
| OrderLifecycle.PlacedOrder | FoodSystemBackend/src/main/java/rs/raf/foodsystembackend/services/OrderService.java:74-112 | the new order has a fresh id, is ORDERED, active, not processing and owned by the caller, keeps the schedule, and has `createdAt` and `statusUpdatedAt` at the placement time (the `Order` entity's defaults) and one catalogue dish per requested id in request order, duplicates kept; it is dispatched exactly when unscheduled or due within a minute, and nothing else changes; with a catalogue keyed by dish id, each item carries the requested id |
| OrderLifecycle.BeginRun | FoodSystemBackend/src/main/java/rs/raf/foodsystembackend/services/OrderService.java:118-123 | definition; properties in `BeginRunKeepsInvariants` and `UninterruptedRunDelivers` |
| OrderLifecycle.AdvanceRun | FoodSystemBackend/src/main/java/rs/raf/foodsystembackend/services/OrderService.java:125-176 | definition; properties in `AdvanceRunCommitsOrAborts`, `AdvanceRunKeepsInvariants` and `UninterruptedRunDelivers` |
| OrderLifecycle.AdvanceRunCommitsOrAborts | FoodSystemBackend/src/main/java/rs/raf/foodsystembackend/services/OrderService.java:118-185 | an edge commits only the expected next status of a present, active order in the expected status, else it clears the flag and ends the run; the last edge also clears the flag and ends; no other order, run or log entry changes |
| OrderLifecycle.UninterruptedRunDelivers | FoodSystemBackend/src/main/java/rs/raf/foodsystembackend/services/OrderService.java:118-166 | without interference a run takes an ORDERED order through PREPARING and IN_DELIVERY to DELIVERED, stamping each edge, and ends with the flag cleared |
| OrderLifecycle.CancelOrder | FoodSystemBackend/src/main/java/rs/raf/foodsystembackend/services/OrderService.java:235-256 | definition; properties in `CancelOrderOutcomes` |
| OrderLifecycle.CancelOrderOutcomes | FoodSystemBackend/src/main/java/rs/raf/foodsystembackend/services/OrderService.java:235-256 | missing order: "Order not found", no log entry; neither owner nor admin: "Access denied" logged; not ORDERED: refused, logged, order unchanged; else only that order becomes CANCELED with a fresh timestamp; success exactly in the last case |
| OrderLifecycle.TrackOrder | FoodSystemBackend/src/main/java/rs/raf/foodsystembackend/services/OrderService.java:258-271 | definition; properties in `TrackOrderReadOnly` |
| OrderLifecycle.TrackOrderReadOnly | FoodSystemBackend/src/main/java/rs/raf/foodsystembackend/services/OrderService.java:258-271 | orders and runs never change; a missing order gives "Order not found" with the store unchanged and no log entry; a caller who is neither owner nor admin gives "Access denied" with one TRACK_ORDER entry naming the order and the caller; otherwise the caller gets the order's DTO and the store is unchanged |
| OrderLifecycle.TargetUser | FoodSystemBackend/src/main/java/rs/raf/foodsystembackend/services/OrderService.java:219-228 | definition; properties in `SearchResultsByCaller` and `AdminUnknownUserIsWildcard` |
| OrderLifecycle.SearchOrders | FoodSystemBackend/src/main/java/rs/raf/foodsystembackend/services/OrderService.java:212-232 | an order is returned exactly when it is stored and matches the criteria the service builds (statuses, day bounds, target user, `active`), as its DTO under its own id |
| OrderLifecycle.SearchResultsByCaller | FoodSystemBackend/src/main/java/rs/raf/foodsystembackend/services/OrderService.java:219-230 | a non-admin gets exactly their own matching orders; an admin naming a known user gets exactly that user's matching orders; an admin naming nobody or an unknown id gets every matching order |
| OrderLifecycle.NonAdminSeesOnlyOwnOrders | FoodSystemBackend/src/main/java/rs/raf/foodsystembackend/services/OrderService.java:219-230 | a non-admin only ever gets their own orders, whatever user id the request names |
| OrderLifecycle.AdminUnknownUserIsWildcard | FoodSystemBackend/src/main/java/rs/raf/foodsystembackend/services/OrderService.java:224-225 | an admin naming an unknown user id gets the same result as naming none |
| OrderLifecycle.SearchFindsWholeDay | FoodSystemBackend/src/main/java/rs/raf/foodsystembackend/services/OrderService.java:214-217 | a day range covers every whole-second instant of its days |
| OrderLifecycle.TickCandidate | FoodSystemBackend/src/main/java/rs/raf/foodsystembackend/services/OrderService.java:279-312 | definition of one candidate's handling; properties in `TickAtCap`, `TickBelowCap`, `TickBelowCapLogsFaults` and `TickRunsSkipFaults` |
| OrderLifecycle.TickAll | FoodSystemBackend/src/main/java/rs/raf/foodsystembackend/services/OrderService.java:279-312 | a tick changes no order and only appends to the log; its new log entries and new runs together number its candidates; every new run is a settling run for a stored order |
| OrderLifecycle.TickKeepsRuns | FoodSystemBackend/src/main/java/rs/raf/foodsystembackend/services/OrderService.java:279-312 | a tick keeps every existing run as it was |
| OrderLifecycle.TickAtCap | FoodSystemBackend/src/main/java/rs/raf/foodsystembackend/services/OrderService.java:282-291 | at the cap a tick dispatches nothing and logs one SCHEDULE_ORDER entry per candidate, in listing order, with the candidate's id, its owner and either the fault message or the cap message |
| OrderLifecycle.TickBelowCap | FoodSystemBackend/src/main/java/rs/raf/foodsystembackend/services/OrderService.java:293-304 | below the cap every candidate without a fault gets a new settling run |
| OrderLifecycle.TickBelowCapLogsFaults | FoodSystemBackend/src/main/java/rs/raf/foodsystembackend/services/OrderService.java:293-311 | below the cap the tick's log entries are exactly one SCHEDULE_ORDER entry per faulty candidate, in listing order, with "Failed to process scheduled order: " and the message, the order id and its owner |
| OrderLifecycle.TickRunsSkipFaults | FoodSystemBackend/src/main/java/rs/raf/foodsystembackend/services/OrderService.java:293-311 | every run a tick starts is a settling run under a fresh run id for a listed candidate without a fault: a faulty candidate never gets a run |
| OrderLifecycle.FaultLog | FoodSystemBackend/src/main/java/rs/raf/foodsystembackend/services/OrderService.java:306-311 | definition of the faulty candidates' log entries; properties in `TickBelowCapLogsFaults` |
| OrderLifecycle.BeginRunKeepsInvariants | FoodSystemBackend/src/main/java/rs/raf/foodsystembackend/services/OrderService.java:118-123 | starting a run keeps the store valid and every processing flag backed by a started run |
| OrderLifecycle.AdvanceRunKeepsInvariants | FoodSystemBackend/src/main/java/rs/raf/foodsystembackend/services/OrderService.java:125-166 | an edge keeps the invariants and moves the order at most one status edge |
| OrderLifecycle.PlaceKeepsInvariants | FoodSystemBackend/src/main/java/rs/raf/foodsystembackend/services/OrderService.java:39-115 | placement keeps the invariants and changes no existing order |
| OrderLifecycle.TickKeepsInvariants | FoodSystemBackend/src/main/java/rs/raf/foodsystembackend/services/OrderService.java:273-313 | a tick keeps the invariants and changes no existing order |
| OrderLifecycle.StepFollowsLifecycle | FoodSystemBackend/src/main/java/rs/raf/foodsystembackend/services/OrderService.java:39-313 | every step keeps the invariants, only appends to the log, and moves each order at most one edge along the status chain with its identity, owner, items, times and `active` unchanged, so DELIVERED and CANCELED are final |
| OrderLifecycle.ExecuteKeepsInvariants | FoodSystemBackend/src/main/java/rs/raf/foodsystembackend/services/OrderService.java:39-313 | any sequence of steps from a valid store keeps the invariants |
| OrderLifecycle.FirstEdgeIgnoresCap | FoodSystemBackend/src/main/java/rs/raf/foodsystembackend/services/OrderService.java:130-136 | the first edge commits PREPARING and raises the in-flight count by one whatever the count was |
| OrderLifecycle.CapExceededFromEmptyStore | FoodSystemBackend/src/main/java/rs/raf/foodsystembackend/services/OrderService.java:55-63 | from an empty store, four immediate orders are all admitted and their runs put four orders in flight, one more than the cap |
| OrderLifecycle.CancelDuringRunAborts | FoodSystemBackend/src/main/java/rs/raf/foodsystembackend/services/OrderService.java:130-134 | a cancel during the first sleep wins: the run aborts, the order stays CANCELED with the cancel's timestamp and the flag is cleared |
| OrderLifecycle.TickRedispatchesOwnedOrder | FoodSystemBackend/src/main/java/rs/raf/foodsystembackend/services/OrderService.java:274-304 | below the cap a tick gives a due order that a live run already owns a second run |
| OrderLifecycle.DuplicateRunClearsProcessingFlag | FoodSystemBackend/src/main/java/rs/raf/foodsystembackend/services/OrderService.java:143-146 | the lagging one of two runs aborts and clears the flag while the other run still drives the order |
| OrderServices.OrderService.LogError | FoodSystemBackend/src/main/java/rs/raf/foodsystembackend/services/OrderService.java:315-323 | appends one entry, with the time, order id, operation, message and user, and changes nothing else |
| OrderServices.OrderService.UpdateOrderStatus | FoodSystemBackend/src/main/java/rs/raf/foodsystembackend/services/OrderService.java:188-199 | the table becomes the transition's table (see `UpdateOrderStatusFrame`), the rest unchanged |
| OrderServices.OrderService.MarkOrderAsProcessing | FoodSystemBackend/src/main/java/rs/raf/foodsystembackend/services/OrderService.java:202-210 | the table becomes the transition's table (see `MarkOrderAsProcessingFrame`), the rest unchanged |
| OrderServices.OrderService.Dispatch | FoodSystemBackend/src/main/java/rs/raf/foodsystembackend/services/OrderService.java:96-106 | adds one settling run for the order under a fresh run id |
| OrderServices.OrderService.CreateOrder | FoodSystemBackend/src/main/java/rs/raf/foodsystembackend/services/OrderService.java:39-115 | the new state and the result are those of `OrderLifecycle.CreateOrder`, and the invariants hold |
| OrderServices.OrderService.BeginRun | FoodSystemBackend/src/main/java/rs/raf/foodsystembackend/services/OrderService.java:118-123 | the new state is `OrderLifecycle.BeginRun`'s, and the invariants hold |
| OrderServices.OrderService.AdvanceRun | FoodSystemBackend/src/main/java/rs/raf/foodsystembackend/services/OrderService.java:125-176 | the new state is `OrderLifecycle.AdvanceRun`'s, and the invariants hold |
| OrderServices.OrderService.CancelOrder | FoodSystemBackend/src/main/java/rs/raf/foodsystembackend/services/OrderService.java:235-256 | the new state and the result are those of `OrderLifecycle.CancelOrder`, and the invariants hold |
| OrderServices.OrderService.TrackOrder | FoodSystemBackend/src/main/java/rs/raf/foodsystembackend/services/OrderService.java:258-271 | the new state and the result are those of `OrderLifecycle.TrackOrder`, and the invariants hold |
| OrderServices.OrderService.SearchOrders | FoodSystemBackend/src/main/java/rs/raf/foodsystembackend/services/OrderService.java:212-232 | returns `OrderLifecycle.SearchOrders` of the current table |
| OrderServices.OrderService.ProcessScheduledOrders | FoodSystemBackend/src/main/java/rs/raf/foodsystembackend/services/OrderService.java:273-313 | the visited orders form a duplicate-free listing of exactly the due orders, the new state is `OrderLifecycle.ProcessScheduledOrders` over that listing, and the invariants hold |
| UserServices.Trim | FoodSystemBackend/src/main/java/rs/raf/foodsystembackend/services/UserService.java:31-34 | definition of Java's `trim`; properties in `TrimIsInfix` and `BlankIffAllWhitespace` |
| UserServices.HasRequiredFields | FoodSystemBackend/src/main/java/rs/raf/foodsystembackend/services/UserService.java:31-36 | definition of the required-field check; properties in `UserService.CreateUser` |
| UserServices.TrimIsInfix | FoodSystemBackend/src/main/java/rs/raf/foodsystembackend/services/UserService.java:31-34 | `trim` cuts out a contiguous middle with only white space around it, and the middle neither starts nor ends with white space |
| UserServices.BlankIffAllWhitespace | FoodSystemBackend/src/main/java/rs/raf/foodsystembackend/services/UserService.java:31-34 | `trim().isEmpty()` holds exactly for strings made entirely of white space |
| UserServices.ToUserDTO | FoodSystemBackend/src/main/java/rs/raf/foodsystembackend/services/UserService.java:76-84 | the DTO has the id, names, email and permissions, and no password field |
| UserServices.NewUser | FoodSystemBackend/src/main/java/rs/raf/foodsystembackend/services/UserService.java:38-45 | names and email as given, missing permissions become the empty set, the password is the encoder's output |
| UserServices.ApplyUpdate | FoodSystemBackend/src/main/java/rs/raf/foodsystembackend/services/UserService.java:62-70 | an update keeps the id and the password |
| UserServices.UpdateRoundTrip | FoodSystemBackend/src/main/java/rs/raf/foodsystembackend/services/UserService.java:62-70 | the updated user maps back to exactly the request |
| UserServices.UpdateWithOwnDTOIsIdentity | FoodSystemBackend/src/main/java/rs/raf/foodsystembackend/services/UserService.java:62-84 | writing a user's own DTO back changes nothing |
| UserServices.UserService.CreateUser | FoodSystemBackend/src/main/java/rs/raf/foodsystembackend/services/UserService.java:29-46 | a null or blank required field gives the required-fields error and stores nothing; otherwise exactly one new user, under a fresh id, is stored and returned as its DTO |
| UserServices.UserService.UpdateUser | FoodSystemBackend/src/main/java/rs/raf/foodsystembackend/services/UserService.java:62-70 | a missing user fails and nothing changes; otherwise only that user is replaced by the updated record, which is returned |
| OrderCreate.Expand | FoodSystemFrontend/src/app/components/order-create/order-create.component.ts:95-101 | definition of the expansion loop's result; properties in `ExpandLength`, `ExpandCount` and `ExpandAppend` |
| OrderCreate.ExpandLength | FoodSystemFrontend/src/app/components/order-create/order-create.component.ts:95-101 | the dish-id list is as long as the positive quantities add up to |
| OrderCreate.ExpandCount | FoodSystemFrontend/src/app/components/order-create/order-create.component.ts:95-101 | each selected id occurs exactly its quantity times, and no other id occurs |
| OrderCreate.ExpandAppend | FoodSystemFrontend/src/app/components/order-create/order-create.component.ts:96-101 | the list is built selection block by selection block, in selection order |
| OrderCreate.InCategory | FoodSystemFrontend/src/app/components/order-create/order-create.component.ts:58 | the filter keeps exactly the dishes of the category, each as often as before |
| OrderCreate.InCategoryAppend | FoodSystemFrontend/src/app/components/order-create/order-create.component.ts:58 | the filter keeps the dishes' relative order |
| OrderCreate.DistinctCategories | FoodSystemFrontend/src/app/components/order-create/order-create.component.ts:49-52 | each category of some dish exactly once, and nothing else |
| OrderCreate.OrderCreateComponent.ExtractCategories | FoodSystemFrontend/src/app/components/order-create/order-create.component.ts:49-52 | `categories` becomes the distinct categories; nothing else changes |
| OrderCreate.OrderCreateComponent.GetFilteredDishes | FoodSystemFrontend/src/app/components/order-create/order-create.component.ts:54-59 | all dishes for the empty category, otherwise exactly that category's dishes |
| OrderCreate.OrderCreateComponent.OnDishQuantityChange | FoodSystemFrontend/src/app/components/order-create/order-create.component.ts:61-69 | the quantity is recorded; a positive one appends an absent id once; zero cuts the id out and keeps the others in order; otherwise the selection stays; the selection stays duplicate-free and matches the quantities |
| OrderCreate.OrderCreateComponent.OnSubmit | FoodSystemFrontend/src/app/components/order-create/order-create.component.ts:88-126 | no request exactly for an empty selection, or a scheduled submission without a time strictly after now; otherwise the request carries the expanded list, the endpoint choice and the schedule |
| OrderCreate.NegativeQuantitiesSendEmptyList | FoodSystemFrontend/src/app/components/order-create/order-create.component.ts:89-101 | a non-empty selection with only negative quantities sends an empty list |
| OrderList.GroupedItems | FoodSystemFrontend/src/app/components/order-list/order-list.component.ts:146-163 | reference definition of the grouped view; properties in `GroupedQuantitiesSum`, `GroupedOneLinePerKey` and `GroupedFirstOccurrenceOrder` |
| OrderList.TalliedIsGrouping | FoodSystemFrontend/src/app/components/order-list/order-list.component.ts:147-160 | after reading the items, the map's insertion order is the distinct keys in first-occurrence order, and each key's line holds its count |
| OrderList.ValuesInInsertionOrder | FoodSystemFrontend/src/app/components/order-list/order-list.component.ts:162 | the map's values read back in key-insertion order |
| OrderList.TallyReadsBackGrouped | FoodSystemFrontend/src/app/components/order-list/order-list.component.ts:146-163 | reading the filled map back gives the grouped view |
| OrderList.GetGroupedItems | FoodSystemFrontend/src/app/components/order-list/order-list.component.ts:146-163 | the loop's result is the grouped view: one line per distinct key, in first-occurrence order, with its count |
| OrderList.GroupedQuantitiesSum | FoodSystemFrontend/src/app/components/order-list/order-list.component.ts:146-162 | the quantities add up to the number of items |
| OrderList.GroupedOneLinePerKey | FoodSystemFrontend/src/app/components/order-list/order-list.component.ts:149-160 | the lines' keys are distinct, every item's key has a line, and each line's quantity is its key's count, at least one |
| OrderList.GroupedFirstOccurrenceOrder | FoodSystemFrontend/src/app/components/order-list/order-list.component.ts:147-162 | lines come in the order of their keys' first occurrence |
| OrderList.GroupingUndoesExpansion | FoodSystemFrontend/src/app/components/order-list/order-list.component.ts:146-163 | for distinct dishes with positive quantities and distinct keys, grouping the expanded list gives one line per selected dish, in selection order, with its quantity |
| OrderList.PlacedSelectionIsShownBack | FoodSystemFrontend/src/app/components/order-list/order-list.component.ts:146-163 | an immediate order placed with the expanded selection is grouped back into that selection |
| OrderList.GetStatusColor | FoodSystemFrontend/src/app/components/order-list/order-list.component.ts:131-140 | definition of the colour table; properties in `StatusColorsDistinct` |
| OrderList.StatusColorsDistinct | FoodSystemFrontend/src/app/components/order-list/order-list.component.ts:131-140 | two statuses get the same colour exactly when they are the same status |
| OrderList.OnCancelOrder | FoodSystemFrontend/src/app/components/order-list/order-list.component.ts:78-112 | a cancel request is sent exactly for a confirmed ORDERED order, and it names that order |
| OrderList.CancelGuardMatchesServer | FoodSystemFrontend/src/app/components/order-list/order-list.component.ts:79-82 | for an order shown as stored, the server accepts its owner's cancel exactly when the client guard lets it through |
| Seqs.Dedup | FoodSystemBackend/src/main/java/rs/raf/foodsystembackend/services/OrderService.java:66 | `distinct()` keeps each value once, loses none, and adds nothing |
| Seqs.DedupFirstOccurrenceOrder | FoodSystemFrontend/src/app/components/order-create/order-create.component.ts:50-51 | the distinct values come in first-occurrence order |
| Seqs.RemoveAll | FoodSystemFrontend/src/app/components/order-create/order-create.component.ts:67 | the filter drops every occurrence of the id and keeps every other value as often as before |
| Seqs.RemoveOneOccurrence | FoodSystemFrontend/src/app/components/order-create/order-create.component.ts:67 | in a duplicate-free list the filter cuts out just that one position |

## Left out

- Threads, sleeps and randomness (`CompletableFuture.runAsync`, `Thread.sleep`, the random per-stage delays): a run is a sequence of explicit steps, each atomic. Any interleaving of steps is a trace, so the check-then-write race inside one step is not modelled.
- Exceptions from the persistence layer, and the `catch` blocks that then clear the processing flag, are not modelled. The scheduler's per-candidate exception is a `faults` parameter naming the candidates whose handling throws, with the message.
- Persistence, transactions and JPQL become an in-memory map with filter functions. Entities loaded twice never alias. Entity setters become record updates written back into the map.
- The clock is a `now` parameter. `LocalDateTime` becomes whole seconds, and a day's span is 00:00:00 to 23:59:59. A time of day written with sub-second precision is not represented.
- OrderLifecycle.SearchFindsWholeDay: proved for every whole-second instant only. The day's upper bound is 23:59:59 exactly, so an order created in the final fraction of the second 23:59:59 falls outside that day's search; seconds are whole in the model, so those instants do not exist here.
- The order in which the database lists results is not modelled. The scheduler's listing order is the `due` out-parameter. Search results are a map keyed by order id rather than a list.
- Console output has no behaviour to model.
- Password encoding is an `encode` parameter.
- The `users` table is a parameter of the search.
- `UserRepository.java` is not part of this model.
  - `updateUser` on a missing id fails with an error named in the model ("User not found"), because `getUserById` is not visible.
  - `findUserByEmail`, `findUserById`, `findAllUsers` and `deleteUser` are plain repository calls and are not modelled.
  - The unique-email constraint is not modelled.
- `updateUser` with null fields is not distinguished, because the DTO fields are plain strings.
- `loadDishes`, `getSelectedDishesWithQuantities`, `getTotalPrice`, `onCancel`, the result handling of `onSubmit` and `onCancelOrder`, `onTrackOrder` and the HTTP services are network and UI plumbing. Prices are opaque integers and totals are not computed.
- Client quantities are integers. A fractional or NaN quantity from the form is not represented.
- The `${name}-${price}` grouping key is modelled as the (name, price) pair. So two different pairs that print to the same string are kept apart here but would be merged by the client.
- The unreachable `black` default of `getStatusColor` has no counterpart, since every status has a case.
- The scheduling timer, the controllers, the error-log queries, the data seeding, JWT and login code are outside this model.
- OrderLifecycle.CapExceededFromEmptyStore: the trace is fixed at four one-dish orders, not a general statement about longer traces.
