/** The order service's behaviour as transitions over a value of the whole store: the
    order table, the error log and the processing runs that have been dispatched but
    have not finished. A run is the background task the service starts for an order;
    each of its sleeps is a point where other operations can interleave, so a run is
    split into explicit steps (start, then one step per edge). */
module OrderLifecycle {
  import opened Orders
  import Seqs
  import R = OrderRepository

  const MAX_CONCURRENT_ORDERS: nat := 3
  const MAX_DISHES_PER_ORDER: nat := 50
  /** The permission that makes a user an administrator for order operations. */
  const ADMIN_PERMISSION: string := "can_read_users"
  /** An order scheduled earlier than one minute from now is processed at once (seconds). */
  const DISPATCH_WINDOW: int := 60
  const SECONDS_PER_DAY: int := 86400

  /** The stages that count against the concurrency cap. */
  const IN_FLIGHT: set<OrderStatus> := {PREPARING, IN_DELIVERY}

  const OP_PLACE: string := "PLACE_ORDER"
  const OP_CANCEL: string := "CANCEL_ORDER"
  const OP_TRACK: string := "TRACK_ORDER"
  const OP_SCHEDULE: string := "SCHEDULE_ORDER"

  const MSG_EMPTY: string := "Order must contain at least one dish"
  const MSG_TOO_MANY: string := "Order exceeds maximum allowed dishes (50)"
  const MSG_CAP: string := "Maximum number of concurrent orders reached"
  const MSG_UNKNOWN_DISH: string := "Some dishes not found"
  const MSG_NOT_FOUND: string := "Order not found"
  const MSG_ACCESS_DENIED: string := "Access denied"
  const MSG_NOT_CANCELABLE: string := "Can only cancel orders in ORDERED status"
  const MSG_SCHEDULE_CAP: string := "Maximum number of concurrent orders reached for scheduled order"
  const MSG_SCHEDULE_FAILED: string := "Failed to process scheduled order: "

  type RunId = nat

  /** Where a dispatched run stands: still in its settling delay (it has not marked the
      order yet), or asleep before the edge into PREPARING, IN_DELIVERY or DELIVERED. */
  datatype RunStage = Settling | BeforePreparing | BeforeInDelivery | BeforeDelivered

  datatype Run = Run(orderId: OrderId, stage: RunStage)

  /** The status a run re-validates before committing the edge it is waiting for. */
  function Expected(stage: RunStage): OrderStatus
    requires stage != Settling
  {
    match stage
    case BeforePreparing => ORDERED
    case BeforeInDelivery => PREPARING
    case BeforeDelivered => IN_DELIVERY
  }

  /** The status an edge commits. */
  function Target(stage: RunStage): OrderStatus
    requires stage != Settling
  {
    match stage
    case BeforePreparing => PREPARING
    case BeforeInDelivery => IN_DELIVERY
    case BeforeDelivered => DELIVERED
  }

  function NextStage(stage: RunStage): RunStage
    requires stage == BeforePreparing || stage == BeforeInDelivery
  {
    if stage == BeforePreparing then BeforeInDelivery else BeforeDelivered
  }

  datatype Store = Store(orders: map<OrderId, Order>, errors: seq<ErrorMessage>,
                         runs: map<RunId, Run>, nextOrderId: nat, nextRunId: nat)

  /** The new store and what the caller gets back (an `Err` stands for the thrown exception). */
  datatype Outcome<T> = Outcome(store: Store, result: Result<T>)

  const EmptyStore: Store := Store(map[], [], map[], 0, 0)

  /** Identity keys are below the generators; every run drives a stored order; the
      service never deactivates an order, so every stored order is active. */
  ghost predicate Valid(st: Store) {
    && (forall id :: id in st.orders ==> id < st.nextOrderId && st.orders[id].id == id && st.orders[id].active)
    && (forall r :: r in st.runs ==> r < st.nextRunId && st.runs[r].orderId in st.orders)
  }

  ghost predicate DrivenBy(st: Store, id: OrderId, r: RunId) {
    r in st.runs && st.runs[r].orderId == id && st.runs[r].stage != Settling
  }

  /** A set `isProcessing` flag is never left behind without a started run for that order. */
  ghost predicate ProcessingHasDriver(st: Store) {
    forall id :: id in st.orders && st.orders[id].isProcessing ==> exists r :: DrivenBy(st, id, r)
  }

  // ---------------------------------------------------------------- admission

  function InFlightCount(orders: map<OrderId, Order>): nat {
    R.CountByStatusInAndActiveTrue(orders, IN_FLIGHT)
  }

  predicate AdmissionOpen(orders: map<OrderId, Order>) {
    InFlightCount(orders) < MAX_CONCURRENT_ORDERS
  }

  // ---------------------------------------------------------------- primitives

  /** `logError`: append one entry to the error log. */
  function LogError(st: Store, operation: string, orderId: Option<OrderId>, message: string,
                    user: User, now: Time): Store
  {
    st.(errors := st.errors + [ErrorMessage(now, orderId, operation, message, user)])
  }

  /** `isOrderValidForProcessing`: the order exists, is active and is in `expected`. */
  predicate IsOrderValidForProcessing(orders: map<OrderId, Order>, id: OrderId, expected: OrderStatus) {
    id in orders && orders[id].active && orders[id].status == expected
  }

  /** `updateOrderStatus`: set the status and refresh its timestamp; nothing happens to a
      missing or inactive order. */
  function UpdateOrderStatus(orders: map<OrderId, Order>, id: OrderId, newStatus: OrderStatus,
                             now: Time): map<OrderId, Order>
  {
    if id in orders && orders[id].active
    then orders[id := orders[id].(status := newStatus, statusUpdatedAt := now)]
    else orders
  }

  /** `markOrderAsProcessing`: set the processing flag of a stored order. */
  function MarkOrderAsProcessing(orders: map<OrderId, Order>, id: OrderId, flag: bool): map<OrderId, Order> {
    if id in orders then orders[id := orders[id].(isProcessing := flag)] else orders
  }

  /** Handing an order to a background run (`CompletableFuture.runAsync`). */
  function Dispatch(st: Store, id: OrderId): Store {
    st.(runs := st.runs[st.nextRunId := Run(id, Settling)], nextRunId := st.nextRunId + 1)
  }

  lemma UpdateOrderStatusFrame(orders: map<OrderId, Order>, id: OrderId, s: OrderStatus, now: Time)
    ensures var r := UpdateOrderStatus(orders, id, s, now);
            && r.Keys == orders.Keys
            && (forall k :: k in orders && k != id ==> r[k] == orders[k])
            && (id in orders && orders[id].active ==>
                  r[id].status == s && r[id].statusUpdatedAt == now
                  && r[id] == orders[id].(status := r[id].status, statusUpdatedAt := r[id].statusUpdatedAt))
            && (id !in orders || !orders[id].active ==> r == orders)
  {
  }

  lemma MarkOrderAsProcessingFrame(orders: map<OrderId, Order>, id: OrderId, flag: bool)
    ensures var r := MarkOrderAsProcessing(orders, id, flag);
            && r.Keys == orders.Keys
            && (forall k :: k in orders && k != id ==> r[k] == orders[k])
            && (id in orders ==> r[id].isProcessing == flag && r[id] == orders[id].(isProcessing := r[id].isProcessing))
  {
  }

  // ---------------------------------------------------------------- placement

  /** `dishRepository.findAllById`: the catalogue dishes whose ids occur in `ids`. */
  function FindAllById(catalog: map<DishId, Dish>, ids: seq<DishId>): (r: seq<Dish>)
    ensures |r| <= |ids|
  {
    if ids == [] then []
    else
      var p := FindAllById(catalog, ids[..|ids| - 1]);
      var d := ids[|ids| - 1];
      if d in catalog then p + [catalog[d]] else p
  }

  lemma {:induction false} FindAllByIdComplete(catalog: map<DishId, Dish>, ids: seq<DishId>)
    ensures |FindAllById(catalog, ids)| == |ids| <==> forall i :: 0 <= i < |ids| ==> ids[i] in catalog
  {
    if ids != [] {
      var init := ids[..|ids| - 1];
      FindAllByIdComplete(catalog, init);
      assert forall i :: 0 <= i < |init| ==> init[i] == ids[i];
    }
  }

  /** The placement check: as many dishes found as there are distinct requested ids. */
  predicate AllDishesFound(catalog: map<DishId, Dish>, ids: seq<DishId>) {
    |FindAllById(catalog, Seqs.Dedup(ids))| == |Seqs.Dedup(ids)|
  }

  /** The count comparison on distinct ids accepts exactly the lists whose every entry is
      a known dish. */
  lemma AllDishesFoundIffKnown(catalog: map<DishId, Dish>, ids: seq<DishId>)
    ensures AllDishesFound(catalog, ids) <==> forall i :: 0 <= i < |ids| ==> ids[i] in catalog
  {
    var u := Seqs.Dedup(ids);
    FindAllByIdComplete(catalog, u);
    if forall i :: 0 <= i < |ids| ==> ids[i] in catalog {
      forall j | 0 <= j < |u| ensures u[j] in catalog {
        assert u[j] in ids;
      }
    } else {
      var i :| 0 <= i < |ids| && ids[i] !in catalog;
      assert ids[i] in u;
    }
  }

  /** The order's items: one catalogue dish per requested id, duplicates kept. */
  function OrderItems(catalog: map<DishId, Dish>, ids: seq<DishId>): seq<Dish>
    requires forall i :: 0 <= i < |ids| ==> ids[i] in catalog
  {
    seq(|ids|, i requires 0 <= i < |ids| => catalog[ids[i]])
  }

  predicate DispatchNow(scheduledFor: Option<Time>, now: Time) {
    scheduledFor.None? || scheduledFor.value < now + DISPATCH_WINDOW
  }

  function RejectPlacement(st: Store, message: string, user: User, now: Time): Outcome<OrderDTO> {
    Outcome(LogError(st, OP_PLACE, None, message, user, now), Err(message))
  }

  /** `createOrder`. */
  function CreateOrder(st: Store, catalog: map<DishId, Dish>, dishIds: Option<seq<DishId>>,
                       scheduledFor: Option<Time>, user: User, now: Time): Outcome<OrderDTO>
  {
    if dishIds.None? || |dishIds.value| == 0 then RejectPlacement(st, MSG_EMPTY, user, now)
    else if |dishIds.value| > MAX_DISHES_PER_ORDER then RejectPlacement(st, MSG_TOO_MANY, user, now)
    else if !AdmissionOpen(st.orders) then RejectPlacement(st, MSG_CAP, user, now)
    else if !AllDishesFound(catalog, dishIds.value) then RejectPlacement(st, MSG_UNKNOWN_DISH, user, now)
    else
      AllDishesFoundIffKnown(catalog, dishIds.value);
      var order := NewOrder(st.nextOrderId, user, OrderItems(catalog, dishIds.value), scheduledFor, now);
      var saved := st.(orders := st.orders[order.id := order], nextOrderId := st.nextOrderId + 1);
      Outcome(if DispatchNow(scheduledFor, now) then Dispatch(saved, order.id) else saved,
              Ok(ToOrderDTO(order)))
  }

  /** Placement succeeds exactly when the list is present, holds 1 to 50 entries, fewer
      than three orders are in flight and every entry is a known dish. */
  lemma PlacementSucceedsIff(st: Store, catalog: map<DishId, Dish>, dishIds: Option<seq<DishId>>,
                             scheduledFor: Option<Time>, user: User, now: Time)
    ensures CreateOrder(st, catalog, dishIds, scheduledFor, user, now).result.Ok? <==>
              && dishIds.Some? && 0 < |dishIds.value| <= MAX_DISHES_PER_ORDER
              && InFlightCount(st.orders) < MAX_CONCURRENT_ORDERS
              && forall i :: 0 <= i < |dishIds.value| ==> dishIds.value[i] in catalog
  {
    if dishIds.Some? {
      AllDishesFoundIffKnown(catalog, dishIds.value);
    }
  }

  /** A rejected placement saves nothing, dispatches nothing and appends one PLACE_ORDER
      entry without an order id; the checks are tried in the source's order. */
  lemma PlacementRejection(st: Store, catalog: map<DishId, Dish>, dishIds: Option<seq<DishId>>,
                           scheduledFor: Option<Time>, user: User, now: Time)
    requires CreateOrder(st, catalog, dishIds, scheduledFor, user, now).result.Err?
    ensures var out := CreateOrder(st, catalog, dishIds, scheduledFor, user, now);
            && out.store == st.(errors := st.errors + [ErrorMessage(now, None, OP_PLACE, out.result.message, user)])
            && out.result.message ==
                 if dishIds.None? || |dishIds.value| == 0 then MSG_EMPTY
                 else if |dishIds.value| > MAX_DISHES_PER_ORDER then MSG_TOO_MANY
                 else if InFlightCount(st.orders) >= MAX_CONCURRENT_ORDERS then MSG_CAP
                 else MSG_UNKNOWN_DISH
  {
  }

  /** Fifty entries are within the limit: such a request is never refused for its size. */
  lemma FiftyDishesPassSizeCheck(st: Store, catalog: map<DishId, Dish>, ids: seq<DishId>,
                                 scheduledFor: Option<Time>, user: User, now: Time)
    requires |ids| == MAX_DISHES_PER_ORDER
    ensures var r := CreateOrder(st, catalog, Some(ids), scheduledFor, user, now).result;
            r.Err? ==> r.message != MSG_EMPTY && r.message != MSG_TOO_MANY
  {
  }

  /** A placed order: a fresh id, status ORDERED, active, not processing, owned by the
      caller, with the schedule copied and one item per requested id in request order.
      It is dispatched exactly when it has no schedule or is due within a minute; a later
      order is stored dormant. Nothing else in the store changes. */
  lemma PlacedOrder(st: Store, catalog: map<DishId, Dish>, dishIds: Option<seq<DishId>>,
                    scheduledFor: Option<Time>, user: User, now: Time)
    requires Valid(st)
    requires CreateOrder(st, catalog, dishIds, scheduledFor, user, now).result.Ok?
    ensures var out := CreateOrder(st, catalog, dishIds, scheduledFor, user, now);
            var id := st.nextOrderId;
            var ids := dishIds.value;
            && id !in st.orders
            && out.store.orders.Keys == st.orders.Keys + {id}
            && (forall k :: k in st.orders ==> out.store.orders[k] == st.orders[k])
            && var o := out.store.orders[id];
               && o.id == id && o.status == ORDERED && o.active && !o.isProcessing
               && o.createdBy == user && o.scheduledFor == scheduledFor
               && o.createdAt == now && o.statusUpdatedAt == now
               && |o.items| == |ids|
               && (forall i :: 0 <= i < |ids| ==> ids[i] in catalog && o.items[i] == catalog[ids[i]])
               && ((forall d :: d in catalog ==> catalog[d].id == d) ==>
                     forall i :: 0 <= i < |ids| ==> o.items[i].id == ids[i])
               && out.result == Ok(ToOrderDTO(o))
               && out.store.errors == st.errors
               && out.store.nextOrderId == id + 1
               && (DispatchNow(scheduledFor, now) ==>
                     out.store.runs == st.runs[st.nextRunId := Run(id, Settling)]
                     && out.store.nextRunId == st.nextRunId + 1)
               && (!DispatchNow(scheduledFor, now) ==>
                     out.store.runs == st.runs && out.store.nextRunId == st.nextRunId)
  {
    AllDishesFoundIffKnown(catalog, dishIds.value);
  }

  // ---------------------------------------------------------------- a run

  /** The start of `processOrderAsync`, after the settling delay: mark the order as
      processing; the run then sleeps before its first edge. */
  function BeginRun(st: Store, rid: RunId): Store
    requires rid in st.runs && st.runs[rid].stage == Settling
  {
    var id := st.runs[rid].orderId;
    st.(orders := MarkOrderAsProcessing(st.orders, id, true), runs := st.runs[rid := Run(id, BeforePreparing)])
  }

  /** One edge of `processOrderAsync`, after its sleep: re-validate, then either commit the
      edge (on the last edge also clearing the flag and ending the run) or clear the flag
      and end the run. The concurrency cap is not consulted. */
  function AdvanceRun(st: Store, rid: RunId, now: Time): Store
    requires rid in st.runs && st.runs[rid].stage != Settling
  {
    var run := st.runs[rid];
    var id := run.orderId;
    if !IsOrderValidForProcessing(st.orders, id, Expected(run.stage)) then
      st.(orders := MarkOrderAsProcessing(st.orders, id, false), runs := st.runs - {rid})
    else
      var updated := UpdateOrderStatus(st.orders, id, Target(run.stage), now);
      if run.stage == BeforeDelivered then
        st.(orders := MarkOrderAsProcessing(updated, id, false), runs := st.runs - {rid})
      else
        st.(orders := updated, runs := st.runs[rid := Run(id, NextStage(run.stage))])
  }

  /** One edge either commits exactly the expected edge of the chain or aborts; an abort
      leaves the status alone, clears the flag and ends the run; the last edge also clears
      the flag and ends the run. No other order changes, and the error log is untouched. */
  lemma AdvanceRunCommitsOrAborts(st: Store, rid: RunId, now: Time)
    requires rid in st.runs && st.runs[rid].stage != Settling
    ensures var run := st.runs[rid];
            var id := run.orderId;
            var st' := AdvanceRun(st, rid, now);
            && st'.errors == st.errors && st'.nextOrderId == st.nextOrderId && st'.nextRunId == st.nextRunId
            && st'.orders.Keys == st.orders.Keys
            && (forall k :: k in st.orders && k != id ==> st'.orders[k] == st.orders[k])
            && (forall r :: r in st.runs && r != rid ==> r in st'.runs && st'.runs[r] == st.runs[r])
            && if IsOrderValidForProcessing(st.orders, id, Expected(run.stage)) then
                 && st'.orders[id] == st.orders[id].(status := Target(run.stage), statusUpdatedAt := now,
                                                     isProcessing := st'.orders[id].isProcessing)
                 && (run.stage == BeforeDelivered ==> !st'.orders[id].isProcessing && rid !in st'.runs)
                 && (run.stage != BeforeDelivered ==>
                       st'.orders[id].isProcessing == st.orders[id].isProcessing
                       && rid in st'.runs && st'.runs[rid] == Run(id, NextStage(run.stage)))
               else
                 && rid !in st'.runs
                 && (id in st.orders ==> st'.orders[id] == st.orders[id].(isProcessing := false))
  {
  }

  /** A run that nothing interferes with takes an ORDERED order through PREPARING and
      IN_DELIVERY to DELIVERED, stamping each status with the time of its edge, and ends
      with the flag cleared. */
  lemma UninterruptedRunDelivers(st: Store, rid: RunId, t1: Time, t2: Time, t3: Time)
    requires Valid(st) && rid in st.runs && st.runs[rid].stage == Settling
    requires st.orders[st.runs[rid].orderId].status == ORDERED
    ensures var id := st.runs[rid].orderId;
            var s1 := AdvanceRun(BeginRun(st, rid), rid, t1);
            && s1.orders[id].status == PREPARING && s1.orders[id].statusUpdatedAt == t1 && s1.orders[id].isProcessing
            && rid in s1.runs && s1.runs[rid].stage == BeforeInDelivery
            && var s2 := AdvanceRun(s1, rid, t2);
               && s2.orders[id].status == IN_DELIVERY && s2.orders[id].statusUpdatedAt == t2 && s2.orders[id].isProcessing
               && rid in s2.runs && s2.runs[rid].stage == BeforeDelivered
               && var s3 := AdvanceRun(s2, rid, t3);
                  && s3.orders[id].status == DELIVERED && s3.orders[id].statusUpdatedAt == t3
                  && !s3.orders[id].isProcessing && rid !in s3.runs
  {
  }

  // ---------------------------------------------------------------- cancel, track, search

  predicate IsOwnerOrAdmin(o: Order, user: User) {
    o.createdBy.id == user.id || ADMIN_PERMISSION in user.permissions
  }

  /** `cancelOrder`. */
  function CancelOrder(st: Store, id: OrderId, user: User, now: Time): Outcome<()> {
    if id !in st.orders then Outcome(st, Err(MSG_NOT_FOUND))
    else if !IsOwnerOrAdmin(st.orders[id], user) then
      Outcome(LogError(st, OP_CANCEL, Some(id), MSG_ACCESS_DENIED, user, now), Err(MSG_ACCESS_DENIED))
    else if st.orders[id].status != ORDERED then
      Outcome(LogError(st, OP_CANCEL, Some(id), MSG_NOT_CANCELABLE, user, now), Err(MSG_NOT_CANCELABLE))
    else
      Outcome(st.(orders := st.orders[id := st.orders[id].(status := CANCELED, statusUpdatedAt := now)]), Ok(()))
  }

  /** Cancellation: a missing order is refused without a log entry; a caller who is neither
      the owner nor an administrator, and an order past ORDERED, are refused and logged as
      CANCEL_ORDER with the order unchanged; otherwise only that order's status becomes
      CANCELED with a fresh timestamp (its `active` flag and everything else untouched). */
  lemma CancelOrderOutcomes(st: Store, id: OrderId, user: User, now: Time)
    ensures var out := CancelOrder(st, id, user, now);
            && out.store.runs == st.runs
            && (id !in st.orders ==> out == Outcome(st, Err(MSG_NOT_FOUND)))
            && (id in st.orders && !IsOwnerOrAdmin(st.orders[id], user) ==>
                  out == Outcome(LogError(st, OP_CANCEL, Some(id), MSG_ACCESS_DENIED, user, now), Err(MSG_ACCESS_DENIED)))
            && (id in st.orders && IsOwnerOrAdmin(st.orders[id], user) && st.orders[id].status != ORDERED ==>
                  out.result == Err(MSG_NOT_CANCELABLE) && out.store.orders == st.orders
                  && out.store.errors == st.errors + [ErrorMessage(now, Some(id), OP_CANCEL, MSG_NOT_CANCELABLE, user)])
            && (out.result.Ok? <==> id in st.orders && IsOwnerOrAdmin(st.orders[id], user) && st.orders[id].status == ORDERED)
            && (out.result.Ok? ==>
                  && out.store.errors == st.errors
                  && out.store.orders.Keys == st.orders.Keys
                  && (forall k :: k in st.orders && k != id ==> out.store.orders[k] == st.orders[k])
                  && out.store.orders[id] == st.orders[id].(status := CANCELED, statusUpdatedAt := now))
  {
  }

  /** `trackOrder`: the order's DTO for its owner or an administrator. */
  function TrackOrder(st: Store, id: OrderId, user: User, now: Time): Outcome<OrderDTO> {
    if id !in st.orders then Outcome(st, Err(MSG_NOT_FOUND))
    else if !IsOwnerOrAdmin(st.orders[id], user) then
      Outcome(LogError(st, OP_TRACK, Some(id), MSG_ACCESS_DENIED, user, now), Err(MSG_ACCESS_DENIED))
    else Outcome(st, Ok(ToOrderDTO(st.orders[id])))
  }

  /** Tracking never changes an order or a run. A missing order is refused without a log
      entry; a caller who is neither the owner nor an administrator is refused and logged
      as TRACK_ORDER; otherwise the caller gets the order's DTO and nothing changes. */
  lemma TrackOrderReadOnly(st: Store, id: OrderId, user: User, now: Time)
    ensures var out := TrackOrder(st, id, user, now);
            && out.store.orders == st.orders && out.store.runs == st.runs
            && (id !in st.orders ==> out == Outcome(st, Err(MSG_NOT_FOUND)))
            && (id in st.orders && !IsOwnerOrAdmin(st.orders[id], user) ==>
                  out == Outcome(LogError(st, OP_TRACK, Some(id), MSG_ACCESS_DENIED, user, now), Err(MSG_ACCESS_DENIED)))
            && (out.result.Ok? <==> id in st.orders && IsOwnerOrAdmin(st.orders[id], user))
            && (out.result.Ok? ==> out.result.value == ToOrderDTO(st.orders[id]) && out.store == st)
  {
  }

  /** The request body of an order search: statuses, a day range and, for
      administrators, a user id. Days are numbered from the epoch. */
  datatype OrderSearch = OrderSearch(status: Option<set<OrderStatus>>, dateFrom: Option<int>,
                                     dateTo: Option<int>, userId: Option<UserId>)

  function StartOfDay(day: int): Time { day * SECONDS_PER_DAY }
  function EndOfDay(day: int): Time { day * SECONDS_PER_DAY + (23 * 3600 + 59 * 60 + 59) }

  /** The user whose orders a search is restricted to (`None`: everybody's). */
  function TargetUser(search: OrderSearch, user: User, users: map<UserId, User>): Option<User> {
    var isAdmin := ADMIN_PERMISSION in user.permissions;
    if isAdmin && search.userId.Some? then
      (if search.userId.value in users then Some(users[search.userId.value]) else None)
    else if !isAdmin then Some(user)
    else None
  }

  function Criteria(search: OrderSearch, user: User, users: map<UserId, User>): R.SearchCriteria {
    R.SearchCriteria(search.status,
                     if search.dateFrom.Some? then Some(StartOfDay(search.dateFrom.value)) else None,
                     if search.dateTo.Some? then Some(EndOfDay(search.dateTo.value)) else None,
                     TargetUser(search, user, users))
  }

  /** `searchOrders`: the DTOs of the matching orders, keyed by order id. */
  function SearchOrders(orders: map<OrderId, Order>, search: OrderSearch, user: User,
                        users: map<UserId, User>): (r: map<OrderId, OrderDTO>)
    ensures forall id :: id in r <==> id in orders && R.MatchesSearch(orders[id], Criteria(search, user, users))
    ensures forall id :: id in r ==> r[id] == ToOrderDTO(orders[id]) && orders[id].active
  {
    var found := R.SearchOrders(orders, Criteria(search, user, users));
    map id | id in found :: ToOrderDTO(found[id])
  }

  /** A user without the administrator permission only ever sees their own orders,
      whatever user id the request names. */
  lemma NonAdminSeesOnlyOwnOrders(orders: map<OrderId, Order>, search: OrderSearch, user: User,
                                  users: map<UserId, User>, id: OrderId)
    requires ADMIN_PERMISSION !in user.permissions
    requires id in SearchOrders(orders, search, user, users)
    ensures orders[id].createdBy.id == user.id
  {
  }

  /** Whose orders a search returns. Write "matching" for the status and day filters
      together with `active`. A non-administrator gets exactly their own matching orders,
      whatever user id the request names; an administrator naming a known user gets exactly
      that user's matching orders; an administrator naming nobody, or a user id that does
      not exist, gets every matching order. */
  lemma SearchResultsByCaller(orders: map<OrderId, Order>, search: OrderSearch, user: User,
                              users: map<UserId, User>, id: OrderId)
    requires id in orders
    ensures var found := id in SearchOrders(orders, search, user, users);
            var matching := R.MatchesSearch(orders[id], Criteria(search, user, users).(user := None));
            var isAdmin := ADMIN_PERMISSION in user.permissions;
            && (!isAdmin ==> (found <==> matching && orders[id].createdBy.id == user.id))
            && (isAdmin && search.userId.Some? && search.userId.value in users ==>
                  (found <==> matching && orders[id].createdBy.id == users[search.userId.value].id))
            && (isAdmin && (search.userId.None? || search.userId.value !in users) ==> (found <==> matching))
  {
  }

  /** An administrator who names a user id that does not exist gets the same answer as one
      who names no user: the filter silently becomes a wildcard. */
  lemma AdminUnknownUserIsWildcard(orders: map<OrderId, Order>, search: OrderSearch, user: User,
                                   users: map<UserId, User>)
    requires ADMIN_PERMISSION in user.permissions
    requires search.userId.Some? && search.userId.value !in users
    ensures SearchOrders(orders, search, user, users) == SearchOrders(orders, search.(userId := None), user, users)
  {
  }

  /** Day bounds cover every whole-second instant of a day: an active order created at any
      whole second of day `d`, in a status the search admits, is found by a search from `d`
      to `d`. Time is counted in whole seconds. */
  lemma SearchFindsWholeDay(orders: map<OrderId, Order>, search: OrderSearch, user: User,
                            users: map<UserId, User>, id: OrderId, d: int)
    requires ADMIN_PERMISSION in user.permissions && search.userId.None?
    requires search.dateFrom == Some(d) && search.dateTo == Some(d)
    requires search.status.None? || (id in orders && orders[id].status in search.status.value)
    requires id in orders && orders[id].active
    requires StartOfDay(d) <= orders[id].createdAt < StartOfDay(d + 1)
    ensures id in SearchOrders(orders, search, user, users)
  {
  }

  // ---------------------------------------------------------------- the scheduler tick

  /** The body of the tick's loop for one due order. `faults` names the candidates whose
      body throws, with the exception message; such a candidate is logged and skipped. */
  function TickCandidate(st: Store, now: Time, id: OrderId, faults: map<OrderId, string>): Store
    requires id in st.orders
  {
    var owner := st.orders[id].createdBy;
    if id in faults then LogError(st, OP_SCHEDULE, Some(id), MSG_SCHEDULE_FAILED + faults[id], owner, now)
    else if !AdmissionOpen(st.orders) then LogError(st, OP_SCHEDULE, Some(id), MSG_SCHEDULE_CAP, owner, now)
    else Dispatch(st, id)
  }

  /** The loop over the first candidates of the tick. */
  function TickAll(st: Store, now: Time, due: seq<OrderId>, faults: map<OrderId, string>): (r: Store)
    requires forall i :: 0 <= i < |due| ==> due[i] in st.orders
    ensures r.orders == st.orders && r.nextOrderId == st.nextOrderId
    ensures r.nextRunId >= st.nextRunId && st.errors <= r.errors
    ensures |r.errors| + r.nextRunId == |st.errors| + st.nextRunId + |due|
    ensures forall k :: k in r.runs ==>
              k in st.runs || (st.nextRunId <= k < r.nextRunId && r.runs[k].stage == Settling && r.runs[k].orderId in st.orders)
    decreases |due|
  {
    if due == [] then st
    else TickCandidate(TickAll(st, now, due[..|due| - 1], faults), now, due[|due| - 1], faults)
  }

  /** A tick only adds runs: with run ids below the generator, every existing run survives. */
  lemma {:induction false} TickKeepsRuns(st: Store, now: Time, due: seq<OrderId>, faults: map<OrderId, string>)
    requires forall i :: 0 <= i < |due| ==> due[i] in st.orders
    requires forall k :: k in st.runs ==> k < st.nextRunId
    ensures var r := TickAll(st, now, due, faults);
            forall k :: k in st.runs ==> k in r.runs && r.runs[k] == st.runs[k]
    decreases |due|
  {
    if due != [] {
      var init := due[..|due| - 1];
      assert forall i :: 0 <= i < |init| ==> init[i] == due[i];
      TickKeepsRuns(st, now, init, faults);
    }
  }

  /** `due` is what the due-order query returned: each due order once, in some order. */
  ghost predicate IsDueListing(st: Store, now: Time, due: seq<OrderId>) {
    var dueSet := R.FindByScheduledForBeforeAndStatusAndActiveTrue(st.orders, now, ORDERED);
    && Seqs.NoDuplicates(due)
    && (forall i :: 0 <= i < |due| ==> due[i] in dueSet)
    && (forall id :: id in dueSet ==> id in due)
  }

  /** `processScheduledOrders`. */
  function ProcessScheduledOrders(st: Store, now: Time, due: seq<OrderId>, faults: map<OrderId, string>): Store
    requires IsDueListing(st, now, due)
  {
    TickAll(st, now, due, faults)
  }

  /** With the cap reached, a tick dispatches nothing and gives every candidate one
      SCHEDULE_ORDER entry, in listing order, naming the order and its owner: the exception
      message for a faulty candidate, the cap message for the others. */
  lemma {:induction false} TickAtCap(st: Store, now: Time, due: seq<OrderId>, faults: map<OrderId, string>)
    requires forall i :: 0 <= i < |due| ==> due[i] in st.orders
    requires !AdmissionOpen(st.orders)
    ensures var r := TickAll(st, now, due, faults);
            && r.runs == st.runs && r.nextRunId == st.nextRunId
            && |r.errors| == |st.errors| + |due| && r.errors[..|st.errors|] == st.errors
            && forall i :: 0 <= i < |due| ==>
                 r.errors[|st.errors| + i] ==
                   ErrorMessage(now, Some(due[i]), OP_SCHEDULE,
                                if due[i] in faults then MSG_SCHEDULE_FAILED + faults[due[i]] else MSG_SCHEDULE_CAP,
                                st.orders[due[i]].createdBy)
    decreases |due|
  {
    if due != [] {
      var init := due[..|due| - 1];
      assert forall i :: 0 <= i < |init| ==> init[i] == due[i];
      TickAtCap(st, now, init, faults);
      var p := TickAll(st, now, init, faults);
      var r := TickAll(st, now, due, faults);
      assert r.errors == p.errors + [r.errors[|p.errors|]];
    }
  }

  /** `r` holds a run for `id`, not yet started, that `st` did not have. */
  ghost predicate HasNewRun(st: Store, r: Store, id: OrderId) {
    exists k :: k in r.runs && k !in st.runs && r.runs[k] == Run(id, Settling)
  }

  /** Below the cap, a tick starts a new run for every candidate without a fault. */
  lemma {:induction false} TickBelowCap(st: Store, now: Time, due: seq<OrderId>, faults: map<OrderId, string>)
    requires forall i :: 0 <= i < |due| ==> due[i] in st.orders
    requires forall k :: k in st.runs ==> k < st.nextRunId
    requires AdmissionOpen(st.orders)
    ensures forall i :: 0 <= i < |due| && due[i] !in faults ==>
              HasNewRun(st, TickAll(st, now, due, faults), due[i])
    decreases |due|
  {
    if due != [] {
      var init := due[..|due| - 1];
      var last := due[|due| - 1];
      assert forall i :: 0 <= i < |init| ==> init[i] == due[i];
      TickBelowCap(st, now, init, faults);
      var p := TickAll(st, now, init, faults);
      var r := TickAll(st, now, due, faults);
      assert p.orders == st.orders;
      assert r == TickCandidate(p, now, last, faults);
      forall i | 0 <= i < |due| && due[i] !in faults
        ensures HasNewRun(st, r, due[i])
      {
        if i == |due| - 1 {
          assert r.runs[p.nextRunId] == Run(last, Settling);
          assert p.nextRunId !in st.runs;
        } else {
          assert HasNewRun(st, p, init[i]);
          var k :| k in p.runs && k !in st.runs && p.runs[k] == Run(init[i], Settling);
          assert r.runs[k] == Run(due[i], Settling);
        }
      }
    }
  }

  /** The SCHEDULE_ORDER entries that the faulty candidates of `due` log, in listing
      order: the exception message after the fixed prefix, the order id and its owner. */
  function FaultLog(orders: map<OrderId, Order>, now: Time, due: seq<OrderId>,
                    faults: map<OrderId, string>): seq<ErrorMessage>
    requires forall i :: 0 <= i < |due| ==> due[i] in orders
    decreases |due|
  {
    if due == [] then []
    else
      var id := due[|due| - 1];
      FaultLog(orders, now, due[..|due| - 1], faults) +
        if id in faults then [ErrorMessage(now, Some(id), OP_SCHEDULE, MSG_SCHEDULE_FAILED + faults[id], orders[id].createdBy)]
        else []
  }

  /** Below the cap, a tick logs exactly the faulty candidates' entries. */
  lemma {:induction false} TickBelowCapLogsFaults(st: Store, now: Time, due: seq<OrderId>, faults: map<OrderId, string>)
    requires forall i :: 0 <= i < |due| ==> due[i] in st.orders
    requires AdmissionOpen(st.orders)
    ensures TickAll(st, now, due, faults).errors == st.errors + FaultLog(st.orders, now, due, faults)
    decreases |due|
  {
    if due != [] {
      var init := due[..|due| - 1];
      var last := due[|due| - 1];
      assert forall i :: 0 <= i < |init| ==> init[i] == due[i];
      TickBelowCapLogsFaults(st, now, init, faults);
      var p := TickAll(st, now, init, faults);
      assert TickAll(st, now, due, faults) == TickCandidate(p, now, last, faults);
      assert p.orders == st.orders;
      if last !in faults {
        assert FaultLog(st.orders, now, due, faults) == FaultLog(st.orders, now, init, faults) + [];
      }
    }
  }

  /** Every run a tick starts is a fresh, not yet started run for a listed candidate
      without a fault: a faulty candidate never gets a run. */
  lemma {:induction false} TickRunsSkipFaults(st: Store, now: Time, due: seq<OrderId>, faults: map<OrderId, string>)
    requires forall i :: 0 <= i < |due| ==> due[i] in st.orders
    ensures var r := TickAll(st, now, due, faults);
            forall k :: st.nextRunId <= k < r.nextRunId ==>
              k in r.runs && r.runs[k].stage == Settling && r.runs[k].orderId in due && r.runs[k].orderId !in faults
  {
    var r := TickAll(st, now, due, faults);
    forall k | st.nextRunId <= k < r.nextRunId
      ensures k in r.runs && r.runs[k].stage == Settling && r.runs[k].orderId in due && r.runs[k].orderId !in faults
    {
      TickRunAt(st, now, due, faults, k);
    }
  }

  lemma {:induction false} TickRunAt(st: Store, now: Time, due: seq<OrderId>, faults: map<OrderId, string>, k: RunId)
    requires forall i :: 0 <= i < |due| ==> due[i] in st.orders
    requires st.nextRunId <= k < TickAll(st, now, due, faults).nextRunId
    ensures var r := TickAll(st, now, due, faults);
            k in r.runs && r.runs[k].stage == Settling && r.runs[k].orderId in due && r.runs[k].orderId !in faults
    decreases |due|
  {
    var init := due[..|due| - 1];
    var last := due[|due| - 1];
    assert forall i :: 0 <= i < |init| ==> init[i] == due[i];
    assert due == init + [last];
    var p := TickAll(st, now, init, faults);
    var r := TickAll(st, now, due, faults);
    assert r == TickCandidate(p, now, last, faults);
    if k < p.nextRunId {
      TickRunAt(st, now, init, faults, k);
      assert r.runs[k] == p.runs[k];
    } else {
      assert r == Dispatch(p, last) && k == p.nextRunId;
    }
  }

  // ---------------------------------------------------------------- steps and traces

  /** One thing that can happen to the store: a request, a scheduler tick, or a step of a
      dispatched run. Searching is left out because it changes nothing. */
  datatype Step =
    | Place(catalog: map<DishId, Dish>, dishIds: Option<seq<DishId>>, scheduledFor: Option<Time>, user: User, now: Time)
    | Cancel(orderId: OrderId, user: User, now: Time)
    | Track(orderId: OrderId, user: User, now: Time)
    | Tick(now: Time, due: seq<OrderId>, faults: map<OrderId, string>)
    | Begin(rid: RunId)
    | Advance(rid: RunId, now: Time)

  ghost predicate Enabled(st: Store, step: Step) {
    match step
    case Tick(now, due, _) => IsDueListing(st, now, due)
    case Begin(rid) => rid in st.runs && st.runs[rid].stage == Settling
    case Advance(rid, _) => rid in st.runs && st.runs[rid].stage != Settling
    case _ => true
  }

  ghost function Apply(st: Store, step: Step): Store
    requires Enabled(st, step)
  {
    match step
    case Place(catalog, dishIds, scheduledFor, user, now) => CreateOrder(st, catalog, dishIds, scheduledFor, user, now).store
    case Cancel(id, user, now) => CancelOrder(st, id, user, now).store
    case Track(id, user, now) => TrackOrder(st, id, user, now).store
    case Tick(now, due, faults) => ProcessScheduledOrders(st, now, due, faults)
    case Begin(rid) => BeginRun(st, rid)
    case Advance(rid, now) => AdvanceRun(st, rid, now)
  }

  /** The store after `steps`, or `None` when one of them is not possible. */
  ghost function Execute(st: Store, steps: seq<Step>): Option<Store>
    decreases |steps|
  {
    if steps == [] then Some(st)
    else if Enabled(st, steps[0]) then Execute(Apply(st, steps[0]), steps[1..])
    else None
  }

  /** The edges of the status chain (plus staying put). */
  ghost predicate StatusEdge(from: OrderStatus, to: OrderStatus) {
    || from == to
    || (from == ORDERED && (to == PREPARING || to == CANCELED))
    || (from == PREPARING && to == IN_DELIVERY)
    || (from == IN_DELIVERY && to == DELIVERED)
  }

  /** What a step may do to a stored order: move its status along one edge (refreshing the
      timestamp only then) and touch nothing else but the processing flag. */
  ghost predicate Persists(o: Order, o': Order) {
    && o'.id == o.id && o'.createdBy == o.createdBy && o'.active == o.active
    && o'.items == o.items && o'.createdAt == o.createdAt && o'.scheduledFor == o.scheduledFor
    && StatusEdge(o.status, o'.status)
    && (o'.status == o.status ==> o'.statusUpdatedAt == o.statusUpdatedAt)
  }

  ghost predicate Evolves(st: Store, st': Store) {
    && st.errors <= st'.errors
    && st.nextOrderId <= st'.nextOrderId && st.nextRunId <= st'.nextRunId
    && forall id :: id in st.orders ==> id in st'.orders && Persists(st.orders[id], st'.orders[id])
  }

  lemma BeginRunKeepsInvariants(st: Store, rid: RunId)
    requires Valid(st) && ProcessingHasDriver(st)
    requires rid in st.runs && st.runs[rid].stage == Settling
    ensures var st' := BeginRun(st, rid);
            Valid(st') && ProcessingHasDriver(st') && Evolves(st, st')
  {
    var st' := BeginRun(st, rid);
    var id := st.runs[rid].orderId;
    MarkOrderAsProcessingFrame(st.orders, id, true);
    forall k | k in st'.orders && st'.orders[k].isProcessing ensures exists r :: DrivenBy(st', k, r) {
      if k == id {
        assert DrivenBy(st', k, rid);
      } else {
        var r :| DrivenBy(st, k, r);
        assert r != rid;
        assert DrivenBy(st', k, r);
      }
    }
  }

  lemma AdvanceRunKeepsInvariants(st: Store, rid: RunId, now: Time)
    requires Valid(st) && ProcessingHasDriver(st)
    requires rid in st.runs && st.runs[rid].stage != Settling
    ensures var st' := AdvanceRun(st, rid, now);
            Valid(st') && ProcessingHasDriver(st') && Evolves(st, st')
  {
    var st' := AdvanceRun(st, rid, now);
    var run := st.runs[rid];
    var id := run.orderId;
    AdvanceRunCommitsOrAborts(st, rid, now);
    forall k | k in st'.orders && st'.orders[k].isProcessing ensures exists r :: DrivenBy(st', k, r) {
      if k == id {
        assert DrivenBy(st', k, rid);
      } else {
        var r :| DrivenBy(st, k, r);
        assert r != rid;
        assert DrivenBy(st', k, r);
      }
    }
  }

  lemma PlaceKeepsInvariants(st: Store, catalog: map<DishId, Dish>, dishIds: Option<seq<DishId>>,
                             scheduledFor: Option<Time>, user: User, now: Time)
    requires Valid(st) && ProcessingHasDriver(st)
    ensures var st' := CreateOrder(st, catalog, dishIds, scheduledFor, user, now).store;
            Valid(st') && ProcessingHasDriver(st') && Evolves(st, st')
  {
    var st' := CreateOrder(st, catalog, dishIds, scheduledFor, user, now).store;
    if CreateOrder(st, catalog, dishIds, scheduledFor, user, now).result.Ok? {
      PlacedOrder(st, catalog, dishIds, scheduledFor, user, now);
    } else {
      PlacementRejection(st, catalog, dishIds, scheduledFor, user, now);
    }
    forall k | k in st'.orders && st'.orders[k].isProcessing ensures exists r :: DrivenBy(st', k, r) {
      var r :| DrivenBy(st, k, r);
      assert DrivenBy(st', k, r);
    }
  }

  lemma TickKeepsInvariants(st: Store, now: Time, due: seq<OrderId>, faults: map<OrderId, string>)
    requires Valid(st) && ProcessingHasDriver(st) && IsDueListing(st, now, due)
    ensures var st' := ProcessScheduledOrders(st, now, due, faults);
            Valid(st') && ProcessingHasDriver(st') && Evolves(st, st')
  {
    var st' := ProcessScheduledOrders(st, now, due, faults);
    TickKeepsRuns(st, now, due, faults);
    forall k | k in st'.orders && st'.orders[k].isProcessing ensures exists r :: DrivenBy(st', k, r) {
      var r :| DrivenBy(st, k, r);
      assert DrivenBy(st', k, r);
    }
  }

  /** Every step keeps the store valid, never leaves a processing flag without a started
      run, only appends to the error log, and moves each stored order at most one edge
      along the status chain while its identity, owner, items, times and `active` flag
      stay as they were. The terminal statuses DELIVERED and CANCELED therefore never change. */
  lemma StepFollowsLifecycle(st: Store, step: Step)
    requires Valid(st) && ProcessingHasDriver(st) && Enabled(st, step)
    ensures var st' := Apply(st, step);
            Valid(st') && ProcessingHasDriver(st') && Evolves(st, st')
  {
    match step
    case Place(catalog, dishIds, scheduledFor, user, now) =>
      PlaceKeepsInvariants(st, catalog, dishIds, scheduledFor, user, now);
    case Cancel(id, user, now) =>
      CancelOrderOutcomes(st, id, user, now);
      var st' := Apply(st, step);
      forall k | k in st'.orders && st'.orders[k].isProcessing ensures exists r :: DrivenBy(st', k, r) {
        var r :| DrivenBy(st, k, r);
        assert DrivenBy(st', k, r);
      }
    case Track(id, user, now) =>
      TrackOrderReadOnly(st, id, user, now);
      var st' := Apply(st, step);
      forall k | k in st'.orders && st'.orders[k].isProcessing ensures exists r :: DrivenBy(st', k, r) {
        var r :| DrivenBy(st, k, r);
        assert DrivenBy(st', k, r);
      }
    case Tick(now, due, faults) =>
      TickKeepsInvariants(st, now, due, faults);
    case Begin(rid) =>
      BeginRunKeepsInvariants(st, rid);
    case Advance(rid, now) =>
      AdvanceRunKeepsInvariants(st, rid, now);
  }

  /** Every store reached from a valid store keeps the invariants. */
  lemma {:induction false} ExecuteKeepsInvariants(st: Store, steps: seq<Step>)
    requires Valid(st) && ProcessingHasDriver(st)
    requires Execute(st, steps).Some?
    ensures Valid(Execute(st, steps).value) && ProcessingHasDriver(Execute(st, steps).value)
    decreases |steps|
  {
    if steps != [] {
      StepFollowsLifecycle(st, steps[0]);
      ExecuteKeepsInvariants(Apply(st, steps[0]), steps[1..]);
    }
  }

  // ---------------------------------------------------------------- gaps the code leaves

  /** The first edge ignores the cap: committing ORDERED -> PREPARING always adds one to
      the in-flight count, also when three orders are already in flight. */
  lemma FirstEdgeIgnoresCap(st: Store, rid: RunId, now: Time)
    requires rid in st.runs && st.runs[rid].stage == BeforePreparing
    requires IsOrderValidForProcessing(st.orders, st.runs[rid].orderId, ORDERED)
    ensures InFlightCount(AdvanceRun(st, rid, now).orders) == InFlightCount(st.orders) + 1
    ensures var id := st.runs[rid].orderId;
            AdvanceRun(st, rid, now) == st.(orders := st.orders[id := st.orders[id].(status := PREPARING, statusUpdatedAt := now)],
                                           runs := st.runs[rid := Run(id, BeforeInDelivery)])
  {
    var id := st.runs[rid].orderId;
    var o := st.orders[id].(status := PREPARING, statusUpdatedAt := now);
    R.CountAfterWrite(st.orders, id, o, IN_FLIGHT);
  }

  /** Cancelling an order whose run is asleep before its first edge wins: the run then
      aborts, the order stays CANCELED and its processing flag is cleared. */
  lemma CancelDuringRunAborts(st: Store, rid: RunId, user: User, t1: Time, t2: Time)
    requires rid in st.runs && st.runs[rid].stage == BeforePreparing
    requires var id := st.runs[rid].orderId;
             id in st.orders && st.orders[id].status == ORDERED && IsOwnerOrAdmin(st.orders[id], user)
    ensures var id := st.runs[rid].orderId;
            var c := CancelOrder(st, id, user, t1);
            && c.result.Ok?
            && var s := AdvanceRun(c.store, rid, t2);
               && s.orders[id].status == CANCELED && s.orders[id].statusUpdatedAt == t1
               && !s.orders[id].isProcessing && rid !in s.runs
  {
  }

  /** The due-order query does not exclude orders a run already owns: a tick below the cap
      dispatches a second run for a due order whose first run has not committed its first
      edge yet. */
  lemma TickRedispatchesOwnedOrder(st: Store, now: Time, due: seq<OrderId>, faults: map<OrderId, string>,
                                   rid: RunId)
    requires Valid(st) && IsDueListing(st, now, due) && AdmissionOpen(st.orders)
    requires rid in st.runs && st.runs[rid].stage == BeforePreparing
    requires var id := st.runs[rid].orderId;
             && st.orders[id].status == ORDERED && st.orders[id].isProcessing
             && st.orders[id].scheduledFor.Some? && st.orders[id].scheduledFor.value < now
             && id !in faults
    ensures var id := st.runs[rid].orderId;
            var st' := ProcessScheduledOrders(st, now, due, faults);
            && rid in st'.runs && st'.runs[rid] == st.runs[rid]
            && HasNewRun(st, st', id)
  {
    var id := st.runs[rid].orderId;
    assert id in R.FindByScheduledForBeforeAndStatusAndActiveTrue(st.orders, now, ORDERED);
    var i :| 0 <= i < |due| && due[i] == id;
    TickBelowCap(st, now, due, faults);
    TickKeepsRuns(st, now, due, faults);
  }

  /** With two runs for one order, the second run's abort clears the processing flag
      although the first run is still alive and will go on moving the order. */
  lemma DuplicateRunClearsProcessingFlag(st: Store, r1: RunId, r2: RunId, now: Time)
    requires r1 != r2 && r1 in st.runs && r2 in st.runs
    requires st.runs[r1].orderId == st.runs[r2].orderId
    requires st.runs[r1].stage == BeforeInDelivery && st.runs[r2].stage == BeforePreparing
    requires var id := st.runs[r1].orderId;
             id in st.orders && st.orders[id].status == PREPARING && st.orders[id].isProcessing
    ensures var id := st.runs[r1].orderId;
            var st' := AdvanceRun(st, r2, now);
            && !st'.orders[id].isProcessing && st'.orders[id].status == PREPARING
            && DrivenBy(st', id, r1)
  {
  }

  lemma {:induction false} ExecuteAppend(st: Store, a: seq<Step>, b: seq<Step>)
    ensures Execute(st, a + b) == if Execute(st, a).Some? then Execute(Execute(st, a).value, b) else None
    decreases |a|
  {
    if a != [] {
      assert (a + b)[0] == a[0] && (a + b)[1..] == a[1..] + b;
      if Enabled(st, a[0]) {
        ExecuteAppend(Apply(st, a[0]), a[1..], b);
      }
    } else {
      assert a + b == b;
    }
  }

  lemma ExecuteCons(st: Store, step: Step, rest: seq<Step>)
    requires Enabled(st, step)
    ensures Execute(st, [step] + rest) == Execute(Apply(st, step), rest)
  {
    assert ([step] + rest)[1..] == rest;
  }

  /** An immediate one-dish order of dish 0. */
  function OneDish(catalog: map<DishId, Dish>, user: User, now: Time): Step {
    Place(catalog, Some([0]), None, user, now)
  }

  /** The trace runs four orders, numbered 0 to 3, each by the run of the same number. */
  const TRACE_ORDERS: nat := 4

  /** The placements of orders `n` to 3. */
  function PlacementsFrom(catalog: map<DishId, Dish>, user: User, now: Time, n: nat): seq<Step>
    decreases TRACE_ORDERS - n
  {
    if n >= TRACE_ORDERS then [] else [OneDish(catalog, user, now)] + PlacementsFrom(catalog, user, now, n + 1)
  }

  /** The starts of runs `n` to 3. */
  function StartsFrom(n: nat): seq<Step>
    decreases TRACE_ORDERS - n
  {
    if n >= TRACE_ORDERS then [] else [Begin(n)] + StartsFrom(n + 1)
  }

  /** The first edges of runs `n` to 3. */
  function EdgesFrom(n: nat, now: Time): seq<Step>
    decreases TRACE_ORDERS - n
  {
    if n >= TRACE_ORDERS then [] else [Advance(n, now)] + EdgesFrom(n + 1, now)
  }

  /** Four immediate orders, the start of their runs and their four first edges. */
  function CapTrace(catalog: map<DishId, Dish>, user: User, now: Time): seq<Step> {
    PlacementsFrom(catalog, user, now, 0) + StartsFrom(0) + EdgesFrom(0, now)
  }

  function Placed(catalog: map<DishId, Dish>, user: User, now: Time, k: OrderId): Order
    requires 0 in catalog
  {
    NewOrder(k, user, [catalog[0]], None, now)
  }

  /** The store after one more immediate one-dish order is admitted. */
  function WithPlaced(st: Store, catalog: map<DishId, Dish>, user: User, now: Time): Store
    requires 0 in catalog
  {
    Store(st.orders[st.nextOrderId := Placed(catalog, user, now, st.nextOrderId)], st.errors,
          st.runs[st.nextRunId := Run(st.nextOrderId, Settling)], st.nextOrderId + 1, st.nextRunId + 1)
  }

  lemma PlaceOneDish(st: Store, catalog: map<DishId, Dish>, user: User, now: Time)
    requires 0 in catalog && InFlightCount(st.orders) == 0
    ensures Enabled(st, OneDish(catalog, user, now))
    ensures Apply(st, OneDish(catalog, user, now)) == WithPlaced(st, catalog, user, now)
  {
    AllDishesFoundIffKnown(catalog, [0]);
    assert AdmissionOpen(st.orders) && AllDishesFound(catalog, [0]);
    assert OrderItems(catalog, [0]) == [catalog[0]];
    assert Apply(st, OneDish(catalog, user, now)) == CreateOrder(st, catalog, Some([0]), None, user, now).store;
  }

  /** The store once orders 0 to `n - 1` are placed, each with a settling run of its own number. */
  function PlacedStore(catalog: map<DishId, Dish>, user: User, now: Time, n: nat): Store
    requires 0 in catalog
  {
    Store(map k: nat | k < n :: Placed(catalog, user, now, k), [],
          map k: nat | k < n :: Run(k, Settling), n, n)
  }

  lemma PlacedStoreNothingInFlight(catalog: map<DishId, Dish>, user: User, now: Time, n: nat)
    requires 0 in catalog
    ensures InFlightCount(PlacedStore(catalog, user, now, n).orders) == 0
  {
  }

  lemma PlacedStoreGrows(catalog: map<DishId, Dish>, user: User, now: Time, n: nat)
    requires 0 in catalog
    ensures WithPlaced(PlacedStore(catalog, user, now, n), catalog, user, now) == PlacedStore(catalog, user, now, n + 1)
  {
  }

  lemma PlacementStep(catalog: map<DishId, Dish>, user: User, now: Time, n: nat)
    requires 0 in catalog && n < TRACE_ORDERS
    ensures Execute(PlacedStore(catalog, user, now, n), PlacementsFrom(catalog, user, now, n))
            == Execute(PlacedStore(catalog, user, now, n + 1), PlacementsFrom(catalog, user, now, n + 1))
  {
    var s := PlacedStore(catalog, user, now, n);
    PlacedStoreNothingInFlight(catalog, user, now, n);
    PlaceOneDish(s, catalog, user, now);
    PlacedStoreGrows(catalog, user, now, n);
    assert PlacementsFrom(catalog, user, now, n) == [OneDish(catalog, user, now)] + PlacementsFrom(catalog, user, now, n + 1);
    ExecuteCons(s, OneDish(catalog, user, now), PlacementsFrom(catalog, user, now, n + 1));
  }

  lemma {:induction false} PlacementsRun(catalog: map<DishId, Dish>, user: User, now: Time, n: nat)
    requires 0 in catalog && n <= TRACE_ORDERS
    ensures Execute(PlacedStore(catalog, user, now, n), PlacementsFrom(catalog, user, now, n))
            == Some(PlacedStore(catalog, user, now, TRACE_ORDERS))
    decreases TRACE_ORDERS - n
  {
    if n < TRACE_ORDERS {
      PlacementStep(catalog, user, now, n);
      PlacementsRun(catalog, user, now, n + 1);
    }
  }

  /** The four orders are stored, active and ORDERED; runs below `n` have started. */
  ghost predicate StartedUpTo(s: Store, n: nat) {
    && (forall k: nat :: k in s.orders <==> k < TRACE_ORDERS) && (forall k: nat :: k in s.runs <==> k < TRACE_ORDERS)
    && (forall k :: k in s.orders ==> s.orders[k].active && s.orders[k].status == ORDERED)
    && (forall k :: k in s.runs ==> s.runs[k] == Run(k, if k < n then BeforePreparing else Settling))
  }

  lemma {:induction false} StartsRun(s: Store, n: nat)
    requires n <= TRACE_ORDERS && StartedUpTo(s, n)
    ensures var r := Execute(s, StartsFrom(n));
            r.Some? && StartedUpTo(r.value, TRACE_ORDERS)
    decreases TRACE_ORDERS - n
  {
    if n < TRACE_ORDERS {
      var s' := BeginRun(s, n);
      assert StartedUpTo(s', n + 1);
      StartsRun(s', n + 1);
      ExecuteCons(s, Begin(n), StartsFrom(n + 1));
    }
  }

  /** The runs below `n` have committed their first edge; `n` orders are in flight. */
  ghost predicate EdgesUpTo(s: Store, n: nat) {
    && (forall k: nat :: k in s.orders <==> k < TRACE_ORDERS) && (forall k: nat :: k in s.runs <==> k < TRACE_ORDERS)
    && (forall k :: k in s.orders ==>
          s.orders[k].active && s.orders[k].status == (if k < n then PREPARING else ORDERED))
    && (forall k :: k in s.runs ==> s.runs[k] == Run(k, if k < n then BeforeInDelivery else BeforePreparing))
    && InFlightCount(s.orders) == n
  }

  /** Once all four runs have started, none of the orders is in flight yet. */
  lemma StartedReadyForEdges(s: Store)
    requires StartedUpTo(s, TRACE_ORDERS)
    ensures EdgesUpTo(s, 0)
  {
    assert InFlightCount(s.orders) == 0;
  }

  lemma {:induction false} EdgesRun(s: Store, n: nat, now: Time)
    requires n <= TRACE_ORDERS && EdgesUpTo(s, n)
    ensures var r := Execute(s, EdgesFrom(n, now));
            r.Some? && InFlightCount(r.value.orders) == TRACE_ORDERS
    decreases TRACE_ORDERS - n
  {
    if n < TRACE_ORDERS {
      FirstEdgeIgnoresCap(s, n, now);
      var s' := AdvanceRun(s, n, now);
      assert EdgesUpTo(s', n + 1);
      EdgesRun(s', n + 1, now);
      ExecuteCons(s, Advance(n, now), EdgesFrom(n + 1, now));
    }
  }

  /** From an empty store, four immediate orders placed one after another are all admitted
      (none of them is in flight yet) and their runs take all four into PREPARING: four
      orders in flight although the cap is three. */
  lemma CapExceededFromEmptyStore(catalog: map<DishId, Dish>, user: User, now: Time)
    requires 0 in catalog
    ensures var s := Execute(EmptyStore, CapTrace(catalog, user, now));
            s.Some? && InFlightCount(s.value.orders) == MAX_CONCURRENT_ORDERS + 1
  {
    var places := PlacementsFrom(catalog, user, now, 0);
    assert PlacedStore(catalog, user, now, 0) == EmptyStore;
    PlacementsRun(catalog, user, now, 0);
    var a := Execute(EmptyStore, places).value;
    assert StartedUpTo(a, 0);
    StartsRun(a, 0);
    ExecuteAppend(EmptyStore, places, StartsFrom(0));
    var b := Execute(a, StartsFrom(0)).value;
    StartedReadyForEdges(b);
    EdgesRun(b, 0, now);
    ExecuteAppend(EmptyStore, places + StartsFrom(0), EdgesFrom(0, now));
  }
}
