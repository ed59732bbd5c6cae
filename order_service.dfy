/** The order service as an object whose state is the order table, the error log and the
    dispatched runs. Each method changes that state step by step as the service does and
    is proved to end in the state the matching transition of `OrderLifecycle` describes,
    so everything proved there about the transitions holds of the methods. */
module OrderServices {
  import opened Orders
  import Seqs
  import R = OrderRepository
  import L = OrderLifecycle

  class OrderService {
    var orders: map<OrderId, Order>
    var errors: seq<ErrorMessage>
    var runs: map<L.RunId, L.Run>
    var nextOrderId: nat
    var nextRunId: nat

    /** The service's state as one value. */
    function Snapshot(): L.Store
      reads this
    {
      L.Store(orders, errors, runs, nextOrderId, nextRunId)
    }

    ghost predicate Valid()
      reads this
    {
      L.Valid(Snapshot()) && L.ProcessingHasDriver(Snapshot())
    }

    /** A service over an empty database. */
    constructor()
      ensures Snapshot() == L.EmptyStore && Valid()
    {
      orders, errors, runs, nextOrderId, nextRunId := map[], [], map[], 0, 0;
    }

    /** `logError`. */
    method LogError(operation: string, orderId: Option<OrderId>, message: string, user: User, now: Time)
      modifies this
      ensures Snapshot() == L.LogError(old(Snapshot()), operation, orderId, message, user, now)
    {
      errors := errors + [ErrorMessage(now, orderId, operation, message, user)];
    }

    /** `updateOrderStatus`. */
    method UpdateOrderStatus(id: OrderId, newStatus: OrderStatus, now: Time)
      modifies this
      ensures Snapshot() == old(Snapshot()).(orders := L.UpdateOrderStatus(old(orders), id, newStatus, now))
    {
      if id in orders {
        var order := orders[id];
        if order.active {
          orders := orders[id := order.(status := newStatus, statusUpdatedAt := now)];
        }
      }
    }

    /** `markOrderAsProcessing`. */
    method MarkOrderAsProcessing(id: OrderId, flag: bool)
      modifies this
      ensures Snapshot() == old(Snapshot()).(orders := L.MarkOrderAsProcessing(old(orders), id, flag))
    {
      if id in orders {
        var order := orders[id];
        orders := orders[id := order.(isProcessing := flag)];
      }
    }

    /** `CompletableFuture.runAsync`: hand the order to a new run. */
    method Dispatch(id: OrderId)
      modifies this
      ensures Snapshot() == L.Dispatch(old(Snapshot()), id)
    {
      runs := runs[nextRunId := L.Run(id, L.Settling)];
      nextRunId := nextRunId + 1;
    }

    /** `createOrder`: the checks in order, each failure logged as PLACE_ORDER. */
    method CreateOrder(catalog: map<DishId, Dish>, dishIds: Option<seq<DishId>>, scheduledFor: Option<Time>,
                       user: User, now: Time) returns (r: Result<OrderDTO>)
      requires Valid()
      modifies this
      ensures L.Outcome(Snapshot(), r) == L.CreateOrder(old(Snapshot()), catalog, dishIds, scheduledFor, user, now)
      ensures Valid()
    {
      L.PlaceKeepsInvariants(Snapshot(), catalog, dishIds, scheduledFor, user, now);
      if dishIds.None? || |dishIds.value| == 0 {
        LogError(L.OP_PLACE, None, L.MSG_EMPTY, user, now);
        return Err(L.MSG_EMPTY);
      }
      var ids := dishIds.value;
      if |ids| > L.MAX_DISHES_PER_ORDER {
        LogError(L.OP_PLACE, None, L.MSG_TOO_MANY, user, now);
        return Err(L.MSG_TOO_MANY);
      }
      var activeOrders := R.CountByStatusInAndActiveTrue(orders, L.IN_FLIGHT);
      if activeOrders >= L.MAX_CONCURRENT_ORDERS {
        LogError(L.OP_PLACE, None, L.MSG_CAP, user, now);
        return Err(L.MSG_CAP);
      }
      var uniqueDishIds := Seqs.Dedup(ids);
      var dishes := L.FindAllById(catalog, uniqueDishIds);
      if |dishes| != |uniqueDishIds| {
        LogError(L.OP_PLACE, None, L.MSG_UNKNOWN_DISH, user, now);
        return Err(L.MSG_UNKNOWN_DISH);
      }
      L.AllDishesFoundIffKnown(catalog, ids);
      var order := NewOrder(nextOrderId, user, L.OrderItems(catalog, ids), scheduledFor, now);
      orders := orders[order.id := order];
      nextOrderId := nextOrderId + 1;
      if L.DispatchNow(scheduledFor, now) {
        Dispatch(order.id);
      }
      r := Ok(ToOrderDTO(order));
    }

    /** The start of `processOrderAsync`, once the settling delay is over. */
    method BeginRun(rid: L.RunId)
      requires Valid() && rid in runs && runs[rid].stage == L.Settling
      modifies this
      ensures Snapshot() == L.BeginRun(old(Snapshot()), rid)
      ensures Valid()
    {
      L.BeginRunKeepsInvariants(Snapshot(), rid);
      var id := runs[rid].orderId;
      MarkOrderAsProcessing(id, true);
      runs := runs[rid := L.Run(id, L.BeforePreparing)];
    }

    /** One edge of `processOrderAsync`, once its sleep is over. */
    method AdvanceRun(rid: L.RunId, now: Time)
      requires Valid() && rid in runs && runs[rid].stage != L.Settling
      modifies this
      ensures Snapshot() == L.AdvanceRun(old(Snapshot()), rid, now)
      ensures Valid()
    {
      L.AdvanceRunKeepsInvariants(Snapshot(), rid, now);
      var run := runs[rid];
      var id := run.orderId;
      if !L.IsOrderValidForProcessing(orders, id, L.Expected(run.stage)) {
        MarkOrderAsProcessing(id, false);
        runs := runs - {rid};
        return;
      }
      UpdateOrderStatus(id, L.Target(run.stage), now);
      if run.stage == L.BeforeDelivered {
        MarkOrderAsProcessing(id, false);
        runs := runs - {rid};
      } else {
        runs := runs[rid := L.Run(id, L.NextStage(run.stage))];
      }
    }

    /** `cancelOrder`. */
    method CancelOrder(id: OrderId, user: User, now: Time) returns (r: Result<()>)
      requires Valid()
      modifies this
      ensures L.Outcome(Snapshot(), r) == L.CancelOrder(old(Snapshot()), id, user, now)
      ensures Valid()
    {
      L.StepFollowsLifecycle(Snapshot(), L.Cancel(id, user, now));
      if id !in orders {
        return Err(L.MSG_NOT_FOUND);
      }
      var order := orders[id];
      if order.createdBy.id != user.id && L.ADMIN_PERMISSION !in user.permissions {
        LogError(L.OP_CANCEL, Some(id), L.MSG_ACCESS_DENIED, user, now);
        return Err(L.MSG_ACCESS_DENIED);
      }
      if order.status != ORDERED {
        LogError(L.OP_CANCEL, Some(id), L.MSG_NOT_CANCELABLE, user, now);
        return Err(L.MSG_NOT_CANCELABLE);
      }
      orders := orders[id := order.(status := CANCELED, statusUpdatedAt := now)];
      r := Ok(());
    }

    /** `trackOrder`. */
    method TrackOrder(id: OrderId, user: User, now: Time) returns (r: Result<OrderDTO>)
      requires Valid()
      modifies this
      ensures L.Outcome(Snapshot(), r) == L.TrackOrder(old(Snapshot()), id, user, now)
      ensures Valid()
    {
      L.StepFollowsLifecycle(Snapshot(), L.Track(id, user, now));
      if id !in orders {
        return Err(L.MSG_NOT_FOUND);
      }
      var order := orders[id];
      if order.createdBy.id != user.id && L.ADMIN_PERMISSION !in user.permissions {
        LogError(L.OP_TRACK, Some(id), L.MSG_ACCESS_DENIED, user, now);
        return Err(L.MSG_ACCESS_DENIED);
      }
      r := Ok(ToOrderDTO(order));
    }

    /** `searchOrders`: choose the target user, widen the days to instants, query. */
    method SearchOrders(search: L.OrderSearch, user: User, users: map<UserId, User>)
      returns (r: map<OrderId, OrderDTO>)
      ensures r == L.SearchOrders(orders, search, user, users)
    {
      var dateFrom: Option<Time> := None;
      if search.dateFrom.Some? {
        dateFrom := Some(L.StartOfDay(search.dateFrom.value));
      }
      var dateTo: Option<Time> := None;
      if search.dateTo.Some? {
        dateTo := Some(L.EndOfDay(search.dateTo.value));
      }
      var targetUser: Option<User> := None;
      var isAdmin := L.ADMIN_PERMISSION in user.permissions;
      if isAdmin && search.userId.Some? {
        if search.userId.value in users {
          targetUser := Some(users[search.userId.value]);
        }
      } else if !isAdmin {
        targetUser := Some(user);
      }
      var criteria := R.SearchCriteria(search.status, dateFrom, dateTo, targetUser);
      assert criteria == L.Criteria(search, user, users);
      var found := R.SearchOrders(orders, criteria);
      r := map id | id in found :: ToOrderDTO(found[id]);
    }

    /** `processScheduledOrders`: the due orders are visited in an order the database
        chooses (returned as `due`); `faults` names the candidates whose handling throws. */
    method ProcessScheduledOrders(now: Time, faults: map<OrderId, string>) returns (ghost due: seq<OrderId>)
      requires Valid()
      modifies this
      ensures L.IsDueListing(old(Snapshot()), now, due)
      ensures Snapshot() == L.ProcessScheduledOrders(old(Snapshot()), now, due, faults)
      ensures Valid()
    {
      ghost var s0 := Snapshot();
      var scheduledOrders := R.FindByScheduledForBeforeAndStatusAndActiveTrue(orders, now, ORDERED);
      var remaining := scheduledOrders.Keys;
      due := [];
      while remaining != {}
        invariant remaining <= scheduledOrders.Keys
        invariant forall i :: 0 <= i < |due| ==> due[i] in scheduledOrders && due[i] !in remaining
        invariant forall id :: id in scheduledOrders && id !in remaining ==> id in due
        invariant Seqs.NoDuplicates(due)
        invariant orders == s0.orders
        invariant Snapshot() == L.TickAll(s0, now, due, faults)
        decreases remaining
      {
        var id :| id in remaining;
        var order := scheduledOrders[id];
        ghost var before := due;
        assert L.TickAll(s0, now, before + [id], faults) == L.TickCandidate(Snapshot(), now, id, faults) by {
          assert (before + [id])[..|before|] == before;
        }
        if id in faults {
          LogError(L.OP_SCHEDULE, Some(id), L.MSG_SCHEDULE_FAILED + faults[id], order.createdBy, now);
        } else {
          var activeOrders := R.CountByStatusInAndActiveTrue(orders, L.IN_FLIGHT);
          if activeOrders >= L.MAX_CONCURRENT_ORDERS {
            LogError(L.OP_SCHEDULE, Some(id), L.MSG_SCHEDULE_CAP, order.createdBy, now);
          } else {
            Dispatch(id);
          }
        }
        due := before + [id];
        remaining := remaining - {id};
      }
      L.TickKeepsInvariants(s0, now, due, faults);
    }
  }
}
