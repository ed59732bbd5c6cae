/** The order table's query methods, as filters and counts over the stored orders. */
module OrderRepository {
  import opened Orders

  type OrderTable = map<OrderId, Order>

  /** Ids of the active orders whose status is one of `statuses`. */
  function ActiveInStatuses(orders: OrderTable, statuses: set<OrderStatus>): set<OrderId> {
    set id | id in orders && orders[id].active && orders[id].status in statuses
  }

  /** `countByStatusInAndActiveTrue`: the number of active orders in one of `statuses`. */
  function CountByStatusInAndActiveTrue(orders: OrderTable, statuses: set<OrderStatus>): (n: nat)
    ensures n == 0 <==> forall id :: id in orders && orders[id].active ==> orders[id].status !in statuses
  {
    ActiveInStatusesEmpty(orders, statuses);
    |ActiveInStatuses(orders, statuses)|
  }

  lemma ActiveInStatusesEmpty(orders: OrderTable, statuses: set<OrderStatus>)
    ensures ActiveInStatuses(orders, statuses) == {}
            <==> forall id :: id in orders && orders[id].active ==> orders[id].status !in statuses
  {
    var s := ActiveInStatuses(orders, statuses);
    assert forall id :: id in orders && orders[id].active && orders[id].status in statuses ==> id in s;
    if s != {} {
      var w :| w in s;
      assert w in orders && orders[w].active && orders[w].status in statuses;
    }
  }

  /** The ids matching after a write: the other ids as before, `id` by its new record. */
  lemma ActiveAfterWrite(orders: OrderTable, id: OrderId, o: Order, statuses: set<OrderStatus>)
    ensures ActiveInStatuses(orders[id := o], statuses)
            == (ActiveInStatuses(orders, statuses) - {id}) + (if o.active && o.status in statuses then {id} else {})
  {
  }

  lemma CardinalityWithout<T>(s: set<T>, x: T)
    ensures |s| == |s - {x}| + (if x in s then 1 else 0)
  {
    if x in s {
      assert s == (s - {x}) + {x};
    } else {
      assert s - {x} == s;
    }
  }

  /** Replacing one stored record changes the count by what that record contributes. */
  lemma CountAfterWrite(orders: OrderTable, id: OrderId, o: Order, statuses: set<OrderStatus>)
    ensures CountByStatusInAndActiveTrue(orders[id := o], statuses)
            == CountByStatusInAndActiveTrue(orders, statuses)
               - (if id in orders && orders[id].active && orders[id].status in statuses then 1 else 0)
               + (if o.active && o.status in statuses then 1 else 0)
  {
    var before := ActiveInStatuses(orders, statuses);
    ActiveAfterWrite(orders, id, o, statuses);
    CardinalityWithout(before, id);
    var rest := before - {id};
    assert |rest + {id}| == |rest| + 1;
    assert rest + {} == rest;
  }

  /** A write that keeps the record's `active` flag and status leaves every count alone. */
  lemma CountUnchangedByWrite(orders: OrderTable, id: OrderId, o: Order, statuses: set<OrderStatus>)
    requires id in orders && orders[id].active == o.active && orders[id].status == o.status
    ensures CountByStatusInAndActiveTrue(orders[id := o], statuses) == CountByStatusInAndActiveTrue(orders, statuses)
  {
    assert ActiveInStatuses(orders[id := o], statuses) == ActiveInStatuses(orders, statuses);
  }

  /** The search criteria after the service has chosen the target user and turned the
      requested days into instants; `None` is a SQL NULL parameter. */
  datatype SearchCriteria = SearchCriteria(statuses: Option<set<OrderStatus>>, dateFrom: Option<Time>,
                                           dateTo: Option<Time>, user: Option<User>)

  predicate MatchesSearch(o: Order, c: SearchCriteria) {
    && (c.statuses.None? || o.status in c.statuses.value)
    && (c.dateFrom.None? || o.createdAt >= c.dateFrom.value)
    && (c.dateTo.None? || o.createdAt <= c.dateTo.value)
    && (c.user.None? || o.createdBy.id == c.user.value.id)
    && o.active
  }

  /** `searchOrders`: the stored orders that satisfy the query, keyed by id. */
  function SearchOrders(orders: OrderTable, c: SearchCriteria): (r: OrderTable)
    ensures forall id :: id in r ==> id in orders && r[id] == orders[id]
    ensures forall id :: id in orders ==> (id in r <==> MatchesSearch(orders[id], c))
  {
    map id | id in orders && MatchesSearch(orders[id], c) :: orders[id]
  }

  /** Whatever the criteria, an inactive order is never returned. */
  lemma SearchNeverReturnsInactive(orders: OrderTable, c: SearchCriteria, id: OrderId)
    requires id in SearchOrders(orders, c)
    ensures SearchOrders(orders, c)[id].active
  {
  }

  /** Each criterion that is given holds of every returned order. */
  lemma SearchHonoursCriteria(orders: OrderTable, c: SearchCriteria, id: OrderId)
    requires id in SearchOrders(orders, c)
    ensures var o := SearchOrders(orders, c)[id];
            && (c.statuses.Some? ==> o.status in c.statuses.value)
            && (c.dateFrom.Some? ==> c.dateFrom.value <= o.createdAt)
            && (c.dateTo.Some? ==> o.createdAt <= c.dateTo.value)
            && (c.user.Some? ==> o.createdBy.id == c.user.value.id)
  {
  }

  /** With every parameter NULL the search returns exactly the active orders. */
  lemma SearchAllWildcards(orders: OrderTable)
    ensures SearchOrders(orders, SearchCriteria(None, None, None, None))
            == map id | id in orders && orders[id].active :: orders[id]
  {
  }

  /** A NULL parameter is a wildcard: dropping one criterion can only widen the result. */
  lemma SearchDroppingCriterionWidens(orders: OrderTable, c: SearchCriteria)
    ensures forall id :: id in SearchOrders(orders, c) ==>
              && id in SearchOrders(orders, c.(statuses := None))
              && id in SearchOrders(orders, c.(dateFrom := None))
              && id in SearchOrders(orders, c.(dateTo := None))
              && id in SearchOrders(orders, c.(user := None))
  {
  }

  /** Both date bounds are inclusive: an active order created exactly at the bound is
      found when the bounds are the same instant. */
  lemma SearchDateBoundsInclusive(orders: OrderTable, id: OrderId)
    requires id in orders && orders[id].active
    ensures var t := orders[id].createdAt;
            id in SearchOrders(orders, SearchCriteria(None, Some(t), Some(t), None))
  {
  }

  /** `findByScheduledForBeforeAndStatusAndActiveTrue`: active orders in `status` whose
      scheduled time is strictly before `time`. Orders without a scheduled time never match. */
  function FindByScheduledForBeforeAndStatusAndActiveTrue(orders: OrderTable, time: Time, status: OrderStatus): (r: OrderTable)
    ensures forall id :: id in r ==> id in orders && r[id] == orders[id]
    ensures forall id :: id in orders ==>
              (id in r <==> (orders[id].active && orders[id].status == status
                             && orders[id].scheduledFor.Some? && orders[id].scheduledFor.value < time))
  {
    map id | id in orders && orders[id].active && orders[id].status == status
                          && orders[id].scheduledFor.Some? && orders[id].scheduledFor.value < time
           :: orders[id]
  }

  /** `findByStatusAndActiveTrueAndIsProcessingFalse`: the active, non-processing orders in `status`. */
  function FindByStatusAndActiveTrueAndIsProcessingFalse(orders: OrderTable, status: OrderStatus): (r: OrderTable)
    ensures forall id :: id in r ==> id in orders && r[id] == orders[id]
    ensures forall id :: id in orders ==>
              (id in r <==> (orders[id].active && orders[id].status == status && !orders[id].isProcessing))
  {
    map id | id in orders && orders[id].active && orders[id].status == status && !orders[id].isProcessing
           :: orders[id]
  }

  /** The due-order query, unlike the dormant-order query, does not look at `isProcessing`:
      an order that a run already owns is still listed as due while it is ORDERED. */
  lemma DueQueryIgnoresProcessingFlag(orders: OrderTable, time: Time, id: OrderId)
    requires id in orders && orders[id].active && orders[id].status == ORDERED && orders[id].isProcessing
    requires orders[id].scheduledFor.Some? && orders[id].scheduledFor.value < time
    ensures id in FindByScheduledForBeforeAndStatusAndActiveTrue(orders, time, ORDERED)
    ensures id !in FindByStatusAndActiveTrueAndIsProcessingFalse(orders, ORDERED)
  {
  }

  /** The due-order bound is strict: an order scheduled exactly at `time` is not yet due. */
  lemma DueQueryBoundIsStrict(orders: OrderTable, id: OrderId)
    requires id in orders && orders[id].scheduledFor.Some?
    ensures id !in FindByScheduledForBeforeAndStatusAndActiveTrue(orders, orders[id].scheduledFor.value, ORDERED)
  {
  }
}
