/** The order-list screen of the web client: grouping an order's items into
    (name, price, quantity) lines, the status colours, and the status guard before a
    cancellation request. */
module OrderList {
  import opened Orders
  import Seqs
  import OrderCreate
  import L = OrderLifecycle

  /** The grouping key: an item's name and price. */
  datatype ItemKey = ItemKey(name: string, price: Price)

  /** One line of the grouped view. */
  datatype GroupedItem = GroupedItem(name: string, price: Price, quantity: nat)

  function KeyOf(d: DishDTO): ItemKey { ItemKey(d.name, d.price) }

  function KeysOf(items: seq<DishDTO>): (r: seq<ItemKey>)
    ensures |r| == |items| && forall i :: 0 <= i < |items| ==> r[i] == KeyOf(items[i])
  {
    seq(|items|, i requires 0 <= i < |items| => KeyOf(items[i]))
  }

  /** The line for key `k`: how many of `keys` are `k`. */
  function Entry(keys: seq<ItemKey>, k: ItemKey): GroupedItem {
    GroupedItem(k.name, k.price, Seqs.Count(keys, k))
  }

  /** The lines for `ks`, in that order. */
  function Entries(ks: seq<ItemKey>, keys: seq<ItemKey>): (r: seq<GroupedItem>)
    ensures |r| == |ks| && forall j :: 0 <= j < |ks| ==> r[j] == Entry(keys, ks[j])
  {
    if ks == [] then [] else Entries(ks[..|ks| - 1], keys) + [Entry(keys, ks[|ks| - 1])]
  }

  /** The grouped view: one line per distinct key, in first-occurrence order. */
  function GroupedItems(items: seq<DishDTO>): seq<GroupedItem> {
    Entries(Seqs.Dedup(KeysOf(items)), KeysOf(items))
  }

  function TotalQuantity(g: seq<GroupedItem>): nat {
    if g == [] then 0 else TotalQuantity(g[..|g| - 1]) + g[|g| - 1].quantity
  }

  lemma {:induction false} TotalOfEntries(ks: seq<ItemKey>, keys: seq<ItemKey>)
    ensures TotalQuantity(Entries(ks, keys)) == Seqs.SumOfCounts(ks, keys)
  {
    if ks != [] {
      var e := Entries(ks, keys);
      assert e[..|e| - 1] == Entries(ks[..|ks| - 1], keys);
      TotalOfEntries(ks[..|ks| - 1], keys);
    }
  }

  /** The state of `getGroupedItems`: the keys in insertion order and the key-to-line map. */
  datatype Tally = Tally(insertionOrder: seq<ItemKey>, itemMap: map<ItemKey, GroupedItem>)

  /** The state after reading `keys`: a known key gets one more, a new key a line of one. */
  ghost function Tallied(keys: seq<ItemKey>): Tally {
    if keys == [] then Tally([], map[])
    else
      var t, key := Tallied(keys[..|keys| - 1]), keys[|keys| - 1];
      if key in t.itemMap then
        Tally(t.insertionOrder, t.itemMap[key := t.itemMap[key].(quantity := t.itemMap[key].quantity + 1)])
      else
        Tally(t.insertionOrder + [key], t.itemMap[key := GroupedItem(key.name, key.price, 1)])
  }

  /** After reading `keys`, the insertion order is the distinct keys in first-occurrence order,
      the map has exactly those keys, and each line holds its key's count. */
  lemma {:induction false} TalliedIsGrouping(keys: seq<ItemKey>)
    ensures var t := Tallied(keys);
            && t.insertionOrder == Seqs.Dedup(keys)
            && (forall k :: k in t.itemMap <==> k in t.insertionOrder)
            && (forall k :: k in t.itemMap ==> t.itemMap[k] == Entry(keys, k))
  {
    if keys != [] {
      var pre, key := keys[..|keys| - 1], keys[|keys| - 1];
      TalliedIsGrouping(pre);
      assert keys == pre + [key];
      forall k ensures Seqs.Count(keys, k) == Seqs.Count(pre, k) + (if k == key then 1 else 0) {
      }
    }
  }

  /** The values of a JavaScript `Map` read back in the order their keys were inserted. */
  function ValuesInInsertionOrder(insertionOrder: seq<ItemKey>, itemMap: map<ItemKey, GroupedItem>): (r: seq<GroupedItem>)
    requires forall j :: 0 <= j < |insertionOrder| ==> insertionOrder[j] in itemMap
    ensures |r| == |insertionOrder| && forall j :: 0 <= j < |r| ==> r[j] == itemMap[insertionOrder[j]]
  {
    seq(|insertionOrder|, j requires 0 <= j < |insertionOrder| => itemMap[insertionOrder[j]])
  }

  /** Once every item is read, the lines in insertion order are the grouped view. */
  lemma TallyReadsBackGrouped(items: seq<DishDTO>)
    ensures var t := Tallied(KeysOf(items));
            && (forall j :: 0 <= j < |t.insertionOrder| ==> t.insertionOrder[j] in t.itemMap)
            && ValuesInInsertionOrder(t.insertionOrder, t.itemMap) == GroupedItems(items)
  {
    TalliedIsGrouping(KeysOf(items));
  }

  /** `getGroupedItems`: a key-to-line map filled item by item, read back in insertion order. */
  method GetGroupedItems(order: OrderDTO) returns (r: seq<GroupedItem>)
    ensures r == GroupedItems(order.items)
  {
    ghost var keys := KeysOf(order.items);
    var insertionOrder: seq<ItemKey> := [];
    var itemMap: map<ItemKey, GroupedItem> := map[];
    var i := 0;
    assert keys[..0] == [];
    while i < |order.items|
      invariant i <= |order.items|
      invariant Tally(insertionOrder, itemMap) == Tallied(keys[..i])
    {
      var item := order.items[i];
      var key := ItemKey(item.name, item.price);
      assert keys[..i + 1][..i] == keys[..i] && keys[..i + 1][i] == key;
      if key in itemMap {
        var line := itemMap[key];
        itemMap := itemMap[key := line.(quantity := line.quantity + 1)];
      } else {
        itemMap := itemMap[key := GroupedItem(item.name, item.price, 1)];
        insertionOrder := insertionOrder + [key];
      }
      i := i + 1;
    }
    assert keys[..i] == keys;
    TallyReadsBackGrouped(order.items);
    r := ValuesInInsertionOrder(insertionOrder, itemMap);
  }

  /** The quantities add up to the number of items. */
  lemma GroupedQuantitiesSum(items: seq<DishDTO>)
    ensures TotalQuantity(GroupedItems(items)) == |items|
  {
    TotalOfEntries(Seqs.Dedup(KeysOf(items)), KeysOf(items));
    Seqs.SumOfCountsOverDedup(KeysOf(items));
  }

  /** One line per distinct (name, price): the lines' keys are distinct, every item's key
      has a line, and a line's quantity is the number of items with its key, at least one. */
  lemma GroupedOneLinePerKey(items: seq<DishDTO>)
    ensures var g := GroupedItems(items);
            && (forall j, k :: 0 <= j < k < |g| ==> ItemKey(g[j].name, g[j].price) != ItemKey(g[k].name, g[k].price))
            && (forall i :: 0 <= i < |items| ==> exists j :: 0 <= j < |g| && ItemKey(g[j].name, g[j].price) == KeyOf(items[i]))
            && (forall j :: 0 <= j < |g| ==>
                  g[j].quantity == Seqs.Count(KeysOf(items), ItemKey(g[j].name, g[j].price)) && g[j].quantity >= 1)
  {
    var keys := KeysOf(items);
    var ks := Seqs.Dedup(keys);
    var g := GroupedItems(items);
    forall j | 0 <= j < |g| ensures ItemKey(g[j].name, g[j].price) == ks[j] {
    }
    forall i | 0 <= i < |items|
      ensures exists j :: 0 <= j < |g| && ItemKey(g[j].name, g[j].price) == KeyOf(items[i])
    {
      assert keys[i] in ks;
      var j :| 0 <= j < |ks| && ks[j] == keys[i];
      assert ItemKey(g[j].name, g[j].price) == KeyOf(items[i]);
    }
  }

  /** Lines come in the order in which their keys first occur among the items. */
  lemma GroupedFirstOccurrenceOrder(items: seq<DishDTO>, j: nat, k: nat)
    requires j < k < |GroupedItems(items)|
    ensures var g := GroupedItems(items);
            Seqs.FirstIndex(KeysOf(items), ItemKey(g[j].name, g[j].price))
            < Seqs.FirstIndex(KeysOf(items), ItemKey(g[k].name, g[k].price))
  {
    var ks := Seqs.Dedup(KeysOf(items));
    var g := GroupedItems(items);
    assert ItemKey(g[j].name, g[j].price) == ks[j] && ItemKey(g[k].name, g[k].price) == ks[k];
    Seqs.DedupFirstOccurrenceOrder(KeysOf(items), j, k);
  }

  // ---------------------------------------------------------------- grouping undoes expansion

  function DishKey(d: Dish): ItemKey { ItemKey(d.name, d.price) }

  /** The keys of the expansion of `selected`: block by block. */
  function ExpandedKeys(selected: seq<DishId>, quantities: map<DishId, int>, catalog: map<DishId, Dish>): seq<ItemKey>
    requires forall i :: 0 <= i < |selected| ==> selected[i] in catalog
  {
    if selected == [] then []
    else
      var last := selected[|selected| - 1];
      ExpandedKeys(selected[..|selected| - 1], quantities, catalog)
        + Seqs.Repeat(DishKey(catalog[last]), OrderCreate.Quantity(quantities, last))
  }

  lemma {:induction false} ExpandedKeysAreKeys(selected: seq<DishId>, quantities: map<DishId, int>,
                                               catalog: map<DishId, Dish>)
    requires forall i :: 0 <= i < |selected| ==> selected[i] in catalog
    ensures var ids := OrderCreate.Expand(selected, quantities);
            && |ExpandedKeys(selected, quantities, catalog)| == |ids|
            && forall i :: 0 <= i < |ids| ==>
                 ids[i] in catalog && ExpandedKeys(selected, quantities, catalog)[i] == DishKey(catalog[ids[i]])
  {
    if selected != [] {
      var init, last := selected[..|selected| - 1], selected[|selected| - 1];
      assert forall i :: 0 <= i < |init| ==> init[i] == selected[i];
      ExpandedKeysAreKeys(init, quantities, catalog);
    }
  }

  /** The lines of the first `n` blocks, with the counts taken in the whole list. */
  lemma {:induction false} LinesOfBlocks(selected: seq<DishId>, quantities: map<DishId, int>, catalog: map<DishId, Dish>)
    requires Seqs.NoDuplicates(selected)
    requires forall i :: 0 <= i < |selected| ==> selected[i] in catalog && OrderCreate.Quantity(quantities, selected[i]) > 0
    requires forall i, j :: 0 <= i < j < |selected| ==> DishKey(catalog[selected[i]]) != DishKey(catalog[selected[j]])
    ensures var keys := ExpandedKeys(selected, quantities, catalog);
            && |Seqs.Dedup(keys)| == |selected|
            && forall j :: 0 <= j < |selected| ==>
                 Seqs.Dedup(keys)[j] == DishKey(catalog[selected[j]])
                 && Seqs.Count(keys, Seqs.Dedup(keys)[j]) == OrderCreate.Quantity(quantities, selected[j])
  {
    if selected != [] {
      var n := |selected| - 1;
      var init, last := selected[..n], selected[n];
      assert forall i :: 0 <= i < |init| ==> init[i] == selected[i];
      LinesOfBlocks(init, quantities, catalog);
      var a := ExpandedKeys(init, quantities, catalog);
      var k := DishKey(catalog[last]);
      var q := OrderCreate.Quantity(quantities, last);
      var keys := ExpandedKeys(selected, quantities, catalog);
      assert keys == a + Seqs.Repeat(k, q);
      assert k !in a by {
        ExpandedKeysAreKeys(init, quantities, catalog);
        forall i | 0 <= i < |a| ensures a[i] != k {
          var ids := OrderCreate.Expand(init, quantities);
          OrderCreate.ExpandCount(init, quantities, ids[i]);
          assert Seqs.Count(ids, ids[i]) > 0;
          var m :| 0 <= m < |init| && init[m] == ids[i];
          assert DishKey(catalog[selected[m]]) != DishKey(catalog[selected[n]]);
        }
      }
      Seqs.DedupAppendRepeat(a, k, q);
      forall j | 0 <= j < |selected|
        ensures Seqs.Dedup(keys)[j] == DishKey(catalog[selected[j]])
                && Seqs.Count(keys, Seqs.Dedup(keys)[j]) == OrderCreate.Quantity(quantities, selected[j])
      {
        var kj := Seqs.Dedup(keys)[j];
        Seqs.CountAppend(a, Seqs.Repeat(k, q), kj);
        Seqs.CountRepeat(k, q, kj);
        if j < n {
          assert kj == Seqs.Dedup(a)[j];
          assert kj != k;
        } else {
          assert Seqs.Count(a, k) == 0;
        }
      }
    }
  }

  /** Grouping undoes the create screen's expansion: for a selection of distinct dishes with
      positive quantities and pairwise different (name, price) keys, grouping the order's
      items gives one line per selected dish, in selection order, with its quantity. */
  lemma GroupingUndoesExpansion(selected: seq<DishId>, quantities: map<DishId, int>,
                                catalog: map<DishId, Dish>, items: seq<DishDTO>)
    requires Seqs.NoDuplicates(selected)
    requires forall i :: 0 <= i < |selected| ==> selected[i] in catalog && OrderCreate.Quantity(quantities, selected[i]) > 0
    requires forall i, j :: 0 <= i < j < |selected| ==> DishKey(catalog[selected[i]]) != DishKey(catalog[selected[j]])
    requires var ids := OrderCreate.Expand(selected, quantities);
             |items| == |ids| && forall i :: 0 <= i < |ids| ==> ids[i] in catalog && items[i] == ToDishDTO(catalog[ids[i]])
    ensures var g := GroupedItems(items);
            && |g| == |selected|
            && forall j :: 0 <= j < |selected| ==>
                 g[j] == GroupedItem(catalog[selected[j]].name, catalog[selected[j]].price,
                                     OrderCreate.Quantity(quantities, selected[j]))
  {
    ExpandedKeysAreKeys(selected, quantities, catalog);
    assert KeysOf(items) == ExpandedKeys(selected, quantities, catalog);
    LinesOfBlocks(selected, quantities, catalog);
  }

  /** End to end: an immediate order placed with the list the create screen expands is
      shown by the list screen as the selection it came from. */
  lemma PlacedSelectionIsShownBack(st: L.Store, catalog: map<DishId, Dish>, selected: seq<DishId>,
                                   quantities: map<DishId, int>, user: User, now: Time)
    requires L.Valid(st)
    requires Seqs.NoDuplicates(selected)
    requires forall i :: 0 <= i < |selected| ==> selected[i] in catalog && OrderCreate.Quantity(quantities, selected[i]) > 0
    requires forall i, j :: 0 <= i < j < |selected| ==> DishKey(catalog[selected[i]]) != DishKey(catalog[selected[j]])
    requires L.CreateOrder(st, catalog, Some(OrderCreate.Expand(selected, quantities)), None, user, now).result.Ok?
    ensures var dto := L.CreateOrder(st, catalog, Some(OrderCreate.Expand(selected, quantities)), None, user, now).result.value;
            var g := GroupedItems(dto.items);
            && |g| == |selected|
            && forall j :: 0 <= j < |selected| ==>
                 g[j] == GroupedItem(catalog[selected[j]].name, catalog[selected[j]].price,
                                     OrderCreate.Quantity(quantities, selected[j]))
  {
    var ids := OrderCreate.Expand(selected, quantities);
    L.PlacedOrder(st, catalog, Some(ids), None, user, now);
    GroupingUndoesExpansion(selected, quantities, catalog,
                            L.CreateOrder(st, catalog, Some(ids), None, user, now).result.value.items);
  }

  // ---------------------------------------------------------------- status colours and cancel

  /** `getStatusColor`. Every status has a case, so the `black` default is never reached. */
  function GetStatusColor(status: OrderStatus): string {
    match status
    case ORDERED => "blue"
    case PREPARING => "orange"
    case IN_DELIVERY => "purple"
    case DELIVERED => "green"
    case CANCELED => "red"
  }

  /** Five statuses, five different colours. */
  lemma StatusColorsDistinct(s1: OrderStatus, s2: OrderStatus)
    ensures GetStatusColor(s1) == GetStatusColor(s2) <==> s1 == s2
  {
  }

  /** `onCancelOrder`: the id it asks the server to cancel, if any; `confirmed` is the
      answer to the confirmation dialog. */
  method OnCancelOrder(order: OrderDTO, confirmed: bool) returns (cancelRequest: Option<OrderId>)
    ensures cancelRequest.Some? <==> order.status == ORDERED && confirmed
    ensures cancelRequest.Some? ==> cancelRequest.value == order.id
  {
    if order.status != ORDERED {
      return None;
    }
    if confirmed {
      cancelRequest := Some(order.id);
    } else {
      cancelRequest := None;
    }
  }

  /** The client's guard is the server's status rule: for the owner of an order shown
      as it is stored, the server accepts the cancellation exactly when the client would
      send it (after confirmation). */
  lemma CancelGuardMatchesServer(st: L.Store, id: OrderId, now: Time)
    requires id in st.orders
    ensures var dto := ToOrderDTO(st.orders[id]);
            L.CancelOrder(st, id, st.orders[id].createdBy, now).result.Ok? <==> dto.status == ORDERED
  {
  }
}
