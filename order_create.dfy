/** The order-creation screen of the web client: the per-dish quantity form, the
    duplicate-free list of selected dishes it maintains, the category filter, and the
    expansion of quantities into the repeated dish-id list the placement request carries. */
module OrderCreate {
  import opened Orders
  import Seqs

  /** What the screen sends: the dish ids and, for the scheduling endpoint, the time. */
  datatype OrderRequest = OrderRequest(dishIds: seq<DishId>, scheduledFor: Option<Time>, viaSchedule: bool)

  /** The quantity the submit loop repeats an id for: a missing entry stops the `i < quantity`
      loop at once, like a non-positive one. */
  function Quantity(quantities: map<DishId, int>, id: DishId): nat {
    if id in quantities && quantities[id] > 0 then quantities[id] else 0
  }

  /** The dish-id list: each selected id, in selection order, repeated by its quantity. */
  function Expand(selected: seq<DishId>, quantities: map<DishId, int>): seq<DishId> {
    if selected == [] then []
    else
      var last := selected[|selected| - 1];
      Expand(selected[..|selected| - 1], quantities) + Seqs.Repeat(last, Quantity(quantities, last))
  }

  function SumQuantities(selected: seq<DishId>, quantities: map<DishId, int>): nat {
    if selected == [] then 0
    else SumQuantities(selected[..|selected| - 1], quantities) + Quantity(quantities, selected[|selected| - 1])
  }

  /** Expansion works block by block. */
  lemma {:induction false} ExpandAppend(a: seq<DishId>, b: seq<DishId>, quantities: map<DishId, int>)
    ensures Expand(a + b, quantities) == Expand(a, quantities) + Expand(b, quantities)
    decreases |b|
  {
    if b == [] {
      assert a + b == a;
    } else {
      assert (a + b)[..|a + b| - 1] == a + b[..|b| - 1];
      ExpandAppend(a, b[..|b| - 1], quantities);
    }
  }

  /** The request carries as many ids as the quantities add up to. */
  lemma {:induction false} ExpandLength(selected: seq<DishId>, quantities: map<DishId, int>)
    ensures |Expand(selected, quantities)| == SumQuantities(selected, quantities)
  {
    if selected != [] {
      ExpandLength(selected[..|selected| - 1], quantities);
    }
  }

  /** Each selected id occurs exactly its quantity times, and nothing else occurs. */
  lemma {:induction false} ExpandCount(selected: seq<DishId>, quantities: map<DishId, int>, x: DishId)
    requires Seqs.NoDuplicates(selected)
    ensures Seqs.Count(Expand(selected, quantities), x) == if x in selected then Quantity(quantities, x) else 0
  {
    if selected != [] {
      var init, last := selected[..|selected| - 1], selected[|selected| - 1];
      forall i | 0 <= i < |init| ensures init[i] != last {
        assert init[i] == selected[i];
      }
      ExpandCount(init, quantities, x);
      Seqs.CountAppend(Expand(init, quantities), Seqs.Repeat(last, Quantity(quantities, last)), x);
      Seqs.CountRepeat(last, Quantity(quantities, last), x);
    }
  }

  /** `dishes.filter(dish => dish.category === category)`. */
  function InCategory(dishes: seq<Dish>, category: string): (r: seq<Dish>)
    ensures forall i :: 0 <= i < |r| ==> r[i].category == category
    ensures forall d :: Seqs.Count(r, d) == if d.category == category then Seqs.Count(dishes, d) else 0
  {
    if dishes == [] then []
    else
      var p := InCategory(dishes[..|dishes| - 1], category);
      var d := dishes[|dishes| - 1];
      if d.category == category then p + [d] else p
  }

  /** Filtering keeps the dishes' relative order: it distributes over concatenation. */
  lemma {:induction false} InCategoryAppend(a: seq<Dish>, b: seq<Dish>, category: string)
    ensures InCategory(a + b, category) == InCategory(a, category) + InCategory(b, category)
    decreases |b|
  {
    if b == [] {
      assert a + b == a;
    } else {
      assert (a + b)[..|a + b| - 1] == a + b[..|b| - 1];
      InCategoryAppend(a, b[..|b| - 1], category);
    }
  }

  function Categories(dishes: seq<Dish>): seq<string> {
    seq(|dishes|, i requires 0 <= i < |dishes| => dishes[i].category)
  }

  /** `Array.from(new Set(categories))`: each category once, in first-occurrence order. */
  function DistinctCategories(dishes: seq<Dish>): (r: seq<string>)
    ensures Seqs.NoDuplicates(r)
    ensures forall c :: c in r <==> exists i :: 0 <= i < |dishes| && dishes[i].category == c
  {
    var cs := Categories(dishes);
    assert forall c :: c in cs <==> exists i :: 0 <= i < |dishes| && dishes[i].category == c by {
      forall c ensures c in cs <==> exists i :: 0 <= i < |dishes| && dishes[i].category == c {
        if c in cs {
          var i :| 0 <= i < |cs| && cs[i] == c;
          assert dishes[i].category == c;
        } else {
          forall i | 0 <= i < |dishes| ensures dishes[i].category != c {
            assert cs[i] == dishes[i].category;
          }
        }
      }
    }
    Seqs.Dedup(cs)
  }

  class OrderCreateComponent {
    var dishes: seq<Dish>
    var selectedDishes: seq<DishId>
    var categories: seq<string>
    var selectedCategory: string
    var isScheduled: bool
    /** The date-time input; `None` is the empty input. */
    var scheduledDateTime: Option<Time>
    var dishQuantities: map<DishId, int>

    /** The selection holds each dish once; a selected dish has a non-zero quantity, and
        every dish with a positive quantity is selected. */
    ghost predicate Valid()
      reads this
    {
      && Seqs.NoDuplicates(selectedDishes)
      && (forall i :: 0 <= i < |selectedDishes| ==>
            selectedDishes[i] in dishQuantities && dishQuantities[selectedDishes[i]] != 0)
      && (forall id :: id in dishQuantities && dishQuantities[id] > 0 ==> id in selectedDishes)
    }

    constructor()
      ensures Valid()
      ensures dishes == [] && selectedDishes == [] && categories == [] && selectedCategory == ""
      ensures !isScheduled && scheduledDateTime.None? && dishQuantities == map[]
    {
      dishes, selectedDishes, categories, selectedCategory := [], [], [], "";
      isScheduled, scheduledDateTime, dishQuantities := false, None, map[];
    }

    /** `extractCategories`. */
    method ExtractCategories()
      modifies this
      ensures categories == DistinctCategories(dishes)
      ensures dishes == old(dishes) && selectedDishes == old(selectedDishes)
      ensures dishQuantities == old(dishQuantities) && selectedCategory == old(selectedCategory)
      ensures isScheduled == old(isScheduled) && scheduledDateTime == old(scheduledDateTime)
    {
      categories := Seqs.Dedup(Categories(dishes));
    }

    /** `getFilteredDishes`: everything for the empty category, else that category's dishes. */
    function GetFilteredDishes(): (r: seq<Dish>)
      reads this
      ensures selectedCategory == "" ==> r == dishes
      ensures selectedCategory != "" ==>
                (forall i :: 0 <= i < |r| ==> r[i].category == selectedCategory)
                && forall d :: Seqs.Count(r, d) == if d.category == selectedCategory then Seqs.Count(dishes, d) else 0
    {
      if selectedCategory == "" then dishes else InCategory(dishes, selectedCategory)
    }

    /** `onDishQuantityChange`. */
    method OnDishQuantityChange(dishId: DishId, quantity: int)
      requires Valid()
      modifies this
      ensures Valid()
      ensures dishQuantities == old(dishQuantities)[dishId := quantity]
      ensures quantity > 0 && dishId !in old(selectedDishes) ==> selectedDishes == old(selectedDishes) + [dishId]
      ensures quantity == 0 && dishId in old(selectedDishes) ==>
                var k := Seqs.FirstIndex(old(selectedDishes), dishId);
                selectedDishes == old(selectedDishes)[..k] + old(selectedDishes)[k + 1..]
      ensures !(quantity > 0 && dishId !in old(selectedDishes)) && !(quantity == 0 && dishId in old(selectedDishes)) ==>
                selectedDishes == old(selectedDishes)
      ensures dishes == old(dishes) && categories == old(categories) && selectedCategory == old(selectedCategory)
      ensures isScheduled == old(isScheduled) && scheduledDateTime == old(scheduledDateTime)
    {
      dishQuantities := dishQuantities[dishId := quantity];
      if quantity > 0 && dishId !in selectedDishes {
        selectedDishes := selectedDishes + [dishId];
      } else if quantity == 0 && dishId in selectedDishes {
        Seqs.NoDuplicatesRemoveAll(selectedDishes, dishId);
        Seqs.RemoveOneOccurrence(selectedDishes, Seqs.FirstIndex(selectedDishes, dishId));
        selectedDishes := Seqs.RemoveAll(selectedDishes, dishId);
        forall i | 0 <= i < |selectedDishes| ensures selectedDishes[i] in old(selectedDishes) {
          assert Seqs.Count(selectedDishes, selectedDishes[i]) > 0;
        }
      }
      forall id | id in dishQuantities && dishQuantities[id] > 0 ensures id in selectedDishes {
        if id != dishId && quantity == 0 && dishId in old(selectedDishes) {
          assert Seqs.Count(old(selectedDishes), id) > 0;
        }
      }
    }

    /** `onSubmit`: the request it sends, or `None` when it stops at one of its alerts. */
    method OnSubmit(now: Time) returns (request: Option<OrderRequest>)
      ensures request.None? <==>
                || |selectedDishes| == 0
                || (isScheduled && (scheduledDateTime.None? || scheduledDateTime.value <= now))
      ensures request.Some? ==>
                && request.value.dishIds == Expand(selectedDishes, dishQuantities)
                && request.value.viaSchedule == isScheduled
                && request.value.scheduledFor == (if isScheduled then scheduledDateTime else None)
    {
      if |selectedDishes| == 0 {
        return None;
      }
      var dishIds: seq<DishId> := [];
      var j := 0;
      while j < |selectedDishes|
        invariant 0 <= j <= |selectedDishes|
        invariant dishIds == Expand(selectedDishes[..j], dishQuantities)
      {
        var dishId := selectedDishes[j];
        assert selectedDishes[..j + 1][..j] == selectedDishes[..j];
        var i := 0;
        while i < Quantity(dishQuantities, dishId)
          invariant 0 <= i <= Quantity(dishQuantities, dishId)
          invariant dishIds == Expand(selectedDishes[..j], dishQuantities) + Seqs.Repeat(dishId, i)
        {
          dishIds := dishIds + [dishId];
          i := i + 1;
        }
        j := j + 1;
      }
      assert selectedDishes[..j] == selectedDishes;
      var scheduledFor: Option<Time> := None;
      if isScheduled {
        if scheduledDateTime.None? {
          return None;
        }
        if scheduledDateTime.value <= now {
          return None;
        }
        scheduledFor := scheduledDateTime;
      }
      request := Some(OrderRequest(dishIds, scheduledFor, isScheduled));
    }
  }

  /** The client does not stop a non-empty selection whose quantities are all negative:
      such a submission carries an empty dish-id list, which the server refuses. */
  lemma NegativeQuantitiesSendEmptyList(selected: seq<DishId>, quantities: map<DishId, int>)
    requires forall i :: 0 <= i < |selected| ==> selected[i] in quantities && quantities[selected[i]] < 0
    ensures Expand(selected, quantities) == []
  {
    ExpandLength(selected, quantities);
    assert SumQuantities(selected, quantities) == 0 by {
      SumOfNonPositive(selected, quantities);
    }
  }

  lemma {:induction false} SumOfNonPositive(selected: seq<DishId>, quantities: map<DishId, int>)
    requires forall i :: 0 <= i < |selected| ==> selected[i] in quantities && quantities[selected[i]] < 0
    ensures SumQuantities(selected, quantities) == 0
  {
    if selected != [] {
      var init := selected[..|selected| - 1];
      assert forall i :: 0 <= i < |init| ==> init[i] == selected[i];
      SumOfNonPositive(init, quantities);
    }
  }
}
