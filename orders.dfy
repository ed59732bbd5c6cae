/** The order entity, the records it refers to, and the DTOs the backend hands out. */
module Orders {

  type OrderId = nat
  type UserId = nat
  type DishId = nat

  /** Instants, in whole seconds. */
  type Time = int

  /** A dish price. Prices are only copied, compared and used as grouping keys here. */
  type Price = int

  datatype Option<T> = None | Some(value: T)

  /** The outcome of an operation that the source ends with a thrown exception on failure. */
  datatype Result<T> = Ok(value: T) | Err(message: string)

  datatype OrderStatus = ORDERED | PREPARING | IN_DELIVERY | DELIVERED | CANCELED

  datatype User = User(id: UserId, firstName: string, lastName: string, email: string,
                       password: string, permissions: set<string>)

  datatype Dish = Dish(id: DishId, name: string, description: string, price: Price,
                       category: string, available: bool)

  /** The persistent Order entity. `items` is ordered and may name a dish several times. */
  datatype Order = Order(id: OrderId, status: OrderStatus, createdBy: User, active: bool,
                         items: seq<Dish>, createdAt: Time, scheduledFor: Option<Time>,
                         statusUpdatedAt: Time, isProcessing: bool)

  /** One entry of the append-only error log. */
  datatype ErrorMessage = ErrorMessage(timestamp: Time, orderId: Option<OrderId>, operation: string,
                                       errorMessage: string, user: User)

  datatype DishDTO = DishDTO(id: DishId, name: string, description: string, price: Price,
                             category: string, available: bool)

  datatype OrderDTO = OrderDTO(id: OrderId, status: OrderStatus, createdById: UserId,
                               createdByName: string, active: bool, items: seq<DishDTO>,
                               createdAt: Time, scheduledFor: Option<Time>, statusUpdatedAt: Time)

  /** A freshly constructed order: the entity's field defaults (status ORDERED, active,
      not processing, both timestamps taken from the clock) plus the fields the
      placement operation sets before saving. */
  function NewOrder(id: OrderId, createdBy: User, items: seq<Dish>, scheduledFor: Option<Time>,
                    now: Time): Order
  {
    Order(id, ORDERED, createdBy, true, items, now, scheduledFor, now, false)
  }

  function ToDishDTO(d: Dish): DishDTO
  {
    DishDTO(d.id, d.name, d.description, d.price, d.category, d.available)
  }

  /** The DTO of an order: the owner is shown by id and by "first last" name, the items
      keep their order and multiplicity. */
  function ToOrderDTO(o: Order): (r: OrderDTO)
    ensures r.id == o.id && r.status == o.status && r.active == o.active
    ensures r.createdById == o.createdBy.id
    ensures r.createdByName == o.createdBy.firstName + " " + o.createdBy.lastName
    ensures r.createdAt == o.createdAt && r.scheduledFor == o.scheduledFor
    ensures r.statusUpdatedAt == o.statusUpdatedAt
    ensures |r.items| == |o.items|
    ensures forall i :: 0 <= i < |o.items| ==> r.items[i] == ToDishDTO(o.items[i])
  {
    OrderDTO(o.id, o.status, o.createdBy.id, o.createdBy.firstName + " " + o.createdBy.lastName,
             o.active, seq(|o.items|, i requires 0 <= i < |o.items| => ToDishDTO(o.items[i])),
             o.createdAt, o.scheduledFor, o.statusUpdatedAt)
  }
}
