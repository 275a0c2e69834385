/** `ProductionOrderService`: the validation and defaulting rules an order
    passes before the repository writes it. `now` stands for
    `DateTime.UtcNow`. */
module OrderService {
  import opened Base
  import opened Entities
  import opened Schema
  import OrderStatus
  import OrderRepository

  /** Whether some order carries `orderNumber`. */
  predicate NumberTaken(st: DbState, orderNumber: string) {
    exists id :: id in st.orders && st.orders[id].orderNumber == orderNumber
  }

  /** Whether some order other than `id` carries `orderNumber`. */
  predicate NumberTakenByOther(st: DbState, orderNumber: string, id: int) {
    exists other :: other in st.orders && other != id && st.orders[other].orderNumber == orderNumber
  }

  /** No two orders share an order number. The database has no index for
      this; the service keeps it by its duplicate checks. */
  predicate UniqueOrderNumbers(st: DbState) {
    forall a, b :: a in st.orders && b in st.orders && a != b ==> st.orders[a].orderNumber != st.orders[b].orderNumber
  }

  /** `GetOrderByIdAsync`: a non-positive id is an argument error. */
  function GetOrderById(st: DbState, id: int): (r: Result<Option<Order>>)
    ensures r.Err? <==> id <= 0
    ensures r.Err? ==> r.error == ArgumentError
    ensures r.Ok? ==> (r.value.Some? <==> id in st.orders)
    ensures r.Ok? && r.value.Some? ==> r.value.value == st.orders[id]
  {
    if id <= 0 then Err(ArgumentError) else Ok(OrderRepository.GetById(st, id))
  }

  /** `GetOrdersByStatusAsync`: an empty or unknown status name is an
      argument error; otherwise the orders with that status. */
  function GetOrdersByStatus(st: DbState, status: string): (r: Result<map<int, Order>>)
    ensures r.Err? <==> !OrderStatus.IsValid(status)
    ensures r.Err? ==> r.error == ArgumentError
    ensures r.Ok? ==> forall id :: id in r.value <==> id in st.orders && OrderStatus.EnumName(st.orders[id].status) == status
    ensures r.Ok? ==> forall id :: id in r.value ==> r.value[id] == st.orders[id]
  {
    if status == "" then Err(ArgumentError)
    else if OrderStatus.TryParse(status).None? then
      OrderStatus.ParseNameRoundTrip(status, 0);
      Err(ArgumentError)
    else OrderRepository.GetByStatus(st, status)
  }

  /** The status a new order gets: an unset (0) status becomes Planejada. */
  function DefaultStatus(status: Int32): (s: Int32)
    ensures s == OrderStatus.Planejada <==> status == OrderStatus.Unset || status == OrderStatus.Planejada
    ensures status != OrderStatus.Unset ==> s == status
  {
    if status == OrderStatus.Unset then OrderStatus.Planejada else status
  }

  /** `CreateOrderAsync`. The checks run in this order: order number, product
      code and planned quantity (argument errors), then a duplicate number
      and an unknown product (invalid operations); then the produced count
      is zeroed, the status defaulted, and a finished order must not start
      after today and ends now. */
  function CreateSpec(st: DbState, order: Order, now: Ticks): (s: Step<Order>)
    ensures s.result.Err? && s.result.error != DbUpdate ==> s.next == st
  {
    if order.orderNumber == "" then Step(Err(ArgumentError), st)
    else if order.productCode == "" then Step(Err(ArgumentError), st)
    else if order.quantityPlanned <= 0 then Step(Err(ArgumentError), st)
    else if OrderRepository.GetByOrderNumber(st, order.orderNumber, None).Some? then Step(Err(InvalidOperation), st)
    else if order.productCode !in st.products then Step(Err(InvalidOperation), st)
    else
      var o := order.(quantityProduced := 0, status := DefaultStatus(order.status));
      if o.status == OrderStatus.Finalizada && Day(o.startDate) > Day(now) then Step(Err(InvalidOperation), st)
      else OrderRepository.CreateSpec(st, if o.status == OrderStatus.Finalizada then o.(endDate := Some(now)) else o)
  }

  /** The row `CreateOrderAsync` hands to the repository once every check
      has passed. */
  function Prepared(order: Order, now: Ticks): (o: Order)
    ensures o.quantityProduced == 0 && o.status == DefaultStatus(order.status)
    ensures o.endDate == if o.status == OrderStatus.Finalizada then Some(now) else order.endDate
    ensures o.(quantityProduced := order.quantityProduced, status := order.status, endDate := order.endDate) == order
  {
    var d := order.(quantityProduced := 0, status := DefaultStatus(order.status));
    if d.status == OrderStatus.Finalizada then d.(endDate := Some(now)) else d
  }

  /** Create fails with an argument error exactly when the order number or
      product code is empty or the planned quantity is not positive; these
      are checked before anything else. */
  lemma CreateArgumentErrors(st: DbState, order: Order, now: Ticks)
    ensures CreateSpec(st, order, now).result == Err(ArgumentError) <==>
      order.orderNumber == "" || order.productCode == "" || order.quantityPlanned <= 0
  {
  }

  /** Create fails with an invalid operation exactly when the arguments are
      well formed and the number is taken, the product is unknown, or a
      finished order would start after today. A taken number is reported
      even when the product is unknown as well. */
  lemma CreateInvalidOperations(st: DbState, order: Order, now: Ticks)
    ensures CreateSpec(st, order, now).result == Err(InvalidOperation) <==>
      && order.orderNumber != "" && order.productCode != "" && order.quantityPlanned > 0
      && (|| NumberTaken(st, order.orderNumber)
          || order.productCode !in st.products
          || (DefaultStatus(order.status) == OrderStatus.Finalizada && Day(order.startDate) > Day(now)))
  {
    var found := OrderRepository.GetByOrderNumber(st, order.orderNumber, None);
    if NumberTaken(st, order.orderNumber) {
      var id :| id in st.orders && st.orders[id].orderNumber == order.orderNumber;
      assert found.Some?;
    }
  }

  /** A successful create stores the prepared row under a fresh id, with
      nothing produced yet, and changes no other row. */
  lemma CreateSucceeds(st: DbState, order: Order, now: Ticks)
    requires CreateSpec(st, order, now).result.Ok?
    ensures CreateSpec(st, order, now).result.value == Prepared(order, now).(id := st.nextOrderId)
    ensures CreateSpec(st, order, now).result.value.quantityProduced == 0
    ensures CreateSpec(st, order, now).next.orders == st.orders[st.nextOrderId := Prepared(order, now).(id := st.nextOrderId)]
    ensures CreateSpec(st, order, now).next.logs == st.logs
    ensures !NumberTaken(st, order.orderNumber)
  {
    var found := OrderRepository.GetByOrderNumber(st, order.orderNumber, None);
    assert found.None?;
  }

  /** On a consistent database a create that passes the service's checks
      is refused by the database exactly when the prepared row breaks a
      check constraint: a status outside the three members, or an end date
      not strictly after the start. */
  lemma CreateDatabaseRefusal(st: DbState, order: Order, now: Ticks)
    requires Consistent(st)
    requires order.orderNumber != "" && order.productCode != "" && order.quantityPlanned > 0
    requires !NumberTaken(st, order.orderNumber) && order.productCode in st.products
    requires !(DefaultStatus(order.status) == OrderStatus.Finalizada && Day(order.startDate) > Day(now))
    ensures CreateSpec(st, order, now).result == Err(DbUpdate) <==>
      || !(OrderStatus.Planejada <= DefaultStatus(order.status) <= OrderStatus.Finalizada)
      || (Prepared(order, now).endDate.Some? && Prepared(order, now).endDate.value <= order.startDate)
  {
    var found := OrderRepository.GetByOrderNumber(st, order.orderNumber, None);
    assert found.None?;
    OrderRepository.CreateCommits(st, Prepared(order, now));
    OrderStatus.StoredStatusAccepted(DefaultStatus(order.status));
  }

  /** The service lets a finished order through when it starts today, but
      the database wants the end strictly after the start: finishing at
      the very instant the order starts is refused on save. */
  lemma FinishAtStartRefused(st: DbState, order: Order)
    requires Consistent(st)
    requires order.orderNumber != "" && order.productCode != "" && order.quantityPlanned > 0
    requires !NumberTaken(st, order.orderNumber) && order.productCode in st.products
    requires order.status == OrderStatus.Finalizada
    ensures CreateSpec(st, order, order.startDate).result == Err(DbUpdate)
  {
    CreateDatabaseRefusal(st, order, order.startDate);
  }

  /** What `UpdateOrderAsync` does to the end date: a planned order loses
      it, a finished order ends now, any other keeps its own. */
  function ResultingEndDate(order: Order, now: Ticks): (e: Option<Ticks>)
    ensures order.status == OrderStatus.Planejada ==> e.None?
    ensures order.status == OrderStatus.Finalizada ==> e == Some(now)
    ensures order.status != OrderStatus.Planejada && order.status != OrderStatus.Finalizada ==> e == order.endDate
  {
    if order.status == OrderStatus.Planejada then None
    else if order.status == OrderStatus.Finalizada then Some(now)
    else order.endDate
  }

  /** `UpdateOrderAsync`. The checks run in this order: a non-positive id and
      an id that is not the order's (argument errors), a number another
      order carries and an unknown product (invalid operations), then the
      end-date rules: a planned order's end date is cleared, a finished
      order must not start after today and ends now, and a start on a later
      day than the end is an argument error. */
  function UpdateSpec(st: DbState, id: int, order: Order, now: Ticks): (s: Step<Order>)
    ensures s.result.Err? && s.result.error != DbUpdate ==> s.next == st
  {
    if id <= 0 then Step(Err(ArgumentError), st)
    else if id != order.id then Step(Err(ArgumentError), st)
    else if OrderRepository.GetByOrderNumber(st, order.orderNumber, Some(id)).Some? then Step(Err(InvalidOperation), st)
    else if order.productCode !in st.products then Step(Err(InvalidOperation), st)
    else
      var cleared := if order.status == OrderStatus.Planejada && order.endDate.Some? then order.(endDate := None) else order;
      if cleared.status == OrderStatus.Finalizada && Day(cleared.startDate) > Day(now) then Step(Err(InvalidOperation), st)
      else
        var finished := if cleared.status == OrderStatus.Finalizada then cleared.(endDate := Some(now)) else cleared;
        if finished.endDate.Some? && Day(finished.startDate) > Day(finished.endDate.value) then Step(Err(ArgumentError), st)
        else OrderRepository.UpdateSpec(st, finished)
  }

  lemma NumberTakenByOtherIff(st: DbState, orderNumber: string, id: int)
    ensures OrderRepository.GetByOrderNumber(st, orderNumber, Some(id)).Some? <==> NumberTakenByOther(st, orderNumber, id)
  {
    if NumberTakenByOther(st, orderNumber, id) {
      var other :| other in st.orders && other != id && st.orders[other].orderNumber == orderNumber;
      assert Some(id) != Some(other);
    }
  }

  /** Update fails with an argument error exactly when the id is not
      positive or is not the order's, or when every other check passes and
      the resulting end date lies on an earlier day than the start. Equal
      days are accepted. */
  lemma UpdateArgumentErrors(st: DbState, id: int, order: Order, now: Ticks)
    ensures UpdateSpec(st, id, order, now).result == Err(ArgumentError) <==>
      || id <= 0 || id != order.id
      || (&& !NumberTakenByOther(st, order.orderNumber, id) && order.productCode in st.products
          && !(order.status == OrderStatus.Finalizada && Day(order.startDate) > Day(now))
          && ResultingEndDate(order, now).Some?
          && Day(order.startDate) > Day(ResultingEndDate(order, now).value))
  {
    NumberTakenByOtherIff(st, order.orderNumber, id);
  }

  /** Update fails with an invalid operation exactly when the ids agree and
      another order carries the number, the product is unknown, or a
      finished order would start after today. */
  lemma UpdateInvalidOperations(st: DbState, id: int, order: Order, now: Ticks)
    ensures UpdateSpec(st, id, order, now).result == Err(InvalidOperation) <==>
      && 0 < id && id == order.id
      && (|| NumberTakenByOther(st, order.orderNumber, id)
          || order.productCode !in st.products
          || (order.status == OrderStatus.Finalizada && Day(order.startDate) > Day(now)))
  {
    NumberTakenByOtherIff(st, order.orderNumber, id);
  }

  /** Keeping an order's own number is never a duplicate when numbers are
      unique. */
  lemma OwnNumberNotDuplicate(st: DbState, order: Order)
    requires UniqueOrderNumbers(st)
    requires order.id in st.orders && st.orders[order.id].orderNumber == order.orderNumber
    ensures !NumberTakenByOther(st, order.orderNumber, order.id)
    ensures OrderRepository.GetByOrderNumber(st, order.orderNumber, Some(order.id)).None?
  {
    NumberTakenByOtherIff(st, order.orderNumber, order.id);
  }

  /** A successful update stores the six fields with the end date the rules
      give, keeps the stored produced count and id, and changes no other
      row: a planned order has no end date, a finished one ends now. */
  lemma UpdateSucceeds(st: DbState, id: int, order: Order, now: Ticks)
    requires UpdateSpec(st, id, order, now).result.Ok?
    ensures id == order.id && id in st.orders
    ensures UpdateSpec(st, id, order, now).result.value
         == OrderRepository.CopyFields(st.orders[id], order.(endDate := ResultingEndDate(order, now)))
    ensures UpdateSpec(st, id, order, now).result.value.endDate == ResultingEndDate(order, now)
    ensures UpdateSpec(st, id, order, now).result.value.quantityProduced == st.orders[id].quantityProduced
    ensures Consistent(st) ==> UpdateSpec(st, id, order, now).next.orders == st.orders[id := UpdateSpec(st, id, order, now).result.value]
    ensures UpdateSpec(st, id, order, now).next.logs == st.logs
    ensures !NumberTakenByOther(st, order.orderNumber, id)
  {
    NumberTakenByOtherIff(st, order.orderNumber, id);
  }

  /** On a consistent database an update of a present order that passes
      every service check is refused on save exactly when the new row breaks
      a check constraint: a status outside the three members, fewer planned
      than already produced, or an end not strictly after the start. */
  lemma UpdateDatabaseRefusal(st: DbState, order: Order, now: Ticks)
    requires Consistent(st) && order.id > 0 && order.id in st.orders
    requires !NumberTakenByOther(st, order.orderNumber, order.id) && order.productCode in st.products
    requires !(order.status == OrderStatus.Finalizada && Day(order.startDate) > Day(now))
    requires !(ResultingEndDate(order, now).Some? && Day(order.startDate) > Day(ResultingEndDate(order, now).value))
    ensures UpdateSpec(st, order.id, order, now).result == Err(DbUpdate) <==>
      || !(OrderStatus.Planejada <= order.status <= OrderStatus.Finalizada)
      || order.quantityPlanned < st.orders[order.id].quantityProduced
      || (ResultingEndDate(order, now).Some? && ResultingEndDate(order, now).value <= order.startDate)
  {
    NumberTakenByOtherIff(st, order.orderNumber, order.id);
    var row := OrderRepository.CopyFields(st.orders[order.id], order.(endDate := ResultingEndDate(order, now)));
    OrderRepository.UpdateCommits(st, order.(endDate := ResultingEndDate(order, now)));
    OrderStatus.StoredStatusAccepted(order.status);
  }

  /** The service accepts an end date on the start's day, but the database
      refuses one that is not strictly later: the two date rules disagree. */
  lemma SameDayEndRefused(st: DbState, order: Order, now: Ticks)
    requires Consistent(st) && order.id > 0 && order.id in st.orders
    requires !NumberTakenByOther(st, order.orderNumber, order.id) && order.productCode in st.products
    requires order.status == OrderStatus.EmProducao
    requires order.endDate.Some? && Day(order.endDate.value) == Day(order.startDate) && order.endDate.value <= order.startDate
    ensures UpdateSpec(st, order.id, order, now).result == Err(DbUpdate)
  {
    UpdateDatabaseRefusal(st, order, now);
  }

  /** The planned quantity is not re-checked by the service: lowering it
      below what was produced is caught only by the database constraint. */
  lemma PlannedBelowProducedRefused(st: DbState, order: Order, now: Ticks)
    requires Consistent(st) && order.id > 0 && order.id in st.orders
    requires !NumberTakenByOther(st, order.orderNumber, order.id) && order.productCode in st.products
    requires order.quantityPlanned < st.orders[order.id].quantityProduced
    ensures UpdateSpec(st, order.id, order, now).result.Err?
  {
    NumberTakenByOtherIff(st, order.orderNumber, order.id);
    OrderRepository.UpdateCommits(st, order.(endDate := ResultingEndDate(order, now)));
  }

  /** `CreateOrderAsync` on the database: checks in order, then the fields of
      the passed order are set in place and it is handed to the repository. */
  method CreateOrder(db: Db, order: Order, now: Ticks) returns (r: Result<Order>)
    requires db.Valid()
    modifies db
    ensures db.Valid()
    ensures Step(r, db.State()) == CreateSpec(old(db.State()), order, now)
  {
    if order.orderNumber == "" {
      return Err(ArgumentError);
    }
    if order.productCode == "" {
      return Err(ArgumentError);
    }
    if order.quantityPlanned <= 0 {
      return Err(ArgumentError);
    }
    var existing := OrderRepository.GetByOrderNumber(db.State(), order.orderNumber, None);
    if existing.Some? {
      return Err(InvalidOperation);
    }
    if order.productCode !in db.products {
      return Err(InvalidOperation);
    }
    var o := order.(quantityProduced := 0);
    if o.status == OrderStatus.Unset {
      o := o.(status := OrderStatus.Planejada);
    }
    if o.status == OrderStatus.Finalizada {
      if Day(o.startDate) > Day(now) {
        return Err(InvalidOperation);
      }
      o := o.(endDate := Some(now));
    }
    r := OrderRepository.Create(db, o);
  }

  /** `UpdateOrderAsync` on the database. */
  method UpdateOrder(db: Db, id: int, order: Order, now: Ticks) returns (r: Result<Order>)
    requires db.Valid()
    modifies db
    ensures db.Valid()
    ensures Step(r, db.State()) == UpdateSpec(old(db.State()), id, order, now)
  {
    if id <= 0 {
      return Err(ArgumentError);
    }
    if id != order.id {
      return Err(ArgumentError);
    }
    var duplicate := OrderRepository.GetByOrderNumber(db.State(), order.orderNumber, Some(id));
    if duplicate.Some? {
      return Err(InvalidOperation);
    }
    if order.productCode !in db.products {
      return Err(InvalidOperation);
    }
    var o := order;
    if o.status == OrderStatus.Planejada && o.endDate.Some? {
      o := o.(endDate := None);
    }
    if o.status == OrderStatus.Finalizada {
      if Day(o.startDate) > Day(now) {
        return Err(InvalidOperation);
      }
      o := o.(endDate := Some(now));
    }
    if o.endDate.Some? && Day(o.startDate) > Day(o.endDate.value) {
      return Err(ArgumentError);
    }
    r := OrderRepository.Update(db, o);
  }
}
