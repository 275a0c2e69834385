/** `ProductionLogService`: recording production against an order. The
    checks run in order (the order exists, the named resource exists, the
    quantity is positive, the order is not overfilled); then the log is
    saved and, in a second save, the order's produced count grows by the
    logged quantity. The three reads pass straight through to
    `LogRepository.GetAll`, `LogRepository.ByOrder` and
    `LogRepository.GetById`. */
module LogService {
  import opened Base
  import opened Entities
  import opened Schema
  import OrderRepository
  import LogRepository

  /** The produced count after adding `quantity`, as the unchecked C# sum
      `QuantityProduced + Quantity` leaves it. */
  function Increased(order: Order, quantity: Int32): (o: Order)
    ensures o.quantityProduced == Wrap32(order.quantityProduced + quantity)
    ensures o.(quantityProduced := order.quantityProduced) == order
  {
    order.(quantityProduced := Wrap32(order.quantityProduced + quantity))
  }

  /** Whether the log names a resource that does not exist. */
  predicate UnknownResource(st: DbState, log: Log) {
    log.resourceId.Some? && log.resourceId.value !in st.resources
  }

  /** `AddProductionLogAsync`. */
  function AppendSpec(st: DbState, log: Log): (s: Step<Log>)
    ensures s.result.Err? && s.result.error != DbUpdate && s.result.error != KeyNotFound ==> s.next == st
    ensures Consistent(st) ==> Consistent(s.next)
  {
    match OrderRepository.GetById(st, log.productionOrderId)
    case None => Step(Err(ArgumentError), st)
    case Some(order) =>
      if UnknownResource(st, log) then Step(Err(ArgumentError), st)
      else if log.quantity <= 0 then Step(Err(ArgumentError), st)
      else if Wrap32(order.quantityProduced + log.quantity) > order.quantityPlanned then Step(Err(InvalidOperation), st)
      else
        var added := LogRepository.AddSpec(st, log);
        if added.result.Err? then added
        else
          var updated := OrderRepository.UpdateTrackedSpec(added.next, Increased(order, log.quantity));
          if updated.result.Err? then Step(Err(updated.result.error), updated.next)
          else Step(added.result, updated.next)
  }

  /** Appending to an order that does not exist is an argument error and
      changes nothing. */
  lemma AppendMissingOrder(st: DbState, log: Log)
    requires log.productionOrderId !in st.orders
    ensures AppendSpec(st, log) == Step(Err(ArgumentError), st)
  {
  }

  /** The append fails with an argument error exactly when the order is
      missing, a named resource is missing, or the quantity is not
      positive; a log naming no resource skips the resource check. */
  lemma AppendArgumentErrors(st: DbState, log: Log)
    ensures AppendSpec(st, log).result == Err(ArgumentError) <==>
      log.productionOrderId !in st.orders || UnknownResource(st, log) || log.quantity <= 0
    ensures log.resourceId.None? ==>
      (AppendSpec(st, log).result == Err(ArgumentError) <==> log.productionOrderId !in st.orders || log.quantity <= 0)
  {
  }

  /** The arguments pass and the order is overfilled: the wrapped sum of
      produced and logged exceeds the plan. */
  predicate Overfills(st: DbState, log: Log) {
    && log.productionOrderId in st.orders && !UnknownResource(st, log) && log.quantity > 0
    && Wrap32(st.orders[log.productionOrderId].quantityProduced + log.quantity) > st.orders[log.productionOrderId].quantityPlanned
  }

  /** On a consistent database both saves of an accepted log go through:
      the only failures are the service's own checks, and they leave the
      store as it was. */
  lemma AppendCommits(st: DbState, log: Log)
    requires Consistent(st)
    ensures AppendSpec(st, log).result.Err? ==> AppendSpec(st, log).next == st
    ensures AppendSpec(st, log).result.Ok? <==>
      log.productionOrderId in st.orders && !UnknownResource(st, log) && log.quantity > 0 && !Overfills(st, log)
    ensures AppendSpec(st, log).result == Err(InvalidOperation) <==> Overfills(st, log)
  {
    if log.productionOrderId in st.orders && !UnknownResource(st, log) && log.quantity > 0 && !Overfills(st, log) {
      var order := st.orders[log.productionOrderId];
      LogRepository.AddCommits(st, log);
      var added := LogRepository.AddSpec(st, log);
      assert Consistent(added.next) && added.next.orders == st.orders && added.next.products == st.products;
      OrderRepository.UpdateCommits(added.next, Increased(order, log.quantity));
      OrderStatus.StoredStatusAccepted(order.status);
    }
  }

  /** The produced count may reach exactly the planned quantity. */
  lemma AppendExactFill(st: DbState, log: Log)
    requires Consistent(st)
    requires log.productionOrderId in st.orders && !UnknownResource(st, log) && log.quantity > 0
    requires st.orders[log.productionOrderId].quantityProduced + log.quantity == st.orders[log.productionOrderId].quantityPlanned
    ensures AppendSpec(st, log).result.Ok?
  {
    AppendCommits(st, log);
  }

  /** A successful append adds exactly one log, at the end and under a
      fresh id, and changes only the produced count of its order, which
      stays within the plan; without overflow it grows by exactly the
      logged quantity. */
  lemma AppendSucceeds(st: DbState, log: Log)
    requires Consistent(st)
    requires AppendSpec(st, log).result.Ok?
    ensures log.productionOrderId in st.orders
    ensures AppendSpec(st, log).result.value == log.(id := st.nextLogId)
    ensures AppendSpec(st, log).next.logs == st.logs + [log.(id := st.nextLogId)]
    ensures AppendSpec(st, log).next.orders
         == st.orders[log.productionOrderId := Increased(st.orders[log.productionOrderId], log.quantity)]
    ensures AppendSpec(st, log).next.products == st.products && AppendSpec(st, log).next.resources == st.resources
    ensures AppendSpec(st, log).next.orders[log.productionOrderId].quantityProduced
         <= st.orders[log.productionOrderId].quantityPlanned
    ensures st.orders[log.productionOrderId].quantityProduced + log.quantity <= MaxInt32 ==>
      AppendSpec(st, log).next.orders[log.productionOrderId].quantityProduced
        == st.orders[log.productionOrderId].quantityProduced + log.quantity
  {
    AppendCommits(st, log);
  }

  /** The overproduction guard compares the wrapped sum: a full order with
      the largest plan accepts one more unit, and its produced count wraps
      round to the smallest `int`. */
  lemma OverflowPassesGuard()
    ensures var order := Order(1, "ORD-1", "P1", MaxInt32, MaxInt32, 2, 0, None);
            var st := DbState(map[1 := order], {"P1"}, map[], [], 2, 1);
            var log := Log(0, 1, None, 1, 0);
            && Consistent(st)
            && AppendSpec(st, log).result.Ok?
            && AppendSpec(st, log).next.orders[1].quantityProduced == MinInt32
  {
    var order := Order(1, "ORD-1", "P1", MaxInt32, MaxInt32, 2, 0, None);
    var st := DbState(map[1 := order], {"P1"}, map[], [], 2, 1);
    var log := Log(0, 1, None, 1, 0);
    assert OrderStatus.EnumName(2) == "EmProducao";
    assert Consistent(st);
    assert Wrap32(MaxInt32 + 1) == MinInt32;
    AppendCommits(st, log);
    AppendSucceeds(st, log);
  }

  /** The guard lets every overflowing log through: when produced plus
      quantity passes the largest `int`, the wrapped sum is negative, so it
      never exceeds the plan, and the order is stored with that negative
      count. With quantity `int.MaxValue` this happens to any order that has
      produced at least one unit. */
  lemma OverflowWraps(st: DbState, log: Log)
    requires Consistent(st)
    requires log.productionOrderId in st.orders && !UnknownResource(st, log) && log.quantity > 0
    requires st.orders[log.productionOrderId].quantityProduced + log.quantity > MaxInt32
    ensures AppendSpec(st, log).result.Ok?
    ensures AppendSpec(st, log).next.orders[log.productionOrderId].quantityProduced
         == st.orders[log.productionOrderId].quantityProduced + log.quantity - 0x1_0000_0000
    ensures AppendSpec(st, log).next.orders[log.productionOrderId].quantityProduced < 0
  {
    var order := st.orders[log.productionOrderId];
    WrapOverflow(order.quantityProduced + log.quantity);
    assert order.quantityPlanned >= order.quantityProduced by {
      assert OrderChecks(order);
    }
    AppendCommits(st, log);
    AppendSucceeds(st, log);
  }

  /** A sum of two `int`s past the largest one wraps by exactly 2^32. */
  lemma WrapOverflow(x: int)
    requires MaxInt32 < x <= 2 * MaxInt32
    ensures Wrap32(x) == x - 0x1_0000_0000
  {
    var u := x - MinInt32;
    assert 0x1_0000_0000 <= u < 2 * 0x1_0000_0000;
    assert u % 0x1_0000_0000 == u - 0x1_0000_0000;
  }

  /** `AddProductionLogAsync` on the database: the checks, the log insert,
      then the in-place increment of the tracked order and its save. */
  method Append(db: Db, log: Log) returns (r: Result<Log>)
    requires db.Valid()
    modifies db
    ensures db.Valid()
    ensures Step(r, db.State()) == AppendSpec(old(db.State()), log)
  {
    ghost var st := db.State();
    var found := OrderRepository.GetById(db.State(), log.productionOrderId);
    if found.None? {
      return Err(ArgumentError);
    }
    var order := found.value;
    if log.resourceId.Some? {
      var resourceExists := log.resourceId.value in db.resources;
      if !resourceExists {
        return Err(ArgumentError);
      }
    }
    if log.quantity <= 0 {
      return Err(ArgumentError);
    }
    if Wrap32(order.quantityProduced + log.quantity) > order.quantityPlanned {
      return Err(InvalidOperation);
    }
    ghost var added := LogRepository.AddSpec(st, log);
    var created := LogRepository.Add(db, log);
    assert created == added.result && db.State() == added.next;
    if created.Err? {
      return created;
    }
    order := order.(quantityProduced := Wrap32(order.quantityProduced + log.quantity));
    assert order == Increased(st.orders[log.productionOrderId], log.quantity);
    ghost var updatedSpec := OrderRepository.UpdateTrackedSpec(added.next, order);
    var updated := OrderRepository.UpdateTracked(db, order);
    assert updated == updatedSpec.result && db.State() == updatedSpec.next;
    if updated.Err? {
      return Err(updated.error);
    }
    r := created;
  }
}
