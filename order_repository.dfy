/** `ProductionOrderRepository`: lookups and filters over the order table,
    and the three writes (add, six-field update, delete). */
module OrderRepository {
  import opened Base
  import opened Entities
  import opened Schema
  import OrderStatus

  lemma HasElement(s: set<int>)
    requires s != {}
    ensures exists x :: x in s
  {
    if forall x :: x !in s {
      assert false;
    }
  }

  lemma {:induction false} MinExists(s: set<int>)
    requires s != {}
    ensures exists m :: m in s && forall x :: x in s ==> m <= x
    decreases |s|
  {
    HasElement(s);
    var x :| x in s;
    var rest := s - {x};
    if rest != {} {
      MinExists(rest);
      var m :| m in rest && forall y :: y in rest ==> m <= y;
      assert forall y :: y in s ==> y == x || y in rest;
      if m < x {
        assert m in s;
      }
    } else {
      assert forall y :: y in s ==> y == x;
    }
  }

  /** The smallest element of a non-empty set of ids. */
  function MinOf(s: set<int>): (m: int)
    requires s != {}
    ensures m in s && forall x :: x in s ==> m <= x
  {
    MinExists(s);
    var m :| m in s && forall x :: x in s ==> m <= x; m
  }

  /** `GetAllAsync`: the whole table. */
  function GetAll(st: DbState): (r: map<int, Order>)
    ensures r.Keys == st.orders.Keys
    ensures forall id :: id in r ==> r[id] == st.orders[id]
  {
    st.orders
  }

  /** `GetByIdAsync`: the order with that id, if any. */
  function GetById(st: DbState, id: int): (r: Option<Order>)
    ensures r.Some? <==> id in st.orders
    ensures r.Some? ==> r.value == st.orders[id]
    ensures r.Some? && Consistent(st) ==> r.value.id == id
  {
    if id in st.orders then Some(st.orders[id]) else None
  }

  /** The ids of the orders carrying `orderNumber`, other than `excludeId`. */
  function Matching(st: DbState, orderNumber: string, excludeId: Option<int>): set<int> {
    set id | id in st.orders && st.orders[id].orderNumber == orderNumber && excludeId != Some(id)
  }

  /** `GetByOrderNumberAsync`: the first order (by key) carrying
      `orderNumber`, skipping `excludeId` when one is given. */
  function GetByOrderNumber(st: DbState, orderNumber: string, excludeId: Option<int>): (r: Option<Order>)
    ensures r.None? <==> forall id :: id in st.orders && st.orders[id].orderNumber == orderNumber ==> excludeId == Some(id)
    ensures r.Some? ==> r.value.orderNumber == orderNumber
    ensures r.Some? && Consistent(st) ==> r.value.id in st.orders && st.orders[r.value.id] == r.value
    ensures r.Some? && Consistent(st) ==> excludeId != Some(r.value.id)
    ensures r.Some? && Consistent(st) ==> forall id :: id in Matching(st, orderNumber, excludeId) ==> r.value.id <= id
  {
    var ids := Matching(st, orderNumber, excludeId);
    if ids == {} then
      assert forall id :: id in st.orders && st.orders[id].orderNumber == orderNumber ==> id in ids || excludeId == Some(id);
      None
    else
      assert MinOf(ids) in ids;
      Some(st.orders[MinOf(ids)])
  }

  /** `GetByStatusAsync`: exactly the orders with the named status; a name
      that does not parse is an argument error. */
  function GetByStatus(st: DbState, status: string): (r: Result<map<int, Order>>)
    ensures r.Err? <==> !OrderStatus.IsValid(status)
    ensures r.Err? ==> r.error == ArgumentError
    ensures r.Ok? ==> forall id :: id in r.value <==> id in st.orders && OrderStatus.EnumName(st.orders[id].status) == status
    ensures r.Ok? ==> forall id :: id in r.value ==> r.value[id] == st.orders[id]
  {
    match OrderStatus.TryParse(status)
    case None => Err(ArgumentError)
    case Some(value) =>
      OrderStatus.ParseNameRoundTrip(status, value);
      Ok(map id | id in st.orders && st.orders[id].status == value :: st.orders[id])
  }

  /** The state `CreateAsync` tries to commit: the order under the next
      identity value. */
  function Inserted(st: DbState, order: Order): DbState {
    st.(orders := st.orders[st.nextOrderId := order.(id := st.nextOrderId)], nextOrderId := st.nextOrderId + 1)
  }

  /** `CreateAsync`: add the order under a fresh id and save. */
  function CreateSpec(st: DbState, order: Order): (s: Step<Order>)
    ensures s.result.Err? ==> s.result.error == DbUpdate && s.next == st
    ensures s.result.Ok? ==> s.result.value == order.(id := st.nextOrderId)
    ensures s.result.Ok? ==> s.next.orders == st.orders[st.nextOrderId := s.result.value]
    ensures s.result.Ok? ==> s.next.logs == st.logs && s.next.products == st.products && s.next.resources == st.resources
  {
    SaveChanges(st, Inserted(st, order), order.(id := st.nextOrderId))
  }

  /** On a consistent database the insert commits exactly when the new row
      passes its checks and references a product; its id is fresh. */
  lemma CreateCommits(st: DbState, order: Order)
    requires Consistent(st)
    ensures st.nextOrderId !in st.orders
    ensures CreateSpec(st, order).result.Ok? <==>
      OrderChecks(order.(id := st.nextOrderId)) && order.productCode in st.products
  {
    var o := order.(id := st.nextOrderId);
    var nx := Inserted(st, order);
    assert o.id in nx.orders && nx.orders[o.id] == o;
    if OrderChecks(o) && o.productCode in st.products {
      assert OrderRows(nx) && OrderKeys(nx) && LogRows(nx);
    }
  }

  /** The six fields `UpdateAsync` copies onto the stored row; the id and
      `QuantityProduced` stay as stored. */
  function CopyFields(stored: Order, from: Order): (r: Order)
    ensures r.id == stored.id && r.quantityProduced == stored.quantityProduced
    ensures r.(id := from.id, quantityProduced := from.quantityProduced) == from
  {
    stored.(orderNumber := from.orderNumber, productCode := from.productCode,
            quantityPlanned := from.quantityPlanned, status := from.status,
            startDate := from.startDate, endDate := from.endDate)
  }

  /** The state a save of a changed order row tries to commit. */
  function Replaced(st: DbState, row: Order): DbState {
    st.(orders := st.orders[row.id := row])
  }

  /** Replacing one row of a consistent state keeps it consistent exactly
      when the new row passes its checks and references a product. */
  lemma ReplacedConsistent(st: DbState, row: Order)
    requires Consistent(st) && row.id in st.orders
    ensures Consistent(Replaced(st, row)) <==> OrderChecks(row) && row.productCode in st.products
  {
    var nx := Replaced(st, row);
    assert nx.orders.Keys == st.orders.Keys;
    assert nx.orders[row.id] == row;
    if OrderChecks(row) && row.productCode in st.products {
      assert OrderRows(nx);
      assert OrderKeys(nx);
      assert LogRows(nx);
    }
  }

  /** `UpdateAsync`: overwrite six fields of the stored row and save. */
  function UpdateSpec(st: DbState, order: Order): (s: Step<Order>)
    ensures s.result.Err? ==> s.next == st
    ensures s.result == Err(KeyNotFound) <==> order.id !in st.orders
    ensures s.result.Ok? ==> s.result.value == CopyFields(st.orders[order.id], order)
    ensures s.result.Ok? ==> s.next == Replaced(st, s.result.value)
  {
    if order.id !in st.orders then Step(Err(KeyNotFound), st)
    else
      var row := CopyFields(st.orders[order.id], order);
      SaveChanges(st, Replaced(st, row), row)
  }

  /** `UpdateAsync` called with the entity the context already tracks, whose
      `QuantityProduced` was changed in memory: that change is saved along
      with the six copied fields. */
  function UpdateTrackedSpec(st: DbState, order: Order): (s: Step<Order>)
    ensures s.result.Err? ==> s.next == st
    ensures s.result == Err(KeyNotFound) <==> order.id !in st.orders
    ensures s.result.Ok? ==> s.result.value == order
    ensures s.result.Ok? ==> s.next == Replaced(st, order)
  {
    if order.id !in st.orders then Step(Err(KeyNotFound), st)
    else SaveChanges(st, Replaced(st, order), order)
  }

  /** On a consistent database an update of a present order commits exactly
      when the resulting row passes its checks and references a product. */
  lemma UpdateCommits(st: DbState, order: Order)
    requires Consistent(st) && order.id in st.orders
    ensures UpdateSpec(st, order).result.Ok? <==>
      OrderChecks(CopyFields(st.orders[order.id], order)) && order.productCode in st.products
    ensures UpdateTrackedSpec(st, order).result.Ok? <==>
      OrderChecks(order) && order.productCode in st.products
  {
    ReplacedConsistent(st, CopyFields(st.orders[order.id], order));
    ReplacedConsistent(st, order);
  }

  /** When the tracked entity's `QuantityProduced` is the stored one, saving
      it is the plain six-field update: the order service's path through
      `UpdateAsync` needs nothing more. */
  lemma TrackedAgreesWithUpdate(st: DbState, order: Order)
    requires Consistent(st) && order.id in st.orders
    requires order.quantityProduced == st.orders[order.id].quantityProduced
    ensures UpdateTrackedSpec(st, order) == UpdateSpec(st, order)
  {
    assert CopyFields(st.orders[order.id], order) == order;
  }

  /** `DeleteAsync`: false when the id is absent; otherwise the order and,
      by the cascade, its logs are removed. */
  function DeleteSpec(st: DbState, id: int): (s: Step<bool>)
    ensures Consistent(st) ==> s.result == Ok(id in st.orders)
    ensures Consistent(st) ==> s.next == if id in st.orders then DeleteOrderCascade(st, id) else st
    ensures Consistent(st) ==> Consistent(s.next)
  {
    if id !in st.orders then Step(Ok(false), st)
    else
      DeleteOrderKeepsConsistent(st, id);
      SaveChanges(st, DeleteOrderCascade(st, id), true)
  }

  /** `CreateAsync` on the database context. */
  method Create(db: Db, order: Order) returns (r: Result<Order>)
    requires db.Valid()
    modifies db
    ensures db.Valid()
    ensures Step(r, db.State()) == CreateSpec(old(db.State()), order)
  {
    var added := order.(id := db.nextOrderId);
    var ok := db.SaveChanges(Inserted(db.State(), order));
    r := if ok then Ok(added) else Err(DbUpdate);
  }

  /** `UpdateAsync` on the database context: find the stored row, copy the
      six fields onto it, save. */
  method Update(db: Db, order: Order) returns (r: Result<Order>)
    requires db.Valid()
    modifies db
    ensures db.Valid()
    ensures Step(r, db.State()) == UpdateSpec(old(db.State()), order)
  {
    if order.id !in db.orders {
      return Err(KeyNotFound);
    }
    var existing := db.orders[order.id];
    existing := CopyFields(existing, order);
    var ok := db.SaveChanges(Replaced(db.State(), existing));
    r := if ok then Ok(existing) else Err(DbUpdate);
  }

  /** `UpdateAsync` when the stored row is the tracked `order` itself, so
      every field of it is saved. */
  method UpdateTracked(db: Db, order: Order) returns (r: Result<Order>)
    requires db.Valid()
    modifies db
    ensures db.Valid()
    ensures Step(r, db.State()) == UpdateTrackedSpec(old(db.State()), order)
  {
    if order.id !in db.orders {
      return Err(KeyNotFound);
    }
    var ok := db.SaveChanges(Replaced(db.State(), order));
    r := if ok then Ok(order) else Err(DbUpdate);
  }

  /** `DeleteAsync` on the database context. */
  method Delete(db: Db, id: int) returns (r: Result<bool>)
    requires db.Valid()
    modifies db
    ensures db.Valid()
    ensures Step(r, db.State()) == DeleteSpec(old(db.State()), id)
  {
    if id !in db.orders {
      return Ok(false);
    }
    var ok := db.SaveChanges(DeleteOrderCascade(db.State(), id));
    r := if ok then Ok(true) else Err(DbUpdate);
  }
}
