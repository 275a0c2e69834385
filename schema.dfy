/** The database as `ApplicationDbContext` configures it: four tables, the
    check constraints, keys, unique indexes and delete behaviours. A save
    commits a new state only when every constraint holds of it; otherwise it
    raises DbUpdate and the stored state stays as it was. */
module Schema {
  import opened Base
  import opened Entities
  import OrderStatus

  /** The stored tables. Products are identified by their unique code;
      the id counters stand for the identity columns. */
  datatype DbState = DbState(
    orders: map<int, Order>,
    products: set<string>,
    resources: map<int, Resource>,
    logs: seq<Log>,
    nextOrderId: int,
    nextLogId: int)

  /** The outcome of an operation on the database: what it returns and the
      state it leaves behind. */
  datatype Step<T> = Step(result: Result<T>, next: DbState)

  /** The outcome of an endpoint: what it answers and the state it leaves. */
  datatype Answer<T> = Answer(reply: Reply<T>, next: DbState)

  const ResourceStatuses: set<string> := {"Disponivel", "EmUso", "Parado"}

  /** CHK_ProductionOrder_Status, CHK_QuantityProduced and CHK_EndDate on one
      order row. The end date is compared with the start as full timestamps. */
  predicate OrderChecks(o: Order) {
    && OrderStatus.StatusConstraint(OrderStatus.EnumName(o.status))
    && o.quantityProduced <= o.quantityPlanned
    && (o.endDate.None? || o.endDate.value > o.startDate)
  }

  /** CHK_Resource_Status on one resource row. */
  predicate ResourceChecks(r: Resource) {
    r.status in ResourceStatuses
  }

  /** The unique index on `Resource.Code`. */
  predicate UniqueResourceCodes(resources: map<int, Resource>) {
    forall a, b :: a in resources && b in resources && a != b ==> resources[a].code != resources[b].code
  }

  /** Log ids grow along the table, so they are a key. */
  predicate IdsIncreasing(logs: seq<Log>) {
    forall i, j :: 0 <= i < j < |logs| ==> logs[i].id < logs[j].id
  }

  /** Order keys are identity values handed out below the counter. */
  predicate OrderKeys(st: DbState) {
    && st.nextOrderId >= 1
    && forall id :: id in st.orders ==> 1 <= id < st.nextOrderId && st.orders[id].id == id
  }

  /** Every order row passes its checks and references an existing product. */
  predicate OrderRows(st: DbState) {
    forall id :: id in st.orders ==> OrderChecks(st.orders[id]) && st.orders[id].productCode in st.products
  }

  predicate ResourceRows(st: DbState) {
    && (forall id :: id in st.resources ==> ResourceChecks(st.resources[id]))
    && UniqueResourceCodes(st.resources)
  }

  /** Every log has a key below the counter and references an existing order
      and, when it names one, an existing resource. */
  predicate LogRows(st: DbState) {
    && st.nextLogId >= 1
    && IdsIncreasing(st.logs)
    && forall i :: 0 <= i < |st.logs| ==>
         && 1 <= st.logs[i].id < st.nextLogId
         && st.logs[i].productionOrderId in st.orders
         && (st.logs[i].resourceId.Some? ==> st.logs[i].resourceId.value in st.resources)
  }

  /** Everything the database enforces on a committed state. */
  predicate Consistent(st: DbState) {
    OrderKeys(st) && OrderRows(st) && ResourceRows(st) && LogRows(st)
  }

  /** `SaveChangesAsync`: commit `candidate` if the database accepts it. */
  function SaveChanges<T>(st: DbState, candidate: DbState, value: T): (s: Step<T>)
    ensures s.result.Ok? <==> Consistent(candidate)
    ensures s.next == if s.result.Ok? then candidate else st
    ensures s.result.Ok? ==> s.result.value == value
    ensures s.result.Err? ==> s.result.error == DbUpdate
  {
    if Consistent(candidate) then Step(Ok(value), candidate) else Step(Err(DbUpdate), st)
  }

  /** The logs not belonging to `orderId`, in table order. */
  function LogsNotOf(logs: seq<Log>, orderId: int): (r: seq<Log>)
    ensures |r| <= |logs|
    ensures forall l :: l in r <==> l in logs && l.productionOrderId != orderId
  {
    if logs == [] then []
    else if logs[0].productionOrderId == orderId then LogsNotOf(logs[1..], orderId)
    else [logs[0]] + LogsNotOf(logs[1..], orderId)
  }

  /** The logs with every reference to `resourceId` set to null. */
  function ClearResource(logs: seq<Log>, resourceId: int): (r: seq<Log>)
    ensures |r| == |logs|
    ensures forall i :: 0 <= i < |logs| ==>
      r[i] == if logs[i].resourceId == Some(resourceId) then logs[i].(resourceId := None) else logs[i]
  {
    if logs == [] then []
    else
      var head := if logs[0].resourceId == Some(resourceId) then logs[0].(resourceId := None) else logs[0];
      [head] + ClearResource(logs[1..], resourceId)
  }

  /** Deleting an order cascades to its logs (DeleteBehavior.Cascade). */
  function DeleteOrderCascade(st: DbState, id: int): DbState {
    st.(orders := st.orders - {id}, logs := LogsNotOf(st.logs, id))
  }

  /** Deleting a resource sets the reference of its logs to null
      (DeleteBehavior.SetNull). */
  function DeleteResource(st: DbState, id: int): DbState {
    st.(resources := st.resources - {id}, logs := ClearResource(st.logs, id))
  }

  /** Deleting a product an order still references is refused
      (DeleteBehavior.Restrict). */
  function DeleteProduct(st: DbState, code: string): (s: Step<bool>)
    ensures s.result.Err? <==> exists id :: id in st.orders && st.orders[id].productCode == code
    ensures s.result.Err? ==> s.next == st
    ensures s.result.Ok? ==> s.next == st.(products := st.products - {code})
  {
    if exists id :: id in st.orders && st.orders[id].productCode == code then Step(Err(DbUpdate), st)
    else Step(Ok(true), st.(products := st.products - {code}))
  }

  lemma {:induction false} LogsNotOfIncreasing(logs: seq<Log>, orderId: int)
    requires IdsIncreasing(logs)
    ensures IdsIncreasing(LogsNotOf(logs, orderId))
  {
    if logs != [] {
      LogsNotOfIncreasing(logs[1..], orderId);
      var rest := LogsNotOf(logs[1..], orderId);
      forall j | 0 <= j < |rest| ensures logs[0].id < rest[j].id {
        assert rest[j] in logs[1..];
        var k :| 0 <= k < |logs[1..]| && logs[1..][k] == rest[j];
        assert logs[k + 1] == rest[j];
      }
    }
  }

  /** The cascade keeps the database consistent, removes exactly the order
      and its logs, and keeps every other row. */
  lemma DeleteOrderKeepsConsistent(st: DbState, id: int)
    ensures Consistent(st) ==> Consistent(DeleteOrderCascade(st, id))
    ensures forall l :: l in DeleteOrderCascade(st, id).logs <==> l in st.logs && l.productionOrderId != id
  {
    if !Consistent(st) {
      return;
    }
    var nx := DeleteOrderCascade(st, id);
    LogsNotOfIncreasing(st.logs, id);
    forall i | 0 <= i < |nx.logs|
      ensures 1 <= nx.logs[i].id < nx.nextLogId && nx.logs[i].productionOrderId in nx.orders
      ensures nx.logs[i].resourceId.Some? ==> nx.logs[i].resourceId.value in nx.resources
    {
      assert nx.logs[i] in st.logs;
      var k :| 0 <= k < |st.logs| && st.logs[k] == nx.logs[i];
    }
  }

  /** SetNull keeps the database consistent: no log is lost and none keeps
      a reference to the deleted resource. */
  lemma DeleteResourceKeepsConsistent(st: DbState, id: int)
    requires Consistent(st)
    ensures Consistent(DeleteResource(st, id))
    ensures |DeleteResource(st, id).logs| == |st.logs|
    ensures forall i :: 0 <= i < |st.logs| ==> DeleteResource(st, id).logs[i].resourceId != Some(id)
  {
  }

  /** A product delete either is refused or leaves a consistent database. */
  lemma DeleteProductKeepsConsistent(st: DbState, code: string)
    requires Consistent(st)
    ensures Consistent(DeleteProduct(st, code).next)
  {
  }

  /** An empty database whose catalogue satisfies its constraints. */
  lemma EmptyIsConsistent(products: set<string>, resources: map<int, Resource>)
    requires forall id :: id in resources ==> ResourceChecks(resources[id])
    requires UniqueResourceCodes(resources)
    ensures Consistent(DbState(map[], products, resources, [], 1, 1))
  {
  }

  /** The database context: the tables as mutable fields. */
  class Db {
    var orders: map<int, Order>
    var products: set<string>
    var resources: map<int, Resource>
    var logs: seq<Log>
    var nextOrderId: int
    var nextLogId: int

    function State(): DbState
      reads this
    {
      DbState(orders, products, resources, logs, nextOrderId, nextLogId)
    }

    /** The database only ever holds committed, consistent states. */
    predicate Valid()
      reads this
    {
      Consistent(State())
    }

    /** A fresh database over a catalogue of products and resources. */
    constructor (products: set<string>, resources: map<int, Resource>)
      requires forall id :: id in resources ==> ResourceChecks(resources[id])
      requires UniqueResourceCodes(resources)
      ensures Valid()
      ensures State() == DbState(map[], products, resources, [], 1, 1)
    {
      this.orders := map[];
      this.products := products;
      this.resources := resources;
      this.logs := [];
      this.nextOrderId := 1;
      this.nextLogId := 1;
    }

    /** `SaveChangesAsync`: the staged state is written when the database
        accepts it; otherwise nothing is stored and the save fails. */
    method SaveChanges(candidate: DbState) returns (ok: bool)
      requires Valid()
      modifies this
      ensures Valid()
      ensures ok == Consistent(candidate)
      ensures State() == if ok then candidate else old(State())
    {
      ok := Consistent(candidate);
      if ok {
        orders, products, resources, logs := candidate.orders, candidate.products, candidate.resources, candidate.logs;
        nextOrderId, nextLogId := candidate.nextOrderId, candidate.nextLogId;
      }
    }
  }
}
