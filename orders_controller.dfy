/** `OrdersController`: the HTTP surface over the order service. A create
    trims the two codes of its request first; a PATCH checks the id and the
    dates of the request before it reads anything, then merges the supplied
    fields onto the stored order and hands the result to the service. */
module OrdersController {
  import opened Base
  import opened Entities
  import opened Schema
  import Text
  import OrderStatus
  import OrderRepository
  import OrderService
  import UpdateDto
  import Replies

  /** `CreateProductionOrderDto`. */
  datatype CreateDto = CreateDto(
    orderNumber: string,
    productCode: string,
    quantityPlanned: Int32,
    status: Int32,
    startDate: Ticks)

  /** The order `CreateOrder` builds from its request: both codes trimmed,
      nothing produced, no end date, and the id left for the insert. */
  function NewOrder(dto: CreateDto): Order {
    Order(0, Text.Trim(dto.orderNumber), Text.Trim(dto.productCode), dto.quantityPlanned, 0, dto.status, dto.startDate, None)
  }

  /** `GetOrders`: every order. */
  function GetOrders(st: DbState): (reply: Reply<map<int, Order>>)
    ensures reply.Done? && reply.value == st.orders
  {
    Done(OrderRepository.GetAll(st))
  }

  /** `GetOrder`: 400 for a non-positive id, 404 for an absent one. */
  function GetOrder(st: DbState, id: int): (reply: Reply<Order>)
    ensures reply == BadRequest <==> id <= 0
    ensures reply == NotFound <==> 0 < id && id !in st.orders
    ensures reply.Done? <==> 0 < id && id in st.orders
    ensures reply.Done? ==> reply.value == st.orders[id]
  {
    if id <= 0 then BadRequest
    else
      var found := OrderService.GetOrderById(st, id);
      if found.Err? then Unavailable
      else if found.value.None? then NotFound
      else Done(found.value.value)
  }

  /** `GetOrdersByStatus`: 400 for an empty or unknown name, 404 when no
      order has that status, otherwise exactly the orders that have it. */
  function GetOrdersByStatus(st: DbState, status: string): (reply: Reply<map<int, Order>>)
    ensures reply == BadRequest <==> !OrderStatus.IsValid(status)
    ensures reply == NotFound <==>
      OrderStatus.IsValid(status) && forall id :: id in st.orders ==> OrderStatus.EnumName(st.orders[id].status) != status
    ensures reply.Done? ==> reply.value != map[]
    ensures reply.Done? ==> forall id :: id in reply.value <==> id in st.orders && OrderStatus.EnumName(st.orders[id].status) == status
    ensures reply.Done? ==> forall id :: id in reply.value ==> reply.value[id] == st.orders[id]
  {
    if status == "" then BadRequest
    else if OrderStatus.TryParse(status).None? then
      OrderStatus.ParseNameRoundTrip(status, 0);
      BadRequest
    else
      var found := OrderService.GetOrdersByStatus(st, status);
      if found.Err? then Unavailable
      else if found.value == map[] then
        assert forall id :: id in st.orders ==> OrderStatus.EnumName(st.orders[id].status) != status by {
          forall id | id in st.orders ensures OrderStatus.EnumName(st.orders[id].status) != status {
            assert id !in found.value;
          }
        }
        NotFound
      else
        assert exists id :: id in found.value by {
          var k := OrderRepository.MinOf(found.value.Keys);
        }
        Done(found.value)
  }

  /** `GetPossibleStatuses`: the three member names, in value order. */
  function GetPossibleStatuses(): (reply: Reply<seq<string>>)
    ensures reply == Done([OrderStatus.Planned, OrderStatus.InProgress, OrderStatus.Finished])
  {
    Done(OrderStatus.PossibleStatuses())
  }

  /** `CreateOrder`: build the order, run the service, map the outcome. */
  function CreateOrderSpec(st: DbState, dto: CreateDto, now: Ticks): (a: Answer<Order>)
    ensures a.reply.Done? <==> OrderService.CreateSpec(st, NewOrder(dto), now).result.Ok?
  {
    var s := OrderService.CreateSpec(st, NewOrder(dto), now);
    Answer(Replies.CreateReply(s.result), s.next)
  }

  /** A request whose order number or product code is nothing but white
      space is refused with 400 and changes nothing: trimming leaves it
      empty. */
  lemma BlankCodesRefused(st: DbState, dto: CreateDto, now: Ticks)
    requires || (forall k :: 0 <= k < |dto.orderNumber| ==> Text.IsWhiteSpace(dto.orderNumber[k]))
             || (forall k :: 0 <= k < |dto.productCode| ==> Text.IsWhiteSpace(dto.productCode[k]))
    ensures CreateOrderSpec(st, dto, now) == Answer(BadRequest, st)
  {
    if forall k :: 0 <= k < |dto.orderNumber| ==> Text.IsWhiteSpace(dto.orderNumber[k]) {
      Text.TrimBlank(dto.orderNumber);
    } else {
      Text.TrimBlank(dto.productCode);
    }
  }

  /** A created order carries the trimmed codes of its request, its planned
      quantity and start, a fresh id and nothing produced; on a consistent
      database every other answer leaves the store as it was. */
  lemma CreateOrderAnswers(st: DbState, dto: CreateDto, now: Ticks)
    requires Consistent(st)
    ensures var a := CreateOrderSpec(st, dto, now);
      a.reply.Done? ==>
        && a.reply.value.id == st.nextOrderId
        && a.reply.value.orderNumber == Text.Trim(dto.orderNumber)
        && a.reply.value.productCode == Text.Trim(dto.productCode)
        && a.reply.value.quantityPlanned == dto.quantityPlanned
        && a.reply.value.startDate == dto.startDate
        && a.reply.value.quantityProduced == 0
        && a.next.orders == st.orders[st.nextOrderId := a.reply.value]
    ensures var a := CreateOrderSpec(st, dto, now);
      !a.reply.Done? ==> a.next == st
  {
    var s := OrderService.CreateSpec(st, NewOrder(dto), now);
    if s.result.Ok? {
      OrderService.CreateSucceeds(st, NewOrder(dto), now);
    }
  }

  /** `CreateOrder` on the database. */
  method CreateOrder(db: Db, dto: CreateDto, now: Ticks) returns (reply: Reply<Order>)
    requires db.Valid()
    modifies db
    ensures db.Valid()
    ensures Answer(reply, db.State()) == CreateOrderSpec(old(db.State()), dto, now)
  {
    var order := Order(0, Text.Trim(dto.orderNumber), Text.Trim(dto.productCode), dto.quantityPlanned, 0, dto.status, dto.startDate, None);
    var created := OrderService.CreateOrder(db, order, now);
    reply := Replies.CreateReply(created);
  }

  /** `string.IsNullOrEmpty` failing: the patch supplies a non-empty text. */
  predicate HasText(s: Option<string>) {
    s.Some? && s.value != ""
  }

  /** The merge of `UpdateOrder`: each supplied field overwrites the stored
      one, in declaration order; a null or empty string supplies nothing. */
  function MergePatch(existing: Order, p: UpdateDto.Patch): Order {
    var a := if HasText(p.orderNumber) then existing.(orderNumber := p.orderNumber.value) else existing;
    var b := if HasText(p.productCode) then a.(productCode := p.productCode.value) else a;
    var c := if p.quantityPlanned.Some? then b.(quantityPlanned := p.quantityPlanned.value) else b;
    var d := if p.status.Some? then c.(status := p.status.value) else c;
    var e := if p.startDate.Some? then d.(startDate := p.startDate.value) else d;
    if p.endDate.Some? then e.(endDate := Some(p.endDate.value)) else e
  }

  /** Field by field: a supplied value wins, an absent one keeps the stored
      value; the id and the produced count are never touched, and an end
      date can be set but never cleared. */
  lemma MergeFields(existing: Order, p: UpdateDto.Patch)
    ensures MergePatch(existing, p).id == existing.id
    ensures MergePatch(existing, p).quantityProduced == existing.quantityProduced
    ensures MergePatch(existing, p).orderNumber == if HasText(p.orderNumber) then p.orderNumber.value else existing.orderNumber
    ensures MergePatch(existing, p).productCode == if HasText(p.productCode) then p.productCode.value else existing.productCode
    ensures MergePatch(existing, p).quantityPlanned == if p.quantityPlanned.Some? then p.quantityPlanned.value else existing.quantityPlanned
    ensures MergePatch(existing, p).status == if p.status.Some? then p.status.value else existing.status
    ensures MergePatch(existing, p).startDate == if p.startDate.Some? then p.startDate.value else existing.startDate
    ensures MergePatch(existing, p).endDate == if p.endDate.Some? then Some(p.endDate.value) else existing.endDate
    ensures existing.endDate.Some? ==> MergePatch(existing, p).endDate.Some?
  {
  }

  /** The patch that supplies nothing leaves the order as it is. */
  lemma MergeEmpty(existing: Order)
    ensures MergePatch(existing, UpdateDto.Empty) == existing
  {
  }

  /** Applying the same patch twice is applying it once. */
  lemma MergeIdempotent(existing: Order, p: UpdateDto.Patch)
    ensures MergePatch(MergePatch(existing, p), p) == MergePatch(existing, p)
  {
  }

  /** `q` after `p`, as one patch: every field `q` supplies wins. */
  function Then(p: UpdateDto.Patch, q: UpdateDto.Patch): (r: UpdateDto.Patch)
    ensures HasText(r.orderNumber) <==> HasText(p.orderNumber) || HasText(q.orderNumber)
    ensures HasText(q.orderNumber) ==> r.orderNumber == q.orderNumber
    ensures r.status.Some? <==> p.status.Some? || q.status.Some?
    ensures q.status.Some? ==> r.status == q.status
  {
    UpdateDto.Patch(
      if HasText(q.orderNumber) then q.orderNumber else p.orderNumber,
      if HasText(q.productCode) then q.productCode else p.productCode,
      if q.quantityPlanned.Some? then q.quantityPlanned else p.quantityPlanned,
      if q.status.Some? then q.status else p.status,
      if q.startDate.Some? then q.startDate else p.startDate,
      if q.endDate.Some? then q.endDate else p.endDate)
  }

  /** Two merges in a row are one merge of the combined patch. */
  lemma MergeThen(existing: Order, p: UpdateDto.Patch, q: UpdateDto.Patch)
    ensures MergePatch(MergePatch(existing, p), q) == MergePatch(existing, Then(p, q))
  {
    MergeFields(existing, p);
    MergeFields(MergePatch(existing, p), q);
    MergeFields(existing, Then(p, q));
  }

  /** `UpdateOrder`: the id guard, the date-conflict guard, the lookup (404
      when absent), then the merge and the service update. */
  function UpdateOrderSpec(st: DbState, id: int, p: UpdateDto.Patch, now: Ticks): Answer<Order> {
    if id <= 0 then Answer(BadRequest, st)
    else if UpdateDto.HasDateConflict(p) then Answer(BadRequest, st)
    else
      var found := OrderService.GetOrderById(st, id);
      if found.Err? then Answer(BadRequest, st)
      else if found.value.None? then Answer(NotFound, st)
      else
        var s := OrderService.UpdateSpec(st, id, MergePatch(found.value.value, p), now);
        Answer(Replies.UpdateReply(s.result), s.next)
  }

  /** The guards run before the store is read: a non-positive id is 400
      even for a conflicting patch, a date conflict is 400 even for an
      absent order, and only then is an absent order 404. None of them
      changes anything. */
  lemma UpdateOrderGuards(st: DbState, id: int, p: UpdateDto.Patch, now: Ticks)
    ensures id <= 0 ==> UpdateOrderSpec(st, id, p, now) == Answer(BadRequest, st)
    ensures 0 < id && UpdateDto.HasDateConflict(p) ==> UpdateOrderSpec(st, id, p, now) == Answer(BadRequest, st)
    ensures 0 < id && !UpdateDto.HasDateConflict(p) ==>
      (UpdateOrderSpec(st, id, p, now).reply == NotFound <==> id !in st.orders)
    ensures 0 < id && !UpdateDto.HasDateConflict(p) && id !in st.orders ==>
      UpdateOrderSpec(st, id, p, now).next == st
  {
    if 0 < id && !UpdateDto.HasDateConflict(p) && id in st.orders {
      var merged := MergePatch(st.orders[id], p);
      assert merged.id == id ==> merged.id in st.orders;
    }
  }

  /** On a consistent database an update that answers with an order
      replaces exactly that row, keeps its id and produced count and leaves
      the logs; every other answer leaves the store as it was. */
  lemma UpdateOrderAnswers(st: DbState, id: int, p: UpdateDto.Patch, now: Ticks)
    requires Consistent(st)
    ensures var a := UpdateOrderSpec(st, id, p, now);
      a.reply.Done? ==>
        && id in st.orders
        && a.reply.value.id == id
        && a.reply.value.quantityProduced == st.orders[id].quantityProduced
        && a.next.orders == st.orders[id := a.reply.value]
        && a.next.logs == st.logs
    ensures var a := UpdateOrderSpec(st, id, p, now);
      !a.reply.Done? ==> a.next == st
  {
    if 0 < id && !UpdateDto.HasDateConflict(p) && id in st.orders {
      var merged := MergePatch(st.orders[id], p);
      MergeFields(st.orders[id], p);
      var s := OrderService.UpdateSpec(st, id, merged, now);
      if s.result.Ok? {
        OrderService.UpdateSucceeds(st, id, merged, now);
      }
    }
  }

  /** The patch the list's status button sends: the status and nothing
      else. */
  function StatusOnly(status: Int32): (p: UpdateDto.Patch)
    ensures !UpdateDto.HasDateConflict(p)
  {
    UpdateDto.Empty.(status := Some(status))
  }

  /** A status-only patch to a stored order goes through on a database that
      keeps its invariants, provided the status is a member and a finished
      order has started, and not on a later day: the order gets the new
      status and the end date the service's rules give it, and nothing else
      changes. */
  lemma StatusPatchApplies(st: DbState, id: int, status: Int32, now: Ticks)
    requires Consistent(st) && OrderService.UniqueOrderNumbers(st) && id in st.orders
    requires OrderStatus.Planejada <= status <= OrderStatus.Finalizada
    requires status == OrderStatus.Finalizada ==>
      st.orders[id].startDate < now && Day(st.orders[id].startDate) <= Day(now)
    ensures var o := st.orders[id].(status := status);
      var row := o.(endDate := OrderService.ResultingEndDate(o, now));
      UpdateOrderSpec(st, id, StatusOnly(status), now) == Answer(Done(row), st.(orders := st.orders[id := row]))
  {
    var stored := st.orders[id];
    var o := stored.(status := status);
    assert MergePatch(stored, StatusOnly(status)) == o;
    assert o.id == id;
    OrderService.OwnNumberNotDuplicate(st, o);
    if stored.endDate.Some? {
      DayMonotone(stored.startDate, stored.endDate.value);
    }
    OrderService.UpdateArgumentErrors(st, id, o, now);
    OrderService.UpdateInvalidOperations(st, id, o, now);
    OrderService.UpdateDatabaseRefusal(st, o, now);
    OrderService.UpdateSucceeds(st, id, o, now);
  }

  /** `UpdateOrder` on the database: the guards, the lookup, the in-place
      merge onto the stored order, then the service. */
  method UpdateOrder(db: Db, id: int, p: UpdateDto.Patch, now: Ticks) returns (reply: Reply<Order>)
    requires db.Valid()
    modifies db
    ensures db.Valid()
    ensures Answer(reply, db.State()) == UpdateOrderSpec(old(db.State()), id, p, now)
  {
    if id <= 0 {
      return BadRequest;
    }
    if UpdateDto.HasDateConflict(p) {
      return BadRequest;
    }
    var found := OrderService.GetOrderById(db.State(), id);
    if found.value.None? {
      return NotFound;
    }
    var existing := found.value.value;
    if HasText(p.orderNumber) {
      existing := existing.(orderNumber := p.orderNumber.value);
    }
    if HasText(p.productCode) {
      existing := existing.(productCode := p.productCode.value);
    }
    if p.quantityPlanned.Some? {
      existing := existing.(quantityPlanned := p.quantityPlanned.value);
    }
    if p.status.Some? {
      existing := existing.(status := p.status.value);
    }
    if p.startDate.Some? {
      existing := existing.(startDate := p.startDate.value);
    }
    if p.endDate.Some? {
      existing := existing.(endDate := Some(p.endDate.value));
    }
    assert existing == MergePatch(found.value.value, p);
    var updated := OrderService.UpdateOrder(db, id, existing, now);
    reply := Replies.UpdateReply(updated);
  }
}
