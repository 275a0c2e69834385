/** `ProductionLogsController`: recording production over HTTP and the
    three log reads. A create checks its quantity, then its order id, and
    only then builds the log, stamped with the current time, for the
    service. */
module LogsController {
  import opened Base
  import opened Entities
  import opened Schema
  import LogRepository
  import LogService
  import Replies

  /** The request body of `CreateProductionLog`. */
  datatype CreateLogDto = CreateLogDto(productionOrderId: int, resourceId: Option<int>, quantity: Int32)

  /** The log the controller builds: the request's three fields and a
      timestamp of now; the id is left for the insert. */
  function NewLog(dto: CreateLogDto, now: Ticks): (l: Log)
    ensures l.productionOrderId == dto.productionOrderId && l.resourceId == dto.resourceId
    ensures l.quantity == dto.quantity && l.timestamp == now
  {
    Log(0, dto.productionOrderId, dto.resourceId, dto.quantity, now)
  }

  /** `CreateProductionLog`: the two guards, then the service. */
  function CreateLogSpec(st: DbState, dto: CreateLogDto, now: Ticks): Answer<Log> {
    if dto.quantity <= 0 then Answer(BadRequest, st)
    else if dto.productionOrderId <= 0 then Answer(BadRequest, st)
    else
      var s := LogService.AppendSpec(st, NewLog(dto, now));
      Answer(Replies.CreateReply(s.result), s.next)
  }

  /** The guards come first and change nothing: a non-positive quantity is
      400 whatever the order id, and so is a non-positive order id. */
  lemma CreateLogGuards(st: DbState, dto: CreateLogDto, now: Ticks)
    ensures dto.quantity <= 0 || dto.productionOrderId <= 0 ==> CreateLogSpec(st, dto, now) == Answer(BadRequest, st)
    ensures dto.quantity > 0 && dto.productionOrderId > 0 && dto.productionOrderId !in st.orders ==>
      CreateLogSpec(st, dto, now) == Answer(BadRequest, st)
  {
    if dto.quantity > 0 && dto.productionOrderId > 0 && dto.productionOrderId !in st.orders {
      LogService.AppendMissingOrder(st, NewLog(dto, now));
    }
  }

  /** On a consistent database the create answers with the stored log,
      numbered by the counter and stamped now, exactly when the order
      exists, any named resource exists and the order is not overfilled;
      every refusal is a 400 that leaves the store as it was. */
  lemma CreateLogAnswers(st: DbState, dto: CreateLogDto, now: Ticks)
    requires Consistent(st)
    ensures var a := CreateLogSpec(st, dto, now);
      a.reply.Done? <==>
        && dto.quantity > 0 && dto.productionOrderId in st.orders
        && !LogService.UnknownResource(st, NewLog(dto, now))
        && !LogService.Overfills(st, NewLog(dto, now))
    ensures var a := CreateLogSpec(st, dto, now);
      a.reply.Done? ==>
        && a.reply.value == Log(st.nextLogId, dto.productionOrderId, dto.resourceId, dto.quantity, now)
        && a.next.logs == st.logs + [a.reply.value]
    ensures var a := CreateLogSpec(st, dto, now);
      !a.reply.Done? ==> a == Answer(BadRequest, st)
  {
    var log := NewLog(dto, now);
    if dto.quantity > 0 && dto.productionOrderId > 0 {
      LogService.AppendCommits(st, log);
      LogService.AppendArgumentErrors(st, log);
      if LogService.AppendSpec(st, log).result.Ok? {
        LogService.AppendSucceeds(st, log);
      }
    } else if dto.quantity > 0 {
      assert dto.productionOrderId !in st.orders;
    }
  }

  /** `CreateProductionLog` on the database. */
  method CreateProductionLog(db: Db, dto: CreateLogDto, now: Ticks) returns (reply: Reply<Log>)
    requires db.Valid()
    modifies db
    ensures db.Valid()
    ensures Answer(reply, db.State()) == CreateLogSpec(old(db.State()), dto, now)
  {
    if dto.quantity <= 0 {
      return BadRequest;
    }
    if dto.productionOrderId <= 0 {
      return BadRequest;
    }
    var log := Log(0, dto.productionOrderId, dto.resourceId, dto.quantity, now);
    var created := LogService.Append(db, log);
    reply := Replies.CreateReply(created);
  }

  /** `GetLogs`: every log, in table order. */
  function GetLogs(st: DbState): (reply: Reply<seq<Log>>)
    ensures reply == Done(st.logs)
  {
    Done(LogRepository.GetAll(st.logs))
  }

  /** `GetLogsByOrder`: 400 for a non-positive id, 404 when the order has
      no logs (whether or not the order exists), otherwise its logs. */
  function GetLogsByOrder(st: DbState, orderId: int): (reply: Reply<seq<Log>>)
    ensures reply == BadRequest <==> orderId <= 0
    ensures reply == NotFound <==> 0 < orderId && forall i :: 0 <= i < |st.logs| ==> st.logs[i].productionOrderId != orderId
    ensures reply.Done? ==> reply.value != [] && forall l :: l in reply.value <==> l in st.logs && l.productionOrderId == orderId
  {
    if orderId <= 0 then BadRequest
    else
      var logs := LogRepository.ByOrder(st.logs, orderId);
      if logs == [] then NotFound else Done(logs)
  }

  /** `GetLog`: 400 for a non-positive id, 404 for an absent one. */
  function GetLog(st: DbState, id: int): (reply: Reply<Log>)
    ensures reply == BadRequest <==> id <= 0
    ensures reply == NotFound <==> 0 < id && forall i :: 0 <= i < |st.logs| ==> st.logs[i].id != id
    ensures reply.Done? ==> reply.value in st.logs && reply.value.id == id
  {
    if id <= 0 then BadRequest
    else
      match LogRepository.GetById(st.logs, id)
      case None => NotFound
      case Some(l) => Done(l)
  }

  /** A log just created can be read back by its id. */
  lemma CreatedLogReadable(st: DbState, dto: CreateLogDto, now: Ticks)
    requires Consistent(st)
    requires CreateLogSpec(st, dto, now).reply.Done?
    ensures var a := CreateLogSpec(st, dto, now);
      GetLog(a.next, a.reply.value.id) == a.reply
  {
    CreateLogAnswers(st, dto, now);
    var a := CreateLogSpec(st, dto, now);
    LogService.AppendCommits(st, NewLog(dto, now));
    assert Consistent(a.next);
    assert a.next.logs[|st.logs|] == a.reply.value;
    LogRepository.GetByIdFindsRow(a.next.logs, |st.logs|);
  }
}
