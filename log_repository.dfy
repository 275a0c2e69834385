/** `ProductionLogRepository`: the append and the three reads over the log
    table, which keeps its rows in insertion order. */
module LogRepository {
  import opened Base
  import opened Entities
  import opened Schema

  /** The state `AddAsync` tries to commit: the log under the next identity
      value, after every existing row. */
  function Appended(st: DbState, log: Log): DbState {
    st.(logs := st.logs + [log.(id := st.nextLogId)], nextLogId := st.nextLogId + 1)
  }

  /** `AddAsync`: append the log under a fresh id and save. */
  function AddSpec(st: DbState, log: Log): (s: Step<Log>)
    ensures s.result.Err? ==> s.result.error == DbUpdate && s.next == st
    ensures s.result.Ok? ==> s.result.value == log.(id := st.nextLogId)
    ensures s.result.Ok? ==> s.next.logs == st.logs + [s.result.value]
    ensures s.result.Ok? ==> s.next.orders == st.orders && s.next.products == st.products && s.next.resources == st.resources
  {
    SaveChanges(st, Appended(st, log), log.(id := st.nextLogId))
  }

  /** On a consistent database the append commits exactly when the log
      references an existing order and, if it names one, an existing
      resource. */
  lemma AddCommits(st: DbState, log: Log)
    requires Consistent(st)
    ensures AddSpec(st, log).result.Ok? <==>
      log.productionOrderId in st.orders && (log.resourceId.Some? ==> log.resourceId.value in st.resources)
  {
    var nx := Appended(st, log);
    var added := log.(id := st.nextLogId);
    assert nx.logs[|st.logs|] == added;
    if log.productionOrderId in st.orders && (log.resourceId.Some? ==> log.resourceId.value in st.resources) {
      forall i, j | 0 <= i < j < |nx.logs| ensures nx.logs[i].id < nx.logs[j].id {
        if j < |st.logs| {
          assert nx.logs[i] == st.logs[i] && nx.logs[j] == st.logs[j];
        } else {
          assert nx.logs[i] == st.logs[i];
        }
      }
      forall i | 0 <= i < |nx.logs|
        ensures 1 <= nx.logs[i].id < nx.nextLogId && nx.logs[i].productionOrderId in nx.orders
        ensures nx.logs[i].resourceId.Some? ==> nx.logs[i].resourceId.value in nx.resources
      {
        if i < |st.logs| {
          assert nx.logs[i] == st.logs[i];
        }
      }
      assert LogRows(nx);
    }
  }

  /** `GetByOrderIdAsync`: the logs of one order, in table order. */
  function ByOrder(logs: seq<Log>, orderId: int): (r: seq<Log>)
    ensures |r| <= |logs|
    ensures forall l :: l in r <==> l in logs && l.productionOrderId == orderId
    ensures r == [] <==> forall i :: 0 <= i < |logs| ==> logs[i].productionOrderId != orderId
  {
    if logs == [] then []
    else if logs[0].productionOrderId == orderId then [logs[0]] + ByOrder(logs[1..], orderId)
    else ByOrder(logs[1..], orderId)
  }

  /** The filter distributes over concatenation, so it keeps table order:
      appending a log extends exactly its own order's list. */
  lemma {:induction false} ByOrderAppend(a: seq<Log>, b: seq<Log>, orderId: int)
    ensures ByOrder(a + b, orderId) == ByOrder(a, orderId) + ByOrder(b, orderId)
  {
    if a != [] {
      assert (a + b)[1..] == a[1..] + b;
      ByOrderAppend(a[1..], b, orderId);
    } else {
      assert a + b == b;
    }
  }

  /** `GetAllAsync`: every log, in table order. */
  function GetAll(logs: seq<Log>): (r: seq<Log>)
    ensures |r| == |logs| && forall i :: 0 <= i < |logs| ==> r[i] == logs[i]
  {
    logs
  }

  /** `GetByIdAsync`: the first log carrying that id, if any. */
  function GetById(logs: seq<Log>, id: int): (r: Option<Log>)
    ensures r.None? <==> forall i :: 0 <= i < |logs| ==> logs[i].id != id
    ensures r.Some? ==> r.value in logs && r.value.id == id
  {
    if logs == [] then None
    else if logs[0].id == id then Some(logs[0])
    else GetById(logs[1..], id)
  }

  /** Log ids are a key of a consistent table, so the lookup finds the one
      row at that id. */
  lemma {:induction false} GetByIdFindsRow(logs: seq<Log>, i: int)
    requires IdsIncreasing(logs) && 0 <= i < |logs|
    ensures GetById(logs, logs[i].id) == Some(logs[i])
  {
    if i > 0 {
      assert logs[0].id < logs[i].id;
      assert IdsIncreasing(logs[1..]) by {
        forall a, b | 0 <= a < b < |logs[1..]| ensures logs[1..][a].id < logs[1..][b].id {
          assert logs[1..][a] == logs[a + 1] && logs[1..][b] == logs[b + 1];
        }
      }
      GetByIdFindsRow(logs[1..], i - 1);
    }
  }

  /** `AddAsync` on the database context. */
  method Add(db: Db, log: Log) returns (r: Result<Log>)
    requires db.Valid()
    modifies db
    ensures db.Valid()
    ensures Step(r, db.State()) == AddSpec(old(db.State()), log)
  {
    var added := log.(id := db.nextLogId);
    var ok := db.SaveChanges(Appended(db.State(), log));
    r := if ok then Ok(added) else Err(DbUpdate);
  }
}
