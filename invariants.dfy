/** Two invariants the services keep on top of the database constraints:
    order numbers are unique, and every order's produced count is what its
    logs add up to (wrapped to 32 bits, as the increments are). The first
    has no database index behind it; the second holds because every change
    to a produced count comes with exactly one log. */
module Invariants {
  import opened Base
  import opened Entities
  import opened Schema
  import OrderRepository
  import LogRepository
  import OrderService
  import LogService

  /** The total quantity of a sequence of logs, summed from the end. */
  function QuantitySum(logs: seq<Log>): int {
    if logs == [] then 0 else QuantitySum(logs[..|logs| - 1]) + logs[|logs| - 1].quantity
  }

  /** Everything logged against one order. */
  function Logged(logs: seq<Log>, orderId: int): int {
    QuantitySum(LogRepository.ByOrder(logs, orderId))
  }

  /** Each order's produced count is its logged total. */
  predicate Balanced(st: DbState) {
    forall id :: id in st.orders ==> st.orders[id].quantityProduced == Wrap32(Logged(st.logs, id))
  }

  /** What an order's produced count holds beyond its logs, wrapped to 32
      bits: the count an order starts with when it is stored without logs,
      as the seeded orders are. */
  function Unlogged(st: DbState, id: int): Int32
    requires id in st.orders
  {
    Wrap32(st.orders[id].quantityProduced - Logged(st.logs, id))
  }

  /** An order is balanced exactly when nothing of its count is unlogged. */
  lemma BalancedIffNothingUnlogged(st: DbState)
    ensures Balanced(st) <==> forall id :: id in st.orders ==> Unlogged(st, id) == 0
  {
    forall id | id in st.orders
      ensures st.orders[id].quantityProduced == Wrap32(Logged(st.logs, id)) <==> Unlogged(st, id) == 0
    {
      var p, total := st.orders[id].quantityProduced, Logged(st.logs, id);
      Wrap32Add(total, -total);
      Wrap32Add(p - total, total);
    }
  }

  predicate Invariant(st: DbState) {
    Consistent(st) && OrderService.UniqueOrderNumbers(st) && Balanced(st)
  }

  lemma {:induction false} QuantitySumAppend(logs: seq<Log>, l: Log)
    ensures QuantitySum(logs + [l]) == QuantitySum(logs) + l.quantity
  {
    assert (logs + [l])[..|logs|] == logs;
  }

  /** Appending a log adds its quantity to its own order's total and to no
      other. */
  lemma LoggedAppend(logs: seq<Log>, l: Log, orderId: int)
    ensures Logged(logs + [l], orderId) == Logged(logs, orderId) + if l.productionOrderId == orderId then l.quantity else 0
  {
    LogRepository.ByOrderAppend(logs, [l], orderId);
    assert LogRepository.ByOrder([l], orderId) == if l.productionOrderId == orderId then [l] else [];
    if l.productionOrderId == orderId {
      QuantitySumAppend(LogRepository.ByOrder(logs, orderId), l);
    } else {
      assert LogRepository.ByOrder(logs, orderId) + [] == LogRepository.ByOrder(logs, orderId);
    }
  }

  /** Removing one order's logs leaves every other order's list as it was. */
  lemma {:induction false} ByOrderAfterCascade(logs: seq<Log>, removed: int, orderId: int)
    requires removed != orderId
    ensures LogRepository.ByOrder(Schema.LogsNotOf(logs, removed), orderId) == LogRepository.ByOrder(logs, orderId)
  {
    if logs != [] {
      ByOrderAfterCascade(logs[1..], removed, orderId);
      if logs[0].productionOrderId != removed {
        assert ([logs[0]] + Schema.LogsNotOf(logs[1..], removed))[1..] == Schema.LogsNotOf(logs[1..], removed);
      }
    }
  }

  /** Clearing a resource reference leaves every order's list of quantities
      as it was. */
  lemma {:induction false} LoggedAfterClear(logs: seq<Log>, resourceId: int, orderId: int)
    ensures Logged(Schema.ClearResource(logs, resourceId), orderId) == Logged(logs, orderId)
    decreases |logs|
  {
    if logs != [] {
      var n := |logs| - 1;
      var front := logs[..n];
      var cleared := Schema.ClearResource(logs, resourceId);
      assert logs == front + [logs[n]];
      assert cleared == Schema.ClearResource(front, resourceId) + [cleared[n]];
      LoggedAfterClear(front, resourceId, orderId);
      LoggedAppend(front, logs[n], orderId);
      LoggedAppend(Schema.ClearResource(front, resourceId), cleared[n], orderId);
    }
  }

  /** The empty database is balanced and its numbers are unique. */
  lemma EmptyKeepsInvariant(products: set<string>, resources: map<int, Resource>)
    requires forall id :: id in resources ==> ResourceChecks(resources[id])
    requires UniqueResourceCodes(resources)
    ensures Invariant(DbState(map[], products, resources, [], 1, 1))
  {
    EmptyIsConsistent(products, resources);
  }

  /** Creating an order keeps both invariants: its number was free, and it
      starts with nothing produced and no logs. */
  lemma CreateKeepsInvariant(st: DbState, order: Order, now: Ticks)
    requires Invariant(st)
    ensures Invariant(OrderService.CreateSpec(st, order, now).next)
  {
    var s := OrderService.CreateSpec(st, order, now);
    if s.result.Ok? {
      OrderService.CreateSucceeds(st, order, now);
      var newId := st.nextOrderId;
      assert newId !in st.orders;
      assert forall i :: 0 <= i < |st.logs| ==> st.logs[i].productionOrderId != newId;
      assert LogRepository.ByOrder(st.logs, newId) == [];
      forall a, b | a in s.next.orders && b in s.next.orders && a != b
        ensures s.next.orders[a].orderNumber != s.next.orders[b].orderNumber
      {
        if a == newId {
          assert st.orders[b].orderNumber != order.orderNumber;
        } else if b == newId {
          assert st.orders[a].orderNumber != order.orderNumber;
        }
      }
    }
  }

  /** Updating an order keeps both invariants: its new number is free of
      every other order, and its produced count is untouched. */
  lemma UpdateKeepsInvariant(st: DbState, id: int, order: Order, now: Ticks)
    requires Invariant(st)
    ensures Invariant(OrderService.UpdateSpec(st, id, order, now).next)
  {
    var s := OrderService.UpdateSpec(st, id, order, now);
    if s.result.Ok? {
      OrderService.UpdateSucceeds(st, id, order, now);
      forall a, b | a in s.next.orders && b in s.next.orders && a != b
        ensures s.next.orders[a].orderNumber != s.next.orders[b].orderNumber
      {
        if a == id {
          assert st.orders[b].orderNumber != order.orderNumber;
        } else if b == id {
          assert st.orders[a].orderNumber != order.orderNumber;
        }
      }
    }
  }

  /** One order's balance after a log is appended: its count and its
      logged total move together. */
  lemma AppendedEntry(produced: Int32, logs: seq<Log>, added: Log, id: int, newProduced: Int32)
    requires produced == Wrap32(Logged(logs, id))
    requires newProduced == if added.productionOrderId == id then Wrap32(produced + added.quantity) else produced
    ensures newProduced == Wrap32(Logged(logs + [added], id))
  {
    LoggedAppend(logs, added, id);
    if added.productionOrderId == id {
      Wrap32Add(Logged(logs, id), added.quantity);
    }
  }

  /** The state after a successful append, as `LogService.AppendSucceeds`
      describes it, is balanced. */
  lemma AppendedBalanced(st: DbState, log: Log, next: DbState)
    requires Balanced(st)
    requires log.productionOrderId in st.orders
    requires next.logs == st.logs + [log.(id := st.nextLogId)]
    requires next.orders == st.orders[log.productionOrderId := LogService.Increased(st.orders[log.productionOrderId], log.quantity)]
    ensures Balanced(next)
  {
    var added := log.(id := st.nextLogId);
    forall id | id in next.orders
      ensures next.orders[id].quantityProduced == Wrap32(Logged(next.logs, id))
    {
      AppendedEntry(st.orders[id].quantityProduced, st.logs, added, id, next.orders[id].quantityProduced);
    }
  }

  lemma AppendedUnique(st: DbState, log: Log, next: DbState)
    requires OrderService.UniqueOrderNumbers(st)
    requires log.productionOrderId in st.orders
    requires next.orders == st.orders[log.productionOrderId := LogService.Increased(st.orders[log.productionOrderId], log.quantity)]
    ensures OrderService.UniqueOrderNumbers(next)
  {
    assert forall id :: id in next.orders ==> next.orders[id].orderNumber == st.orders[id].orderNumber;
  }

  lemma AppendedInvariant(st: DbState, log: Log, next: DbState)
    requires Invariant(st) && Consistent(next)
    requires log.productionOrderId in st.orders
    requires next.logs == st.logs + [log.(id := st.nextLogId)]
    requires next.orders == st.orders[log.productionOrderId := LogService.Increased(st.orders[log.productionOrderId], log.quantity)]
    ensures Invariant(next)
  {
    AppendedBalanced(st, log, next);
    AppendedUnique(st, log, next);
  }

  /** Appending a log keeps both invariants: the order's count and its
      logged total grow by the same quantity. */
  lemma AppendKeepsInvariant(st: DbState, log: Log)
    requires Invariant(st)
    ensures Invariant(LogService.AppendSpec(st, log).next)
  {
    var s := LogService.AppendSpec(st, log);
    LogService.AppendCommits(st, log);
    if s.result.Ok? {
      LogService.AppendSucceeds(st, log);
      AppendedInvariant(st, log, s.next);
    }
  }

  /** Deleting an order keeps both invariants: the cascade takes its logs
      with it and no other order's total moves. */
  lemma DeleteKeepsInvariant(st: DbState, id: int)
    requires Invariant(st)
    ensures Invariant(OrderRepository.DeleteSpec(st, id).next)
  {
    var s := OrderRepository.DeleteSpec(st, id);
    if id in st.orders {
      forall other | other in s.next.orders
        ensures s.next.orders[other].quantityProduced == Wrap32(Logged(s.next.logs, other))
      {
        ByOrderAfterCascade(st.logs, id, other);
      }
    }
  }

  /** Deleting a resource keeps both invariants: the logs only lose their
      reference to it. */
  lemma DeleteResourceKeepsInvariant(st: DbState, id: int)
    requires Invariant(st)
    ensures Invariant(Schema.DeleteResource(st, id))
  {
    DeleteResourceKeepsConsistent(st, id);
    forall other | other in st.orders
      ensures st.orders[other].quantityProduced == Wrap32(Logged(Schema.DeleteResource(st, id).logs, other))
    {
      LoggedAfterClear(st.logs, id, other);
    }
  }

  /** Adding the same quantity to a count and to its total leaves their
      wrapped difference as it was. */
  lemma WrappedDifferenceShift(p: int, total: int, q: int)
    ensures Wrap32(Wrap32(p + q) - (total + q)) == Wrap32(p - total)
  {
    Wrap32Add(p + q, -(total + q));
    assert p + q + -(total + q) == p - total;
  }

  /** Two stores whose count and logged total for an order differ by the
      same quantity, the count wrapped, agree on its unlogged part. */
  lemma ShiftedUnlogged(st: DbState, next: DbState, id: int, q: int)
    requires id in st.orders && id in next.orders
    requires next.orders[id].quantityProduced == Wrap32(st.orders[id].quantityProduced + q)
    requires Logged(next.logs, id) == Logged(st.logs, id) + q
    ensures Unlogged(next, id) == Unlogged(st, id)
  {
    WrappedDifferenceShift(st.orders[id].quantityProduced, Logged(st.logs, id), q);
  }

  /** Two stores that agree on an order's count and logged total agree on
      its unlogged part. */
  lemma SameUnlogged(st: DbState, next: DbState, id: int)
    requires id in st.orders && id in next.orders
    requires next.orders[id].quantityProduced == st.orders[id].quantityProduced
    requires Logged(next.logs, id) == Logged(st.logs, id)
    ensures Unlogged(next, id) == Unlogged(st, id)
  {
  }

  /** After an accepted log, one order's unlogged part. */
  lemma AppendedUnlogged(st: DbState, log: Log, next: DbState, id: int)
    requires id in st.orders && log.productionOrderId in st.orders
    requires next.logs == st.logs + [log.(id := st.nextLogId)]
    requires next.orders == st.orders[log.productionOrderId := LogService.Increased(st.orders[log.productionOrderId], log.quantity)]
    ensures id in next.orders && Unlogged(next, id) == Unlogged(st, id)
  {
    LoggedAppend(st.logs, log.(id := st.nextLogId), id);
    if id == log.productionOrderId {
      ShiftedUnlogged(st, next, id, log.quantity);
    } else {
      SameUnlogged(st, next, id);
    }
  }

  /** An accepted log moves its order's count and its logged total by the
      same quantity, so no order's unlogged part changes, whether or not
      the store was balanced before. */
  lemma AppendKeepsUnlogged(st: DbState, log: Log)
    requires Consistent(st)
    ensures forall id :: id in st.orders ==>
      id in LogService.AppendSpec(st, log).next.orders
      && Unlogged(LogService.AppendSpec(st, log).next, id) == Unlogged(st, id)
  {
    var s := LogService.AppendSpec(st, log);
    LogService.AppendCommits(st, log);
    if s.result.Ok? {
      LogService.AppendSucceeds(st, log);
      forall id | id in st.orders
        ensures id in s.next.orders && Unlogged(s.next, id) == Unlogged(st, id)
      {
        AppendedUnlogged(st, log, s.next, id);
      }
    }
  }

  /** Deleting a resource leaves every order's unlogged part as it was. */
  lemma DeleteResourceKeepsUnlogged(st: DbState, id: int)
    ensures forall other :: other in st.orders ==>
      other in Schema.DeleteResource(st, id).orders
      && Unlogged(Schema.DeleteResource(st, id), other) == Unlogged(st, other)
  {
    var next := Schema.DeleteResource(st, id);
    forall other | other in st.orders
      ensures other in next.orders && Unlogged(next, other) == Unlogged(st, other)
    {
      LoggedAfterClear(st.logs, id, other);
      SameUnlogged(st, next, other);
    }
  }
}
