/** `App`: the page that holds the order list and the set of orders whose
    status change is in flight. A status click sends the chosen label; the
    page turns it back into a number, asks the API for the change, and on
    success patches its own copy of the list. */
module App {
  import opened FrontTypes
  import OrderList

  /** The `switch` on the label in `handleStatusUpdate`; an unknown label
      falls back to 1. */
  function LabelToNumber(text: string): (n: int)
    ensures 1 <= n <= 3
    ensures text == OrderList.PlannedLabel ==> n == 1
    ensures text == OrderList.InProgressLabel ==> n == 2
    ensures text == OrderList.FinishedLabel ==> n == 3
    ensures text != OrderList.PlannedLabel && text != OrderList.InProgressLabel && text != OrderList.FinishedLabel ==> n == 1
  {
    if text == OrderList.PlannedLabel then 1
    else if text == OrderList.InProgressLabel then 2
    else if text == OrderList.FinishedLabel then 3
    else 1
  }

  /** Naming a status and reading the name back gives the status. */
  lemma LabelRoundTrip(status: int)
    requires 1 <= status <= 3
    ensures LabelToNumber(OrderList.StatusLabel(status)) == status
  {
  }

  /** What a status click asks the API for is the next status of the cycle,
      whatever the current status. */
  lemma ClickRequestsNextStatus(order: FrontOrder, updating: set<int>)
    requires order.id !in updating
    ensures LabelToNumber(OrderList.StatusClick(order, updating).value.statusLabel)
         == OrderList.NextStatusNumber(order.status)
  {
    LabelRoundTrip(OrderList.NextStatusNumber(order.status));
  }

  /** The `map` on success: the order with that id gets the new status. */
  function WithStatus(orders: seq<FrontOrder>, id: int, status: int): (r: seq<FrontOrder>)
    ensures |r| == |orders|
  {
    seq(|orders|, i requires 0 <= i < |orders| => if orders[i].id == id then orders[i].(status := status) else orders[i])
  }

  /** Only the status of the orders with that id changes: the list keeps
      its length, its order and every other field. */
  lemma WithStatusChangesOnlyStatus(orders: seq<FrontOrder>, id: int, status: int)
    ensures forall i :: 0 <= i < |orders| ==> WithStatus(orders, id, status)[i].(status := orders[i].status) == orders[i]
    ensures forall i :: 0 <= i < |orders| && orders[i].id == id ==> WithStatus(orders, id, status)[i].status == status
    ensures forall i :: 0 <= i < |orders| && orders[i].id != id ==> WithStatus(orders, id, status)[i] == orders[i]
  {
  }

  /** Setting the status again changes nothing, and a list without that id
      is left as it is. */
  lemma WithStatusIdempotent(orders: seq<FrontOrder>, id: int, status: int)
    ensures WithStatus(WithStatus(orders, id, status), id, status) == WithStatus(orders, id, status)
    ensures (forall i :: 0 <= i < |orders| ==> orders[i].id != id) ==> WithStatus(orders, id, status) == orders
  {
  }

  class AppState {
    var orders: seq<FrontOrder>
    var updatingOrders: set<int>

    constructor ()
      ensures orders == [] && updatingOrders == {}
    {
      orders := [];
      updatingOrders := {};
    }

    /** The first half of `handleStatusUpdate`, before the API call: the
        order is marked as updating and the label is turned into the status
        number to send. The list itself is not touched yet. */
    method BeginStatusUpdate(orderId: int, newStatus: string) returns (sent: int)
      modifies this
      ensures sent == LabelToNumber(newStatus)
      ensures updatingOrders == old(updatingOrders) + {orderId}
      ensures orders == old(orders)
    {
      updatingOrders := updatingOrders + {orderId};
      if newStatus == OrderList.PlannedLabel {
        sent := 1;
      } else if newStatus == OrderList.InProgressLabel {
        sent := 2;
      } else if newStatus == OrderList.FinishedLabel {
        sent := 3;
      } else {
        sent := 1;
      }
    }

    /** The second half, once the API call has returned (its outcome is
        `callSucceeds`): the list is patched on success, and the order is
        unmarked in any case (the `finally` block). */
    method FinishStatusUpdate(orderId: int, sent: int, callSucceeds: bool)
      modifies this
      ensures orders == if callSucceeds then WithStatus(old(orders), orderId, sent) else old(orders)
      ensures updatingOrders == old(updatingOrders) - {orderId}
    {
      if callSucceeds {
        orders := WithStatus(orders, orderId, sent);
      }
      updatingOrders := updatingOrders - {orderId};
    }

    /** `handleStatusUpdate` as a whole: mark, convert, call, patch on
        success, unmark. While the call runs, the state is the one
        `BeginStatusUpdate` leaves, in which `orderId` is marked. */
    method HandleStatusUpdate(orderId: int, newStatus: string, callSucceeds: bool) returns (sent: int)
      modifies this
      ensures sent == LabelToNumber(newStatus)
      ensures orders == if callSucceeds then WithStatus(old(orders), orderId, sent) else old(orders)
      ensures updatingOrders == old(updatingOrders) - {orderId}
    {
      sent := BeginStatusUpdate(orderId, newStatus);
      FinishStatusUpdate(orderId, sent, callSucceeds);
    }
  }
}
