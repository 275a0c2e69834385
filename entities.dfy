/** The persisted records of the back end: `ProductionOrder`, `ProductionLog`
    and `Resource` (a `Product` is identified by its code alone). */
module Entities {
  import opened Base

  /** A production order. `status` holds the `ProductionOrderStatusEnum`
      value; `endDate` is nullable. */
  datatype Order = Order(
    id: int,
    orderNumber: string,
    productCode: string,
    quantityPlanned: Int32,
    quantityProduced: Int32,
    status: Int32,
    startDate: Ticks,
    endDate: Option<Ticks>)

  /** One production event against an order, optionally on a resource. */
  datatype Log = Log(
    id: int,
    productionOrderId: int,
    resourceId: Option<int>,
    quantity: Int32,
    timestamp: Ticks)

  /** A resource; `status` is the name the database stores for its
      `ResourceStatusEnum` value. */
  datatype Resource = Resource(code: string, description: string, status: string)
}
