/** The records the web client exchanges with the API, as its type
    declarations describe them: numbers are unbounded here, and dates stay
    the ISO text the API sends. */
module FrontTypes {
  import opened Base

  /** `ProductionOrder` as the client holds it. */
  datatype FrontOrder = FrontOrder(
    id: int,
    orderNumber: string,
    productCode: string,
    quantityPlanned: int,
    quantityProduced: int,
    status: int,
    startDate: string,
    endDate: Option<string>)

  /** `CreateProductionOrderDto`, the body of a create request. */
  datatype CreateData = CreateData(
    orderNumber: string,
    productCode: string,
    quantityPlanned: int,
    status: int,
    startDate: string)

  /** `UpdateProductionOrderDto`, the body of a PATCH; an absent field is
      `None`. */
  datatype UpdateData = UpdateData(
    orderNumber: Option<string>,
    productCode: Option<string>,
    quantityPlanned: Option<int>,
    status: Option<int>,
    startDate: Option<string>,
    endDate: Option<string>)
}
