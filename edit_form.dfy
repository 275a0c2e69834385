/** `ProductionOrderEditForm`: the dialog that edits an order. Loading an
    order fills the form with the number's suffix and the other fields;
    submitting sends a patch that always carries the number (prefixed
    again), the product, the planned quantity and the status, and never an
    end date. */
module EditForm {
  import opened Base
  import opened FrontTypes
  import Text
  import OrderForm

  /** `startDate.split("T")[0]`: the text before the first "T". */
  function DatePart(s: string): (r: string)
    ensures Text.StartsWith(s, r)
    ensures 'T' !in r
    ensures |r| < |s| ==> s[|r|] == 'T'
  {
    if s == [] || s[0] == 'T' then [] else [s[0]] + DatePart(s[1..])
  }

  /** The fields `fetchOrderData` sets from a loaded order. */
  function LoadedForm(order: FrontOrder): (f: OrderForm.FormData)
    ensures f.orderNumber == OrderForm.DisplayOrderNumber(order.orderNumber)
    ensures f.productCode == order.productCode && f.quantityPlanned == order.quantityPlanned
    ensures f.status == order.status && f.startDate == DatePart(order.startDate)
  {
    OrderForm.FormData(OrderForm.DisplayOrderNumber(order.orderNumber), order.productCode, order.quantityPlanned, order.status, DatePart(order.startDate))
  }

  /** The patch `handleSubmit` sends; `isoStart` is the form's start date as
      `toISOString` writes it, sent only when the field is not empty. */
  function UpdateDataOf(form: OrderForm.FormData, isoStart: string): (d: UpdateData)
    ensures d.orderNumber == Some(OrderForm.Submitted(form.orderNumber))
    ensures d.productCode == Some(form.productCode) && d.quantityPlanned == Some(form.quantityPlanned)
    ensures d.status == Some(form.status)
    ensures d.startDate == if form.startDate == "" then None else Some(isoStart)
    ensures d.endDate.None?
  {
    UpdateData(Some(OrderForm.Submitted(form.orderNumber)), Some(form.productCode), Some(form.quantityPlanned),
               Some(form.status), if form.startDate == "" then None else Some(isoStart), None)
  }

  /** Loading an order and submitting it unchanged sends its own fields: a
      prefixed number comes back as it was, an unprefixed one gains the
      prefix, and the end date is never sent. */
  lemma LoadSubmitRoundTrip(order: FrontOrder, isoStart: string)
    ensures var d := UpdateDataOf(LoadedForm(order), isoStart);
      && (Text.StartsWith(order.orderNumber, OrderForm.Prefix) ==> d.orderNumber == Some(order.orderNumber))
      && (!Text.StartsWith(order.orderNumber, OrderForm.Prefix) ==> d.orderNumber == Some(OrderForm.Prefix + order.orderNumber))
      && d.productCode == Some(order.productCode)
      && d.quantityPlanned == Some(order.quantityPlanned)
      && d.status == Some(order.status)
      && d.endDate.None?
  {
    OrderForm.PrefixRoundTrip("", order.orderNumber);
  }

  /** The submit button, which also waits for the order itself to load. */
  function SubmitDisabled(loading: bool, fetching: bool, productsLoading: bool, statusLoading: bool, form: OrderForm.FormData): (b: bool)
    ensures !b <==> !loading && !fetching && !productsLoading && !statusLoading && form.orderNumber != ""
  {
    OrderForm.SubmitDisabled(loading || fetching, productsLoading, statusLoading, form)
  }

  /** The dialog's state. */
  class EditFormState {
    var formData: OrderForm.FormData
    var originalOrder: Option<FrontOrder>
    var products: seq<string>
    var statusOptions: seq<OrderForm.StatusOption>

    constructor (today: string)
      ensures formData == OrderForm.InitialForm(today) && originalOrder.None?
      ensures products == [] && statusOptions == []
    {
      formData := OrderForm.InitialForm(today);
      originalOrder := None;
      products := [];
      statusOptions := [];
    }

    /** `fetchOrderData` once the order has arrived. */
    method LoadOrder(order: FrontOrder)
      modifies this
      ensures originalOrder == Some(order) && formData == LoadedForm(order)
      ensures products == old(products) && statusOptions == old(statusOptions)
    {
      originalOrder := Some(order);
      var suffix := OrderForm.DisplayOrderNumber(order.orderNumber);
      formData := OrderForm.FormData(suffix, order.productCode, order.quantityPlanned, order.status, DatePart(order.startDate));
    }

    /** `fetchStatusOptions`, given what the API answered (`None` when the
        call fails); unlike the create form it never touches the status. */
    method LoadStatusOptions(names: Option<seq<string>>)
      modifies this
      ensures statusOptions == if names.None? then OrderForm.FallbackOptions else OrderForm.OptionsFor(names.value)
      ensures formData == old(formData) && originalOrder == old(originalOrder) && products == old(products)
    {
      if names.None? {
        statusOptions := OrderForm.FallbackOptions;
      } else {
        statusOptions := OrderForm.OptionsFor(names.value);
      }
    }

    /** The order-number input's `onChange`. */
    method TypeOrderNumber(typed: string)
      modifies this
      ensures formData == old(formData).(orderNumber := OrderForm.DigitsOnly(typed))
      ensures originalOrder == old(originalOrder) && products == old(products) && statusOptions == old(statusOptions)
    {
      formData := formData.(orderNumber := OrderForm.DigitsOnly(typed));
    }

    /** The quantity input's `onChange`. */
    method TypeQuantity(value: string)
      modifies this
      ensures formData == old(formData).(quantityPlanned := OrderForm.ParseQuantity(value))
      ensures originalOrder == old(originalOrder) && products == old(products) && statusOptions == old(statusOptions)
    {
      formData := formData.(quantityPlanned := OrderForm.ParseQuantity(value));
    }

    /** `resetForm`: the initial fields, and no order, products or options. */
    method ResetForm(today: string)
      modifies this
      ensures formData == OrderForm.InitialForm(today) && originalOrder.None?
      ensures products == [] && statusOptions == []
    {
      formData := OrderForm.FormData("", "", 0, 1, today);
      originalOrder := None;
      products := [];
      statusOptions := [];
    }

    /** `handleSubmit`: nothing without an order id (absent or 0),
        otherwise the patch that is sent. */
    method Submit(orderId: Option<int>, isoStart: string) returns (data: Option<UpdateData>)
      ensures orderId.None? || orderId.value == 0 ==> data.None?
      ensures orderId.Some? && orderId.value != 0 ==> data == Some(UpdateDataOf(formData, isoStart))
    {
      if orderId.None? || orderId.value == 0 {
        return None;
      }
      var start := if formData.startDate == "" then None else Some(isoStart);
      data := Some(UpdateData(Some("ORD-" + formData.orderNumber), Some(formData.productCode), Some(formData.quantityPlanned),
                              Some(formData.status), start, None));
    }
  }
}
