/** `ProductionOrderForm`: the dialog that creates an order. The user types
    only the numeric suffix of the order number; the form shows the number
    without its "ORD-" prefix and adds the prefix when it submits. The
    status choices come from the API's status names, or a fixed fallback
    when that call fails. */
module OrderForm {
  import opened Base
  import opened FrontTypes
  import Text
  import OrderStatus
  import OrderList

  const Prefix: string := "ORD-"

  /** The order-number input's filter: every character that is not a digit
      is dropped. */
  function DigitsOnly(text: string): (r: string)
    ensures Text.AllDigits(r) && |r| <= |text|
    ensures forall c :: c in r <==> c in text && Text.IsDigit(c)
  {
    if text == [] then []
    else (if Text.IsDigit(text[0]) then [text[0]] else []) + DigitsOnly(text[1..])
  }

  /** One typed character survives exactly when it is a digit. */
  lemma DigitsOnlyChar(c: char)
    ensures DigitsOnly([c]) == if Text.IsDigit(c) then [c] else []
  {
    assert [c][1..] == [];
  }

  /** The filter works piece by piece, so the digits keep their order and
      their number of occurrences. */
  lemma {:induction false} DigitsOnlyAppend(a: string, b: string)
    ensures DigitsOnly(a + b) == DigitsOnly(a) + DigitsOnly(b)
  {
    if a == [] {
      assert a + b == b;
    } else {
      assert (a + b)[0] == a[0];
      assert (a + b)[1..] == a[1..] + b;
      DigitsOnlyAppend(a[1..], b);
    }
  }

  /** The filter keeps digit text as it is, so filtering twice is filtering
      once. */
  lemma {:induction false} DigitsOnlyOfDigits(text: string)
    requires Text.AllDigits(text)
    ensures DigitsOnly(text) == text
  {
    if text != [] {
      DigitsOnlyOfDigits(text[1..]);
    }
  }

  lemma DigitsOnlyIdempotent(text: string)
    ensures DigitsOnly(DigitsOnly(text)) == DigitsOnly(text)
  {
    DigitsOnlyOfDigits(DigitsOnly(text));
  }

  /** `getDisplayOrderNumber`: drop one leading "ORD-". */
  function DisplayOrderNumber(orderNumber: string): (r: string)
    ensures Text.StartsWith(orderNumber, Prefix) ==> Prefix + r == orderNumber
    ensures !Text.StartsWith(orderNumber, Prefix) ==> r == orderNumber
  {
    if Text.StartsWith(orderNumber, Prefix) then orderNumber[|Prefix|..] else orderNumber
  }

  /** The number a form submits for the suffix it holds. */
  function Submitted(suffix: string): (r: string)
    ensures Text.StartsWith(r, Prefix)
  {
    Prefix + suffix
  }

  /** Showing a submitted number gives back the suffix, and submitting the
      shown part of a prefixed number gives back that number. Only one
      prefix is dropped: "ORD-ORD-1" shows as "ORD-1". */
  lemma PrefixRoundTrip(suffix: string, orderNumber: string)
    ensures DisplayOrderNumber(Submitted(suffix)) == suffix
    ensures Text.StartsWith(orderNumber, Prefix) ==> Submitted(DisplayOrderNumber(orderNumber)) == orderNumber
    ensures !Text.StartsWith(orderNumber, Prefix) ==> Submitted(DisplayOrderNumber(orderNumber)) == Prefix + orderNumber
  {
    assert Submitted(suffix)[|Prefix|..] == suffix;
  }

  /** One entry of the status select. */
  datatype StatusOption = StatusOption(value: int, text: string)

  /** The `switch` on a status name of the API: the three names map to
      their numbers and labels; any other name gets value 1 and is shown as
      it is. */
  function OptionFor(name: string): (o: StatusOption)
    ensures 1 <= o.value <= 3
    ensures OrderStatus.IsValid(name) ==> o.text == OrderList.StatusLabel(o.value)
    ensures !OrderStatus.IsValid(name) ==> o == StatusOption(1, name)
  {
    if name == OrderStatus.Planned then StatusOption(1, OrderList.PlannedLabel)
    else if name == OrderStatus.InProgress then StatusOption(2, OrderList.InProgressLabel)
    else if name == OrderStatus.Finished then StatusOption(3, OrderList.FinishedLabel)
    else StatusOption(1, name)
  }

  /** The options for a list of names, in the same order. */
  function OptionsFor(names: seq<string>): (r: seq<StatusOption>)
    ensures |r| == |names| && forall i :: 0 <= i < |names| ==> r[i] == OptionFor(names[i])
  {
    seq(|names|, i requires 0 <= i < |names| => OptionFor(names[i]))
  }

  /** The options used when the names cannot be loaded. */
  const FallbackOptions: seq<StatusOption> :=
    [StatusOption(1, OrderList.PlannedLabel), StatusOption(2, OrderList.InProgressLabel), StatusOption(3, OrderList.FinishedLabel)]

  /** The names the API lists map to exactly the fallback options, so a
      failed load shows the same choices as a successful one; each option's
      value is the number that the enum gives its name. */
  lemma ServerNamesGiveFallback()
    ensures OptionsFor(OrderStatus.PossibleStatuses()) == FallbackOptions
    ensures forall i :: 0 <= i < 3 ==> OrderStatus.EnumName(FallbackOptions[i].value) == OrderStatus.All[i]
  {
    var names := OrderStatus.PossibleStatuses();
    assert OptionFor(names[0]) == FallbackOptions[0];
    assert OptionFor(names[1]) == FallbackOptions[1];
    assert OptionFor(names[2]) == FallbackOptions[2];
  }

  /** The quantity input: empty text is 0, and so is what `parseInt` cannot
      read (NaN) or reads as 0. */
  function ParseQuantity(value: string): (q: int)
    ensures value == "" ==> q == 0
    ensures Text.ParseInt(value).None? ==> q == 0
    ensures Text.ParseInt(value).Some? ==> q == Text.ParseInt(value).value
  {
    if value == "" then 0
    else match Text.ParseInt(value)
      case None => 0
      case Some(n) => n
  }

  /** The text of a number reads back as that number. */
  lemma ParseQuantityOfDecimal(n: int)
    ensures ParseQuantity(Text.Decimal(n)) == n
  {
    Text.ParseDecimal(n);
  }

  /** The form's fields; the order number holds only the suffix. */
  datatype FormData = FormData(orderNumber: string, productCode: string, quantityPlanned: int, status: int, startDate: string)

  /** The fields a fresh form starts with; `today` is the current date as
      the form writes it. */
  function InitialForm(today: string): FormData {
    FormData("", "", 0, 1, today)
  }

  /** The submit button is disabled while anything loads and while the
      order number is empty. */
  function SubmitDisabled(loading: bool, productsLoading: bool, statusLoading: bool, form: FormData): (b: bool)
    ensures !b <==> !loading && !productsLoading && !statusLoading && form.orderNumber != ""
  {
    loading || productsLoading || statusLoading || form.orderNumber == ""
  }

  /** The request body a submit sends: the fields, with the prefix added to
      the number. */
  function OrderData(form: FormData): (d: CreateData)
    ensures DisplayOrderNumber(d.orderNumber) == form.orderNumber
    ensures d.productCode == form.productCode && d.quantityPlanned == form.quantityPlanned
    ensures d.status == form.status && d.startDate == form.startDate
  {
    PrefixRoundTrip(form.orderNumber, "");
    CreateData(Submitted(form.orderNumber), form.productCode, form.quantityPlanned, form.status, form.startDate)
  }

  /** The dialog's state. */
  class CreateForm {
    var formData: FormData
    var statusOptions: seq<StatusOption>

    constructor (today: string)
      ensures formData == InitialForm(today) && statusOptions == []
    {
      formData := InitialForm(today);
      statusOptions := [];
    }

    /** The order-number input's `onChange`. */
    method TypeOrderNumber(typed: string)
      modifies this
      ensures formData == old(formData).(orderNumber := DigitsOnly(typed))
      ensures statusOptions == old(statusOptions)
    {
      var suffix := DigitsOnly(typed);
      formData := formData.(orderNumber := suffix);
    }

    /** The quantity input's `onChange`. */
    method TypeQuantity(value: string)
      modifies this
      ensures formData == old(formData).(quantityPlanned := ParseQuantity(value))
      ensures statusOptions == old(statusOptions)
    {
      var quantity := ParseQuantity(value);
      formData := formData.(quantityPlanned := quantity);
    }

    /** `fetchStatusOptions`, given what the API answered (`None` when the
        call fails): the mapped options, and the first option's value as
        the status when none is chosen (0); the fallback on failure. */
    method LoadStatusOptions(names: Option<seq<string>>)
      modifies this
      ensures names.None? ==> statusOptions == FallbackOptions && formData == old(formData)
      ensures names.Some? ==> statusOptions == OptionsFor(names.value)
      ensures names.Some? && |names.value| > 0 && old(formData).status == 0 ==>
        formData == old(formData).(status := OptionFor(names.value[0]).value)
      ensures !(names.Some? && |names.value| > 0 && old(formData).status == 0) ==> formData == old(formData)
    {
      if names.None? {
        statusOptions := FallbackOptions;
        return;
      }
      var options := OptionsFor(names.value);
      statusOptions := options;
      if |options| > 0 && formData.status == 0 {
        formData := formData.(status := options[0].value);
      }
    }

    /** `resetForm`. */
    method ResetForm(today: string)
      modifies this
      ensures formData == InitialForm(today) && statusOptions == old(statusOptions)
    {
      formData := FormData("", "", 0, 1, today);
    }

    /** `handleSubmit`: the body that is sent. */
    method Submit() returns (data: CreateData)
      ensures data == OrderData(formData)
    {
      data := CreateData("ORD-" + formData.orderNumber, formData.productCode, formData.quantityPlanned, formData.status, formData.startDate);
    }
  }
}
