/** `UpdateProductionOrderDto`: a partial update of an order. Every field is
    optional; an absent string is `None` (null), distinct from `Some("")`. */
module UpdateDto {
  import opened Base

  datatype Patch = Patch(
    orderNumber: Option<string>,
    productCode: Option<string>,
    quantityPlanned: Option<Int32>,
    status: Option<Int32>,
    startDate: Option<Ticks>,
    endDate: Option<Ticks>)

  /** The patch that supplies nothing. */
  const Empty: Patch := Patch(None, None, None, None, None, None)

  /** `HasDateConflict`: both dates supplied and the start falls on a later
      calendar day than the end. */
  function HasDateConflict(p: Patch): (b: bool)
    ensures p.startDate.None? || p.endDate.None? ==> !b
    ensures p.startDate.Some? && p.endDate.Some? ==> (b <==> Day(p.startDate.value) > Day(p.endDate.value))
  {
    if p.startDate.Some? && p.endDate.Some? then Day(p.startDate.value) > Day(p.endDate.value) else false
  }

  /** Two timestamps on the same day never conflict, whatever their order
      within the day. */
  lemma SameDayNoConflict(p: Patch)
    requires p.startDate.Some? && p.endDate.Some?
    requires Day(p.startDate.value) == Day(p.endDate.value)
    ensures !HasDateConflict(p)
  {
  }

  /** A conflict needs the start to lie strictly after the end, by at least
      a day boundary. */
  lemma ConflictOrdersTimestamps(p: Patch)
    requires HasDateConflict(p)
    ensures p.startDate.Some? && p.endDate.Some? && p.startDate.value > p.endDate.value
  {
    DayMonotone(p.startDate.value, p.endDate.value);
  }

  /** The all-absent patch is well formed: it has no date conflict. */
  lemma EmptyHasNoConflict()
    ensures !HasDateConflict(Empty)
  {
  }
}
