/** The order status: the string constants of the `ProductionOrderStatus`
    class, and the `ProductionOrderStatusEnum` values the entities carry
    (1 Planejada, 2 EmProducao, 3 Finalizada; 0 is the unset default). The
    database stores the enum's name, as `HasConversion<string>()` writes it. */
module OrderStatus {
  import opened Base
  import Text

  const Planned: string := "Planejada"
  const InProgress: string := "EmProducao"
  const Finished: string := "Finalizada"

  /** `ProductionOrderStatus.All`. */
  const All: seq<string> := [Planned, InProgress, Finished]

  /** `ProductionOrderStatus.IsValid`: membership in `All`, case-sensitive. */
  function IsValid(status: string): (b: bool)
    ensures b <==> status == Planned || status == InProgress || status == Finished
  {
    status in All
  }

  const Unset: int := 0
  const Planejada: int := 1
  const EmProducao: int := 2
  const Finalizada: int := 3

  /** The enum's `ToString()`: the member name, or the number for a value
      that names no member. */
  function EnumName(status: int): (name: string)
    ensures Planejada <= status <= Finalizada ==> name == All[status - 1]
  {
    if status == Planejada then Planned
    else if status == EmProducao then InProgress
    else if status == Finalizada then Finished
    else Text.Decimal(status)
  }

  /** `Enum.TryParse` of a member name (exact match). */
  function TryParse(name: string): (r: Option<int>)
    ensures r.Some? ==> Planejada <= r.value <= Finalizada
  {
    if name == Planned then Some(Planejada)
    else if name == InProgress then Some(EmProducao)
    else if name == Finished then Some(Finalizada)
    else None
  }

  /** `Enum.GetNames`: the member names in value order. */
  function PossibleStatuses(): (names: seq<string>)
    ensures names == All
  {
    seq(3, i requires 0 <= i < 3 => EnumName(i + 1))
  }

  /** The check constraint CHK_ProductionOrder_Status on a stored name. */
  predicate StatusConstraint(stored: string) {
    stored in {"Planejada", "EmProducao", "Finalizada"}
  }

  lemma AllDistinct()
    ensures |All| == 3
    ensures forall i, j :: 0 <= i < j < |All| ==> All[i] != All[j]
  {
  }

  /** Every name `IsValid` accepts satisfies the database's check constraint,
      and conversely. */
  lemma ValidIffConstraint(name: string)
    ensures IsValid(name) <==> StatusConstraint(name)
  {
  }

  /** A number's text holds only digits and '-', so it is never a member name. */
  lemma DecimalIsNoName(n: int)
    ensures !IsValid(Text.Decimal(n))
  {
    var t := Text.Decimal(n);
    assert !(Text.IsDigit(Planned[0]) || Planned[0] == '-');
    assert !(Text.IsDigit(InProgress[0]) || InProgress[0] == '-');
    assert !(Text.IsDigit(Finished[0]) || Finished[0] == '-');
    assert t[0] == '-' || Text.IsDigit(t[0]);
  }

  /** The stored status passes the check constraint exactly for the three
      enum members: 0 (unset) and out-of-range values are refused on save. */
  lemma StoredStatusAccepted(status: int)
    ensures StatusConstraint(EnumName(status)) <==> Planejada <= status <= Finalizada
  {
    if !(Planejada <= status <= Finalizada) {
      DecimalIsNoName(status);
    }
  }

  /** Parsing a name and printing the value are inverse. */
  lemma ParseNameRoundTrip(name: string, status: int)
    ensures TryParse(name).Some? <==> IsValid(name)
    ensures TryParse(name).Some? ==> EnumName(TryParse(name).value) == name
    ensures Planejada <= status <= Finalizada ==> TryParse(EnumName(status)) == Some(status)
  {
  }
}
