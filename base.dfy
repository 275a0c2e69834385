/** Shared vocabulary of the model: optional values, results with the error
    kinds the back end raises, 32-bit integers as C# computes them, and
    DateTime values as ticks. */
module Base {

  datatype Option<+T> = None | Some(value: T)

  /** The exception types the back end throws, plus the database rejecting a
      save (DbUpdateException) when a check constraint, key or index fails. */
  datatype ErrorKind =
    | ArgumentError      // ArgumentException
    | InvalidOperation   // InvalidOperationException
    | KeyNotFound        // KeyNotFoundException
    | DbUpdate           // DbUpdateException

  datatype Result<+T> = Ok(value: T) | Err(error: ErrorKind)

  const MinInt32: int := -0x8000_0000
  const MaxInt32: int := 0x7FFF_FFFF

  /** A C# `int`. */
  type Int32 = x: int | MinInt32 <= x <= MaxInt32

  /** The value an unchecked C# `int` operation stores for the mathematical
      result `x`: `x` reduced modulo 2^32 into the signed range. */
  function Wrap32(x: int): (r: Int32)
    ensures MinInt32 <= x <= MaxInt32 ==> r == x
    ensures (r - x) % 0x1_0000_0000 == 0
  {
    (x - MinInt32) % 0x1_0000_0000 + MinInt32
  }

  lemma ModShift(k: int, y: int)
    ensures (k * 0x1_0000_0000 + y) % 0x1_0000_0000 == y % 0x1_0000_0000
  {
    var q := y / 0x1_0000_0000;
    var rest := y % 0x1_0000_0000;
    assert y == q * 0x1_0000_0000 + rest;
    assert k * 0x1_0000_0000 + y == (k + q) * 0x1_0000_0000 + rest;
  }

  /** Wrapping an intermediate sum changes nothing: a running total kept
      in an `int` is the wrapped mathematical total. */
  lemma Wrap32Add(a: int, b: int)
    ensures Wrap32(Wrap32(a) + b) == Wrap32(a + b)
  {
    var u := a - MinInt32;
    assert u == (u / 0x1_0000_0000) * 0x1_0000_0000 + u % 0x1_0000_0000;
    ModShift(u / 0x1_0000_0000, u % 0x1_0000_0000 + b);
    assert a + b - MinInt32 == (u / 0x1_0000_0000) * 0x1_0000_0000 + (u % 0x1_0000_0000 + b);
  }

  /** What an endpoint answers, by kind: a value, or BadRequest, NotFound,
      Conflict, or the generic 503 ServiceUnavailable. */
  datatype Reply<+T> = Done(value: T) | BadRequest | NotFound | Conflict | Unavailable

  /** A DateTime, as its count of ticks (100 ns each) since 0001-01-01. */
  type Ticks = nat

  const TicksPerDay: nat := 864_000_000_000

  /** `DateTime.Date`: the calendar day a timestamp falls on. */
  function Day(t: Ticks): (d: nat)
    ensures d * TicksPerDay <= t < (d + 1) * TicksPerDay
  {
    t / TicksPerDay
  }

  /** Timestamps compare in the same direction as their days, never the other. */
  lemma DayMonotone(a: Ticks, b: Ticks)
    ensures a <= b ==> Day(a) <= Day(b)
    ensures Day(a) < Day(b) ==> a < b
  {
  }
}
