/** What the frontend helpers share: the class of an HTTP status code as
    the pages test it, and a latency written in a chosen unit. */
module Display {
  import opened Wrappers

  /** The classes `status >= 200 && status < 300`, ... carve out. */
  datatype Band = Success | Redirection | ClientError | ServerError | Other

  /** The class of a status code: [200, 300), [300, 400), [400, 500),
      500 and up, and everything below 200. */
  function BandOf(code: int): (b: Band)
    ensures b == Success <==> 200 <= code < 300
    ensures b == Redirection <==> 300 <= code < 400
    ensures b == ClientError <==> 400 <= code < 500
    ensures b == ServerError <==> 500 <= code
    ensures b == Other <==> code < 200
  {
    if code >= 200 && code < 300 then Success
    else if code >= 300 && code < 400 then Redirection
    else if code >= 400 && code < 500 then ClientError
    else if code >= 500 then ServerError
    else Other
  }

  datatype LatencyUnit = Micro | Milli | Second

  /** Milliseconds per unit. */
  function Factor(u: LatencyUnit): real
  {
    match u
    case Micro => 0.001
    case Milli => 1.0
    case Second => 1000.0
  }

  /** A latency as a page shows it: "-" when there is none, otherwise an
      amount in a unit, rounded to `decimals` places by `toFixed` (the
      rounding is not modelled). */
  datatype LatencyText = Dash | Reading(amount: real, unit: LatencyUnit, decimals: nat)

  /** The reading stands for `ms` milliseconds. */
  predicate ReadsAs(t: LatencyText, ms: real)
  {
    t.Reading? && t.amount * Factor(t.unit) == ms
  }

  /** The `formatLatency` rule both dashboards use: nothing gives "-";
      below one millisecond the reading is in microseconds with no
      decimals, below a second in milliseconds with `milliDecimals`
      decimals, and otherwise in seconds with two. */
  function LatencyReading(ms: Option<real>, milliDecimals: nat): (t: LatencyText)
    ensures t.Dash? <==> ms.None?
    ensures ms.Some? ==> ReadsAs(t, ms.value)
    ensures ms.Some? ==> (t.unit == Micro <==> ms.value < 1.0)
    ensures ms.Some? ==> (t.unit == Second <==> ms.value >= 1000.0)
    ensures t.Reading? ==> t.decimals == (if t.unit == Milli then milliDecimals else if t.unit == Micro then 0 else 2)
  {
    match ms
    case None => Dash
    case Some(v) =>
      if v < 1.0 then Reading(v * 1000.0, Micro, 0)
      else if v < 1000.0 then Reading(v, Milli, milliDecimals)
      else Reading(v / 1000.0, Second, 2)
  }

  /** A non-negative latency is shown with an amount below 1000 in
      microseconds or milliseconds, and of at least 1 in milliseconds or
      seconds: the unit is the largest one the amount reaches. */
  lemma LatencyAmountInRange(ms: real, milliDecimals: nat)
    requires ms >= 0.0
    ensures var t := LatencyReading(Some(ms), milliDecimals);
      && 0.0 <= t.amount
      && (t.unit != Second ==> t.amount < 1000.0)
      && (t.unit != Micro ==> t.amount >= 1.0)
  {
  }

  /** A longer latency never gets a smaller unit. */
  lemma LatencyUnitMonotone(a: real, b: real, milliDecimals: nat)
    requires a <= b
    ensures UnitRank(LatencyReading(Some(a), milliDecimals).unit) <= UnitRank(LatencyReading(Some(b), milliDecimals).unit)
  {
  }

  function UnitRank(u: LatencyUnit): nat
  {
    match u
    case Micro => 0
    case Milli => 1
    case Second => 2
  }
}
