/** The numbers the scripts compute with. Prices and changes are exact reals; a statistic
    that reaches the user (a beta, the average beta) is a double, which may also be NaN or
    an infinity, so it is modelled by `Float`. */
module Numbers {
  import opened Wrappers

  /** A double as the scripts see it: a finite value, an infinity, or NaN. */
  datatype Float = Finite(value: real) | Inf(negative: bool) | NaN

  /** A pandas cell: NaN when the value is missing. */
  function FromOption(o: Option<real>): (f: Float)
    ensures f.Finite? <==> o.Some?
    ensures f.Finite? ==> f.value == o.value
    ensures o.None? ==> f == NaN
  {
    match o
    case Some(v) => Finite(v)
    case None => NaN
  }

  /** IEEE division `a / b` (numpy float64 semantics, signed zeros not modelled):
      a non-zero number over zero is an infinity, zero over zero is NaN. */
  function Div(a: Float, b: Float): (q: Float)
    ensures a.Finite? && b.Finite? && b.value != 0.0 ==> q == Finite(a.value / b.value)
    ensures a.Finite? && b == Finite(0.0) ==> !q.Finite?
    ensures a.NaN? || b.NaN? ==> q.NaN?
  {
    match (a, b)
    case (NaN, _) => NaN
    case (_, NaN) => NaN
    case (Inf(_), Inf(_)) => NaN
    case (Finite(_), Inf(_)) => Finite(0.0)
    case (Inf(n), Finite(y)) => if y < 0.0 then Inf(!n) else Inf(n)
    case (Finite(x), Finite(y)) =>
      if y != 0.0 then Finite(x / y)
      else if x == 0.0 then NaN
      else Inf(x < 0.0)
  }

  /** IEEE addition: NaN absorbs, infinities of opposite sign give NaN. */
  function Add(a: Float, b: Float): (s: Float)
    ensures a.Finite? && b.Finite? ==> s == Finite(a.value + b.value)
    ensures a.NaN? || b.NaN? ==> s.NaN?
  {
    match (a, b)
    case (NaN, _) => NaN
    case (_, NaN) => NaN
    case (Inf(m), Inf(n)) => if m == n then Inf(m) else NaN
    case (Inf(m), Finite(_)) => Inf(m)
    case (Finite(_), Inf(n)) => Inf(n)
    case (Finite(x), Finite(y)) => Finite(x + y)
  }

  /** The whole number of hundredths nearest to `x * 100`, ties to the even one. */
  function HundredthsHalfEven(x: real): (n: int)
    ensures -0.5 <= n as real - x * 100.0 <= 0.5
    ensures n as real - x * 100.0 == 0.5 || n as real - x * 100.0 == -0.5 ==> n % 2 == 0
  {
    var y := x * 100.0;
    var f := y.Floor;
    var frac := y - f as real;
    if frac < 0.5 then f
    else if frac > 0.5 then f + 1
    else if f % 2 == 0 then f
    else f + 1
  }

  /** `round(x, 2)` of Python and `Series.round(2)` of pandas on an exact value:
      the nearest multiple of 0.01, a tie going to the even multiple. */
  function Round2(x: real): (r: real)
    ensures -0.005 <= r - x <= 0.005
    ensures (r * 100.0).Floor as real == r * 100.0
  {
    HundredthsHalfEven(x) as real / 100.0
  }

  /** A value that is already a whole number of hundredths is left alone by the rounding. */
  lemma Round2Exact(k: int)
    ensures Round2(k as real / 100.0) == k as real / 100.0
  {
    var x := k as real / 100.0;
    assert x * 100.0 == k as real;
    assert (x * 100.0).Floor == k;
  }

  /** Rounding twice is rounding once. */
  lemma Round2Idempotent(x: real)
    ensures Round2(Round2(x)) == Round2(x)
  {
    Round2Exact(HundredthsHalfEven(x));
  }

  /** Rounding a double: NaN and infinities are unchanged. */
  function RoundFloat(f: Float): (r: Float)
    ensures r.Finite? <==> f.Finite?
    ensures f.Finite? ==> r.value == Round2(f.value)
    ensures !f.Finite? ==> r == f
  {
    match f
    case Finite(v) => Finite(Round2(v))
    case _ => f
  }

  /** pandas `Series.round(2)` on one cell: a missing value stays missing. */
  function RoundOption(o: Option<real>): (r: Option<real>)
    ensures r.Some? <==> o.Some?
    ensures o.Some? ==> r.value == Round2(o.value)
  {
    match o
    case Some(v) => Some(Round2(v))
    case None => None
  }
}
