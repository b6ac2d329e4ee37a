/**
 * Temperatures in Fahrenheit or Celsius and the conversion between them
 * (src/lib.rs). Degrees are real numbers, so the two affine formulas are exact
 * inverses of each other.
 */
module Temperatures {
  import opened Wrappers
  import StdText

  /** A degree value tagged with its scale: `F` for Fahrenheit, `C` for Celsius. */
  datatype Temperature = F(degrees: real) | C(degrees: real)

  /** Fahrenheit to Celsius. */
  function FToC(f: real): real {
    (f - 32.0) * (5.0 / 9.0)
  }

  /** Celsius to Fahrenheit. */
  function CToF(c: real): real {
    c * (9.0 / 5.0) + 32.0
  }

  /** The value of `t` on the other scale. */
  function Convert(t: Temperature): real {
    match t
    case F(degrees) => FToC(degrees)
    case C(degrees) => CToF(degrees)
  }

  /**
   * What `print_temperature` shows: the given temperature and, on the other
   * scale, the temperature it converts to.
   */
  function Opposite(t: Temperature): (r: Temperature)
    ensures r.C? <==> t.F?
    ensures r.degrees == Convert(t)
  {
    match t
    case F(degrees) => C(FToC(degrees))
    case C(degrees) => F(CToF(degrees))
  }

  /** Fahrenheit to Celsius is `(f - 32) * 5/9`, written without the division. */
  lemma ConvertFahrenheit(f: real)
    ensures 9.0 * Convert(F(f)) == 5.0 * (f - 32.0)
  {
  }

  /** Celsius to Fahrenheit is `c * 9/5 + 32`, written without the division. */
  lemma ConvertCelsius(c: real)
    ensures 5.0 * (Convert(C(c)) - 32.0) == 9.0 * c
  {
  }

  /** Over the reals the two formulas undo each other. */
  lemma RoundTrip(x: real)
    ensures FToC(CToF(x)) == x
    ensures CToF(FToC(x)) == x
  {
  }

  /** Showing the other side of the other side gives back the temperature itself. */
  lemma OppositeInvolution(t: Temperature)
    ensures Opposite(Opposite(t)) == t
  {
    RoundTrip(t.degrees);
  }

  /** The fixed points the unit tests assert, including body temperature 98.6 ºF. */
  lemma TestedValues()
    ensures Convert(C(0.0)) == 32.0
    ensures Convert(C(100.0)) == 212.0
    ensures Convert(F(32.0)) == 0.0
    ensures Convert(F(212.0)) == 100.0
    ensures Convert(F(98.6)) == 37.0
  {
  }

  /** -40 is the one temperature that reads the same on both scales. */
  lemma CrossoverPoint(x: real)
    ensures Convert(C(x)) == x <==> x == -40.0
    ensures Convert(F(x)) == x <==> x == -40.0
  {
  }

  /** Both conversions preserve order strictly: warmer stays warmer. */
  lemma ConvertStrictlyIncreasing(a: real, b: real)
    ensures a < b <==> Convert(F(a)) < Convert(F(b))
    ensures a < b <==> Convert(C(a)) < Convert(C(b))
  {
  }

  /** The message `get_temperature` returns when the line is not a number. */
  const InvalidInput := "\nInvalid input!\n"

  /**
   * The decision `get_temperature` takes on the line it read: trim it and
   * parse it as a number with `parseReal`, Rust's `str::parse::<f64>`.
   */
  function GetTemperature(line: string, parseReal: string -> Option<real>): (r: Result<real, string>)
    ensures r.Err? <==> parseReal(StdText.Trim(line)).None?
    ensures r.Err? ==> r.error == InvalidInput
    ensures r.Ok? ==> parseReal(StdText.Trim(line)) == Some(r.value)
  {
    match parseReal(StdText.Trim(line))
    case Some(t) => Ok(t)
    case None => Err(InvalidInput)
  }

  /** White space typed around the number changes nothing. */
  lemma GetTemperatureIgnoresPadding(w1: string, line: string, w2: string, parseReal: string -> Option<real>)
    requires StdText.AllWhitespace(w1) && StdText.AllWhitespace(w2)
    ensures GetTemperature(w1 + line + w2, parseReal) == GetTemperature(line, parseReal)
  {
    StdText.TrimIgnoresPadding(w1, line, w2);
  }
}
