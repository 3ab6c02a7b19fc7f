/** The water-vapour conversions of vapor.py for scalar arguments: partial pressure from
    density, relative from absolute humidity and back, and the saturated vapour pressure
    chosen by a case-insensitive method name, with the pressure enhancement factor of
    WMO-No. 8 (2008), Annex 4.B.

    Arithmetic is exact. The exponential is a parameter (`exp`). Python-float divisions
    by zero raise ZeroDivisionError; the exponential returns a numpy float64, so every
    later division by a quantity built from it follows numpy and yields inf or nan
    instead of raising (`NonFinite`). */
module Vapor {
  import opened Results

  // ---------------------------------------------------------------------------
  // Divisions

  /** `x / y` on Python floats. */
  function Div(x: real, y: real): (r: Result<real>)
    ensures r.Ok? <==> y != 0.0
    ensures r.Err? ==> r.error == ZeroDivision
    ensures r.Ok? ==> r.value * y == x
  {
    if y == 0.0 then Err(ZeroDivision) else Ok(x / y)
  }

  /** `x / y` with a numpy float64 operand. */
  function NpDiv(x: real, y: real): (r: Result<real>)
    ensures r.Ok? <==> y != 0.0
    ensures r.Err? ==> r.error == NonFinite
    ensures r.Ok? ==> r.value * y == x
  {
    if y == 0.0 then Err(NonFinite) else Ok(x / y)
  }

  // ---------------------------------------------------------------------------
  // Method names

  const ARM: string := "august-roche-magnus"
  const TETENS: string := "tetens"
  const AUGUST: string := "august"
  const BUCK: string := "buck"
  const WMO2008: string := "wmo2008"

  /** `str.lower()` on one character, as far as comparisons with ASCII names can tell:
      A-Z become a-z and the KELVIN SIGN (U+212A) becomes k, the only non-ASCII
      character whose lower case is ASCII; every other character is left as it is. */
  function LowerChar(c: char): (r: char)
    ensures 'A' <= c <= 'Z' ==> r as int == c as int + 32
    ensures !('A' <= c <= 'Z') && c != '\U{212A}' ==> r == c
  {
    if 'A' <= c <= 'Z' then (c as int + 32) as char
    else if c == '\U{212A}' then 'k'
    else c
  }

  function Lower(s: string): (r: string)
    ensures |r| == |s|
  {
    seq(|s|, i requires 0 <= i < |s| => LowerChar(s[i]))
  }

  /** Lower-casing twice is lower-casing once. */
  lemma LowerIdempotent(s: string)
    ensures Lower(Lower(s)) == Lower(s)
  {
    var l := Lower(s);
    forall i | 0 <= i < |s| ensures Lower(l)[i] == l[i] {
      assert l[i] == LowerChar(s[i]);
    }
  }

  /** A name with no upper-case letter and no Kelvin sign is its own lower case. */
  lemma LowerFixed(s: string)
    requires forall i :: 0 <= i < |s| ==> !('A' <= s[i] <= 'Z') && s[i] != '\U{212A}'
    ensures Lower(s) == s
  {
  }

  // ---------------------------------------------------------------------------
  // The conversions

  /** `pressure(T, rho)` (vapor.py:10-18): partial pressure in hPa of vapour of density
      rho g/m³ at T °C. */
  function Pressure(T: real, rho: real): (r: real)
    ensures rho == 0.0 ==> r == 0.0
    ensures T > -273.15 && rho > 0.0 ==> r > 0.0
    ensures T > -273.15 && rho < 0.0 ==> r < 0.0
  {
    rho * (T + 273.15) / 216.7
  }

  /** exp is positive everywhere, as the exponential is. */
  ghost predicate PositiveValued(exp: real -> real)
  {
    forall x :: exp(x) > 0.0
  }

  /** August-Roche-Magnus over a flat surface of water (vapor.py:69): 6.1094 hPa at 0 °C. */
  function AugustRocheMagnus(T: real, exp: real -> real): (r: Result<real>)
    ensures r.Ok? <==> T != -243.04
    ensures r.Err? ==> r.error == ZeroDivision
    ensures PositiveValued(exp) && r.Ok? ==> r.value > 0.0
    ensures T == 0.0 && exp(0.0) == 1.0 ==> r == Ok(6.1094)
  {
    var q :- Div(17.625 * T, 243.04 + T);
    Ok(0.61094 * exp(q) * 10.0)
  }

  /** Tetens (vapor.py:71): 6.1078 hPa at 0 °C. */
  function Tetens(T: real, exp: real -> real): (r: Result<real>)
    ensures r.Ok? <==> T != -237.3
    ensures r.Err? ==> r.error == ZeroDivision
    ensures PositiveValued(exp) && r.Ok? ==> r.value > 0.0
    ensures T == 0.0 && exp(0.0) == 1.0 ==> r == Ok(6.1078)
  {
    var q :- Div(17.27 * T, T + 237.3);
    Ok(0.61078 * exp(q) * 10.0)
  }

  /** August (vapor.py:73). */
  function August(T: real, exp: real -> real): (r: Result<real>)
    ensures r.Ok? <==> T != -273.15
    ensures r.Err? ==> r.error == ZeroDivision
    ensures PositiveValued(exp) && r.Ok? ==> r.value > 0.0
  {
    var q :- Div(5132.0, T + 273.15);
    Ok(exp(20.386 - q) * 1.333)
  }

  /** Buck, over water above 0 °C and over ice otherwise (vapor.py:75-78): 6.1115 hPa at 0 °C,
      from the ice coefficients. */
  function Buck(T: real, exp: real -> real): (r: Result<real>)
    ensures r.Ok? <==> T != -279.82
    ensures r.Err? ==> r.error == ZeroDivision
    ensures PositiveValued(exp) && r.Ok? ==> r.value > 0.0
    ensures T == 0.0 && exp(0.0) == 1.0 ==> r == Ok(6.1115)
  {
    if T > 0.0 then
      Ok(6.1121 * exp((18.678 - T / 234.5) * (T / (257.14 + T))))
    else
      var q :- Div(T, 279.82 + T);
      assert T == 0.0 ==> (23.036 - T / 333.7) * q == 0.0;
      Ok(6.1115 * exp((23.036 - T / 333.7) * q))
  }

  /** WMO-No. 8 (2008), the default (vapor.py:80): 6.112 hPa at 0 °C. */
  function Wmo2008(T: real, exp: real -> real): (r: Result<real>)
    ensures r.Ok? <==> T != -243.12
    ensures r.Err? ==> r.error == ZeroDivision
    ensures PositiveValued(exp) && r.Ok? ==> r.value > 0.0
    ensures T == 0.0 && exp(0.0) == 1.0 ==> r == Ok(6.112)
  {
    var q :- Div(17.62 * T, 243.12 + T);
    Ok(6.112 * exp(q))
  }

  /** The pressure over a flat surface by the approximation named `m` (already lower-cased). */
  function FlatPressure(T: real, m: string, exp: real -> real): (r: Result<real>)
    ensures r.Ok? <==> !Pole(m, T)
    ensures r.Err? ==> r.error == ZeroDivision
  {
    if m == ARM then AugustRocheMagnus(T, exp)
    else if m == TETENS then Tetens(T, exp)
    else if m == AUGUST then August(T, exp)
    else if m == BUCK then Buck(T, exp)
    else Wmo2008(T, exp)
  }

  /** The correction for moist air at barometric pressure P, when one is given (vapor.py:81-83). */
  function Enhanced(P: Option<real>, e: real): (r: Result<real>)
    ensures P.None? ==> r == Ok(e)
    ensures r.Ok? <==> P != Some(0.0)
    ensures r.Err? ==> r.error == ZeroDivision
  {
    match P
    case None => Ok(e)
    case Some(p) =>
      var q :- Div(0.074, p);
      Ok((1.0016 + 3.15 * 0.000001 * p - q) * e)
  }

  /** `saturated.pressure(T, P, method)` (vapor.py:56-83). It raises exactly at the pole
      of the chosen formula or when the barometric pressure given is 0, and only with
      ZeroDivisionError. */
  function SaturatedPressure(T: real, P: Option<real>, name: string, exp: real -> real): (r: Result<real>)
    ensures r.Ok? <==> !Pole(Lower(name), T) && P != Some(0.0)
    ensures r.Err? ==> r.error == ZeroDivision
  {
    var e :- FlatPressure(T, Lower(name), exp);
    Enhanced(P, e)
  }

  /** rel percent of the pressure e. */
  function Share(rel: real, e: real): real
  {
    rel / 100.0 * e
  }

  /** Relative humidity in percent of vapour of density rho, once the saturated pressure
      e is known. */
  function RelativeOf(T: real, rho: real, e: real): (r: Result<real>)
    ensures r.Ok? <==> e != 0.0
    ensures r.Err? ==> r.error == NonFinite
    ensures r.Ok? ==> Share(r.value, e) == Pressure(T, rho)
  {
    var q :- NpDiv(Pressure(T, rho), e);
    Ok(q * 100.0)
  }

  /** Density of vapour at relative humidity `rel`, once the saturated pressure e is known. */
  function DensityOf(T: real, rel: real, e: real): (r: Result<real>)
    ensures r.Ok? <==> T != -273.15
    ensures r.Err? ==> r.error == NonFinite
    ensures r.Ok? ==> Pressure(T, r.value) == Share(rel, e)
  {
    NpDiv(rel / 100.0 * 216.7 * e, T + 273.15)
  }

  /** `relative_humidity(T, P, rho, method)` (vapor.py:21-33), in percent: defined exactly
      when the saturated pressure e is, and is not 0, and then the share of e that the
      partial pressure of rho makes up. */
  function RelativeHumidity(T: real, P: Option<real>, rho: real, name: string, exp: real -> real): (r: Result<real>)
    ensures var e := SaturatedPressure(T, P, name, exp);
      r.Ok? <==> e.Ok? && e.value != 0.0
    ensures var e := SaturatedPressure(T, P, name, exp);
      r.Ok? ==> Share(r.value, e.value) == Pressure(T, rho)
    ensures var e := SaturatedPressure(T, P, name, exp);
      r.Err? ==> r.error == (if e.Err? then ZeroDivision else NonFinite)
  {
    var e := SaturatedPressure(T, P, name, exp);
    if e.Err? then Err(e.error) else RelativeOf(T, rho, e.value)
  }

  /** `absolute_humidity(T, P, rel, method)` (vapor.py:36-48), in g/m³: defined exactly
      when the saturated pressure e is, away from −273.15 °C, and then the density whose
      partial pressure is rel percent of e. */
  function AbsoluteHumidity(T: real, P: Option<real>, rel: real, name: string, exp: real -> real): (r: Result<real>)
    ensures var e := SaturatedPressure(T, P, name, exp);
      r.Ok? <==> e.Ok? && T != -273.15
    ensures var e := SaturatedPressure(T, P, name, exp);
      r.Ok? ==> Pressure(T, r.value) == Share(rel, e.value)
    ensures var e := SaturatedPressure(T, P, name, exp);
      r.Err? ==> r.error == (if e.Err? then ZeroDivision else NonFinite)
  {
    var e := SaturatedPressure(T, P, name, exp);
    if e.Err? then Err(e.error) else DensityOf(T, rel, e.value)
  }

  // ---------------------------------------------------------------------------
  // Properties of the partial pressure

  /** The partial pressure is linear in the density and vanishes with it. */
  lemma PressureLinear(T: real, k: real, rho1: real, rho2: real)
    ensures Pressure(T, k * rho1 + rho2) == k * Pressure(T, rho1) + Pressure(T, rho2)
    ensures Pressure(T, 0.0) == 0.0
  {
  }

  // ---------------------------------------------------------------------------
  // Properties of the saturated pressure

  /** Where each approximation divides by zero: the pole of its exponent. Buck's formula
      above 0 °C has no pole, since its denominator 257.14 + T is then positive. */
  predicate Pole(m: string, T: real)
  {
    if m == ARM then T == -243.04
    else if m == TETENS then T == -237.3
    else if m == AUGUST then T == -273.15
    else if m == BUCK then T == -279.82
    else T == -243.12
  }

  /** With a barometric pressure P, the pressure over a flat surface is scaled by the
      enhancement factor 1.0016 + 3.15e-6·P − 0.074/P. */
  lemma EnhancementFactor(T: real, p: real, name: string, exp: real -> real)
    requires SaturatedPressure(T, None, name, exp).Ok? && p != 0.0
    ensures SaturatedPressure(T, Some(p), name, exp).Ok?
    ensures SaturatedPressure(T, Some(p), name, exp).value
         == (1.0016 + 0.00000315 * p - 0.074 / p) * SaturatedPressure(T, None, name, exp).value
  {
    var e := SaturatedPressure(T, None, name, exp).value;
    var r := SaturatedPressure(T, Some(p), name, exp);
    assert r.Ok? && r.value == (1.0016 + 0.00000315 * p - 0.074 / p) * e;
  }

  /** The method name is matched without regard to case. */
  lemma CaseInsensitive(T: real, P: Option<real>, name: string, exp: real -> real)
    ensures SaturatedPressure(T, P, name, exp) == SaturatedPressure(T, P, Lower(name), exp)
  {
    LowerIdempotent(name);
  }

  /** Any name that is none of the four named approximations selects the WMO (2008) one,
      the default. */
  lemma Fallback(T: real, P: Option<real>, name: string, exp: real -> real)
    requires Lower(name) !in {ARM, TETENS, AUGUST, BUCK}
    ensures SaturatedPressure(T, P, name, exp) == SaturatedPressure(T, P, WMO2008, exp)
  {
    LowerFixed(WMO2008);
  }

  /** The default approximation over a flat surface, 6.112·exp(17.62·T / (243.12 + T)). */
  lemma WmoFormula(T: real, exp: real -> real)
    requires T != -243.12
    ensures SaturatedPressure(T, None, WMO2008, exp) == Ok(6.112 * exp(17.62 * T / (243.12 + T)))
  {
    LowerFixed(WMO2008);
  }

  /** Buck's formula treats 0 °C as ice: the test is strictly T > 0. */
  lemma BuckAtZero(exp: real -> real)
    ensures SaturatedPressure(0.0, None, BUCK, exp) == Ok(6.1115 * exp(0.0))
  {
    LowerFixed(BUCK);
  }

  // ---------------------------------------------------------------------------
  // Properties of the humidity conversions

  /** A density is determined by its partial pressure, away from −273.15 °C. */
  lemma PressureInjective(T: real, rho1: real, rho2: real)
    requires T != -273.15 && Pressure(T, rho1) == Pressure(T, rho2)
    ensures rho1 == rho2
  {
    var t := T + 273.15;
    var x, y := rho1 * t, rho2 * t;
    assert x / 216.7 == y / 216.7;
    assert x == y;
    ProductZero(rho1 - rho2, t);
  }

  lemma ProductZero(x: real, t: real)
    requires t != 0.0 && x * t == 0.0
    ensures x == 0.0
  {
  }

  lemma RelativeOfDensity(T: real, rel: real, e: real)
    requires T != -273.15 && e != 0.0
    ensures DensityOf(T, rel, e).Ok?
    ensures RelativeOf(T, DensityOf(T, rel, e).value, e) == Ok(rel)
  {
    var rho := DensityOf(T, rel, e).value;
    assert Pressure(T, rho) == rel / 100.0 * e;
    var r := RelativeOf(T, rho, e);
    assert r.value / 100.0 * e == rel / 100.0 * e;
    assert (r.value - rel) * e == 0.0;
    assert r.Ok? && r.value == rel;
  }

  lemma DensityOfRelative(T: real, rho: real, e: real)
    requires T != -273.15 && e != 0.0
    ensures RelativeOf(T, rho, e).Ok?
    ensures DensityOf(T, RelativeOf(T, rho, e).value, e) == Ok(rho)
  {
    var rel := RelativeOf(T, rho, e).value;
    var r := DensityOf(T, rel, e);
    PressureInjective(T, r.value, rho);
    assert r.Ok? && r.value == rho;
  }

  /** Relative → absolute → relative gives back the relative humidity. */
  lemma RelativeRoundTrip(T: real, P: Option<real>, rel: real, name: string, exp: real -> real)
    requires SaturatedPressure(T, P, name, exp).Ok? && SaturatedPressure(T, P, name, exp).value != 0.0
    requires T != -273.15
    ensures AbsoluteHumidity(T, P, rel, name, exp).Ok?
    ensures RelativeHumidity(T, P, AbsoluteHumidity(T, P, rel, name, exp).value, name, exp) == Ok(rel)
  {
    RelativeOfDensity(T, rel, SaturatedPressure(T, P, name, exp).value);
  }

  /** Absolute → relative → absolute gives back the density. */
  lemma AbsoluteRoundTrip(T: real, P: Option<real>, rho: real, name: string, exp: real -> real)
    requires SaturatedPressure(T, P, name, exp).Ok? && SaturatedPressure(T, P, name, exp).value != 0.0
    requires T != -273.15
    ensures RelativeHumidity(T, P, rho, name, exp).Ok?
    ensures AbsoluteHumidity(T, P, RelativeHumidity(T, P, rho, name, exp).value, name, exp) == Ok(rho)
  {
    DensityOfRelative(T, rho, SaturatedPressure(T, P, name, exp).value);
  }
}
