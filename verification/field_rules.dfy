/** Rules the calculators apply to single fields (script.js): a money
    field is written back rounded to cents when it loses focus, the tax
    field is also clamped to 0..100, and the margin slider is coloured by
    ten-point bands. */
module FieldRules {
  import opened Wrappers

  /** `x.toFixed(2)` read back as a number: the nearest multiple of 0.01,
      the larger one on a tie */
  function RoundToCents(x: real): (r: real)
    requires x >= 0.0
    ensures r >= 0.0
    ensures (r * 100.0).Floor as real == r * 100.0
    ensures x - 0.005 < r <= x + 0.005
  {
    var n := (x * 100.0 + 0.5).Floor;
    assert n as real <= x * 100.0 + 0.5 < n as real + 1.0;
    n as real / 100.0
  }

  /** `formatarCampo` (script.js:518-521), run when a cost, expense or
      extra-value field loses focus: the parsed value, or 0 when it does not
      parse, rounded to cents and written back. `toFixed` rounds the
      magnitude and keeps the sign, so a tie moves away from zero. The
      calculators read the field after this step. */
  function FormatField(parsed: Option<real>): (r: real)
    ensures parsed.None? ==> r == 0.0
    ensures (r * 100.0).Floor as real == r * 100.0
    ensures parsed.Some? ==> parsed.value - 0.005 <= r <= parsed.value + 0.005
    ensures parsed.Some? && parsed.value >= 0.0 ==> r >= 0.0 && parsed.value - 0.005 < r
    ensures parsed.Some? && parsed.value <= 0.0 ==> r <= 0.0 && r < parsed.value + 0.005
  {
    match parsed
    case None => 0.0
    case Some(v) =>
      if v >= 0.0 then RoundToCents(v)
      else
        var m := RoundToCents(-v);
        assert ((-m) * 100.0).Floor == -((m * 100.0).Floor);
        -m
  }

  /** Leaving a formatted field again writes the same value */
  lemma FormatFieldIdempotent(parsed: Option<real>)
    ensures FormatField(Some(FormatField(parsed))) == FormatField(parsed)
  {
    var r := FormatField(parsed);
    if r >= 0.0 {
      RoundToCentsFixesCents(r);
    } else {
      assert ((-r) * 100.0).Floor == -((r * 100.0).Floor);
      RoundToCentsFixesCents(-r);
    }
  }

  /** The tax field on blur (script.js:145-154, 357-366): a value that does
      not parse (`None`) or is negative becomes 0, one above 100 becomes 100,
      anything else is rounded to cents */
  function ClampTax(parsed: Option<real>): (r: real)
    ensures 0.0 <= r <= 100.0
    ensures parsed.None? || parsed.value < 0.0 ==> r == 0.0
    ensures parsed.Some? && parsed.value > 100.0 ==> r == 100.0
    ensures parsed.Some? && 0.0 <= parsed.value <= 100.0 ==>
              (r * 100.0).Floor as real == r * 100.0 && parsed.value - 0.005 < r <= parsed.value + 0.005
  {
    match parsed
    case None => 0.0
    case Some(v) =>
      if v < 0.0 then 0.0
      else if v > 100.0 then 100.0
      else RoundToCents(v)
  }

  /** A value already rounded to cents is left alone */
  lemma RoundToCentsFixesCents(x: real)
    requires x >= 0.0
    requires (x * 100.0).Floor as real == x * 100.0
    ensures RoundToCents(x) == x
  {
    var n := (x * 100.0).Floor;
    assert (x * 100.0 + 0.5).Floor == n;
  }

  /** Leaving the tax field twice writes the same value as leaving it once */
  lemma ClampTaxIdempotent(parsed: Option<real>)
    ensures ClampTax(Some(ClampTax(parsed))) == ClampTax(parsed)
  {
    var r := ClampTax(parsed);
    if r != 0.0 && r != 100.0 {
      RoundToCentsFixesCents(r);
    } else if r == 100.0 {
      assert (100.0 * 100.0).Floor == 10000;
      RoundToCentsFixesCents(100.0);
    }
  }

  /** The seven classes of `atualizarCorMargem` (script.js:606-627) */
  datatype MarginColor = Red | Orange | Yellow | Lime | LightGreen | Cyan | DarkBlue

  /** Position of a band, from 0 (up to 10%) to 6 (above 60%) */
  function Rank(c: MarginColor): nat {
    match c
    case Red => 0
    case Orange => 1
    case Yellow => 2
    case Lime => 3
    case LightGreen => 4
    case Cyan => 5
    case DarkBlue => 6
  }

  /** The CSS class of a band */
  function ClassName(c: MarginColor): string {
    match c
    case Red => "margem-vermelho"
    case Orange => "margem-laranja"
    case Yellow => "margem-amarelo"
    case Lime => "margem-verde-lima"
    case LightGreen => "margem-verde-claro"
    case Cyan => "margem-azul-ciano"
    case DarkBlue => "margem-azul-escuro"
  }

  /** The colour class `atualizarCorMargem` puts after "margin-slider "
      (script.js:606-625): each class names one ten-point band, and a value
      that does not parse gets the class of the last band */
  function MarginClass(percent: Option<real>): (cls: string)
    ensures cls == "margem-vermelho" <==> percent.Some? && percent.value <= 10.0
    ensures cls == "margem-laranja" <==> percent.Some? && 10.0 < percent.value <= 20.0
    ensures cls == "margem-amarelo" <==> percent.Some? && 20.0 < percent.value <= 30.0
    ensures cls == "margem-verde-lima" <==> percent.Some? && 30.0 < percent.value <= 40.0
    ensures cls == "margem-verde-claro" <==> percent.Some? && 40.0 < percent.value <= 50.0
    ensures cls == "margem-azul-ciano" <==> percent.Some? && 50.0 < percent.value <= 60.0
    ensures cls == "margem-azul-escuro" <==> percent.None? || percent.value > 60.0
  {
    ClassName(MarginColorOf(percent))
  }

  /** Upper bound of band k - 1 */
  function Threshold(k: int): real {
    10.0 * k as real
  }

  /** The band of a slider value: the number of thresholds 10, 20, ..., 60
      the value exceeds. A value that does not parse fails every `<=` test
      and lands in the last band. */
  function MarginColorOf(percent: Option<real>): (c: MarginColor)
    ensures percent.None? ==> c == DarkBlue
    ensures percent.Some? ==> forall k :: 1 <= k <= 6 ==> (Rank(c) >= k <==> percent.value > Threshold(k))
  {
    match percent
    case None => DarkBlue
    case Some(p) =>
      if p <= 10.0 then Red
      else if p <= 20.0 then Orange
      else if p <= 30.0 then Yellow
      else if p <= 40.0 then Lime
      else if p <= 50.0 then LightGreen
      else if p <= 60.0 then Cyan
      else DarkBlue
  }

  /** A higher margin never gets a lower band */
  lemma MarginColorMonotone(p: real, q: real)
    requires p <= q
    ensures Rank(MarginColorOf(Some(p))) <= Rank(MarginColorOf(Some(q)))
  {
  }
}
