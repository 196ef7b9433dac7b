/**
 * Reading the form: `getSettings` turns the raw value of each control into
 * the settings record. Numeric fields go through `Number(raw) || default`,
 * the iteration count through "strictly positive or 1", the opacity through
 * `Number(raw)` alone, and the two keyword fields through `raw || default`.
 */
module SettingsReader {
  import opened JsString
  import opened JsNumber

  /** The raw `value` of each control of the form. */
  datatype Controls = Controls(
    tx: string, ty: string, scale: string, rotate: string, opacity: string,
    duration: string, delay: string, easing: string, iterations: string, direction: string)

  datatype Settings = Settings(
    tx: Number, ty: Number, scale: Number, rotate: Number, opacity: Number,
    duration: Number, delay: Number, easing: string, iterations: Number, direction: string)

  /** `field` is what `Number(raw) || fallback` gives: the fallback when raw reads as NaN or zero, the number read otherwise. */
  predicate Defaulted(field: Number, raw: string, fallback: Number) {
    var parsed := ToNumber(raw);
    if parsed.NaN? || IsZero(parsed) then field == fallback else field == parsed
  }

  /** `Number(raw) || fallback`: never NaN, and never zero when the fallback is not. */
  function NumberOr(raw: string, fallback: Number): (r: Number)
    ensures Defaulted(r, raw, fallback)
    ensures !r.NaN? || fallback.NaN?
    ensures !IsZero(r) || IsZero(fallback)
  {
    Or(ToNumber(raw), fallback)
  }

  /** `Number(raw) > 0 ? Number(raw) : 1`: always positive, and the number read exactly when that is positive. */
  function IterationCount(raw: string): (r: Number)
    ensures GreaterThanZero(r)
    ensures r == ToNumber(raw) || r == One
    ensures GreaterThanZero(ToNumber(raw)) <==> r == ToNumber(raw)
  {
    var iterationsRaw := ToNumber(raw);
    if GreaterThanZero(iterationsRaw) then iterationsRaw else One
  }

  /** `raw || fallback` on strings: only the empty string is falsy. */
  function StringOr(raw: string, fallback: string): (r: string)
    ensures r == raw || r == fallback
    ensures r == fallback <== raw == []
    ensures r == raw <== raw != []
    ensures r != [] <==> raw != [] || fallback != []
  {
    if raw == "" then fallback else raw
  }

  /** `getSettings()` applied to the controls' current values. */
  function GetSettings(c: Controls): (s: Settings)
    ensures Defaulted(s.tx, c.tx, Zero) && Defaulted(s.ty, c.ty, Zero)
    ensures Defaulted(s.scale, c.scale, One) && Defaulted(s.rotate, c.rotate, Zero)
    ensures Defaulted(s.duration, c.duration, One) && Defaulted(s.delay, c.delay, Zero)
    ensures !s.tx.NaN? && !s.ty.NaN? && !s.scale.NaN? && !s.rotate.NaN? && !s.duration.NaN? && !s.delay.NaN?
    ensures !IsZero(s.scale) && !IsZero(s.duration)
    ensures s.opacity == ToNumber(c.opacity)
    ensures GreaterThanZero(s.iterations)
    ensures s.iterations == ToNumber(c.iterations) || s.iterations == One
    ensures GreaterThanZero(ToNumber(c.iterations)) <==> s.iterations == ToNumber(c.iterations)
    ensures s.easing != [] && (c.easing != [] ==> s.easing == c.easing) && (c.easing == [] ==> s.easing == "ease")
    ensures s.direction != [] && (c.direction != [] ==> s.direction == c.direction) && (c.direction == [] ==> s.direction == "normal")
  {
    Settings(
      tx := NumberOr(c.tx, Zero),
      ty := NumberOr(c.ty, Zero),
      scale := NumberOr(c.scale, One),
      rotate := NumberOr(c.rotate, Zero),
      opacity := ToNumber(c.opacity),
      duration := NumberOr(c.duration, One),
      delay := NumberOr(c.delay, Zero),
      easing := StringOr(c.easing, "ease"),
      iterations := IterationCount(c.iterations),
      direction := StringOr(c.direction, "normal"))
  }

  /** A control left empty or holding only white space reads as 0, so each defaulted field takes its default and the opacity becomes 0. */
  lemma BlankControls(c: Controls)
    requires forall i :: 0 <= i < |c.tx| ==> IsWhiteSpace(c.tx[i])
    requires forall i :: 0 <= i < |c.scale| ==> IsWhiteSpace(c.scale[i])
    requires forall i :: 0 <= i < |c.opacity| ==> IsWhiteSpace(c.opacity[i])
    requires forall i :: 0 <= i < |c.iterations| ==> IsWhiteSpace(c.iterations[i])
    ensures GetSettings(c).tx == Zero && GetSettings(c).scale == One
    ensures GetSettings(c).opacity == Zero && GetSettings(c).iterations == One
  {
    ToNumberOfBlank(c.tx);
    ToNumberOfBlank(c.scale);
    ToNumberOfBlank(c.opacity);
    ToNumberOfBlank(c.iterations);
  }

  /** Text that is not a numeral leaves the opacity NaN while every defaulted field takes its default. */
  lemma UnreadableControls()
    ensures var s := GetSettings(Controls("abc", "abc", "abc", "abc", "abc", "abc", "abc", "", "abc", ""));
      s == Settings(Zero, Zero, One, Zero, NaN, One, Zero, "ease", One, "normal")
  {
    ToNumberOfNonNumeral("abc");
  }
}
