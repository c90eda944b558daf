/**
 Typed values for effect properties: crates/neomacs-display-protocol/src/effect_command.rs.
 A value arriving from Lisp is checked against the JSON value it replaces, and a
 stored JSON value is read back as a Lisp-side value. Floating point is exact
 here; the sRGB curve is a parameter.
 */
module EffectJson {
  import opened Text

  const TWO_63: int := 0x8000_0000_0000_0000
  const TWO_64: int := 0x1_0000_0000_0000_0000
  const F32_MAX: real := 340282346638528859811704183484516925440.0
  const NANOS: int := 1_000_000_000

  type U64 = n: int | 0 <= n < TWO_64
  type I64 = i: int | -TWO_63 <= i < TWO_63
  type Negative = i: int | -TWO_63 <= i < 0 witness -1

  /** serde_json's `Number`: a signed integer is `NegInt` only when negative. */
  datatype Num = PosInt(n: U64) | NegInt(i: Negative) | Float(x: real)

  datatype Json =
    | JNull | JBool(b: bool) | JNumber(num: Num) | JString(s: string)
    | JArray(items: seq<Json>) | JObject(fields: map<string, Json>)

  datatype F64 = Finite(x: real) | NonFinite

  datatype EffectValue =
    | Bool(b: bool) | Integer(i: I64) | Number(x: F64) | Symbol(s: string) | String(s: string)
    | List(values: seq<EffectValue>)

  /** The properties of an effect. */
  type Fields = map<string, Json>

  /** Named values, as an operation sets them. */
  type Settings = seq<(string, EffectValue)>

  /** The linear component of an sRGB byte. */
  type Linear = int -> real

  /** A stored colour as text. */
  type Show = seq<Json> -> string

  function AsF64(n: Num): real
  {
    match n case PosInt(n) => n as real case NegInt(i) => i as real case Float(x) => x
  }

  predicate IsInt(x: real) { x.Floor as real == x }

  // -------------------------------------------------------------- name rules

  predicate EndsWith(s: string, suffix: string)
  {
    |suffix| <= |s| && s[|s| - |suffix|..] == suffix
  }

  predicate AllowsNegative(property: string)
  {
    property in ["angle", "angle_offset", "offset", "offset_x", "offset_y", "rotation", "row_offset"]
  }

  predicate IsUnitInterval(property: string)
  {
    Contains(property, "opacity")
    || property in ["flicker", "lightness", "saturation", "thumb_radius", "trail_size"]
  }

  /** What the property's name alone objects to in the number `x`. */
  function NameRule(property: string, x: real): Option<string>
  {
    if IsUnitInterval(property) && !(0.0 <= x <= 1.0) then Some("a number between 0 and 1")
    else if property == "fps" && (x <= 0.0 || !IsInt(x)) then Some("a positive integer")
    else if x < 0.0 && !AllowsNegative(property) then Some("a non-negative number")
    else if EndsWith(property, "_pct") && x > 100.0 then Some("a percentage between 0 and 100")
    else None
  }

  // ----------------------------------------------------- values for a target

  /** `x as u64`, `x as i64` for a whole number: saturating casts. */
  function CastU64(x: real): U64
  {
    if x.Floor < 0 then 0 else if x.Floor >= TWO_64 then TWO_64 - 1 else x.Floor
  }

  function FromI64(x: real): Num
  {
    var i := if x.Floor < -TWO_63 then -TWO_63 else if x.Floor >= TWO_63 then TWO_63 - 1 else x.Floor;
    if i < 0 then NegInt(i) else PosInt(i)
  }

  /** A number that its property's name allows, as the kind of number it replaces. */
  function StoreNumber(x: real, target: Num): Result<Num, string>
  {
    match target
    case PosInt(_) =>
      if !IsInt(x) || x < 0.0 || x > TWO_64 as real then Failure("a non-negative integer")
      else Success(PosInt(CastU64(x)))
    case NegInt(_) =>
      if !IsInt(x) || x < (-TWO_63) as real || x > TWO_63 as real then Failure("an integer")
      else Success(FromI64(x))
    case Float(_) => Success(Float(x))
  }

  /** The number in a value, `as f64`. */
  function RealOf(x: EffectValue): real
  {
    if x.Integer? then x.i as real else if x.Number? && x.x.Finite? then x.x.x else 0.0
  }

  function NumberForTarget(property: string, value: EffectValue, target: Num): Result<Num, string>
  {
    if !value.Number? && !value.Integer? then Failure(if target.Float? then "a number" else "an integer")
    else if value == Number(NonFinite) then Failure("a finite number")
    else
      var x := RealOf(value);
      var rule := NameRule(property, x);
      if target.Float? && (x > F32_MAX || -x > F32_MAX) then Failure("a number representable by the renderer")
      else if rule.Some? then Failure(rule.value)
      else StoreNumber(x, target)
  }

  function HexDigit(c: char): Option<int>
  {
    if '0' <= c <= '9' then Some(c as int - '0' as int)
    else if 'a' <= c <= 'f' then Some(c as int - 'a' as int + 10)
    else if 'A' <= c <= 'F' then Some(c as int - 'A' as int + 10)
    else None
  }

  /** `u8::from_str_radix(.., 16)` on two characters; a leading plus is accepted. */
  function HexByte(a: char, b: char): Option<int>
  {
    if HexDigit(b).None? then None
    else if a == '+' then HexDigit(b)
    else if HexDigit(a).None? then None
    else Some(16 * HexDigit(a).value + HexDigit(b).value)
  }

  function HexBytes(hex: string): Option<seq<int>>
  {
    if |hex| < 2 then Some([])
    else
      var first, rest := HexByte(hex[0], hex[1]), HexBytes(hex[2..]);
      if first.None? || rest.None? then None else Some([first.value] + rest.value)
  }

  /** `parse_color`; `linear` takes an sRGB byte to its linear component. */
  function ParseColor(text: string, components: nat, linear: Linear): Option<seq<Json>>
  {
    if text == [] || text[0] != '#' then None
    else
      var hex := text[1..];
      var requested := if |hex| == 6 then 3 else if |hex| == 8 then 4 else 5;
      if requested == 5 || requested > components then None
      else
        var bytes := HexBytes(hex);
        if bytes.None? || |bytes.value| < 3 then None
        else
          var b := bytes.value;
          var alpha := if |b| > 3 then b[3] as real / 255.0 else 1.0;
          var rgba := [linear(b[0]), linear(b[1]), linear(b[2]), alpha];
          var n := if components < 4 then components else 4;
          Some(seq(n, i requires 0 <= i < n => JNumber(Float(rgba[i]))))
  }

  predicate IsColor(items: seq<Json>)
  {
    (|items| == 3 || |items| == 4) && forall i :: 0 <= i < |items| ==> items[i].JNumber?
  }

  predicate IsDuration(fields: Fields) { fields.Keys == {"secs", "nanos"} }

  function Duration(secs: U64, nanos: U64): Json
  {
    JObject(map["secs" := JNumber(PosInt(secs)), "nanos" := JNumber(PosInt(nanos))])
  }

  /** `x.round()` for a number that is not negative. */
  function Round(x: real): int { (x + 0.5).Floor }

  /** A number of seconds split into whole seconds and nanoseconds, with the carry
      when the fraction rounds up to a whole second. */
  function SplitSeconds(x: real): Json
  {
    var nanos := Round((x - x.Floor as real) * NANOS as real);
    var whole: int := CastU64(x);
    assert nanos / NANOS >= 0 by { FractionNanos(x); }
    Duration((whole + nanos / NANOS) % TWO_64, nanos % NANOS)
  }

  lemma {:induction false} FractionNanos(x: real)
    ensures var nanos := Round((x - x.Floor as real) * NANOS as real); 0 <= nanos <= NANOS
  {
    var f := x - x.Floor as real;
    assert 0.0 <= f < 1.0;
    assert 0.0 <= f * 1_000_000_000.0 < 1_000_000_000.0;
  }

  function ColorList(values: seq<EffectValue>, linear: Linear): Result<seq<Json>, string>
  {
    if values == [] then Success([])
    else
      var color := if values[0].String? then ParseColor(values[0].s, 4, linear) else None;
      if color.None? then Failure("a list of #RRGGBB or #RRGGBBAA colors")
      else
        var rest := ColorList(values[1..], linear);
        if rest.Failure? then rest else Success([JArray(color.value)] + rest.value)
  }

  function ValueForTarget(property: string, value: EffectValue, target: Json, linear: Linear): Result<Json, string>
    decreases target, 1
  {
    match target
    case JBool(_) => if value.Bool? then Success(JBool(value.b)) else Failure("a boolean")
    case JNumber(number) =>
      var r := NumberForTarget(property, value, number);
      if r.Success? then Success(JNumber(r.value)) else Failure(r.error)
    case JString(_) => if value.Symbol? then Success(JString(value.s)) else Failure("a symbol")
    case JArray(items) =>
      if IsColor(items) then
        if !value.String? then Failure("a color")
        else
          var color := ParseColor(value.s, |items|, linear);
          if color.Some? then Success(JArray(color.value)) else Failure("a #RRGGBB or #RRGGBBAA color")
      else if property == "rainbow_colors" then
        if !value.List? then Failure("a list of colors")
        else
          var r := ColorList(value.values, linear);
          if r.Success? then Success(JArray(r.value)) else Failure(r.error)
      else if !value.List? then Failure("a list")
      else if |value.values| != |items| then Failure("a list with the configured number of elements")
      else
        var r := ListForTarget(property, value.values, items, linear);
        if r.Success? then Success(JArray(r.value)) else Failure(r.error)
    case JObject(fields) =>
      if !IsDuration(fields) then Failure("an object")
      else if value.Number? && value.x.Finite? && value.x.x >= 0.0 then Success(SplitSeconds(value.x.x))
      else if value.Integer? && value.i >= 0 then Success(Duration(value.i, 0))
      else Failure("a non-negative number of seconds")
    case JNull => Failure("a non-null value")
  }

  /** Element by element, first objection first. */
  function ListForTarget(property: string, values: seq<EffectValue>, targets: seq<Json>, linear: Linear)
    : Result<seq<Json>, string>
    requires |values| == |targets|
    decreases targets, 0
  {
    if values == [] then Success([])
    else
      var first := ValueForTarget(property, values[0], targets[0], linear);
      if first.Failure? then Failure(first.error)
      else
        var rest := ListForTarget(property, values[1..], targets[1..], linear);
        if rest.Failure? then rest else Success([first.value] + rest.value)
  }

  // --------------------------------------------------------------- read-back

  /** `effect_value_from_json`; `show` writes a stored colour as text. */
  function EffectValueFromJson(value: Json, show: Show): Result<EffectValue, string>
    decreases value, 1
  {
    match value
    case JBool(b) => Success(Bool(b))
    case JNumber(PosInt(n)) => if n < TWO_63 then Success(Integer(n)) else Failure("integer")
    case JNumber(NegInt(i)) => Success(Integer(i))
    case JNumber(Float(x)) => Success(Number(Finite(x)))
    case JString(s) => Success(Symbol(s))
    case JArray(items) =>
      if IsColor(items) then Success(String(show(items)))
      else
        var r := ListFromJson(items, show);
        if r.Success? then Success(List(r.value)) else Failure(r.error)
    case JObject(fields) =>
      if !IsDuration(fields) then Failure("object")
      else if !fields["secs"].JNumber? || !fields["nanos"].JNumber? then Failure("duration")
      else Success(Number(Finite(AsF64(fields["secs"].num) + AsF64(fields["nanos"].num) / NANOS as real)))
    case JNull => Failure("null")
  }

  function ListFromJson(items: seq<Json>, show: Show): (r: Result<seq<EffectValue>, string>)
    ensures r.Success? ==> |r.value| == |items|
    decreases items, 0
  {
    if items == [] then Success([])
    else
      var first := EffectValueFromJson(items[0], show);
      if first.Failure? then Failure(first.error)
      else
        var rest := ListFromJson(items[1..], show);
        if rest.Failure? then rest else Success([first.value] + rest.value)
  }
}
