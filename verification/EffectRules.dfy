/**
 What the value conversions of EffectJson accept and store, said in terms of the
 property's name, the number and the text alone.
 */
module EffectRules {
  import opened Text
  import opened EffectJson

  // ----------------------------------------------------------------- numbers

  ghost predicate Mentions(name: string, word: string)
  {
    exists i: nat :: WordAt(name, word, i)
  }

  predicate WordAt(name: string, word: string, i: nat) { i + |word| <= |name| && name[i..i + |word|] == word }

  /** Names of proportions: between 0 and 1. */
  ghost predicate Proportion(name: string)
  {
    Mentions(name, "opacity") || name == "flicker" || name == "lightness" || name == "saturation"
    || name == "thumb_radius" || name == "trail_size"
  }

  /** Names that may hold a negative number. */
  predicate Signed(name: string)
  {
    name == "angle" || name == "angle_offset" || name == "offset" || name == "offset_x" || name == "offset_y"
    || name == "rotation" || name == "row_offset"
  }

  predicate Percentage(name: string) { |name| >= 4 && name[|name| - 4..] == "_pct" }

  predicate Whole(x: real) { x == x.Floor as real }

  ghost predicate NameAllows(name: string, x: real)
  {
    && (Proportion(name) ==> 0.0 <= x <= 1.0)
    && (name == "fps" ==> x > 0.0 && Whole(x))
    && (x < 0.0 ==> Signed(name))
    && (Percentage(name) ==> x <= 100.0)
  }

  /** Room for `x` where a number of the kind of `target` is stored. */
  predicate HasRoom(target: Num, x: real)
  {
    match target
    case Float(_) => -340282346638528859811704183484516925440.0 <= x <= 340282346638528859811704183484516925440.0
    case PosInt(_) => Whole(x) && 0.0 <= x <= 18446744073709551616.0
    case NegInt(_) => Whole(x) && -9223372036854775808.0 <= x <= 9223372036854775808.0
  }

  /** The value is the number `x`. */
  predicate IsNumber(value: EffectValue, x: real)
  {
    value == Number(Finite(x)) || (value.Integer? && value.i as real == x)
  }

  /** `x` as a number of the kind of `target`; the powers of two just above the range
      of an integer type are stored as its largest number. */
  predicate Holds(target: Num, x: real, stored: Num)
  {
    match target
    case Float(_) => stored == Float(x)
    case PosInt(_) =>
      stored.PosInt? && stored.n as real == if x == 18446744073709551616.0 then 18446744073709551615.0 else x
    case NegInt(_) =>
      if x < 0.0 then stored.NegInt? && stored.i as real == x
      else stored.PosInt? && stored.n as real == if x == 9223372036854775808.0 then 9223372036854775807.0 else x
  }

  /** A word later in the name, without the name's first character. */
  lemma {:induction false} WordLater(name: string, word: string, i: nat)
    requires name != []
    ensures WordAt(name[1..], word, i) <==> WordAt(name, word, i + 1)
  {
    if i + 1 + |word| <= |name| { SameSlice(name, i, i + |word|); }
  }

  lemma {:induction false} SameSlice(s: string, i: nat, j: nat)
    requires i <= j < |s|
    ensures s[1..][i..j] == s[i + 1..j + 1]
  {
  }

  lemma {:induction false} ContainsIsMentions(name: string, word: string)
    requires word != []
    ensures Contains(name, word) <==> Mentions(name, word)
  {
    if name != [] {
      ContainsIsMentions(name[1..], word);
      if word <= name { assert WordAt(name, word, 0); }
      if Mentions(name[1..], word) {
        var i: nat :| WordAt(name[1..], word, i);
        WordLater(name, word, i);
      }
      if Mentions(name, word) {
        var i: nat :| WordAt(name, word, i);
        if i > 0 { WordLater(name, word, i - 1); } else { assert word <= name; }
      }
    }
  }

  lemma {:induction false} ProportionRule(name: string)
    ensures IsUnitInterval(name) <==> Proportion(name)
  {
    var word := "opacity";
    ContainsIsMentions(name, word);
  }

  lemma {:induction false} SignedRule(name: string)
    ensures AllowsNegative(name) <==> Signed(name)
  {
  }

  lemma {:induction false} PercentageRule(name: string)
    ensures EndsWith(name, "_pct") <==> Percentage(name)
  {
  }

  lemma {:induction false} RuleIsName(name: string, x: real)
    ensures NameRule(name, x).None? <==> NameAllows(name, x)
  {
    ProportionRule(name);
    SignedRule(name);
    PercentageRule(name);
  }

  lemma {:induction false} StoreIsRoom(x: real, target: Num)
    ensures StoreNumber(x, target).Success? <==> target.Float? || HasRoom(target, x)
    ensures StoreNumber(x, target).Success? ==> Holds(target, x, StoreNumber(x, target).value)
  {
  }

  /** A value is accepted over a number exactly when it is a number that the name
      allows and that there is room for, and that number is what is stored. */
  lemma {:induction false} NumberAccepted(name: string, value: EffectValue, target: Num)
    ensures var r := NumberForTarget(name, value, target);
      && (r.Success? <==> exists x :: IsNumber(value, x) && NameAllows(name, x) && HasRoom(target, x))
      && (r.Success? ==> forall x :: IsNumber(value, x) ==> Holds(target, x, r.value))
  {
    var x := RealOf(value);
    if value == Number(Finite(x)) || value.Integer? {
      RuleIsName(name, x);
      StoreIsRoom(x, target);
      assert IsNumber(value, x);
    }
  }

  /** A duration takes a number of seconds that is not negative; whole seconds given as
      an integer are stored as they are. */
  lemma {:induction false} DurationAccepted(name: string, value: EffectValue, fields: Fields, linear: Linear)
    requires fields.Keys == {"secs", "nanos"}
    ensures var r := ValueForTarget(name, value, JObject(fields), linear);
      && (r.Success? <==> exists x :: IsNumber(value, x) && x >= 0.0)
      && (value.Integer? && r.Success? ==>
            r.value == JObject(map["secs" := JNumber(PosInt(value.i)), "nanos" := JNumber(PosInt(0))]))
  {
    assert IsNumber(value, RealOf(value)) || !exists x :: IsNumber(value, x);
  }

  // ----------------------------------------------------------------- colours

  /** `c` is a hexadecimal digit, in either case, of value `v`. */
  predicate IsDigitOf(c: char, v: int)
  {
    if v < 10 then 0 <= v && c as int == '0' as int + v
    else v < 16 && (c as int == 'a' as int + v - 10 || c as int == 'A' as int + v - 10)
  }

  /** Two digits, or a plus sign and one digit, spell the byte `v`. */
  predicate IsPairOf(a: char, b: char, v: int)
  {
    0 <= v < 256 && if a == '+' then IsDigitOf(b, v) else IsDigitOf(a, v / 16) && IsDigitOf(b, v % 16)
  }

  predicate SpellsBytes(hex: string, bytes: seq<int>)
  {
    |hex| == 2 * |bytes| && forall i :: 0 <= i < |bytes| ==> IsPairOf(hex[2 * i], hex[2 * i + 1], bytes[i])
  }

  lemma {:induction false} PairMeaning(a: char, b: char, v: int)
    ensures HexByte(a, b) == Some(v) <==> IsPairOf(a, b, v)
  {
    var high, low := HexDigit(a), HexDigit(b);
    if high.Some? && low.Some? {
      assert 0 <= high.value < 16 && 0 <= low.value < 16;
      assert 16 * high.value + low.value == v <==> high.value == v / 16 && low.value == v % 16;
    }
  }

  lemma {:induction false} SpellsCons(hex: string, bytes: seq<int>)
    requires |hex| >= 2 && bytes != []
    ensures SpellsBytes(hex, bytes) <==> IsPairOf(hex[0], hex[1], bytes[0]) && SpellsBytes(hex[2..], bytes[1..])
  {
    var rest, more := hex[2..], bytes[1..];
    if SpellsBytes(hex, bytes) {
      assert IsPairOf(hex[2 * 0], hex[2 * 0 + 1], bytes[0]);
      forall i | 0 <= i < |more| ensures IsPairOf(rest[2 * i], rest[2 * i + 1], more[i]) {
        assert IsPairOf(hex[2 * (i + 1)], hex[2 * (i + 1) + 1], bytes[i + 1]);
      }
    }
    if IsPairOf(hex[0], hex[1], bytes[0]) && SpellsBytes(rest, more) {
      forall i | 0 <= i < |bytes| ensures IsPairOf(hex[2 * i], hex[2 * i + 1], bytes[i]) {
        if i > 0 { assert IsPairOf(rest[2 * (i - 1)], rest[2 * (i - 1) + 1], more[i - 1]); }
      }
    }
  }

  lemma {:induction false} BytesMeaning(hex: string, bytes: seq<int>)
    requires |hex| % 2 == 0
    ensures HexBytes(hex) == Some(bytes) <==> SpellsBytes(hex, bytes)
  {
    if hex != [] {
      if bytes != [] {
        BytesMeaning(hex[2..], bytes[1..]);
        SpellsCons(hex, bytes);
        PairMeaning(hex[0], hex[1], bytes[0]);
        assert bytes == [bytes[0]] + bytes[1..];
      }
      var r := HexBytes(hex);
      if r.Some? { assert r.value[1..] == HexBytes(hex[2..]).value; }
    }
  }

  /** The colour of three or four bytes, cut to the components asked for; opaque
      without a fourth byte. */
  predicate IsColorOf(bytes: seq<int>, components: nat, linear: Linear, color: seq<Json>)
    requires 3 <= |bytes| <= 4 && 3 <= components <= 4
  {
    && |color| == components
    && (forall i :: 0 <= i < 3 ==> color[i] == JNumber(Float(linear(bytes[i]))))
    && (components == 4 ==>
          color[3] == JNumber(Float(if |bytes| == 4 then bytes[3] as real / 255.0 else 1.0)))
  }

  /** The text is a hash and the digits of three bytes, or of four where four components
      are asked for. */
  predicate IsColorText(text: string, bytes: seq<int>, components: nat)
  {
    text != [] && text[0] == '#' && 3 <= |bytes| <= 4 && |bytes| <= components && SpellsBytes(text[1..], bytes)
  }

  lemma {:induction false} ColorSpelled(text: string, bytes: seq<int>, components: nat, linear: Linear)
    requires 3 <= components <= 4 && IsColorText(text, bytes, components)
    ensures ParseColor(text, components, linear).Some?
    ensures IsColorOf(bytes, components, linear, ParseColor(text, components, linear).value)
  {
    BytesMeaning(text[1..], bytes);
  }

  lemma {:induction false} ColorRead(text: string, components: nat, linear: Linear) returns (bytes: seq<int>)
    requires 3 <= components <= 4 && ParseColor(text, components, linear).Some?
    ensures IsColorText(text, bytes, components)
  {
    bytes := HexBytes(text[1..]).value;
    BytesMeaning(text[1..], bytes);
  }

  /** A text is accepted as a colour exactly when it spells one, and gives that one. */
  lemma {:induction false} ColorMeaning(text: string, components: nat, linear: Linear, color: seq<Json>)
    requires 3 <= components <= 4
    ensures ParseColor(text, components, linear) == Some(color) <==>
      exists bytes :: IsColorText(text, bytes, components) && IsColorOf(bytes, components, linear, color)
  {
    if ParseColor(text, components, linear).Some? {
      var bytes := ColorRead(text, components, linear);
      ColorSpelled(text, bytes, components, linear);
    }
    forall bytes | IsColorText(text, bytes, components) && IsColorOf(bytes, components, linear, color)
      ensures ParseColor(text, components, linear) == Some(color)
    {
      ColorSpelled(text, bytes, components, linear);
      SameColor(bytes, components, linear, color, ParseColor(text, components, linear).value);
    }
  }

  lemma {:induction false} SameColor(bytes: seq<int>, components: nat, linear: Linear, a: seq<Json>, b: seq<Json>)
    requires 3 <= |bytes| <= 4 && 3 <= components <= 4
    requires IsColorOf(bytes, components, linear, a) && IsColorOf(bytes, components, linear, b)
    ensures a == b
  {
    forall i | 0 <= i < components ensures a[i] == b[i] { }
  }

  lemma {:induction false} ColorListMeaning(values: seq<EffectValue>, linear: Linear, colors: seq<Json>)
    ensures ColorList(values, linear) == Success(colors) <==>
      |colors| == |values| && forall i :: 0 <= i < |values| ==> IsColorValue(values[i], colors[i], linear)
  {
    if values != [] {
      if colors != [] {
        ColorListMeaning(values[1..], linear, colors[1..]);
        assert colors == [colors[0]] + colors[1..];
        assert forall i :: 1 <= i < |values| ==> values[i] == values[1..][i - 1];
        assert forall i :: 1 <= i < |colors| ==> colors[i] == colors[1..][i - 1];
      }
      var r := ColorList(values, linear);
      if r.Success? { assert r.value[1..] == ColorList(values[1..], linear).value; }
    }
  }

  predicate IsColorValue(value: EffectValue, color: Json, linear: Linear)
  {
    value.String? && color.JArray? && ParseColor(value.s, 4, linear) == Some(color.items)
  }
}
