/**
 Laws of the value conversions in EffectJson: what a store keeps, what a second
 store changes, and when reading a value and storing it again is the identity.
 */
module EffectValueLaws {
  import opened Text
  import opened EffectJson

  // ------------------------------------------------------------------- lists

  /** Each value, stored over its target, gives the element of `ws`. */
  ghost predicate AllStored(p: string, values: seq<EffectValue>, targets: seq<Json>, linear: Linear, ws: seq<Json>)
    requires |values| == |targets| == |ws|
  {
    forall i :: 0 <= i < |ws| ==> ValueForTarget(p, values[i], targets[i], linear) == Success(ws[i])
  }

  lemma {:induction false} ListElementwise(p: string, values: seq<EffectValue>, targets: seq<Json>, linear: Linear,
                                           ws: seq<Json>)
    requires |values| == |targets|
    ensures ListForTarget(p, values, targets, linear) == Success(ws) <==>
      |ws| == |targets| && AllStored(p, values, targets, linear, ws)
  {
    if values != [] {
      if ws != [] {
        ListElementwise(p, values[1..], targets[1..], linear, ws[1..]);
        assert ws == [ws[0]] + ws[1..];
      }
      var r := ListForTarget(p, values, targets, linear);
      if r.Success? { assert r.value[1..] == ListForTarget(p, values[1..], targets[1..], linear).value; }
      if |ws| == |targets| && AllStored(p, values, targets, linear, ws) {
        forall i | 0 <= i < |ws[1..]|
          ensures ValueForTarget(p, values[1..][i], targets[1..][i], linear) == Success(ws[1..][i])
        {
          assert ValueForTarget(p, values[i + 1], targets[i + 1], linear) == Success(ws[i + 1]);
        }
      }
    }
  }

  lemma {:induction false} ReadElementwise(items: seq<Json>, show: Show, vs: seq<EffectValue>)
    ensures ListFromJson(items, show) == Success(vs) <==>
      (|vs| == |items| && forall i :: 0 <= i < |vs| ==> EffectValueFromJson(items[i], show) == Success(vs[i]))
  {
    if items != [] {
      if vs != [] {
        ReadElementwise(items[1..], show, vs[1..]);
        assert vs == [vs[0]] + vs[1..];
      }
      var r := ListFromJson(items, show);
      if r.Success? { assert r.value[1..] == ListFromJson(items[1..], show).value; }
      if |vs| == |items| && forall i :: 0 <= i < |vs| ==> EffectValueFromJson(items[i], show) == Success(vs[i]) {
        forall i | 0 <= i < |vs[1..]| ensures EffectValueFromJson(items[1..][i], show) == Success(vs[1..][i]) {
          assert EffectValueFromJson(items[i + 1], show) == Success(vs[i + 1]);
        }
      }
    }
  }

  // ------------------------------------------------------------------ shapes

  datatype Shape =
    | NullShape | BoolShape | IntShape | FloatShape | StringShape | ColorShape(n: nat) | ColorsShape
    | ListShape(shapes: seq<Shape>) | DurationShape | ObjectShape

  /** What kind of value a property holds. */
  function ShapeOf(p: string, v: Json): Shape
  {
    match v
    case JNull => NullShape
    case JBool(_) => BoolShape
    case JNumber(n) => if n.Float? then FloatShape else IntShape
    case JString(_) => StringShape
    case JArray(items) =>
      if IsColor(items) then ColorShape(|items|)
      else if p == "rainbow_colors" then ColorsShape
      else ListShape(seq(|items|, i requires 0 <= i < |items| => ShapeOf(p, items[i])))
    case JObject(fields) => if IsDuration(fields) then DurationShape else ObjectShape
  }

  lemma {:induction false} ColorLength(text: string, components: nat, linear: Linear)
    requires components == 3 || components == 4
    ensures var c := ParseColor(text, components, linear); c.Some? ==> |c.value| == components && IsColor(c.value)
  {
  }

  lemma {:induction false} ColorsAreArrays(values: seq<EffectValue>, linear: Linear)
    ensures var r := ColorList(values, linear);
      r.Success? ==>
        |r.value| == |values| && forall i :: 0 <= i < |r.value| ==> r.value[i].JArray? && IsColor(r.value[i].items)
  {
    if values != [] {
      ColorsAreArrays(values[1..], linear);
      if values[0].String? { ColorLength(values[0].s, 4, linear); }
    }
  }

  lemma {:induction false} ColourKeepsShape(p: string, x: EffectValue, items: seq<Json>, linear: Linear)
    requires IsColor(items) && ValueForTarget(p, x, JArray(items), linear).Success?
    ensures ShapeOf(p, ValueForTarget(p, x, JArray(items), linear).value) == ColorShape(|items|)
  {
    ColorLength(x.s, |items|, linear);
  }

  lemma {:induction false} RainbowKeepsShape(p: string, x: EffectValue, items: seq<Json>, linear: Linear)
    requires !IsColor(items) && p == "rainbow_colors" && ValueForTarget(p, x, JArray(items), linear).Success?
    ensures ShapeOf(p, ValueForTarget(p, x, JArray(items), linear).value) == ColorsShape
  {
    ColorsAreArrays(x.values, linear);
    var w := ValueForTarget(p, x, JArray(items), linear).value;
    assert w.items != [] ==> !w.items[0].JNumber?;
  }

  /** Storing a value keeps the shape of the value it replaces. */
  lemma {:induction false} StoreKeepsShape(p: string, x: EffectValue, v: Json, linear: Linear)
    requires ValueForTarget(p, x, v, linear).Success?
    ensures ShapeOf(p, ValueForTarget(p, x, v, linear).value) == ShapeOf(p, v)
    decreases v, 1
  {
    if v.JArray? {
      if IsColor(v.items) {
        ColourKeepsShape(p, x, v.items, linear);
      } else if p == "rainbow_colors" {
        RainbowKeepsShape(p, x, v.items, linear);
      } else {
        ListKeepsShape(p, x.values, v.items, ValueForTarget(p, x, v, linear).value.items, linear);
      }
    } else {
      ScalarKeepsShape(p, x, v, linear);
    }
  }

  lemma {:induction false} ScalarKeepsShape(p: string, x: EffectValue, v: Json, linear: Linear)
    requires !v.JArray? && ValueForTarget(p, x, v, linear).Success?
    ensures ShapeOf(p, ValueForTarget(p, x, v, linear).value) == ShapeOf(p, v)
  {
  }

  lemma {:induction false} ListKeepsShape(p: string, xs: seq<EffectValue>, vs: seq<Json>, ws: seq<Json>, linear: Linear)
    requires |xs| == |vs| && ListForTarget(p, xs, vs, linear) == Success(ws)
    ensures |ws| == |vs| && (IsColor(ws) <==> IsColor(vs))
    ensures forall i :: 0 <= i < |ws| ==> ShapeOf(p, ws[i]) == ShapeOf(p, vs[i])
    decreases vs, 0
  {
    ListElementwise(p, xs, vs, linear, ws);
    forall i | 0 <= i < |ws| ensures ShapeOf(p, ws[i]) == ShapeOf(p, vs[i]) && (ws[i].JNumber? <==> vs[i].JNumber?) {
      StoreKeepsShape(p, xs[i], vs[i], linear);
    }
  }

  // --------------------------------------------------------------- read-back

  /** No colour anywhere in the value: colours do not survive the sRGB curve. */
  predicate NoColour(v: Json)
  {
    v.JArray? ==> !IsColor(v.items) && forall i :: 0 <= i < |v.items| ==> NoColour(v.items[i])
  }

  /** The stored value obeys the rules its own name puts on a new value. */
  predicate Obeys(p: string, v: Json)
  {
    match v
    case JNull => false
    case JBool(_) => true
    case JNumber(n) => NumberObeys(p, n)
    case JString(_) => true
    case JArray(items) =>
      if p == "rainbow_colors" then items == [] else forall i :: 0 <= i < |items| ==> Obeys(p, items[i])
    case JObject(fields) =>
      && IsDuration(fields)
      && fields["secs"].JNumber? && fields["secs"].num.PosInt?
      && fields["nanos"].JNumber? && fields["nanos"].num.PosInt? && fields["nanos"].num.n < NANOS
  }

  predicate NumberObeys(p: string, n: Num)
  {
    && NameRule(p, AsF64(n)).None?
    && (n.PosInt? ==> n.n < TWO_63)
    && (n.Float? ==> -F32_MAX <= n.x <= F32_MAX)
  }

  /** Reading `v` and storing what was read over `target` gives `v`. */
  ghost predicate Restores(p: string, v: Json, target: Json, linear: Linear, show: Show)
  {
    var x := EffectValueFromJson(v, show);
    x.Success? && ValueForTarget(p, x.value, target, linear) == Success(v)
  }

  lemma {:induction false} Fraction(nanos: int)
    requires 0 <= nanos < NANOS
    ensures var f := nanos as real / NANOS as real; 0.0 <= f < 1.0 && f * NANOS as real == nanos as real
  {
    assert nanos as real / NANOS as real == nanos as real / 1_000_000_000.0;
  }

  /** Seconds and a fraction come apart again. */
  lemma {:induction false} SplitParts(secs: U64, f: real, nanos: int)
    requires 0.0 <= f < 1.0 && 0 <= nanos < NANOS && f * NANOS as real == nanos as real
    ensures secs as real + f >= 0.0 && SplitSeconds(secs as real + f) == Duration(secs, nanos)
  {
    var x := secs as real + f;
    assert x.Floor == secs;
    assert x - x.Floor as real == f;
    assert Round(nanos as real) == nanos;
  }

  lemma {:induction false} SecondsRoundTrip(secs: U64, nanos: U64)
    requires nanos < NANOS
    ensures var x := secs as real + nanos as real / NANOS as real;
      x >= 0.0 && SplitSeconds(x) == Duration(secs, nanos)
  {
    Fraction(nanos);
    SplitParts(secs, nanos as real / NANOS as real, nanos);
  }

  lemma {:induction false} DurationReadBack(p: string, fields: Fields, linear: Linear, show: Show)
    requires IsDuration(fields)
    ensures Restores(p, JObject(fields), JObject(fields), linear, show) <==> Obeys(p, JObject(fields))
  {
    var v := JObject(fields);
    if Obeys(p, v) {
      SecondsRoundTrip(fields["secs"].num.n, fields["nanos"].num.n);
      assert fields == Duration(fields["secs"].num.n, fields["nanos"].num.n).fields;
    }
    if Restores(p, v, v, linear, show) {
      var x := EffectValueFromJson(v, show).value;
      assert v == SplitSeconds(x.x.x);
    }
  }

  lemma {:induction false} NumberReadBack(p: string, n: Num, linear: Linear, show: Show)
    ensures Restores(p, JNumber(n), JNumber(n), linear, show) <==> NumberObeys(p, n)
  {
    NumberRestores(p, n, n, linear, show);
    if NumberObeys(p, n) { StoreBack(n, n); }
  }

  /** Read-back is the identity exactly on the values that obey their name. */
  lemma {:induction false} ReadBack(p: string, v: Json, linear: Linear, show: Show)
    requires NoColour(v)
    ensures Restores(p, v, v, linear, show) <==> Obeys(p, v)
    decreases v, 1
  {
    match v
    case JNumber(n) => NumberReadBack(p, n, linear, show);
    case JObject(fields) => if IsDuration(fields) { DurationReadBack(p, fields, linear, show); }
    case JArray(items) => ListReadBack(p, items, linear, show);
    case _ =>
  }

  lemma {:induction false} ListReadBack(p: string, items: seq<Json>, linear: Linear, show: Show)
    requires NoColour(JArray(items))
    ensures Restores(p, JArray(items), JArray(items), linear, show) <==> Obeys(p, JArray(items))
    decreases items, 0
  {
    if p == "rainbow_colors" {
      RainbowRestores(p, items, items, linear, show);
    } else {
      ListRestores(p, items, items, linear, show);
      forall i | 0 <= i < |items| ensures Restores(p, items[i], items[i], linear, show) <==> Obeys(p, items[i]) {
        ReadBack(p, items[i], linear, show);
      }
    }
  }

  /** A list is restored exactly when each element is. */
  lemma {:induction false} ListRestores(p: string, items: seq<Json>, targets: seq<Json>, linear: Linear, show: Show)
    requires p != "rainbow_colors" && |items| == |targets| && !IsColor(items) && !IsColor(targets)
    ensures Restores(p, JArray(items), JArray(targets), linear, show) <==>
      forall i :: 0 <= i < |items| ==> Restores(p, items[i], targets[i], linear, show)
  {
    if Restores(p, JArray(items), JArray(targets), linear, show) {
      var xs := ListFromJson(items, show).value;
      ReadElementwise(items, show, xs);
      ListElementwise(p, xs, targets, linear, items);
    }
    if forall i :: 0 <= i < |items| ==> Restores(p, items[i], targets[i], linear, show) {
      var xs := seq(|items|, i requires 0 <= i < |items| => EffectValueFromJson(items[i], show).value);
      forall i | 0 <= i < |items| ensures EffectValueFromJson(items[i], show) == Success(xs[i])
                                       && ValueForTarget(p, xs[i], targets[i], linear) == Success(items[i]) {
        assert Restores(p, items[i], targets[i], linear, show);
      }
      ReadElementwise(items, show, xs);
      ListElementwise(p, xs, targets, linear, items);
    }
  }

  /** A list of colours is restored, short of the colours themselves, only when empty. */
  lemma {:induction false} RainbowRestores(p: string, items: seq<Json>, targets: seq<Json>, linear: Linear, show: Show)
    requires p == "rainbow_colors" && NoColour(JArray(items)) && !IsColor(targets)
    ensures Restores(p, JArray(items), JArray(targets), linear, show) <==> items == []
  {
    if items == [] {
      assert ListFromJson(items, show) == Success([]);
    } else {
      assert NoColour(items[0]);
      if Restores(p, JArray(items), JArray(targets), linear, show) {
        ColorsAreArrays(ListFromJson(items, show).value, linear);
      }
    }
  }

  // -------------------------------------------------------------------- undo

  /** An integer that was negative has been replaced by one that is not. From then
      on the target only takes non-negative integers. */
  predicate Ratcheted(v: Json, w: Json)
  {
    || (v.JNumber? && w.JNumber? && v.num.NegInt? && w.num.PosInt?)
    || (v.JArray? && w.JArray? && |v.items| == |w.items|
        && exists i :: 0 <= i < |v.items| && Ratcheted(v.items[i], w.items[i]))
  }

  lemma {:induction false} StoreBack(v: Num, w: Num)
    requires (v.Float? <==> w.Float?) && (v.PosInt? ==> v.n < TWO_63)
    ensures StoreNumber(AsF64(v), w) == Success(v) <==> !(v.NegInt? && w.PosInt?)
  {
    assert v.PosInt? ==> (v.n as real).Floor == v.n;
    assert v.NegInt? ==> (v.i as real).Floor == v.i;
  }

  /** The number is restored when its name allows it and storing gives it back. */
  lemma {:induction false} NumberRestores(p: string, v: Num, w: Num, linear: Linear, show: Show)
    requires v.Float? <==> w.Float?
    ensures Restores(p, JNumber(v), JNumber(w), linear, show) <==>
      NumberObeys(p, v) && StoreNumber(AsF64(v), w) == Success(v)
  {
  }

  lemma {:induction false} NumberUndo(p: string, v: Num, w: Num, linear: Linear, show: Show)
    requires NumberObeys(p, v) && (v.Float? <==> w.Float?)
    ensures Restores(p, JNumber(v), JNumber(w), linear, show) <==> !Ratcheted(JNumber(v), JNumber(w))
  {
    NumberRestores(p, v, w, linear, show);
    StoreBack(v, w);
  }

  /** Reading a value, storing anything of the same shape over it and storing the
      value read brings it back, exactly when no negative integer was lost. */
  lemma {:induction false} Undo(p: string, v: Json, w: Json, linear: Linear, show: Show)
    requires NoColour(v) && Obeys(p, v) && ShapeOf(p, w) == ShapeOf(p, v)
    ensures Restores(p, v, w, linear, show) <==> !Ratcheted(v, w)
    decreases v, 1
  {
    match v
    case JNumber(n) => NumberUndo(p, n, w.num, linear, show);
    case JObject(fields) =>
      DurationReadBack(p, fields, linear, show);
      assert Restores(p, v, v, linear, show);
    case JArray(items) => ListUndo(p, items, w.items, linear, show);
    case _ =>
  }

  lemma {:induction false} ListUndo(p: string, vs: seq<Json>, ws: seq<Json>, linear: Linear, show: Show)
    requires NoColour(JArray(vs)) && Obeys(p, JArray(vs)) && ShapeOf(p, JArray(ws)) == ShapeOf(p, JArray(vs))
    ensures Restores(p, JArray(vs), JArray(ws), linear, show) <==> !Ratcheted(JArray(vs), JArray(ws))
    decreases vs, 0
  {
    if p == "rainbow_colors" {
      RainbowRestores(p, vs, ws, linear, show);
    } else {
      var shapes := ShapeOf(p, JArray(vs)).shapes;
      assert |ws| == |shapes| == |vs|;
      ListRestores(p, vs, ws, linear, show);
      forall i | 0 <= i < |vs| ensures Restores(p, vs[i], ws[i], linear, show) <==> !Ratcheted(vs[i], ws[i]) {
        assert shapes[i] == ShapeOf(p, vs[i]) == ShapeOf(p, ws[i]);
        Undo(p, vs[i], ws[i], linear, show);
      }
    }
  }

  // --------------------------------------------------------------- twice over

  /** The one value whose cast saturates in a signed target but not in the
      unsigned one that the first store leaves behind. */
  predicate Saturates(p: string, x: EffectValue, v: Json)
    decreases v
  {
    || (v.JNumber? && v.num.NegInt? && x == Number(Finite(TWO_63 as real)))
    || (v.JArray? && !IsColor(v.items) && p != "rainbow_colors" && x.List? && |x.values| == |v.items|
        && exists i :: 0 <= i < |v.items| && Saturates(p, x.values[i], v.items[i]))
  }

  lemma {:induction false} NumberStoredTwice(x: real, v: Num, w: Num)
    requires StoreNumber(x, v) == Success(w)
    ensures StoreNumber(x, w) == Success(w) <==> !(v.NegInt? && x == TWO_63 as real)
    ensures w.Float? <==> v.Float?
  {
    if v.NegInt? {
      if x == TWO_63 as real {
        assert w == PosInt(TWO_63 - 1);
      } else {
        assert w == if x.Floor < 0 then NegInt(x.Floor) else PosInt(x.Floor);
      }
    }
  }

  /** A number accepted once has passed the rules of its name for good. */
  lemma {:induction false} AcceptedStores(p: string, x: EffectValue, v: Num, w: Num)
    requires NumberForTarget(p, x, v).Success? && (w.Float? <==> v.Float?)
    ensures NumberForTarget(p, x, v) == StoreNumber(RealOf(x), v)
    ensures NumberForTarget(p, x, w) == StoreNumber(RealOf(x), w)
  {
  }

  lemma {:induction false} OnlyReal(x: EffectValue)
    ensures RealOf(x) == TWO_63 as real <==> x == Number(Finite(TWO_63 as real))
  {
  }

  lemma {:induction false} NumberTwice(p: string, x: EffectValue, v: Num, w: Num)
    requires NumberForTarget(p, x, v) == Success(w)
    ensures NumberForTarget(p, x, w) == Success(w) <==> !Saturates(p, x, JNumber(v))
  {
    AcceptedStores(p, x, v, v);
    NumberStoredTwice(RealOf(x), v, w);
    AcceptedStores(p, x, v, w);
    OnlyReal(x);
    assert Saturates(p, x, JNumber(v)) <==> v.NegInt? && x == Number(Finite(TWO_63 as real));
  }

  /** Storing the same value a second time changes nothing, but for that value. */
  lemma {:induction false} StoreTwice(p: string, x: EffectValue, v: Json, w: Json, linear: Linear)
    requires ValueForTarget(p, x, v, linear) == Success(w)
    ensures ValueForTarget(p, x, w, linear) == Success(w) <==> !Saturates(p, x, v)
    decreases v, 1
  {
    StoreKeepsShape(p, x, v, linear);
    if v.JNumber? { NumberTwice(p, x, v.num, w.num); }
    if v.JArray? && !IsColor(v.items) && p != "rainbow_colors" {
      ListTwice(p, x.values, v.items, w.items, linear);
    }
  }

  lemma {:induction false} ListTwice(p: string, xs: seq<EffectValue>, vs: seq<Json>, ws: seq<Json>, linear: Linear)
    requires |xs| == |vs| && ListForTarget(p, xs, vs, linear) == Success(ws)
    ensures |ws| == |vs|
    ensures ListForTarget(p, xs, ws, linear) == Success(ws)
            <==> forall i :: 0 <= i < |vs| ==> !Saturates(p, xs[i], vs[i])
    decreases vs, 0
  {
    ListElementwise(p, xs, vs, linear, ws);
    ListElementwise(p, xs, ws, linear, ws);
    forall i | 0 <= i < |vs|
      ensures ValueForTarget(p, xs[i], ws[i], linear) == Success(ws[i]) <==> !Saturates(p, xs[i], vs[i])
    {
      StoreTwice(p, xs[i], vs[i], ws[i], linear);
    }
  }

  // --------------------------------------------------------------- durations

  /** The nanoseconds a stored duration stands for. */
  function Nanoseconds(secs: int, nanos: int): int { secs * NANOS + nanos }

  /** The nearest number of nanoseconds to `x` seconds. */
  predicate IsNearest(total: int, x: real)
  {
    -0.5 < total as real - x * NANOS as real <= 0.5
  }

  lemma {:induction false} NearestIsUnique(m: int, n: int, x: real)
    requires IsNearest(m, x) && IsNearest(n, x)
    ensures m == n
  {
    assert -1.0 < m as real - n as real < 1.0;
  }

  /** The whole seconds and the rounded nanoseconds of a fraction are nearest. */
  lemma {:induction false} PartsAreNearest(x: real)
    ensures IsNearest(Nanoseconds(x.Floor, Round((x - x.Floor as real) * NANOS as real)), x)
  {
    var f := x - x.Floor as real;
    assert x * NANOS as real == (x.Floor * NANOS) as real + f * NANOS as real;
  }

  lemma {:induction false} Carry(whole: int, nanos: int)
    requires 0 <= whole < TWO_64 && 0 <= nanos <= NANOS
    ensures var secs, rest := (whole + nanos / NANOS) % TWO_64, nanos % NANOS;
      var lost := if whole + nanos / NANOS == TWO_64 then TWO_64 * NANOS else 0;
      Nanoseconds(secs, rest) == Nanoseconds(whole, nanos) - lost
  {
  }

  /** The stored duration is the nearest number of nanoseconds, carry included, exactly
      when that fits: its nanoseconds are always below one second. */
  lemma {:induction false} DurationIsNearest(x: real, nearest: int)
    requires 0.0 <= x && IsNearest(nearest, x)
    ensures var d := SplitSeconds(x).fields;
      && d["secs"].JNumber? && d["secs"].num.PosInt? && d["nanos"].JNumber? && d["nanos"].num.PosInt?
      && d["nanos"].num.n < NANOS
      && (Nanoseconds(d["secs"].num.n, d["nanos"].num.n) == nearest <==> nearest < TWO_64 * NANOS)
  {
    FractionNanos(x);
    PartsAreNearest(x);
    var nanos := Round((x - x.Floor as real) * NANOS as real);
    NearestIsUnique(nearest, Nanoseconds(x.Floor, nanos), x);
    Carry(CastU64(x), nanos);
  }
}
