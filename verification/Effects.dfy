/**
 The effect registry of crates/neomacs-display-protocol/src/effect_command.rs:
 a batch of named operations applied to the JSON form of a configuration, and the
 names and values it publishes.
 */
module Effects {
  import opened Text
  import opened EffectJson
  import opened EffectValueLaws

  /** The top-level JSON object: effect names to what they hold. */
  type Config = map<string, Json>

  /** What deserialization complains of, if anything. */
  type Decode = Config -> Option<string>

  datatype EffectOperation =
    | Set(effect: string, properties: Settings)
    | Reset(effect: string)

  datatype EffectError =
    | UnknownEffect(effect: string)
    | NoProperty(effect: string, property: string)
    | Expects(effect: string, property: string, what: string)
    | Unsupported(effect: string, property: string, kind: string)
    | Invalid(message: string)

  // ------------------------------------------------------------------- names

  function Swap(name: string, a: char, b: char): string
  {
    if name == [] then [] else [if name[0] == a then b else name[0]] + Swap(name[1..], a, b)
  }

  function RustName(name: string): string { Swap(name, '-', '_') }

  function LispName(name: string): string { Swap(name, '_', '-') }

  /** A published name leads back to the storage name it was made from exactly when
      that name has no hyphen. */
  lemma {:induction false} NameRoundTrip(key: string)
    ensures RustName(LispName(key)) == key <==> '-' !in key
  {
    if key != [] {
      NameRoundTrip(key[1..]);
      var l := LispName(key);
      assert l[1..] == LispName(key[1..]);
      var r := RustName(l);
      assert r[1..] == RustName(LispName(key[1..]));
      assert key == [key[0]] + key[1..] && r == [r[0]] + r[1..];
    }
  }

  lemma {:induction false} SwapAt(name: string, a: char, b: char)
    ensures |Swap(name, a, b)| == |name|
    ensures forall i :: 0 <= i < |name| ==> Swap(name, a, b)[i] == if name[i] == a then b else name[i]
  {
    if name != [] {
      SwapAt(name[1..], a, b);
      assert forall i :: 1 <= i < |name| ==> Swap(name, a, b)[i] == Swap(name[1..], a, b)[i - 1];
    }
  }

  /** `key` is the storage name of `name`: underscores for hyphens, nothing else. */
  predicate IsKey(name: string, key: string)
  {
    |key| == |name| && forall i :: 0 <= i < |name| ==> key[i] == if name[i] == '-' then '_' else name[i]
  }

  lemma {:induction false} KeyMeaning(name: string, key: string)
    ensures key == RustName(name) <==> IsKey(name, key)
  {
    SwapAt(name, '-', '_');
  }

  // -------------------------------------------------------------- operations

  function EffectObject(config: Config, effect: string): Result<Fields, EffectError>
  {
    var key := RustName(effect);
    if key in config && config[key].JObject? then Success(config[key].fields) else Failure(UnknownEffect(effect))
  }

  function SetProperty(effect: string, fields: Fields, property: string, value: EffectValue, linear: Linear)
    : Result<Fields, EffectError>
  {
    var key := RustName(property);
    if key !in fields then Failure(NoProperty(effect, property))
    else
      var r := ValueForTarget(key, value, fields[key], linear);
      if r.Success? then Success(fields[key := r.value]) else Failure(Expects(effect, property, r.error))
  }

  function SetProperties(effect: string, fields: Fields, properties: Settings, linear: Linear)
    : Result<Fields, EffectError>
  {
    if properties == [] then Success(fields)
    else
      var r := SetProperty(effect, fields, properties[0].0, properties[0].1, linear);
      if r.Failure? then r else SetProperties(effect, r.value, properties[1..], linear)
  }

  function Step(config: Config, defaults: Config, op: EffectOperation, linear: Linear): Result<Config, EffectError>
  {
    var fields := EffectObject(if op.Set? then config else defaults, op.effect);
    if fields.Failure? then Failure(fields.error)
    else if op.Reset? then Success(config[RustName(op.effect) := JObject(fields.value)])
    else
      var r := SetProperties(op.effect, fields.value, op.properties, linear);
      if r.Success? then Success(config[RustName(op.effect) := JObject(r.value)]) else Failure(r.error)
  }

  /** The batch as a fold that stops at the first failure. */
  function Apply(config: Config, defaults: Config, ops: seq<EffectOperation>, linear: Linear): Result<Config,
                 EffectError>
    decreases |ops|
  {
    if ops == [] then Success(config)
    else
      var r := Step(config, defaults, ops[0], linear);
      if r.Failure? then r else Apply(r.value, defaults, ops[1..], linear)
  }

  /** The inner loop of `apply_effects`, over one operation's properties. */
  method SetInPlace(effect: string, target: Fields, properties: Settings, linear: Linear)
    returns (r: Result<Fields, EffectError>)
    ensures r == SetProperties(effect, target, properties, linear)
  {
    var fields := target;
    for i := 0 to |properties|
      invariant SetProperties(effect, target, properties, linear)
                == SetProperties(effect, fields, properties[i..], linear)
    {
      var (property, value) := properties[i];
      var key := RustName(property);
      assert properties[i..][1..] == properties[i + 1..];
      if key !in fields { return Failure(NoProperty(effect, property)); }
      var stored := ValueForTarget(key, value, fields[key], linear);
      if stored.Failure? { return Failure(Expects(effect, property, stored.error)); }
      fields := fields[key := stored.value];
    }
    return Success(fields);
  }

  /** The final deserialization: `decode` gives its complaint, if it has one. */
  function Decoded(r: Result<Config, EffectError>, decode: Decode): Result<Config, EffectError>
  {
    if r.Success? && decode(r.value).Some? then Failure(Invalid(decode(r.value).value)) else r
  }

  /** `apply_effects`. */
  method ApplyEffects(config: Config, defaults: Config, ops: seq<EffectOperation>, linear: Linear,
                      decode: Decode)
    returns (r: Result<Config, EffectError>)
    ensures r == Decoded(Apply(config, defaults, ops, linear), decode)
  {
    var current := config;
    for i := 0 to |ops|
      invariant Apply(config, defaults, ops, linear) == Apply(current, defaults, ops[i..], linear)
    {
      assert ops[i..][1..] == ops[i + 1..];
      match ops[i] {
        case Set(effect, properties) =>
          var fields := EffectObject(current, effect);
          if fields.Failure? { return Failure(fields.error); }
          var changed := SetInPlace(effect, fields.value, properties, linear);
          if changed.Failure? { return Failure(changed.error); }
          current := current[RustName(effect) := JObject(changed.value)];
        case Reset(effect) =>
          var fields := EffectObject(defaults, effect);
          if fields.Failure? { return Failure(fields.error); }
          current := current[RustName(effect) := JObject(fields.value)];
      }
    }
    var complaint := decode(current);
    return if complaint.Some? then Failure(Invalid(complaint.value)) else Success(current);
  }

  // ---------------------------------------------------------------- the batch

  /** Applying two batches together is applying one after the other, and a failure
      of the first is the failure of both. */
  lemma {:induction false} ApplyAppend(config: Config, defaults: Config, a: seq<EffectOperation>,
                                       b: seq<EffectOperation>, linear: Linear)
    ensures Apply(config, defaults, a + b, linear) ==
      var r := Apply(config, defaults, a, linear);
      if r.Failure? then r else Apply(r.value, defaults, b, linear)
    decreases |a|
  {
    if a == [] {
      assert a + b == b;
    } else {
      assert (a + b)[1..] == a[1..] + b;
      var r := Step(config, defaults, a[0], linear);
      if r.Success? { ApplyAppend(r.value, defaults, a[1..], b, linear); }
    }
  }

  lemma {:induction false} ApplyOne(config: Config, defaults: Config, op: EffectOperation, linear: Linear)
    ensures Apply(config, defaults, [op], linear) == Step(config, defaults, op, linear)
  {
    var r := Step(config, defaults, op, linear);
    assert [op][1..] == [];
    assert r.Success? ==> Apply(r.value, defaults, [], linear) == r;
  }

  predicate HasEffect(config: Config, key: string) { key in config && config[key].JObject? }

  /** A Reset puts the default object of the effect in its place, and changes nothing
      else; it fails exactly when the defaults have no such object. */
  lemma {:induction false} ResetMeaning(config: Config, defaults: Config, effect: string, key: string, linear: Linear)
    requires IsKey(effect, key)
    ensures Apply(config, defaults, [Reset(effect)], linear) ==
      if HasEffect(defaults, key) then Success(config[key := defaults[key]]) else Failure(UnknownEffect(effect))
  {
    KeyMeaning(effect, key);
    ApplyOne(config, defaults, Reset(effect), linear);
  }

  /** A Set of one property stores the converted value in that property of that effect,
      and changes nothing else; each of its three failures names what is wrong. */
  lemma {:induction false} SetMeaning(config: Config, defaults: Config, effect: string, key: string,
                                      property: string, field: string, value: EffectValue, linear: Linear)
    requires IsKey(effect, key) && IsKey(property, field)
    ensures Apply(config, defaults, [Set(effect, [(property, value)])], linear) ==
      if !HasEffect(config, key) then Failure(UnknownEffect(effect))
      else if field !in config[key].fields then Failure(NoProperty(effect, property))
      else match ValueForTarget(field, value, config[key].fields[field], linear)
        case Failure(what) => Failure(Expects(effect, property, what))
        case Success(stored) => Success(config[key := JObject(config[key].fields[field := stored])])
  {
    KeyMeaning(effect, key);
    KeyMeaning(property, field);
    ApplyOne(config, defaults, Set(effect, [(property, value)]), linear);
    if HasEffect(config, key) { SetOne(effect, config[key].fields, property, value, linear); }
  }

  lemma {:induction false} SetOne(effect: string, fields: Fields, property: string, value: EffectValue, linear: Linear)
    ensures SetProperties(effect, fields, [(property, value)], linear)
         == SetProperty(effect, fields, property, value, linear)
  {
    var r := SetProperty(effect, fields, property, value, linear);
    assert [(property, value)][1..] == [];
    assert r.Success? ==> SetProperties(effect, r.value, [], linear) == r;
  }

  lemma {:induction false} SetAppend(effect: string, fields: Fields, a: Settings, b: Settings, linear: Linear)
    ensures SetProperties(effect, fields, a + b, linear) ==
      var r := SetProperties(effect, fields, a, linear);
      if r.Failure? then r else SetProperties(effect, r.value, b, linear)
    decreases |a|
  {
    if a == [] {
      assert a + b == b;
    } else {
      assert (a + b)[1..] == a[1..] + b;
      var r := SetProperty(effect, fields, a[0].0, a[0].1, linear);
      if r.Success? { SetAppend(effect, r.value, a[1..], b, linear); }
    }
  }

  /** Setting properties together is setting them one after the other. */
  lemma {:induction false} SetInOrder(config: Config, defaults: Config, effect: string, a: Settings, b: Settings,
                                      linear: Linear)
    ensures Apply(config, defaults, [Set(effect, a + b)], linear)
         == Apply(config, defaults, [Set(effect, a), Set(effect, b)], linear)
  {
    var key := RustName(effect);
    ApplyOne(config, defaults, Set(effect, a + b), linear);
    assert [Set(effect, a), Set(effect, b)][1..] == [Set(effect, b)];
    if HasEffect(config, key) {
      var fields := config[key].fields;
      SetAppend(effect, fields, a, b, linear);
      var r := SetProperties(effect, fields, a, linear);
      if r.Success? {
        var next := config[key := JObject(r.value)];
        ApplyOne(next, defaults, Set(effect, b), linear);
        var last := SetProperties(effect, r.value, b, linear);
        assert last.Success? ==> next[key := JObject(last.value)] == config[key := JObject(last.value)];
      }
    }
  }

  ghost predicate Names(ops: seq<EffectOperation>, key: string)
  {
    exists i :: 0 <= i < |ops| && RustName(ops[i].effect) == key
  }

  /** An effect that no operation names keeps its configuration. */
  lemma {:induction false} UnnamedUnchanged(config: Config, defaults: Config, ops: seq<EffectOperation>,
                                            linear: Linear, key: string)
    requires !Names(ops, key) && Apply(config, defaults, ops, linear).Success?
    ensures var r := Apply(config, defaults, ops, linear).value;
      (key in r <==> key in config) && (key in r ==> r[key] == config[key])
    decreases |ops|
  {
    if ops != [] {
      assert RustName(ops[0].effect) != key;
      forall i | 0 <= i < |ops[1..]| ensures RustName(ops[1..][i].effect) != key {
        assert ops[1..][i] == ops[i + 1];
      }
      UnnamedUnchanged(Step(config, defaults, ops[0], linear).value, defaults, ops[1..], linear, key);
    }
  }

  // -------------------------------------------------------------- trailing reset

  /** The operations on other effects than the one stored under `key`. */
  function Others(ops: seq<EffectOperation>, key: string): seq<EffectOperation>
  {
    if ops == [] then []
    else (if RustName(ops[0].effect) == key then [] else [ops[0]]) + Others(ops[1..], key)
  }

  ghost predicate AgreeExcept(a: Config, b: Config, key: string)
  {
    a - {key} == b - {key}
  }

  lemma {:induction false} AgreeAt(a: Config, b: Config, key: string, k: string)
    requires AgreeExcept(a, b, key) && k != key
    ensures (k in a <==> k in b) && (k in a ==> a[k] == b[k])
  {
    assert k in a ==> k in a - {key} && (a - {key})[k] == a[k];
    assert k in b ==> k in b - {key} && (b - {key})[k] == b[k];
  }

  lemma {:induction false} AgreeStep(a: Config, b: Config, defaults: Config, op: EffectOperation, linear: Linear,
                                     key: string)
    requires AgreeExcept(a, b, key) && RustName(op.effect) != key
    ensures var r, s := Step(a, defaults, op, linear), Step(b, defaults, op, linear);
      if r.Failure? then s == r else s.Success? && AgreeExcept(r.value, s.value, key)
  {
    var k := RustName(op.effect);
    AgreeAt(a, b, key, k);
    var r := Step(a, defaults, op, linear);
    if r.Success? {
      var v := r.value[k];
      assert a[k := v] - {key} == (a - {key})[k := v];
      assert b[k := v] - {key} == (b - {key})[k := v];
    }
  }

  lemma {:induction false} OverwriteAgrees(a: Config, key: string, v: Json)
    ensures AgreeExcept(a[key := v], a, key)
  {
  }

  /** Leaving out the operations on one effect changes nothing elsewhere, and cannot
      make a batch fail that succeeded. */
  lemma {:induction false} OthersAgree(a: Config, b: Config, defaults: Config, ops: seq<EffectOperation>,
                                       linear: Linear, key: string)
    requires AgreeExcept(a, b, key) && Apply(a, defaults, ops, linear).Success?
    ensures var s := Apply(b, defaults, Others(ops, key), linear);
      s.Success? && AgreeExcept(Apply(a, defaults, ops, linear).value, s.value, key)
    decreases |ops|
  {
    if ops != [] {
      var op, rest := ops[0], Others(ops[1..], key);
      var r := Step(a, defaults, op, linear).value;
      if RustName(op.effect) == key {
        OverwriteAgrees(a, key, r[key]);
        assert Others(ops, key) == rest;
        OthersAgree(r, b, defaults, ops[1..], linear, key);
      } else {
        AgreeStep(a, b, defaults, op, linear, key);
        assert Others(ops, key)[1..] == rest;
        OthersAgree(r, Step(b, defaults, op, linear).value, defaults, ops[1..], linear, key);
      }
    }
  }

  lemma {:induction false} ResetErases(a: Config, b: Config, key: string, v: Json)
    requires AgreeExcept(a, b, key)
    ensures a[key := v] == b[key := v]
  {
    assert a[key := v] == (a - {key})[key := v];
    assert b[key := v] == (b - {key})[key := v];
  }

  /** A trailing Reset erases every earlier operation on its effect: the batch gives
      the same as one without them. */
  lemma {:induction false} TrailingReset(config: Config, defaults: Config, ops: seq<EffectOperation>,
                                         effect: string, linear: Linear)
    requires Apply(config, defaults, ops + [Reset(effect)], linear).Success?
    ensures Apply(config, defaults, Others(ops, RustName(effect)) + [Reset(effect)], linear)
         == Apply(config, defaults, ops + [Reset(effect)], linear)
  {
    var key, reset := RustName(effect), [Reset(effect)];
    ApplyAppend(config, defaults, ops, reset, linear);
    ApplyAppend(config, defaults, Others(ops, key), reset, linear);
    OthersAgree(config, config, defaults, ops, linear, key);
    var a := Apply(config, defaults, ops, linear).value;
    var b := Apply(config, defaults, Others(ops, key), linear).value;
    ApplyOne(a, defaults, Reset(effect), linear);
    ApplyOne(b, defaults, Reset(effect), linear);
    ResetErases(a, b, key, JObject(EffectObject(defaults, effect).value));
  }

  // ------------------------------------------------------------------- shapes

  function FieldShapes(fields: Fields): map<string, Shape>
  {
    map p | p in fields :: ShapeOf(p, fields[p])
  }

  /** Effect names, their property names, and the shape of every value. */
  function ConfigShape(config: Config): map<string, Option<map<string, Shape>>>
  {
    map k | k in config :: if config[k].JObject? then Some(FieldShapes(config[k].fields)) else None
  }

  lemma {:induction false} SetKeepsShapes(effect: string, fields: Fields, properties: Settings, linear: Linear)
    requires SetProperties(effect, fields, properties, linear).Success?
    ensures FieldShapes(SetProperties(effect, fields, properties, linear).value) == FieldShapes(fields)
    decreases |properties|
  {
    if properties != [] {
      var (property, value) := properties[0];
      var key := RustName(property);
      StoreKeepsShape(key, value, fields[key], linear);
      var next := SetProperty(effect, fields, property, value, linear).value;
      assert FieldShapes(next) == FieldShapes(fields);
      SetKeepsShapes(effect, next, properties[1..], linear);
    }
  }

  lemma {:induction false} StepKeepsShape(config: Config, defaults: Config, op: EffectOperation, linear: Linear)
    requires ConfigShape(defaults) == ConfigShape(config) && Step(config, defaults, op, linear).Success?
    ensures ConfigShape(Step(config, defaults, op, linear).value) == ConfigShape(config)
  {
    var key := RustName(op.effect);
    if op.Set? {
      SetKeepsShapes(op.effect, config[key].fields, op.properties, linear);
    } else {
      assert ConfigShape(defaults)[key] == ConfigShape(config)[key];
    }
  }

  /** A successful batch keeps all effect names, property names and value shapes. */
  lemma {:induction false} ApplyKeepsShape(config: Config, defaults: Config, ops: seq<EffectOperation>, linear: Linear)
    requires ConfigShape(defaults) == ConfigShape(config) && Apply(config, defaults, ops, linear).Success?
    ensures ConfigShape(Apply(config, defaults, ops, linear).value) == ConfigShape(config)
    decreases |ops|
  {
    if ops != [] {
      StepKeepsShape(config, defaults, ops[0], linear);
      ApplyKeepsShape(Step(config, defaults, ops[0], linear).value, defaults, ops[1..], linear);
    }
  }

  // ---------------------------------------------------------------- read-back

  /** An iteration order of a map's keys. */
  ghost predicate Enumerates(order: seq<string>, keys: set<string>)
  {
    && (forall k :: k in order <==> k in keys)
    && (forall i, j :: 0 <= i < j < |order| ==> order[i] != order[j])
  }

  function EffectNames(order: seq<string>): seq<string>
  {
    seq(|order|, i requires 0 <= i < |order| => LispName(order[i]))
  }

  /** A listed name is accepted back, and leads to the effect it was listed for,
      exactly when the effect is stored as an object under a name without hyphen. */
  lemma {:induction false} ListedNamesAccepted(config: Config, order: seq<string>, i: nat)
    requires Enumerates(order, config.Keys) && i < |order|
    ensures order[i] in config
    ensures var name := EffectNames(order)[i];
      RustName(name) == order[i] && EffectObject(config, name).Success?
      <==> '-' !in order[i] && config[order[i]].JObject?
  {
    assert order[i] in order;
    NameRoundTrip(order[i]);
  }

  /** The loop of `effect_values`. */
  function ReadAll(effect: string, fields: Fields, order: seq<string>, show: Show)
    : Result<Settings, EffectError>
    requires forall k :: k in order ==> k in fields
  {
    if order == [] then Success([])
    else
      var value := EffectValueFromJson(fields[order[0]], show);
      if value.Failure? then Failure(Unsupported(effect, LispName(order[0]), value.error))
      else
        var rest := ReadAll(effect, fields, order[1..], show);
        if rest.Failure? then rest else Success([(LispName(order[0]), value.value)] + rest.value)
  }

  function EffectValues(config: Config, effect: string, order: seq<string>, show: Show)
    : Result<Settings, EffectError>
    requires EffectObject(config, effect).Success? ==>
               forall k :: k in order ==> k in EffectObject(config, effect).value
  {
    var fields := EffectObject(config, effect);
    if fields.Failure? then Failure(fields.error) else ReadAll(effect, fields.value, order, show)
  }

  lemma {:induction false} ReadNames(effect: string, fields: Fields, order: seq<string>, show: Show)
    requires forall k :: k in order ==> k in fields
    requires ReadAll(effect, fields, order, show).Success?
    ensures var r := ReadAll(effect, fields, order, show).value;
      |r| == |order| && forall i :: 0 <= i < |r| ==> r[i].0 == LispName(order[i])
  {
    if order != [] { ReadNames(effect, fields, order[1..], show); }
  }

  /** A property that is not named keeps its value. */
  lemma {:induction false} SetFrame(effect: string, fields: Fields, properties: Settings, linear: Linear, k: string)
    requires k in fields && SetProperties(effect, fields, properties, linear).Success?
    requires forall i :: 0 <= i < |properties| ==> RustName(properties[i].0) != k
    ensures var r := SetProperties(effect, fields, properties, linear).value; k in r && r[k] == fields[k]
    decreases |properties|
  {
    if properties != [] {
      assert RustName(properties[0].0) != k;
      var next := SetProperty(effect, fields, properties[0].0, properties[0].1, linear).value;
      SetFrame(effect, next, properties[1..], linear, k);
    }
  }

  /** `now` differs from `was` at most in the properties of `order`, which lists no
      property twice and none that its public name would miss. */
  ghost predicate Pending(was: Fields, now: Fields, order: seq<string>)
  {
    && was.Keys == now.Keys
    && (forall k :: k in order ==> k in was && '-' !in k)
    && (forall i, j :: 0 <= i < j < |order| ==> order[i] != order[j])
    && (forall k :: k in was && k !in order ==> now[k] == was[k])
  }

  ghost predicate AllRestore(was: Fields, now: Fields, order: seq<string>, linear: Linear, show: Show)
    requires forall k :: k in order ==> k in was && k in now
  {
    forall k :: k in order ==> Restores(k, was[k], now[k], linear, show)
  }

  /** Setting on `now` what was read from `was` gives `was`. */
  ghost predicate PutsBack(effect: string, was: Fields, now: Fields, order: seq<string>, linear: Linear, show: Show)
    requires forall k :: k in order ==> k in was
  {
    var read := ReadAll(effect, was, order, show);
    read.Success? && SetProperties(effect, now, read.value, linear) == Success(was)
  }

  /** The first property is put back, and the rest follows. */
  lemma {:induction false} PutsBackFirst(effect: string, was: Fields, now: Fields, order: seq<string>,
                                         linear: Linear, show: Show)
    requires Pending(was, now, order) && order != [] && Restores(order[0], was[order[0]], now[order[0]], linear, show)
    ensures var next := now[order[0] := was[order[0]]];
      && Pending(was, next, order[1..])
      && (PutsBack(effect, was, now, order, linear, show) <==> PutsBack(effect, was, next, order[1..], linear, show))
  {
    var k := order[0];
    NameRoundTrip(k);
    assert order == [k] + order[1..];
    var x, rest := EffectValueFromJson(was[k], show).value, ReadAll(effect, was, order[1..], show);
    if rest.Success? {
      var read := [(LispName(k), x)] + rest.value;
      assert read[1..] == rest.value;
      assert SetProperty(effect, now, read[0].0, read[0].1, linear) == Success(now[k := was[k]]);
    }
  }

  /** A property that does not come back stays wrong. */
  lemma {:induction false} NotPutBack(effect: string, was: Fields, now: Fields, order: seq<string>, linear: Linear,
                                      show: Show)
    requires Pending(was, now, order) && order != [] && !Restores(order[0], was[order[0]], now[order[0]], linear, show)
    ensures !PutsBack(effect, was, now, order, linear, show)
  {
    if PutsBack(effect, was, now, order, linear, show) {
      var k := order[0];
      NameRoundTrip(k);
      var read := ReadAll(effect, was, order, show).value;
      var next := SetProperty(effect, now, read[0].0, read[0].1, linear).value;
      forall k | k in order[1..] ensures k in was { }
      ReadNames(effect, was, order[1..], show);
      assert read[1..] == ReadAll(effect, was, order[1..], show).value;
      forall i | 0 <= i < |read[1..]| ensures RustName(read[1..][i].0) != k {
        assert order[1..][i] == order[i + 1];
        NameRoundTrip(order[i + 1]);
      }
      SetFrame(effect, next, read[1..], linear, k);
    }
  }

  /** The values read are put back exactly when each one is. */
  lemma {:induction false} PutsBackAll(effect: string, was: Fields, now: Fields, order: seq<string>, linear: Linear,
                                       show: Show)
    requires Pending(was, now, order)
    ensures PutsBack(effect, was, now, order, linear, show) <==> AllRestore(was, now, order, linear, show)
    decreases |order|
  {
    if order == [] {
      assert now == was;
    } else {
      var k := order[0];
      assert k in order && order == [k] + order[1..];
      if Restores(k, was[k], now[k], linear, show) {
        PutsBackFirst(effect, was, now, order, linear, show);
        PutsBackAll(effect, was, now[k := was[k]], order[1..], linear, show);
        forall j | j in order[1..] ensures j != k { }
      } else {
        NotPutBack(effect, was, now, order, linear, show);
      }
    }
  }

  /** The effect's properties are all of the kinds that survive read-back, under
      names without hyphen. */
  ghost predicate Plain(fields: Fields)
  {
    forall k :: k in fields ==> '-' !in k && NoColour(fields[k])
  }

  ghost predicate FieldsObey(fields: Fields)
  {
    forall k :: k in fields ==> Obeys(k, fields[k])
  }

  lemma {:induction false} SetWhole(config: Config, defaults: Config, effect: string, properties: Settings,
                                    linear: Linear)
    requires EffectObject(config, effect).Success?
    ensures var r := SetProperties(effect, EffectObject(config, effect).value, properties, linear);
      Apply(config, defaults, [Set(effect, properties)], linear) ==
      if r.Success? then Success(config[RustName(effect) := JObject(r.value)]) else Failure(r.error)
  {
    ApplyOne(config, defaults, Set(effect, properties), linear);
  }

  /** Feeding `effect_values` back into a Set is the identity exactly when every
      stored value obeys the rules of its own name. */
  lemma {:induction false} EffectReadBack(config: Config, defaults: Config, effect: string, order: seq<string>,
                                          linear: Linear, show: Show)
    requires EffectObject(config, effect).Success?
    requires Enumerates(order, EffectObject(config, effect).value.Keys) && Plain(EffectObject(config, effect).value)
    ensures FieldsObey(EffectObject(config, effect).value) <==>
      var read := EffectValues(config, effect, order, show);
      read.Success? && Apply(config, defaults, [Set(effect, read.value)], linear) == Success(config)
  {
    var fields, key := EffectObject(config, effect).value, RustName(effect);
    PutsBackAll(effect, fields, fields, order, linear, show);
    forall k | k in fields ensures Restores(k, fields[k], fields[k], linear, show) <==> Obeys(k, fields[k]) {
      ReadBack(k, fields[k], linear, show);
    }
    var read := EffectValues(config, effect, order, show);
    if read.Success? {
      SetWhole(config, defaults, effect, read.value, linear);
      var r := SetProperties(effect, fields, read.value, linear);
      assert config[key := JObject(fields)] == config;
      assert r.Success? && config[key := JObject(r.value)] == config ==> config[key] == JObject(r.value);
    }
  }

  /** Undo: read an effect, apply any batch, set what was read. The effect is back,
      and everything else as the batch left it, exactly when the batch left no
      integer non-negative that was negative. */
  lemma {:induction false} EffectUndo(config: Config, defaults: Config, ops: seq<EffectOperation>, effect: string,
                                      order: seq<string>, linear: Linear, show: Show)
    requires ConfigShape(defaults) == ConfigShape(config) && Apply(config, defaults, ops, linear).Success?
    requires EffectObject(config, effect).Success?
    requires Enumerates(order, EffectObject(config, effect).value.Keys)
    requires Plain(EffectObject(config, effect).value) && FieldsObey(EffectObject(config, effect).value)
    ensures var was, after := EffectObject(config, effect).value, Apply(config, defaults, ops, linear).value;
      var now, read := EffectObject(after, effect), EffectValues(config, effect, order, show);
      && now.Success? && now.value.Keys == was.Keys && read.Success?
      && (Apply(after, defaults, [Set(effect, read.value)], linear) == Success(after[RustName(effect) := JObject(was)])
          <==> forall k :: k in was ==> !Ratcheted(was[k], now.value[k]))
  {
    var was, key := EffectObject(config, effect).value, RustName(effect);
    var after := Apply(config, defaults, ops, linear).value;
    ApplyKeepsShape(config, defaults, ops, linear);
    assert ConfigShape(after)[key] == ConfigShape(config)[key];
    var now := EffectObject(after, effect).value;
    assert FieldShapes(now) == FieldShapes(was);
    assert FieldShapes(now).Keys == now.Keys;
    EffectReadBack(config, defaults, effect, order, linear, show);
    PutsBackAll(effect, was, now, order, linear, show);
    forall k | k in was ensures Restores(k, was[k], now[k], linear, show) <==> !Ratcheted(was[k], now[k]) {
      assert FieldShapes(now)[k] == FieldShapes(was)[k];
      Undo(k, was[k], now[k], linear, show);
    }
    var read := EffectValues(config, effect, order, show).value;
    SetWhole(after, defaults, effect, read, linear);
    var r := SetProperties(effect, now, read, linear);
    assert r.Success? && after[key := JObject(r.value)] == after[key := JObject(was)] ==>
      after[key := JObject(r.value)][key] == after[key := JObject(was)][key];
  }
}
