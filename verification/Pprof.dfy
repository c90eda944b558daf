/**
 Folded stacks to a self-contained pprof profile
 (crates/neomacs-diagnostics/src/pprof.rs), with a reader of Google's
 `profile.proto` that resolves every sample back to its function names.
 */
module Pprof {
  import opened Text
  import opened Wire
  import opened Folded

  type Name = Bytes

  const SAMPLES: Name := [115, 97, 109, 112, 108, 101, 115]
  const COUNT: Name := [99, 111, 117, 110, 116]

  // ------------------------------------------------------------- string table

  ghost predicate Distinct(t: seq<Name>)
  {
    forall i, j :: 0 <= i < j < |t| ==> t[i] != t[j]
  }

  function IndexOf(t: seq<Name>, s: Name): (i: nat)
    requires s in t
    ensures i < |t| && t[i] == s
  {
    if t[0] == s then 0 else 1 + IndexOf(t[1..], s)
  }

  lemma {:induction false} DistinctIndex(t: seq<Name>, i: nat)
    requires Distinct(t) && i < |t|
    ensures IndexOf(t, t[i]) == i
  {
  }

  /** `t` with `s` appended unless it is already there. */
  function Interned(t: seq<Name>, s: Name): (r: seq<Name>)
    ensures s in r && Extends(t, r)
  {
    if s in t then t else t + [s]
  }

  predicate Extends(t: seq<Name>, r: seq<Name>)
  {
    |t| <= |r| && forall i :: 0 <= i < |t| ==> r[i] == t[i]
  }

  /** The first `k` of `names` interned into `t`, in order. */
  function InternedUpTo(t: seq<Name>, names: seq<Name>, k: nat): (r: seq<Name>)
    requires k <= |names|
    ensures Extends(t, r)
    ensures forall i :: 0 <= i < k ==> names[i] in r
  {
    if k == 0 then t else Interned(InternedUpTo(t, names, k - 1), names[k - 1])
  }

  function InternedAll(t: seq<Name>, names: seq<Name>): (r: seq<Name>)
    ensures Extends(t, r)
    ensures forall s :: s in names ==> s in r
  {
    InternedUpTo(t, names, |names|)
  }

  lemma {:induction false} InternedDistinct(t: seq<Name>, names: seq<Name>, k: nat)
    requires Distinct(t) && k <= |names|
    ensures Distinct(InternedUpTo(t, names, k))
  {
    if k > 0 { InternedDistinct(t, names, k - 1); }
  }

  /** `StringTable`: the strings in index order and the map back to indices. */
  class StringTable {
    var strings: seq<Name>
    var index: map<Name, nat>

    ghost predicate Valid()
      reads this
    {
      && strings != [] && strings[0] == []
      && (forall s :: s in index ==> index[s] < |strings| && strings[index[s]] == s)
      && (forall i :: 0 <= i < |strings| ==> strings[i] in index && index[strings[i]] == i)
    }

    constructor ()
      ensures Valid() && strings == [[]]
    {
      strings := [[]];
      index := map[[] := 0];
    }

    method Intern(s: Name) returns (i: nat)
      requires Valid()
      modifies this
      ensures Valid() && strings == Interned(old(strings), s)
      ensures i < |strings| && strings[i] == s
    {
      if s in index {
        return index[s];
      }
      i := |strings|;
      strings := strings + [s];
      index := index[s := i];
    }
  }

  // ------------------------------------------------------- the emitted fields

  predicate Covers(order: seq<Name>, frames: seq<Name>)
  {
    forall f :: f in frames ==> f in order
  }

  lemma {:induction false} ExtendsCovers(t: seq<Name>, r: seq<Name>, frames: seq<Name>)
    requires Extends(t, r) && Covers(t, frames)
    ensures Covers(r, frames)
  {
    assert forall i :: 0 <= i < |t| ==> t[i] in r;
  }

  /** Distinct function names of the samples, in first-seen order. */
  function Order(samples: seq<Stack>): seq<Name>
  {
    if samples == [] then []
    else InternedAll(Order(samples[..|samples| - 1]), samples[|samples| - 1].frames)
  }

  lemma {:induction false} OrderCovers(samples: seq<Stack>, k: nat)
    requires k < |samples|
    ensures Covers(Order(samples), samples[k].frames)
  {
    if k < |samples| - 1 {
      var init := samples[..|samples| - 1];
      OrderCovers(init, k);
      ExtendsCovers(Order(init), Order(samples), samples[k].frames);
    }
  }

  /** The string table: "", "samples", "count", then every function name. */
  function Strings(order: seq<Name>): (r: seq<Name>)
    ensures Extends([[], SAMPLES, COUNT], r)
    ensures Covers(r, order)
  {
    InternedAll([[], SAMPLES, COUNT], order)
  }

  function Reversed<T>(s: seq<T>): (r: seq<T>)
    ensures |r| == |s| && forall i :: 0 <= i < |s| ==> r[i] == s[|s| - 1 - i]
  {
    seq(|s|, i requires 0 <= i < |s| => s[|s| - 1 - i])
  }

  /** `*count as u64`: two's complement. */
  function AsU64(n: int): nat
    requires -TWO63 <= n < TWO63
  {
    if n < 0 then n + Wire.TWO64 else n
  }

  function AsI64(v: nat): int { if v < TWO63 then v else v - Wire.TWO64 }

  function LocationIds(order: seq<Name>, frames: seq<Name>): (r: seq<nat>)
    requires Covers(order, frames)
    ensures |r| == |frames|
  {
    seq(|frames|, i requires 0 <= i < |frames| => IndexOf(order, frames[i]) + 1)
  }

  function SampleMessage(order: seq<Name>, s: Stack): Bytes
    requires Covers(order, s.frames)
    requires -TWO63 <= s.count < TWO63
  {
    EncodeFields([BytesField(1, Packed(Reversed(LocationIds(order, s.frames)))),
                  BytesField(2, Packed([AsU64(s.count)]))])
  }

  function LocationMessage(id: nat): Bytes
  {
    EncodeFields([VarintField(1, id), BytesField(4, EncodeFields([VarintField(1, id)]))])
  }

  function FunctionMessage(id: nat, name: nat): Bytes
  {
    EncodeFields([VarintField(1, id), VarintField(2, name)])
  }

  /** Field `num` repeated, one per payload. */
  function Repeated(num: nat, payloads: seq<Bytes>): (r: seq<Field>)
    ensures |r| == |payloads|
    ensures forall i :: 0 <= i < |r| ==> r[i] == BytesField(num, payloads[i])
  {
    seq(|payloads|, i requires 0 <= i < |payloads| => BytesField(num, payloads[i]))
  }

  ghost predicate Encodable(order: seq<Name>, samples: seq<Stack>)
  {
    forall k :: 0 <= k < |samples| ==>
      && -TWO63 <= samples[k].count < TWO63
      && Covers(order, samples[k].frames)
  }

  ghost function SampleMessages(order: seq<Name>, samples: seq<Stack>): (r: seq<Bytes>)
    requires Encodable(order, samples)
    ensures |r| == |samples|
  {
    seq(|samples|, k requires 0 <= k < |samples| => SampleMessage(order, samples[k]))
  }

  ghost function LocationMessages(n: nat): (r: seq<Bytes>)
    ensures |r| == n
  {
    seq(n, i requires 0 <= i < n => LocationMessage(i + 1))
  }

  ghost function FunctionMessages(order: seq<Name>, strings: seq<Name>): (r: seq<Bytes>)
    requires Covers(strings, order)
    ensures |r| == |order|
  {
    seq(|order|, i requires 0 <= i < |order| => FunctionMessage(i + 1, IndexOf(strings, order[i])))
  }

  function ValueTypeMessage(): Bytes
  {
    EncodeFields([VarintField(1, 1), VarintField(2, 2)])
  }

  /** The five repeated fields of a profile, in emission order. */
  ghost function Emitted(vts: seq<Bytes>, ss: seq<Bytes>, ls: seq<Bytes>, fs: seq<Bytes>, st: seq<Bytes>): seq<Field>
  {
    Repeated(1, vts) + Repeated(2, ss) + Repeated(4, ls) + Repeated(5, fs) + Repeated(6, st)
  }

  /** Profile{sample_type=1, sample=2, location=4, function=5, string_table=6}. */
  ghost function ProfileFields(samples: seq<Stack>): seq<Field>
    requires Encodable(Order(samples), samples)
  {
    var order := Order(samples);
    Emitted([ValueTypeMessage()], SampleMessages(order, samples), LocationMessages(|order|),
            FunctionMessages(order, Strings(order)), Strings(order))
  }

  // ------------------------------------------------------------------- reader

  datatype Profile = Profile(typeName: Name, unitName: Name, samples: seq<Stack>)
  datatype Location = Location(id: nat, fn: nat)
  datatype Function = Function(id: nat, name: nat)

  function Traverse<A, B>(xs: seq<A>, f: A -> Option<B>): Option<seq<B>>
  {
    if xs == [] then Some([])
    else match f(xs[0])
      case None => None
      case Some(y) =>
        match Traverse(xs[1..], f)
        case None => None
        case Some(ys) => Some([y] + ys)
  }

  /** Payloads of every length-delimited field `num`, in order. */
  function Payloads(fs: seq<Field>, num: nat): seq<Bytes>
  {
    if fs == [] then []
    else (if fs[0].BytesField? && fs[0].num == num then [fs[0].payload] else [])
         + Payloads(fs[1..], num)
  }

  function GetVarint(fs: seq<Field>, num: nat): Option<nat>
  {
    if fs == [] then None
    else if fs[0].VarintField? && fs[0].num == num then Some(fs[0].value)
    else GetVarint(fs[1..], num)
  }

  function GetBytes(fs: seq<Field>, num: nat): Option<Bytes>
  {
    var p := Payloads(fs, num);
    if p == [] then None else Some(p[0])
  }

  /** Location{id=1, line=4}, Line{function_id=1}. */
  function ReadLocation(bs: Bytes): Option<Location>
  {
    match ReadFields(bs)
    case None => None
    case Some(fs) =>
      match (GetVarint(fs, 1), GetBytes(fs, 4))
      case (Some(id), Some(line)) =>
        (match ReadFields(line)
         case None => None
         case Some(ls) =>
           match GetVarint(ls, 1)
           case None => None
           case Some(fn) => Some(Location(id, fn)))
      case (_, _) => None
  }

  /** Function{id=1, name=2}. */
  function ReadFunction(bs: Bytes): Option<Function>
  {
    match ReadFields(bs)
    case None => None
    case Some(fs) =>
      match (GetVarint(fs, 1), GetVarint(fs, 2))
      case (Some(id), Some(name)) => Some(Function(id, name))
      case (_, _) => None
  }

  function FindLocation(ls: seq<Location>, id: nat): Option<nat>
  {
    if ls == [] then None
    else if ls[0].id == id then Some(ls[0].fn)
    else FindLocation(ls[1..], id)
  }

  function FindFunction(fs: seq<Function>, id: nat): Option<nat>
  {
    if fs == [] then None
    else if fs[0].id == id then Some(fs[0].name)
    else FindFunction(fs[1..], id)
  }

  datatype Tables = Tables(locations: seq<Location>, functions: seq<Function>, strings: seq<Name>)
  {
    function String(i: nat): Option<Name>
    {
      if i < |strings| then Some(strings[i]) else None
    }

    /** Location id -> function id -> string index -> name. */
    function Resolve(id: nat): Option<Name>
    {
      match FindLocation(locations, id)
      case None => None
      case Some(fn) =>
        match FindFunction(functions, fn)
        case None => None
        case Some(name) => String(name)
    }

    function ToStack(locs: seq<nat>, vs: seq<nat>): Option<Stack>
    {
      if |vs| != 1 then None
      else match Traverse(locs, id => Resolve(id))
        case None => None
        case Some(names) => Some(Stack(Reversed(names), AsI64(vs[0])))
    }

    /** Sample{location_id=1 packed, value=2 packed}, root-first again. */
    function ReadSample(bs: Bytes): Option<Stack>
    {
      match ReadFields(bs)
      case None => None
      case Some(fs) =>
        match (GetBytes(fs, 1), GetBytes(fs, 2))
        case (Some(ids), Some(values)) =>
          (match (ReadPacked(ids), ReadPacked(values))
           case (Some(locs), Some(vs)) => ToStack(locs, vs)
           case (_, _) => None)
        case (_, _) => None
    }
  }

  function ReadTables(fs: seq<Field>): Option<Tables>
  {
    match (Traverse(Payloads(fs, 4), ReadLocation), Traverse(Payloads(fs, 5), ReadFunction))
    case (Some(ls), Some(fns)) => Some(Tables(ls, fns, Payloads(fs, 6)))
    case (_, _) => None
  }

  /** ValueType{type=1, unit=2}, as names. */
  function ReadValueType(bs: Bytes, t: Tables): Option<(Name, Name)>
  {
    match ReadFields(bs)
    case None => None
    case Some(fs) =>
      match (GetVarint(fs, 1), GetVarint(fs, 2))
      case (Some(ty), Some(unit)) =>
        (match (t.String(ty), t.String(unit))
         case (Some(a), Some(b)) => Some((a, b))
         case (_, _) => None)
      case (_, _) => None
  }

  function ReadProfile(bs: Bytes): Option<Profile>
  {
    match ReadFields(bs)
    case None => None
    case Some(fs) =>
      match (ReadTables(fs), GetBytes(fs, 1))
      case (Some(t), Some(vt)) =>
        (match (ReadValueType(vt, t), Traverse(Payloads(fs, 2), bs => t.ReadSample(bs)))
         case (Some(names), Some(samples)) =>
           // pprof: string_table[0] must be the empty string.
           if t.String(0) != Some([]) then None
           else Some(Profile(names.0, names.1, samples))
         case (_, _) => None)
      case (_, _) => None
  }

  // ------------------------------------------------------------------- proofs

  lemma {:induction false} TraversePointwise<A, B>(xs: seq<A>, f: A -> Option<B>, ys: seq<B>)
    requires |xs| == |ys|
    requires forall i :: 0 <= i < |xs| ==> f(xs[i]) == Some(ys[i])
    ensures Traverse(xs, f) == Some(ys)
  {
    if xs != [] {
      assert f(xs[0]) == Some(ys[0]);
      forall i | 0 <= i < |xs[1..]| ensures f(xs[1..][i]) == Some(ys[1..][i]) {
        assert xs[1..][i] == xs[i + 1];
      }
      TraversePointwise(xs[1..], f, ys[1..]);
      assert ys == [ys[0]] + ys[1..];
    }
  }

  lemma {:induction false} PayloadsAppend(a: seq<Field>, b: seq<Field>, num: nat)
    ensures Payloads(a + b, num) == Payloads(a, num) + Payloads(b, num)
  {
    if a == [] {
      assert a + b == b;
    } else {
      var ab := a + b;
      assert ab[0] == a[0] && ab[1..] == a[1..] + b;
      PayloadsAppend(a[1..], b, num);
    }
  }

  lemma {:induction false} PayloadsRepeated(num: nat, payloads: seq<Bytes>, want: nat)
    ensures Payloads(Repeated(num, payloads), want) == if want == num then payloads else []
  {
    if payloads != [] {
      var fs := Repeated(num, payloads);
      assert fs[1..] == Repeated(num, payloads[1..]);
      PayloadsRepeated(num, payloads[1..], want);
      assert payloads == [payloads[0]] + payloads[1..];
    }
  }

  function When<T>(b: bool, s: seq<T>): seq<T> { if b then s else [] }

  lemma {:induction false} EmittedPayloads(vts: seq<Bytes>, ss: seq<Bytes>, ls: seq<Bytes>, fs: seq<Bytes>,
                                           st: seq<Bytes>, n: nat)
    ensures Payloads(Emitted(vts, ss, ls, fs, st), n)
         == When(n == 1, vts) + When(n == 2, ss) + When(n == 4, ls) + When(n == 5, fs) + When(n == 6, st)
  {
    var a, b, c, d, e := Repeated(1, vts), Repeated(2, ss), Repeated(4, ls), Repeated(5, fs), Repeated(6, st);
    PayloadsAppend(a + b + c + d, e, n);
    PayloadsAppend(a + b + c, d, n);
    PayloadsAppend(a + b, c, n);
    PayloadsAppend(a, b, n);
    PayloadsRepeated(1, vts, n);
    PayloadsRepeated(2, ss, n);
    PayloadsRepeated(4, ls, n);
    PayloadsRepeated(5, fs, n);
    PayloadsRepeated(6, st, n);
  }

  /** Each repeated field reads back as exactly its payloads. */
  lemma {:induction false} EmittedRoundTrip(vts: seq<Bytes>, ss: seq<Bytes>, ls: seq<Bytes>, fs: seq<Bytes>,
                                            st: seq<Bytes>)
    ensures var e := Emitted(vts, ss, ls, fs, st);
      && Payloads(e, 1) == vts && Payloads(e, 2) == ss && Payloads(e, 4) == ls
      && Payloads(e, 5) == fs && Payloads(e, 6) == st
  {
    EmittedPayloads(vts, ss, ls, fs, st, 1);
    EmittedPayloads(vts, ss, ls, fs, st, 2);
    EmittedPayloads(vts, ss, ls, fs, st, 4);
    EmittedPayloads(vts, ss, ls, fs, st, 5);
    EmittedPayloads(vts, ss, ls, fs, st, 6);
  }

  /** The two-field messages read back field by field. */
  lemma {:induction false} TwoFields(a: Field, b: Field)
    ensures ReadFields(EncodeFields([a, b])) == Some([a, b])
    ensures forall n :: GetVarint([a, b], n) ==
                        (if a.VarintField? && a.num == n then Some(a.value)
                         else if b.VarintField? && b.num == n then Some(b.value) else None)
    ensures forall n :: Payloads([a, b], n) ==
                        (if a.BytesField? && a.num == n then [a.payload] else [])
                        + (if b.BytesField? && b.num == n then [b.payload] else [])
  {
    var fs := [a, b];
    FieldsRoundTrip(fs);
    assert fs[1..] == [b] && [b][1..] == [];
    forall n: nat
      ensures GetVarint(fs[1..], n) == if b.VarintField? && b.num == n then Some(b.value) else None
      ensures Payloads(fs[1..], n) == if b.BytesField? && b.num == n then [b.payload] else []
    {
      assert GetVarint([b][1..], n) == None;
      assert Payloads([b][1..], n) == [];
    }
  }

  lemma {:induction false} LocationRoundTrip(id: nat)
    ensures ReadLocation(LocationMessage(id)) == Some(Location(id, id))
  {
    var line := [VarintField(1, id)];
    FieldsRoundTrip(line);
    TwoFields(VarintField(1, id), BytesField(4, EncodeFields(line)));
  }

  lemma {:induction false} FunctionRoundTrip(id: nat, name: nat)
    ensures ReadFunction(FunctionMessage(id, name)) == Some(Function(id, name))
  {
    TwoFields(VarintField(1, id), VarintField(2, name));
  }

  /** Ids are the positions plus one, from `base` on. */
  lemma {:induction false} FindByPosition(ls: seq<Location>, fns: seq<Function>, base: nat, i: nat)
    requires |ls| == |fns| && i < |ls|
    requires forall k :: 0 <= k < |ls| ==> ls[k].id == base + k
    requires forall k :: 0 <= k < |ls| ==> fns[k].id == base + k
    ensures FindLocation(ls, base + i) == Some(ls[i].fn)
    ensures FindFunction(fns, base + i) == Some(fns[i].name)
  {
    if i > 0 {
      FindByPosition(ls[1..], fns[1..], base + 1, i - 1);
    }
  }

  ghost function LocationsOf(n: nat): (r: seq<Location>)
    ensures |r| == n && forall k :: 0 <= k < n ==> r[k] == Location(k + 1, k + 1)
  {
    seq(n, k requires 0 <= k < n => Location(k + 1, k + 1))
  }

  ghost function FunctionsOf(order: seq<Name>, strings: seq<Name>): (r: seq<Function>)
    requires Covers(strings, order)
    ensures |r| == |order|
    ensures forall k :: 0 <= k < |order| ==> r[k].id == k + 1 && r[k].name < |strings|
    ensures forall k :: 0 <= k < |order| ==> strings[r[k].name] == order[k]
    ensures forall k :: 0 <= k < |order| ==> r[k] == Function(k + 1, IndexOf(strings, order[k]))
  {
    seq(|order|, k requires 0 <= k < |order| => Function(k + 1, IndexOf(strings, order[k])))
  }

  ghost function TablesOf(order: seq<Name>): Tables
  {
    var strings := Strings(order);
    Tables(LocationsOf(|order|), FunctionsOf(order, strings), strings)
  }

  lemma {:induction false} ResolvesPosition(order: seq<Name>, i: nat)
    requires i < |order|
    ensures TablesOf(order).Resolve(i + 1) == Some(order[i])
  {
    var strings := Strings(order);
    var ls, fns := LocationsOf(|order|), FunctionsOf(order, strings);
    FindByPosition(ls, fns, 1, i);
    assert ls[i] == Location(i + 1, i + 1);
  }

  lemma {:induction false} ToStackPointwise(t: Tables, ids: seq<nat>, names: seq<Name>, count: int)
    requires |ids| == |names| && -TWO63 <= count < TWO63
    requires forall i :: 0 <= i < |ids| ==> t.Resolve(ids[i]) == Some(names[i])
    ensures t.ToStack(ids, [AsU64(count)]) == Some(Stack(Reversed(names), count))
  {
    TraversePointwise(ids, id => t.Resolve(id), names);
  }

  lemma {:induction false} IdsResolve(order: seq<Name>, frames: seq<Name>, i: nat)
    requires Covers(order, frames)
    requires i < |frames|
    ensures TablesOf(order).Resolve(Reversed(LocationIds(order, frames))[i]) == Some(Reversed(frames)[i])
  {
    ResolvesPosition(order, IndexOf(order, frames[|frames| - 1 - i]));
  }

  lemma {:induction false} ToStackRoundTrip(order: seq<Name>, s: Stack)
    requires Covers(order, s.frames)
    requires -TWO63 <= s.count < TWO63
    ensures TablesOf(order).ToStack(Reversed(LocationIds(order, s.frames)), [AsU64(s.count)]) == Some(s)
  {
    forall i | 0 <= i < |s.frames|
      ensures TablesOf(order).Resolve(Reversed(LocationIds(order, s.frames))[i]) == Some(Reversed(s.frames)[i])
    {
      IdsResolve(order, s.frames, i);
    }
    ToStackPointwise(TablesOf(order), Reversed(LocationIds(order, s.frames)), Reversed(s.frames), s.count);
    assert Reversed(Reversed(s.frames)) == s.frames;
  }

  lemma {:induction false} SampleRoundTrip(order: seq<Name>, s: Stack)
    requires Covers(order, s.frames)
    requires -TWO63 <= s.count < TWO63
    ensures TablesOf(order).ReadSample(SampleMessage(order, s)) == Some(s)
  {
    var ids, values := Reversed(LocationIds(order, s.frames)), [AsU64(s.count)];
    TwoFields(BytesField(1, Packed(ids)), BytesField(2, Packed(values)));
    PackedRoundTrip(ids);
    PackedRoundTrip(values);
    ToStackRoundTrip(order, s);
  }

  lemma {:induction false} LocationsRoundTrip(n: nat)
    ensures Traverse(LocationMessages(n), ReadLocation) == Some(LocationsOf(n))
  {
    var msgs, ls := LocationMessages(n), LocationsOf(n);
    forall i | 0 <= i < n ensures ReadLocation(msgs[i]) == Some(ls[i]) {
      LocationRoundTrip(i + 1);
    }
    TraversePointwise(msgs, ReadLocation, ls);
  }

  lemma {:induction false} FunctionsRoundTrip(order: seq<Name>, strings: seq<Name>)
    requires Covers(strings, order)
    ensures Traverse(FunctionMessages(order, strings), ReadFunction) == Some(FunctionsOf(order, strings))
  {
    var msgs, fns := FunctionMessages(order, strings), FunctionsOf(order, strings);
    forall i | 0 <= i < |order| ensures ReadFunction(msgs[i]) == Some(fns[i]) {
      FunctionRoundTrip(i + 1, IndexOf(strings, order[i]));
    }
    TraversePointwise(msgs, ReadFunction, fns);
  }

  lemma {:induction false} TablesRoundTrip(samples: seq<Stack>)
    requires Encodable(Order(samples), samples)
    ensures ReadTables(ProfileFields(samples)) == Some(TablesOf(Order(samples)))
  {
    var order := Order(samples);
    EmittedRoundTrip([ValueTypeMessage()], SampleMessages(order, samples), LocationMessages(|order|),
                     FunctionMessages(order, Strings(order)), Strings(order));
    LocationsRoundTrip(|order|);
    FunctionsRoundTrip(order, Strings(order));
  }

  lemma {:induction false} ValueTypeRoundTrip(order: seq<Name>)
    ensures ReadValueType(ValueTypeMessage(), TablesOf(order)) == Some((SAMPLES, COUNT))
    ensures TablesOf(order).String(0) == Some([])
  {
    var strings := Strings(order);
    TwoFields(VarintField(1, 1), VarintField(2, 2));
    var initial := [[], SAMPLES, COUNT];
    assert strings[0] == initial[0] && strings[1] == initial[1] && strings[2] == initial[2];
  }

  lemma {:induction false} SamplesRoundTrip(order: seq<Name>, samples: seq<Stack>)
    requires Encodable(order, samples)
    ensures Traverse(SampleMessages(order, samples), bs => TablesOf(order).ReadSample(bs)) == Some(samples)
  {
    var t := TablesOf(order);
    var msgs := SampleMessages(order, samples);
    forall k | 0 <= k < |samples| ensures t.ReadSample(msgs[k]) == Some(samples[k]) {
      SampleRoundTrip(order, samples[k]);
    }
    TraversePointwise(msgs, bs => t.ReadSample(bs), samples);
  }

  /** Reading an emitted profile gives back the parsed stacks: same order, same
      root-first frames, same signed counts. */
  lemma {:induction false} ProfileRoundTrip(samples: seq<Stack>)
    requires Encodable(Order(samples), samples)
    ensures ReadProfile(EncodeFields(ProfileFields(samples))) == Some(Profile(SAMPLES, COUNT, samples))
  {
    var order := Order(samples);
    FieldsRoundTrip(ProfileFields(samples));
    EmittedRoundTrip([ValueTypeMessage()], SampleMessages(order, samples), LocationMessages(|order|),
                     FunctionMessages(order, Strings(order)), Strings(order));
    TablesRoundTrip(samples);
    ValueTypeRoundTrip(order);
    SamplesRoundTrip(order, samples);
  }

  // ------------------------------------------------------------------ encoder

  /** `fn_ids`: each name to its position in `order` plus one. */
  ghost predicate Numbers(fnIds: map<Name, nat>, order: seq<Name>)
  {
    && (forall f :: f in fnIds ==> 1 <= fnIds[f] <= |order| && order[fnIds[f] - 1] == f)
    && (forall i :: 0 <= i < |order| ==> order[i] in fnIds && fnIds[order[i]] == i + 1)
  }

  lemma {:induction false} NumbersIndex(fnIds: map<Name, nat>, order: seq<Name>, f: Name)
    requires Numbers(fnIds, order) && f in order
    ensures fnIds[f] == IndexOf(order, f) + 1
  {
    assert order[IndexOf(order, f)] == f;
  }

  lemma {:induction false} NumbersMember(fnIds: map<Name, nat>, order: seq<Name>, f: Name)
    requires Numbers(fnIds, order)
    ensures f in fnIds <==> f in order
    ensures f !in fnIds ==> Numbers(fnIds[f := |order| + 1], order + [f])
  {
  }

  /** Number the frames of one stack, in first-seen order. */
  method NoteFrames(ids: map<Name, nat>, names: seq<Name>, frames: seq<Name>)
    returns (fnIds: map<Name, nat>, order: seq<Name>)
    requires Numbers(ids, names)
    ensures Numbers(fnIds, order) && order == InternedAll(names, frames)
  {
    fnIds, order := ids, names;
    for j := 0 to |frames|
      invariant Numbers(fnIds, order) && order == InternedUpTo(names, frames, j)
    {
      var frame := frames[j];
      NumbersMember(fnIds, order, frame);
      if frame !in fnIds {
        var id := |order| + 1;
        fnIds := fnIds[frame := id];
        order := order + [frame];
      }
    }
  }

  lemma {:induction false} OrderSnoc(samples: seq<Stack>, stack: Stack)
    ensures Order(samples + [stack]) == InternedAll(Order(samples), stack.frames)
  {
    assert (samples + [stack])[..|samples|] == samples;
  }

  /** The parsing loop: fills `fn_ids`, `order` and `parsed`. */
  method Collect(folded: Bytes) returns (fnIds: map<Name, nat>, order: seq<Name>, parsed: seq<Stack>)
    ensures parsed == Parse(folded, I64)
    ensures Numbers(fnIds, order) && order == Order(parsed)
  {
    fnIds, order, parsed := map[], [], [];
    var lines := ParseLines(Lines(folded), I64);
    for i := 0 to |lines|
      invariant parsed == Stacks(lines, i)
      invariant Numbers(fnIds, order) && order == Order(parsed)
    {
      match lines[i] {
        case None =>
        case Some(stack) =>
          fnIds, order := NoteFrames(fnIds, order, stack.frames);
          OrderSnoc(parsed, stack);
          parsed := parsed + [stack];
      }
    }
  }

  method LocationIdList(fnIds: map<Name, nat>, ghost order: seq<Name>, frames: seq<Name>)
    returns (locIds: seq<nat>)
    requires Numbers(fnIds, order) && Covers(order, frames)
    ensures locIds == Reversed(LocationIds(order, frames))
  {
    locIds := [];
    for j := 0 to |frames|
      invariant |locIds| == j
      invariant forall i :: 0 <= i < j ==> locIds[i] == LocationIds(order, frames)[|frames| - 1 - i]
    {
      var f := frames[|frames| - 1 - j];
      NumbersIndex(fnIds, order, f);
      locIds := locIds + [fnIds[f]];
    }
  }

  /** `k` payloads of field `num` written after `before`. */
  ghost predicate Wrote(before: seq<Field>, num: nat, payloads: seq<Bytes>, k: nat, after: seq<Field>)
    requires k <= |payloads|
  {
    after == before + Repeated(num, payloads)[..k]
  }

  lemma {:induction false} WroteAll(before: seq<Field>, num: nat, payloads: seq<Bytes>, after: seq<Field>)
    requires Wrote(before, num, payloads, |payloads|, after)
    ensures after == before + Repeated(num, payloads)
  {
    assert Repeated(num, payloads)[..|payloads|] == Repeated(num, payloads);
  }

  lemma {:induction false} WroteStep(before: seq<Field>, num: nat, payloads: seq<Bytes>, k: nat, after: seq<Field>)
    requires k < |payloads| && Wrote(before, num, payloads, k, after)
    ensures Wrote(before, num, payloads, k + 1, after + [BytesField(num, payloads[k])])
  {
    var fs := Repeated(num, payloads);
    assert fs[..k + 1] == fs[..k] + [fs[k]];
    AppendAssoc(before, fs[..k], [fs[k]]);
  }

  method BuildSample(fnIds: map<Name, nat>, ghost order: seq<Name>, s: Stack) returns (sample: ProtoBuf)
    requires Numbers(fnIds, order) && Covers(order, s.frames) && -TWO63 <= s.count < TWO63
    ensures fresh(sample) && sample.Valid() && EncodeFields(sample.fields) == SampleMessage(order, s)
  {
    sample := new ProtoBuf();
    var locIds := LocationIdList(fnIds, order, s.frames);
    sample.FieldPackedU64(1, locIds);
    sample.FieldPackedU64(2, [AsU64(s.count)]);
  }

  method BuildFunction(id: nat, name: nat) returns (fn: ProtoBuf)
    ensures fresh(fn) && fn.Valid() && EncodeFields(fn.fields) == FunctionMessage(id, name)
  {
    fn := new ProtoBuf();
    fn.FieldVarint(1, id);
    fn.FieldVarint(2, name);
  }

  method EmitSamples(profile: ProtoBuf, fnIds: map<Name, nat>, ghost order: seq<Name>, parsed: seq<Stack>)
    requires profile.Valid() && Numbers(fnIds, order) && Encodable(order, parsed)
    modifies profile
    ensures profile.Valid()
    ensures profile.fields == old(profile.fields) + Repeated(2, SampleMessages(order, parsed))
  {
    ghost var msgs := SampleMessages(order, parsed);
    for k := 0 to |parsed|
      invariant profile.Valid() && Wrote(old(profile.fields), 2, msgs, k, profile.fields)
    {
      var sample := BuildSample(fnIds, order, parsed[k]);
      WroteStep(old(profile.fields), 2, msgs, k, profile.fields);
      profile.FieldMessage(2, sample);
    }
    WroteAll(old(profile.fields), 2, msgs, profile.fields);
  }

  method EmitLocations(profile: ProtoBuf, n: nat)
    requires profile.Valid()
    modifies profile
    ensures profile.Valid() && profile.fields == old(profile.fields) + Repeated(4, LocationMessages(n))
  {
    ghost var msgs := LocationMessages(n);
    for i := 0 to n
      invariant profile.Valid() && Wrote(old(profile.fields), 4, msgs, i, profile.fields)
    {
      var id := i + 1;
      var location := new ProtoBuf();
      location.FieldVarint(1, id);
      var line := new ProtoBuf();
      line.FieldVarint(1, id);
      location.FieldMessage(4, line);
      WroteStep(old(profile.fields), 4, msgs, i, profile.fields);
      profile.FieldMessage(4, location);
    }
    WroteAll(old(profile.fields), 4, msgs, profile.fields);
  }

  method EmitFunctions(profile: ProtoBuf, nameIdx: seq<nat>, ghost order: seq<Name>, ghost strings: seq<Name>)
    requires profile.Valid() && Covers(strings, order)
    requires |nameIdx| == |order|
    requires forall i :: 0 <= i < |order| ==> nameIdx[i] == IndexOf(strings, order[i])
    modifies profile
    ensures profile.Valid()
    ensures profile.fields == old(profile.fields) + Repeated(5, FunctionMessages(order, strings))
  {
    ghost var msgs := FunctionMessages(order, strings);
    for i := 0 to |nameIdx|
      invariant profile.Valid() && Wrote(old(profile.fields), 5, msgs, i, profile.fields)
    {
      var fn := BuildFunction(i + 1, nameIdx[i]);
      WroteStep(old(profile.fields), 5, msgs, i, profile.fields);
      profile.FieldMessage(5, fn);
    }
    WroteAll(old(profile.fields), 5, msgs, profile.fields);
  }

  method EmitStrings(profile: ProtoBuf, strings: seq<Name>)
    requires profile.Valid()
    modifies profile
    ensures profile.Valid() && profile.fields == old(profile.fields) + Repeated(6, strings)
  {
    for i := 0 to |strings|
      invariant profile.Valid() && Wrote(old(profile.fields), 6, strings, i, profile.fields)
    {
      WroteStep(old(profile.fields), 6, strings, i, profile.fields);
      profile.FieldBytes(6, strings[i]);
    }
    WroteAll(old(profile.fields), 6, strings, profile.fields);
  }

  /** Intern every function name, remembering each one's string index. */
  method InternNames(st: StringTable, order: seq<Name>) returns (nameIdx: seq<nat>)
    requires st.Valid()
    modifies st
    ensures st.Valid() && st.strings == InternedAll(old(st.strings), order)
    ensures |nameIdx| == |order|
    ensures forall i :: 0 <= i < |order| ==>
      nameIdx[i] < |st.strings| && st.strings[nameIdx[i]] == order[i]
  {
    nameIdx := [];
    for i := 0 to |order|
      invariant st.Valid() && st.strings == InternedUpTo(old(st.strings), order, i)
      invariant |nameIdx| == i
      invariant forall k :: 0 <= k < i ==>
        nameIdx[k] < |st.strings| && st.strings[nameIdx[k]] == order[k]
    {
      var idx := st.Intern(order[i]);
      nameIdx := nameIdx + [idx];
    }
  }

  method NewStringTable() returns (st: StringTable, samplesType: nat, countUnit: nat)
    ensures fresh(st) && st.Valid() && st.strings == [[], SAMPLES, COUNT]
    ensures samplesType == 1 && countUnit == 2
  {
    st := new StringTable();
    assert |SAMPLES| == 7 && |COUNT| == 5;
    samplesType := st.Intern(SAMPLES);
    assert st.strings == [[], SAMPLES];
    countUnit := st.Intern(COUNT);
  }

  lemma {:induction false} StringIndices(order: seq<Name>, nameIdx: seq<nat>)
    requires |nameIdx| == |order|
    requires forall i :: 0 <= i < |order| ==>
      nameIdx[i] < |Strings(order)| && Strings(order)[nameIdx[i]] == order[i]
    ensures forall i :: 0 <= i < |order| ==> nameIdx[i] == IndexOf(Strings(order), order[i])
  {
    assert |SAMPLES| == 7 && |COUNT| == 5;
    InternedDistinct([[], SAMPLES, COUNT], order, |order|);
    forall i | 0 <= i < |order| ensures nameIdx[i] == IndexOf(Strings(order), order[i]) {
      DistinctIndex(Strings(order), nameIdx[i]);
    }
  }

  /** The emitting half of `folded_to_pprof`. */
  method EmitProfile(ty: nat, unit: nat, fnIds: map<Name, nat>, order: seq<Name>,
                     parsed: seq<Stack>, nameIdx: seq<nat>, strings: seq<Name>) returns (out: Bytes)
    requires ty == 1 && unit == 2
    requires Numbers(fnIds, order) && Encodable(order, parsed)
    requires order == Order(parsed) && strings == Strings(order)
    requires |nameIdx| == |order|
    requires forall i :: 0 <= i < |order| ==> nameIdx[i] == IndexOf(strings, order[i])
    ensures out == EncodeFields(ProfileFields(parsed))
  {
    var profile := new ProtoBuf();
    var valueType := new ProtoBuf();
    valueType.FieldVarint(1, ty);
    valueType.FieldVarint(2, unit);
    assert valueType.fields == [VarintField(1, 1), VarintField(2, 2)];
    profile.FieldMessage(1, valueType);
    assert profile.fields == Repeated(1, [ValueTypeMessage()]);
    EmitSamples(profile, fnIds, order, parsed);
    EmitLocations(profile, |order|);
    EmitFunctions(profile, nameIdx, order, strings);
    EmitStrings(profile, strings);
    out := profile.buf;
  }

  lemma {:induction false} ParsedEncodable(samples: seq<Stack>)
    requires forall i :: 0 <= i < |samples| ==> WellFormed(samples[i], I64)
    ensures Encodable(Order(samples), samples)
  {
    forall k | 0 <= k < |samples| ensures Covers(Order(samples), samples[k].frames) {
      OrderCovers(samples, k);
    }
  }

  /** `folded_to_pprof`: the emitted bytes read back as exactly the stacks the
      text parses to, for every input text. */
  method FoldedToPprof(folded: Bytes) returns (out: Bytes)
    ensures ReadProfile(out) ==
      Some(Profile([115, 97, 109, 112, 108, 101, 115], [99, 111, 117, 110, 116], Parse(folded, I64)))
  {
    var st, samplesType, countUnit := NewStringTable();
    var fnIds, order, parsed := Collect(folded);
    var nameIdx := InternNames(st, order);
    StringIndices(order, nameIdx);
    ParsedEncodable(parsed);
    out := EmitProfile(samplesType, countUnit, fnIds, order, parsed, nameIdx, st.strings);
    ProfileRoundTrip(parsed);
  }
}
