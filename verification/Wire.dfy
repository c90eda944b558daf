/**
 The Protocol Buffers wire format written by hand in
 crates/neomacs-diagnostics/src/pprof.rs: the writer as a mutable buffer, the
 format as functions, and a reader that undoes it.
 */
module Wire {
  import opened Text

  const TWO64: int := 0x1_0000_0000_0000_0000

  // ------------------------------------------------------------------ varints

  /** Base 128 varint: low seven bits first, high bit set on all but the last. */
  function EncodeVarint(v: nat): (r: Bytes)
    ensures |r| >= 1
  {
    if v < 128 then [v] else [v % 128 + 128] + EncodeVarint(v / 128)
  }

  function ReadVarint(bs: Bytes): (r: Option<(nat, Bytes)>)
    ensures r.Some? ==> |r.value.1| < |bs|
  {
    if bs == [] then None
    else if bs[0] < 128 then Some((bs[0], bs[1..]))
    else match ReadVarint(bs[1..])
      case None => None
      case Some(p) => Some((bs[0] - 128 + 128 * p.0, p.1))
  }

  lemma {:induction false} VarintSelfDelimiting(v: nat, rest: Bytes)
    ensures ReadVarint(EncodeVarint(v) + rest) == Some((v, rest))
  {
    var bs := EncodeVarint(v) + rest;
    if v < 128 {
      assert bs[1..] == rest;
    } else {
      VarintSelfDelimiting(v / 128, rest);
      assert bs[1..] == EncodeVarint(v / 128) + rest;
    }
  }

  function Pow128(k: nat): nat { if k == 0 then 1 else 128 * Pow128(k - 1) }

  lemma {:induction false} VarintLength(v: nat, k: nat)
    requires k >= 1
    ensures |EncodeVarint(v)| <= k <==> v < Pow128(k)
  {
    if k == 1 {
      assert Pow128(1) == 128;
    } else {
      Pow128Positive(k - 1);
      if v >= 128 { VarintLength(v / 128, k - 1); }
    }
  }

  lemma {:induction false} Pow128Positive(k: nat)
    ensures Pow128(k) >= 1 && (k >= 1 ==> Pow128(k) >= 128)
  {
    if k > 0 { Pow128Positive(k - 1); }
  }

  /** Every u64 takes at most ten bytes, and the largest takes exactly ten. */
  lemma {:induction false} VarintAtMostTen(v: nat)
    requires v < TWO64
    ensures |EncodeVarint(v)| <= 10
    ensures |EncodeVarint(TWO64 - 1)| == 10
  {
    assert Pow128(3) == 0x20_0000;
    assert Pow128(6) == 0x400_0000_0000;
    assert Pow128(9) == 0x8000_0000_0000_0000;
    assert Pow128(10) == 0x40_0000_0000_0000_0000;
    VarintLength(v, 10);
    VarintLength(TWO64 - 1, 10);
    VarintLength(TWO64 - 1, 9);
  }

  // ------------------------------------------------------------------- fields

  datatype Field =
    | VarintField(num: nat, value: nat)
    | BytesField(num: nat, payload: Bytes)

  function EncodeField(f: Field): (r: Bytes)
    ensures |r| >= 1
  {
    match f
    case VarintField(num, value) => EncodeVarint(num * 8) + EncodeVarint(value)
    case BytesField(num, payload) => EncodeVarint(num * 8 + 2) + EncodeVarint(|payload|) + payload
  }

  function EncodeFields(fs: seq<Field>): Bytes
  {
    if fs == [] then [] else EncodeField(fs[0]) + EncodeFields(fs[1..])
  }

  function ReadField(bs: Bytes): (r: Option<(Field, Bytes)>)
    ensures r.Some? ==> |r.value.1| < |bs|
  {
    match ReadVarint(bs)
    case None => None
    case Some(tag) =>
      match ReadVarint(tag.1)
      case None => None
      case Some(v) =>
        if tag.0 % 8 == 0 then Some((VarintField(tag.0 / 8, v.0), v.1))
        else if tag.0 % 8 == 2 && v.0 <= |v.1| then
          Some((BytesField(tag.0 / 8, v.1[..v.0]), v.1[v.0..]))
        else None
  }

  function ReadFields(bs: Bytes): Option<seq<Field>>
    decreases |bs|
  {
    if bs == [] then Some([])
    else match ReadField(bs)
      case None => None
      case Some(p) =>
        match ReadFields(p.1)
        case None => None
        case Some(fs) => Some([p.0] + fs)
  }

  lemma {:induction false} FieldSelfDelimiting(f: Field, rest: Bytes)
    ensures ReadField(EncodeField(f) + rest) == Some((f, rest))
  {
    match f
    case VarintField(num, value) =>
      assert EncodeField(f) + rest == EncodeVarint(num * 8) + (EncodeVarint(value) + rest);
      VarintSelfDelimiting(num * 8, EncodeVarint(value) + rest);
      VarintSelfDelimiting(value, rest);
    case BytesField(num, payload) =>
      var tail := EncodeVarint(|payload|) + (payload + rest);
      assert EncodeField(f) + rest == EncodeVarint(num * 8 + 2) + tail;
      VarintSelfDelimiting(num * 8 + 2, tail);
      VarintSelfDelimiting(|payload|, payload + rest);
      assert (payload + rest)[..|payload|] == payload;
      assert (payload + rest)[|payload|..] == rest;
  }

  /** A message splits back into exactly its fields, whatever the payloads hold. */
  lemma {:induction false} FieldsRoundTrip(fs: seq<Field>)
    ensures ReadFields(EncodeFields(fs)) == Some(fs)
  {
    if fs != [] {
      FieldsRoundTrip(fs[1..]);
      FieldSelfDelimiting(fs[0], EncodeFields(fs[1..]));
      assert fs == [fs[0]] + fs[1..];
    }
  }

  lemma {:induction false} EncodeFieldsAppend(a: seq<Field>, b: seq<Field>)
    ensures EncodeFields(a + b) == EncodeFields(a) + EncodeFields(b)
  {
    if a == [] {
      assert a + b == b;
    } else {
      var first, ab := EncodeField(a[0]), a + b;
      assert ab[0] == a[0] && ab[1..] == a[1..] + b;
      EncodeFieldsAppend(a[1..], b);
      AppendAssoc(first, EncodeFields(a[1..]), EncodeFields(b));
    }
  }

  lemma {:induction false} EncodeFieldsSnoc(fs: seq<Field>, f: Field)
    ensures EncodeFields(fs + [f]) == EncodeFields(fs) + EncodeField(f)
  {
    EncodeFieldsAppend(fs, [f]);
    assert [f][1..] == [];
    assert EncodeFields([f]) == EncodeField(f) + [];
  }

  // ----------------------------------------------------------- packed numbers

  function Packed(vs: seq<nat>): Bytes
  {
    if vs == [] then [] else EncodeVarint(vs[0]) + Packed(vs[1..])
  }

  function ReadPacked(bs: Bytes): Option<seq<nat>>
    decreases |bs|
  {
    if bs == [] then Some([])
    else match ReadVarint(bs)
      case None => None
      case Some(p) =>
        match ReadPacked(p.1)
        case None => None
        case Some(vs) => Some([p.0] + vs)
  }

  lemma {:induction false} PackedRoundTrip(vs: seq<nat>)
    ensures ReadPacked(Packed(vs)) == Some(vs)
  {
    if vs != [] {
      PackedRoundTrip(vs[1..]);
      VarintSelfDelimiting(vs[0], Packed(vs[1..]));
      assert vs == [vs[0]] + vs[1..];
    }
  }

  lemma {:induction false} PackedSnoc(vs: seq<nat>, v: nat)
    ensures Packed(vs + [v]) == Packed(vs) + EncodeVarint(v)
  {
    if vs == [] {
      assert [v][1..] == [];
    } else {
      PackedSnoc(vs[1..], v);
      assert (vs + [v])[1..] == vs[1..] + [v];
    }
  }

  // ------------------------------------------------------------------- writer

  /** `ProtoBuf`: a byte buffer that every operation appends to. The ghost
      `fields` are what has been written; `Valid` says the bytes encode them. */
  class ProtoBuf {
    var buf: Bytes
    ghost var fields: seq<Field>

    ghost predicate Valid()
      reads this
    {
      buf == EncodeFields(fields)
    }

    constructor ()
      ensures Valid() && fields == []
    {
      buf := [];
      fields := [];
    }

    /** The byte loop of `varint`. */
    method Varint(v: nat)
      modifies this`buf
      ensures buf == old(buf) + EncodeVarint(v)
    {
      var rest := v;
      ghost var written: Bytes := [];
      while true
        invariant buf == old(buf) + written
        invariant written + EncodeVarint(rest) == EncodeVarint(v)
        decreases rest
      {
        var byte := rest % 128;
        var higher := rest / 128;
        if higher != 0 {
          AppendAssoc(old(buf), written, [byte + 128]);
          AppendAssoc(written, [byte + 128], EncodeVarint(higher));
          buf := buf + [byte + 128];
          written := written + [byte + 128];
          rest := higher;
        } else {
          AppendAssoc(old(buf), written, [byte]);
          buf := buf + [byte];
          return;
        }
      }
    }

    method Tag(field: nat, wire: nat)
      requires wire < 8
      modifies this`buf
      ensures buf == old(buf) + EncodeVarint(field * 8 + wire)
    {
      Varint(field * 8 + wire);
    }

    method FieldVarint(field: nat, value: nat)
      requires Valid()
      modifies this
      ensures Valid() && fields == old(fields) + [VarintField(field, value)]
    {
      AppendAssoc(buf, EncodeVarint(field * 8), EncodeVarint(value));
      EncodeFieldsSnoc(fields, VarintField(field, value));
      Tag(field, 0);
      Varint(value);
      fields := fields + [VarintField(field, value)];
    }

    method FieldBytes(field: nat, bytes: Bytes)
      requires Valid()
      modifies this
      ensures Valid() && fields == old(fields) + [BytesField(field, bytes)]
    {
      ghost var tag, len := EncodeVarint(field * 8 + 2), EncodeVarint(|bytes|);
      AppendAssoc(buf, tag, len);
      AppendAssoc(buf, tag + len, bytes);
      EncodeFieldsSnoc(fields, BytesField(field, bytes));
      Tag(field, 2);
      Varint(|bytes|);
      buf := buf + bytes;
      fields := fields + [BytesField(field, bytes)];
    }

    method FieldMessage(field: nat, msg: ProtoBuf)
      requires Valid() && msg.Valid()
      modifies this
      ensures Valid() && fields == old(fields) + [BytesField(field, EncodeFields(old(msg.fields)))]
    {
      FieldBytes(field, msg.buf);
    }

    method FieldPackedU64(field: nat, values: seq<nat>)
      requires Valid()
      modifies this
      ensures Valid() && fields == old(fields) + [BytesField(field, Packed(values))]
    {
      var inner := new ProtoBuf();
      for i := 0 to |values|
        invariant inner.buf == Packed(values[..i])
        invariant unchanged(this) && fresh(inner)
      {
        PackedSnoc(values[..i], values[i]);
        assert values[..i + 1] == values[..i] + [values[i]];
        inner.Varint(values[i]);
      }
      assert values[..|values|] == values;
      FieldBytes(field, inner.buf);
    }
  }
}
