/**
 Exact font identity (crates/neomacs-display-protocol/src/font.rs): canonical
 variation sets, the durable string key, and a right-to-left reader of the key.
 Text is a sequence of code points.
 */
module FontIdentity {
  import opened Text

  type Char = c: int | 0 <= c < 0x11_0000
  type Str = seq<Char>
  type U32 = n: int | 0 <= n < 0x1_0000_0000

  const HASH: Char := 35
  const AT: Char := 64
  const COMMA: Char := 44
  const EQUALS: Char := 61

  datatype Backend = Fontconfig | CoreText | DirectWrite

  /** One axis coordinate: an OpenType tag and the bits of its f32 value. */
  datatype Coord = Coord(tag: U32, bits: U32)

  // ----------------------------------------------------------- variation sets

  ghost predicate Sorted(cs: seq<Coord>)
  {
    forall i, j :: 0 <= i < j < |cs| ==> cs[i].tag < cs[j].tag
  }

  /** The value an attribute map would hold: the last one given for the tag. */
  function LastValue(cs: seq<Coord>, tag: U32): Option<U32>
  {
    if cs == [] then None
    else
      var last := cs[|cs| - 1];
      if last.tag == tag then Some(last.bits) else LastValue(cs[..|cs| - 1], tag)
  }

  ghost predicate SameValues(a: seq<Coord>, b: seq<Coord>)
  {
    forall tag: U32 :: LastValue(a, tag) == LastValue(b, tag)
  }

  lemma {:induction false} LastValueMember(cs: seq<Coord>, tag: U32)
    ensures LastValue(cs, tag).None? <==> forall i :: 0 <= i < |cs| ==> cs[i].tag != tag
    ensures LastValue(cs, tag).Some? ==> Coord(tag, LastValue(cs, tag).value) in cs
  {
    if cs != [] {
      var init, last := cs[..|cs| - 1], cs[|cs| - 1];
      LastValueMember(init, tag);
      assert cs == init + [last];
    }
  }

  lemma {:induction false} SortedValue(cs: seq<Coord>, i: nat)
    requires Sorted(cs) && i < |cs|
    ensures LastValue(cs, cs[i].tag) == Some(cs[i].bits)
  {
    LastValueMember(cs, cs[i].tag);
    var v := LastValue(cs, cs[i].tag).value;
    var k :| 0 <= k < |cs| && cs[k] == Coord(cs[i].tag, v);
  }

  /** A sorted set is determined by the values it gives each tag. */
  lemma {:induction false} SortedUnique(a: seq<Coord>, b: seq<Coord>)
    requires Sorted(a) && Sorted(b) && SameValues(a, b)
    ensures a == b
  {
    if a == [] {
      if b != [] {
        assert LastValue(a, b[0].tag) == None;
        SortedValue(b, 0);
        assert false;
      }
    } else {
      var x := a[|a| - 1];
      SortedValue(a, |a| - 1);
      LastValueMember(b, x.tag);
      assert b != [];
      var y := b[|b| - 1];
      SortedValue(b, |b| - 1);
      LastValueMember(a, y.tag);
      assert x == y;
      var a', b' := a[..|a| - 1], b[..|b| - 1];
      forall tag: U32 ensures LastValue(a', tag) == LastValue(b', tag) {
        assert LastValue(a, tag) == LastValue(b, tag);
        LastValueMember(a', tag);
        LastValueMember(b', tag);
      }
      SortedUnique(a', b');
      assert a == a' + [x] && b == b' + [y];
    }
  }

  /** With distinct tags the order of the coordinates does not matter. */
  lemma {:induction false} OrderInsensitive(a: seq<Coord>, b: seq<Coord>)
    requires forall i, j :: 0 <= i < j < |a| ==> a[i].tag != a[j].tag
    requires multiset(a) == multiset(b)
    ensures SameValues(a, b)
  {
    forall tag: U32 ensures LastValue(a, tag) == LastValue(b, tag) {
      LastValueMember(a, tag);
      LastValueMember(b, tag);
      assert forall c :: c in b <==> c in multiset(a);
      assert forall c :: c in a <==> c in multiset(a);
    }
  }

  /** `BTreeMap::insert` on the map's entries in key order. */
  function Insert(entries: seq<Coord>, c: Coord): seq<Coord>
  {
    if entries == [] || c.tag < entries[0].tag then [c] + entries
    else if c.tag == entries[0].tag then [c] + entries[1..]
    else [entries[0]] + Insert(entries[1..], c)
  }

  lemma {:induction false} InsertMember(entries: seq<Coord>, c: Coord, x: Coord)
    requires Sorted(entries)
    ensures x in Insert(entries, c) <==> x == c || (x in entries && x.tag != c.tag)
  {
    if entries == [] || c.tag < entries[0].tag {
    } else {
      assert entries == [entries[0]] + entries[1..];
      if c.tag > entries[0].tag { InsertMember(entries[1..], c, x); }
    }
  }

  lemma {:induction false} InsertSorted(entries: seq<Coord>, c: Coord)
    requires Sorted(entries)
    ensures Sorted(Insert(entries, c))
  {
    if entries != [] && c.tag > entries[0].tag {
      var rest := Insert(entries[1..], c);
      InsertSorted(entries[1..], c);
      forall i | 0 <= i < |rest| ensures entries[0].tag < rest[i].tag {
        InsertMember(entries[1..], c, rest[i]);
      }
    }
  }

  lemma {:induction false} InsertValue(entries: seq<Coord>, c: Coord, tag: U32)
    requires Sorted(entries)
    ensures LastValue(Insert(entries, c), tag) == if tag == c.tag then Some(c.bits) else LastValue(entries, tag)
  {
    var r := Insert(entries, c);
    LastValueMember(r, tag);
    LastValueMember(entries, tag);
    InsertSorted(entries, c);
    InsertMember(entries, c, c);
    if LastValue(r, tag).Some? { InsertMember(entries, c, Coord(tag, LastValue(r, tag).value)); }
    if LastValue(entries, tag).Some? {
      var x := Coord(tag, LastValue(entries, tag).value);
      InsertMember(entries, c, x);
      if x in r { var k :| 0 <= k < |r| && r[k] == x; SortedValue(r, k); }
    }
    var k :| 0 <= k < |r| && r[k] == c;
    SortedValue(r, k);
  }

  /** `FontVariationSet::new`: sorted by tag, one value per tag, the last given. */
  method NewVariationSet(coords: seq<Coord>) returns (byTag: seq<Coord>)
    ensures Sorted(byTag) && SameValues(byTag, coords)
  {
    byTag := [];
    for i := 0 to |coords|
      invariant Sorted(byTag) && SameValues(byTag, coords[..i])
    {
      assert coords[..i + 1][..i] == coords[..i];
      forall tag: U32
        ensures LastValue(Insert(byTag, coords[i]), tag) == LastValue(coords[..i + 1], tag)
      {
        InsertValue(byTag, coords[i], tag);
      }
      InsertSorted(byTag, coords[i]);
      byTag := Insert(byTag, coords[i]);
    }
    assert coords[..|coords|] == coords;
  }

  // -------------------------------------------------------------- the key

  function HexDigit(d: nat): Char
    requires d < 16
  {
    if d < 10 then 48 + d else 87 + d
  }

  predicate IsHex(c: Char) { 48 <= c <= 57 || 97 <= c <= 102 }

  function HexValue(c: Char): nat
    requires IsHex(c)
  {
    if c <= 57 then c - 48 else c - 87
  }

  /** `n` in `k` lower-case hexadecimal digits. */
  function Hex(n: nat, k: nat): (r: Str)
    ensures |r| == k && forall i :: 0 <= i < k ==> IsHex(r[i])
  {
    if k == 0 then [] else Hex(n / 16, k - 1) + [HexDigit(n % 16)]
  }

  function UnHex(s: Str): nat
    requires forall i :: 0 <= i < |s| ==> IsHex(s[i])
  {
    if s == [] then 0 else 16 * UnHex(s[..|s| - 1]) + HexValue(s[|s| - 1])
  }

  function Pow16(k: nat): nat { if k == 0 then 1 else 16 * Pow16(k - 1) }

  lemma {:induction false} HexRoundTrip(n: nat, k: nat)
    requires n < Pow16(k)
    ensures UnHex(Hex(n, k)) == n
  {
    if k > 0 {
      HexRoundTrip(n / 16, k - 1);
      assert Hex(n, k)[..k - 1] == Hex(n / 16, k - 1);
    }
  }

  /** The tag's bytes, big endian, each as one character. */
  function TagChars(tag: U32): (r: Str)
    ensures |r| == 4
  {
    [tag / 0x100_0000, tag / 0x1_0000 % 256, tag / 0x100 % 256, tag % 256]
  }

  /** `tag=value`: always thirteen characters. */
  function Item(c: Coord): (r: Str)
    ensures |r| == 13
  {
    TagChars(c.tag) + [EQUALS] + Hex(c.bits, 8)
  }

  /** Empty, or `@item,item,...`. */
  function VariationKey(cs: seq<Coord>): Str
  {
    if cs == [] then []
    else VariationKey(cs[..|cs| - 1]) + [if |cs| == 1 then AT else COMMA] + Item(cs[|cs| - 1])
  }

  /** `path#face@item,item,...`. */
  function StableKey(path: Str, face: nat, cs: seq<Coord>): Str
  {
    path + [HASH] + Decimal(face) + VariationKey(cs)
  }

  // -------------------------------------------------- reading it from the right

  /** The last fourteen characters are a separator and an item. */
  predicate EndsWithItem(key: Str)
  {
    var n := |key|;
    && n >= 14 && key[n - 9] == EQUALS && (key[n - 14] == AT || key[n - 14] == COMMA)
    && forall i :: n - 8 <= i < n ==> IsHex(key[i])
  }

  function LastItem(key: Str): Option<Coord>
    requires EndsWithItem(key)
  {
    var n := |key|;
    var a, b, c, d: int := key[n - 13], key[n - 12], key[n - 11], key[n - 10];
    var bits := UnHex(key[n - 8..]);
    if a < 256 && b < 256 && c < 256 && d < 256 && bits < 0x1_0000_0000 then
      Some(Coord(((a * 256 + b) * 256 + c) * 256 + d, bits))
    else None
  }

  /** `path#digits`. */
  function ReadFace(key: Str): Option<(Str, nat)>
  {
    var k := TrailingDigits(key);
    if k == 0 || k == |key| || key[|key| - k - 1] != HASH then None
    else Some((key[..|key| - k - 1], DecimalValue(key[|key| - k..])))
  }

  function TrailingDigits(key: Str): (k: nat)
    ensures k <= |key|
    ensures forall i :: |key| - k <= i < |key| ==> IsDigit(key[i])
  {
    if key != [] && IsDigit(key[|key| - 1]) then 1 + TrailingDigits(key[..|key| - 1]) else 0
  }

  /** Items are peeled off the right until the one after `@`; what is left is
      the path and the face. */
  function ReadKey(key: Str): Option<(Str, nat, seq<Coord>)>
    decreases |key|
  {
    if !EndsWithItem(key) then ReadPlain(key)
    else
      var rest := key[..|key| - 14];
      match (LastItem(key), if key[|key| - 14] == AT then ReadPlain(rest) else ReadKey(rest))
      case (Some(c), Some(p)) => Some((p.0, p.1, p.2 + [c]))
      case (_, _) => None
  }

  function ReadPlain(key: Str): Option<(Str, nat, seq<Coord>)>
  {
    match ReadFace(key)
    case None => None
    case Some(p) => Some((p.0, p.1, []))
  }

  lemma {:induction false} TrailingAfterHash(path: Str, ds: Bytes)
    requires forall i :: 0 <= i < |ds| ==> IsDigit(ds[i])
    ensures TrailingDigits(path + [HASH] + ds) == |ds|
  {
    if ds != [] {
      var key := path + [HASH] + ds;
      TrailingAfterHash(path, ds[..|ds| - 1]);
      assert key[..|key| - 1] == path + [HASH] + ds[..|ds| - 1];
    }
  }

  lemma {:induction false} FaceRoundTrip(path: Str, face: nat)
    ensures ReadFace(path + [HASH] + Decimal(face)) == Some((path, face))
  {
    var ds, key := Decimal(face), path + [HASH] + Decimal(face);
    TrailingAfterHash(path, ds);
    DecimalRoundTrip(face);
    assert key[..|key| - |ds| - 1] == path && key[|key| - |ds|..] == ds;
  }

  /** A key without variations never looks like it ends in an item: the hash
      before the digits is neither a hex digit nor an equals sign. */
  lemma {:induction false} FaceIsNoItem(path: Str, face: nat)
    ensures !EndsWithItem(path + [HASH] + Decimal(face))
  {
    var ds, key := Decimal(face), path + [HASH] + Decimal(face);
    var n := |key|;
    assert key[n - 1 - |ds|] == HASH;
    if |ds| >= 9 { assert key[n - 9] == ds[|ds| - 9]; }
  }

  lemma {:induction false} TagRoundTrip(tag: U32)
    ensures var t := TagChars(tag);
      (forall i :: 0 <= i < 4 ==> t[i] < 256) && ((t[0] * 256 + t[1] as int) * 256 + t[2]) * 256 + t[3] == tag
  {
    assert tag / 0x100 / 0x100 == tag / 0x1_0000 && tag / 0x1_0000 / 0x100 == tag / 0x100_0000;
  }

  lemma {:induction false} BitsRoundTrip(bits: U32)
    ensures UnHex(Hex(bits, 8)) == bits
  {
    assert Pow16(4) == 0x1_0000;
    assert Pow16(8) == 0x1_0000_0000;
    HexRoundTrip(bits, 8);
  }

  lemma {:induction false} ItemRoundTrip(rest: Str, sep: Char, c: Coord)
    requires sep == AT || sep == COMMA
    ensures var key := rest + [sep] + Item(c);
      && EndsWithItem(key) && LastItem(key) == Some(c)
      && key[|key| - 14] == sep && key[..|key| - 14] == rest
  {
    var key, item := rest + [sep] + Item(c), Item(c);
    var n := |key|;
    var hex, t := Hex(c.bits, 8), TagChars(c.tag);
    assert forall i :: 0 <= i < 13 ==> key[n - 13 + i] == item[i];
    assert forall i :: 0 <= i < 8 ==> item[5 + i] == hex[i];
    forall i | n - 8 <= i < n ensures IsHex(key[i]) {
      assert key[n - 13 + (i - n + 13)] == item[5 + (i - n + 8)] == hex[i - n + 8];
    }
    assert key[n - 9] == item[4];
    assert key[n - 8..] == hex;
    assert item[0] == t[0] && item[1] == t[1] && item[2] == t[2] && item[3] == t[3];
    assert key[n - 13] == item[0] && key[n - 12] == item[1] && key[n - 11] == item[2] && key[n - 10] == item[3];
    TagRoundTrip(c.tag);
    BitsRoundTrip(c.bits);
  }

  lemma {:induction false} KeySnoc(path: Str, face: nat, cs: seq<Coord>)
    requires cs != []
    ensures StableKey(path, face, cs)
         == StableKey(path, face, cs[..|cs| - 1]) + [if |cs| == 1 then AT else COMMA] + Item(cs[|cs| - 1])
  {
    var plain, init := path + [HASH] + Decimal(face), VariationKey(cs[..|cs| - 1]);
    var sep := [if |cs| == 1 then AT else COMMA];
    AppendAssoc(plain, init, sep);
    AppendAssoc(plain, init + sep, Item(cs[|cs| - 1]));
  }

  lemma {:induction false} PlainRoundTrip(path: Str, face: nat)
    ensures !EndsWithItem(StableKey(path, face, []))
    ensures ReadPlain(StableKey(path, face, [])) == Some((path, face, []))
  {
    assert StableKey(path, face, []) == path + [HASH] + Decimal(face);
    FaceIsNoItem(path, face);
    FaceRoundTrip(path, face);
  }

  lemma {:induction false} ReadStep(rest: Str, sep: Char, c: Coord, p: (Str, nat, seq<Coord>))
    requires sep == AT || sep == COMMA
    requires (if sep == AT then ReadPlain(rest) else ReadKey(rest)) == Some(p)
    ensures ReadKey(rest + [sep] + Item(c)) == Some((p.0, p.1, p.2 + [c]))
  {
    ItemRoundTrip(rest, sep, c);
  }

  /** One more coordinate, when the key before it reads back. */
  lemma {:induction false} KeyStep(path: Str, face: nat, cs: seq<Coord>)
    requires cs != []
    requires var rest := StableKey(path, face, cs[..|cs| - 1]);
      (if |cs| == 1 then ReadPlain(rest) else ReadKey(rest)) == Some((path, face, cs[..|cs| - 1]))
    ensures ReadKey(StableKey(path, face, cs)) == Some((path, face, cs))
  {
    var init, c, sep := cs[..|cs| - 1], cs[|cs| - 1], if |cs| == 1 then AT else COMMA;
    ReadStep(StableKey(path, face, init), sep, c, (path, face, init));
    KeySnoc(path, face, cs);
    assert cs == init + [c];
  }

  /** The key reads back from the right as its path, face and coordinates. */
  lemma {:induction false} KeyRoundTrip(path: Str, face: nat, cs: seq<Coord>)
    ensures ReadKey(StableKey(path, face, cs)) == Some((path, face, cs))
  {
    PlainRoundTrip(path, face);
    if cs != [] {
      if |cs| == 1 { assert cs[..0] == []; } else { KeyRoundTrip(path, face, cs[..|cs| - 1]); }
      KeyStep(path, face, cs);
    }
  }

  /** How a key is spelled: a hash before the face, an at sign before the first coordinate
      and commas before the others. */
  lemma {:induction false} KeySpelled(path: Str, face: nat, cs: seq<Coord>, c: Coord)
    ensures StableKey(path, face, []) == path + [0x23] + Decimal(face)
    ensures StableKey(path, face, cs + [c])
         == StableKey(path, face, cs) + [if cs == [] then 0x40 else 0x2C] + Item(c)
  {
    assert StableKey(path, face, []) == path + [0x23] + Decimal(face) + [];
    assert (cs + [c])[..|cs|] == cs;
    KeySnoc(path, face, cs + [c]);
  }

  /** How a coordinate is spelled: the four bytes of its tag, an equals sign, and its value
      in eight lower-case hexadecimal digits. */
  lemma {:induction false} ItemSpelled(c: Coord, k: nat)
    requires k < 8
    ensures Item(c)[..4] == TagChars(c.tag) && Item(c)[4] == 0x3D
    ensures Pow16(7 - k) > 0
    ensures var d := c.bits / Pow16(7 - k) % 16; Item(c)[5 + k] == if d < 10 then 0x30 + d else 0x61 + d - 10
  {
    HexAt(c.bits, 8, k);
    assert Item(c)[5 + k] == Hex(c.bits, 8)[k];
  }

  lemma {:induction false} PowPositive(k: nat)
    ensures Pow16(k) > 0
  {
    if k > 0 { PowPositive(k - 1); }
  }

  lemma {:induction false} DivideTwice(n: nat, p: nat)
    requires p > 0
    ensures n / 16 / p == n / (16 * p)
  {
    var q, r := n / 16 / p, n / 16 % p;
    assert n / 16 == q * p + r;
    var s := n % 16;
    assert n == 16 * (q * p + r) + s;
    assert n == q * (16 * p) + (16 * r + s);
    assert 0 <= 16 * r + s < 16 * p;
    Quotient(n, 16 * p, q, 16 * r + s);
  }

  lemma {:induction false} Quotient(n: nat, d: nat, q: nat, r: nat)
    requires d > 0 && n == q * d + r && r < d
    ensures n / d == q
  {
    var k := n / d - q;
    assert k * d == (n / d) * d - q * d;
    if k != 0 { Multiple(k, d); }
  }

  lemma {:induction false} Multiple(k: int, d: int)
    requires d > 0 && k != 0
    ensures k * d >= d || k * d <= -d
  {
    if k > 0 { assert (k - 1) * d >= 0; } else { assert (-k - 1) * d >= 0; }
  }

  lemma {:induction false} HexAt(n: nat, k: nat, i: nat)
    requires i < k
    ensures Pow16(k - 1 - i) > 0 && Hex(n, k)[i] == HexDigit(n / Pow16(k - 1 - i) % 16)
  {
    PowPositive(k - 1 - i);
    if i < k - 1 {
      HexAt(n / 16, k - 1, i);
      PowPositive(k - 2 - i);
      DivideTwice(n, Pow16(k - 2 - i));
    } else {
      assert Pow16(0) == 1;
    }
  }

  // ---------------------------------------------------------------- identities

  datatype Identity = Identity(
    backend: Backend,
    stableKey: Str,
    filePath: Option<Str>,
    faceSelector: U32,
    postscriptName: Option<Str>,
    variations: seq<Coord>)
  {
    /** The collection face a font-file parser understands. */
    function FileFaceIndex(): U32
    {
      if backend == Fontconfig then faceSelector % 0x1_0000 else faceSelector
    }

    /** `PartialEq` and `Hash` look at the key alone. */
    predicate Equals(other: Identity) { stableKey == other.stableKey }
  }

  /** `append_variation_key`. */
  method AppendVariationKey(stableKey: Str, coords: seq<Coord>) returns (key: Str)
    ensures key == stableKey + VariationKey(coords)
  {
    key := stableKey;
    if coords == [] { return; }
    key := key + [AT];
    for index := 0 to |coords|
      invariant key == stableKey + (if index == 0 then [AT] else VariationKey(coords[..index]))
    {
      ghost var before := VariationKey(coords[..index]);
      ghost var sep := [if index == 0 then AT else COMMA];
      if index != 0 { key := key + [COMMA]; }
      var item := Item(coords[index]);
      AppendAssoc(stableKey, before, sep);
      AppendAssoc(stableKey, before + sep, item);
      assert coords[..index + 1][..index] == coords[..index];
      assert index == 0 ==> before + sep == [AT];
      key := key + item;
    }
    assert coords[..|coords|] == coords;
  }

  /** An identity for `path` and `coords`, whatever backend found it. */
  ghost predicate FileBacked(id: Identity, path: Str, coords: seq<Coord>)
  {
    && id.filePath == Some(path)
    && Sorted(id.variations) && SameValues(id.variations, coords)
    && id.stableKey == StableKey(path, id.FileFaceIndex(), id.variations)
  }

  method FromFileWithVariations(path: Str, faceIndex: U32, postscriptName: Option<Str>, coords: seq<Coord>)
    returns (id: Identity)
    ensures FileBacked(id, path, coords)
    ensures id.backend == Fontconfig && id.faceSelector == faceIndex && id.postscriptName == postscriptName
  {
    var variations := NewVariationSet(coords);
    var collectionFace := faceIndex % 0x1_0000;
    var key := AppendVariationKey(path + [HASH] + Decimal(collectionFace), variations);
    id := Identity(Fontconfig, key, Some(path), faceIndex, postscriptName, variations);
  }

  method FromPlatformFileWithVariations(backend: Backend, path: Str, faceSelector: U32,
                                        postscriptName: Option<Str>, coords: seq<Coord>)
    returns (id: Identity)
    ensures FileBacked(id, path, coords)
    ensures id.backend == backend && id.faceSelector == faceSelector && id.postscriptName == postscriptName
  {
    if backend == Fontconfig {
      id := FromFileWithVariations(path, faceSelector, postscriptName, coords);
      return;
    }
    var variations := NewVariationSet(coords);
    var key := AppendVariationKey(path + [HASH] + Decimal(faceSelector), variations);
    id := Identity(backend, key, Some(path), faceSelector, postscriptName, variations);
  }

  /** Font identity is exact: two file-backed identities from any backends are
      equal if and only if they name the same file, the same collection face and
      the same value for every axis. */
  lemma {:induction false} IdentityIsExact(a: Identity, pathA: Str, coordsA: seq<Coord>, b: Identity, pathB: Str,
                                           coordsB: seq<Coord>)
    requires FileBacked(a, pathA, coordsA) && FileBacked(b, pathB, coordsB)
    ensures a.Equals(b) <==>
      pathA == pathB && a.FileFaceIndex() == b.FileFaceIndex() && SameValues(coordsA, coordsB)
  {
    KeyRoundTrip(pathA, a.FileFaceIndex(), a.variations);
    KeyRoundTrip(pathB, b.FileFaceIndex(), b.variations);
    if SameValues(coordsA, coordsB) {
      forall tag: U32 ensures LastValue(a.variations, tag) == LastValue(b.variations, tag) {
        assert LastValue(coordsA, tag) == LastValue(coordsB, tag);
      }
      SortedUnique(a.variations, b.variations);
    }
    if a.variations == b.variations {
      forall tag: U32 ensures LastValue(coordsA, tag) == LastValue(coordsB, tag) {
        assert LastValue(a.variations, tag) == LastValue(coordsA, tag);
      }
    }
  }

  /** Which face of the file a selector names: Fontconfig's by its low sixteen bits, any
      other backend's as it is. */
  lemma {:induction false} SelectorsAgree(a: Identity, b: Identity, path: Str, coords: seq<Coord>)
    requires FileBacked(a, path, coords) && FileBacked(b, path, coords)
    ensures a.backend == Fontconfig && b.backend == Fontconfig ==>
      (a.Equals(b) <==> exists k: int :: a.faceSelector == b.faceSelector + 65536 * k)
    ensures a.backend != Fontconfig && b.backend != Fontconfig ==>
      (a.Equals(b) <==> a.faceSelector == b.faceSelector)
    ensures a.backend == Fontconfig && b.backend != Fontconfig ==>
      (a.Equals(b) <==> b.faceSelector < 65536 && exists k: int :: a.faceSelector == b.faceSelector + 65536 * k)
  {
    IdentityIsExact(a, path, coords, b, path, coords);
    SameRemainder(a.faceSelector, b.faceSelector);
  }

  lemma {:induction false} SameRemainder(a: nat, b: nat)
    ensures a % 65536 == b % 65536 <==> exists k: int :: a == b + 65536 * k
  {
    if a % 65536 == b % 65536 {
      var k := a / 65536 - b / 65536;
      assert a == b + 65536 * k;
    }
    forall k: int | a == b + 65536 * k ensures a % 65536 == b % 65536 { }
  }
}
