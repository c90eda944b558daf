/**
 What `trim` removes from a text, character by character: the byte patterns that
 Folded looks for are the UTF-8 encodings of the white space characters.
 */
module FoldedTrim {
  import opened Text
  import opened Folded

  type Scalar = c: int | 0 <= c < 0x11_0000

  /** The characters of Unicode property White_Space. */
  predicate IsWhite(c: Scalar)
  {
    9 <= c <= 13 || c == 0x20 || c == 0x85 || c == 0xA0 || c == 0x1680 || 0x2000 <= c <= 0x200A
    || c == 0x2028 || c == 0x2029 || c == 0x202F || c == 0x205F || c == 0x3000
  }

  function Utf8(c: Scalar): Bytes
  {
    if c < 0x80 then [c]
    else if c < 0x800 then [0xC0 + c / 64, 0x80 + c % 64]
    else if c < 0x1_0000 then [0xE0 + c / 4096, 0x80 + c / 64 % 64, 0x80 + c % 64]
    else [0xF0 + c / 262144, 0x80 + c / 4096 % 64, 0x80 + c / 64 % 64, 0x80 + c % 64]
  }

  function Encode(cs: seq<Scalar>): Bytes
  {
    if cs == [] then [] else Utf8(cs[0]) + Encode(cs[1..])
  }

  predicate AllWhite(cs: seq<Scalar>) { forall i :: 0 <= i < |cs| ==> IsWhite(cs[i]) }

  lemma {:induction false} EncodeAppend(a: seq<Scalar>, b: seq<Scalar>)
    ensures Encode(a + b) == Encode(a) + Encode(b)
  {
    if a == [] {
      assert a + b == b;
    } else {
      assert (a + b)[1..] == a[1..] + b;
      EncodeAppend(a[1..], b);
      AppendAssoc(Utf8(a[0]), Encode(a[1..]), Encode(b));
    }
  }

  lemma {:induction false} EncodeOne(c: Scalar)
    ensures Encode([c]) == Utf8(c)
  {
    assert Encode([c][1..]) == [];
  }

  /** The bytes of a character and the digits of its number to base 64. */
  lemma {:induction false} ThreeBytes(c: Scalar, a: int, b: int, d: int)
    requires 0x800 <= c < 0x1_0000 && a == c / 4096 && b == c / 64 % 64 && d == c % 64
    ensures c == 4096 * a + 64 * b + d && 0 <= a < 16 && 0 <= b < 64 && 0 <= d < 64
  {
    assert c / 64 / 64 == c / 4096;
  }

  /** A text starts with a white space character exactly when its first character is
      one. */
  lemma {:induction false} HeadOfChar(c: Scalar, rest: Bytes)
    ensures WhiteHead(Utf8(c) + rest) == if IsWhite(c) then |Utf8(c)| else 0
  {
    if 0x800 <= c < 0x1_0000 { ThreeBytes(c, c / 4096, c / 64 % 64, c % 64); }
  }

  lemma {:induction false} TailOfChar(rest: Bytes, c: Scalar)
    ensures WhiteTail(rest + Utf8(c)) == if IsWhite(c) then |Utf8(c)| else 0
  {
    if 0x800 <= c < 0x1_0000 { ThreeBytes(c, c / 4096, c / 64 % 64, c % 64); }
  }

  lemma {:induction false} TrimFront(white: seq<Scalar>, rest: Bytes)
    requires AllWhite(white)
    ensures TrimStart(Encode(white) + rest) == TrimStart(rest)
  {
    if white == [] {
      assert [] + rest == rest;
    } else {
      var c, more := white[0], Encode(white[1..]);
      HeadOfChar(c, more + rest);
      AppendAssoc(Utf8(c), more, rest);
      assert (Utf8(c) + (more + rest))[|Utf8(c)|..] == more + rest;
      assert |Utf8(c)| > 0;
      TrimFront(white[1..], rest);
    }
  }

  lemma {:induction false} TrimBack(rest: Bytes, white: seq<Scalar>)
    requires AllWhite(white)
    ensures TrimEnd(rest + Encode(white)) == TrimEnd(rest)
  {
    if white == [] {
      assert rest + [] == rest;
    } else {
      var init, c := white[..|white| - 1], white[|white| - 1];
      assert white == init + [c];
      EncodeAppend(init, [c]);
      EncodeOne(c);
      AppendAssoc(rest, Encode(init), Utf8(c));
      TailOfChar(rest + Encode(init), c);
      assert (rest + Encode(init) + Utf8(c))[..|rest + Encode(init)|] == rest + Encode(init);
      assert |Utf8(c)| > 0;
      TrimBack(rest, init);
    }
  }

  /** Nothing is trimmed from a text that neither starts nor ends with white space. */
  lemma {:induction false} NothingToTrim(cs: seq<Scalar>)
    requires cs != [] ==> !IsWhite(cs[0]) && !IsWhite(cs[|cs| - 1])
    ensures TrimStart(Encode(cs)) == Encode(cs) && TrimEnd(Encode(cs)) == Encode(cs)
  {
    if cs != [] {
      var init, c := cs[..|cs| - 1], cs[|cs| - 1];
      HeadOfChar(cs[0], Encode(cs[1..]));
      assert cs == init + [c];
      EncodeAppend(init, [c]);
      EncodeOne(c);
      TailOfChar(Encode(init), c);
    }
  }

  /** `trim` takes exactly the white space characters off both ends. */
  lemma {:induction false} TrimMeaning(before: seq<Scalar>, text: seq<Scalar>, after: seq<Scalar>)
    requires AllWhite(before) && AllWhite(after)
    requires text != [] ==> !IsWhite(text[0]) && !IsWhite(text[|text| - 1])
    ensures Trim(Encode(before + text + after)) == Encode(text)
  {
    EncodeAppend(before + text, after);
    EncodeAppend(before, text);
    AppendAssoc(Encode(before), Encode(text), Encode(after));
    TrimFront(before, Encode(text) + Encode(after));
    if text == [] {
      assert [] + Encode(after) == Encode(after) + [];
      TrimFront(after, []);
    } else {
      HeadOfChar(text[0], Encode(text[1..]) + Encode(after));
      AppendAssoc(Utf8(text[0]), Encode(text[1..]), Encode(after));
      TrimBack(Encode(text), after);
      NothingToTrim(text);
    }
  }
}
