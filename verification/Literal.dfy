/**
 Rust string literals: the printer `rust_string_literal` of
 scripts/extract_gnu_defun_docs.py and the lexer `find_raw_string` /
 `parse_string_literal` of scripts/convert-melpa-case-constructors.py.
 */
module Literal {
  import opened Text

  // ----------------------------------------------------------------- printer

  function Hashes(n: nat): string { seq(n, i => '#') }

  /** A control character that a raw literal may not hold. */
  predicate HasControl(s: string)
  {
    exists i :: 0 <= i < |s| && s[i] as int < 32 && s[i] != '\n' && s[i] != '\t'
  }

  /** `s.replace(c, to)` for a one-character pattern. */
  function Replace(s: string, c: char, to: string): string
  {
    if s == [] then [] else (if s[0] == c then to else [s[0]]) + Replace(s[1..], c, to)
  }

  function Raw(hashes: string, s: string): string { "r" + hashes + "\"" + s + "\"" + hashes }

  function Quote(e: string): string { "\"" + e + "\"" }

  /** The first delimiter of the list that the body does not contain. */
  function FirstUnused(s: string, candidates: seq<string>): Option<string>
  {
    if candidates == [] then None
    else if !Contains(s, "\"" + candidates[0]) then Some(candidates[0])
    else FirstUnused(s, candidates[1..])
  }

  function ReplaceChain(s: string): string
  {
    Replace(Replace(Replace(Replace(s, '\\', "\\\\"), '\"', "\\\""), '\n', "\\n"), '\t', "\\t")
  }

  function RustStringLiteral(s: string): string
  {
    var hashes :=
      if !Contains(s, "\"#") && !HasControl(s) then FirstUnused(s, ["#", "##", "###"]) else None;
    if hashes.Some? then Raw(hashes.value, s) else Quote(ReplaceChain(s))
  }

  function EscapeChar(c: char): (r: string)
    ensures r != []
  {
    if c == '\\' then "\\\\" else if c == '\"' then "\\\"" else if c == '\n' then "\\n"
    else if c == '\t' then "\\t" else [c]
  }

  function Escape(s: string): string
  {
    if s == [] then [] else EscapeChar(s[0]) + Escape(s[1..])
  }

  lemma {:induction false} ReplaceAppend(a: string, b: string, c: char, to: string)
    ensures Replace(a + b, c, to) == Replace(a, c, to) + Replace(b, c, to)
  {
    if a == [] {
      assert a + b == b;
    } else {
      assert (a + b)[1..] == a[1..] + b;
      ReplaceAppend(a[1..], b, c, to);
      AppendAssoc(if a[0] == c then to else [a[0]], Replace(a[1..], c, to), Replace(b, c, to));
    }
  }

  lemma {:induction false} ReplaceChar(x: char, c: char, to: string)
    ensures Replace([x], c, to) == if x == c then to else [x]
  {
    assert Replace([x][1..], c, to) == [];
  }

  lemma {:induction false} ReplacePair(x: char, y: char, c: char, to: string)
    ensures Replace([x, y], c, to) == (if x == c then to else [x]) + (if y == c then to else [y])
  {
    assert [x, y][1..] == [y];
    ReplaceChar(y, c, to);
  }

  /** On one character the four replacements do not disturb each other. */
  lemma {:induction false} ChainChar(c: char)
    ensures ReplaceChain([c]) == EscapeChar(c)
  {
    ReplaceChar(c, '\\', "\\\\");
    if c == '\\' {
      ReplacePair('\\', '\\', '\"', "\\\"");
      ReplacePair('\\', '\\', '\n', "\\n");
      ReplacePair('\\', '\\', '\t', "\\t");
    } else {
      ReplaceChar(c, '\"', "\\\"");
      if c == '\"' {
        ReplacePair('\\', '\"', '\n', "\\n");
        ReplacePair('\\', '\"', '\t', "\\t");
      } else {
        ReplaceChar(c, '\n', "\\n");
        ReplaceChar(c, '\t', "\\t");
        if c == '\n' { ReplacePair('\\', 'n', '\t', "\\t"); }
      }
    }
  }

  lemma {:induction false} ChainAppend(a: string, b: string)
    ensures ReplaceChain(a + b) == ReplaceChain(a) + ReplaceChain(b)
  {
    ReplaceAppend(a, b, '\\', "\\\\");
    var a1, b1 := Replace(a, '\\', "\\\\"), Replace(b, '\\', "\\\\");
    ReplaceAppend(a1, b1, '\"', "\\\"");
    var a2, b2 := Replace(a1, '\"', "\\\""), Replace(b1, '\"', "\\\"");
    ReplaceAppend(a2, b2, '\n', "\\n");
    ReplaceAppend(Replace(a2, '\n', "\\n"), Replace(b2, '\n', "\\n"), '\t', "\\t");
  }

  /** The chain of four replaces is one map over the characters. */
  lemma {:induction false} ChainIsEscape(s: string)
    ensures ReplaceChain(s) == Escape(s)
  {
    if s != [] {
      assert s == [s[0]] + s[1..];
      ChainAppend([s[0]], s[1..]);
      ChainChar(s[0]);
      ChainIsEscape(s[1..]);
    }
  }

  /** Of the three delimiters only the first is ever used. */
  lemma {:induction false} LiteralForm(s: string)
    ensures RustStringLiteral(s) ==
      if Contains(s, "\"#") || HasControl(s) then Quote(Escape(s)) else Raw("#", s)
  {
    ChainIsEscape(s);
    assert "\"" + "#" == "\"#";
  }

  // ------------------------------------------------------------------- lexer

  predicate Occurs(text: string, pat: string, j: nat)
  {
    j + |pat| <= |text| && forall k :: 0 <= k < |pat| ==> pat[k] == text[j + k]
  }

  function Closing(h: nat): string { "\"" + Hashes(h) }

  /** A raw literal with `h` hashes starts at `start` and its closing delimiter is
      the first one, at `j`. */
  ghost predicate RawAt(text: string, start: nat, h: nat, j: nat)
  {
    && Occurs(text, "r" + Hashes(h) + "\"", start)
    && start + h + 2 <= j && Occurs(text, Closing(h), j)
    && forall k :: start + h + 2 <= k < j ==> !Occurs(text, Closing(h), k)
  }

  /** Escape pairs and plain characters, no bare quote. */
  predicate QuotedBody(b: string)
  {
    b == [] || (if b[0] == '\\' then |b| >= 2 && QuotedBody(b[2..]) else b[0] != '\"' && QuotedBody(b[1..]))
  }

  /** The rest of a quoted literal, from `i` to just after its closing quote. */
  predicate QuotedFrom(text: string, i: nat, end: nat)
  {
    i < end <= |text| && text[end - 1] == '\"' && QuotedBody(text[i..end - 1])
  }

  predicate QuotedAt(text: string, start: nat, end: nat)
  {
    start < |text| && text[start] == '\"' && QuotedFrom(text, start + 1, end)
  }

  lemma {:induction false} QuotedStep(text: string, i: nat, end: nat)
    requires i < |text|
    ensures QuotedFrom(text, i, end) <==>
      if text[i] == '\\' then QuotedFrom(text, i + 2, end)
      else if text[i] == '\"' then end == i + 1
      else QuotedFrom(text, i + 1, end)
  {
    if i + 1 < end <= |text| {
      var b := text[i..end - 1];
      assert b[1..] == text[i + 1..end - 1];
      if i + 2 < end { assert b[2..] == text[i + 2..end - 1]; }
    }
  }

  /** A string literal occupies `text[start..end]`. */
  ghost predicate LiteralAt(text: string, start: nat, end: nat)
  {
    (exists h: nat, j: nat :: RawAt(text, start, h, j) && end == j + 1 + h) || QuotedAt(text, start, end)
  }

  /** `text.find(pat, start)`. */
  method Find(text: string, pat: string, start: nat) returns (j: int)
    requires start <= |text|
    ensures j == -1 || start <= j
    ensures j >= 0 ==> Occurs(text, pat, j) && forall k :: start <= k < j ==> !Occurs(text, pat, k)
    ensures j == -1 ==> forall k :: start <= k ==> !Occurs(text, pat, k)
  {
    for k := start to |text| + 1
      invariant forall i :: start <= i < k ==> !Occurs(text, pat, i)
    {
      if Occurs(text, pat, k) { return k; }
    }
    return -1;
  }

  lemma {:induction false} RawHashes(text: string, start: nat, h: nat)
    requires start + h + 2 <= |text|
    ensures Occurs(text, "r" + Hashes(h) + "\"", start) <==>
      text[start] == 'r' && text[start + 1 + h] == '\"' && forall k :: start < k <= start + h ==> text[k] == '#'
  {
    var head := "r" + Hashes(h) + "\"";
    assert |head| == h + 2 && head[0] == 'r' && head[h + 1] == '\"';
    assert forall k :: 0 < k <= h ==> head[k] == '#';
    if Occurs(text, head, start) {
      forall k | start < k <= start + h ensures text[k] == '#' { assert head[k - start] == text[start + (k - start)]; }
      assert head[h + 1] == text[start + (h + 1)];
    }
  }

  method FindRawString(text: string, start: nat) returns (r: Option<(string, nat)>)
    ensures r.Some? ==> start < r.value.1 <= |text| && r.value.0 == text[start..r.value.1]
    ensures r.Some? ==> exists h: nat, j: nat :: RawAt(text, start, h, j) && r.value.1 == j + 1 + h
    ensures r.None? ==> forall h: nat, j: nat :: !RawAt(text, start, h, j)
  {
    forall h: nat, j: nat | RawAt(text, start, h, j) ensures start < |text| && text[start] == 'r' {
      RawHashes(text, start, h);
    }
    if start >= |text| || text[start] != 'r' { return None; }
    var i, hashes := start + 1, 0;
    while i < |text| && text[i] == '#'
      invariant i == start + 1 + hashes <= |text|
      invariant forall k :: start < k < i ==> text[k] == '#'
    {
      hashes := hashes + 1;
      i := i + 1;
    }
    forall h: nat, j: nat | RawAt(text, start, h, j) ensures i < |text| && text[i] == '\"' && h == hashes {
      RawHashes(text, start, h);
    }
    if i >= |text| || text[i] != '\"' { return None; }
    i := i + 1;
    var j := Find(text, Closing(hashes), i);
    if j < 0 { return None; }
    RawHashes(text, start, hashes);
    assert RawAt(text, start, hashes, j);
    return Some((text[start..j + 1 + hashes], j + 1 + hashes));
  }

  /** The scan for the closing quote. */
  method FindQuote(text: string, start: nat) returns (r: Option<nat>)
    ensures r.Some? ==> QuotedFrom(text, start, r.value)
    ensures r.None? ==> forall end: nat :: !QuotedFrom(text, start, end)
  {
    var i := start;
    while i < |text|
      invariant forall end: nat :: QuotedFrom(text, start, end) <==> QuotedFrom(text, i, end)
    {
      forall end: nat { QuotedStep(text, i, end); }
      if text[i] == '\\' {
        i := i + 2;
        continue;
      }
      if text[i] == '\"' { return Some(i + 1); }
      i := i + 1;
    }
    return None;
  }

  method ParseStringLiteral(text: string, start: nat) returns (r: Option<(string, nat)>)
    ensures r.Some? ==> start < r.value.1 <= |text| && r.value.0 == text[start..r.value.1]
    ensures r.Some? ==> LiteralAt(text, start, r.value.1)
    ensures r.None? ==> forall end: nat :: !LiteralAt(text, start, end)
  {
    r := FindRawString(text, start);
    if r.Some? { return; }
    if start >= |text| || text[start] != '\"' { return None; }
    var end := FindQuote(text, start + 1);
    if end.Some? { return Some((text[start..end.value], end.value)); }
  }

  lemma {:induction false} QuotedUnique(text: string, i: nat, e: nat, e': nat)
    requires QuotedFrom(text, i, e) && QuotedFrom(text, i, e')
    ensures e == e'
    decreases e - i
  {
    QuotedStep(text, i, e);
    QuotedStep(text, i, e');
    if text[i] != '\"' { QuotedUnique(text, if text[i] == '\\' then i + 2 else i + 1, e, e'); }
  }

  lemma {:induction false} RawUnique(text: string, start: nat, h: nat, j: nat, h': nat, j': nat)
    requires RawAt(text, start, h, j) && RawAt(text, start, h', j')
    ensures h == h' && j == j'
  {
    RawHashes(text, start, h);
    RawHashes(text, start, h');
  }

  /** At most one literal starts at a place. */
  lemma {:induction false} LiteralUnique(text: string, start: nat, e: nat, e': nat)
    requires LiteralAt(text, start, e) && LiteralAt(text, start, e')
    ensures e == e'
  {
    if h: nat, j: nat :| RawAt(text, start, h, j) && e == j + 1 + h {
      RawHashes(text, start, h);
      var h': nat, j': nat :| RawAt(text, start, h', j') && e' == j' + 1 + h';
      RawUnique(text, start, h, j, h', j');
    } else {
      assert QuotedAt(text, start, e);
      if h: nat, j: nat :| RawAt(text, start, h, j) && e' == j + 1 + h {
        RawHashes(text, start, h);
        assert false;
      }
      QuotedUnique(text, start + 1, e, e');
    }
  }

  // -------------------------------------------------------------- round trip

  /** The text that a quoted body denotes; None for an escape the printer never writes. */
  function Unescape(b: string): Option<string>
  {
    if b == [] then Some([])
    else if b[0] != '\\' then
      var rest := Unescape(b[1..]);
      if rest.Some? then Some([b[0]] + rest.value) else None
    else if |b| < 2 then None
    else
      var rest := Unescape(b[2..]);
      if rest.None? then None
      else if b[1] == 'n' then Some("\n" + rest.value)
      else if b[1] == 't' then Some("\t" + rest.value)
      else if b[1] == '\\' || b[1] == '\"' then Some([b[1]] + rest.value)
      else None
  }

  function LeadingHashes(s: string): nat
  {
    if s != [] && s[0] == '#' then 1 + LeadingHashes(s[1..]) else 0
  }

  /** The string a Rust literal denotes. */
  function Denotes(lit: string): Option<string>
  {
    if lit != [] && lit[0] == 'r' then
      var h := LeadingHashes(lit[1..]);
      if |lit| < 2 * h + 3 then None else Some(lit[h + 2..|lit| - 1 - h])
    else if |lit| < 2 then None else Unescape(lit[1..|lit| - 1])
  }

  lemma {:induction false} EscapedBody(s: string)
    ensures QuotedBody(Escape(s)) && Unescape(Escape(s)) == Some(s)
  {
    if s != [] {
      EscapedBody(s[1..]);
      var c, e := EscapeChar(s[0]), Escape(s[1..]);
      assert (c + e)[|c|..] == e;
      assert s == [s[0]] + s[1..];
    }
  }

  lemma {:induction false} NotContained(s: string, sub: string, k: nat)
    requires k + |sub| <= |s| && s[k..k + |sub|] == sub
    ensures Contains(s, sub)
  {
    if k > 0 {
      assert s[1..][k - 1..k - 1 + |sub|] == sub;
      NotContained(s[1..], sub, k - 1);
    } else {
      assert s[..|sub|] == sub;
    }
  }

  /** A closing delimiter that starts inside an occurrence of `s` lies in `s`, or
      uses the character after it. */
  lemma {:induction false} NoEarlyClose(text: string, start: nat, s: string, k: nat)
    requires Occurs(text, s, start) && !Contains(s, "\"#") && start <= k < start + |s| < |text|
    requires text[start + |s|] == '\"'
    ensures !(text[k] == '\"' && text[k + 1] == '#')
  {
    var i := k - start;
    assert s[i] == text[start + i];
    if text[k] == '\"' && text[k + 1] == '#' {
      assert i + 1 < |s| && s[i + 1] == text[start + (i + 1)];
      assert s[i..i + 2] == "\"#";
      NotContained(s, "\"#", i);
    }
  }

  lemma {:induction false} RawInPlace(text: string, start: nat, s: string)
    requires start + |s| + 5 <= |text| && Occurs(text, s, start + 3) && !Contains(s, "\"#")
    requires text[start] == 'r' && text[start + 1] == '#' && text[start + 2] == '\"'
    requires text[start + 3 + |s|] == '\"' && text[start + 4 + |s|] == '#'
    ensures RawAt(text, start, 1, start + 3 + |s|)
  {
    var j := start + 3 + |s|;
    RawHashes(text, start, 1);
    var close := Closing(1);
    assert close == ['\"', '#'];
    forall k | start + 3 <= k < j ensures !Occurs(text, close, k) {
      assert Occurs(text, close, k) ==> close[0] == text[k + 0] && close[1] == text[k + 1];
      NoEarlyClose(text, start + 3, s, k);
    }
  }

  lemma {:induction false} RawDenotes(s: string)
    ensures Denotes(Raw("#", s)) == Some(s)
  {
    var lit := Raw("#", s);
    assert lit == "r#\"" + s + "\"#";
    assert lit[1] == '#' && lit[2] == '\"';
    var tail := lit[1..];
    assert tail[0] == '#' && tail[1..][0] == '\"';
    assert LeadingHashes(tail[1..]) == 0;
    assert lit[3..|lit| - 2] == s;
  }

  lemma {:induction false} QuotedInPlace(text: string, start: nat, e: string)
    requires start + |e| + 2 <= |text| && Occurs(text, e, start + 1) && QuotedBody(e)
    requires text[start] == '\"' && text[start + 1 + |e|] == '\"'
    ensures QuotedAt(text, start, start + |e| + 2)
  {
    assert text[start + 1..start + 1 + |e|] == e;
  }

  lemma {:induction false} QuotedDenotes(s: string)
    ensures Denotes(Quote(Escape(s))) == Some(s)
  {
    var lit := Quote(Escape(s));
    EscapedBody(s);
    assert lit[1..|lit| - 1] == Escape(s);
  }

  /** The middle of a bracketed string occurs inside it. */
  lemma {:induction false} OccursMiddle(text: string, start: nat, lit: string, n: nat, s: string)
    requires Occurs(text, lit, start) && n + |s| <= |lit| && s == lit[n..n + |s|]
    ensures Occurs(text, s, start + n)
  {
    forall k | 0 <= k < |s| ensures s[k] == text[start + n + k] {
      assert lit[n + k] == text[start + (n + k)];
    }
  }

  lemma {:induction false} PrintedQuoted(text: string, start: nat, e: string)
    requires Occurs(text, Quote(e), start) && QuotedBody(e)
    ensures QuotedAt(text, start, start + |Quote(e)|)
  {
    var lit := Quote(e);
    assert lit[0] == '\"' && lit[1 + |e|] == '\"' && lit[1..1 + |e|] == e;
    assert lit[0] == text[start + 0] && lit[1 + |e|] == text[start + (1 + |e|)];
    OccursMiddle(text, start, lit, 1, e);
    QuotedInPlace(text, start, e);
  }

  lemma {:induction false} RawShape(s: string)
    ensures var lit := Raw("#", s); var n := |s|;
      && |lit| == n + 5 && lit[0] == 'r' && lit[1] == '#' && lit[2] == '\"' && lit[3..3 + n] == s
      && lit[3 + n] == '\"' && lit[4 + n] == '#'
  {
  }

  lemma {:induction false} PrintedRaw(text: string, start: nat, lit: string, s: string)
    requires Occurs(text, lit, start) && !Contains(s, "\"#")
    requires |lit| == |s| + 5 && lit[0] == 'r' && lit[1] == '#' && lit[2] == '\"' && lit[3..3 + |s|] == s
    requires lit[3 + |s|] == '\"' && lit[4 + |s|] == '#'
    ensures RawAt(text, start, 1, start + 3 + |s|)
  {
    assert lit[0] == text[start + 0] && lit[1] == text[start + 1] && lit[2] == text[start + 2];
    assert lit[3 + |s|] == text[start + (3 + |s|)] && lit[4 + |s|] == text[start + (4 + |s|)];
    OccursMiddle(text, start, lit, 3, s);
    RawInPlace(text, start, s);
  }

  lemma {:induction false} OccursBetween(prefix: string, lit: string, rest: string)
    ensures Occurs(prefix + lit + rest, lit, |prefix|)
  {
  }

  lemma {:induction false} QuotedIsLiteral(text: string, start: nat, e: string)
    requires Occurs(text, Quote(e), start) && QuotedBody(e)
    ensures LiteralAt(text, start, start + |Quote(e)|)
  {
    PrintedQuoted(text, start, e);
  }

  lemma {:induction false} RawIsLiteral(text: string, start: nat, s: string)
    requires Occurs(text, Raw("#", s), start) && !Contains(s, "\"#")
    ensures LiteralAt(text, start, start + |Raw("#", s)|)
  {
    RawShape(s);
    PrintedRaw(text, start, Raw("#", s), s);
  }

  /** Whatever stands before and after a printed literal, the text holds a literal
      exactly there. */
  lemma {:induction false} PrintedIsLiteral(prefix: string, s: string, rest: string)
    ensures LiteralAt(prefix + RustStringLiteral(s) + rest, |prefix|, |prefix| + |RustStringLiteral(s)|)
  {
    var lit := RustStringLiteral(s);
    OccursBetween(prefix, lit, rest);
    LiteralForm(s);
    EscapedBody(s);
    if Contains(s, "\"#") || HasControl(s) {
      QuotedIsLiteral(prefix + lit + rest, |prefix|, Escape(s));
    } else {
      RawIsLiteral(prefix + lit + rest, |prefix|, s);
    }
  }

  /** A printed literal denotes the string printed. */
  lemma {:induction false} PrintedDenotes(s: string)
    ensures Denotes(RustStringLiteral(s)) == Some(s)
  {
    LiteralForm(s);
    QuotedDenotes(s);
    RawDenotes(s);
  }

  /** Lexing a printed literal takes back exactly the literal. */
  method PrintThenParse(prefix: string, s: string, rest: string) returns (r: Option<(string, nat)>)
    ensures r == Some((RustStringLiteral(s), |prefix| + |RustStringLiteral(s)|))
    ensures Denotes(r.value.0) == Some(s)
  {
    var lit := RustStringLiteral(s);
    var text := prefix + lit + rest;
    r := ParseStringLiteral(text, |prefix|);
    PrintedIsLiteral(prefix, s, rest);
    PrintedDenotes(s);
    LiteralUnique(text, |prefix|, r.value.1, |prefix| + |lit|);
    assert text[|prefix|..|prefix| + |lit|] == lit;
  }
}
