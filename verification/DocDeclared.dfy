/**
 What becomes of a written declaration: the scanner finds its name, its arity, its
 documentation and its parameter list where they were written.
 */
module DocDeclared {
  import opened Text
  import opened DocStream
  import opened DocText
  import opened DocMachine
  import opened DocRead
  import opened DocArgs
  import opened DocHeads
  import opened DocWrite
  import opened DocBody
  import opened DocUsage
  import opened DocDeclare

  // ------------------------------------------------------------------- up to the last argument

  lemma {:induction false} LastComma(data: Bytes, p: nat, a: Arity)
    requires p < |data| && data[p] == 0x2C
    ensures AfterCommas(data, p, 1, true, a) == (Some(p + 1), a)
  {
  }

  lemma {:induction false} ThreeFields(f: seq<Bytes>, rest: Bytes)
    requires |f| == 3
    ensures Fields(f, 0) + rest == f[0] + ([0x2C] + (f[1] + ([0x2C] + (f[2] + ([0x2C] + rest)))))
  {
    assert Fields(f, 3) == [] && Fields(f, 2) == f[2] + ([0x2C] + []) && Fields(f, 1) == f[1] + ([0x2C] + Fields(f, 2));
  }

  lemma {:induction false} CommaParts(data: Bytes, p: nat, f: Bytes, rest: Bytes, q: nat)
    requires Has(data, p, f + ([0x2C] + rest)) && q == p + |f|
    ensures Has(data, p, f) && Has(data, p, f + [0x2C]) && Has(data, q + 1, rest) && q < |data| && data[q] == 0x2C
  {
    AppendAssoc(f, [0x2C], rest);
    HasParts(data, p, f + [0x2C], rest);
    HasParts(data, p, f, [0x2C]);
    HasAt(data, q, [0x2C], 0);
  }

  lemma {:induction false} DefunParts(data: Bytes, p: nat, f0: Bytes, f1: Bytes, f2: Bytes, rest: Bytes, q0: nat,
                                      q1: nat, q: nat)
    requires Has(data, p, f0 + ([0x2C] + (f1 + ([0x2C] + (f2 + ([0x2C] + rest))))))
    requires q0 == p + |f0| && q1 == q0 + 1 + |f1| && q == q1 + 1 + |f2|
    ensures Has(data, p, f0 + [0x2C]) && Has(data, q0 + 1, f1 + [0x2C]) && Has(data, q1 + 1, f2)
    ensures q < |data| && data[q] == 0x2C && Has(data, q + 1, rest)
  {
    CommaParts(data, p, f0, f1 + ([0x2C] + (f2 + ([0x2C] + rest))), q0);
    CommaParts(data, q0 + 1, f1, f2 + ([0x2C] + rest), q1);
    CommaParts(data, q1 + 1, f2, rest, q);
  }

  lemma {:induction false} DefunCommas(data: Bytes, p: nat, f0: Bytes, f1: Bytes, f2: Bytes, a: Arity, q0: nat,
                                       q1: nat, q: nat)
    requires Has(data, p, f0 + [0x2C]) && Has(data, q0 + 1, f1 + [0x2C]) && Has(data, q1 + 1, f2)
    requires q0 == p + |f0| && q1 == q0 + 1 + |f1| && q == q1 + 1 + |f2|
    requires Without(f0, 0x2C) && Without(f1, 0x2C) && Without(f2, 0x2C)
    ensures AfterCommas(data, p, 5, true, a) == AfterCommas(data, q, 3, true, a)
  {
    PastComma(data, p, f0, 5, true, a);
    PastComma(data, q0 + 1, f1, 4, true, a);
    ToComma(data, q1 + 1, f2, 3, true, a);
  }

  lemma {:induction false} ThreeLong(f: seq<Bytes>)
    requires |f| == 3
    ensures |Fields(f, 0)| == |f[0]| + |f[1]| + |f[2]| + 3
  {
    assert Fields(f, 3) == [] && Fields(f, 2) == f[2] + ([0x2C] + []) && Fields(f, 1) == f[1] + ([0x2C] + Fields(f, 2));
  }

  /** The three fields of a `DEFUN` before MIN, up to the comma after them. */
  lemma {:induction false} BehindFields(data: Bytes, p: nat, f: seq<Bytes>, rest: Bytes, q: nat)
    requires |f| == 3 && Has(data, p, Fields(f, 0) + rest) && q + 1 == p + |Fields(f, 0)|
    ensures q < |data| && data[q] == 0x2C && Has(data, q + 1, rest)
  {
    ThreeFields(f, rest);
    ThreeLong(f);
    var q1 := p + |f[0]| + 1 + |f[1]|;
    DefunParts(data, p, f[0], f[1], f[2], rest, p + |f[0]|, q1, q);
  }

  lemma {:induction false} DefunFields(data: Bytes, p: nat, f: seq<Bytes>, rest: Bytes, a: Arity, q: nat,
                                       r: (Option<nat>, Arity))
    requires |f| == 3 && Has(data, p, Fields(f, 0) + rest) && q + 1 == p + |Fields(f, 0)|
    requires Without(f[0], 0x2C) && Without(f[1], 0x2C) && Without(f[2], 0x2C)
    requires AfterCommas(data, q, 3, true, a) == r
    ensures AfterCommas(data, p, 5, true, a) == r
  {
    ThreeFields(f, rest);
    ThreeLong(f);
    var q0 := p + |f[0]|;
    var q1 := q0 + 1 + |f[1]|;
    DefunParts(data, p, f[0], f[1], f[2], rest, q0, q1, q);
    DefunCommas(data, p, f[0], f[1], f[2], a, q0, q1, q);
  }

  lemma {:induction false} TwoParts(data: Bytes, i: nat, a: Bytes, b: Bytes, rest: Bytes)
    requires Has(data, i, a + b + rest)
    ensures Has(data, i, a) && Has(data, i + |a|, b) && Has(data, i + |a| + |b|, rest)
  {
    HasParts(data, i, a + b, rest);
    HasParts(data, i, a, b);
  }

  lemma {:induction false} MaxRead(data: Bytes, m: nat, max: NumberField, b: Arity, end: nat)
    requires m < |data| && data[m] == 0x2C && Has(data, m + 1, FieldSource(max)) && NumberWritable(max)
    requires end == m + |FieldSource(max)|
    ensures AfterCommas(data, m, 2, true, b) == (Some(end + 1), Updated(max.value, 1, b))
  {
    PastNumber(data, m, max, 2, b, Updated(max.value, 1, b), end);
    LastComma(data, end, Updated(max.value, 1, b));
  }

  /** MIN and MAX, from the comma before them. */
  lemma {:induction false} DefunNumbers(data: Bytes, q: nat, min: NumberField, max: NumberField, a: Arity, m: nat,
                                        end: nat)
    requires q < |data| && data[q] == 0x2C && Has(data, q + 1, FieldSource(min)) && Has(data, m + 1, FieldSource(max))
    requires m == q + |FieldSource(min)| && end == m + |FieldSource(max)|
    requires NumberWritable(min) && NumberWritable(max)
    ensures AfterCommas(data, q, 3, true, a) == (Some(end + 1), Updated(max.value, 1, Updated(min.value, 2, a)))
  {
    PastNumber(data, q, min, 3, a, Updated(min.value, 2, a), m);
    MaxRead(data, m, max, Updated(min.value, 2, a), end);
  }

  function CommasOf(m: Macro): nat
  {
    match m case Defun(_, _) => 5 case PerBuffer => 3 case Defvar => 1 case Simple => 2
  }

  lemma {:induction false} DefunRead(data: Bytes, p: nat, min: NumberField, max: NumberField, fields: seq<Bytes>,
                                     rest: Bytes, a: Arity, q: nat, m: nat, end: nat)
    requires |fields| == 3 && Without(fields[0], 0x2C) && Without(fields[1], 0x2C) && Without(fields[2], 0x2C)
    requires NumberWritable(min) && NumberWritable(max)
    requires Has(data, p, Fields(fields, 0) + (FieldSource(min) + FieldSource(max) + rest))
    requires q + 1 == p + |Fields(fields, 0)| && m == q + |FieldSource(min)| && end == m + |FieldSource(max)|
    ensures AfterCommas(data, p, 5, true, a) == (Some(end + 1), Updated(max.value, 1, Updated(min.value, 2, a)))
  {
    BehindFields(data, p, fields, FieldSource(min) + FieldSource(max) + rest, q);
    TwoParts(data, q + 1, FieldSource(min), FieldSource(max), rest);
    DefunNumbers(data, q, min, max, a, m, end);
    DefunFields(data, p, fields, FieldSource(min) + FieldSource(max) + rest, a, q,
                (Some(end + 1), Updated(max.value, 1, Updated(min.value, 2, a))));
  }

  /** Counting commas leads to the last argument, and reads the arity of a `DEFUN`. */
  lemma {:induction false} BetweenRead(data: Bytes, p: nat, m: Macro, fields: seq<Bytes>, rest: Bytes, a: Arity)
    requires Has(data, p, Between(m, fields) + rest) && BetweenWritable(m, fields)
    ensures AfterCommas(data, p, CommasOf(m), m.Defun?, a) == (Some(p + |Between(m, fields)|), ArityOf(m, a))
  {
    if m.Defun? {
      AppendAssoc(Fields(fields, 0), FieldSource(m.min) + FieldSource(m.max), rest);
      ThreeLong(fields);
      var q := p + |Fields(fields, 0)| - 1;
      var c := q + |FieldSource(m.min)|;
      DefunRead(data, p, m.min, m.max, fields, rest, a, q, c, c + |FieldSource(m.max)|);
    } else {
      assert Fields(fields, 0) + [] == Fields(fields, 0);
      PastFields(data, p, fields, 0, rest, CommasOf(m), false, a);
    }
  }

  // ------------------------------------------------------------------- the last argument

  lemma {:induction false} CommaOrSlashOver(data: Bytes, i: nat, s: Bytes)
    requires Has(data, i, s) && Without(s, 0x2C) && Without(s, 0x2F)
    requires At(data, i + |s|) == 0x2C || At(data, i + |s|) == 0x2F
    ensures CommaOrSlash(data, i) == i + |s|
    decreases |s|
  {
    if s != [] {
      HasAt(data, i, s, 0);
      assert s == [s[0]] + s[1..];
      HasParts(data, i, [s[0]], s[1..]);
      CommaOrSlashOver(data, i + 1, s[1..]);
    }
  }

  /** With no string, what follows the white space is skipped. */
  lemma {:induction false} BareSpec(data: Bytes, q: nat, pad: Bytes, rest: Bytes)
    requires Has(data, q, pad) && Has(data, q + |pad|, rest) && Without(rest, 0x2C) && Without(rest, 0x2F)
    requires forall k :: 0 <= k < |pad| ==> IsSpace(pad[k])
    requires rest != [] ==> !IsSpace(rest[0]) && rest[0] != 0x22
    requires At(data, q + |pad| + |rest|) == 0x2C || At(data, q + |pad| + |rest|) == 0x2F
    ensures AfterSpec(data, q) == q + |pad| + |rest|
  {
    if rest != [] { HasAt(data, q + |pad|, rest, 0); }
    SkipOver(data, q, pad);
    CommaOrSlashOver(data, q + |pad|, rest);
  }

  lemma {:induction false} SpecWithString(data: Bytes, q: nat, i: nat, end: nat, next: nat)
    requires SkipSpaces(data, q) == i && At(data, i) == QUOTE
    requires ReadBody(data, i + 1, false, false, false).end == end && CommaOrSlash(data, end) == next
    ensures AfterSpec(data, q) == next
  {
  }

  /** An old-style string is skipped whole. */
  lemma {:induction false} StringSpec(data: Bytes, i: nat, ps: Pieces, rest: Bytes, end: nat, next: nat)
    requires Has(data, i, Source(ps) + [0x22]) && end == i + |Source(ps)| && Allowed(ps, false, false)
    requires Has(data, end + 1, rest) && next == end + 1 + |rest| && Without(rest, 0x2C) && Without(rest, 0x2F)
    requires rest != [] ==> rest[0] != 0x22
    requires At(data, next) == 0x2C || At(data, next) == 0x2F
    ensures ReadBody(data, i, false, false, false).end == end + 1 && CommaOrSlash(data, end + 1) == next
  {
    if rest != [] { HasAt(data, end + 1, rest, 0); }
    StringRead(data, i, ps, false, end);
    CommaOrSlashOver(data, end + 1, rest);
  }

  lemma {:induction false} SpecOverString(data: Bytes, q: nat, i: nat, ps: Pieces, rest: Bytes, end: nat, next: nat)
    requires SkipSpaces(data, q) == i && At(data, i) == QUOTE
    requires Has(data, i + 1, Source(ps) + [0x22]) && end == i + 1 + |Source(ps)| && Allowed(ps, false, false)
    requires Has(data, end + 1, rest) && next == end + 1 + |rest| && Without(rest, 0x2C) && Without(rest, 0x2F)
    requires rest != [] ==> rest[0] != 0x22
    requires At(data, next) == 0x2C || At(data, next) == 0x2F
    ensures AfterSpec(data, q) == next
  {
    StringSpec(data, i + 1, ps, rest, end, next);
    SpecWithString(data, q, i, end + 1, next);
  }

  lemma {:induction false} SpecStringParts(data: Bytes, q: nat, pad: Bytes, ps: Pieces, rest: Bytes, i: nat, end: nat)
    requires Has(data, q, pad + (([0x22] + (Source(ps) + [0x22])) + rest)) && i == q + |pad|
    requires end == i + 1 + |Source(ps)|
    ensures Has(data, q, pad) && At(data, i) == 0x22 && Has(data, i + 1, Source(ps) + [0x22])
    ensures Has(data, end + 1, rest)
  {
    var s := [0x22] + (Source(ps) + [0x22]);
    HasParts(data, q, pad, s + rest);
    HasParts(data, i, s, rest);
    HasParts(data, i, [0x22], Source(ps) + [0x22]);
    HasAt(data, i, [0x22], 0);
  }

  lemma {:induction false} QuotedSpec(data: Bytes, q: nat, pad: Bytes, ps: Pieces, rest: Bytes, next: nat)
    requires Has(data, q, pad + (([0x22] + (Source(ps) + [0x22])) + rest)) && SpecWritable(Spec(pad, Some(ps), rest))
    requires next == q + |pad| + 2 + |Source(ps)| + |rest|
    requires At(data, next) == 0x2C || At(data, next) == 0x2F
    ensures AfterSpec(data, q) == next
  {
    var i := q + |pad|;
    var end := i + 1 + |Source(ps)|;
    SpecStringParts(data, q, pad, ps, rest, i, end);
    SkipOver(data, q, pad);
    SpecOverString(data, q, i, ps, rest, end, next);
  }

  lemma {:induction false} SpecRead(data: Bytes, q: nat, s: Spec, next: nat)
    requires Has(data, q, SpecSource(s)) && SpecWritable(s) && next == q + |SpecSource(s)|
    requires At(data, next) == 0x2C || At(data, next) == 0x2F
    ensures AfterSpec(data, q) == next
  {
    match s.literal
    case Some(ps) => QuotedSpec(data, q, s.pad, ps, s.rest, next);
    case None => PlainSpec(data, q, s.pad, s.rest, next);
  }

  lemma {:induction false} PlainSpec(data: Bytes, q: nat, pad: Bytes, rest: Bytes, next: nat)
    requires Has(data, q, pad + ([] + rest)) && SpecWritable(Spec(pad, None, rest)) && next == q + |pad| + |rest|
    requires At(data, next) == 0x2C || At(data, next) == 0x2F
    ensures AfterSpec(data, q) == next
  {
    assert [] + rest == rest;
    HasParts(data, q, pad, rest);
    BareSpec(data, q, pad, rest);
  }

  // -------------------------------------------------------------------------- the marker

  lemma {:induction false} LettersOver(data: Bytes, i: nat, s: Bytes)
    requires Has(data, i, s) && (forall k :: 0 <= k < |s| ==> IsAlpha(s[k])) && !IsAlpha(At(data, i + |s|))
    ensures SkipLetters(data, i) == i + |s|
    decreases |s|
  {
    if s != [] {
      HasAt(data, i, s, 0);
      assert s == [s[0]] + s[1..];
      HasParts(data, i, [s[0]], s[1..]);
      LettersOver(data, i + 1, s[1..]);
    }
  }

  /** White space and letters after a comma. */
  lemma {:induction false} WordOver(data: Bytes, i: nat, pad: Bytes, word: Bytes)
    requires Has(data, i, pad + word) && (forall k :: 0 <= k < |pad| ==> IsSpace(pad[k]))
    requires (forall k :: 0 <= k < |word| ==> IsAlpha(word[k])) && !IsAlpha(At(data, i + |pad| + |word|))
    requires word == [] ==> !IsSpace(At(data, i + |pad|))
    ensures SkipLetters(data, SkipSpaces(data, i)) == i + |pad| + |word|
  {
    HasParts(data, i, pad, word);
    if word != [] { HasAt(data, i + |pad|, word, 0); }
    SkipOver(data, i, pad);
    LettersOver(data, i + |pad|, word);
  }

  lemma {:induction false} CommaMarker(data: Bytes, i: nat, pad: Bytes, word: Bytes, next: nat)
    requires Has(data, i, [0x2C] + (pad + word)) && MarkerWritable(Comma(pad, word)) && next == i + 1 + |pad| + |word|
    requires !IsAlpha(At(data, next)) && At(data, next) != 0x3A && (word == [] ==> !IsSpace(At(data, next)))
    ensures AfterMarker(data, i) == (next, false)
  {
    HasParts(data, i, [0x2C], pad + word);
    HasAt(data, i, [0x2C], 0);
    WordOver(data, i + 1, pad, word);
  }

  lemma {:induction false} LabelledParts(data: Bytes, i: nat, pad: Bytes, mark: Bytes, gap: Bytes, colon: nat)
    requires Has(data, i, [0x2C] + (pad + (mark + ([0x3A] + gap)))) && colon == i + 1 + |pad| + |mark|
    ensures At(data, i) == 0x2C && Has(data, i + 1, pad + mark) && At(data, colon) == 0x3A && Has(data, colon + 1, gap)
  {
    HasParts(data, i, [0x2C], pad + (mark + ([0x3A] + gap)));
    HasAt(data, i, [0x2C], 0);
    AppendAssoc(pad, mark, [0x3A] + gap);
    HasParts(data, i + 1, pad + mark, [0x3A] + gap);
    HasParts(data, colon, [0x3A], gap);
    HasAt(data, colon, [0x3A], 0);
  }

  lemma {:induction false} LabelledMarker(data: Bytes, i: nat, pad: Bytes, mark: Bytes, gap: Bytes, next: nat)
    requires Has(data, i, [0x2C] + (pad + (mark + ([0x3A] + gap)))) && MarkerWritable(Labelled(pad, mark, gap))
    requires next == i + 2 + |pad| + |mark| + |gap| && !IsSpace(At(data, next))
    ensures AfterMarker(data, i) == (next, true)
  {
    var colon := i + 1 + |pad| + |mark|;
    LabelledParts(data, i, pad, mark, gap, colon);
    WordOver(data, i + 1, pad, mark);
    SkipOver(data, colon + 1, gap);
    MarkerWithColon(data, i, colon, next);
  }

  lemma {:induction false} MarkerWithColon(data: Bytes, i: nat, colon: nat, next: nat)
    requires At(data, i) == 0x2C && SkipLetters(data, SkipSpaces(data, i + 1)) == colon && At(data, colon) == 0x3A
    requires SkipSpaces(data, colon + 1) == next
    ensures AfterMarker(data, i) == (next, true)
  {
  }

  /** The character after the marker ends it. */
  predicate EndsMarker(m: Marker, c: int)
  {
    match m
    case Labelled(_, _, _) => !IsSpace(c)
    case Comma(_, word) => !IsAlpha(c) && c != 0x3A && (word == [] ==> !IsSpace(c))
    case NoComma => c != 0x2C
  }

  lemma {:induction false} MarkerRead(data: Bytes, i: nat, m: Marker, next: nat)
    requires Has(data, i, MarkerSource(m)) && MarkerWritable(m) && next == i + |MarkerSource(m)|
    requires EndsMarker(m, At(data, next))
    ensures AfterMarker(data, i) == (next, m.Labelled?)
  {
    match m
    case Labelled(pad, mark, gap) => LabelledMarker(data, i, pad, mark, gap, next);
    case Comma(pad, word) => CommaMarker(data, i, pad, word, next);
    case NoComma =>
  }

  lemma {:induction false} MarkerStarts(m: Marker)
    ensures if m.NoComma? then MarkerSource(m) == [] else MarkerSource(m) != [] && MarkerSource(m)[0] == 0x2C
  {
  }

  lemma {:induction false} ThreeParts(data: Bytes, i: nat, a: Bytes, b: Bytes, c: Bytes)
    requires Has(data, i, a + (b + c))
    ensures Has(data, i, a) && Has(data, i + |a|, b) && Has(data, i + |a| + |b|, c)
  {
    HasParts(data, i, a, b + c);
    HasParts(data, i + |a|, b, c);
  }

  lemma {:induction false} HasStart(data: Bytes, i: nat, s: Bytes)
    requires Has(data, i, s) && s != []
    ensures At(data, i) == s[0]
  {
    HasAt(data, i, s, 0);
  }

  /** From the last argument to what follows the marker. */
  lemma {:induction false} MarkerFound(data: Bytes, q: nat, s: Spec, m: Marker, rest: Bytes, next: nat)
    requires Has(data, q, SpecSource(s) + (MarkerSource(m) + rest)) && SpecWritable(s) && MarkerWritable(m)
    requires rest != [] && EndsMarker(m, rest[0]) && (m.NoComma? ==> rest[0] == 0x2F)
    requires next == q + |SpecSource(s)| + |MarkerSource(m)|
    ensures AfterMarker(data, AfterSpec(data, q)) == (next, m.Labelled?) && Has(data, next, rest)
    ensures At(data, next) == rest[0]
  {
    var i := q + |SpecSource(s)|;
    MarkerStarts(m);
    ThreeParts(data, q, SpecSource(s), MarkerSource(m), rest);
    HasStart(data, next, rest);
    if !m.NoComma? { HasStart(data, i, MarkerSource(m)); }
    SpecRead(data, q, s, i);
    MarkerRead(data, i, m, next);
  }

  // ------------------------------------------------------------------- the documentation

  lemma {:induction false} OpeningFound(data: Bytes, q: nat, m: Marker, comment: bool, rest: Bytes, next: nat)
    requires AfterMarker(data, AfterSpec(data, q)) == (next, m.Labelled?)
    requires Has(data, next, OpeningSource(comment) + rest)
    ensures var o := OpeningAt(data, q);
      o == Opening(next + |OpeningSource(comment)| - 1, m.Labelled?, comment) && o.Opens(data)
    ensures Has(data, next + |OpeningSource(comment)|, rest)
  {
    HasParts(data, next, OpeningSource(comment), rest);
    HasAt(data, next, OpeningSource(comment), 0);
    if comment { HasAt(data, next, OpeningSource(comment), 1); }
  }

  lemma {:induction false} NothingOpens(data: Bytes, q: nat, m: Marker, next: nat)
    requires AfterMarker(data, AfterSpec(data, q)) == (next, m.Labelled?)
    requires At(data, next) != 0x22 && At(data, next) != 0x2F
    ensures var o := OpeningAt(data, q); o.at == next && !o.Opens(data)
  {
  }

  // ------------------------------------------------------------------- the parameter list

  lemma {:induction false} MatchedAfter(data: Bytes, i: nat, s: Bytes)
    requires Has(data, i, s + [0x29]) && NoParenthesis(s)
    ensures Matching(data, i, 1) == Some(i + |s|)
    decreases |s|
  {
    if s == [] {
      assert s + [0x29] == [0x29];
      HasAt(data, i, [0x29], 0);
    } else {
      assert s + [0x29] == [s[0]] + (s[1..] + [0x29]);
      HasParts(data, i, [s[0]], s[1..] + [0x29]);
      HasAt(data, i, [s[0]], 0);
      MatchedAfter(data, i + 1, s[1..]);
    }
  }

  lemma {:induction false} Enclosed(l: Parameters) returns (body: Bytes)
    requires Listable(l)
    ensures ListSource(l) == [0x28] + (body + [0x29]) && NoParenthesis(body)
  {
    var s := Inside(l);
    InsideCloses(l);
    body := s[..|s| - 1];
    assert s == body + [0x29];
  }

  lemma {:induction false} OpenMatched(data: Bytes, i: nat)
    requires At(data, i) == 0x28
    ensures Matching(data, i, 0) == Matching(data, i + 1, 1)
  {
  }

  lemma {:induction false} TextMatched(data: Bytes, i: nat, text: Bytes, body: Bytes)
    requires Has(data, i, text) && text == [0x28] + (body + [0x29]) && NoParenthesis(body)
    ensures Matching(data, i, 0) == Some(i + |text| - 1)
  {
    HasParts(data, i, [0x28], body + [0x29]);
    HasAt(data, i, [0x28], 0);
    MatchedAfter(data, i + 1, body);
    OpenMatched(data, i);
  }

  lemma {:induction false} TextFound(data: Bytes, p: nat, between: Bytes, text: Bytes, body: Bytes, open: nat,
                                     close: nat)
    requires Has(data, p, between + text) && text == [0x28] + (body + [0x29]) && NoParenthesis(body)
    requires Without(between, 0x28) && open == p + |between| && close == open + |text| - 1
    ensures Find(data, p, 0x28) == open < |data| && Matching(data, open, 0) == Some(close)
    ensures close < |data| && open <= close && data[open..close + 1] == text
  {
    HasParts(data, p, between, text);
    HasAt(data, open, text, 0);
    AppendAssoc(between, [0x28], body + [0x29]);
    HasParts(data, p, between + [0x28], body + [0x29]);
    FindOver(data, p, between, 0x28);
    TextMatched(data, open, text, body);
  }

  lemma {:induction false} ParametersFound(data: Bytes, p: nat, inMacro: bool, i: nat, open: nat, close: nat)
    requires i == (if inMacro then Find(data, p, 0x29) else p) && i < |data|
    requires Find(data, i, 0x28) == open < |data| && Matching(data, open, 0) == Some(close)
    ensures ParametersAt(data, p, inMacro) == Some((open, close))
  {
  }

  /** The parenthesis of the macro is passed over on the way to the list. */
  lemma {:induction false} PastMacro(data: Bytes, p: nat, before: Bytes, between: Bytes, l: Parameters, i: nat)
    requires Has(data, p, (before + [0x29]) + (between + ListSource(l))) && Without(before, 0x29)
    requires i == p + |before| && Without(between, 0x28)
    ensures Find(data, p, 0x29) == i < |data| && Has(data, i, ([0x29] + between) + ListSource(l))
    ensures Without([0x29] + between, 0x28)
  {
    HasParts(data, p, before + [0x29], between + ListSource(l));
    FindOver(data, p, before, 0x29);
    AppendAssoc(before, [0x29], between + ListSource(l));
    HasParts(data, p, before, [0x29] + (between + ListSource(l)));
    AppendAssoc([0x29], between, ListSource(l));
  }

  lemma {:induction false} ListFound(data: Bytes, p: nat, between: Bytes, l: Parameters, open: nat, close: nat)
    requires Has(data, p, between + ListSource(l)) && Without(between, 0x28) && Listable(l)
    requires open == p + |between| && close == open + |ListSource(l)| - 1
    ensures Find(data, p, 0x28) == open < |data| && Matching(data, open, 0) == Some(close)
    ensures close < |data| && open <= close && data[open..close + 1] == ListSource(l)
  {
    var body := Enclosed(l);
    TextFound(data, p, between, ListSource(l), body, open, close);
  }

  lemma {:induction false} ClosingInMacro(data: Bytes, p: nat, c: Closing, open: nat, close: nat)
    requires Has(data, p, (c.before + [0x29]) + (c.between + ListSource(c.list)))
    requires Without(c.before, 0x29) && Without(c.between, 0x28) && Listable(c.list)
    requires open == p + |c.before| + 1 + |c.between| && close == open + |ListSource(c.list)| - 1
    ensures close < |data| && open <= close && data[open..close + 1] == ListSource(c.list)
    ensures ParametersAt(data, p, true) == Some((open, close))
  {
    var i := p + |c.before|;
    PastMacro(data, p, c.before, c.between, c.list, i);
    ListFound(data, i, [0x29] + c.between, c.list, open, close);
    ParametersFound(data, p, true, i, open, close);
  }

  lemma {:induction false} ClosingRead(data: Bytes, p: nat, c: Closing, inMacro: bool, close: nat) returns (open: nat)
    requires Has(data, p, ClosingSource(c, inMacro)) && Without(c.before, 0x29) && Without(c.between, 0x28)
    requires Listable(c.list) && close == p + |ClosingSource(c, inMacro)| - 1
    ensures close < |data| && open <= close && data[open..close + 1] == ListSource(c.list)
    ensures ParametersAt(data, p, inMacro) == Some((open, close))
  {
    if inMacro {
      open := p + |c.before| + 1 + |c.between|;
      ClosingInMacro(data, p, c, open, close);
    } else {
      open := p + |c.between|;
      NothingBefore(c.between + ListSource(c.list));
      ListFound(data, p, c.between, c.list, open, close);
      ParametersFound(data, p, false, p, open, close);
    }
  }

  lemma {:induction false} NothingBefore(s: Bytes)
    ensures [] + s == s
  {
  }

  // ------------------------------------------------------------------- the documentation read

  lemma {:induction false} MoreStarts(doc: Documentation, m: Macro, tail: Bytes, a: Arity)
    requires tail != [] && DocWritable(doc, m, tail, a) && doc.Present?
    ensures AfterText(doc) + tail != [] && (!doc.comment ==> (AfterText(doc) + tail)[0] != 0x22)
  {
    if doc.closing.Some? && !doc.comment {
      var c := doc.closing.value;
      assert (c.before + [0x29])[0] == if c.before == [] then 0x29 else c.before[0];
    }
  }

  /** The body of the documentation. */
  lemma {:induction false} BodyStage(data: Bytes, at: nat, doc: Documentation, more: Bytes, p: nat)
    requires doc.Present? && Writable(doc.document, doc.pad, doc.comment) && more != []
    requires !doc.comment ==> more[0] != 0x22
    requires Has(data, at, doc.pad + (DocumentSource(doc.document) + Terminated(doc.comment)) + more)
    requires p == at + |doc.pad| + |DocumentSource(doc.document)| + |Terminated(doc.comment)|
    ensures ReadBody(data, at, doc.comment, true, true)
         == Reading(DocumentText(doc.document), p, doc.document.usage.Usage?, NoFault)
    ensures Has(data, p, more)
  {
    var s := doc.pad + (DocumentSource(doc.document) + Terminated(doc.comment));
    HasParts(data, at, s, more);
    HasAt(data, p, more, 0);
    DocumentReadsBack(data, at, doc.pad, doc.document, doc.comment, p - |Terminated(doc.comment)|);
  }

  /** No parameter list is read. */
  lemma {:induction false} WithoutList(data: Bytes, r: Record, defun: bool, usage: bool, inMacro: bool, p: nat,
                                       a: Arity)
    requires !(defun && a.max != -1 && !usage)
    ensures UsageFate(data, r, defun, usage, inMacro, p, a) == Fate(Documented(r), p, a)
  {
  }

  lemma {:induction false} ListFate(data: Bytes, r: Record, inMacro: bool, p: nat, a: Arity, open: nat, close: nat)
    requires ParametersAt(data, p, inMacro) == Some((open, close)) && open <= close < |data| && a.max != -1
    ensures UsageFate(data, r, true, false, inMacro, p, a)
         == Fate(Documented(WithUsage(r, data[open..close + 1], a)), close, a)
  {
  }

  lemma {:induction false} LineAdded(r: Record, text: Bytes, a: Arity, line: Bytes)
    requires UsageOf(text, a.min, a.max) == line
    ensures WithUsage(r, text, a) == r.(doc := r.doc + ([0x0A, 0x0A] + line))
  {
  }

  /** The parameter list becomes the usage line. */
  lemma {:induction false} WithList(data: Bytes, r: Record, c: Closing, inMacro: bool, p: nat, a: Arity, close: nat,
                                    line: Bytes)
    requires Has(data, p, ClosingSource(c, inMacro)) && Without(c.before, 0x29) && Without(c.between, 0x28)
    requires Listable(c.list) && close == p + |ClosingSource(c, inMacro)| - 1 && a.max != -1
    requires line == LispUsage(c.list, a.min, a.max)
    ensures UsageFate(data, r, true, false, inMacro, p, a)
         == Fate(Documented(r.(doc := r.doc + ([0x0A, 0x0A] + line))), close, a)
  {
    var open := ClosingRead(data, p, c, inMacro, close);
    UsageReadsBack(c.list, a.min, a.max);
    ListFate(data, r, inMacro, p, a, open, close);
    LineAdded(r, ListSource(c.list), a, line);
  }

  /** Where the scan goes on: behind the documentation, or at the end of the list. */
  function EndOf(doc: Documentation, tail: nat): int
  {
    if doc.Present? && doc.closing.Some? then tail - 1 else tail
  }

  lemma {:induction false} ReadFate(data: Bytes, h: Head, name: Bytes, o: Opening, a: Arity, text: Bytes, p: nat,
                                    usage: bool, fate: Fate)
    requires ReadBody(data, o.at + 1, o.comment, true, true) == Reading(text, p, usage, NoFault)
    requires
      UsageFate(data, Record(h.kind, name, text, h.offset), h.defun, usage, !o.comment || o.keyword, p, a) == fate
    ensures DocFate(data, h, name, o, a) == fate
  {
  }

  lemma {:induction false} BodyFate(data: Bytes, h: Head, name: Bytes, o: Opening, doc: Documentation, more: Bytes,
                                    a: Arity, p: nat, fate: Fate)
    requires doc.Present? && Writable(doc.document, doc.pad, doc.comment) && more != []
    requires !doc.comment ==> more[0] != 0x22
    requires Has(data, o.at + 1, doc.pad + (DocumentSource(doc.document) + Terminated(doc.comment)) + more)
    requires p == o.at + 1 + |doc.pad| + |DocumentSource(doc.document)| + |Terminated(doc.comment)|
    requires o.comment == doc.comment
    requires UsageFate(data, Record(h.kind, name, DocumentText(doc.document), h.offset), h.defun,
                       doc.document.usage.Usage?, !o.comment || o.keyword, p, a) == fate
    ensures DocFate(data, h, name, o, a) == fate
  {
    BodyStage(data, o.at + 1, doc, more, p);
    ReadFate(data, h, name, o, a, DocumentText(doc.document), p, doc.document.usage.Usage?, fate);
  }

  /** What follows the body of the documentation. */
  lemma {:induction false} AfterStage(data: Bytes, r: Record, doc: Documentation, m: Macro, tail: Bytes, a: Arity,
                                      a0: Arity, p: nat, end: nat, text: Bytes)
    requires tail != [] && DocWritable(doc, m, tail, a0) && doc.Present? && a == ArityOf(m, a0)
    requires Has(data, p, AfterText(doc)) && end == p + |AfterText(doc)| && r.doc == DocumentText(doc.document)
    requires text == DocTextOf(doc, a)
    ensures EndOf(doc, end) >= 0
    ensures UsageFate(data, r, m.Defun?, doc.document.usage.Usage?, InMacro(doc), p, a)
         == Fate(Documented(r.(doc := text)), EndOf(doc, end), a)
  {
    match doc.closing {
      case Some(c) => WithList(data, r, c, InMacro(doc), p, a, end - 1, LispUsage(c.list, a.min, a.max));
      case None =>
        WithoutList(data, r, m.Defun?, doc.document.usage.Usage?, InMacro(doc), p, a);
        EmptyAfter(DocumentText(doc.document));
    }
  }

  lemma {:induction false} EmptyAfter(s: Bytes)
    ensures s + [] == s
  {
  }

  lemma {:induction false} BodyThenAfter(data: Bytes, at: nat, body: Bytes, after: Bytes, tail: Bytes, p: nat)
    requires Has(data, at, body + (after + tail)) && p == at + |body|
    ensures Has(data, p, after) && Has(data, p + |after|, tail)
  {
    HasParts(data, at, body, after + tail);
    HasParts(data, p, after, tail);
  }

  lemma {:induction false} TextStage(data: Bytes, h: Head, name: Bytes, o: Opening, doc: Documentation, m: Macro,
                                     tail: Bytes, a: Arity, a0: Arity, p: nat, end: nat, text: Bytes)
    requires tail != [] && DocWritable(doc, m, tail, a0) && doc.Present? && a == ArityOf(m, a0) && h.defun == m.Defun?
    requires o.comment == doc.comment && o.keyword == doc.marker.Labelled? && text == DocTextOf(doc, a)
    requires Has(data, o.at + 1,
                 doc.pad + (DocumentSource(doc.document) + Terminated(doc.comment)) + (AfterText(doc) + tail))
    requires p == o.at + 1 + |doc.pad| + |DocumentSource(doc.document)| + |Terminated(doc.comment)|
    requires end == p + |AfterText(doc)|
    ensures EndOf(doc, end) >= 0
    ensures DocFate(data, h, name, o, a) == Fate(Documented(Record(h.kind, name, text, h.offset)), EndOf(doc, end), a)
  {
    var r, after := Record(h.kind, name, DocumentText(doc.document), h.offset), AfterText(doc);
    MoreStarts(doc, m, tail, a0);
    BodyThenAfter(data, o.at + 1, doc.pad + (DocumentSource(doc.document) + Terminated(doc.comment)), after, tail, p);
    AfterStage(data, r, doc, m, tail, a, a0, p, end, text);
    BodyFate(data, h, name, o, doc, after + tail, a, p, Fate(Documented(r.(doc := text)), EndOf(doc, end), a));
  }

  // -------------------------------------------------------------------- the declaration

  /** The opening ends the marker before it. */
  predicate Opened(m: Marker, comment: bool)
  {
    && MarkerWritable(m) && OpeningSource(comment) != [] && EndsMarker(m, OpeningSource(comment)[0])
    && (m.NoComma? ==> OpeningSource(comment)[0] == 0x2F)
  }

  lemma {:induction false} PresentEndsMarker(doc: Documentation, m: Macro, tail: Bytes, a: Arity)
    requires tail != [] && doc.Present? && DocWritable(doc, m, tail, a)
    ensures Opened(doc.marker, doc.comment)
  {
  }

  lemma {:induction false} TextApart(o: Bytes, body: Bytes, after: Bytes, tail: Bytes)
    ensures o + body + after + tail == o + (body + (after + tail))
  {
  }

  lemma {:induction false} OpensFate(data: Bytes, h: Head, name: Bytes, q: nat, a: Arity, o: Opening, fate: Fate)
    requires OpeningAt(data, q) == o && o.Opens(data) && DocFate(data, h, name, o, a) == fate
    ensures OpeningFate(data, h, name, q, a) == fate
  {
  }

  lemma {:induction false} BareFate(data: Bytes, h: Head, name: Bytes, q: nat, a: Arity, end: nat)
    requires OpeningAt(data, q).at == end && !OpeningAt(data, q).Opens(data)
    ensures OpeningFate(data, h, name, q, a) == Fate(Bare(name), end, a)
  {
  }

  lemma {:induction false} SameStart(a: Bytes, rest: Bytes)
    requires a != []
    ensures a + rest != [] && (a + rest)[0] == a[0]
  {
  }

  /** The opening of the documentation. */
  lemma {:induction false} OpeningStage(data: Bytes, q: nat, s: Spec, m: Marker, comment: bool, rest: Bytes, next: nat)
    requires SpecWritable(s) && Opened(m, comment)
    requires Has(data, q, SpecSource(s) + (MarkerSource(m) + (OpeningSource(comment) + rest)))
    requires next == q + |SpecSource(s)| + |MarkerSource(m)|
    ensures var o := Opening(next + |OpeningSource(comment)| - 1, m.Labelled?, comment);
      OpeningAt(data, q) == o && o.Opens(data)
  {
    SameStart(OpeningSource(comment), rest);
    MarkerFound(data, q, s, m, OpeningSource(comment) + rest, next);
    OpeningFound(data, q, m, comment, rest, next);
  }

  lemma {:induction false} OpeningToFate(data: Bytes, h: Head, name: Bytes, q: nat, s: Spec, m: Marker, comment: bool,
                                         rest: Bytes, a: Arity, next: nat, at: nat, fate: Fate)
    requires SpecWritable(s) && Opened(m, comment)
    requires Has(data, q, SpecSource(s) + (MarkerSource(m) + (OpeningSource(comment) + rest)))
    requires next == q + |SpecSource(s)| + |MarkerSource(m)| && at + 1 == next + |OpeningSource(comment)|
    requires DocFate(data, h, name, Opening(at, m.Labelled?, comment), a) == fate
    ensures OpeningFate(data, h, name, q, a) == fate
  {
    OpeningStage(data, q, s, m, comment, rest, next);
    OpensFate(data, h, name, q, a, Opening(at, m.Labelled?, comment), fate);
  }

  lemma {:induction false} BehindOpening(data: Bytes, q: nat, spec: Bytes, marker: Bytes, opening: Bytes, rest: Bytes)
    requires Has(data, q, spec + (marker + (opening + rest)))
    ensures Has(data, q + |spec| + |marker| + |opening|, rest)
  {
    HasParts(data, q, spec, marker + (opening + rest));
    HasParts(data, q + |spec|, marker, opening + rest);
    HasParts(data, q + |spec| + |marker|, opening, rest);
  }

  /** The body of the documentation and all that follows it. */
  function BodyOn(doc: Documentation, tail: Bytes): Bytes
    requires doc.Present?
  {
    doc.pad + (DocumentSource(doc.document) + Terminated(doc.comment)) + (AfterText(doc) + tail)
  }

  lemma {:induction false} Regrouped(doc: Documentation, tail: Bytes)
    requires doc.Present?
    ensures TextSource(doc) + AfterText(doc) + tail == OpeningSource(doc.comment) + BodyOn(doc, tail)
  {
    TextApart(OpeningSource(doc.comment), doc.pad + (DocumentSource(doc.document) + Terminated(doc.comment)),
              AfterText(doc), tail);
  }

  /** From the opening on. */
  lemma {:induction false} DocFrom(data: Bytes, h: Head, name: Bytes, at: nat, doc: Documentation, m: Macro,
                                   tail: Bytes, a: Arity, a0: Arity, end: nat, fate: Fate)
    requires tail != [] && DocWritable(doc, m, tail, a0) && doc.Present? && a == ArityOf(m, a0) && h.defun == m.Defun?
    requires Has(data, at + 1, BodyOn(doc, tail)) && end + |tail| == at + 1 + |BodyOn(doc, tail)|
    requires EndOf(doc, end) >= 0
    requires fate == Fate(Documented(Record(h.kind, name, DocTextOf(doc, a), h.offset)), EndOf(doc, end), a)
    ensures DocFate(data, h, name, Opening(at, doc.marker.Labelled?, doc.comment), a) == fate
  {
    var o := Opening(at, doc.marker.Labelled?, doc.comment);
    TextStage(data, h, name, o, doc, m, tail, a, a0, end - |AfterText(doc)|, end, DocTextOf(doc, a));
  }

  lemma {:induction false} EndIsIndex(doc: Documentation, tail: Bytes, at: nat, end: nat)
    requires doc.Present? && end + |tail| == at + 1 + |BodyOn(doc, tail)|
    ensures EndOf(doc, end) >= 0
  {
    if doc.closing.Some? { assert |ListSource(doc.closing.value.list)| > 0; }
  }

  lemma {:induction false} DocBehind(data: Bytes, h: Head, name: Bytes, q: nat, spec: Bytes, doc: Documentation,
                                     m: Macro, tail: Bytes, a: Arity, a0: Arity, at: nat, end: nat, fate: Fate)
    requires tail != [] && DocWritable(doc, m, tail, a0) && doc.Present? && a == ArityOf(m, a0) && h.defun == m.Defun?
    requires Has(data, q, spec + (MarkerSource(doc.marker) + (OpeningSource(doc.comment) + BodyOn(doc, tail))))
    requires at + 1 == q + |spec| + |MarkerSource(doc.marker)| + |OpeningSource(doc.comment)|
    requires end + |tail| == at + 1 + |BodyOn(doc, tail)| && EndOf(doc, end) >= 0
    requires fate == Fate(Documented(Record(h.kind, name, DocTextOf(doc, a), h.offset)), EndOf(doc, end), a)
    ensures DocFate(data, h, name, Opening(at, doc.marker.Labelled?, doc.comment), a) == fate
  {
    BehindOpening(data, q, spec, MarkerSource(doc.marker), OpeningSource(doc.comment), BodyOn(doc, tail));
    DocFrom(data, h, name, at, doc, m, tail, a, a0, end, fate);
  }

  /** From the last argument on, where there is none. */
  lemma {:induction false} MissingFate(data: Bytes, h: Head, name: Bytes, q: nat, s: Spec, marker: Marker, tail: Bytes,
                                       a: Arity, end: nat)
    requires tail != [] && MarkerWritable(marker) && EndsBare(marker, tail) && SpecWritable(s)
    requires Has(data, q, SpecSource(s) + (MarkerSource(marker) + tail))
    requires end == q + |SpecSource(s)| + |MarkerSource(marker)|
    ensures OpeningFate(data, h, name, q, a) == Fate(Bare(name), end, a)
  {
    MarkerFound(data, q, s, marker, tail, end);
    NothingOpens(data, q, marker, end);
    BareFate(data, h, name, q, a, end);
  }

  /** What the declaration comes to from its last argument on. */
  function FateOf(d: Declaration, i: nat, a: Arity, end: nat): Fate
  {
    Fate(OutcomeOf(d, i, a), if EndOf(d.doc, end) >= 0 then EndOf(d.doc, end) else 0, ArityOf(d.macro, a))
  }

  lemma {:induction false} RestRead(data: Bytes, h: Head, q: nat, d: Declaration, i: nat, a: Arity, end: nat)
    requires DeclarationWritable(d, a) && Has(data, q, RestOf(d)) && end + |d.tail| == q + |RestOf(d)|
    requires h == Head(KindOf(d.macro), OffsetOf(d.macro, d.indent, i), d.macro.Defun?, d.macro.PerBuffer?)
    ensures OpeningFate(data, h, Batch(Meaning(d.name)), q, ArityOf(d.macro, a)) == FateOf(d, i, a, end)
    ensures EndOf(d.doc, end) >= 0
  {
    var name, b := Batch(Meaning(d.name)), ArityOf(d.macro, a);
    if d.doc.Present? {
      Regrouped(d.doc, d.tail);
      var next := q + |SpecSource(d.spec)| + |MarkerSource(d.doc.marker)|;
      var at := next + |OpeningSource(d.doc.comment)| - 1;
      EndIsIndex(d.doc, d.tail, at, end);
      PresentEndsMarker(d.doc, d.macro, d.tail, a);
      DocBehind(data, h, name, q, SpecSource(d.spec), d.doc, d.macro, d.tail, b, a, at, end, FateOf(d, i, a, end));
      OpeningToFate(data, h, name, q, d.spec, d.doc.marker, d.doc.comment, BodyOn(d.doc, d.tail), b, next, at,
                    FateOf(d, i, a, end));
    } else {
      assert [] + d.tail == d.tail;
      MissingFate(data, h, name, q, d.spec, d.doc.marker, d.tail, b, end);
    }
  }

  lemma {:induction false} CommasFate(data: Bytes, h: Head, name: Bytes, p: nat, a: Arity, q: nat, b: Arity, fate: Fate)
    requires AfterCommas(data, p, h.Commas(), h.defun, a) == (Some(q), b) && OpeningFate(data, h, name, q, b) == fate
    ensures NamedFate(data, h, name, p, a) == fate
  {
  }

  lemma {:induction false} BetweenFate(data: Bytes, h: Head, name: Bytes, p: nat, m: Macro, fields: seq<Bytes>,
                                       rest: Bytes, a: Arity, q: nat, fate: Fate)
    requires Has(data, p, Between(m, fields) + rest) && BetweenWritable(m, fields) && q == p + |Between(m, fields)|
    requires h.defun == m.Defun? && h.Commas() == CommasOf(m)
    requires OpeningFate(data, h, name, q, ArityOf(m, a)) == fate
    ensures NamedFate(data, h, name, p, a) == fate
  {
    BetweenRead(data, p, m, fields, rest, a);
    CommasFate(data, h, name, p, a, q, ArityOf(m, a), fate);
  }

  lemma {:induction false} CommasMatch(m: Macro, offset: nat)
    ensures Head(KindOf(m), offset, m.Defun?, m.PerBuffer?).Commas() == CommasOf(m)
  {
  }

  /** From behind the name on. */
  lemma {:induction false} NamedRead(data: Bytes, h: Head, p: nat, d: Declaration, i: nat, a: Arity, rest: Bytes,
                                     end: nat)
    requires DeclarationWritable(d, a) && Has(data, p, Between(d.macro, d.fields) + rest) && rest == RestOf(d)
    requires end + |d.tail| == p + |Between(d.macro, d.fields)| + |rest|
    requires h == Head(KindOf(d.macro), OffsetOf(d.macro, d.indent, i), d.macro.Defun?, d.macro.PerBuffer?)
    ensures NamedFate(data, h, Batch(Meaning(d.name)), p, a) == FateOf(d, i, a, end)
    ensures EndOf(d.doc, end) >= 0
  {
    hide DocWritable, SpecWritable, BetweenWritable, OutcomeOf, ArityOf, Between;
    hide NamedFate, OpeningFate, Batch, Meaning;
    var q := p + |Between(d.macro, d.fields)|;
    HasParts(data, p, Between(d.macro, d.fields), rest);
    CommasMatch(d.macro, h.offset);
    RestRead(data, h, q, d, i, a, end);
    BetweenFate(data, h, Batch(Meaning(d.name)), p, d.macro, d.fields, rest, a, q, FateOf(d, i, a, end));
  }

  /** What follows the name does not join another string to it. */
  lemma {:induction false} BetweenStarts(m: Macro, fields: seq<Bytes>, rest: Bytes)
    requires BetweenWritable(m, fields)
    ensures (Between(m, fields) + rest) != [] && (Between(m, fields) + rest)[0] != 0x22
  {
    var f := fields[0];
    assert Fields(fields, 0) == f + ([0x2C] + Fields(fields, 1));
    assert Fields(fields, 0)[0] == if f == [] then 0x2C else f[0];
  }

  /** From the quote of the name on. */
  lemma {:induction false} LiteralStage(data: Bytes, h: Head, i: nat, name: Pieces, rest: Bytes, a: Arity, p: nat)
    requires Has(data, i + 1, Source(name) + ([0x22] + rest)) && Allowed(name, false, false)
    requires rest != [] && rest[0] != 0x22 && p == i + 2 + |Source(name)|
    ensures LiteralFate(data, h, i, a) == NamedFate(data, h, Batch(Meaning(name)), p, a)
    ensures Has(data, p, rest)
  {
    StringParts(data, i + 1, name, rest, p - 1);
    StringRead(data, i + 1, name, true, p - 1);
  }

  lemma {:induction false} ParenStage(data: Bytes, h: Head, open: nat, rest: Bytes, a: Arity)
    requires Has(data, open, [0x28, 0x22] + rest) && h.offset > 0 && Find(data, h.offset - 1, 0x28) == open < |data|
    ensures HeadFate(data, h, a) == LiteralFate(data, h, open + 1, a)
    ensures Has(data, open + 2, rest) && Has(data, open, [0x28])
  {
    HasParts(data, open, [0x28, 0x22], rest);
    HasAt(data, open, [0x28, 0x22], 1);
    assert [0x28, 0x22] == [0x28] + [0x22];
    HasParts(data, open, [0x28], [0x22]);
  }

  lemma {:induction false} LeadThenOpen(data: Bytes, i: nat, lead: Bytes, named: Bytes)
    requires Has(data, i, lead + ([0x28, 0x22] + named))
    ensures Has(data, i, lead + [0x28]) && Has(data, i + |lead|, [0x28, 0x22] + named)
  {
    assert lead + ([0x28, 0x22] + named) == (lead + [0x28]) + ([0x22] + named);
    HasParts(data, i, lead + [0x28], [0x22] + named);
    HasParts(data, i, lead, [0x28, 0x22] + named);
  }

  /** From the start of the line to the parenthesis. */
  lemma {:induction false} UpToOpen(data: Bytes, i: nat, m: Macro, indent: nat, word: Bytes, named: Bytes, open: nat,
                                    h: Head)
    requires LeadWritable(m, word) && Has(data, i, Lead(m, indent, word) + ([0x28, 0x22] + named))
    requires open == i + |Lead(m, indent, word)|
    requires h == Head(KindOf(m), OffsetOf(m, indent, i), m.Defun?, m.PerBuffer?)
    ensures HeadOn(data, i) == Some(h) && h.offset > 0 && Find(data, h.offset - 1, 0x28) == open < |data|
    ensures Has(data, open, [0x28, 0x22] + named)
  {
    LeadThenOpen(data, i, Lead(m, indent, word), named);
    LeadHead(data, i, m, indent, word, open);
  }

  /** From the parenthesis to behind the name. */
  lemma {:induction false} UpToName(data: Bytes, h: Head, open: nat, name: Pieces, rest: Bytes, a: Arity, p: nat,
                                    fate: Fate)
    requires h.offset > 0 && Find(data, h.offset - 1, 0x28) == open < |data|
    requires Has(data, open, [0x28, 0x22] + (Source(name) + ([0x22] + rest))) && Allowed(name, false, false)
    requires rest != [] && rest[0] != 0x22 && p == open + 3 + |Source(name)|
    requires NamedFate(data, h, Batch(Meaning(name)), p, a) == fate
    ensures HeadFate(data, h, a) == fate
  {
    ParenStage(data, h, open, Source(name) + ([0x22] + rest), a);
    LiteralStage(data, h, open + 1, name, rest, a, p);
  }

  lemma {:induction false} BehindName(data: Bytes, open: nat, source: Bytes, rest: Bytes, p: nat)
    requires Has(data, open, [0x28, 0x22] + (source + ([0x22] + rest))) && p == open + 3 + |source|
    ensures Has(data, p, rest)
  {
    HasParts(data, open, [0x28, 0x22], source + ([0x22] + rest));
    HasParts(data, open + 2, source, [0x22] + rest);
    HasParts(data, p - 1, [0x22], rest);
  }

  /** A written declaration is found on its line, and comes to what it says: its record,
      or its name without documentation; scanning goes on where the text behind it
      starts. */
  lemma {:induction false} DeclarationFate(data: Bytes, i: nat, d: Declaration, a: Arity, end: nat)
    requires DeclarationWritable(d, a) && Has(data, i, DeclarationSource(d))
    requires end + |d.tail| == i + |DeclarationSource(d)|
    ensures HeadOn(data, i).Some? && HeadOn(data, i).value.offset == OffsetOf(d.macro, d.indent, i)
    ensures HeadFate(data, HeadOn(data, i).value, a) == FateOf(d, i, a, end)
    ensures EndOf(d.doc, end) >= 0
  {
    var between, rest := Between(d.macro, d.fields), RestOf(d);
    var open := i + |Lead(d.macro, d.indent, d.word)|;
    var p := open + 3 + |Source(d.name)|;
    var h := Head(KindOf(d.macro), OffsetOf(d.macro, d.indent, i), d.macro.Defun?, d.macro.PerBuffer?);
    BetweenStarts(d.macro, d.fields, rest);
    UpToOpen(data, i, d.macro, d.indent, d.word, Source(d.name) + ([0x22] + (between + rest)), open, h);
    BehindName(data, open, Source(d.name), between + rest, p);
    NamedRead(data, h, p, d, i, a, rest, end);
    UpToName(data, h, open, d.name, between + rest, a, p, FateOf(d, i, a, end));
  }
}
