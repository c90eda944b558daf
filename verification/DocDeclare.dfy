/**
 A documented declaration written out byte by byte, as C sources have them: a `DEFUN`,
 an indented `DEFVAR_`, a `DEFVAR_PER_BUFFER`, or another `DEF` macro. The writer has
 its own letters; what it is scanned as is proved beside it.
 */
module DocDeclare {
  import opened Text
  import opened DocStream
  import opened DocText
  import opened DocMachine
  import opened DocRead
  import opened DocHeads
  import opened DocWrite
  import opened DocBody
  import opened DocUsage

  // ------------------------------------------------------------------ what is written

  /** MIN or MAX: a numeral, or a word such as `MANY` or the name of a constant. */
  datatype Number = Literal(n: int) | Word(word: Bytes)

  /** With the white space before it and what comes after it up to the comma. */
  datatype NumberField = NumberField(pad: Bytes, value: Number, rest: Bytes)

  datatype Macro = Defun(min: NumberField, max: NumberField) | Defvar | PerBuffer | Simple

  /** The argument before the documentation: with an old-style string, or without. */
  datatype Spec = Spec(pad: Bytes, literal: Option<Pieces>, rest: Bytes)

  /** Between that argument and the documentation: a comma and a `doc:`, a comma and at
      most a word, or nothing. */
  datatype Marker =
    | Labelled(pad: Bytes, mark: Bytes, gap: Bytes)
    | Comma(pad: Bytes, word: Bytes)
    | NoComma

  /** The parameter list, and what comes before it. */
  datatype Closing = Closing(before: Bytes, between: Bytes, list: Parameters)

  datatype Documentation =
    | Missing(marker: Marker)
    | Present(marker: Marker, comment: bool, pad: Bytes, document: Document, closing: Option<Closing>)

  datatype Declaration = Declaration(
    macro: Macro, indent: nat, word: Bytes, name: Pieces, fields: seq<Bytes>,
    spec: Spec, doc: Documentation, tail: Bytes)

  function Spaces(n: nat): (s: Bytes)
    ensures |s| == n && forall k :: 0 <= k < n ==> s[k] == 0x20
  {
    seq(n, k => 0x20)
  }

  /** The line up to the parenthesis. */
  function Lead(m: Macro, indent: nat, word: Bytes): Bytes
  {
    match m
    case Defun(_, _) => [0x44, 0x45, 0x46, 0x55] + word
    case Simple => [0x44, 0x45, 0x46] + word
    case Defvar => Spaces(indent + 1) + ([0x44, 0x45, 0x46, 0x56, 0x41, 0x52, 0x5F] + word)
    case PerBuffer => Spaces(indent + 1) + ([0x44, 0x45, 0x46, 0x56, 0x41, 0x52, 0x5F, 0x50] + word)
  }

  function NumberSource(v: Number): Bytes
  {
    match v
    case Literal(n) => if n < 0 then [0x2D] + Decimal(-n) else Decimal(n)
    case Word(word) => word
  }

  function FieldSource(f: NumberField): Bytes { f.pad + (NumberSource(f.value) + (f.rest + [0x2C])) }

  /** The fields from the `k`-th on, each with its comma. */
  function Fields(fields: seq<Bytes>, k: nat): Bytes
    requires k <= |fields|
    decreases |fields| - k
  {
    if k == |fields| then [] else fields[k] + ([0x2C] + Fields(fields, k + 1))
  }

  /** What stands between the name and the last argument. */
  function Between(m: Macro, fields: seq<Bytes>): Bytes
  {
    Fields(fields, 0) + (if m.Defun? then FieldSource(m.min) + FieldSource(m.max) else [])
  }

  function SpecSource(s: Spec): Bytes
  {
    s.pad + ((if s.literal.Some? then [0x22] + (Source(s.literal.value) + [0x22]) else []) + s.rest)
  }

  function MarkerSource(m: Marker): Bytes
  {
    match m
    case Labelled(pad, mark, gap) => [0x2C] + (pad + (mark + ([0x3A] + gap)))
    case Comma(pad, word) => [0x2C] + (pad + word)
    case NoComma => []
  }

  function OpeningSource(comment: bool): Bytes { if comment then [0x2F, 0x2A] else [0x22] }

  /** The parenthesis of the macro is closed first, if the documentation is inside it. */
  function ClosingSource(c: Closing, inMacro: bool): Bytes
  {
    (if inMacro then c.before + [0x29] else []) + (c.between + ListSource(c.list))
  }

  predicate InMacro(d: Documentation)
    requires d.Present?
  {
    !d.comment || d.marker.Labelled?
  }

  function AfterText(d: Documentation): Bytes
    requires d.Present?
  {
    if d.closing.Some? then ClosingSource(d.closing.value, InMacro(d)) else []
  }

  function TextSource(d: Documentation): Bytes
    requires d.Present?
  {
    OpeningSource(d.comment) + (d.pad + (DocumentSource(d.document) + Terminated(d.comment)))
  }

  /** From the last argument on. */
  function RestOf(d: Declaration): Bytes
  {
    SpecSource(d.spec)
    + (MarkerSource(d.doc.marker) + ((if d.doc.Present? then TextSource(d.doc) + AfterText(d.doc) else []) + d.tail))
  }

  function DeclarationSource(d: Declaration): Bytes
  {
    Lead(d.macro, d.indent, d.word)
    + ([0x28, 0x22] + (Source(d.name) + ([0x22] + (Between(d.macro, d.fields) + RestOf(d)))))
  }

  // ------------------------------------------------------------------ what may be written

  predicate Without(s: Bytes, b: Byte) { forall k :: 0 <= k < |s| ==> s[k] != b }

  predicate LeadWritable(m: Macro, word: Bytes)
  {
    && Without(word, 0x28)
    && (m.Simple? && word != [] ==> word[0] != 0x55)
    && (m.Defvar? ==> word != [] && word[0] != 0x50)
  }

  /** A word that does not start like a number. */
  predicate NumberWritable(f: NumberField)
  {
    && (forall k :: 0 <= k < |f.pad| ==> White(f.pad[k])) && Without(f.rest, 0x2C)
    && match f.value
       case Literal(_) => f.rest != [] ==> !Digit(f.rest[0])
       case Word(word) =>
         word != [] && Without(word, 0x2C) && !White(word[0]) && !Digit(word[0]) && word[0] != 0x2B && word[0] != 0x2D
  }

  /** A `DEFUN` has three fields before MIN, `DEFVAR_PER_BUFFER` has three in all, another
      `DEFVAR_` has one and any other macro two. */
  predicate BetweenWritable(m: Macro, fields: seq<Bytes>)
  {
    && |fields| == (match m case Defun(_, _) => 3 case PerBuffer => 3 case Defvar => 1 case Simple => 2)
    && (forall k :: 0 <= k < |fields| ==> Without(fields[k], 0x2C))
    && (fields[0] != [] ==> fields[0][0] != 0x22)
    && (m.Defun? ==> NumberWritable(m.min) && NumberWritable(m.max))
  }

  predicate SpecWritable(s: Spec)
  {
    && (forall k :: 0 <= k < |s.pad| ==> White(s.pad[k])) && Without(s.rest, 0x2C) && Without(s.rest, 0x2F)
    && (s.rest != [] ==> s.rest[0] != 0x22 && (s.literal.None? ==> !White(s.rest[0])))
    && (s.literal.Some? ==> Allowed(s.literal.value, false, false))
  }

  predicate MarkerWritable(m: Marker)
  {
    match m
    case Labelled(pad, mark, gap) =>
      && (forall k :: 0 <= k < |pad| ==> White(pad[k])) && (forall k :: 0 <= k < |mark| ==> Letter(mark[k]))
      && (forall k :: 0 <= k < |gap| ==> White(gap[k]))
    case Comma(pad, word) =>
      (forall k :: 0 <= k < |pad| ==> White(pad[k])) && (forall k :: 0 <= k < |word| ==> Letter(word[k]))
    case NoComma => true
  }

  /** Documentation is missing where neither a quote nor a comment comes next. */
  predicate EndsBare(m: Marker, tail: Bytes)
    requires tail != []
  {
    && !m.NoComma? && tail[0] != 0x22 && tail[0] != 0x2F
    && (if m.Labelled? then !White(tail[0])
        else !Letter(tail[0]) && tail[0] != 0x3A && (m.word == [] ==> !White(tail[0])))
  }

  predicate ClosingWritable(c: Closing, comment: bool)
  {
    && Without(c.before, 0x29) && Without(c.between, 0x28) && Listable(c.list)
    && (!comment && c.before != [] ==> c.before[0] != 0x22)
  }

  /** What MIN and MAX are after the declaration: a word leaves the number of an earlier
      declaration, but `MANY` and `UNEVALLED` for MAX. */
  function ArityOf(m: Macro, a: Arity): Arity
  {
    if !m.Defun? then a
    else
      Arity(if m.min.value.Literal? then m.min.value.n else a.min,
            if m.max.value.Literal? then m.max.value.n
            else if m.max.value.word != [] && (m.max.value.word[0] == 0x4D || m.max.value.word[0] == 0x55) then -1
            else a.max)
  }

  /** The parameter list is read for a function of fixed arity whose documentation has no
      usage line. */
  predicate NeedsList(m: Macro, document: Document, a: Arity)
  {
    m.Defun? && ArityOf(m, a).max != -1 && document.usage.NoUsage?
  }

  predicate DocWritable(doc: Documentation, m: Macro, tail: Bytes, a: Arity)
    requires tail != []
  {
    && MarkerWritable(doc.marker)
    && match doc
       case Missing(marker) => EndsBare(marker, tail)
       case Present(marker, comment, pad, document, closing) =>
         && (marker.Comma? ==> marker.word == []) && (marker.NoComma? ==> comment)
         && Writable(document, pad, comment)
         && (closing.Some? <==> NeedsList(m, document, a))
         && (closing.Some? ==> ClosingWritable(closing.value, comment))
         && (!comment && closing.None? ==> tail[0] != 0x22)
  }

  predicate DeclarationWritable(d: Declaration, a: Arity)
  {
    && LeadWritable(d.macro, d.word) && Allowed(d.name, false, false) && BetweenWritable(d.macro, d.fields)
    && SpecWritable(d.spec) && d.tail != [] && DocWritable(d.doc, d.macro, d.tail, a)
  }

  // ------------------------------------------------------------------- what it comes to

  function KindOf(m: Macro): Byte { if m.Defvar? || m.PerBuffer? then 0x56 else 0x46 }

  /** The reported offset, for a declaration whose line starts at `i`. */
  function OffsetOf(m: Macro, indent: nat, i: nat): nat
  {
    if m.Defvar? || m.PerBuffer? then i + indent + 10 else i + 4
  }

  function DocTextOf(doc: Documentation, a: Arity): Bytes
    requires doc.Present?
  {
    DocumentText(doc.document)
    + (if doc.closing.Some? then [0x0A, 0x0A] + LispUsage(doc.closing.value.list, a.min, a.max) else [])
  }

  /** What the declaration on the line at `i` comes to, after arity `a`. */
  function OutcomeOf(d: Declaration, i: nat, a: Arity): Outcome
  {
    var name := Batch(Meaning(d.name));
    if d.doc.Missing? then Bare(name)
    else
      Documented(Record(KindOf(d.macro), name, DocTextOf(d.doc, ArityOf(d.macro, a)), OffsetOf(d.macro, d.indent, i)))
  }

  // ------------------------------------------------------------------------- the head

  lemma {:induction false} FindOver(data: Bytes, i: nat, s: Bytes, b: Byte)
    requires Has(data, i, s + [b]) && Without(s, b)
    ensures Find(data, i, b) == i + |s| < |data| && data[i + |s|] == b
    decreases |s|
  {
    HasParts(data, i, s, [b]);
    HasAt(data, i + |s|, [b], 0);
    if s != [] {
      HasAt(data, i, s, 0);
      assert s + [b] == [s[0]] + (s[1..] + [b]);
      HasParts(data, i, [s[0]], s[1..] + [b]);
      FindOver(data, i + 1, s[1..], b);
    }
  }

  lemma {:induction false} UnindentOver(data: Bytes, i: nat, s: Bytes)
    requires Has(data, i, s) && (forall k :: 0 <= k < |s| ==> s[k] == 0x20) && At(data, i + |s|) != 0x20
    ensures Unindent(data, i) == i + |s|
    decreases |s|
  {
    if s != [] {
      HasAt(data, i, s, 0);
      assert s == [s[0]] + s[1..];
      HasParts(data, i, [s[0]], s[1..]);
      UnindentOver(data, i + 1, s[1..]);
    }
  }

  lemma {:induction false} HasWord(data: Bytes, i: nat, word: Bytes)
    requires Has(data, i, word)
    ensures WordAt(data, i, word)
  {
    forall k | 0 <= k < |word| ensures At(data, i + k) == word[k] { HasAt(data, i, word, k); }
  }

  lemma {:induction false} NotDef(data: Bytes, i: nat)
    requires At(data, i) == 0x20
    ensures !WordAt(data, i, DEF)
  {
    assert At(data, i + 0) != DEF[0];
  }

  /** A column-zero head. */
  lemma {:induction false} DefHead(data: Bytes, i: nat, word: Bytes, defun: bool)
    requires Has(data, i, [0x44, 0x45, 0x46] + (word + [0x28])) && Without(word, 0x28)
    requires defun <==> word != [] && word[0] == 0x55
    ensures HeadOn(data, i) == Some(Head(0x46, i + 4, defun, false))
    ensures Find(data, i + 3, 0x28) == i + 3 + |word| < |data|
  {
    HasParts(data, i, [0x44, 0x45, 0x46], word + [0x28]);
    HasWord(data, i, [0x44, 0x45, 0x46]);
    assert DEF == [0x44, 0x45, 0x46];
    HasAt(data, i + 3, word + [0x28], 0);
    FindOver(data, i + 3, word, 0x28);
  }

  lemma {:induction false} SpacedWord(data: Bytes, i: nat, n: nat, word: Bytes)
    requires Has(data, i, Spaces(n + 1) + word) && word != [] && word[0] != 0x20
    ensures At(data, i) == 0x20 && Unindent(data, i) == i + n + 1 && Has(data, i + n + 1, word)
  {
    HasParts(data, i, Spaces(n + 1), word);
    HasAt(data, i, Spaces(n + 1), 0);
    HasAt(data, i + n + 1, word, 0);
    UnindentOver(data, i, Spaces(n + 1));
  }

  lemma {:induction false} IndentedHead(data: Bytes, i: nat, q: nat)
    requires At(data, i) == 0x20 && Unindent(data, i) == q && WordAt(data, q, DEFVAR)
    ensures HeadOn(data, i) == Some(Head(0x56, q + 9, false, At(data, q + 7) == 0x50))
  {
    NotDef(data, i);
  }

  lemma {:induction false} DefvarParts(data: Bytes, q: nat, first: Byte, rest: Bytes)
    requires Has(data, q, [0x44, 0x45, 0x46, 0x56, 0x41, 0x52, 0x5F] + ([first] + rest))
    ensures WordAt(data, q, DEFVAR) && At(data, q + 7) == first && Has(data, q + 8, rest)
  {
    var def: Bytes := [0x44, 0x45, 0x46, 0x56, 0x41, 0x52, 0x5F];
    assert DEFVAR == def;
    HasParts(data, q, def, [first] + rest);
    HasWord(data, q, def);
    HasParts(data, q + 7, [first], rest);
    HasAt(data, q + 7, [first], 0);
  }

  /** An indented head. */
  lemma {:induction false} DefvarHead(data: Bytes, i: nat, n: nat, first: Byte, word: Bytes)
    requires Has(data, i, Spaces(n + 1) + ([0x44, 0x45, 0x46, 0x56, 0x41, 0x52, 0x5F] + ([first] + (word + [0x28]))))
    requires Without(word, 0x28) && first != 0x28
    ensures HeadOn(data, i) == Some(Head(0x56, i + n + 10, false, first == 0x50))
    ensures Find(data, i + n + 9, 0x28) == i + n + 9 + |word| < |data|
  {
    SpacedWord(data, i, n, [0x44, 0x45, 0x46, 0x56, 0x41, 0x52, 0x5F] + ([first] + (word + [0x28])));
    DefvarFound(data, i, i + n + 1, first, word);
  }

  lemma {:induction false} DefvarFound(data: Bytes, i: nat, q: nat, first: Byte, word: Bytes)
    requires At(data, i) == 0x20 && Unindent(data, i) == q && Without(word, 0x28) && first != 0x28
    requires Has(data, q, [0x44, 0x45, 0x46, 0x56, 0x41, 0x52, 0x5F] + ([first] + (word + [0x28])))
    ensures HeadOn(data, i) == Some(Head(0x56, q + 9, false, first == 0x50))
    ensures Find(data, q + 8, 0x28) == q + 8 + |word| < |data|
  {
    DefvarParts(data, q, first, word + [0x28]);
    IndentedHead(data, i, q);
    FindOver(data, q + 8, word, 0x28);
  }

  lemma {:induction false} DefunLead(word: Bytes)
    ensures [0x44, 0x45, 0x46, 0x55] + word + [0x28] == [0x44, 0x45, 0x46] + (([0x55] + word) + [0x28])
  {
  }

  lemma {:induction false} DefvarLead(n: nat, word: Bytes)
    requires word != []
    ensures Spaces(n + 1) + ([0x44, 0x45, 0x46, 0x56, 0x41, 0x52, 0x5F] + word) + [0x28]
         == Spaces(n + 1) + ([0x44, 0x45, 0x46, 0x56, 0x41, 0x52, 0x5F] + ([word[0]] + (word[1..] + [0x28])))
  {
    assert word == [word[0]] + word[1..];
  }

  lemma {:induction false} PerBufferLead(n: nat, word: Bytes)
    ensures Spaces(n + 1) + ([0x44, 0x45, 0x46, 0x56, 0x41, 0x52, 0x5F, 0x50] + word) + [0x28]
         == Spaces(n + 1) + ([0x44, 0x45, 0x46, 0x56, 0x41, 0x52, 0x5F] + ([0x50] + (word + [0x28])))
  {
  }

  lemma {:induction false} DefunWord(data: Bytes, i: nat, word: Bytes)
    requires Has(data, i, [0x44, 0x45, 0x46, 0x55] + word + [0x28]) && Without(word, 0x28)
    ensures HeadOn(data, i) == Some(Head(0x46, i + 4, true, false))
    ensures Find(data, i + 3, 0x28) == i + 4 + |word| < |data|
  {
    DefunLead(word);
    DefHead(data, i, [0x55] + word, true);
  }

  lemma {:induction false} SimpleWord(data: Bytes, i: nat, word: Bytes)
    requires Has(data, i, [0x44, 0x45, 0x46] + word + [0x28]) && Without(word, 0x28)
    requires word != [] ==> word[0] != 0x55
    ensures HeadOn(data, i) == Some(Head(0x46, i + 4, false, false))
    ensures Find(data, i + 3, 0x28) == i + 3 + |word| < |data|
  {
    AppendAssoc([0x44, 0x45, 0x46], word, [0x28]);
    DefHead(data, i, word, false);
  }

  lemma {:induction false} DefvarWord(data: Bytes, i: nat, n: nat, word: Bytes)
    requires Has(data, i, Spaces(n + 1) + ([0x44, 0x45, 0x46, 0x56, 0x41, 0x52, 0x5F] + word) + [0x28])
    requires Without(word, 0x28) && word != []
    ensures HeadOn(data, i) == Some(Head(0x56, i + n + 10, false, word[0] == 0x50))
    ensures Find(data, i + n + 9, 0x28) == i + n + 8 + |word| < |data|
  {
    DefvarLead(n, word);
    DefvarHead(data, i, n, word[0], word[1..]);
  }

  lemma {:induction false} PerBufferWord(data: Bytes, i: nat, n: nat, word: Bytes)
    requires Has(data, i, Spaces(n + 1) + ([0x44, 0x45, 0x46, 0x56, 0x41, 0x52, 0x5F, 0x50] + word) + [0x28])
    requires Without(word, 0x28)
    ensures HeadOn(data, i) == Some(Head(0x56, i + n + 10, false, true))
    ensures Find(data, i + n + 9, 0x28) == i + n + 9 + |word| < |data|
  {
    PerBufferLead(n, word);
    DefvarHead(data, i, n, 0x50, word);
  }

  /** Where the parenthesis after the lead is, and what head it makes. */
  lemma {:induction false} LeadHead(data: Bytes, i: nat, m: Macro, indent: nat, word: Bytes, open: nat)
    requires Has(data, i, Lead(m, indent, word) + [0x28]) && LeadWritable(m, word)
    requires open == i + |Lead(m, indent, word)|
    ensures HeadOn(data, i) == Some(Head(KindOf(m), OffsetOf(m, indent, i), m.Defun?, m.PerBuffer?))
    ensures Find(data, OffsetOf(m, indent, i) - 1, 0x28) == open < |data|
  {
    match m
    case Defun(_, _) => DefunWord(data, i, word);
    case Simple => SimpleWord(data, i, word);
    case Defvar => DefvarWord(data, i, indent, word);
    case PerBuffer => PerBufferWord(data, i, indent, word);
  }

  // ------------------------------------------------------------------------- the name

  lemma {:induction false} StringParts(data: Bytes, i: nat, ps: Pieces, rest: Bytes, end: nat)
    requires Has(data, i, Source(ps) + ([0x22] + rest)) && end == i + |Source(ps)|
    ensures Has(data, i, Source(ps) + [0x22]) && Has(data, end + 1, rest)
    ensures rest != [] ==> At(data, end + 1) == rest[0]
  {
    AppendAssoc(Source(ps), [0x22], rest);
    HasParts(data, i, Source(ps) + [0x22], rest);
    if rest != [] { HasAt(data, end + 1, rest, 0); }
  }

  /** A string without keyword: its text, or only its end. */
  lemma {:induction false} StringRead(data: Bytes, i: nat, ps: Pieces, sink: bool, end: nat)
    requires Has(data, i, Source(ps) + [0x22]) && Allowed(ps, false, false) && end == i + |Source(ps)|
    requires At(data, end + 1) != 0x22
    ensures var r := ReadBody(data, i, false, sink, false);
      r.end == end + 1 && r.fault == NoFault && (sink ==> r.text == Batch(Meaning(ps)))
  {
    LexSource(data, i, ps, false, false, end);
    HasParts(data, i, Source(ps), [0x22]);
    if sink { ReadNameIsBatch(data, i, false); } else { ReadPlain(data, i, false, Start(sink, false), false); }
  }

  // ----------------------------------------------------------------------- the commas

  lemma {:induction false} ToComma(data: Bytes, p: nat, s: Bytes, n: nat, defun: bool, a: Arity)
    requires n > 0 && Has(data, p, s) && Without(s, 0x2C)
    ensures AfterCommas(data, p, n, defun, a) == AfterCommas(data, p + |s|, n, defun, a)
    decreases |s|
  {
    if s != [] {
      HasAt(data, p, s, 0);
      assert s == [s[0]] + s[1..];
      HasParts(data, p, [s[0]], s[1..]);
      ToComma(data, p + 1, s[1..], n, defun, a);
    }
  }

  lemma {:induction false} PastComma(data: Bytes, p: nat, s: Bytes, n: nat, defun: bool, a: Arity)
    requires n > 0 && !(defun && (n == 2 || n == 3)) && Has(data, p, s + [0x2C]) && Without(s, 0x2C)
    ensures AfterCommas(data, p, n, defun, a) == AfterCommas(data, p + |s| + 1, n - 1, defun, a)
  {
    HasParts(data, p, s, [0x2C]);
    HasAt(data, p + |s|, [0x2C], 0);
    ToComma(data, p, s, n, defun, a);
  }

  lemma {:induction false} FieldParts(data: Bytes, p: nat, f: Bytes, more: Bytes, rest: Bytes, q: nat)
    requires Has(data, p, f + ([0x2C] + more) + rest) && q == p + |f| + 1
    ensures Has(data, p, f + [0x2C]) && Has(data, q, more + rest)
  {
    assert f + ([0x2C] + more) + rest == (f + [0x2C]) + (more + rest);
    HasParts(data, p, f + [0x2C], more + rest);
  }

  /** Fields that are not counted as arity. */
  lemma {:induction false} PastFields(data: Bytes, p: nat, fields: seq<Bytes>, k: nat, rest: Bytes, n: nat, defun: bool,
                                      a: Arity)
    requires k <= |fields| && Has(data, p, Fields(fields, k) + rest) && n >= |fields| - k
    requires forall j :: 0 <= j < |fields| ==> Without(fields[j], 0x2C)
    requires defun ==> n > 3 + |fields| - k - 1
    ensures AfterCommas(data, p, n, defun, a)
         == AfterCommas(data, p + |Fields(fields, k)|, n - (|fields| - k), defun, a)
    decreases |fields| - k
  {
    if k < |fields| {
      var f, more := fields[k], Fields(fields, k + 1);
      var q := p + |f| + 1;
      FieldParts(data, p, f, more, rest, q);
      PastComma(data, p, f, n, defun, a);
      PastFields(data, q, fields, k + 1, rest, n - 1, defun, a);
      assert |Fields(fields, k)| == |f| + 1 + |more|;
    }
  }

  // ------------------------------------------------------------------------ MIN and MAX

  lemma {:induction false} NumeralIsValue(data: Bytes, a: nat, b: nat)
    requires a <= b <= |data| && forall k :: a <= k < b ==> IsDigit(data[k])
    ensures Numeral(data, a, b) == DecimalValue(data[a..b])
  {
    if a < b {
      NumeralIsValue(data, a, b - 1);
      var s := data[a..b];
      assert s[..|s| - 1] == data[a..b - 1] && s[|s| - 1] == data[b - 1];
    }
  }

  lemma {:induction false} DigitsOver(data: Bytes, i: nat, s: Bytes)
    requires Has(data, i, s) && (forall k :: 0 <= k < |s| ==> IsDigit(s[k])) && !IsDigit(At(data, i + |s|))
    ensures SkipDigits(data, i) == i + |s|
    decreases |s|
  {
    if s != [] {
      HasAt(data, i, s, 0);
      assert s == [s[0]] + s[1..];
      HasParts(data, i, [s[0]], s[1..]);
      DigitsOver(data, i + 1, s[1..]);
    }
  }

  /** A numeral at `i`. */
  lemma {:induction false} DecimalScanned(data: Bytes, i: nat, n: nat)
    requires Has(data, i, Decimal(n)) && !IsDigit(At(data, i + |Decimal(n)|))
    ensures SkipDigits(data, i) == i + |Decimal(n)| > i && Numeral(data, i, i + |Decimal(n)|) == n
    ensures IsDigit(At(data, i))
  {
    var s := Decimal(n);
    DigitsOver(data, i, s);
    HasAt(data, i, s, 0);
    forall k | i <= k < i + |s| ensures IsDigit(data[k]) { HasAt(data, i, s, k - i); }
    NumeralIsValue(data, i, i + |s|);
    DecimalRoundTrip(n);
  }

  lemma {:induction false} UnsignedScanned(data: Bytes, i: nat, end: nat)
    requires SkipDigits(data, i) == end > i && IsDigit(At(data, i))
    ensures ScanInt(data, i) == (Some(Numeral(data, i, end)), end)
  {
  }

  lemma {:induction false} MinusScanned(data: Bytes, i: nat, end: nat)
    requires At(data, i) == 0x2D && SkipDigits(data, i + 1) == end > i + 1
    ensures ScanInt(data, i) == (Some(-Numeral(data, i + 1, end)), end)
  {
  }

  lemma {:induction false} LiteralScanned(data: Bytes, i: nat, n: int)
    requires Has(data, i, NumberSource(Literal(n))) && !IsDigit(At(data, i + |NumberSource(Literal(n))|))
    ensures ScanInt(data, i) == (Some(n), i + |NumberSource(Literal(n))|)
    ensures IsDigit(At(data, i)) || At(data, i) == 0x2D
  {
    if n < 0 {
      HasParts(data, i, [0x2D], Decimal(-n));
      HasAt(data, i, [0x2D], 0);
      DecimalScanned(data, i + 1, -n);
      MinusScanned(data, i, i + 1 + |Decimal(-n)|);
    } else {
      DecimalScanned(data, i, n);
      UnsignedScanned(data, i, i + |Decimal(n)|);
    }
  }

  lemma {:induction false} WordNotScanned(data: Bytes, i: nat)
    requires i < |data| && !IsSpace(data[i]) && !IsDigit(data[i]) && data[i] != 0x2B && data[i] != 0x2D
    ensures ScanInt(data, i) == (None, i)
  {
  }

  /** The arity after MIN (two commas left) or MAX (one left). */
  function Updated(v: Number, left: nat, a: Arity): Arity
    requires v.Word? ==> v.word != []
  {
    if left == 2 then (if v.Literal? then a.(min := v.n) else a)
    else if v.Literal? then a.(max := v.n)
    else if v.word[0] == 0x4D || v.word[0] == 0x55 then a.(max := -1) else a
  }

  lemma {:induction false} LiteralRead(data: Bytes, s: nat, left: nat, a: Arity, n: int, end: nat)
    requires ScanInt(data, s) == (Some(n), end) && At(data, s) != 0x4D && At(data, s) != 0x55
    ensures ArityAt(data, s, left, a) == (end, if left == 2 then a.(min := n) else a.(max := n))
  {
  }

  lemma {:induction false} WordRead(data: Bytes, s: nat, left: nat, a: Arity)
    requires ScanInt(data, s) == (None, s)
    ensures ArityAt(data, s, left, a) ==
      (s, if left != 2 && (At(data, s) == 0x4D || At(data, s) == 0x55) then a.(max := -1) else a)
  {
  }

  lemma {:induction false} NumberLiteral(data: Bytes, s: nat, n: int, rest: Bytes, left: nat, a: Arity)
    requires Has(data, s, NumberSource(Literal(n)) + (rest + [0x2C])) && (rest != [] ==> !IsDigit(rest[0]))
    ensures s < |data| && !IsSpace(data[s])
    ensures ArityAt(data, s, left, a) ==
      (s + |NumberSource(Literal(n))|, if left == 2 then a.(min := n) else a.(max := n))
  {
    var text, after := NumberSource(Literal(n)), rest + [0x2C];
    HasParts(data, s, text, after);
    HasAt(data, s + |text|, after, 0);
    LiteralScanned(data, s, n);
    LiteralRead(data, s, left, a, n, s + |text|);
  }

  lemma {:induction false} NumberWord(data: Bytes, s: nat, word: Bytes, rest: Bytes, left: nat, a: Arity)
    requires Has(data, s, word + (rest + [0x2C])) && NumberWritable(NumberField([], Word(word), rest))
    ensures s < |data| && !IsSpace(data[s])
    ensures ArityAt(data, s, left, a) ==
      (s, if left != 2 && (word[0] == 0x4D || word[0] == 0x55) then a.(max := -1) else a)
  {
    HasParts(data, s, word, rest + [0x2C]);
    HasAt(data, s, word, 0);
    WordNotScanned(data, s);
    WordRead(data, s, left, a);
  }

  /** The number that starts at `s`, where `left` commas are left. */
  lemma {:induction false} NumberRead(data: Bytes, s: nat, v: Number, rest: Bytes, left: nat, a: Arity, b: Arity)
    requires Has(data, s, NumberSource(v) + (rest + [0x2C])) && NumberWritable(NumberField([], v, rest))
    requires left == 1 || left == 2
    requires b == Updated(v, left, a)
    ensures s < |data| && !IsSpace(data[s])
    ensures ArityAt(data, s, left, a) == (if v.Literal? then s + |NumberSource(v)| else s, b)
  {
    match v
    case Literal(n) => NumberLiteral(data, s, n, rest, left, a);
    case Word(word) => NumberWord(data, s, word, rest, left, a);
  }

  lemma {:induction false} NumberLeft(data: Bytes, s: nat, v: Number, rest: Bytes, end: nat)
    requires Has(data, s, NumberSource(v) + (rest + [0x2C])) && end == s + |NumberSource(v)| + |rest|
    ensures Has(data, s, NumberSource(v)) && Has(data, s + |NumberSource(v)|, rest) && end < |data| && data[end] == 0x2C
  {
    HasParts(data, s, NumberSource(v), rest + [0x2C]);
    HasParts(data, s + |NumberSource(v)|, rest, [0x2C]);
    HasAt(data, end, [0x2C], 0);
  }

  lemma {:induction false} CommaNumber(data: Bytes, p: nat, n: nat, a: Arity, b: Arity, s: nat, next: nat)
    requires n == 2 || n == 3
    requires p < |data| && data[p] == 0x2C && SkipSpaces(data, p + 1) == s < |data|
    requires ArityAt(data, s, n - 1, a) == (next, b)
    ensures AfterCommas(data, p, n, true, a) == AfterCommas(data, next, n - 1, true, b)
  {
  }

  lemma {:induction false} AfterNumber(data: Bytes, s: nat, v: Number, rest: Bytes, n: nat, b: Arity, next: nat,
                                       end: nat)
    requires Has(data, s, NumberSource(v)) && Has(data, s + |NumberSource(v)|, rest) && n > 0
    requires NumberWritable(NumberField([], v, rest)) && end == s + |NumberSource(v)| + |rest|
    requires next == if v.Literal? then s + |NumberSource(v)| else s
    ensures AfterCommas(data, next, n, true, b) == AfterCommas(data, end, n, true, b)
  {
    if v.Word? { ToComma(data, s, NumberSource(v), n, true, b); }
    ToComma(data, s + |NumberSource(v)|, rest, n, true, b);
  }

  /** A comma and the number after it. */
  lemma {:induction false} PastNumber(data: Bytes, p: nat, f: NumberField, n: nat, a: Arity, b: Arity, end: nat)
    requires n == 2 || n == 3
    requires p < |data| && data[p] == 0x2C && Has(data, p + 1, FieldSource(f)) && NumberWritable(f)
    requires b == Updated(f.value, n - 1, a)
    requires end == p + |FieldSource(f)|
    ensures AfterCommas(data, p, n, true, a) == AfterCommas(data, end, n - 1, true, b)
    ensures end < |data| && data[end] == 0x2C
  {
    var s, v := p + 1 + |f.pad|, f.value;
    var next := if v.Literal? then s + |NumberSource(v)| else s;
    HasParts(data, p + 1, f.pad, NumberSource(v) + (f.rest + [0x2C]));
    NumberRead(data, s, v, f.rest, n - 1, a, b);
    SkipOver(data, p + 1, f.pad);
    NumberLeft(data, s, v, f.rest, end);
    CommaNumber(data, p, n, a, b, s, next);
    AfterNumber(data, s, v, f.rest, n - 1, b, next, end);
  }
}
