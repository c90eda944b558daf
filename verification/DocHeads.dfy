/**
 What scripts/make_docfile.py finds in a C file, as a function of the file: which
 lines carry a `DEFUN`/`DEFVAR_` head, where the name, the arity, the documentation
 and the parameter list of a head are, and what becomes of it.
 */
module DocHeads {
  import opened Text
  import opened DocStream
  import opened DocText
  import opened DocRead
  import opened DocArgs

  const FS: Byte := 0x1F
  const COMMA: Byte := 0x2C
  const KIND_F: Byte := 0x46
  const KIND_V: Byte := 0x56
  /** `DEF` */
  const DEF: Bytes := [0x44, 0x45, 0x46]
  /** `DEFVAR_` */
  const DEFVAR: Bytes := [0x44, 0x45, 0x46, 0x56, 0x41, 0x52, 0x5F]

  datatype Record = Record(kind: Byte, name: Bytes, doc: Bytes, offset: nat)

  /** `\037` KIND NAME newline DOC. */
  function Render(r: Record): Bytes { [FS, r.kind] + r.name + [NL] + r.doc }

  function RenderAll(rs: seq<Record>): Bytes
  {
    if rs == [] then [] else RenderAll(rs[..|rs| - 1]) + Render(rs[|rs| - 1])
  }

  function Header(path: Bytes, emit: bool): Bytes
  {
    if emit then [FS, 0x53] + path + [NL] else []
  }

  // ------------------------------------------------------------------------ heads

  /** First index at or after `i` holding `b`, or the end. */
  function Find(data: Bytes, i: nat, b: Byte): (r: nat)
    ensures r >= i && (i <= |data| ==> r <= |data|)
    decreases |data| - i
  {
    if i < |data| && data[i] != b then Find(data, i + 1, b) else i
  }

  predicate Break(c: int) { c == NL || c == CR }

  predicate LineStart(data: Bytes, line: nat) { line == 0 || Break(At(data, line - 1)) }

  function Unindent(data: Bytes, i: nat): (r: nat)
    ensures r >= i
    decreases |data| - i
  {
    if At(data, i) == SPACE then Unindent(data, i + 1) else i
  }

  predicate WordAt(data: Bytes, i: nat, word: Bytes)
  {
    forall k :: 0 <= k < |word| ==> At(data, i + k) == word[k]
  }

  /** A head: its kind, the offset reported for it, and which macro it is. */
  datatype Head = Head(kind: Byte, offset: nat, defun: bool, perBuffer: bool)
  {
    /** The commas between the name and the documentation. */
    function Commas(): nat
    {
      if defun then 5 else if perBuffer then 3 else if kind == KIND_V then 1 else 2
    }
  }

  /** The head on a line: a column-zero `DEF...` for a function, an indented `DEFVAR_`
      for a variable. */
  function HeadOn(data: Bytes, line: nat): (h: Option<Head>)
    ensures h.Some? ==> h.value.offset >= line + 4
  {
    if WordAt(data, line, DEF) then Some(Head(KIND_F, line + 4, At(data, line + 3) == 0x55, false))
    else
      var q := Unindent(data, line);
      if At(data, line) == SPACE && WordAt(data, q, DEFVAR) then
        Some(Head(KIND_V, q + 9, false, At(data, q + 7) == 0x50))
      else None
  }

  // ------------------------------------------------------- the arguments of a head

  datatype Arity = Arity(min: int, max: int)

  /** The MIN (two commas left) or MAX (one left) that starts at `s`, and where reading
      goes on. One that is not a literal leaves the number of an earlier head. */
  function ArityAt(data: Bytes, s: nat, left: nat, a: Arity): (r: (nat, Arity))
    ensures r.0 >= s && (s <= |data| ==> r.0 <= |data|)
  {
    var (n, end) := ScanInt(data, s);
    if left == 2 then (end, if n.Some? then a.(min := n.value) else a)
    else if At(data, s) == 0x4D || At(data, s) == 0x55 then (s, a.(max := -1))
    else (end, if n.Some? then a.(max := n.value) else a)
  }

  /** The index after the `n`-th comma from `p` on, none if the file ends first, and
      the arity read on the way. */
  function AfterCommas(data: Bytes, p: nat, n: nat, defun: bool, a: Arity): (r: (Option<nat>, Arity))
    ensures r.0.Some? ==> p <= r.0.value && (p <= |data| ==> r.0.value <= |data|)
    decreases |data| - p
  {
    if n == 0 then (Some(p), a)
    else if p >= |data| then (None, a)
    else if data[p] != COMMA then AfterCommas(data, p + 1, n, defun, a)
    else if defun && (n == 2 || n == 3) then
      var s := SkipSpaces(data, p + 1);
      if s >= |data| then (None, a)
      else
        var (next, b) := ArityAt(data, s, n - 1, a);
        AfterCommas(data, next, n - 1, defun, b)
    else AfterCommas(data, p + 1, n - 1, defun, a)
  }

  function CommaOrSlash(data: Bytes, i: nat): (r: nat)
    ensures r >= i && (i <= |data| ==> r <= |data|)
    decreases |data| - i
  {
    if i < |data| && data[i] != COMMA && data[i] != SLASH then CommaOrSlash(data, i + 1) else i
  }

  function SkipLetters(data: Bytes, i: nat): (r: nat)
    ensures r >= i && (i <= |data| ==> r <= |data|)
    decreases |data| - i
  {
    if i < |data| && IsAlpha(data[i]) then SkipLetters(data, i + 1) else i
  }

  /** Where the documentation opens: the index of its quote or of the star of its
      comment, and whether a `doc:` came before it. */
  datatype Opening = Opening(at: nat, keyword: bool, comment: bool)
  {
    predicate Opens(data: Bytes) { comment || At(data, at) == QUOTE }
  }

  /** An old-style string, if there is one, up to the comma or slash after it. */
  function AfterSpec(data: Bytes, p: nat): (r: nat)
  {
    var i := SkipSpaces(data, p);
    CommaOrSlash(data, if At(data, i) == QUOTE then ReadBody(data, i + 1, false, false, false).end else i)
  }

  /** After a comma, an identifier and a colon are a `doc:` marker. */
  function AfterMarker(data: Bytes, i: nat): (r: (nat, bool))
  {
    if At(data, i) != COMMA then (i, false)
    else
      var w := SkipLetters(data, SkipSpaces(data, i + 1));
      if At(data, w) == 0x3A then (SkipSpaces(data, w + 1), true) else (w, false)
  }

  function OpeningAt(data: Bytes, p: nat): Opening
  {
    var (i, keyword) := AfterMarker(data, AfterSpec(data, p));
    if At(data, i) == SLASH then Opening(i + 1, keyword, At(data, i + 1) == STAR) else Opening(i, keyword, false)
  }

  /** The parenthesis that brings `depth` back to zero, from `i` on. */
  function Matching(data: Bytes, i: nat, depth: int): (r: Option<nat>)
    ensures r.Some? ==> i <= r.value < |data|
    decreases |data| - i
  {
    if i >= |data| then None
    else
      var d := depth + (if data[i] == OPEN then 1 else 0) - (if data[i] == CLOSE then 1 else 0);
      if data[i] == CLOSE && d == 0 then Some(i) else Matching(data, i + 1, d)
  }

  /** The parameter list after documentation that ends at `p`: the first parenthesis,
      past the closing one of the macro where that is still to come, and its match. */
  function ParametersAt(data: Bytes, p: nat, inMacro: bool): (r: Option<(nat, nat)>)
    ensures r.Some? ==> p <= r.value.0 <= r.value.1 < |data|
  {
    var i := if inMacro then Find(data, p, CLOSE) else p;
    var open := Find(data, i, OPEN);
    if i >= |data| || open >= |data| then None
    else match Matching(data, open, 0)
      case None => None
      case Some(close) => Some((open, close))
  }

  // ------------------------------------------------------------ what becomes of one

  datatype Outcome =
    | Nameless                         // its first argument is not a string literal
    | Bare(name: Bytes)                // it has a name and no documentation
    | Documented(record: Record)
    | Unfinished(cut: Option<Record>)  // the file ended, perhaps inside the parameters
    | Raised

  /** What a head came to, the index of the character after it, and the arity read. */
  datatype Fate = Fate(outcome: Outcome, end: nat, arity: Arity)

  /** Once the documentation is read, up to `p`: the usage line of a `DEFUN` that has a
      fixed arity and no usage line of its own. */
  function UsageFate(data: Bytes, r: Record, defun: bool, usage: bool, inMacro: bool, p: nat, a: Arity): Fate
  {
    if !defun || a.max == -1 || usage then Fate(Documented(r), p, a)
    else match ParametersAt(data, p, inMacro)
      case None => Fate(Unfinished(Some(r)), |data|, a)
      case Some(q) => Fate(Documented(WithUsage(r, data[q.0..q.1 + 1], a)), q.1, a)
  }

  /** A blank line and the usage line. */
  function WithUsage(r: Record, parameters: Bytes, a: Arity): Record
  {
    r.(doc := r.doc + ([NL, NL] + UsageOf(parameters, a.min, a.max)))
  }

  /** From the opening of the documentation on. */
  function DocFate(data: Bytes, h: Head, name: Bytes, o: Opening, a: Arity): Fate
  {
    var d := ReadBody(data, o.at + 1, o.comment, true, true);
    if d.fault != NoFault then Fate(Raised, d.end, a)
    else
      var r := Record(h.kind, name, d.text, h.offset);
      UsageFate(data, r, h.defun, d.usage, !o.comment || o.keyword, d.end, a)
  }

  /** From behind the counted commas on. */
  function OpeningFate(data: Bytes, h: Head, name: Bytes, q: nat, a: Arity): Fate
  {
    var o := OpeningAt(data, q);
    if o.Opens(data) then DocFate(data, h, name, o, a) else Fate(Bare(name), o.at, a)
  }

  /** From the end of the name on. */
  function NamedFate(data: Bytes, h: Head, name: Bytes, p: nat, a: Arity): Fate
  {
    var (q, b) := AfterCommas(data, p, h.Commas(), h.defun, a);
    if q.None? then Fate(Unfinished(None), |data|, b) else OpeningFate(data, h, name, q.value, b)
  }

  /** From the quote at `i` on, which opens the name. */
  function LiteralFate(data: Bytes, h: Head, i: nat, a: Arity): Fate
  {
    var name := ReadBody(data, i + 1, false, true, false);
    if name.fault != NoFault then Fate(Raised, name.end, a) else NamedFate(data, h, name.text, name.end, a)
  }

  /** From the first parenthesis on. */
  function ParenFate(data: Bytes, h: Head, open: nat, a: Arity): Fate
  {
    if At(data, open + 1) != QUOTE then Fate(Nameless, open + 1, a) else LiteralFate(data, h, open + 1, a)
  }

  function HeadFate(data: Bytes, h: Head, a: Arity): Fate
    requires h.offset > 0
  {
    var open := Find(data, h.offset - 1, OPEN);
    if open >= |data| then Fate(Unfinished(None), |data|, a) else ParenFate(data, h, open, a)
  }
}
