/**
 A C file written as a list of declarations with other text between them, and what
 scanning it gives: exactly those records and names, in that order.
 */
module DocPrint {
  import opened Text
  import opened DocStream
  import opened DocText
  import opened DocMachine
  import opened DocRead
  import opened DocHeads
  import opened DocLog
  import opened DocWrite
  import opened DocBody
  import opened DocUsage
  import opened DocDeclare
  import opened DocDeclared

  // ------------------------------------------------------------------- the text between

  predicate IsBreak(c: Byte) { c == 0x0A || c == 0x0D }

  /** Nothing but spaces between the start of a line and position `m`. */
  predicate Indented(s: Bytes, m: nat)
    requires m <= |s|
  {
    m == 0 || IsBreak(s[m - 1]) || (s[m - 1] == 0x20 && Indented(s, m - 1))
  }

  /** No line starts with a `D`, indented or not. */
  predicate Quiet(s: Bytes) { forall m :: 0 <= m < |s| && s[m] == 0x44 ==> !Indented(s, m) }

  predicate EndsLine(s: Bytes) { s != [] && IsBreak(s[|s| - 1]) }

  // ------------------------------------------------------------------------- the file

  /** The declarations from the `k`-th on. */
  function FileSource(ds: seq<Declaration>, k: nat): Bytes
    requires k <= |ds|
    decreases |ds| - k
  {
    if k == |ds| then [] else DeclarationSource(ds[k]) + FileSource(ds, k + 1)
  }

  /** Every declaration can be written after the ones before it, whose arities it may take
      over, and is followed by whole lines without another. */
  predicate FileWritable(ds: seq<Declaration>, k: nat, a: Arity)
    requires k <= |ds|
    decreases |ds| - k
  {
    k < |ds| ==>
      && DeclarationWritable(ds[k], a) && EndsLine(ds[k].tail) && Quiet(ds[k].tail)
      && FileWritable(ds, k + 1, ArityOf(ds[k].macro, a))
  }

  /** The records of the declarations from the `k`-th on, which starts at `i`. */
  function RecordsOf(ds: seq<Declaration>, k: nat, i: nat, a: Arity): seq<Record>
    requires k <= |ds|
    decreases |ds| - k
  {
    if k == |ds| then []
    else
      var o, next := OutcomeOf(ds[k], i, a), i + |DeclarationSource(ds[k])|;
      var rest := RecordsOf(ds, k + 1, next, ArityOf(ds[k].macro, a));
      if o.Documented? then [o.record] + rest else rest
  }

  /** The names without documentation, and where they stand. */
  function BareOf(ds: seq<Declaration>, k: nat, i: nat, a: Arity): seq<(Bytes, nat)>
    requires k <= |ds|
    decreases |ds| - k
  {
    if k == |ds| then []
    else
      var o, next := OutcomeOf(ds[k], i, a), i + |DeclarationSource(ds[k])|;
      var rest := BareOf(ds, k + 1, next, ArityOf(ds[k].macro, a));
      if o.Bare? then [(o.name, OffsetOf(ds[k].macro, ds[k].indent, i))] + rest else rest
  }

  /** The stream of some records. */
  function StreamOf(rs: seq<Record>): Bytes
  {
    if rs == [] then [] else [0x1F, rs[0].kind] + rs[0].name + [0x0A] + rs[0].doc + StreamOf(rs[1..])
  }

  // ------------------------------------------------------------------- no head in between

  lemma {:induction false} LineIsIndented(data: Bytes, t: nat, s: Bytes, m: nat)
    requires Has(data, t, s) && m < |s| && LineStart(data, t + m)
    ensures Indented(s, m)
  {
    if m > 0 { HasAt(data, t, s, m - 1); }
  }

  lemma {:induction false} UnindentInside(data: Bytes, t: nat, s: Bytes, m: nat)
    requires Has(data, t, s) && m < |s| && Indented(s, m) && EndsLine(s)
    ensures t <= Unindent(data, t + m) < t + |s| && Indented(s, Unindent(data, t + m) - t)
    decreases |s| - m
  {
    HasAt(data, t, s, m);
    if s[m] == 0x20 { UnindentInside(data, t, s, m + 1); }
  }

  lemma {:induction false} WordStarts(data: Bytes, q: nat, word: Bytes)
    requires WordAt(data, q, word) && word != []
    ensures At(data, q) == word[0]
  {
    assert At(data, q + 0) == word[0];
  }

  lemma {:induction false} NoHead(data: Bytes, t: nat, s: Bytes, m: nat)
    requires Has(data, t, s) && Quiet(s) && EndsLine(s) && m < |s|
    ensures !HeadStarts(data, t + m)
  {
    if LineStart(data, t + m) {
      LineIsIndented(data, t, s, m);
      UnindentInside(data, t, s, m);
      var q := Unindent(data, t + m);
      HasAt(data, t, s, m);
      HasAt(data, t, s, q - t);
      if WordAt(data, t + m, DEF) { WordStarts(data, t + m, DEF); }
      if WordAt(data, q, DEFVAR) { WordStarts(data, q, DEFVAR); }
    }
  }

  /** Scanning passes over the text between declarations. */
  lemma {:induction false} QuietLog(data: Bytes, t: nat, s: Bytes, m: nat, a: Arity)
    requires Has(data, t, s) && Quiet(s) && EndsLine(s) && m <= |s|
    ensures Log(data, t + m, a) == Log(data, t + |s|, a)
    decreases |s| - m
  {
    if m < |s| {
      NoHead(data, t, s, m);
      QuietLog(data, t, s, m + 1, a);
    }
  }

  // ------------------------------------------------------------------------ the log

  lemma {:induction false} RecordsCons(e: Entry, rest: seq<Entry>)
    ensures Records([e] + rest) == (if e.fate.outcome.Documented? then [e.fate.outcome.record] else []) + Records(rest)
  {
    var log := [e] + rest;
    if rest == [] {
      assert log == [e] && log[..0] == [];
      assert Records(log[..0]) == [];
    } else {
      var init := rest[..|rest| - 1];
      RecordsCons(e, init);
      assert log[..|log| - 1] == [e] + init && log[|log| - 1] == rest[|rest| - 1];
    }
  }

  lemma {:induction false} BareCons(e: Entry, rest: seq<Entry>)
    ensures WithoutDoc([e] + rest)
         == (if e.fate.outcome.Bare? then [(e.fate.outcome.name, e.head.offset)] else []) + WithoutDoc(rest)
  {
    var log := [e] + rest;
    if rest == [] {
      assert log == [e] && log[..0] == [];
      assert WithoutDoc(log[..0]) == [];
    } else {
      var init := rest[..|rest| - 1];
      BareCons(e, init);
      assert log[..|log| - 1] == [e] + init && log[|log| - 1] == rest[|rest| - 1];
    }
  }

  /** Every head comes to a record or a name. */
  ghost predicate AllRead(log: seq<Entry>)
  {
    forall k :: 0 <= k < |log| ==> log[k].fate.outcome.Documented? || log[k].fate.outcome.Bare?
  }

  lemma {:induction false} LineAfter(data: Bytes, t: nat, s: Bytes)
    requires Has(data, t, s) && EndsLine(s)
    ensures LineStart(data, t + |s|)
  {
    HasAt(data, t, s, |s| - 1);
  }

  lemma {:induction false} LogEnds(data: Bytes, a: Arity)
    ensures Log(data, |data|, a) == []
  {
    if HeadStarts(data, |data|) { HeadInside(data, |data|); }
  }

  /** A head that comes to a record or a name is one entry. */
  lemma {:induction false} OneEntry(data: Bytes, i: nat, h: Head, a: Arity, fate: Fate)
    requires LineStart(data, i) && HeadOn(data, i) == Some(h) && HeadFate(data, h, a) == fate && !Final(fate.outcome)
    ensures Log(data, i, a) == [Entry(i, h, fate)] + Log(data, fate.end + 1, fate.arity)
  {
    hide HeadOn, HeadFate;
    HeadInside(data, i);
    var e, rest := LogCons(data, i, a);
  }

  lemma {:induction false} NotFinal(d: Declaration, i: nat, a: Arity)
    ensures OutcomeOf(d, i, a).Documented? || OutcomeOf(d, i, a).Bare?
  {
  }

  /** The head of a declaration and what it comes to. */
  lemma {:induction false} Declared(data: Bytes, i: nat, d: Declaration, a: Arity, end: nat)
    returns (h: Head, fate: Fate)
    requires Has(data, i, DeclarationSource(d)) && end + |d.tail| == i + |DeclarationSource(d)|
    requires DeclarationWritable(d, a)
    ensures HeadOn(data, i) == Some(h) && HeadFate(data, h, a) == fate
    ensures h.offset == OffsetOf(d.macro, d.indent, i) && fate.outcome == OutcomeOf(d, i, a)
    ensures fate.arity == ArityOf(d.macro, a) && (fate.end == end || fate.end + 1 == end)
    ensures !Final(fate.outcome)
  {
    DeclarationFate(data, i, d, a, end);
    h, fate := HeadOn(data, i).value, FateOf(d, i, a, end);
  }

  lemma {:induction false} EntryThenTail(data: Bytes, i: nat, h: Head, a: Arity, fate: Fate, tail: Bytes, end: nat)
    requires LineStart(data, i) && HeadOn(data, i) == Some(h) && HeadFate(data, h, a) == fate && !Final(fate.outcome)
    requires Has(data, end, tail) && Quiet(tail) && EndsLine(tail) && (fate.end == end || fate.end + 1 == end)
    ensures Log(data, i, a) == [Entry(i, h, fate)] + Log(data, end + |tail|, fate.arity)
    ensures LineStart(data, end + |tail|)
  {
    OneEntry(data, i, h, a, fate);
    QuietLog(data, end, tail, if fate.end == end then 1 else 0, fate.arity);
    LineAfter(data, end, tail);
  }

  /** One declaration is one entry; the log goes on behind the text after it. */
  lemma {:induction false} DeclarationLog(data: Bytes, i: nat, d: Declaration, a: Arity, end: nat, next: nat)
    returns (e: Entry)
    requires LineStart(data, i) && Has(data, i, DeclarationSource(d)) && next == i + |DeclarationSource(d)|
    requires DeclarationWritable(d, a) && EndsLine(d.tail) && Quiet(d.tail) && next == end + |d.tail|
    ensures Log(data, i, a) == [e] + Log(data, next, ArityOf(d.macro, a)) && LineStart(data, next)
    ensures e.fate.outcome == OutcomeOf(d, i, a) && e.head.offset == OffsetOf(d.macro, d.indent, i)
  {
    hide DeclarationSource, OutcomeOf, OffsetOf, ArityOf, DeclarationWritable, Quiet, HeadFate, HeadOn;
    var h, fate := DeclaredHere(data, i, d, a, end);
    EntryThenTail(data, i, h, a, fate, d.tail, end);
    e := Entry(i, h, fate);
  }

  lemma {:induction false} DeclaredHere(data: Bytes, i: nat, d: Declaration, a: Arity, end: nat)
    returns (h: Head, fate: Fate)
    requires Has(data, i, DeclarationSource(d)) && end + |d.tail| == i + |DeclarationSource(d)|
    requires DeclarationWritable(d, a)
    ensures HeadOn(data, i) == Some(h) && HeadFate(data, h, a) == fate && !Final(fate.outcome)
    ensures h.offset == OffsetOf(d.macro, d.indent, i) && fate.outcome == OutcomeOf(d, i, a)
    ensures fate.arity == ArityOf(d.macro, a) && (fate.end == end || fate.end + 1 == end)
    ensures Has(data, end, d.tail)
  {
    h, fate := Declared(data, i, d, a, end);
    TailStands(data, i, d, end);
  }

  lemma {:induction false} FourParts(data: Bytes, i: nat, a: Bytes, b: Bytes, c: Bytes, d: Bytes, next: nat)
    requires Has(data, i, a + (b + (c + d))) && next == i + |a| + |b| + |c|
    ensures Has(data, next, d)
  {
    HasParts(data, i, a, b + (c + d));
    HasParts(data, i + |a|, b, c + d);
    HasParts(data, i + |a| + |b|, c, d);
  }

  lemma {:induction false} RestTail(data: Bytes, q: nat, d: Declaration, end: nat)
    requires Has(data, q, RestOf(d)) && end + |d.tail| == q + |RestOf(d)|
    ensures Has(data, end, d.tail)
  {
    hide SpecSource, MarkerSource, TextSource, AfterText;
    FourParts(data, q, SpecSource(d.spec), MarkerSource(d.doc.marker),
              if d.doc.Present? then TextSource(d.doc) + AfterText(d.doc) else [], d.tail, end);
  }

  lemma {:induction false} TailStands(data: Bytes, i: nat, d: Declaration, end: nat)
    requires Has(data, i, DeclarationSource(d)) && end + |d.tail| == i + |DeclarationSource(d)|
    ensures Has(data, end, d.tail)
  {
    hide Lead, Between, Source, RestOf;
    var lead, between := Lead(d.macro, d.indent, d.word), Between(d.macro, d.fields);
    var q := i + |lead| + 2 + |Source(d.name)|;
    FourParts(data, i, lead, [0x28, 0x22], Source(d.name), [0x22] + (between + RestOf(d)), q);
    AppendAssoc([0x22], between, RestOf(d));
    HasParts(data, q, [0x22] + between, RestOf(d));
    RestTail(data, q + 1 + |between|, d, end);
  }

  lemma {:induction false} ConsRead(e: Entry, rest: seq<Entry>)
    requires AllRead(rest) && (e.fate.outcome.Documented? || e.fate.outcome.Bare?)
    ensures AllRead([e] + rest)
  {
  }

  lemma {:induction false} EntryRead(e: Entry, rest: seq<Entry>, o: Outcome, offset: nat)
    requires e.fate.outcome == o && e.head.offset == offset && (o.Documented? || o.Bare?) && AllRead(rest)
    ensures Records([e] + rest) == if o.Documented? then [o.record] + Records(rest) else Records(rest)
    ensures WithoutDoc([e] + rest) == if o.Bare? then [(o.name, offset)] + WithoutDoc(rest) else WithoutDoc(rest)
    ensures AllRead([e] + rest)
  {
    RecordsCons(e, rest);
    BareCons(e, rest);
    ConsRead(e, rest);
  }

  lemma {:induction false} FileCons(ds: seq<Declaration>, k: nat)
    requires k < |ds|
    ensures FileSource(ds, k) == DeclarationSource(ds[k]) + FileSource(ds, k + 1)
  {
  }

  lemma {:induction false} TailIsShort(d: Declaration)
    ensures |d.tail| <= |DeclarationSource(d)|
  {
  }

  lemma {:induction false} Apart(data: Bytes, i: nat, text: Bytes, first: Bytes, rest: Bytes)
    requires Has(data, i, text) && text == first + rest
    ensures Has(data, i, first) && Has(data, i + |first|, rest)
  {
    HasParts(data, i, first, rest);
  }

  /** The first declaration of the rest of a file. */
  lemma {:induction false} DeclarationApart(data: Bytes, ds: seq<Declaration>, k: nat, i: nat, source: Bytes,
                                            more: Bytes)
    requires k < |ds| && Has(data, i, FileSource(ds, k))
    requires source == DeclarationSource(ds[k]) && more == FileSource(ds, k + 1)
    ensures Has(data, i, source) && Has(data, i + |source|, more) && |FileSource(ds, k)| == |source| + |more|
  {
    FileCons(ds, k);
    Apart(data, i, FileSource(ds, k), source, more);
  }

  lemma {:induction false} EntryJoins(ds: seq<Declaration>, k: nat, i: nat, a: Arity, next: nat, b: Arity, e: Entry,
                                      rest: seq<Entry>)
    requires k < |ds| && e.fate.outcome == OutcomeOf(ds[k], i, a)
    requires e.head.offset == OffsetOf(ds[k].macro, ds[k].indent, i) && AllRead(rest)
    requires next == i + |DeclarationSource(ds[k])| && b == ArityOf(ds[k].macro, a)
    requires Records(rest) == RecordsOf(ds, k + 1, next, b) && WithoutDoc(rest) == BareOf(ds, k + 1, next, b)
    ensures Records([e] + rest) == RecordsOf(ds, k, i, a) && WithoutDoc([e] + rest) == BareOf(ds, k, i, a)
    ensures AllRead([e] + rest)
  {
    hide DeclarationSource, OutcomeOf, OffsetOf, ArityOf;
    NotFinal(ds[k], i, a);
    EntryRead(e, rest, OutcomeOf(ds[k], i, a), OffsetOf(ds[k].macro, ds[k].indent, i));
  }

  lemma {:induction false} WritableApart(ds: seq<Declaration>, k: nat, a: Arity)
    requires k < |ds| && FileWritable(ds, k, a)
    ensures DeclarationWritable(ds[k], a) && EndsLine(ds[k].tail) && Quiet(ds[k].tail)
    ensures FileWritable(ds, k + 1, ArityOf(ds[k].macro, a))
  {
  }

  /** One declaration further. */
  lemma {:induction false} FileStep(data: Bytes, ds: seq<Declaration>, k: nat, i: nat, a: Arity, next: nat, b: Arity)
    returns (e: Entry)
    requires k < |ds| && FileWritable(ds, k, a) && LineStart(data, i) && Has(data, i, FileSource(ds, k))
    requires next == i + |DeclarationSource(ds[k])| && b == ArityOf(ds[k].macro, a)
    ensures Log(data, i, a) == [e] + Log(data, next, b) && LineStart(data, next)
    ensures Has(data, next, FileSource(ds, k + 1)) && i + |FileSource(ds, k)| == next + |FileSource(ds, k + 1)|
    ensures FileWritable(ds, k + 1, b)
    ensures e.fate.outcome == OutcomeOf(ds[k], i, a) && e.head.offset == OffsetOf(ds[k].macro, ds[k].indent, i)
  {
    hide DeclarationSource, OutcomeOf, OffsetOf, ArityOf, DeclarationWritable, Quiet;
    DeclarationApart(data, ds, k, i, DeclarationSource(ds[k]), FileSource(ds, k + 1));
    TailIsShort(ds[k]);
    WritableApart(ds, k, a);
    e := DeclarationLog(data, i, ds[k], a, next - |ds[k].tail|, next);
  }

  lemma {:induction false} FileRead(data: Bytes, ds: seq<Declaration>, k: nat, i: nat, a: Arity)
    returns (log: seq<Entry>)
    requires k <= |ds| && FileWritable(ds, k, a) && LineStart(data, i)
    requires Has(data, i, FileSource(ds, k)) && i + |FileSource(ds, k)| == |data|
    ensures log == Log(data, i, a)
    ensures Records(log) == RecordsOf(ds, k, i, a) && WithoutDoc(log) == BareOf(ds, k, i, a) && AllRead(log)
    decreases |ds| - k
  {
    hide DeclarationSource, OutcomeOf, OffsetOf, ArityOf, DeclarationWritable, Quiet;
    if k == |ds| {
      LogEnds(data, a);
      log := [];
    } else {
      var next, b := i + |DeclarationSource(ds[k])|, ArityOf(ds[k].macro, a);
      var e := FileStep(data, ds, k, i, a, next, b);
      var rest := FileRead(data, ds, k + 1, next, b);
      EntryJoins(ds, k, i, a, next, b, e, rest);
      log := [e] + rest;
    }
  }

  lemma {:induction false} PreamblePassed(data: Bytes, preamble: Bytes, rest: Bytes, a: Arity)
    requires data == preamble + rest && Quiet(preamble) && (preamble != [] ==> EndsLine(preamble))
    ensures Log(data, 0, a) == Log(data, |preamble|, a)
    ensures LineStart(data, |preamble|) && Has(data, |preamble|, rest)
  {
    assert data[0..|data|] == data;
    HasParts(data, 0, preamble, rest);
    if preamble != [] {
      QuietLog(data, 0, preamble, 0, a);
      LineAfter(data, 0, preamble);
    }
  }

  // ------------------------------------------------------------------------ the result

  lemma {:induction false} StreamSnoc(rs: seq<Record>, r: Record)
    ensures StreamOf(rs + [r]) == StreamOf(rs) + ([0x1F, r.kind] + r.name + [0x0A] + r.doc)
  {
    var one := [0x1F, r.kind] + r.name + [0x0A] + r.doc;
    if rs == [] {
      assert [r][1..] == [] && rs + [r] == [r];
      assert StreamOf([r]) == one + [];
    } else {
      var first := [0x1F, rs[0].kind] + rs[0].name + [0x0A] + rs[0].doc;
      assert (rs + [r])[1..] == rs[1..] + [r];
      StreamSnoc(rs[1..], r);
      AppendAssoc(first, StreamOf(rs[1..]), one);
    }
  }

  lemma {:induction false} StreamIsRendered(rs: seq<Record>)
    ensures RenderAll(rs) == StreamOf(rs)
  {
    if rs != [] {
      var init := rs[..|rs| - 1];
      StreamIsRendered(init);
      StreamSnoc(init, rs[|rs| - 1]);
      assert rs == init + [rs[|rs| - 1]];
    }
  }

  lemma {:induction false} ResultOf(path: Bytes, data: Bytes, emit: bool, records: seq<Record>, bare: seq<(Bytes, nat)>)
    requires AllRead(FileLog(data)) && Records(FileLog(data)) == records && WithoutDoc(FileLog(data)) == bare
    ensures ScanFile(path, data, emit)
         == Some(ScanResult(records, bare, (if emit then [0x1F, 0x53] + path + [0x0A] else []) + StreamOf(records)))
  {
    StreamIsRendered(records);
    var stream := Header(path, emit) + RenderAll(records);
    assert stream + [] == stream;
  }

  /** Print, then scan: a file of written declarations gives exactly their records, with
      kind, name, documentation, usage line and offset, and exactly the names of those
      without documentation, in order; the stream is those records under the header. */
  lemma {:induction false} PrintThenScan(path: Bytes, emit: bool, preamble: Bytes, ds: seq<Declaration>)
    requires Quiet(preamble) && (preamble != [] ==> EndsLine(preamble)) && FileWritable(ds, 0, Arity(-1, -1))
    ensures var records := RecordsOf(ds, 0, |preamble|, Arity(-1, -1));
      ScanFile(path, preamble + FileSource(ds, 0), emit)
      == Some(ScanResult(records, BareOf(ds, 0, |preamble|, Arity(-1, -1)),
                         (if emit then [0x1F, 0x53] + path + [0x0A] else []) + StreamOf(records)))
  {
    var data, a := preamble + FileSource(ds, 0), Arity(-1, -1);
    PreamblePassed(data, preamble, FileSource(ds, 0), a);
    var log := FileRead(data, ds, 0, |preamble|, a);
    ResultOf(path, data, emit, RecordsOf(ds, 0, |preamble|, a), BareOf(ds, 0, |preamble|, a));
  }

  // ------------------------------------------------------------ heads that come to nothing

  lemma {:induction false} OneEntryLog(data: Bytes, i: nat, h: Head, a: Arity, fate: Fate, tail: Bytes)
    requires LineStart(data, i) && HeadOn(data, i) == Some(h) && HeadFate(data, h, a) == fate
    requires if Final(fate.outcome) then true
             else Has(data, fate.end, tail) && Quiet(tail) && EndsLine(tail) && fate.end + |tail| == |data|
    ensures Log(data, i, a) == [Entry(i, h, fate)]
  {
    hide HeadOn, HeadFate;
    HeadInside(data, i);
    var e, rest := LogCons(data, i, a);
    if !Final(fate.outcome) {
      EntryThenTail(data, i, h, a, fate, tail, fate.end);
      LogEnds(data, fate.arity);
    }
  }

  /** A macro whose first argument is not a string literal is dropped: no record, no name,
      nothing in the stream. */
  lemma {:induction false} NamelessIsDropped(path: Bytes, emit: bool, preamble: Bytes, m: Macro, indent: nat,
                                             word: Bytes, tail: Bytes)
    requires Quiet(preamble) && (preamble != [] ==> EndsLine(preamble))
    requires LeadWritable(m, word) && Quiet(tail) && EndsLine(tail) && tail[0] != 0x22
    ensures ScanFile(path, preamble + (Lead(m, indent, word) + ([0x28] + tail)), emit)
         == Some(ScanResult([], [], if emit then [0x1F, 0x53] + path + [0x0A] else []))
  {
    hide Lead, LeadWritable, HeadOn, HeadFate, ScanFile;
    var text, i, a := Lead(m, indent, word) + ([0x28] + tail), |preamble|, Arity(-1, -1);
    var data, open := preamble + text, i + |Lead(m, indent, word)|;
    PreamblePassed(data, preamble, text, a);
    var h := NamelessHead(data, i, m, indent, word, tail, open);
    var fate := NamelessFate(data, h, open, tail, a);
    OneEntryLog(data, i, h, a, fate, tail);
    var e := Entry(i, h, fate);
    NothingFrom(path, data, emit, e);
  }

  lemma {:induction false} NamelessHead(data: Bytes, i: nat, m: Macro, indent: nat, word: Bytes, tail: Bytes, open: nat)
    returns (h: Head)
    requires Has(data, i, Lead(m, indent, word) + ([0x28] + tail)) && LeadWritable(m, word)
    requires open == i + |Lead(m, indent, word)|
    ensures HeadOn(data, i) == Some(h) && h.offset > 0 && Find(data, h.offset - 1, 0x28) == open < |data|
    ensures Has(data, open + 1, tail)
  {
    var lead := Lead(m, indent, word);
    AppendAssoc(lead, [0x28], tail);
    HasParts(data, i, lead + [0x28], tail);
    LeadHead(data, i, m, indent, word, open);
    h := Head(KindOf(m), OffsetOf(m, indent, i), m.Defun?, m.PerBuffer?);
  }

  lemma {:induction false} NamelessFate(data: Bytes, h: Head, open: nat, tail: Bytes, a: Arity) returns (fate: Fate)
    requires h.offset > 0 && Find(data, h.offset - 1, 0x28) == open < |data|
    requires Has(data, open + 1, tail) && tail != [] && tail[0] != 0x22
    ensures HeadFate(data, h, a) == fate && fate == Fate(Nameless, open + 1, a)
  {
    HasAt(data, open + 1, tail, 0);
    fate := Fate(Nameless, open + 1, a);
  }

  lemma {:induction false} NothingFrom(path: Bytes, data: Bytes, emit: bool, e: Entry)
    requires FileLog(data) == [e] && e.fate.outcome.Nameless?
    ensures ScanFile(path, data, emit)
         == Some(ScanResult([], [], if emit then [0x1F, 0x53] + path + [0x0A] else []))
  {
    var log := FileLog(data);
    assert log[..0] == [];
    assert Records(log[..0]) == [] && WithoutDoc(log[..0]) == [];
    assert Header(path, emit) + [] + [] == Header(path, emit);
  }

  /** The parameter list that a function needs never comes. */
  predicate CutOff(d: Declaration, a: Arity)
  {
    && LeadWritable(d.macro, d.word) && Allowed(d.name, false, false) && BetweenWritable(d.macro, d.fields)
    && SpecWritable(d.spec) && MarkerWritable(d.doc.marker) && d.doc.Present?
    && (d.doc.marker.Comma? ==> d.doc.marker.word == []) && (d.doc.marker.NoComma? ==> d.doc.comment)
    && Writable(d.doc.document, d.doc.pad, d.doc.comment) && d.doc.closing.None?
    && NeedsList(d.macro, d.doc.document, a)
    && d.tail != [] && Without(d.tail, 0x28) && (!d.doc.comment ==> d.tail[0] != 0x22)
  }

  lemma {:induction false} NotFound(data: Bytes, i: nat, s: Bytes, b: Byte)
    requires Has(data, i, s) && i + |s| == |data| && Without(s, b)
    ensures Find(data, i, b) == |data|
    decreases |s|
  {
    if s != [] {
      HasAt(data, i, s, 0);
      assert s == [s[0]] + s[1..];
      HasParts(data, i, [s[0]], s[1..]);
      NotFound(data, i + 1, s[1..], b);
    }
  }

  lemma {:induction false} NoList(data: Bytes, p: nat, tail: Bytes, inMacro: bool)
    requires Has(data, p, tail) && p + |tail| == |data| && Without(tail, 0x28)
    ensures ParametersAt(data, p, inMacro).None?
  {
    var i := if inMacro then Find(data, p, 0x29) else p;
    if i <= |data| {
      var k := i - p;
      assert tail == tail[..k] + tail[k..];
      HasParts(data, p, tail[..k], tail[k..]);
      NotFound(data, i, tail[k..], 0x28);
    }
  }

  lemma {:induction false} CutBody(data: Bytes, h: Head, name: Bytes, o: Opening, doc: Documentation, tail: Bytes,
                                   a: Arity, fate: Fate)
    requires doc.Present? && Writable(doc.document, doc.pad, doc.comment) && tail != [] && Without(tail, 0x28)
    requires !doc.comment ==> tail[0] != 0x22
    requires o.comment == doc.comment && h.defun && a.max != -1 && doc.document.usage.NoUsage?
    requires Has(data, o.at + 1, doc.pad + (DocumentSource(doc.document) + Terminated(doc.comment)) + tail)
    requires o.at + 1 + |doc.pad| + |DocumentSource(doc.document)| + |Terminated(doc.comment)| + |tail| == |data|
    requires fate == Fate(Unfinished(Some(Record(h.kind, name, DocumentText(doc.document), h.offset))), |data|, a)
    ensures DocFate(data, h, name, o, a) == fate
  {
    var p := |data| - |tail|;
    HasParts(data, o.at + 1, doc.pad + (DocumentSource(doc.document) + Terminated(doc.comment)), tail);
    NoList(data, p, tail, !o.comment || o.keyword);
    BodyFate(data, h, name, o, doc, tail, a, p, fate);
  }

  lemma {:induction false} CutOpened(d: Declaration, a: Arity)
    requires CutOff(d, a)
    ensures Opened(d.doc.marker, d.doc.comment)
  {
  }

  lemma {:induction false} CutRest(data: Bytes, h: Head, name: Bytes, q: nat, d: Declaration, a: Arity, fate: Fate)
    requires CutOff(d, a) && Has(data, q, RestOf(d)) && q + |RestOf(d)| == |data| && h.defun
    requires fate == Fate(Unfinished(Some(Record(h.kind, name, DocumentText(d.doc.document), h.offset))), |data|,
                          ArityOf(d.macro, a))
    ensures OpeningFate(data, h, name, q, ArityOf(d.macro, a)) == fate
  {
    var doc, spec := d.doc, SpecSource(d.spec);
    var marker, opening := MarkerSource(doc.marker), OpeningSource(doc.comment);
    var body := doc.pad + (DocumentSource(doc.document) + Terminated(doc.comment));
    var next := q + |spec| + |marker|;
    var at := next + |opening| - 1;
    CutRegrouped(d, opening, body);
    CutOpened(d, a);
    BehindOpening(data, q, spec, marker, opening, body + d.tail);
    CutBody(data, h, name, Opening(at, doc.marker.Labelled?, doc.comment), doc, d.tail, ArityOf(d.macro, a), fate);
    OpeningToFate(data, h, name, q, d.spec, doc.marker, doc.comment, body + d.tail, ArityOf(d.macro, a), next, at,
                  fate);
  }

  lemma {:induction false} CutRegrouped(d: Declaration, opening: Bytes, body: Bytes)
    requires d.doc.Present? && d.doc.closing.None? && opening == OpeningSource(d.doc.comment)
    requires body == d.doc.pad + (DocumentSource(d.doc.document) + Terminated(d.doc.comment))
    ensures RestOf(d) == SpecSource(d.spec) + (MarkerSource(d.doc.marker) + (opening + (body + d.tail)))
  {
    hide SpecSource, MarkerSource, OpeningSource, DocumentSource, Terminated;
    assert TextSource(d.doc) + [] == opening + body;
    AppendAssoc(opening, body, d.tail);
  }

  lemma {:induction false} CutFate(data: Bytes, i: nat, d: Declaration, a: Arity, r: Record) returns (h: Head)
    requires CutOff(d, a) && Has(data, i, DeclarationSource(d)) && i + |DeclarationSource(d)| == |data|
    requires r == Record(0x46, Batch(Meaning(d.name)), DocumentText(d.doc.document), i + 4)
    ensures HeadOn(data, i) == Some(h)
    ensures HeadFate(data, h, a) == Fate(Unfinished(Some(r)), |data|, ArityOf(d.macro, a))
  {
    var between, rest, name := Between(d.macro, d.fields), RestOf(d), Batch(Meaning(d.name));
    var open := i + |Lead(d.macro, d.indent, d.word)|;
    var p := open + 3 + |Source(d.name)|;
    var fate := Fate(Unfinished(Some(r)), |data|, ArityOf(d.macro, a));
    h := Head(KindOf(d.macro), OffsetOf(d.macro, d.indent, i), d.macro.Defun?, d.macro.PerBuffer?);
    CutHead(d, i, a, h);
    BetweenStarts(d.macro, d.fields, rest);
    UpToOpen(data, i, d.macro, d.indent, d.word, Source(d.name) + ([0x22] + (between + rest)), open, h);
    BehindName(data, open, Source(d.name), between + rest, p);
    CutNamed(data, h, name, p, d, a, rest, fate);
    UpToName(data, h, open, d.name, between + rest, a, p, fate);
  }

  lemma {:induction false} CutHead(d: Declaration, i: nat, a: Arity, h: Head)
    requires CutOff(d, a)
    requires h == Head(KindOf(d.macro), OffsetOf(d.macro, d.indent, i), d.macro.Defun?, d.macro.PerBuffer?)
    ensures h.kind == 0x46 && h.offset == i + 4 && h.defun
  {
  }

  lemma {:induction false} CutNamed(data: Bytes, h: Head, name: Bytes, p: nat, d: Declaration, a: Arity, rest: Bytes,
                                    fate: Fate)
    requires CutOff(d, a) && rest == RestOf(d) && Has(data, p, Between(d.macro, d.fields) + rest)
    requires p + |Between(d.macro, d.fields)| + |rest| == |data|
    requires h == Head(KindOf(d.macro), h.offset, d.macro.Defun?, d.macro.PerBuffer?) && h.defun
    requires fate == Fate(Unfinished(Some(Record(h.kind, name, DocumentText(d.doc.document), h.offset))), |data|,
                          ArityOf(d.macro, a))
    ensures NamedFate(data, h, name, p, a) == fate
  {
    var q := p + |Between(d.macro, d.fields)|;
    HasParts(data, p, Between(d.macro, d.fields), rest);
    CommasMatch(d.macro, h.offset);
    CutRest(data, h, name, q, d, a, fate);
    BetweenFate(data, h, name, p, d.macro, d.fields, rest, a, q, fate);
  }

  lemma {:induction false} CutResult(path: Bytes, data: Bytes, emit: bool, e: Entry, r: Record)
    requires FileLog(data) == [e] && e.fate.outcome == Unfinished(Some(r))
    ensures ScanFile(path, data, emit)
         == Some(ScanResult([], [], (if emit then [0x1F, 0x53] + path + [0x0A] else [])
                                    + ([0x1F, r.kind] + r.name + [0x0A] + r.doc)))
  {
    var log := FileLog(data);
    assert log[..0] == [];
    assert Records(log[..0]) == [] && WithoutDoc(log[..0]) == [];
    assert Header(path, emit) + [] == Header(path, emit);
  }

  /** A file that ends before the parameter list its last function needs: the stream has
      the documentation of that function, without a usage line, and the records do not. */
  lemma {:induction false} CutOffIsStreamed(path: Bytes, emit: bool, preamble: Bytes, d: Declaration)
    requires Quiet(preamble) && (preamble != [] ==> EndsLine(preamble)) && CutOff(d, Arity(-1, -1))
    ensures ScanFile(path, preamble + DeclarationSource(d), emit)
         == Some(ScanResult([], [], (if emit then [0x1F, 0x53] + path + [0x0A] else [])
                                    + ([0x1F, 0x46] + Batch(Meaning(d.name)) + [0x0A] + DocumentText(d.doc.document))))
  {
    hide *;
    var data, i, a := preamble + DeclarationSource(d), |preamble|, Arity(-1, -1);
    var doc := CutDocument(d, a);
    var r := Record(0x46, Batch(Meaning(d.name)), DocumentText(doc), i + 4);
    PreamblePassed(data, preamble, DeclarationSource(d), a);
    var h := CutFate(data, i, d, a, r);
    var fate := Fate(Unfinished(Some(r)), |data|, ArityOf(d.macro, a));
    UnfinishedIsFinal(fate);
    OneEntryLog(data, i, h, a, fate, []);
    FileLogIs(data, a, [Entry(i, h, fate)]);
    CutResult(path, data, emit, Entry(i, h, fate), r);
  }

  lemma {:induction false} CutDocument(d: Declaration, a: Arity) returns (doc: Document)
    requires CutOff(d, a)
    ensures d.doc.Present? && doc == d.doc.document
  {
    doc := d.doc.document;
  }

  lemma {:induction false} UnfinishedIsFinal(fate: Fate)
    requires fate.outcome.Unfinished?
    ensures Final(fate.outcome)
  {
  }

  lemma {:induction false} FileLogIs(data: Bytes, a: Arity, log: seq<Entry>)
    requires a == Arity(-1, -1) && Log(data, 0, a) == log
    ensures FileLog(data) == log
  {
  }

  // ----------------------------------------------------------------------- an example

  function ExampleList(): Parameters
  {
    Listed([Parameter([0x4C, 0x69, 0x73, 0x70, 0x5F, 0x4F, 0x62, 0x6A, 0x65, 0x63, 0x74, 0x20], [0x78], [0x58])])
  }

  function ExampleDoc(): Documentation
  {
    var text := Document(Cons(Raw(0x44), Cons(Raw(0x20), Nil)), NoUsage);
    Present(Labelled([0x20], [0x64, 0x6F, 0x63], [0x20]), true, [0x20], text, Some(Closing([], [0x20], ExampleList())))
  }

  /** A `DEFUN` of one argument. */
  function ExampleDeclaration(): Declaration
  {
    var one := NumberField([0x20], Literal(1), []);
    Declaration(Defun(one, one), 0, [0x4E, 0x20], Cons(Raw(0x66), Nil), [[], [0x20, 0x46, 0x66], [0x20, 0x53, 0x66]],
                Spec([0x20], None, [0x30]), ExampleDoc(), [0x0A])
  }

  lemma {:induction false} ExampleText(d: Documentation)
    requires d == ExampleDoc()
    ensures Source(d.document.text) == [0x44, 0x20] && Meaning(d.document.text) == [0x44, 0x20]
  {
    assert Source(Cons(Raw(0x20), Nil)) == [0x20] && Meaning(Cons(Raw(0x20), Nil)) == [0x20];
  }

  lemma {:induction false} ExampleParameters(l: Parameters)
    requires l == ExampleList()
    ensures ListSource(l) == [0x28, 0x4C, 0x69, 0x73, 0x70, 0x5F, 0x4F, 0x62, 0x6A, 0x65, 0x63, 0x74, 0x20, 0x78, 0x29]
  {
    assert FromParameter(l.ps, 1) == [];
  }

  lemma {:induction false} ExampleParts(d: Declaration)
    requires d == ExampleDeclaration()
    ensures SpecSource(d.spec) == [0x20, 0x30]
    ensures MarkerSource(d.doc.marker) == [0x2C, 0x20, 0x64, 0x6F, 0x63, 0x3A, 0x20]
    ensures TextSource(d.doc) == [0x2F, 0x2A, 0x20, 0x44, 0x20, 0x2A, 0x2F]
    ensures AfterText(d.doc)
         == [0x29, 0x20] + [0x28, 0x4C, 0x69, 0x73, 0x70, 0x5F, 0x4F, 0x62, 0x6A, 0x65, 0x63, 0x74, 0x20, 0x78, 0x29]
  {
    ExampleText(d.doc);
    ExampleParameters(ExampleList());
  }

  lemma {:induction false} ExampleRest(d: Declaration)
    requires d == ExampleDeclaration()
    ensures RestOf(d)
         == [0x20, 0x30, 0x2C, 0x20, 0x64, 0x6F, 0x63, 0x3A, 0x20, 0x2F, 0x2A, 0x20, 0x44, 0x20, 0x2A, 0x2F, 0x29, 0x20]
            + ([0x28, 0x4C, 0x69, 0x73, 0x70, 0x5F, 0x4F, 0x62, 0x6A, 0x65, 0x63, 0x74, 0x20, 0x78, 0x29] + [0x0A])
  {
    ExampleParts(d);
    hide SpecSource, MarkerSource, TextSource, AfterText;
  }

  lemma {:induction false} ExampleBetween(d: Declaration)
    requires d == ExampleDeclaration()
    ensures Between(d.macro, d.fields)
         == [0x2C, 0x20, 0x46, 0x66, 0x2C, 0x20, 0x53, 0x66, 0x2C, 0x20, 0x31, 0x2C, 0x20, 0x31, 0x2C]
  {
    assert Fields(d.fields, 0) == [0x2C, 0x20, 0x46, 0x66, 0x2C, 0x20, 0x53, 0x66, 0x2C] by {
      assert Fields(d.fields, 3) == [];
      assert Fields(d.fields, 2) == [0x20, 0x53, 0x66, 0x2C];
      assert Fields(d.fields, 1) == [0x20, 0x46, 0x66, 0x2C, 0x20, 0x53, 0x66, 0x2C];
    }
    assert FieldSource(d.macro.min) == [0x20, 0x31, 0x2C] by { assert Decimal(1) == [0x31]; }
  }

  lemma {:induction false} ExampleLead(rest: Bytes)
    ensures [0x44, 0x45, 0x46, 0x55] + [0x4E, 0x20] + ([0x28, 0x22] + ([0x66] + ([0x22] + rest)))
         == [0x44, 0x45, 0x46, 0x55, 0x4E, 0x20, 0x28, 0x22, 0x66, 0x22] + rest
  {
  }

  /** It is written `DEFUN ("f", Ff, Sf, 1, 1, 0, doc: /* D */) (Lisp_Object x)`. */
  lemma {:induction false} ExampleSource(d: Declaration)
    requires d == ExampleDeclaration()
    ensures DeclarationSource(d)
         == [0x44, 0x45, 0x46, 0x55, 0x4E, 0x20, 0x28, 0x22, 0x66, 0x22]
            + ([0x2C, 0x20, 0x46, 0x66, 0x2C, 0x20, 0x53, 0x66, 0x2C, 0x20, 0x31, 0x2C, 0x20, 0x31, 0x2C]
               + ([0x20, 0x30, 0x2C, 0x20, 0x64, 0x6F, 0x63, 0x3A, 0x20,
                   0x2F, 0x2A, 0x20, 0x44, 0x20, 0x2A, 0x2F, 0x29, 0x20]
                  + ([0x28, 0x4C, 0x69, 0x73, 0x70, 0x5F, 0x4F, 0x62, 0x6A, 0x65, 0x63, 0x74, 0x20, 0x78, 0x29]
                     + [0x0A])))
  {
    ExampleBetween(d);
    ExampleRest(d);
    assert Source(d.name) == [0x66];
    assert Lead(d.macro, d.indent, d.word) == [0x44, 0x45, 0x46, 0x55] + [0x4E, 0x20];
    hide Between, RestOf, Source, Lead;
    ExampleLead(Between(d.macro, d.fields) + RestOf(d));
  }

  lemma {:induction false} ExampleTextWritable(d: Documentation)
    requires d == ExampleDoc()
    ensures Writable(d.document, d.pad, d.comment)
  {
    ExampleText(d);
    NoKeyword([0x44, 0x20]);
    assert Allowed(d.document.text, true, false);
    hide Undisturbed, Meaning, Allowed;
  }

  lemma {:induction false} ExampleClosingWritable(c: Closing)
    requires c == ExampleDoc().closing.value
    ensures ClosingWritable(c, true)
  {
    assert Called([0x78], [0x58]);
    hide Called;
  }

  lemma {:induction false} ExampleDocWritable(d: Documentation, m: Macro)
    requires d == ExampleDoc() && m == ExampleDeclaration().macro
    ensures DocWritable(d, m, [0x0A], Arity(-1, -1))
  {
    ExampleTextWritable(d);
    ExampleClosingWritable(d.closing.value);
    hide Writable, ClosingWritable;
  }

  lemma {:induction false} ExampleWritable(d: Declaration)
    requires d == ExampleDeclaration()
    ensures FileWritable([d], 0, Arity(-1, -1))
  {
    ExampleDocWritable(d.doc, d.macro);
    hide DocWritable;
    assert DeclarationWritable(d, Arity(-1, -1));
    assert Quiet(d.tail) && EndsLine(d.tail);
    hide DeclarationWritable, Quiet, EndsLine;
    assert FileWritable([d], 1, ArityOf(d.macro, Arity(-1, -1)));
  }

  lemma {:induction false} ExampleBatch()
    ensures Batch([0x44, 0x20]) == [0x44] && Batch([0x66]) == [0x66]
  {
    TidyIsKept([0x66]);
    assert Squeeze([0x44, 0x20]) == [0x44, 0x20] by {
      assert [0x44, 0x20][1..] == [0x20] && [0x20][1..] == [];
      assert Squeeze([0x20]) == [0x20] + Squeeze([]);
    }
    assert TrimBlanks([0x44, 0x20]) == [0x44] by { assert [0x44, 0x20][..1] == [0x44]; }
  }

  lemma {:induction false} ExampleOutcome(d: Declaration, r: Record)
    requires d == ExampleDeclaration()
    requires r == Record(0x46, [0x66], [0x44, 0x0A, 0x0A, 0x28, 0x66, 0x6E, 0x20, 0x58, 0x29], 4)
    ensures OutcomeOf(d, 0, Arity(-1, -1)) == Documented(r)
  {
    ExampleText(d.doc);
    ExampleBatch();
    assert Meaning(d.name) == [0x66];
    hide Batch, Meaning;
    var ps := ExampleList().ps;
    assert Arguments(ps, 1, 1, 1) == [0x28, 0x66, 0x6E] + ([0x20] + [] + [0x58]) by {
      assert Arguments(ps, 0, 1, 1) == [0x28, 0x66, 0x6E];
    }
  }

  lemma {:induction false} ExampleRecords(d: Declaration, r: Record)
    requires d == ExampleDeclaration()
    requires r == Record(0x46, [0x66], [0x44, 0x0A, 0x0A, 0x28, 0x66, 0x6E, 0x20, 0x58, 0x29], 4)
    ensures RecordsOf([d], 0, 0, Arity(-1, -1)) == [r] && BareOf([d], 0, 0, Arity(-1, -1)) == []
  {
    ExampleOutcome(d, r);
    hide DeclarationSource, OutcomeOf;
    assert RecordsOf([d], 1, |DeclarationSource(d)|, Arity(1, 1)) == [];
    assert BareOf([d], 1, |DeclarationSource(d)|, Arity(1, 1)) == [];
  }

  lemma {:induction false} StreamOfOne(r: Record)
    ensures StreamOf([r]) == [0x1F, r.kind] + r.name + [0x0A] + r.doc
  {
    assert [r][1..] == [];
    var one := [0x1F, r.kind] + r.name + [0x0A] + r.doc;
    assert one + StreamOf([]) == one;
  }

  lemma {:induction false} FileOfOne(d: Declaration)
    ensures [] + FileSource([d], 0) == DeclarationSource(d)
  {
    hide DeclarationSource;
    assert FileSource([d], 1) == [];
  }

  lemma {:induction false} NothingQuiet()
    ensures Quiet([])
  {
  }

  /** Scanning it gives the record of `f`: `D`, a blank line and `(fn X)`. */
  lemma {:induction false} Example(path: Bytes)
    ensures ScanFile(path, DeclarationSource(ExampleDeclaration()), false) ==
      Some(ScanResult([Record(0x46, [0x66], [0x44, 0x0A, 0x0A, 0x28, 0x66, 0x6E, 0x20, 0x58, 0x29], 4)], [],
                      [0x1F, 0x46, 0x66, 0x0A] + [0x44, 0x0A, 0x0A, 0x28, 0x66, 0x6E, 0x20, 0x58, 0x29]))
  {
    hide *;
    var d, r := ExampleDeclaration(), Record(0x46, [0x66], [0x44, 0x0A, 0x0A, 0x28, 0x66, 0x6E, 0x20, 0x58, 0x29], 4);
    ExampleWritable(d);
    NothingQuiet();
    PrintThenScan(path, false, [], [d]);
    FileOfOne(d);
    ExampleRecords(d, r);
    StreamOfOne(r);
    assert [] + StreamOf([r]) == [0x1F, 0x46, 0x66, 0x0A] + r.doc;
  }
}
