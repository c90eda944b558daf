/**
 `scan_c_file` of scripts/make_docfile.py: one pass over a C file that writes the
 documentation of its heads twice, as records and as the DOC byte stream. Proved
 equal to `DocLog.ScanFile`.
 */
module DocScan {
  import opened Text
  import opened DocStream
  import opened DocText
  import opened DocMachine
  import opened DocRead
  import opened DocReader
  import opened DocArgs
  import opened DocHeads
  import opened DocLog

  const EF: Bytes := [0x45, 0x46]
  const YM: Bytes := [0x59, 0x4D]
  const AR: Bytes := [0x41, 0x52, 0x5F]

  datatype Status = Running | Finished | Raising

  /** No line ends among the characters from `i` up to `j`. */
  predicate NoBreak(data: Bytes, i: nat, j: int) { forall x :: i <= x < j ==> !Break(At(data, x)) }

  /** The character after `i`; the end of the file stays. */
  function Succ(data: Bytes, i: nat): nat { if i < |data| then i + 1 else i }

  class Scanner {
    const infile: Stream
    const header: Bytes
    ghost const all: seq<Entry>   // the heads of the file
    var c: int
    var minargs: int
    var maxargs: int
    var docStream: Bytes
    var records: seq<Record>
    var headsWithoutDoc: seq<(Bytes, nat)>

    /** `c` is the character at `i`, and the stream is just behind it. */
    ghost predicate Here(i: nat)
      reads this, infile
    {
      infile.Valid() && Behind(infile, i) && c == At(infile.data, i)
    }

    ghost predicate InSync()
      reads this
    {
      docStream == header + RenderAll(records)
    }

    ghost function Numbers(): Arity
      reads this
    {
      Arity(minargs, maxargs)
    }

    constructor (path: Bytes, data: Bytes, emit: bool)
      ensures infile.Valid() && infile.data == data && infile.Cursor() == 0 && c == NL
      ensures InSync() && records == [] && headsWithoutDoc == [] && header == Header(path, emit)
      ensures Numbers() == Arity(-1, -1) && fresh(infile) && all == FileLog(data)
    {
      infile := new Stream(data);
      header, all := Header(path, emit), FileLog(data);
      docStream := if emit then [FS, 0x53] + path + [NL] else [];
      c, minargs, maxargs := NL, -1, -1;
      records, headsWithoutDoc := [], [];
    }

    // ------------------------------------------------------------------ characters

    method Next(ghost i: nat)
      requires Here(i)
      modifies this`c, infile
      ensures Here(Succ(infile.data, i)) && infile.pushback == [] && infile.Cursor() == old(infile.Cursor()) + 1
    {
      c := infile.Getc();
    }

    /** Read on while the character just read is whitespace. */
    method SkipSpace(ghost i: nat)
      requires Here(i)
      modifies this`c, infile
      ensures Here(SkipSpaces(infile.data, i)) && (old(infile.pushback) == [] ==> infile.pushback == [])
    {
      ghost var j := i;
      while IsSpace(c)
        invariant Here(j) && SkipSpaces(infile.data, j) == SkipSpaces(infile.data, i)
        invariant old(infile.pushback) == [] ==> infile.pushback == []
        decreases |infile.data| - j
      {
        Next(j);
        j := j + 1;
      }
    }

    /** Read on to `target`; false at the end of the file. */
    method SkipTo(target: Byte, ghost i: nat) returns (found: bool)
      requires Here(i)
      modifies this`c, infile
      ensures Here(Find(infile.data, i, target)) && (found <==> Find(infile.data, i, target) < |infile.data|)
      ensures found ==> c == target
    {
      ghost var j := i;
      while c != target
        invariant Here(j) && Find(infile.data, j, target) == Find(infile.data, i, target)
        decreases |infile.data| - j
      {
        if c == EOF { return false; }
        Next(j);
        j := j + 1;
      }
      found := true;
    }

    method SkipToCommaOrSlash(ghost i: nat)
      requires Here(i)
      modifies this`c, infile
      ensures Here(CommaOrSlash(infile.data, i))
    {
      ghost var j := i;
      while c != EOF && c != COMMA && c != SLASH
        invariant Here(j) && CommaOrSlash(infile.data, j) == CommaOrSlash(infile.data, i)
        decreases |infile.data| - j
      {
        Next(j);
        j := j + 1;
      }
    }

    method SkipWord(ghost i: nat)
      requires Here(i)
      modifies this`c, infile
      ensures Here(SkipLetters(infile.data, i))
    {
      ghost var j := i;
      while IsAlpha(c)
        invariant Here(j) && SkipLetters(infile.data, j) == SkipLetters(infile.data, i)
        decreases |infile.data| - j
      {
        Next(j);
        j := j + 1;
      }
    }

    // ----------------------------------------------------------------------- heads

    /** Read one character for each of `word`; stop at the first that differs. The
        cursor is exact here: it has not passed the end of the file. */
    method MatchWord(word: Bytes) returns (matched: bool)
      requires infile.Valid() && word != [] && forall k :: 0 <= k < |word| ==> !Break(word[k])
      modifies this`c, infile
      ensures Read1() && infile.Cursor() > old(infile.Cursor())
      ensures matched <==> WordAt(infile.data, old(infile.Cursor()), word)
      ensures matched ==> infile.Cursor() == old(infile.Cursor()) + |word|
      ensures NoBreak(infile.data, old(infile.Cursor()), infile.Cursor() - if matched then 0 else 1)
    {
      for i := 0 to |word|
        invariant infile.Valid() && infile.Cursor() == old(infile.Cursor()) + i && (i > 0 ==> Read1())
        invariant forall k :: 0 <= k < i ==> At(infile.data, old(infile.Cursor()) + k) == word[k]
        invariant NoBreak(infile.data, old(infile.Cursor()), infile.Cursor())
      {
        c := infile.Getc();
        if c != word[i] { return false; }
      }
      matched := true;
    }

    /** The character just read is the one before the cursor. */
    ghost predicate Read1()
      reads this, infile
    {
      infile.Valid() && infile.pushback == [] && infile.Cursor() >= 1 && c == At(infile.data, infile.Cursor() - 1)
    }

    method SkipIndent()
      requires Read1()
      modifies this`c, infile
      ensures Read1() && infile.Cursor() - 1 == Unindent(infile.data, old(infile.Cursor()) - 1)
      ensures NoBreak(infile.data, old(infile.Cursor()) - 1, infile.Cursor() - 1)
    {
      while c == SPACE
        invariant Read1() && infile.Cursor() >= old(infile.Cursor())
        invariant Unindent(infile.data, infile.Cursor() - 1) == Unindent(infile.data, old(infile.Cursor()) - 1)
        invariant NoBreak(infile.data, old(infile.Cursor()) - 1, infile.Cursor() - 1)
        decreases |infile.data| + 1 - infile.Cursor()
      {
        c := infile.Getc();
      }
    }

    /** After `DEF`: `VAR_` and a type make a head; `SYM` is skipped. */
    method AfterDef() returns (found: bool, perBuffer: bool)
      requires infile.Valid() && infile.pushback == []
      modifies this`c, infile
      ensures Read1() && infile.Cursor() > old(infile.Cursor())
      ensures var q := old(infile.Cursor());
        && (found <==> At(infile.data, q) == 0x56 && WordAt(infile.data, q + 1, AR))
        && (found ==> infile.Cursor() == q + 6 && (perBuffer <==> At(infile.data, q + 4) == 0x50))
      ensures !found ==> NoBreak(infile.data, old(infile.Cursor()), infile.Cursor() - 1)
    {
      found, perBuffer := false, false;
      c := infile.Getc();
      if c == 0x53 {
        var matched := MatchWord(YM);
        if matched { c := infile.Getc(); }
      } else if c == 0x56 {
        found := MatchWord(AR);
        if !found { return; }
        c := infile.Getc();
        perBuffer := c == 0x50;
        c := infile.Getc();
      }
    }

    /** After an indent only `DEFVAR_` is a head. */
    method IndentedHead() returns (found: bool, perBuffer: bool)
      requires Read1() && c == SPACE
      modifies this`c, infile
      ensures Read1() && infile.Cursor() > old(infile.Cursor())
      ensures var q := Unindent(infile.data, old(infile.Cursor()) - 1);
        && (found <==> WordAt(infile.data, q, DEFVAR))
        && (found ==> infile.Cursor() == q + 9 && (perBuffer <==> At(infile.data, q + 7) == 0x50))
      ensures !found ==> NoBreak(infile.data, old(infile.Cursor()) - 1, infile.Cursor() - 1)
    {
      found, perBuffer := false, false;
      SkipIndent();
      DefvarAt(infile.data, infile.Cursor() - 1);
      if c != 0x44 { return; }
      var matched := MatchWord(EF);
      if matched { found, perBuffer := AfterDef(); }
    }

    /** At the start of a line: is there a head here? */
    method FindHead() returns (found: bool, defun: bool, defvar: bool, perBuffer: bool)
      requires infile.Valid() && infile.Cursor() <= |infile.data|
      modifies this`c, infile
      ensures Read1() && infile.Cursor() > old(infile.Cursor())
      ensures found <==> HeadOn(infile.data, old(infile.Cursor())).Some?
      ensures found ==> (HeadOn(infile.data, old(infile.Cursor()))
                         == Some(Head(if defvar then KIND_V else KIND_F, infile.Cursor(), defun, perBuffer)))
      ensures !found ==> NoBreak(infile.data, old(infile.Cursor()), infile.Cursor() - 1)
    {
      found, defun, defvar, perBuffer := false, false, false, false;
      DefAt(infile.data, infile.Cursor());
      c := infile.Getc();
      if c == SPACE {
        found, perBuffer := IndentedHead();
        defvar := found;
      } else if c == 0x44 {
        var matched := MatchWord(EF);
        if !matched { return; }
        c := infile.Getc();
        defun := c == 0x55;
        found := true;
      }
    }

    // -------------------------------------------------------- the arguments of a head

    method ReadString(sink: bool, comment: bool, wantUsage: bool, ghost i: nat)
      returns (text: Bytes, sawUsage: bool, raised: bool)
      requires Here(i) && i < |infile.data|
      modifies this`c, infile
      ensures infile.Valid()
      ensures var r := ReadBody(infile.data, i + 1, comment, sink, wantUsage);
        && (raised <==> Failed(r, sink))
        && (!raised ==> text == r.text && sawUsage == r.usage && Here(r.end))
    {
      c, text, sawUsage, raised := ReadCStringOrComment(infile, sink, comment, wantUsage);
    }

    /** A `DEFUN`'s MIN (two commas left) or MAX (one left), after the comma at `i`. */
    method ReadArity(left: nat, ghost i: nat) returns (eof: bool)
      requires Here(i) && i < |infile.data|
      modifies this`c, this`minargs, this`maxargs, infile
      ensures infile.Valid() && (eof <==> SkipSpaces(infile.data, i + 1) >= |infile.data|)
      ensures eof ==> Numbers() == old(Numbers())
      ensures !eof ==> c != EOF
      ensures !eof ==> ((infile.Cursor(), Numbers())
                        == ArityAt(infile.data, SkipSpaces(infile.data, i + 1), left, old(Numbers())))
    {
      Next(i);
      SkipSpace(i + 1);
      if c < 0 { return true; }
      infile.Ungetc(c);
      if left == 2 {
        var scanned := infile.ScanfInt();
        if scanned.Some? { minargs := scanned.value; }
      } else if c == 0x4D || c == 0x55 {
        maxargs := -1;
      } else {
        var scanned := infile.ScanfInt();
        if scanned.Some? { maxargs := scanned.value; }
      }
      eof := false;
    }

    method SkipCommas(n: nat, defun: bool, ghost i: nat) returns (eof: bool)
      requires Here(i)
      modifies this`c, this`minargs, this`maxargs, infile
      ensures infile.Valid()
      ensures var r := AfterCommas(infile.data, i, n, defun, old(Numbers()));
        && Numbers() == r.1 && (eof <==> r.0.None?) && (!eof ==> Here(r.0.value))
    {
      var commas := n;
      ghost var p := i;
      while commas > 0
        invariant Here(p) && AfterCommas(infile.data, p, commas, defun, Numbers())
          == AfterCommas(infile.data, i, n, defun, old(Numbers()))
        decreases |infile.data| - p
      {
        if c == COMMA {
          commas := commas - 1;
          if defun && (commas == 1 || commas == 2) {
            ghost var s := SkipSpaces(infile.data, p + 1);
            ghost var numbers := Numbers();
            eof := ReadArity(commas, p);
            if eof { return; }
            p := ArityAt(infile.data, s, commas, numbers).0;
            c := infile.Getc();
            continue;
          }
        }
        if c == EOF { return true; }
        Next(p);
        p := p + 1;
      }
      eof := false;
    }

    /** From the last counted comma to the documentation: an old-style interactive
        spec is discarded, then `doc:` and a comment or a string is expected. */
    method FindOpening(ghost p: nat) returns (docKeyword: bool, comment: bool)
      requires Here(p) && p <= |infile.data|
      modifies this`c, infile
      ensures Here(OpeningAt(infile.data, p).at)
      ensures Opening(OpeningAt(infile.data, p).at, docKeyword, comment) == OpeningAt(infile.data, p)
    {
      SkipSpec(p);
      ghost var i := AfterSpec(infile.data, p);
      docKeyword := SkipMarker(i);
      comment := false;
      if c == SLASH {
        Next(AfterMarker(infile.data, i).0);
        comment := c == STAR;
      }
    }

    method SkipSpec(ghost p: nat)
      requires Here(p) && p <= |infile.data|
      modifies this`c, infile
      ensures Here(AfterSpec(infile.data, p))
    {
      SkipSpace(p);
      ghost var i := SkipSpaces(infile.data, p);
      if c == QUOTE {
        NoBadUsage(infile.data, i + 1, false, false);
        var t, u, raised := ReadString(false, false, false, i);
        SkipToCommaOrSlash(ReadBody(infile.data, i + 1, false, false, false).end);
      } else {
        SkipToCommaOrSlash(i);
      }
    }

    method SkipMarker(ghost i: nat) returns (docKeyword: bool)
      requires Here(i)
      modifies this`c, infile
      ensures Here(AfterMarker(infile.data, i).0) && docKeyword == AfterMarker(infile.data, i).1
    {
      docKeyword := false;
      if c == COMMA {
        Next(i);
        SkipSpace(i + 1);
        ghost var s := SkipSpaces(infile.data, i + 1);
        SkipWord(s);
        if c == 0x3A {
          docKeyword := true;
          ghost var w := SkipLetters(infile.data, s);
          Next(w);
          SkipSpace(w + 1);
        }
      }
    }

    /** From the parenthesis just read to the one that matches it; false at the end
        of the file. */
    method ReadBalanced(ghost b: nat) returns (found: bool, args: Bytes)
      requires Here(b) && c == OPEN
      modifies this`c, infile
      ensures infile.Valid() && (found <==> Matching(infile.data, b, 0).Some?)
      ensures found ==> Here(Matching(infile.data, b, 0).value)
      ensures found ==> args == infile.data[b..Matching(infile.data, b, 0).value + 1]
    {
      args := [];
      var nested := 0;
      ghost var j := b;
      while true
        invariant b <= j < |infile.data| && Here(j) && args == infile.data[b..j]
        invariant Matching(infile.data, j, nested) == Matching(infile.data, b, 0)
        decreases |infile.data| - j
      {
        SliceSnoc(infile.data, b, j);
        args := args + [c];
        nested := nested + (if c == OPEN then 1 else 0) - (if c == CLOSE then 1 else 0);
        if c == CLOSE && nested == 0 { return true, args; }
        Next(j);
        j := j + 1;
        if c < 0 { return false, args; }
      }
    }

    /** The C parameter list, parentheses included; false at the end of the file. */
    method ReadArgs(inMacro: bool, ghost p: nat) returns (found: bool, args: Bytes)
      requires Here(p)
      modifies this`c, infile
      ensures infile.Valid() && (found <==> ParametersAt(infile.data, p, inMacro).Some?)
      ensures var r := ParametersAt(infile.data, p, inMacro);
        found ==> Here(r.value.1) && args == infile.data[r.value.0..r.value.1 + 1]
    {
      found, args := true, [];
      ghost var i := p;
      if inMacro {
        found := SkipTo(CLOSE, i);
        i := Find(infile.data, p, CLOSE);
        if !found { return; }
      }
      found := SkipTo(OPEN, i);
      if !found { return; }
      found, args := ReadBalanced(Find(infile.data, i, OPEN));
    }

    // ----------------------------------------------------------- what becomes of it

    /** The scanner has done with a head what its fate says. */
    ghost predicate Did(f: Fate, offset: nat, was: seq<Record>, bare: seq<(Bytes, nat)>, status: Status)
      reads this, infile
    {
      && infile.Valid() && (status.Running? ==> Here(f.end) && InSync() && Numbers() == f.arity)
      && match f.outcome
         case Raised => status.Raising?
         case Unfinished(cut) =>
           && status.Finished? && records == was && headsWithoutDoc == bare
           && docStream == Written(records, cut, header)
         case Documented(r) => status.Running? && records == was + [r] && headsWithoutDoc == bare
         case Bare(name) => status.Running? && records == was && headsWithoutDoc == bare + [(name, offset)]
         case Nameless => status.Running? && records == was && headsWithoutDoc == bare
    }

    /** The head line and the documentation, written to the stream. */
    method WriteDoc(kind: Byte, name: Bytes, comment: bool, ghost offset: nat, ghost i: nat)
      returns (doc: Bytes, sawUsage: bool, raised: bool)
      requires Here(i) && i < |infile.data| && InSync()
      modifies this`c, this`docStream, infile
      ensures infile.Valid()
      ensures var d := ReadBody(infile.data, i + 1, comment, true, true);
        && (raised <==> d.fault != NoFault)
        && (!raised ==>
              && doc == d.text && sawUsage == d.usage && Here(d.end)
              && docStream == Written(records, Some(Record(kind, name, doc, offset)), header))
    {
      docStream := docStream + ([FS, kind] + name + [NL]);
      doc, sawUsage, raised := ReadString(true, comment, true, i);
      if !raised {
        docStream := docStream + doc;
        RenderPieces(old(docStream), Record(kind, name, doc, offset));
      }
    }

    /** Append the record of what the stream already holds. */
    method Commit(r: Record)
      requires docStream == Written(records, Some(r), header)
      modifies this`records
      ensures InSync() && records == old(records) + [r]
    {
      RenderCommit(header, records, r);
      records := records + [r];
    }

    /** The usage line, written to the stream and added to the record on the side. */
    method AddUsage(r: Record, inMacro: bool, ghost p: nat) returns (found: bool, r': Record)
      requires Here(p) && docStream == Written(records, Some(r), header)
      modifies this`c, this`docStream, infile
      ensures infile.Valid() && docStream == Written(records, Some(r'), header)
      ensures match ParametersAt(infile.data, p, inMacro)
        case None => !found && r' == r
        case Some(q) => found && Here(q.1) && r' == WithUsage(r, infile.data[q.0..q.1 + 1], Numbers())
    {
      var args;
      found, args := ReadArgs(inMacro, p);
      r' := r;
      if found {
        var usage := WriteCArgs(args, minargs, maxargs);
        var fn := [NL, NL] + usage;
        RenderMore(header + RenderAll(records), r, fn);
        docStream := docStream + fn;
        r' := r.(doc := r.doc + fn);
      }
    }

    /** The record of documentation that the stream already holds, with its usage line. */
    method FinishDoc(r: Record, defun: bool, sawUsage: bool, inMacro: bool, ghost p: nat) returns (status: Status)
      requires Here(p) && docStream == Written(records, Some(r), header)
      modifies this`c, this`docStream, this`records, infile
      ensures Did(UsageFate(infile.data, r, defun, sawUsage, inMacro, p, old(Numbers())), r.offset,
                  old(records), old(headsWithoutDoc), status)
    {
      var found, r' := true, r;
      if defun && maxargs != -1 && !sawUsage {
        found, r' := AddUsage(r, inMacro, p);
      }
      if !found { return Finished; }
      Commit(r');
      status := Running;
    }

    /** Write one documented head to the stream and to the records. The stream
        is written piece by piece; the record is built on the side. */
    method EmitDoc(h: Head, name: Bytes, comment: bool, docKeyword: bool, ghost at: nat) returns (status: Status)
      requires Here(at) && InSync() && Opening(at, docKeyword, comment).Opens(infile.data)
      requires comment ==> c == STAR
      modifies this`c, this`docStream, this`records, infile
      ensures Did(DocFate(infile.data, h, name, Opening(at, docKeyword, comment), old(Numbers())), h.offset,
                  old(records), old(headsWithoutDoc), status)
    {
      ghost var d := ReadBody(infile.data, at + 1, comment, true, true);
      var doc, sawUsage, raised := WriteDoc(h.kind, name, comment, h.offset, at);
      if raised { return Raising; }
      status := FinishDoc(Record(h.kind, name, doc, h.offset), h.defun, sawUsage, !comment || docKeyword, d.end);
    }

    /** What follows a head's name: the other arguments, then its documentation. */
    method AfterName(h: Head, name: Bytes, ghost p: nat) returns (status: Status)
      requires Here(p) && p <= |infile.data| && InSync()
      modifies this`c, this`minargs, this`maxargs, this`docStream, this`records, this`headsWithoutDoc, infile
      ensures Did(NamedFate(infile.data, h, name, p, old(Numbers())), h.offset,
                  old(records), old(headsWithoutDoc), status)
    {
      var eof := SkipCommas(h.Commas(), h.defun, p);
      if eof {
        NothingCut(header, records);
        return Finished;
      }
      status := AfterArguments(h, name, AfterCommas(infile.data, p, h.Commas(), h.defun, old(Numbers())).0.value);
    }

    /** The documentation of a head, if there is any. */
    method AfterArguments(h: Head, name: Bytes, ghost q: nat) returns (status: Status)
      requires Here(q) && q <= |infile.data| && InSync()
      modifies this`c, this`docStream, this`records, this`headsWithoutDoc, infile
      ensures Did(OpeningFate(infile.data, h, name, q, old(Numbers())), h.offset,
                  old(records), old(headsWithoutDoc), status)
    {
      var docKeyword, comment := FindOpening(q);
      if !comment && c != QUOTE {
        headsWithoutDoc := headsWithoutDoc + [(name, h.offset)];
        return Running;
      }
      status := EmitDoc(h, name, comment, docKeyword, OpeningAt(infile.data, q).at);
    }

    /** A head, from the parenthesis of its arguments on. */
    method AfterHead(h: Head) returns (status: Status)
      requires Read1() && infile.Cursor() == h.offset && InSync()
      modifies this`c, this`minargs, this`maxargs, this`docStream, this`records, this`headsWithoutDoc, infile
      ensures Did(HeadFate(infile.data, h, old(Numbers())), h.offset, old(records), old(headsWithoutDoc), status)
    {
      var paren := SkipTo(OPEN, h.offset - 1);
      if !paren {
        NothingCut(header, records);
        return Finished;
      }
      status := AfterParen(h, Find(infile.data, h.offset - 1, OPEN));
    }

    /** The first argument of a head has to be a string literal. */
    method AfterParen(h: Head, ghost open: nat) returns (status: Status)
      requires Here(open) && open < |infile.data| && InSync()
      modifies this`c, this`minargs, this`maxargs, this`docStream, this`records, this`headsWithoutDoc, infile
      ensures Did(ParenFate(infile.data, h, open, old(Numbers())), h.offset, old(records), old(headsWithoutDoc), status)
    {
      Next(open);
      if c != QUOTE { return Running; }
      status := NameAndRest(h, open + 1);
    }

    /** The name and what follows it. */
    method NameAndRest(h: Head, ghost i: nat) returns (status: Status)
      requires Here(i) && i < |infile.data| && InSync()
      modifies this`c, this`minargs, this`maxargs, this`docStream, this`records, this`headsWithoutDoc, infile
      ensures Did(LiteralFate(infile.data, h, i, old(Numbers())), h.offset, old(records), old(headsWithoutDoc), status)
    {
      ghost var r := ReadBody(infile.data, i + 1, false, true, false);
      NoBadUsage(infile.data, i + 1, false, true);
      ReadBodyEnds(infile.data, i + 1, false, true, false);
      var name, u, raised := ReadString(true, false, false, i);
      if raised { return Raising; }
      status := AfterName(h, name, r.end);
    }

    // ---------------------------------------------------------------- the outer loop

    /** The outputs are those of `log`, and `rest` completes the heads of the file. */
    ghost predicate Logged(log: seq<Entry>, rest: seq<Entry>)
      reads this
    {
      && InSync() && records == Records(log) && headsWithoutDoc == WithoutDoc(log) && log + rest == all
      && (log != [] ==> !Final(log[|log| - 1].fate.outcome))
    }

    /** The stream is where the character at `i` comes next. */
    ghost predicate Ahead(i: nat)
      reads this, infile
    {
      && infile.Valid() && i <= |infile.data| + 1
      && (if i <= |infile.data| then infile.Cursor() == i else infile.Cursor() > |infile.data|)
      && c == (if i == 0 then NL else At(infile.data, i - 1))
    }

    /** Everything before index `i` has been scanned, with the heads of `log`. */
    ghost predicate Tracks(log: seq<Entry>, i: nat)
      reads this, infile
    {
      Ahead(i) && Logged(log, Log(infile.data, i, Numbers()))
    }

    /** The scan has ended with the head that ends the log. */
    ghost predicate Ended(log: seq<Entry>, status: Status)
      reads this
    {
      && log == all && log != []
      && (status.Raising? <==> log[|log| - 1].fate.outcome.Raised?)
      && (status.Finished? ==>
            && records == Records(log) && headsWithoutDoc == WithoutDoc(log)
            && docStream == Written(records, Cut(log), header))
    }

    /** Having done with the next head, the scanner tracks the longer log, or has ended. */
    lemma {:induction false} Advanced(e: Entry, log: seq<Entry>, status: Status)
      requires Did(e.fate, e.head.offset, Records(log), WithoutDoc(log), status)
      requires Continues(infile.data, log, e, all)
      ensures status.Running? ==> Tracks(log + [e], e.fate.end + 1)
      ensures !status.Running? ==> Ended(log + [e], status)
    {
      LogSnoc(log, e);
    }

    /** A head, which is the next one of the log. */
    method ScanHead(h: Head, ghost log: seq<Entry>, ghost e: Entry) returns (status: Status)
      requires Read1() && infile.Cursor() == h.offset && InSync()
      requires records == Records(log) && headsWithoutDoc == WithoutDoc(log)
      requires e.head == h && e.fate == HeadFate(infile.data, h, Numbers()) && Continues(infile.data, log, e, all)
      modifies this`c, this`minargs, this`maxargs, this`docStream, this`records, this`headsWithoutDoc, infile
      ensures infile.Valid()
      ensures status.Running? ==> Tracks(log + [e], e.fate.end + 1) && !Final(e.fate.outcome)
      ensures !status.Running? ==> Ended(log + [e], status)
    {
      status := AfterHead(h);
      Advanced(e, log, status);
    }

    /** The head that was found on the line that starts at `i`. */
    method FoundHead(h: Head, ghost log: seq<Entry>, ghost i: nat)
      returns (status: Status, ghost log': seq<Entry>, ghost i': nat)
      requires Read1() && infile.Cursor() == h.offset && Logged(log, Log(infile.data, i, Numbers()))
      requires i <= |infile.data| && LineStart(infile.data, i) && HeadOn(infile.data, i) == Some(h)
      modifies this`c, this`minargs, this`maxargs, this`docStream, this`records, this`headsWithoutDoc, infile
      ensures infile.Valid()
      ensures status.Running? ==> Tracks(log', i') && i' > i
      ensures !status.Running? ==> Ended(log', status)
    {
      ghost var e := LogAdvance(infile.data, log, i, Numbers(), all, h);
      log', i' := log + [e], e.fate.end + 1;
      status := ScanHead(h, log, e);
    }

    /** The line that starts at `i` has no head: the characters read start no other. */
    ghost method NoHead(log: seq<Entry>, i: nat) returns (i': nat)
      requires Read1() && i < infile.Cursor() && Logged(log, Log(infile.data, i, Numbers()))
      requires i <= |infile.data| && HeadOn(infile.data, i).None? && NoBreak(infile.data, i, infile.Cursor() - 1)
      ensures Tracks(log, i') && i' > i
    {
      i' := if infile.Cursor() <= |infile.data| then infile.Cursor() else |infile.data| + 1;
      LogSkip(infile.data, i, i', Numbers());
    }

    /** A line that starts at `i`: its head, if it has one. */
    method ScanLine(ghost log: seq<Entry>, ghost i: nat) returns (status: Status, ghost log': seq<Entry>, ghost i': nat)
      requires Tracks(log, i) && i <= |infile.data| && Break(c)
      modifies this, infile
      ensures infile.Valid()
      ensures status.Running? ==> Tracks(log', i') && i' > i
      ensures !status.Running? ==> Ended(log', status)
    {
      var found, defun, defvar, perBuffer := FindHead();
      if found {
        var h := Head(if defvar then KIND_V else KIND_F, infile.pos, defun, perBuffer);
        status, log', i' := FoundHead(h, log, i);
      } else {
        status, log' := Running, log;
        i' := NoHead(log, i);
      }
    }

    /** One iteration of the outer loop. */
    method Pass(ghost log: seq<Entry>, ghost i: nat) returns (status: Status, ghost log': seq<Entry>, ghost i': nat)
      requires Tracks(log, i) && i <= |infile.data|
      modifies this, infile
      ensures infile.Valid()
      ensures status.Running? ==> Tracks(log', i') && i' > i
      ensures !status.Running? ==> Ended(log', status)
    {
      if c == NL || c == CR {
        status, log', i' := ScanLine(log, i);
      } else {
        status, log', i' := Running, log, i + 1;
        LogSkip(infile.data, i, i + 1, Numbers());
        c := infile.Getc();
      }
    }
  }

  lemma {:induction false} LogSnoc(log: seq<Entry>, e: Entry)
    ensures var o := e.fate.outcome;
      && Records(log + [e]) == (if o.Documented? then Records(log) + [o.record] else Records(log))
      && WithoutDoc(log + [e]) == (if o.Bare? then WithoutDoc(log) + [(o.name, e.head.offset)] else WithoutDoc(log))
  {
    assert (log + [e])[..|log|] == log;
  }

  /** `e` comes next in the log of the file. */
  predicate Continues(data: Bytes, log: seq<Entry>, e: Entry, all: seq<Entry>)
  {
    && e.fate.end <= |data|
    && (if Final(e.fate.outcome) then log + [e] == all
        else log + [e] + Log(data, e.fate.end + 1, e.fate.arity) == all)
  }

  /** The log of a file, one head further. */
  lemma {:induction false} LogAdvance(data: Bytes, log: seq<Entry>, i: nat, a: Arity, all: seq<Entry>, h: Head)
    returns (e: Entry)
    requires i <= |data| && LineStart(data, i) && HeadOn(data, i) == Some(h) && log + Log(data, i, a) == all
    ensures e.head == h && e.fate == HeadFate(data, h, a)
    ensures Continues(data, log, e, all) && (!Final(e.fate.outcome) ==> e.fate.end > i)
  {
    var rest;
    e, rest := LogCons(data, i, a);
    AppendAssoc(log, [e], rest);
    assert log + [e] + [] == log + [e];
  }

  /** No head starts where no line starts. */
  lemma {:induction false} LogSkip(data: Bytes, i: nat, j: nat, a: Arity)
    requires i < j <= |data| + 1 && !HeadStarts(data, i) && NoBreak(data, i, j - 1)
    ensures Log(data, i, a) == Log(data, j, a)
    decreases j - i
  {
    if i + 1 < j {
      assert !Break(At(data, i));
      LogSkip(data, i + 1, j, a);
    }
  }

  /** `scan_c_file`: terminates on every file, and gives what the heads of the file come
      to; it raises exactly where one of them does. */
  method ScanCFile(path: Bytes, data: Bytes, emit: bool) returns (r: Option<ScanResult>)
    ensures r == ScanFile(path, data, emit)
  {
    var s := new Scanner(path, data, emit);
    ghost var log: seq<Entry>, i: nat := [], 0;
    var status, eof := Running, false;
    while !eof && status == Running
      invariant fresh(s) && fresh(s.infile) && s.infile.data == data && s.header == Header(path, emit)
      invariant s.all == FileLog(data)
      invariant s.infile.Valid() && (if status == Running then s.Tracks(log, i) else s.Ended(log, status))
      invariant status == Running ==> (eof <==> i > |data|)
      decreases status == Running, |data| + 1 - i
    {
      status, log, i := s.Pass(log, i);
      eof := s.infile.AtEof();
    }
    if status == Raising { return None; }
    assert log + [] == log;
    NothingCut(s.header, s.records);
    r := Some(ScanResult(s.records, s.headsWithoutDoc, s.docStream));
  }

  lemma {:induction false} NothingCut(header: Bytes, records: seq<Record>)
    ensures Written(records, None, header) == header + RenderAll(records)
  {
  }

  lemma {:induction false} SliceSnoc(data: Bytes, b: nat, j: nat)
    requires b <= j < |data|
    ensures data[b..j] + [data[j]] == data[b..j + 1]
  {
  }

  /** Without the keyword only a dangling backslash can raise. */
  lemma {:induction false} NoBadUsage(data: Bytes, start: nat, comment: bool, sink: bool)
    ensures ReadBody(data, start, comment, sink, false).fault != BadUsage
  {
    var i := BodyStart(data, start, comment);
    if i < |data| { ReadPlain(data, i, comment, Start(sink, false), false); }
  }

  lemma {:induction false} RenderCommit(header: Bytes, records: seq<Record>, r: Record)
    ensures Written(records, Some(r), header) == header + RenderAll(records + [r])
  {
    assert (records + [r])[..|records|] == records;
    AppendAssoc(header, RenderAll(records), Render(r));
  }

  lemma {:induction false} RenderPieces(base: Bytes, r: Record)
    ensures base + ([FS, r.kind] + r.name + [NL]) + r.doc == base + Render(r)
  {
    AppendAssoc(base, [FS, r.kind] + r.name + [NL], r.doc);
  }

  lemma {:induction false} RenderMore(base: Bytes, r: Record, fn: Bytes)
    ensures base + Render(r) + fn == base + Render(r.(doc := r.doc + fn))
  {
    AppendAssoc([FS, r.kind] + r.name + [NL], r.doc, fn);
    AppendAssoc(base, Render(r), fn);
  }

  // ------------------------------------------------------------- words of a head

  lemma {:induction false} WordAppend(data: Bytes, i: nat, a: Bytes, b: Bytes)
    ensures WordAt(data, i, a + b) <==> WordAt(data, i, a) && WordAt(data, i + |a|, b)
  {
    if WordAt(data, i, a + b) {
      forall k | 0 <= k < |a| ensures At(data, i + k) == a[k] { assert (a + b)[k] == a[k]; }
      forall k | 0 <= k < |b| ensures At(data, i + |a| + k) == b[k] {
        assert At(data, i + (|a| + k)) == (a + b)[|a| + k];
      }
    }
    if WordAt(data, i, a) && WordAt(data, i + |a|, b) {
      forall k | 0 <= k < |a + b| ensures At(data, i + k) == (a + b)[k] {
        if k >= |a| { assert At(data, i + |a| + (k - |a|)) == b[k - |a|]; }
      }
    }
  }

  lemma {:induction false} WordOne(data: Bytes, i: nat, c: Byte)
    ensures WordAt(data, i, [c]) <==> At(data, i) == c
  {
    assert WordAt(data, i, [c]) ==> At(data, i + 0) == [c][0];
  }

  /** The scanner reads `DEF` and `DEFVAR_` a piece at a time. */
  lemma {:induction false} DefAt(data: Bytes, i: nat)
    ensures WordAt(data, i, DEF) <==> At(data, i) == 0x44 && WordAt(data, i + 1, EF)
  {
    assert DEF == [0x44] + EF;
    WordAppend(data, i, [0x44], EF);
    WordOne(data, i, 0x44);
  }

  lemma {:induction false} DefvarAt(data: Bytes, i: nat)
    ensures WordAt(data, i, DEFVAR) <==>
      At(data, i) == 0x44 && WordAt(data, i + 1, EF) && At(data, i + 3) == 0x56 && WordAt(data, i + 4, AR)
  {
    assert DEFVAR == DEF + ([0x56] + AR);
    WordAppend(data, i, DEF, [0x56] + AR);
    DefAt(data, i);
    WordAppend(data, i + 3, [0x56], AR);
    WordOne(data, i + 3, 0x56);
  }
}
