/**
 `_put_char`, `_scan_keyword_or_put_char` and `_read_c_string_or_comment` of
 scripts/make_docfile.py, reading a `Stream` and proved equal to `DocRead.ReadBody`.
 A Python exception is the out-parameter `raised`.
 */
module DocReader {
  import opened Text
  import opened DocStream
  import opened DocText
  import opened DocMachine
  import opened DocRead

  lemma {:induction false} RepeatHead(b: Byte, n: nat)
    requires n > 0
    ensures Repeat(b, n) == [b] + Repeat(b, n - 1)
  {
  }

  class RcsocState {
    const inFile: Stream
    const sink: bool      // `out` or `buf` is present
    const keyword: bool   // the keyword is `usage:` rather than None
    var text: Bytes
    var pendingSpaces: nat
    var pendingNewlines: nat
    var curKeywordPtr: nat
    var sawKeyword: bool

    ghost predicate Valid()
      reads this, inFile
    {
      && inFile.Valid() && inFile.Cursor() >= 1
      && curKeywordPtr < |USAGE| && (!keyword ==> curKeywordPtr == 0)
      && (!sink ==> text == [])
      && (sawKeyword ==> keyword)
    }

    ghost function View(): Machine
      reads this
    {
      Machine(sink, keyword, text, pendingNewlines, pendingSpaces, curKeywordPtr)
    }

    constructor (inFile: Stream, sink: bool, keyword: bool)
      ensures View() == Start(sink, keyword) && !sawKeyword && this.inFile == inFile
    {
      this.inFile, this.sink, this.keyword := inFile, sink, keyword;
      text, pendingSpaces, pendingNewlines, curKeywordPtr, sawKeyword := [], 0, 0, 0, false;
    }

    method Write(ch: Byte)
      modifies this`text
      ensures text == if sink then old(text) + [ch] else old(text)
    {
      if sink { text := text + [ch]; }
    }

    /** Flush pending newlines, then pending spaces, then `ch`. Writing the end
        of file raises. */
    method PutChar(ch: int) returns (raised: bool)
      requires EOF <= ch < 256 && !Blank(ch)
      modifies this`text, this`pendingSpaces, this`pendingNewlines
      ensures raised <==> sink && ch == EOF
      ensures ch != EOF ==> View() == Put(old(View()), [ch])
      ensures !sink ==> text == old(text)
    {
      ghost var total := text + Repeat(NL, pendingNewlines) + Repeat(SPACE, pendingSpaces);
      while pendingNewlines > 0 || pendingSpaces > 0
        invariant sink ==> text + Repeat(NL, pendingNewlines) + Repeat(SPACE, pendingSpaces) == total
        invariant !sink ==> text == old(text)
        decreases pendingNewlines, pendingSpaces
      {
        if pendingNewlines > 0 {
          RepeatHead(NL, pendingNewlines);
          AppendAssoc(text, [NL], Repeat(NL, pendingNewlines - 1));
          pendingNewlines := pendingNewlines - 1;
          Write(NL);
        } else {
          RepeatHead(SPACE, pendingSpaces);
          AppendAssoc(text, [SPACE], Repeat(SPACE, pendingSpaces - 1));
          assert text + Repeat(NL, 0) == text && text + [SPACE] + Repeat(NL, 0) == text + [SPACE];
          pendingSpaces := pendingSpaces - 1;
          Write(SPACE);
        }
      }
      assert text + Repeat(NL, 0) + Repeat(SPACE, 0) == text;
      if ch == EOF {
        raised := sink;
      } else {
        Write(ch);
        raised := false;
      }
    }

    /** Read on past spaces and newlines. */
    method SkipBlankRun() returns (c: int)
      requires inFile.Valid()
      modifies inFile
      ensures inFile.Valid() && inFile.pushback == []
      ensures inFile.Cursor() - 1 == SkipBlanks(inFile.data, old(inFile.Cursor()))
      ensures c == At(inFile.data, inFile.Cursor() - 1)
    {
      c := inFile.Getc();
      while c == SPACE || c == NL
        invariant inFile.Valid() && inFile.pushback == [] && inFile.Cursor() >= 1
        invariant c == At(inFile.data, inFile.Cursor() - 1)
        invariant SkipBlanks(inFile.data, inFile.Cursor() - 1) == SkipBlanks(inFile.data, old(inFile.Cursor()))
        decreases |inFile.data| + 1 - inFile.Cursor()
      {
        c := inFile.Getc();
      }
    }

    /** Read on to a space or a closing parenthesis. */
    method SkipName() returns (c: int)
      requires inFile.Valid()
      modifies inFile
      ensures inFile.Valid() && inFile.pushback == []
      ensures inFile.Cursor() - 1 == NameEnd(inFile.data, old(inFile.Cursor()))
      ensures c == At(inFile.data, inFile.Cursor() - 1)
    {
      c := inFile.Getc();
      while c != EOF && c != SPACE && c != 0x29
        invariant inFile.Valid() && inFile.pushback == [] && inFile.Cursor() >= 1
        invariant c == At(inFile.data, inFile.Cursor() - 1)
        invariant NameEnd(inFile.data, inFile.Cursor() - 1) == NameEnd(inFile.data, old(inFile.Cursor()))
        decreases |inFile.data| + 1 - inFile.Cursor()
      {
        c := inFile.Getc();
      }
    }

    /** Write `(`, `f` and `n` after two owed newlines. */
    method PutFn()
      requires pendingNewlines == 2 && pendingSpaces == 0
      modifies this`text, this`pendingSpaces, this`pendingNewlines
      ensures text == if sink then old(text) + FN_TEXT else old(text)
      ensures pendingNewlines == 0 && pendingSpaces == 0
    {
      ghost var m := View();
      PutPut(m, [0x28], [0x66]);
      PutPut(m, [0x28] + [0x66], [0x6E]);
      FinishText(text);
      var r := PutChar(0x28);
      r := PutChar(0x66);
      r := PutChar(0x6E);
    }

    lemma {:induction false} FinishText(before: Bytes)
      ensures before + Repeat(NL, 2) + Repeat(SPACE, 0) + ([0x28] + [0x66] + [0x6E])
           == before + FN_TEXT
    {
      assert Repeat(NL, 2) == [NL, NL];
    }

    /** The keyword has completed: canonicalize the whitespace before the usage
        line and replace the function name by `fn`. Writing `(fn` is deferred to
        the end here: nothing between the three characters writes. */
    method FinishKeyword() returns (raised: bool)
      requires Valid() && keyword
      modifies this, inFile
      ensures Valid() && sawKeyword
      ensures raised <==> UsageJump(inFile.data, old(inFile.Cursor())).None?
      ensures !raised ==> inFile.Cursor() == UsageJump(inFile.data, old(inFile.Cursor())).value
      ensures !raised ==> View() == AfterUsage(old(View()))
    {
      sawKeyword := true;
      curKeywordPtr := 0;
      pendingNewlines := 2;
      pendingSpaces := 0;
      var c := SkipBlankRun();
      if c != 0x28 { return true; }
      c := SkipName();
      if c == EOF { return true; }
      PutFn();
      inFile.Ungetc(c);
      raised := false;
    }

    /** A false alarm: write the prefix of the keyword that was held. */
    method ReleaseHeld()
      requires 0 < curKeywordPtr < |USAGE|
      modifies this`text, this`pendingSpaces, this`pendingNewlines, this`curKeywordPtr
      ensures View() == Put(old(View()), USAGE[..old(curKeywordPtr)]).(held := 0)
    {
      ghost var m := View();
      var n := curKeywordPtr;
      for i := 0 to n
        invariant curKeywordPtr == n
        invariant View() == if i == 0 then m else Put(m, USAGE[..i])
      {
        PutPut(m, USAGE[..i], [USAGE[i]]);
        assert USAGE[..i + 1] == USAGE[..i] + [USAGE[i]];
        var raised := PutChar(USAGE[i]);
      }
      curKeywordPtr := 0;
    }

    lemma {:induction false} ReleaseThenPut(m: Machine, ch: Byte)
      requires m.held <= |USAGE| && !Matches(m, ch)
      ensures m.held > 0 ==> Put(Put(m, USAGE[..m.held]).(held := 0), [ch]) == Scan(m, ch)
      ensures m.held == 0 ==> Put(m, [ch]) == Scan(m, ch)
    {
      PutPut(m, USAGE[..m.held], [ch]);
      assert USAGE[..0] + [ch] == [ch];
    }

    /** Hold `ch` while it matches the keyword; otherwise release the held
        prefix (a false alarm) and write `ch`. */
    method ScanKeywordOrPutChar(ch: int) returns (raised: bool)
      requires Valid() && EOF <= ch < 256 && !Blank(ch)
      modifies this, inFile
      ensures Valid()
      ensures Fed(this, ch, old(View()), old(inFile.Cursor()), old(sawKeyword), raised)
    {
      if keyword && curKeywordPtr < |USAGE| && USAGE[curKeywordPtr] == ch
         && (curKeywordPtr > 0 || pendingNewlines > 0)
      {
        curKeywordPtr := curKeywordPtr + 1;
        if curKeywordPtr == |USAGE| {
          curKeywordPtr := 0;
          raised := FinishKeyword();
          return;
        }
        return false;
      }
      ghost var m := View();
      if keyword && curKeywordPtr > 0 {
        ReleaseHeld();
      }
      raised := PutChar(ch);
      if ch != EOF { ReleaseThenPut(m, ch); }
    }
  }

  /** What feeding `ch` to a machine in state `m` did. A completed keyword jumps. */
  ghost predicate Fed(st: RcsocState, ch: int, m: Machine, cursor: nat, saw: bool, raised: bool)
    requires EOF <= ch < 256 && st.Valid() && m.held <= |USAGE|
    reads st, st.inFile
  {
    if Completes(m, ch) then
      var jump := UsageJump(st.inFile.data, cursor);
      && (raised <==> jump.None?)
      && (!raised ==> st.inFile.Cursor() == jump.value && st.View() == AfterUsage(m) && st.sawKeyword)
    else
      && st.inFile.Cursor() == cursor && st.sawKeyword == saw
      && (raised <==> st.sink && ch == EOF)
      && (if ch == EOF then !st.sink ==> st.text == m.out else st.View() == Feed(m, ch))
  }

  /** What is still to be read from the current character on gives `whole`. */
  ghost predicate InStep(st: RcsocState, comment: bool, whole: Reading)
    reads st, st.inFile
  {
    st.Valid() && whole == Read(st.inFile.data, st.inFile.Cursor() - 1, comment, st.View(), st.sawKeyword)
  }

  /** The cursor is just behind the character at `i`; the end of the file stands for
      everything behind it. */
  ghost predicate Behind(s: Stream, i: nat)
    requires s.Valid()
    reads s
  {
    if i < |s.data| then s.Cursor() == i + 1 else s.Cursor() > |s.data|
  }

  /** The body has been read to its end. */
  ghost predicate Landed(st: RcsocState, whole: Reading)
    reads st, st.inFile
  {
    && st.Valid() && st.text == whole.text && st.sawKeyword == whole.usage && Behind(st.inFile, whole.end)
    && !Failed(whole, st.sink)
  }

  /** Writing the end of the file raises only where there is a sink. */
  predicate Failed(r: Reading, sink: bool) { r.fault == BadUsage || (r.fault == Dangling && sink) }

  /** Count a space or newline, or hand any other character to the keyword scan. */
  method FeedChar(st: RcsocState, ch: int) returns (raised: bool)
    requires st.Valid() && EOF <= ch < 256
    modifies st, st.inFile
    ensures st.Valid()
    ensures Fed(st, ch, old(st.View()), old(st.inFile.Cursor()), old(st.sawKeyword), raised)
  {
    raised := false;
    if ch == SPACE {
      st.pendingSpaces := st.pendingSpaces + 1;
    } else if ch == NL {
      st.pendingNewlines := st.pendingNewlines + 1;
      st.pendingSpaces := 0;
    } else {
      raised := st.ScanKeywordOrPutChar(ch);
    }
  }

  /** Feed one decoded character and read the next one. */
  method Accept(st: RcsocState, comment: bool, ch: Byte, ghost i: nat, ghost whole: Reading)
    returns (c: int, raised: bool)
    requires InStepAt(st, comment, whole, i) && NextToken(st.inFile.data, i, comment) == Char(ch, st.inFile.Cursor())
    modifies st, st.inFile
    ensures st.Valid() && (raised ==> whole.fault == BadUsage)
    ensures !raised ==> InStep(st, comment, whole) && c == At(st.inFile.data, st.inFile.Cursor() - 1)
    ensures !raised ==> st.inFile.Cursor() > old(st.inFile.Cursor())
  {
    c := ch;
    raised := FeedChar(st, ch);
    if !raised { c := st.inFile.Getc(); }
  }

  /** In step with the token at `i`, whatever has been read of it. */
  ghost predicate InStepAt(st: RcsocState, comment: bool, whole: Reading, i: nat)
    reads st, st.inFile
  {
    st.Valid() && whole == Read(st.inFile.data, i, comment, st.View(), st.sawKeyword)
  }

  /** A backslash at the end of the file hands the end of the file to the machine. */
  method Dangle(st: RcsocState, comment: bool, ghost i: nat, ghost whole: Reading) returns (c: int, raised: bool)
    requires InStepAt(st, comment, whole, i) && st.inFile.Cursor() > |st.inFile.data|
    requires At(st.inFile.data, i) == BACKSLASH && i + 1 == |st.inFile.data|
    modifies st, st.inFile
    ensures st.Valid() && (raised ==> Failed(whole, st.sink))
    ensures !raised ==> c == EOF && !st.sink && Landed(st, whole) && st.inFile.Cursor() > old(st.inFile.Cursor())
  {
    StarIsFed(st.View());
    c := EOF;
    raised := FeedChar(st, EOF);
    if !raised { c := st.inFile.Getc(); }
  }

  /** A backslash and what it escapes. */
  method ReadEscape(st: RcsocState, comment: bool, ghost whole: Reading) returns (c: int, raised: bool)
    requires InStep(st, comment, whole) && At(st.inFile.data, st.inFile.Cursor() - 1) == BACKSLASH
    modifies st, st.inFile
    ensures st.Valid() && (raised ==> Failed(whole, st.sink))
    ensures !raised ==> InStep(st, comment, whole) || (c == EOF && !st.sink && Landed(st, whole))
    ensures !raised ==> c == At(st.inFile.data, st.inFile.Cursor() - 1) && st.inFile.Cursor() > old(st.inFile.Cursor())
  {
    ghost var i := st.inFile.Cursor() - 1;
    raised := false;
    c := st.inFile.Getc();
    if c == NL || c == CR {
      c := st.inFile.Getc();
      return;
    }
    if c == EOF {
      c, raised := Dangle(st, comment, i, whole);
      return;
    }
    if c == 0x6E { c := NL; } else if c == 0x74 { c := TAB; }
    c, raised := Accept(st, comment, c, i, whole);
  }

  /** One character of a body that is not its terminator. */
  method ReadChar(st: RcsocState, comment: bool, c0: int, ghost whole: Reading)
    returns (c: int, raised: bool)
    requires InStep(st, comment, whole) && c0 == At(st.inFile.data, st.inFile.Cursor() - 1)
    requires c0 != EOF && c0 != (if comment then STAR else QUOTE)
    modifies st, st.inFile
    ensures st.Valid() && (raised ==> Failed(whole, st.sink))
    ensures !raised ==> InStep(st, comment, whole) || (c == EOF && !st.sink && Landed(st, whole))
    ensures !raised ==> c == At(st.inFile.data, st.inFile.Cursor() - 1) && st.inFile.Cursor() > old(st.inFile.Cursor())
  {
    if c0 == BACKSLASH {
      c, raised := ReadEscape(st, comment, whole);
    } else {
      c, raised := Accept(st, comment, c0, st.inFile.Cursor() - 1, whole);
    }
  }

  method ReadRun(st: RcsocState, comment: bool, c0: int, ghost whole: Reading)
    returns (c: int, raised: bool)
    requires InStep(st, comment, whole) && c0 == At(st.inFile.data, st.inFile.Cursor() - 1)
    modifies st, st.inFile
    ensures st.Valid() && (raised ==> Failed(whole, st.sink))
    ensures !raised ==> InStep(st, comment, whole) || (c == EOF && !st.sink && Landed(st, whole))
    ensures !raised ==> c == At(st.inFile.data, st.inFile.Cursor() - 1)
    ensures !raised ==>
      st.inFile.Cursor() >= old(st.inFile.Cursor()) + (if c == EOF && c0 != EOF then 1 else 0)
    ensures !raised ==> c == EOF || c == (if comment then STAR else QUOTE)
  {
    c, raised := c0, false;
    while c != EOF && c != (if comment then STAR else QUOTE)
      invariant st.Valid()
      invariant st.inFile.Cursor() >= old(st.inFile.Cursor()) + (if c == EOF && c0 != EOF then 1 else 0)
      invariant InStep(st, comment, whole) || (c == EOF && !st.sink && Landed(st, whole))
      invariant c == At(st.inFile.data, st.inFile.Cursor() - 1)
      decreases |st.inFile.data| + 1 - st.inFile.Cursor()
    {
      c, raised := ReadChar(st, comment, c, whole);
      if raised { return; }
    }
  }

  /** After a run of a comment: its end, or a star that belongs to the text. */
  method AfterStar(st: RcsocState, c0: int, ghost whole: Reading) returns (c: int, closed: bool)
    requires st.Valid() && c0 == At(st.inFile.data, st.inFile.Cursor() - 1) && (c0 == EOF || c0 == STAR)
    requires InStep(st, true, whole) || (c0 == EOF && !st.sink && Landed(st, whole))
    modifies st, st.inFile
    ensures st.Valid() && c == At(st.inFile.data, st.inFile.Cursor() - 1)
    ensures st.inFile.Cursor() >= old(st.inFile.Cursor()) + (if c0 == EOF then 0 else 1)
    ensures if closed || c == EOF then Landed(st, whole) else InStep(st, true, whole)
  {
    c, closed := c0, false;
    if c != EOF {
      c := st.inFile.Getc();
    }
    if c == SLASH {
      c := st.inFile.Getc();
      closed := true;
      return;
    }
    StarIsFed(st.View());
    var raised := FeedChar(st, STAR);
  }

  lemma {:induction false} StarIsFed(m: Machine)
    requires m.held < |USAGE|
    ensures Run(m, [STAR]) == Feed(m, STAR) && !Completes(m, STAR) && Run(m, []) == m
    ensures !m.sink ==> Feed(m, STAR).out == m.out
  {
    assert [STAR][..0] == [];
  }

  lemma {:induction false} ReadAtEnd(data: Bytes, i: nat, m: Machine, seen: bool)
    requires m.held < |USAGE|
    ensures i >= |data| ==> Read(data, i, false, m, seen) == Reading(m.out, |data|, seen, NoFault)
    ensures At(data, i) == QUOTE && At(data, i + 1) != QUOTE ==>
      Read(data, i, false, m, seen) == Reading(m.out, i + 1, seen, NoFault)
    ensures At(data, i) == QUOTE && At(data, i + 1) == QUOTE ==>
      Read(data, i, false, m, seen) == Read(data, i + 2, false, m, seen)
  {
  }

  /** After a run of a string: its end, or the next string it is joined to. */
  method AfterQuote(st: RcsocState, c0: int, ghost whole: Reading) returns (c: int, closed: bool)
    requires st.Valid() && c0 == At(st.inFile.data, st.inFile.Cursor() - 1) && (c0 == EOF || c0 == QUOTE)
    requires InStep(st, false, whole) || (c0 == EOF && !st.sink && Landed(st, whole))
    modifies st.inFile
    ensures st.Valid() && c == At(st.inFile.data, st.inFile.Cursor() - 1)
    ensures st.inFile.Cursor() >= old(st.inFile.Cursor()) + (if c0 == EOF then 0 else 1)
    ensures if closed || c == EOF then Landed(st, whole) else InStep(st, false, whole)
  {
    ghost var i := st.inFile.Cursor() - 1;
    ReadAtEnd(st.inFile.data, i, st.View(), st.sawKeyword);
    ReadAtEnd(st.inFile.data, i + 2, st.View(), st.sawKeyword);
    c := c0;
    if c != EOF {
      c := st.inFile.Getc();
    }
    closed := c != QUOTE;
    if closed { return; }
    c := st.inFile.Getc();
  }

  /** A run, and the star or quote after it. */
  method ReadSegment(st: RcsocState, comment: bool, c0: int, ghost whole: Reading)
    returns (c: int, closed: bool, raised: bool)
    requires InStep(st, comment, whole) && c0 == At(st.inFile.data, st.inFile.Cursor() - 1) && c0 != EOF
    modifies st, st.inFile
    ensures st.Valid() && (raised ==> Failed(whole, st.sink))
    ensures !raised ==> Progress(st, comment, whole, c, closed) && st.inFile.Cursor() > old(st.inFile.Cursor())
  {
    closed := false;
    c, raised := ReadRun(st, comment, c0, whole);
    if raised { return; }
    if comment {
      c, closed := AfterStar(st, c, whole);
    } else {
      c, closed := AfterQuote(st, c, whole);
    }
  }

  /** In the middle of a body, or behind it. */
  ghost predicate Progress(st: RcsocState, comment: bool, whole: Reading, c: int, closed: bool)
    reads st, st.inFile
  {
    && (if closed || c == EOF then Landed(st, whole) else InStep(st, comment, whole))
    && c == At(st.inFile.data, st.inFile.Cursor() - 1)
  }

  /** The outer loop: runs of characters separated by stars or paired quotes. */
  method ReadRuns(st: RcsocState, comment: bool, c0: int, ghost whole: Reading)
    returns (c: int, raised: bool)
    requires st.Valid() && Progress(st, comment, whole, c0, false)
    modifies st, st.inFile
    ensures st.Valid() && (raised <==> Failed(whole, st.sink))
    ensures !raised ==> Landed(st, whole) && c == At(st.inFile.data, st.inFile.Cursor() - 1)
    ensures !raised ==> st.inFile.Cursor() >= old(st.inFile.Cursor())
  {
    c, raised := c0, false;
    var closed := false;
    while c != EOF && !closed
      invariant st.Valid() && st.inFile.Cursor() >= old(st.inFile.Cursor())
      invariant Progress(st, comment, whole, c, closed)
      decreases !closed, |st.inFile.data| + 1 - st.inFile.Cursor()
    {
      c, closed, raised := ReadSegment(st, comment, c, whole);
      if raised { return; }
    }
  }

  /** The first character of a body: whitespace that opens a comment is skipped. */
  method FirstChar(infile: Stream, comment: bool) returns (c: int)
    requires infile.Valid()
    modifies infile
    ensures infile.Valid() && infile.Cursor() >= 1 && c == At(infile.data, infile.Cursor() - 1)
    ensures infile.Cursor() - 1 == BodyStart(infile.data, old(infile.Cursor()), comment)
  {
    c := infile.Getc();
    if comment {
      while IsSpace(c)
        invariant infile.Valid() && infile.Cursor() >= 1
        invariant c == At(infile.data, infile.Cursor() - 1)
        invariant SkipSpaces(infile.data, infile.Cursor() - 1) == SkipSpaces(infile.data, old(infile.Cursor()))
        decreases |infile.data| + 1 - infile.Cursor()
      {
        c := infile.Getc();
      }
    }
  }

  /** `_read_c_string_or_comment`: the character after the body, its text, and
      whether a usage line was seen. */
  method ReadCStringOrComment(infile: Stream, sink: bool, comment: bool, wantUsage: bool)
    returns (c: int, text: Bytes, sawUsage: bool, raised: bool)
    requires infile.Valid()
    modifies infile
    ensures infile.Valid()
    ensures raised <==> Failed(ReadBody(infile.data, old(infile.Cursor()), comment, sink, wantUsage), sink)
    ensures var r := ReadBody(infile.data, old(infile.Cursor()), comment, sink, wantUsage);
      !raised ==>
        && text == r.text && sawUsage == r.usage && Behind(infile, r.end)
        && c == At(infile.data, r.end) && infile.Cursor() > old(infile.Cursor())
  {
    ghost var whole := ReadBody(infile.data, infile.Cursor(), comment, sink, wantUsage);
    c := FirstChar(infile, comment);
    var st := new RcsocState(infile, sink, wantUsage);
    c, raised := ReadRuns(st, comment, c, whole);
    text := st.text;
    sawUsage := st.sawKeyword;
  }
}
