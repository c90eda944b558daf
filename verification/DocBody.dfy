/**
 Written documentation, with or without a usage line of its own, and what is read of
 it.
 */
module DocBody {
  import opened Text
  import opened DocStream
  import opened DocText
  import opened DocMachine
  import opened DocKeyword
  import opened DocBatch
  import opened DocRead
  import opened DocWrite

  /** A usage line: the blanks after its keyword, the function's name, and the rest from
      the space or parenthesis that ends the name. */
  datatype UsageLine = NoUsage | Usage(blanks: Bytes, name: Bytes, more: Pieces)

  datatype Document = Document(text: Pieces, usage: UsageLine)

  function UsageSource(u: UsageLine): Bytes
  {
    if u.NoUsage? then []
    else [0x75, 0x73, 0x61, 0x67, 0x65, 0x3A] + (u.blanks + ([0x28] + (u.name + Source(u.more))))
  }

  function DocumentSource(d: Document): Bytes { Source(d.text) + UsageSource(d.usage) }

  /** The text that is kept: without blanks before newlines and at the end; the usage line
      after a blank line, with `fn` for the function's name. */
  function DocumentText(d: Document): Bytes
  {
    Batch(Meaning(d.text))
    + (if d.usage.NoUsage? then [] else [0x0A, 0x0A, 0x28, 0x66, 0x6E] + Batch(Meaning(d.usage.more)))
  }

  /** No keyword in the text, none begun at its end, and no blank inside one begun. */
  predicate Undisturbed(x: Bytes) { !Seen(x) && !Open(Marks(x), |Marks(x)|) && Clean(Marks(x)) }

  predicate UsageWritable(text: Bytes, u: UsageLine, comment: bool)
  {
    u.Usage? ==>
      && NewlineBefore(text)
      && (forall k :: 0 <= k < |u.blanks| ==> u.blanks[k] == 0x20 || u.blanks[k] == 0x0A)
      && (forall k :: 0 <= k < |u.name| ==> u.name[k] != 0x20 && u.name[k] != 0x29)
      && Allowed(u.more, comment, false) && Undisturbed(Meaning(u.more))
      && u.more.Cons? && (u.more.first == Raw(0x20) || u.more.first == Raw(0x29))
  }

  predicate Writable(d: Document, pad: Bytes, comment: bool)
  {
    && Allowed(d.text, comment, false) && Padded(pad, d.text, comment) && Undisturbed(Meaning(d.text))
    && UsageWritable(Meaning(d.text), d.usage, comment)
  }

  // ------------------------------------------------------------- texts without keyword

  /** A text no line of which starts with a `u` is undisturbed. */
  lemma {:induction false} NoKeyword(x: Bytes)
    requires forall i :: 0 <= i < |x| && x[i] == 0x75 ==> !NewlineBefore(x[..i])
    ensures Undisturbed(x)
  {
    MarksAfterText(x);
    var ms := Marks(x);
    forall t: nat | t <= |ms| ensures !Open(ms, t) {
      if Open(ms, t) { var s := OpenSince(ms, t); }
    }
  }

  lemma {:induction false} MarksAfterText(x: Bytes)
    requires forall i :: 0 <= i < |x| && x[i] == 0x75 ==> !NewlineBefore(x[..i])
    ensures forall s :: 0 <= s < |Marks(x)| && Marks(x)[s].c == 0x75 ==> !Marks(x)[s].afterNewline
  {
    if x != [] {
      var init := x[..|x| - 1];
      forall i | 0 <= i < |init| && init[i] == 0x75 ensures !NewlineBefore(init[..i]) { assert init[..i] == x[..i]; }
      MarksAfterText(init);
    }
  }

  /** A text with no space before a newline and no blank at its end is kept as it is. */
  lemma {:induction false} TidyIsKept(x: Bytes)
    requires x != [] ==> x[|x| - 1] != 0x20 && x[|x| - 1] != 0x0A
    requires forall i :: 0 <= i < |x| - 1 && x[i] == 0x20 ==> x[i + 1] != 0x0A
    ensures Batch(x) == x
  {
    TidySqueezed(x);
  }

  lemma {:induction false} TidySqueezed(x: Bytes)
    requires forall i :: 0 <= i < |x| - 1 && x[i] == 0x20 ==> x[i + 1] != 0x0A
    ensures Squeeze(x) == x && (x == [] || x[0] != 0x0A ==> FirstNonSpace(x) != 0x0A)
  {
    if x != [] {
      var rest := x[1..];
      forall i | 0 <= i < |rest| - 1 && rest[i] == 0x20 ensures rest[i + 1] != 0x0A {
        assert x[i + 1] == rest[i] && x[i + 2] == rest[i + 1];
      }
      TidySqueezed(rest);
      assert rest != [] ==> rest[0] == x[1];
      assert x == [x[0]] + rest;
    }
  }

  /** Blanks at the end are dropped, whatever the text before them. */
  lemma {:induction false} EndDropped(x: Bytes, blanks: Bytes)
    requires forall k :: 0 <= k < |blanks| ==> blanks[k] == 0x20 || blanks[k] == 0x0A
    ensures Batch(x + blanks) == Batch(x)
  {
    if blanks == [] {
      assert x + [] == x;
    } else {
      var init, c := blanks[..|blanks| - 1], blanks[|blanks| - 1];
      EndDropped(x, init);
      assert x + blanks == x + init + [c];
      RunSnoc(Start(true, false), x + init, c);
      StreamingIsBatch(x + init);
      StreamingIsBatch(x + init + [c]);
    }
  }

  /** A space before a newline is dropped, whatever stands around them. */
  lemma {:induction false} SpaceDropped(x: Bytes, y: Bytes)
    ensures Batch(x + [0x20, 0x0A] + y) == Batch(x + [0x0A] + y)
  {
    var m0 := Start(true, false);
    assert x + [0x20, 0x0A] == x + [0x20] + [0x0A];
    RunSnoc(m0, x, 0x20);
    RunSnoc(m0, x + [0x20], 0x0A);
    RunSnoc(m0, x, 0x0A);
    RunAppend(m0, x + [0x20, 0x0A], y);
    RunAppend(m0, x + [0x0A], y);
    StreamingIsBatch(x + [0x20, 0x0A] + y);
    StreamingIsBatch(x + [0x0A] + y);
  }

  // ------------------------------------------------------------------- no usage line

  lemma {:induction false} ReadIsBody(data: Bytes, start: nat, comment: bool, i: nat)
    requires BodyStart(data, start, comment) == i < |data|
    ensures ReadBody(data, start, comment, true, true) == Read(data, i, comment, Start(true, true), false)
  {
  }

  /** A stretch without a keyword, up to the end of the body. */
  lemma {:induction false} LastStretch(data: Bytes, i: nat, ps: Pieces, comment: bool, seen: bool, end: nat)
    requires Has(data, i, Source(ps) + Terminated(comment)) && Allowed(ps, comment, false)
    requires end == i + |Source(ps)| && (!comment ==> At(data, end + 1) != 0x22)
    requires Undisturbed(Meaning(ps))
    ensures Read(data, i, comment, Start(true, true), seen)
         == Reading(Batch(Meaning(ps)), end + |Terminated(comment)|, seen, NoFault)
  {
    LexSource(data, i, ps, comment, false, end);
    ReadDocumentation(data, i, comment, seen);
    KeywordIsBatch(Meaning(ps));
  }

  // ---------------------------------------------------------------------- usage line

  /** One more character of a keyword that is held. */
  lemma {:induction false} HeldOneMore(d: Bytes, k: nat, m: Machine)
    requires k + 1 < |USAGE| && !Seen(d) && Run(Start(true, true), d) == m && m.held == k && m.keyword
    requires k > 0 || m.newlines > 0
    ensures !Seen(d + [USAGE[k]]) && Run(Start(true, true), d + [USAGE[k]]) == m.(held := k + 1)
  {
    var c := USAGE[k];
    CompletesIsSeen(d, c, true);
    RunSnoc(Start(true, true), d, c);
    assert c != SPACE && c != NL;
  }

  lemma {:induction false} UsageSnoc(x: Bytes, k: nat)
    requires 0 < k < |USAGE|
    ensures x + USAGE[..k] == x + USAGE[..k - 1] + [USAGE[k - 1]]
  {
  }

  lemma {:induction false} HeldUpTo(x: Bytes, k: nat, m: Machine)
    requires !Seen(x) && Run(Start(true, true), x) == m && m.held == 0 && m.keyword && m.newlines > 0 && k < |USAGE|
    ensures !Seen(x + USAGE[..k]) && Run(Start(true, true), x + USAGE[..k]) == m.(held := k)
  {
    if k == 0 {
      assert x + USAGE[..0] == x;
    } else {
      HeldUpTo(x, k - 1, m);
      HeldOneMore(x + USAGE[..k - 1], k - 1, m.(held := k - 1));
      UsageSnoc(x, k);
    }
  }

  /** The keyword after a newline: nothing is seen, or written, before its last
      character. */
  lemma {:induction false} KeywordHeld(x: Bytes, k: nat)
    requires !Seen(x) && !Open(Marks(x), |Marks(x)|) && NewlineBefore(x) && k < |USAGE|
    ensures !Seen(x + USAGE[..k])
    ensures Run(Start(true, true), x + USAGE[..k]) == Run(Start(true, true), x).(held := k)
  {
    var m := Run(Start(true, true), x);
    RunKeeps(Start(true, true), x);
    HeldIsPositional(x, true);
    NothingHeld(x, m.held);
    HeldUpTo(x, k, m);
  }

  lemma {:induction false} NothingHeld(x: Bytes, k: nat)
    requires !Open(Marks(x), |Marks(x)|) && Holds(Marks(x), k)
    ensures k == 0
  {
  }

  lemma {:induction false} KeywordSeen(x: Bytes)
    requires !Seen(x) && !Open(Marks(x), |Marks(x)|) && NewlineBefore(x)
    ensures Seen(x + USAGE[..5] + [0x3A])
  {
    RunKeeps(Start(true, true), x);
    KeywordHeld(x, 5);
    CompletesIsSeen(x + USAGE[..5], 0x3A, true);
  }

  lemma {:induction false} NotSeenBefore(d: Bytes, e: Bytes)
    requires !Seen(d + e)
    ensures !Seen(d)
  {
    if Seen(d) { SeenStays(d, e); }
  }

  /** Looking for a usage line goes through pieces that do not complete one. */
  lemma {:induction false} UsageThrough(data: Bytes, i: nat, ps: Pieces, comment: bool, d: Bytes, end: nat)
    requires Tokens(data, i, ps, comment) && end == i + |Source(ps)| && !Seen(d + Meaning(ps))
    ensures UsageAt(data, i, comment, d) == UsageAt(data, end, comment, d + Meaning(ps))
    decreases ps
  {
    match ps
    case Nil => assert d + [] == d;
    case Cons(p, more) =>
      AppendAssoc(d, p.Meaning(), Meaning(more));
      NotSeenBefore(d + p.Meaning(), Meaning(more));
      UsageThrough(data, i + |p.Bytes()|, more, comment, d + p.Meaning(), end);
      UsagePiece(data, i, p, comment, d);
  }

  lemma {:induction false} UsagePiece(data: Bytes, i: nat, p: Piece, comment: bool, d: Bytes)
    requires NextToken(data, i, comment) == TokenOf(p, i) && !Seen(d + p.Meaning())
    ensures UsageAt(data, i, comment, d) == UsageAt(data, i + |p.Bytes()|, comment, d + p.Meaning())
  {
    assert d + [] == d;
  }

  /** Letters as they are. */
  function Letters(s: Bytes): Pieces { if s == [] then Nil else Cons(Raw(s[0]), Letters(s[1..])) }

  lemma {:induction false} LettersWrite(s: Bytes)
    ensures Source(Letters(s)) == s && Meaning(Letters(s)) == s
  {
    if s != [] {
      LettersWrite(s[1..]);
      assert s == [s[0]] + s[1..];
    }
  }

  lemma {:induction false} LettersAllowed(s: Bytes, comment: bool, star: bool)
    requires forall k :: 0 <= k < |s| ==> s[k] != 0x5C && s[k] != 0x22 && s[k] != 0x2F && s[k] != 0x2A
    ensures Allowed(Letters(s), comment, star) && (LeavesStar(Letters(s), star) ==> s == [])
  {
    if s != [] {
      LettersAllowed(s[1..], comment, false);
      StarNotLeft(s[1..]);
    }
  }

  lemma {:induction false} StarNotLeft(s: Bytes)
    requires forall k :: 0 <= k < |s| ==> s[k] != 0x2A
    ensures !LeavesStar(Letters(s), false)
  {
    if s != [] { StarNotLeft(s[1..]); }
  }

  /** The blanks, the parenthesis and the name after a keyword are jumped over. */
  lemma {:induction false} JumpsTo(data: Bytes, i: nat, blanks: Bytes, name: Bytes, at: nat, end: nat)
    requires Has(data, i, blanks) && at == i + |blanks| < |data| && data[at] == 0x28
    requires Has(data, at + 1, name) && end == at + 1 + |name| < |data| && (data[end] == 0x20 || data[end] == 0x29)
    requires forall k :: 0 <= k < |blanks| ==> blanks[k] == 0x20 || blanks[k] == 0x0A
    requires forall k :: 0 <= k < |name| ==> name[k] != 0x20 && name[k] != 0x29
    ensures UsageJump(data, i) == Some(end)
  {
    BlanksOver(data, i, blanks);
    NameOver(data, at + 1, name);
  }

  lemma {:induction false} JumpParts(data: Bytes, i: nat, blanks: Bytes, name: Bytes, stop: Byte, at: nat, end: nat)
    requires Has(data, i, blanks + ([0x28] + (name + [stop]))) && at == i + |blanks| && end == at + 1 + |name|
    ensures Has(data, i, blanks) && at < |data| && data[at] == 0x28
    ensures Has(data, at + 1, name) && end < |data| && data[end] == stop
  {
    HasParts(data, i, blanks, [0x28] + (name + [stop]));
    HasParts(data, at, [0x28], name + [stop]);
    HasParts(data, at + 1, name, [stop]);
    HasAt(data, at, [0x28], 0);
    HasAt(data, end, [stop], 0);
  }

  lemma {:induction false} BlanksOver(data: Bytes, i: nat, s: Bytes)
    requires Has(data, i, s) && (forall k :: 0 <= k < |s| ==> s[k] == 0x20 || s[k] == 0x0A)
    requires i + |s| < |data| && data[i + |s|] == 0x28
    ensures SkipBlanks(data, i) == i + |s|
    decreases |s|
  {
    if s != [] {
      HasAt(data, i, s, 0);
      assert s == [s[0]] + s[1..];
      HasParts(data, i, [s[0]], s[1..]);
      BlanksOver(data, i + 1, s[1..]);
    }
  }

  lemma {:induction false} NameOver(data: Bytes, i: nat, s: Bytes)
    requires Has(data, i, s) && (forall k :: 0 <= k < |s| ==> s[k] != 0x20 && s[k] != 0x29)
    requires i + |s| < |data| && (data[i + |s|] == 0x20 || data[i + |s|] == 0x29)
    ensures NameEnd(data, i) == i + |s|
    decreases |s|
  {
    if s != [] {
      HasAt(data, i, s, 0);
      assert s == [s[0]] + s[1..];
      HasParts(data, i, [s[0]], s[1..]);
      NameOver(data, i + 1, s[1..]);
    }
  }

  /** The pieces of a text and the letters of the keyword after them. */
  lemma {:induction false} UsageParts(data: Bytes, i: nat, ps: Pieces, word: Bytes, tail: Bytes, comment: bool, at: nat)
    requires Has(data, i, Source(ps) + (word + tail)) && Allowed(ps, comment, false) && at == i + |Source(ps)|
    requires word == [0x75, 0x73, 0x61, 0x67, 0x65]
    ensures Tokens(data, i, ps, comment) && Tokens(data, at, Letters(word), comment)
    ensures Source(Letters(word)) == word && Meaning(Letters(word)) == word && Has(data, at + 5, tail)
  {
    HasParts(data, i, Source(ps), word + tail);
    HasParts(data, at, word, tail);
    LettersWrite(word);
    LettersAllowed(word, comment, false);
    ThroughPieces(data, i, ps, word + tail, comment, false);
    ThroughPieces(data, at, Letters(word), tail, comment, false);
  }

  lemma {:induction false} UsageWord(data: Bytes, i: nat, x: Bytes, word: Bytes, comment: bool)
    requires Tokens(data, i, Letters(word), comment) && Source(Letters(word)) == word && Meaning(Letters(word)) == word
    requires word == USAGE[..5] && Has(data, i + 5, [0x3A])
    requires !Seen(x) && !Open(Marks(x), |Marks(x)|) && NewlineBefore(x)
    ensures UsageAt(data, i, comment, x) == Some((x + word, i + 6))
    ensures Run(Start(true, true), x + word).out == Run(Start(true, true), x).out
  {
    KeywordHeld(x, 5);
    UsageThrough(data, i, Letters(word), comment, x, i + 5);
    ColonSeen(data, i + 5, x, comment);
  }

  lemma {:induction false} UsageStarts(data: Bytes, i: nat, ps: Pieces, word: Bytes, x: Bytes, comment: bool, at: nat)
    requires Tokens(data, i, ps, comment) && at == i + |Source(ps)| && x == Meaning(ps) && !Seen(x)
    requires UsageAt(data, at, comment, x) == Some((x + word, at + 6))
    ensures UsageAt(data, i, comment, []) == Some((x + word, at + 6))
  {
    assert [] + x == x;
    UsageThrough(data, i, ps, comment, [], at);
  }

  lemma {:induction false} ColonAfter(data: Bytes, i: nat, before: Bytes, word: Bytes, rest: Bytes, at: nat)
    requires Has(data, i, before + (word + ([0x3A] + rest))) && at == i + |before| + |word|
    ensures Has(data, at, [0x3A]) && Has(data, at + 1, rest)
  {
    HasParts(data, i, before, word + ([0x3A] + rest));
    HasParts(data, i + |before|, word, [0x3A] + rest);
    HasParts(data, at, [0x3A], rest);
  }

  /** Where the usage line of a text is found. */
  lemma {:induction false} UsageFound(data: Bytes, i: nat, ps: Pieces, word: Bytes, rest: Bytes, comment: bool, at: nat)
    requires Has(data, i, Source(ps) + (word + ([0x3A] + rest))) && Allowed(ps, comment, false)
    requires word == [0x75, 0x73, 0x61, 0x67, 0x65] && word == USAGE[..5] && at == i + |Source(ps)|
    requires Undisturbed(Meaning(ps)) && NewlineBefore(Meaning(ps))
    ensures UsageAt(data, i, comment, []) == Some((Meaning(ps) + word, at + 6))
    ensures Run(Start(true, true), Meaning(ps) + word).out == Batch(Meaning(ps))
    ensures Has(data, at + 6, rest)
  {
    UsageParts(data, i, ps, word, [0x3A] + rest, comment, at);
    ColonAfter(data, i, Source(ps), word, rest, at + 5);
    UsageWord(data, at, Meaning(ps), word, comment);
    UsageStarts(data, i, ps, word, Meaning(ps), comment, at);
    KeywordIsBatch(Meaning(ps));
  }

  lemma {:induction false} ColonSeen(data: Bytes, i: nat, x: Bytes, comment: bool)
    requires Has(data, i, [0x3A]) && !Seen(x) && !Open(Marks(x), |Marks(x)|) && NewlineBefore(x)
    ensures UsageAt(data, i, comment, x + USAGE[..5]) == Some((x + USAGE[..5], i + 1))
  {
    PieceToken(data, i, Raw(0x3A), comment, false);
    KeywordSeen(x);
  }

  lemma {:induction false} NameStops(u: UsageLine, rest: Bytes) returns (after: Bytes)
    requires u.Usage? && u.more.Cons? && (u.more.first == Raw(0x20) || u.more.first == Raw(0x29))
    ensures u.blanks + ([0x28] + (u.name + Source(u.more))) + rest
         == u.blanks + ([0x28] + (u.name + [u.more.first.c])) + after
  {
    after := Source(u.more.more) + rest;
  }

  lemma {:induction false} NameThenMore(u: UsageLine, rest: Bytes) returns (before: Bytes)
    requires u.Usage?
    ensures u.blanks + ([0x28] + (u.name + Source(u.more))) + rest == before + (Source(u.more) + rest)
    ensures |before| == |u.blanks| + 1 + |u.name|
  {
    before := u.blanks + ([0x28] + u.name);
  }

  /** The jump of a usage line, and what is read from there. */
  lemma {:induction false} AfterKeyword(data: Bytes, i: nat, u: UsageLine, comment: bool, jump: nat, end: nat)
    requires u.Usage? && UsageWritable([NL], u, comment)
    requires Has(data, i, u.blanks + ([0x28] + (u.name + Source(u.more))) + Terminated(comment))
    requires jump == i + |u.blanks| + 1 + |u.name| && end == jump + |Source(u.more)|
    requires !comment ==> At(data, end + 1) != 0x22
    ensures UsageJump(data, i) == Some(jump)
    ensures Read(data, jump, comment, Start(true, true), true)
         == Reading(Batch(Meaning(u.more)), end + |Terminated(comment)|, true, NoFault)
  {
    var stop := u.more.first.c;
    var after := NameStops(u, Terminated(comment));
    HasParts(data, i, u.blanks + ([0x28] + (u.name + [stop])), after);
    JumpParts(data, i, u.blanks, u.name, stop, i + |u.blanks|, jump);
    JumpsTo(data, i, u.blanks, u.name, i + |u.blanks|, jump);
    var before := NameThenMore(u, Terminated(comment));
    HasParts(data, i, before, Source(u.more) + Terminated(comment));
    LastStretch(data, jump, u.more, comment, true, end);
  }

  lemma {:induction false} KeywordApart(rest: Bytes, end: Bytes)
    ensures [0x75, 0x73, 0x61, 0x67, 0x65, 0x3A] + rest + end
         == [0x75, 0x73, 0x61, 0x67, 0x65] + ([0x3A] + (rest + end))
  {
  }

  /** A body with a usage line is read up to it, and then from behind the name. */
  lemma {:induction false} UsageIsRead(data: Bytes, i: nat, comment: bool, x: Bytes, word: Bytes, next: nat)
    requires UsageAt(data, i, comment, []) == Some((x + word, next)) && UsageJump(data, next).Some?
    requires Run(Start(true, true), x + word).out == Batch(x)
    ensures var rest := Read(data, UsageJump(data, next).value, comment, Start(true, true), true);
      Read(data, i, comment, Start(true, true), false)
      == rest.(text := Batch(x) + [0x0A, 0x0A, 0x28, 0x66, 0x6E] + rest.text)
  {
    ReadDocumentation(data, i, comment, false);
    UsageAtIsSeen(data, i, comment, []);
    assert [] + Lex(data, i, comment).text == Lex(data, i, comment).text;
  }

  /** What is read of a text and its usage line: both, with a blank line between. */
  lemma {:induction false} UsageRead(data: Bytes, i: nat, ps: Pieces, u: UsageLine, tail: Bytes, word: Bytes,
                                     comment: bool, at: nat, jump: nat, end: nat)
    requires Has(data, i, Source(ps) + (word + ([0x3A] + (tail + Terminated(comment)))))
    requires word == [0x75, 0x73, 0x61, 0x67, 0x65] && word == USAGE[..5] && at == i + |Source(ps)|
    requires Allowed(ps, comment, false) && Undisturbed(Meaning(ps)) && UsageWritable(Meaning(ps), u, comment)
    requires u.Usage? && tail == u.blanks + ([0x28] + (u.name + Source(u.more)))
    requires jump == at + 6 + |u.blanks| + 1 + |u.name| && end == jump + |Source(u.more)|
    requires !comment ==> At(data, end + 1) != 0x22
    ensures Read(data, i, comment, Start(true, true), false)
         == Reading(Batch(Meaning(ps)) + [0x0A, 0x0A, 0x28, 0x66, 0x6E] + Batch(Meaning(u.more)),
                    end + |Terminated(comment)|, true, NoFault)
  {
    UsageFound(data, i, ps, word, tail + Terminated(comment), comment, at);
    AfterKeyword(data, at + 6, u, comment, jump, end);
    UsageIsRead(data, i, comment, Meaning(ps), word, at + 6);
  }

  lemma {:induction false} DocumentUsage(data: Bytes, i: nat, d: Document, comment: bool, end: nat)
    requires d.usage.Usage? && Has(data, i, Source(d.text) + (UsageSource(d.usage) + Terminated(comment)))
    requires Allowed(d.text, comment, false) && Undisturbed(Meaning(d.text))
    requires UsageWritable(Meaning(d.text), d.usage, comment)
    requires end == i + |DocumentSource(d)| && (!comment ==> At(data, end + 1) != 0x22)
    ensures Read(data, i, comment, Start(true, true), false)
         == Reading(DocumentText(d), end + |Terminated(comment)|, true, NoFault)
  {
    var u, at := d.usage, i + |Source(d.text)|;
    var tail := u.blanks + ([0x28] + (u.name + Source(u.more)));
    var word: Bytes := [0x75, 0x73, 0x61, 0x67, 0x65];
    KeywordApart(tail, Terminated(comment));
    assert word == USAGE[..5];
    assert |tail| == |u.blanks| + 1 + |u.name| + |Source(u.more)|;
    UsageRead(data, i, d.text, u, tail, word, comment, at, at + 6 + |u.blanks| + 1 + |u.name|, end);
    AppendAssoc(Batch(Meaning(d.text)), [0x0A, 0x0A, 0x28, 0x66, 0x6E], Batch(Meaning(u.more)));
  }

  /** Written documentation reads back as its text, up to the end of its string or
      comment; a usage line of its own is noticed exactly when there is one. */
  lemma {:induction false} DocumentReadsBack(data: Bytes, start: nat, pad: Bytes, d: Document, comment: bool, end: nat)
    requires Has(data, start, pad + (DocumentSource(d) + Terminated(comment))) && Writable(d, pad, comment)
    requires end == start + |pad| + |DocumentSource(d)| && (!comment ==> At(data, end + 1) != 0x22)
    ensures ReadBody(data, start, comment, true, true)
         == Reading(DocumentText(d), end + |Terminated(comment)|, d.usage.Usage?, NoFault)
  {
    hide Source, UsageSource, Meaning, Batch, Undisturbed, ReadBody, Read, Seen, NewlineBefore;
    var i, rest := start + |pad|, UsageSource(d.usage) + Terminated(comment);
    AppendAssoc(Source(d.text), UsageSource(d.usage), Terminated(comment));
    RestNotSpace(d, comment);
    PadSkipped(data, start, pad, d.text, rest, comment);
    ReadIsBody(data, start, comment, i);
    if d.usage.Usage? {
      DocumentUsage(data, i, d, comment, end);
    } else {
      assert DocumentSource(d) == Source(d.text) && DocumentText(d) == Batch(Meaning(d.text));
      LastStretch(data, i, d.text, comment, false, end);
    }
  }

  lemma {:induction false} RestNotSpace(d: Document, comment: bool)
    requires UsageWritable(Meaning(d.text), d.usage, comment)
    ensures var rest := UsageSource(d.usage) + Terminated(comment); rest != [] && !IsSpace(rest[0])
    ensures d.usage.NoUsage? ==> UsageSource(d.usage) + Terminated(comment) == Terminated(comment)
  {
  }
}
