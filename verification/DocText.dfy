/**
 What a doc string or comment is: the escape grammar of C strings and comments,
 one token at a time, and where a body ends.
 */
module DocText {
  import opened Text
  import opened DocStream

  const STAR: Byte := 0x2A
  const SLASH: Byte := 0x2F
  const QUOTE: Byte := 0x22
  const BACKSLASH: Byte := 0x5C
  const TAB: Byte := 0x09

  // ------------------------------------------------------------------- tokens

  function Unescape(c: Byte): Byte
  {
    if c == 0x6E then NL else if c == 0x74 then TAB else c
  }

  /** What a body holds at one place: a decoded character, something that joins the
      lines or strings around it, or its end. */
  datatype Token =
    | Char(c: Byte, next: nat)
    | Join(next: nat)
    | End(extra: Bytes, end: nat, closed: bool, dangling: bool)

  /** An unterminated comment reads as if it held one more star. */
  function NextToken(data: Bytes, i: nat, comment: bool): (t: Token)
    ensures !t.End? ==> i < t.next <= |data|
  {
    if i >= |data| then End(if comment then [STAR] else [], |data|, false, false)
    else if data[i] == BACKSLASH then
      if i + 1 >= |data| then End([], |data|, false, true)
      else if data[i + 1] == NL || data[i + 1] == CR then Join(i + 2)
      else Char(Unescape(data[i + 1]), i + 2)
    else if comment && data[i] == STAR then
      if i + 1 >= |data| then End([STAR], |data|, false, false)
      else if data[i + 1] == SLASH then End([], i + 2, true, false)
      else Char(STAR, i + 1)
    else if !comment && data[i] == QUOTE then
      if At(data, i + 1) == QUOTE then Join(i + 2) else End([], i + 1, true, false)
    else Char(data[i], i + 1)
  }

  /** A body read to its end: decoded text, index after the terminator, whether
      there was one, and whether the data ended inside an escape. */
  datatype Lexed = Lexed(text: Bytes, end: nat, closed: bool, dangling: bool)

  function Before(c: Byte, l: Lexed): Lexed { l.(text := [c] + l.text) }

  /** The body from index `i`. */
  function Lex(data: Bytes, i: nat, comment: bool): Lexed
    decreases |data| - i
  {
    match NextToken(data, i, comment)
    case Char(c, next) => Before(c, Lex(data, next, comment))
    case Join(next) => Lex(data, next, comment)
    case End(extra, end, closed, dangling) => Lexed(extra, end, closed, dangling)
  }

  /** Where a body starts: leading whitespace is skipped in a comment only. */
  function BodyStart(data: Bytes, start: nat, comment: bool): (i: nat)
    ensures i >= start
  {
    if comment then SkipSpaces(data, start) else start
  }

  function Body(data: Bytes, start: nat, comment: bool): Lexed
  {
    var i := BodyStart(data, start, comment);
    if i >= |data| then Lexed([], |data|, false, false) else Lex(data, i, comment)
  }

  // ----------------------------------------------------------- where it stops

  /** Length of the run of backslashes just before `j`, back to `start`. */
  function Backslashes(data: Bytes, start: nat, j: nat): nat
    requires j <= |data|
  {
    if j > start && data[j - 1] == BACKSLASH then 1 + Backslashes(data, start, j - 1) else 0
  }

  predicate Escaped(data: Bytes, start: nat, j: nat)
    requires j <= |data|
  {
    Backslashes(data, start, j) % 2 == 1
  }

  /** Length of the run of unescaped quotes ending at `j`. */
  function Quotes(data: Bytes, start: nat, j: nat): nat
    requires start <= j < |data|
    decreases j
  {
    if data[j] != QUOTE || Escaped(data, start, j) then 0
    else if j == start then 1 else 1 + Quotes(data, start, j - 1)
  }

  /** A terminator at `j`: an unescaped star before a slash, or the last of an
      odd run of unescaped quotes. */
  predicate Terminator(data: Bytes, start: nat, j: nat, comment: bool)
    requires start <= j < |data|
  {
    if comment then data[j] == STAR && At(data, j + 1) == SLASH && !Escaped(data, start, j)
    else At(data, j + 1) != QUOTE && Quotes(data, start, j) % 2 == 1
  }

  ghost predicate NoTerminator(data: Bytes, start: nat, i: nat, j: nat, comment: bool)
    requires start <= i && j <= |data|
  {
    forall k :: i <= k < j ==> !Terminator(data, start, k, comment)
  }

  /** The body ends at the first terminator from `i` on, or nowhere; and then it
      dangles exactly when the end of the file is escaped. */
  ghost predicate Stops(data: Bytes, start: nat, i: nat, comment: bool, l: Lexed)
    requires start <= i <= |data|
  {
    if l.closed then
      var j := l.end - (if comment then 2 else 1);
      && i <= j < |data| && Terminator(data, start, j, comment)
      && NoTerminator(data, start, i, j, comment) && !l.dangling
    else
      && l.end == |data| && NoTerminator(data, start, i, |data|, comment)
      && (l.dangling <==> Escaped(data, start, |data|))
  }

  /** `i` is a token boundary: not escaped, and any quotes before it are paired. */
  predicate Boundary(data: Bytes, start: nat, i: nat, comment: bool)
    requires start <= i <= |data|
  {
    && !Escaped(data, start, i)
    && (!comment && i > start ==> Quotes(data, start, i - 1) % 2 == 0)
  }

  /** A token that is not the end: no terminator in it, and a boundary after it. */
  lemma {:induction false} TokenBoundary(data: Bytes, start: nat, i: nat, comment: bool)
    requires start <= i <= |data| && Boundary(data, start, i, comment) && !NextToken(data, i, comment).End?
    ensures Boundary(data, start, NextToken(data, i, comment).next, comment)
    ensures NoTerminator(data, start, i, NextToken(data, i, comment).next, comment)
  {
    var next := NextToken(data, i, comment).next;
    if data[i] == BACKSLASH {
      assert Backslashes(data, start, i + 1) == 1 + Backslashes(data, start, i);
      assert Escaped(data, start, i + 1);
    } else {
      assert Backslashes(data, start, i + 1) == 0;
      if next == i + 2 { assert Quotes(data, start, i + 1) == 1 + Quotes(data, start, i); }
    }
  }

  lemma {:induction false} EndToken(data: Bytes, start: nat, i: nat, comment: bool)
    requires start <= i <= |data| && Boundary(data, start, i, comment) && NextToken(data, i, comment).End?
    ensures Stops(data, start, i, comment, Lex(data, i, comment))
  {
    if i < |data| && data[i] == BACKSLASH {
      assert Backslashes(data, start, i + 1) == 1 + Backslashes(data, start, i);
    }
  }

  /** Reading stops at exactly the first terminator. */
  lemma {:induction false} LexStops(data: Bytes, start: nat, i: nat, comment: bool)
    requires start <= i <= |data| && Boundary(data, start, i, comment)
    ensures Stops(data, start, i, comment, Lex(data, i, comment))
    decreases |data| - i
  {
    var t := NextToken(data, i, comment);
    if t.End? {
      EndToken(data, start, i, comment);
    } else {
      TokenBoundary(data, start, i, comment);
      LexStops(data, start, t.next, comment);
    }
  }

  /** An even run of quotes does not end a string: `"a""""` is still open. */
  lemma {:induction false} EvenRunStaysOpen()
    ensures Body([QUOTE, 0x61, QUOTE, QUOTE, QUOTE, QUOTE], 1, false) == Lexed([0x61], 6, false, false)
  {
    var data: Bytes := [QUOTE, 0x61, QUOTE, QUOTE, QUOTE, QUOTE];
    assert Lex(data, 6, false) == Lexed([], 6, false, false);
    assert Lex(data, 4, false) == Lex(data, 6, false);
    assert Lex(data, 2, false) == Lex(data, 4, false);
    assert Lex(data, 1, false) == Before(0x61, Lex(data, 2, false));
  }

  // ------------------------------------------------------ unterminated comments

  /** All of the data from `i` on, decoded. */
  function Decode(data: Bytes, i: nat): Bytes
    decreases |data| - i
  {
    if i >= |data| then []
    else if data[i] != BACKSLASH then [data[i]] + Decode(data, i + 1)
    else if i + 1 >= |data| then []
    else (if data[i + 1] == NL || data[i + 1] == CR then [] else [Unescape(data[i + 1])]) + Decode(data, i + 2)
  }

  lemma {:induction false} DecodeToken(data: Bytes, i: nat)
    ensures match NextToken(data, i, true)
      case Char(c, next) => Decode(data, i) == [c] + Decode(data, next)
      case Join(next) => Decode(data, i) == Decode(data, next)
      case End(_, _, _, _) => true
  {
  }

  /** The data ends in an unescaped star. */
  predicate EndsInStar(data: Bytes, start: nat)
  {
    |data| > start && data[|data| - 1] == STAR && !Escaped(data, start, |data| - 1)
  }

  /** The star that the text of an unterminated comment gets and does not have. */
  function Spurious(data: Bytes, start: nat): Bytes
  {
    if start < |data| && !EndsInStar(data, start) then [STAR] else []
  }

  lemma {:induction false} OpenComment(data: Bytes, start: nat, i: nat)
    requires start <= i <= |data| && start < |data| && Boundary(data, start, i, true)
    requires !Lex(data, i, true).closed && !Lex(data, i, true).dangling
    requires i == |data| ==> !EndsInStar(data, start)
    ensures Lex(data, i, true).text == Decode(data, i) + Spurious(data, start)
    decreases |data| - i
  {
    if i < |data| {
      var t := NextToken(data, i, true);
      if t.End? {
        assert Decode(data, i + 1) == [];
      } else {
        TokenBoundary(data, start, i, true);
        OpenComment(data, start, t.next);
        DecodeToken(data, i);
        if t.Char? { AppendAssoc([t.c], Decode(data, t.next), Spurious(data, start)); }
      }
    }
  }

  /** A comment that the file does not end is read with a star it does not have,
      exactly when there is something after its whitespace and that does not end in
      an unescaped star. */
  lemma {:induction false} UnterminatedComment(data: Bytes, start: nat)
    requires !Body(data, start, true).closed && !Body(data, start, true).dangling
    ensures var i := BodyStart(data, start, true); Body(data, start, true).text == Decode(data, i) + Spurious(data, i)
  {
    var i := BodyStart(data, start, true);
    if i < |data| {
      assert Body(data, start, true) == Lex(data, i, true);
      OpenComment(data, i, i);
    } else {
      assert Decode(data, i) == [];
    }
  }
}
