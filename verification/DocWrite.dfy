/**
 Writing the body of a C string or comment, with every spelling the grammar has, and
 reading it back.
 */
module DocWrite {
  import opened Text
  import opened DocStream
  import opened DocText

  // ----------------------------------------------------------- bytes in the file

  /** `s` stands in the file from index `i` on. */
  predicate Has(data: Bytes, i: nat, s: Bytes) { i + |s| <= |data| && data[i..i + |s|] == s }

  lemma {:induction false} HasAt(data: Bytes, i: nat, s: Bytes, k: nat)
    requires Has(data, i, s) && k < |s|
    ensures data[i + k] == s[k]
  {
    assert data[i..i + |s|][k] == s[k];
  }

  lemma {:induction false} HasParts(data: Bytes, i: nat, a: Bytes, b: Bytes)
    ensures Has(data, i, a + b) <==> Has(data, i, a) && Has(data, i + |a|, b)
  {
    var n, m := i + |a|, i + |a| + |b|;
    if m <= |data| {
      var s := data[i..m];
      assert s[..|a|] == data[i..n] && s[|a|..] == data[n..m] && s == s[..|a|] + s[|a|..];
      assert (a + b)[..|a|] == a && (a + b)[|a|..] == b;
    }
  }

  predicate White(c: int) { c == 0x20 || c == 0x09 || c == 0x0A || c == 0x0B || c == 0x0C || c == 0x0D }

  predicate Letter(c: int) { 0x41 <= c <= 0x5A || 0x61 <= c <= 0x7A }

  predicate Digit(c: int) { 0x30 <= c <= 0x39 }

  // ------------------------------------------------------------------- spellings

  /** One piece of a body: a character as it is, a character after a backslash, a line
      continuation, or the two quotes between adjacent strings. */
  datatype Piece = Raw(c: Byte) | Escaped(c: Byte) | Continuation(cr: bool) | Splice
  {
    function Bytes(): Text.Bytes
    {
      match this
      case Raw(c) => [c]
      case Escaped(c) => [0x5C, if c == 0x0A then 0x6E else if c == 0x09 then 0x74 else c]
      case Continuation(cr) => [0x5C, if cr then 0x0D else 0x0A]
      case Splice => [0x22, 0x22]
    }

    /** What it stands for. */
    function Meaning(): Text.Bytes { if Raw? || Escaped? then [c] else [] }

    /** Allowed in a comment or a string, directly after an unescaped star or not. A
        backslash before an `n`, a `t` or a carriage return says something else. */
    predicate Allowed(comment: bool, star: bool)
    {
      match this
      case Raw(c) => c != 0x5C && (if comment then !(star && c == 0x2F) else c != 0x22)
      case Escaped(c) => c != 0x6E && c != 0x74 && c != 0x0D
      case Continuation(_) => true
      case Splice => !comment
    }
  }

  /** A body, piece by piece. */
  datatype Pieces = Nil | Cons(first: Piece, more: Pieces)

  function Source(ps: Pieces): Bytes { if ps.Nil? then [] else ps.first.Bytes() + Source(ps.more) }

  function Meaning(ps: Pieces): Bytes { if ps.Nil? then [] else ps.first.Meaning() + Meaning(ps.more) }

  predicate Allowed(ps: Pieces, comment: bool, star: bool)
  {
    ps.Cons? ==> ps.first.Allowed(comment, star) && Allowed(ps.more, comment, ps.first == Raw(0x2A))
  }

  /** The last piece, or what came before if there is none, is an unescaped star. */
  predicate LeavesStar(ps: Pieces, star: bool)
  {
    if ps.Nil? then star else LeavesStar(ps.more, ps.first == Raw(0x2A))
  }

  /** What may follow: nothing that the last star would take for the end. */
  predicate Follows(ps: Pieces, rest: Bytes, comment: bool, star: bool)
  {
    comment && LeavesStar(ps, star) ==> rest != [] && rest[0] != 0x2F
  }

  function Terminated(comment: bool): Bytes { if comment then [0x2A, 0x2F] else [0x22] }

  // ------------------------------------------------------------ one piece is one token

  /** What follows a star of a comment is not a slash. */
  predicate StarSafe(data: Bytes, i: nat, p: Piece, comment: bool)
  {
    comment && p == Raw(0x2A) ==> i + 1 < |data| && data[i + 1] != 0x2F
  }

  function TokenOf(p: Piece, i: nat): Token
  {
    if p.Raw? || p.Escaped? then Char(p.c, i + |p.Bytes()|) else Join(i + |p.Bytes()|)
  }

  lemma {:induction false} PieceToken(data: Bytes, i: nat, p: Piece, comment: bool, star: bool)
    requires Has(data, i, p.Bytes()) && p.Allowed(comment, star) && StarSafe(data, i, p, comment)
    ensures NextToken(data, i, comment) == TokenOf(p, i)
  {
    var s := p.Bytes();
    HasAt(data, i, s, 0);
    if |s| == 2 { HasAt(data, i, s, 1); }
  }

  lemma {:induction false} EndToken(data: Bytes, i: nat, comment: bool)
    requires Has(data, i, Terminated(comment)) && (!comment ==> At(data, i + 1) != 0x22)
    ensures NextToken(data, i, comment) == End([], i + |Terminated(comment)|, true, false)
  {
    var s := Terminated(comment);
    HasAt(data, i, s, 0);
    if |s| == 2 { HasAt(data, i, s, 1); }
  }

  /** The first byte after a star of a comment. */
  lemma {:induction false} FirstByte(data: Bytes, i: nat, ps: Pieces, rest: Bytes)
    requires Has(data, i, Source(ps) + rest) && Allowed(ps, true, true) && Follows(ps, rest, true, true)
    ensures i < |data| && data[i] != 0x2F
  {
    HasAt(data, i, Source(ps) + rest, 0);
  }

  /** The first of several pieces is one token, and the others follow. */
  lemma {:induction false} FirstPiece(data: Bytes, i: nat, p: Piece, more: Pieces, rest: Bytes, comment: bool,
                                      star: bool)
    requires Has(data, i, p.Bytes() + Source(more) + rest) && p.Allowed(comment, star)
    requires Allowed(more, comment, p == Raw(0x2A)) && Follows(more, rest, comment, p == Raw(0x2A))
    ensures NextToken(data, i, comment) == TokenOf(p, i)
    ensures Has(data, i + |p.Bytes()|, Source(more) + rest)
  {
    AppendAssoc(p.Bytes(), Source(more), rest);
    HasParts(data, i, p.Bytes(), Source(more) + rest);
    if comment && p == Raw(0x2A) { FirstByte(data, i + 1, more, rest); }
    PieceToken(data, i, p, comment, star);
  }

  lemma {:induction false} LexEnd(data: Bytes, i: nat, comment: bool)
    requires Has(data, i, Terminated(comment)) && (!comment ==> At(data, i + 1) != 0x22)
    ensures Lex(data, i, comment) == Lexed([], i + |Terminated(comment)|, true, false)
  {
    EndToken(data, i, comment);
  }

  function Before(text: Bytes, l: Lexed): Lexed { Lexed(text + l.text, l.end, l.closed, l.dangling) }

  lemma {:induction false} BeforeTwice(a: Bytes, b: Bytes, l: Lexed)
    ensures Before(a, Before(b, l)) == Before(a + b, l)
  {
    AppendAssoc(a, b, l.text);
  }

  lemma {:induction false} LexPiece(data: Bytes, i: nat, p: Piece, comment: bool)
    requires NextToken(data, i, comment) == TokenOf(p, i)
    ensures Lex(data, i, comment) == Before(p.Meaning(), Lex(data, i + |p.Bytes()|, comment))
  {
  }

  /** The tokens of the file from index `i` on are those of the pieces. */
  predicate Tokens(data: Bytes, i: nat, ps: Pieces, comment: bool)
    decreases ps
  {
    ps.Cons? ==> NextToken(data, i, comment) == TokenOf(ps.first, i)
                 && Tokens(data, i + |ps.first.Bytes()|, ps.more, comment)
  }

  /** Reading goes through the pieces, whatever they are followed by. */
  lemma {:induction false} ThroughPieces(data: Bytes, i: nat, ps: Pieces, rest: Bytes, comment: bool, star: bool)
    requires Has(data, i, Source(ps) + rest) && Allowed(ps, comment, star) && Follows(ps, rest, comment, star)
    ensures Tokens(data, i, ps, comment)
    decreases ps
  {
    match ps
    case Nil =>
    case Cons(p, more) =>
      FirstPiece(data, i, p, more, rest, comment, star);
      ThroughPieces(data, i + |p.Bytes()|, more, rest, comment, p == Raw(0x2A));
  }

  lemma {:induction false} LexTokens(data: Bytes, i: nat, ps: Pieces, comment: bool, end: nat)
    requires Tokens(data, i, ps, comment) && end == i + |Source(ps)|
    ensures Lex(data, i, comment) == Before(Meaning(ps), Lex(data, end, comment))
    decreases ps
  {
    match ps
    case Nil => NothingBefore(Lex(data, i, comment));
    case Cons(p, more) =>
      LexPiece(data, i, p, comment);
      LexTokens(data, i + |p.Bytes()|, more, comment, end);
      BeforeTwice(p.Meaning(), Meaning(more), Lex(data, end, comment));
  }

  lemma {:induction false} NothingBefore(l: Lexed)
    ensures Before([], l) == l
  {
    assert [] + l.text == l.text;
  }

  /** A body written in any way reads back as what its pieces stand for. */
  lemma {:induction false} LexSource(data: Bytes, i: nat, ps: Pieces, comment: bool, star: bool, end: nat)
    requires Has(data, i, Source(ps) + Terminated(comment)) && Allowed(ps, comment, star)
    requires end == i + |Source(ps)| && (!comment ==> At(data, end + 1) != 0x22)
    ensures Lex(data, i, comment) == Lexed(Meaning(ps), end + |Terminated(comment)|, true, false)
  {
    ThroughPieces(data, i, ps, Terminated(comment), comment, star);
    HasParts(data, i, Source(ps), Terminated(comment));
    LexTokens(data, i, ps, comment, end);
    LexEnd(data, end, comment);
    assert Meaning(ps) + [] == Meaning(ps);
  }

  // ------------------------------------------------------------------ a whole body

  ghost predicate Blanks(s: Bytes) { forall k :: 0 <= k < |s| ==> IsSpace(s[k]) }

  lemma {:induction false} SkipOver(data: Bytes, i: nat, pad: Bytes)
    requires Has(data, i, pad) && Blanks(pad) && !IsSpace(At(data, i + |pad|))
    ensures SkipSpaces(data, i) == i + |pad|
    decreases |pad|
  {
    if pad != [] {
      HasAt(data, i, pad, 0);
      assert pad == [pad[0]] + pad[1..];
      HasParts(data, i, [pad[0]], pad[1..]);
      SkipOver(data, i + 1, pad[1..]);
    }
  }

  /** White space before the text of a comment is not part of it; in a string there is
      none to skip. */
  predicate Padded(pad: Bytes, ps: Pieces, comment: bool)
  {
    if comment then
      (forall k :: 0 <= k < |pad| ==> White(pad[k])) && (ps.Cons? ==> !White(ps.first.Bytes()[0]))
    else pad == []
  }

  lemma {:induction false} PadSkipped(data: Bytes, start: nat, pad: Bytes, ps: Pieces, rest: Bytes, comment: bool)
    requires Has(data, start, pad + (Source(ps) + rest)) && Padded(pad, ps, comment)
    requires ps.Nil? ==> rest != [] && !IsSpace(rest[0])
    ensures BodyStart(data, start, comment) == start + |pad| && start + |pad| < |data|
    ensures Has(data, start + |pad|, Source(ps) + rest)
  {
    var s := Source(ps) + rest;
    HasParts(data, start, pad, s);
    HasAt(data, start + |pad|, s, 0);
    if comment { SkipOver(data, start, pad); }
  }

  lemma {:induction false} BodyIsLex(data: Bytes, start: nat, comment: bool, i: nat)
    requires BodyStart(data, start, comment) == i < |data|
    ensures Body(data, start, comment) == Lex(data, i, comment)
  {
  }

  lemma {:induction false} BodyReadsBack(data: Bytes, start: nat, pad: Bytes, ps: Pieces, comment: bool, end: nat)
    requires Has(data, start, pad + (Source(ps) + Terminated(comment)))
    requires Allowed(ps, comment, false) && Padded(pad, ps, comment)
    requires end == start + |pad| + |Source(ps)| && (!comment ==> At(data, end + 1) != 0x22)
    ensures Body(data, start, comment) == Lexed(Meaning(ps), end + |Terminated(comment)|, true, false)
  {
    var i := start + |pad|;
    PadSkipped(data, start, pad, ps, Terminated(comment), comment);
    LexSource(data, i, ps, comment, false, end);
    BodyIsLex(data, start, comment, i);
  }

  // ------------------------------------------------------------- every text can be written

  /** How the character after `prev` is written: newlines, tabs, backslashes and quotes
      with a backslash, and a slash so where it would end a comment; everything else as
      it is. */
  function Written(c: Byte, prev: int, comment: bool): Bytes
  {
    if c == 0x0A then [0x5C, 0x6E]
    else if c == 0x09 then [0x5C, 0x74]
    else if c == 0x5C || (c == 0x22 && !comment) then [0x5C, c]
    else if comment && c == 0x2F && prev == 0x2A then [0x5C, c]
    else [c]
  }

  function WriteText(d: Bytes, prev: int, comment: bool): Bytes
  {
    if d == [] then [] else Written(d[0], prev, comment) + WriteText(d[1..], d[0], comment)
  }

  /** A text that starts with white space is kept from the start of a comment by a line
      continuation. */
  function WriteBody(d: Bytes, comment: bool): Bytes
  {
    (if comment && d != [] && White(d[0]) then [0x5C, 0x0A] else []) + WriteText(d, EOF, comment)
  }

  /** The same, piece by piece. */
  function TextPieces(d: Bytes, prev: int, comment: bool): Pieces
  {
    if d == [] then Nil
    else
      Cons(if |Written(d[0], prev, comment)| == 2 then Escaped(d[0]) else Raw(d[0]), TextPieces(d[1..], d[0], comment))
  }

  function BodyPieces(d: Bytes, comment: bool): Pieces
  {
    var ps := TextPieces(d, EOF, comment);
    if comment && d != [] && White(d[0]) then Cons(Continuation(false), ps) else ps
  }

  lemma {:induction false} TextPiecesWrite(d: Bytes, prev: int, comment: bool)
    ensures Source(TextPieces(d, prev, comment)) == WriteText(d, prev, comment)
    ensures Meaning(TextPieces(d, prev, comment)) == d
    ensures Allowed(TextPieces(d, prev, comment), comment, prev == 0x2A)
  {
    if d != [] {
      TextPiecesWrite(d[1..], d[0], comment);
      var p := TextPieces(d, prev, comment).first;
      assert p.Bytes() == Written(d[0], prev, comment) && p.Meaning() == [d[0]];
      assert d == [d[0]] + d[1..];
    }
  }

  lemma {:induction false} BodyPiecesWrite(d: Bytes, comment: bool)
    ensures Source(BodyPieces(d, comment)) == WriteBody(d, comment)
    ensures Meaning(BodyPieces(d, comment)) == d
    ensures Allowed(BodyPieces(d, comment), comment, false) && Padded([], BodyPieces(d, comment), comment)
  {
    TextPiecesWrite(d, EOF, comment);
    assert [] + d == d;
    var text := WriteText(d, EOF, comment);
    assert [] + text == text;
  }

  /** Every text comes back from the string or the comment it is written as. */
  lemma {:induction false} TextReadsBack(data: Bytes, start: nat, d: Bytes, comment: bool)
    requires Has(data, start, WriteBody(d, comment) + Terminated(comment))
    requires !comment ==> At(data, start + |WriteBody(d, comment)| + 1) != 0x22
    ensures Body(data, start, comment) ==
      Lexed(d, start + |WriteBody(d, comment)| + |Terminated(comment)|, true, false)
  {
    var w := WriteBody(d, comment);
    BodyPiecesWrite(d, comment);
    assert [] + (w + Terminated(comment)) == w + Terminated(comment);
    BodyReadsBack(data, start, [], BodyPieces(d, comment), comment, start + |w|);
  }
}
