/**
 Reading a doc string or comment, as a function of the file: the tokens of the
 body through the machine, and the jump that a completed `usage:` makes. What the
 function computes is then said without the machine.
 */
module DocRead {
  import opened Text
  import opened DocStream
  import opened DocText
  import opened DocMachine
  import opened DocKeyword

  /** Two newlines and `(fn`. */
  const FN_TEXT: Bytes := [NL, NL, 0x28, 0x66, 0x6E]

  /** Why reading raises: the file ends in an escape, or a `usage:` is not followed
      by a parenthesis and a name that ends. */
  datatype Fault = NoFault | Dangling | BadUsage

  /** The text read, the index of the character after the body, and whether a usage
      line was seen. */
  datatype Reading = Reading(text: Bytes, end: nat, usage: bool, fault: Fault)

  // -------------------------------------------------------------- the usage jump

  /** First index at or after `i` outside spaces and newlines. */
  function SkipBlanks(data: Bytes, i: nat): (r: nat)
    ensures r >= i
    decreases |data| - i
  {
    if i < |data| && Blank(data[i]) then SkipBlanks(data, i + 1) else i
  }

  /** First index at or after `i` of a space or a closing parenthesis, or the end. */
  function NameEnd(data: Bytes, i: nat): (r: nat)
    ensures r >= i
    decreases |data| - i
  {
    if i < |data| && data[i] != SPACE && data[i] != 0x29 then NameEnd(data, i + 1) else i
  }

  /** Where reading goes on after a `usage:` that ends before `i`: behind the
      parenthesis and the name that follow it. */
  function UsageJump(data: Bytes, i: nat): (r: Option<nat>)
    ensures r.Some? ==> i < r.value < |data|
  {
    var open := SkipBlanks(data, i);
    var end := NameEnd(data, open + 1);
    if At(data, open) == 0x28 && end < |data| then Some(end) else None
  }

  function AfterUsage(m: Machine): Machine
  {
    m.(out := if m.sink then m.out + FN_TEXT else m.out, newlines := 0, spaces := 0, held := 0)
  }

  // --------------------------------------------------------------------- reading

  /** From index `i` with the machine in state `m`. */
  function Read(data: Bytes, i: nat, comment: bool, m: Machine, seen: bool): Reading
    requires m.held < |USAGE|
    decreases |data| - i
  {
    match NextToken(data, i, comment)
    case End(extra, end, _, dangling) =>
      Reading(Run(m, extra).out, end, seen, if dangling then Dangling else NoFault)
    case Join(next) => Read(data, next, comment, m, seen)
    case Char(c, next) =>
      if !Completes(m, c) then Read(data, next, comment, Feed(m, c), seen)
      else if UsageJump(data, next).None? then Reading(m.out, next, true, BadUsage)
      else Read(data, UsageJump(data, next).value, comment, AfterUsage(m), true)
  }

  /** `_read_c_string_or_comment` from the character at `start`. */
  function ReadBody(data: Bytes, start: nat, comment: bool, sink: bool, keyword: bool): Reading
  {
    var i := BodyStart(data, start, comment);
    if i >= |data| then Reading([], |data|, false, NoFault)
    else Read(data, i, comment, Start(sink, keyword), false)
  }

  // ------------------------------------------------------------- what it computes

  function FaultOf(l: Lexed): Fault { if l.dangling then Dangling else NoFault }

  lemma {:induction false} RunAppend(m: Machine, a: Bytes, b: Bytes)
    requires m.held <= |USAGE|
    ensures Run(m, a + b) == Run(Run(m, a), b)
  {
    if b == [] {
      assert a + b == a;
    } else {
      var init := b[..|b| - 1];
      assert (a + b)[..|a + b| - 1] == a + init;
      RunAppend(m, a, init);
    }
  }

  lemma {:induction false} RunCons(m: Machine, c: Byte, d: Bytes)
    requires m.held <= |USAGE|
    ensures Run(m, [c] + d) == Run(Feed(m, c), d)
  {
    RunAppend(m, [c], d);
    assert [c][..0] == [];
    assert Run(m, [c]) == Feed(Run(m, []), c);
  }

  /** Without the keyword: the text of the body through the machine. */
  lemma {:induction false} ReadPlain(data: Bytes, i: nat, comment: bool, m: Machine, seen: bool)
    requires !m.keyword && m.held == 0
    ensures var l := Lex(data, i, comment);
      Read(data, i, comment, m, seen) == Reading(Run(m, l.text).out, l.end, seen, FaultOf(l))
    decreases |data| - i
  {
    match NextToken(data, i, comment)
    case End(_, _, _, _) =>
    case Join(next) => ReadPlain(data, next, comment, m, seen);
    case Char(c, next) =>
      ReadPlain(data, next, comment, Feed(m, c), seen);
      RunCons(m, c, Lex(data, next, comment).text);
  }

  /** Without the keyword the text read is the batch text of the body. */
  lemma {:induction false} ReadNameIsBatch(data: Bytes, start: nat, comment: bool)
    ensures var l := Body(data, start, comment);
      ReadBody(data, start, comment, true, false) == Reading(Batch(l.text), l.end, false, FaultOf(l))
  {
    var i, l := BodyStart(data, start, comment), Body(data, start, comment);
    if i < |data| {
      ReadPlain(data, i, comment, Start(true, false), false);
    }
    StreamingIsBatch(l.text);
    assert Run(Start(true, false), []).out == [];
  }

  /** The first `usage:` of a body, when `d` has been decoded before index `i`: all
      that was decoded before its last character, and the index after that. */
  function UsageAt(data: Bytes, i: nat, comment: bool, d: Bytes): (r: Option<(Bytes, nat)>)
    ensures r.Some? ==> i < r.value.1 <= |data|
    decreases |data| - i
  {
    match NextToken(data, i, comment)
    case End(_, _, _, _) => None
    case Join(next) => UsageAt(data, next, comment, d)
    case Char(c, next) => if Seen(d + [c]) then Some((d, next)) else UsageAt(data, next, comment, d + [c])
  }

  /** As long as no `usage:` completes, the text of the body through the machine. */
  lemma {:induction false} ReadUntilUsage(data: Bytes, i: nat, comment: bool, d: Bytes, sink: bool, seen: bool)
    requires !Seen(d)
    ensures Run(Start(sink, true), d).held < |USAGE|
    ensures var m, l, u := Run(Start(sink, true), d), Lex(data, i, comment), UsageAt(data, i, comment, d);
      if u.None? then
        Read(data, i, comment, m, seen) == Reading(Run(m, l.text).out, l.end, seen, FaultOf(l))
      else
        var (before, next) := u.value;
        var w, jump := Run(Start(sink, true), before), UsageJump(data, next);
        && w.held < |USAGE|
        && Read(data, i, comment, m, seen) ==
           if jump.None? then Reading(w.out, next, true, BadUsage)
           else Read(data, jump.value, comment, AfterUsage(w), true)
    decreases |data| - i
  {
    var m := Run(Start(sink, true), d);
    HeldIsPositional(d, sink);
    match NextToken(data, i, comment)
    case End(_, _, _, _) =>
    case Join(next) => ReadUntilUsage(data, next, comment, d, sink, seen);
    case Char(c, next) =>
      CompletesIsSeen(d, c, sink);
      if !Seen(d + [c]) {
        RunSnoc(Start(sink, true), d, c);
        ReadUntilUsage(data, next, comment, d + [c], sink, seen);
        RunCons(m, c, Lex(data, next, comment).text);
      }
  }

  /** A body has a first `usage:` exactly when its text holds one. */
  lemma {:induction false} UsageAtIsSeen(data: Bytes, i: nat, comment: bool, d: Bytes)
    requires !Seen(d)
    ensures UsageAt(data, i, comment, d).Some? <==> Seen(d + Lex(data, i, comment).text)
    decreases |data| - i
  {
    match NextToken(data, i, comment)
    case End(extra, _, _, _) =>
      HeldIsPositional(d, true);
      SeenStep(d, Run(Start(true, true), d).held, STAR);
      assert d + [] == d;
    case Join(next) => UsageAtIsSeen(data, next, comment, d);
    case Char(c, next) =>
      var rest := Lex(data, next, comment).text;
      AppendAssoc(d, [c], rest);
      if Seen(d + [c]) {
        SeenStays(d + [c], rest);
      } else {
        UsageAtIsSeen(data, next, comment, d + [c]);
      }
  }

  // ------------------------------------------------------- reading on after a usage

  function Shift(pre: Bytes, m: Machine): Machine { m.(out := pre + m.out) }

  lemma {:induction false} FeedShift(pre: Bytes, m: Machine, c: Byte)
    requires m.sink && m.held <= |USAGE|
    ensures Feed(Shift(pre, m), c) == Shift(pre, Feed(m, c))
  {
    if !Blank(c) && !Matches(m, c) {
      var nl, sp, s := Repeat(NL, m.newlines), Repeat(SPACE, m.spaces), USAGE[..m.held] + [c];
      AppendAssoc(pre, m.out, nl);
      AppendAssoc(pre, m.out + nl, sp);
      AppendAssoc(pre, m.out + nl + sp, s);
    }
  }

  lemma {:induction false} RunShift(pre: Bytes, m: Machine, extra: Bytes)
    requires m.sink && m.held <= |USAGE| && |extra| <= 1
    ensures Run(Shift(pre, m), extra).out == pre + Run(m, extra).out
  {
    if extra != [] {
      assert extra[..0] == [];
      FeedShift(pre, m, extra[0]);
    }
  }

  /** What was written before does not matter for what is read. */
  lemma {:induction false} ReadShift(data: Bytes, i: nat, comment: bool, m: Machine, pre: Bytes, seen: bool)
    requires m.sink && m.held < |USAGE|
    ensures var r := Read(data, i, comment, m, seen);
      Read(data, i, comment, Shift(pre, m), seen) == r.(text := pre + r.text)
    decreases |data| - i
  {
    match NextToken(data, i, comment)
    case End(extra, _, _, _) => RunShift(pre, m, extra);
    case Join(next) => ReadShift(data, next, comment, m, pre, seen);
    case Char(c, next) =>
      if !Completes(m, c) {
        FeedShift(pre, m, c);
        ReadShift(data, next, comment, Feed(m, c), pre, seen);
      } else if UsageJump(data, next).Some? {
        AppendAssoc(pre, m.out, FN_TEXT);
        ReadShift(data, UsageJump(data, next).value, comment, AfterUsage(m), pre, true);
      }
  }

  /** Reading documentation, in terms of the text of the body and its first `usage:`.
      After that the body is read afresh behind the function's name. */
  lemma {:induction false} ReadDocumentation(data: Bytes, i: nat, comment: bool, seen: bool)
    ensures var l, m := Lex(data, i, comment), Start(true, true);
      var r := Read(data, i, comment, m, seen);
      if !Seen(l.text) then r == Reading(Run(m, l.text).out, l.end, seen, FaultOf(l))
      else
        var u := UsageAt(data, i, comment, []);
        && u.Some?
        && var jump := UsageJump(data, u.value.1);
           if jump.None? then r.fault == BadUsage
           else
             var rest := Read(data, jump.value, comment, m, true);
             r == rest.(text := Run(m, u.value.0).out + FN_TEXT + rest.text)
  {
    var m := Start(true, true);
    ReadUntilUsage(data, i, comment, [], true, seen);
    UsageAtIsSeen(data, i, comment, []);
    assert [] + Lex(data, i, comment).text == Lex(data, i, comment).text;
    assert Run(m, []) == m;
    var u := UsageAt(data, i, comment, []);
    if u.Some? && UsageJump(data, u.value.1).Some? {
      var w := Run(m, u.value.0);
      RunKeeps(m, u.value.0);
      var pre := w.out + FN_TEXT;
      assert Shift(pre, m) == AfterUsage(w) by { assert pre + [] == pre; }
      ReadShift(data, UsageJump(data, u.value.1).value, comment, m, pre, true);
    }
  }

  /** Reading documentation raises exactly when a `usage:` of the body has no name to
      jump over, or the last stretch of it dangles. */
  predicate Raises(data: Bytes, i: nat, comment: bool)
    decreases |data| - i
  {
    var l, u := Lex(data, i, comment), UsageAt(data, i, comment, []);
    if u.None? then l.dangling
    else UsageJump(data, u.value.1).None? || Raises(data, UsageJump(data, u.value.1).value, comment)
  }

  lemma {:induction false} RaisesExactly(data: Bytes, i: nat, comment: bool, seen: bool)
    ensures Read(data, i, comment, Start(true, true), seen).fault != NoFault <==> Raises(data, i, comment)
    decreases |data| - i
  {
    ReadDocumentation(data, i, comment, seen);
    UsageAtIsSeen(data, i, comment, []);
    assert [] + Lex(data, i, comment).text == Lex(data, i, comment).text;
    var u := UsageAt(data, i, comment, []);
    if u.Some? && UsageJump(data, u.value.1).Some? {
      RaisesExactly(data, UsageJump(data, u.value.1).value, comment, true);
    }
  }
}
