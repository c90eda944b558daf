/**
 `strip_if_zero` of scripts/extract_gnu_defvar_object_names.py: one depth counter
 and one `dead_at` mark stand for a whole stack of open conditionals. Which
 characters above ASCII are letters or digits is a parameter.
 */
module IfZero {
  import opened Text

  // ------------------------------------------------------- directive patterns

  /** Python's `\s`. */
  predicate IsSpace(c: char)
  {
    var n := c as int;
    0x09 <= n <= 0x0d || 0x1c <= n <= 0x20 || n == 0x85 || n == 0xa0 || n == 0x1680
    || 0x2000 <= n <= 0x200a || n == 0x2028 || n == 0x2029 || n == 0x202f || n == 0x205f || n == 0x3000
  }

  /** Python's `\w`. */
  predicate IsWord(c: char, alnum: char -> bool)
  {
    'a' <= c <= 'z' || 'A' <= c <= 'Z' || '0' <= c <= '9' || c == '_'
    || (c as int >= 0x80 && !IsSpace(c) && alnum(c))
  }

  function SkipSpace(s: string): string
  {
    if s != [] && IsSpace(s[0]) then SkipSpace(s[1..]) else s
  }

  /** What follows `^\s*#\s*`. */
  function AfterHash(line: string): Option<string>
  {
    var s := SkipSpace(line);
    if s != [] && s[0] == '#' then Some(SkipSpace(s[1..])) else None
  }

  /** `s` begins with `word` and a word boundary after it. */
  predicate HasWord(s: string, word: string, alnum: char -> bool)
  {
    word <= s && (|s| == |word| || !IsWord(s[|word|], alnum))
  }

  predicate IfOpen(line: string, alnum: char -> bool)
  {
    var s := AfterHash(line);
    s.Some? && (HasWord(s.value, "if", alnum) || HasWord(s.value, "ifdef", alnum) || HasWord(s.value, "ifndef", alnum))
  }

  predicate IfZero(line: string, alnum: char -> bool)
  {
    var s := AfterHash(line);
    s.Some? && "if" <= s.value && |SkipSpace(s.value[2..])| < |s.value[2..]|
    && HasWord(SkipSpace(s.value[2..]), "0", alnum)
  }

  predicate IfElse(line: string, alnum: char -> bool)
  {
    var s := AfterHash(line);
    s.Some? && (HasWord(s.value, "else", alnum) || HasWord(s.value, "elif", alnum))
  }

  predicate IfClose(line: string, alnum: char -> bool)
  {
    var s := AfterHash(line);
    s.Some? && HasWord(s.value, "endif", alnum)
  }

  datatype Directive = Zero | Open | Close | Else | Plain

  function Classify(line: string, alnum: char -> bool): Directive
  {
    if IfOpen(line, alnum) then (if IfZero(line, alnum) then Zero else Open)
    else if IfClose(line, alnum) then Close
    else if IfElse(line, alnum) then Else
    else Plain
  }

  /** Every `#if 0` head is an opening line, so it is classified as one. */
  lemma {:induction false} ZeroOpens(line: string, alnum: char -> bool)
    ensures IfZero(line, alnum) <==> Classify(line, alnum) == Zero
  {
    if IfZero(line, alnum) {
      var s := AfterHash(line).value;
      assert s[2..][0] == s[2];
      assert HasWord(s, "if", alnum);
    }
  }

  // ------------------------------------------------------- directives as written

  predicate AllSpace(s: string) { forall i :: 0 <= i < |s| ==> IsSpace(s[i]) }

  /** White space, a hash, white space, the word, and nothing that would make the word
      longer. */
  predicate WrittenAs(line: string, word: string, alnum: char -> bool, a: string, b: string, rest: string)
  {
    line == a + "#" + b + word + rest && AllSpace(a) && AllSpace(b) && (rest == [] || !IsWord(rest[0], alnum))
  }

  ghost predicate Written(line: string, word: string, alnum: char -> bool)
  {
    exists a, b, rest :: WrittenAs(line, word, alnum, a, b, rest)
  }

  /** `#if`, at least one white space character, and a zero. */
  ghost predicate WrittenZero(line: string, alnum: char -> bool)
  {
    exists gap :: gap != [] && AllSpace(gap) && Written(line, "if" + gap + "0", alnum)
  }

  lemma {:induction false} SkipOver(a: string, t: string)
    requires AllSpace(a) && (t == [] || !IsSpace(t[0]))
    ensures SkipSpace(a + t) == t
  {
    if a != [] {
      assert (a + t)[1..] == a[1..] + t;
      SkipOver(a[1..], t);
    } else {
      assert a + t == t;
    }
  }

  lemma {:induction false} SkipPrefix(s: string) returns (a: string)
    ensures s == a + SkipSpace(s) && AllSpace(a) && (SkipSpace(s) == [] || !IsSpace(SkipSpace(s)[0]))
  {
    a := [];
    if s != [] && IsSpace(s[0]) {
      var rest := SkipPrefix(s[1..]);
      a := [s[0]] + rest;
      assert s == [s[0]] + s[1..];
    }
  }

  /** What follows the hash of a line. */
  lemma {:induction false} HashWritten(line: string, a: string, b: string, t: string)
    requires line == a + "#" + b + t && AllSpace(a) && AllSpace(b) && (t == [] || !IsSpace(t[0]))
    ensures AfterHash(line) == Some(t)
  {
    var rest := "#" + (b + t);
    assert line == a + rest;
    assert !IsSpace(rest[0]);
    SkipOver(a, rest);
    assert rest[1..] == b + t;
    SkipOver(b, t);
  }

  lemma {:induction false} HashRead(line: string) returns (a: string, b: string)
    requires AfterHash(line).Some?
    ensures line == a + "#" + b + AfterHash(line).value && AllSpace(a) && AllSpace(b)
    ensures AfterHash(line).value == [] || !IsSpace(AfterHash(line).value[0])
  {
    a := SkipPrefix(line);
    var s := SkipSpace(line);
    b := SkipPrefix(s[1..]);
    HashJoined(line, a, s, b, AfterHash(line).value);
  }

  lemma {:induction false} HashJoined(line: string, a: string, s: string, b: string, t: string)
    requires line == a + s && s != [] && s[0] == '#' && s[1..] == b + t
    ensures line == a + "#" + b + t
  {
    var hash := "#";
    assert s == hash + (b + t);
    AppendAssoc(a, hash, b + t);
    AppendAssoc(a + hash, b, t);
  }

  predicate HasDirective(line: string, word: string, alnum: char -> bool)
  {
    var s := AfterHash(line);
    s.Some? && HasWord(s.value, word, alnum)
  }

  lemma {:induction false} WordWritten(line: string, word: string, alnum: char -> bool)
    requires word != [] && !IsSpace(word[0])
    ensures HasDirective(line, word, alnum) <==> Written(line, word, alnum)
  {
    if HasDirective(line, word, alnum) {
      var a, b := HashRead(line);
      var s := AfterHash(line).value;
      assert s == word + s[|word|..];
      assert WrittenAs(line, word, alnum, a, b, s[|word|..]);
    }
    forall a, b, rest | WrittenAs(line, word, alnum, a, b, rest) ensures HasDirective(line, word, alnum) {
      assert a + "#" + b + word + rest == a + "#" + b + (word + rest);
      HashWritten(line, a, b, word + rest);
    }
  }

  lemma {:induction false} ZeroRead(line: string, alnum: char -> bool)
    requires IfZero(line, alnum)
    ensures WrittenZero(line, alnum)
  {
    var s := AfterHash(line).value;
    var gap := SkipPrefix(s[2..]);
    var t := SkipSpace(s[2..]);
    var a, b := HashRead(line);
    assert s == "if" + gap + "0" + t[1..];
    assert WrittenAs(line, "if" + gap + "0", alnum, a, b, t[1..]);
  }

  lemma {:induction false} ZeroWritten(line: string, gap: string, a: string, b: string, rest: string,
                                       alnum: char -> bool)
    requires gap != [] && AllSpace(gap) && WrittenAs(line, "if" + gap + "0", alnum, a, b, rest)
    ensures IfZero(line, alnum)
  {
    var t := "if" + (gap + ("0" + rest));
    assert line == a + "#" + b + t;
    HashWritten(line, a, b, t);
    assert t[2..] == gap + ("0" + rest);
    SkipOver(gap, "0" + rest);
  }

  /** What a line is, from its text: the word after its hash decides. */
  lemma {:induction false} DirectiveMeaning(line: string, alnum: char -> bool)
    ensures var d := Classify(line, alnum);
      && (d.Zero? <==> WrittenZero(line, alnum))
      && (d.Zero? || d.Open? <==>
            Written(line, "if", alnum) || Written(line, "ifdef", alnum) || Written(line, "ifndef", alnum))
      && (d.Close? <==> Written(line, "endif", alnum))
      && (d.Else? <==> Written(line, "else", alnum) || Written(line, "elif", alnum))
  {
    WordWritten(line, "if", alnum);
    WordWritten(line, "ifdef", alnum);
    WordWritten(line, "ifndef", alnum);
    WordWritten(line, "endif", alnum);
    WordWritten(line, "else", alnum);
    WordWritten(line, "elif", alnum);
    ZeroOpens(line, alnum);
    ZeroMeaning(line, alnum);
    OneDirective(line, alnum);
    hide AfterHash, HasWord, IfZero, Written, WrittenZero;
  }

  lemma {:induction false} ZeroMeaning(line: string, alnum: char -> bool)
    ensures IfZero(line, alnum) <==> WrittenZero(line, alnum)
  {
    if IfZero(line, alnum) { ZeroRead(line, alnum); }
    if WrittenZero(line, alnum) {
      var gap :| gap != [] && AllSpace(gap) && Written(line, "if" + gap + "0", alnum);
      var a, b, rest :| WrittenAs(line, "if" + gap + "0", alnum, a, b, rest);
      ZeroWritten(line, gap, a, b, rest, alnum);
    }
  }

  /** No line is two of an opening, a closing and a dividing one. */
  lemma {:induction false} OneDirective(line: string, alnum: char -> bool)
    ensures IfOpen(line, alnum) ==> !IfClose(line, alnum) && !IfElse(line, alnum)
    ensures IfClose(line, alnum) ==> !IfElse(line, alnum)
  {
    var t := AfterHash(line);
    if t.Some? {
      FirstTwo(t.value, "if");
      FirstTwo(t.value, "ifdef");
      FirstTwo(t.value, "ifndef");
      FirstTwo(t.value, "endif");
      FirstTwo(t.value, "else");
      FirstTwo(t.value, "elif");
    }
  }

  lemma {:induction false} FirstTwo(s: string, word: string)
    requires |word| >= 2
    ensures word <= s ==> s[0] == word[0] && s[1] == word[1]
  {
  }

  // ---------------------------------------------------- the stack of frames

  /** An open conditional: the line that opened it, whether that was `#if 0`, and
      whether its first group is still the current one. */
  datatype Frame = Frame(line: nat, zero: bool, first: bool)

  function Step(stack: seq<Frame>, d: Directive, line: nat): seq<Frame>
  {
    match d
    case Zero => stack + [Frame(line, true, true)]
    case Open => stack + [Frame(line, false, true)]
    case Close => if stack == [] then [] else stack[..|stack| - 1]
    case Else => if stack == [] then [] else stack[..|stack| - 1] + [stack[|stack| - 1].(first := false)]
    case Plain => stack
  }

  /** The conditionals open after the first `k` lines. */
  function StackAfter(lines: seq<Directive>, k: nat): seq<Frame>
    requires k <= |lines|
  {
    if k == 0 then [] else Step(StackAfter(lines, k - 1), lines[k - 1], k - 1)
  }

  predicate Dead(stack: seq<Frame>) { exists f :: f in stack && f.zero && f.first }

  /** The one-based depth of the outermost dead frame. */
  function DeadAt(stack: seq<Frame>): (r: Option<nat>)
    ensures r.Some? ==> 1 <= r.value <= |stack|
    ensures r.Some? <==> Dead(stack)
  {
    if stack == [] then None
    else
      var below, top := stack[..|stack| - 1], stack[|stack| - 1];
      assert stack == below + [top];
      if DeadAt(below).Some? then DeadAt(below)
      else if top.zero && top.first then Some(|stack|) else None
  }

  /** The counter and the mark move as the stack does. */
  lemma {:induction false} MarkFollowsStack(stack: seq<Frame>, d: Directive, line: nat)
    ensures var depth, mark, next := |stack|, DeadAt(stack), Step(stack, d, line);
      match d
      case Zero => |next| == depth + 1 && DeadAt(next) == (if mark.None? then Some(depth + 1) else mark)
      case Open => |next| == depth + 1 && DeadAt(next) == mark
      case Close =>
        && |next| == (if depth == 0 then 0 else depth - 1)
        && DeadAt(next) == (if mark == Some(depth) then None else mark)
      case Else => |next| == depth && DeadAt(next) == (if mark == Some(depth) then None else mark)
      case Plain => next == stack
  {
    var next := Step(stack, d, line);
    if d.Zero? || d.Open? {
      assert next[..|next| - 1] == stack;
    } else if d.Else? && stack != [] {
      assert next[..|next| - 1] == stack[..|stack| - 1];
    }
  }

  // ------------------------------------------------------------ the stripper

  function Blank(line: string): (r: string)
    ensures |r| == |line| && forall i :: 0 <= i < |r| ==> r[i] == ' '
  {
    seq(|line|, i => ' ')
  }

  function Directives(lines: seq<string>, alnum: char -> bool): seq<Directive>
  {
    seq(|lines|, i requires 0 <= i < |lines| => Classify(lines[i], alnum))
  }

  function StripLine(line: string, stack: seq<Frame>): string
  {
    if Dead(stack) then Blank(line) else line
  }

  /** The output for the first `k` lines: those inside a dead frame are blanked. */
  function StripUpTo(lines: seq<string>, directives: seq<Directive>, k: nat): (r: seq<string>)
    requires k <= |lines| == |directives|
    ensures |r| == k
  {
    if k == 0 then []
    else StripUpTo(lines, directives, k - 1)
         + [StripLine(lines[k - 1], StackAfter(directives, k))]
  }

  function StripLines(lines: seq<string>, alnum: char -> bool): (r: seq<string>)
    ensures |r| == |lines|
  {
    StripUpTo(lines, Directives(lines, alnum), |lines|)
  }

  lemma {:induction false} StripUpToAt(lines: seq<string>, directives: seq<Directive>, k: nat, i: nat)
    requires i < k <= |lines| == |directives|
    ensures StripUpTo(lines, directives, k)[i] == StripLine(lines[i], StackAfter(directives, i + 1))
  {
    SnocAt(StripUpTo(lines, directives, k - 1), StripLine(lines[k - 1], StackAfter(directives, k)), i);
    if i < k - 1 { StripUpToAt(lines, directives, k - 1, i); }
  }

  /** A line of the result, in terms of the text alone. */
  lemma {:induction false} StrippedLine(lines: seq<string>, alnum: char -> bool, i: nat)
    requires i < |lines|
    ensures StripLines(lines, alnum)[i]
         == if InsideIfZero(Directives(lines, alnum), i) then Blank(lines[i]) else lines[i]
  {
    StripUpToAt(lines, Directives(lines, alnum), |lines|, i);
    DeadExactlyInside(Directives(lines, alnum), i);
  }

  function Strip(text: string, alnum: char -> bool): string
  {
    Join(StripLines(Split(text, '\n'), alnum), '\n')
  }

  /** One line of the loop: what `depth` and `dead_at` become. */
  method Advance(line: string, alnum: char -> bool, depth: nat, deadAt: Option<nat>, ghost stack: seq<Frame>,
                 ghost i: nat)
    returns (depth': nat, deadAt': Option<nat>)
    requires depth == |stack| && deadAt == DeadAt(stack)
    ensures depth' == |Step(stack, Classify(line, alnum), i)|
    ensures deadAt' == DeadAt(Step(stack, Classify(line, alnum), i))
  {
    MarkFollowsStack(stack, Classify(line, alnum), i);
    depth', deadAt' := depth, deadAt;
    if IfOpen(line, alnum) {
      depth' := depth + 1;
      if deadAt.None? && IfZero(line, alnum) { deadAt' := Some(depth'); }
    } else if IfClose(line, alnum) {
      if deadAt.Some? && depth == deadAt.value { deadAt' := None; }
      depth' := if depth == 0 then 0 else depth - 1;
    } else if IfElse(line, alnum) {
      if deadAt.Some? && depth == deadAt.value { deadAt' := None; }
    }
  }

  method StripAll(lines: seq<string>, alnum: char -> bool) returns (out: seq<string>)
    ensures out == StripLines(lines, alnum)
  {
    var depth, deadAt: Option<nat> := 0, None;
    ghost var directives := Directives(lines, alnum);
    out := [];
    for i := 0 to |lines|
      invariant depth == |StackAfter(directives, i)| && deadAt == DeadAt(StackAfter(directives, i))
      invariant out == StripUpTo(lines, directives, i)
    {
      assert directives[i] == Classify(lines[i], alnum);
      depth, deadAt := Advance(lines[i], alnum, depth, deadAt, StackAfter(directives, i), i);
      out := out + [if deadAt.Some? then Blank(lines[i]) else lines[i]];
    }
  }

  method StripIfZero(text: string, alnum: char -> bool) returns (r: string)
    ensures r == Strip(text, alnum)
  {
    var out := StripAll(Split(text, '\n'), alnum);
    r := Join(out, '\n');
  }

  // ------------------------------------- dead lines, without stack or counter

  predicate Opens(d: Directive) { d.Zero? || d.Open? }

  /** The nesting level of line `i`, counted from the conditional opened at `j`. */
  function Level(lines: seq<Directive>, j: nat, i: nat): int
    requires j <= i < |lines|
  {
    if i == j then 1
    else Level(lines, j, i - 1) + (if Opens(lines[i]) then 1 else if lines[i].Close? then -1 else 0)
  }

  /** Line `i` still belongs to the first group of the conditional opened at `j`:
      nothing after `j` up to `i` ends that group at its own level. */
  predicate InFirstGroup(lines: seq<Directive>, j: nat, i: nat)
    requires j <= i < |lines|
  {
    forall k :: j < k <= i && (lines[k].Close? || lines[k].Else?) ==> Level(lines, j, k - 1) > 1
  }

  predicate InsideIfZero(lines: seq<Directive>, i: nat)
    requires i < |lines|
  {
    exists j :: 0 <= j <= i && lines[j].Zero? && InFirstGroup(lines, j, i)
  }

  /** What the frame at position `p` says about the line that opened it. */
  ghost predicate Means(lines: seq<Directive>, i: nat, f: Frame, level: int)
    requires i < |lines|
  {
    && f.line <= i && Opens(lines[f.line]) && f.zero == lines[f.line].Zero?
    && Level(lines, f.line, i) == level
    && (f.first <==> InFirstGroup(lines, f.line, i))
  }

  lemma {:induction false} GroupStep(lines: seq<Directive>, j: nat, i: nat)
    requires j < i < |lines|
    ensures InFirstGroup(lines, j, i) <==>
      InFirstGroup(lines, j, i - 1) && (lines[i].Close? || lines[i].Else? ==> Level(lines, j, i - 1) > 1)
  {
  }

  /** A frame that stays open keeps saying so. */
  lemma {:induction false} MeaningStep(lines: seq<Directive>, i: nat, f: Frame, level: int)
    requires 0 < i < |lines| && level >= 1 && Means(lines, i - 1, f, level)
    requires lines[i].Close? ==> level > 1
    ensures Means(lines, i, if lines[i].Else? && level == 1 then f.(first := false) else f,
                  level + if Opens(lines[i]) then 1 else if lines[i].Close? then -1 else 0)
  {
    GroupStep(lines, f.line, i);
  }

  lemma {:induction false} FrameMeaning(lines: seq<Directive>, i: nat, p: nat)
    requires i < |lines| && p < |StackAfter(lines, i + 1)|
    ensures Means(lines, i, StackAfter(lines, i + 1)[p], |StackAfter(lines, i + 1)| - p)
  {
    var before := StackAfter(lines, i);
    if p < |before| {
      FrameMeaning(lines, i - 1, p);
      MeaningStep(lines, i, before[p], |before| - p);
    }
  }

  lemma {:induction false} FrameExists(lines: seq<Directive>, i: nat, j: nat) returns (p: nat)
    requires j <= i < |lines| && Opens(lines[j]) && InFirstGroup(lines, j, i)
    ensures p < |StackAfter(lines, i + 1)| && StackAfter(lines, i + 1)[p].line == j
  {
    if j == i {
      p := |StackAfter(lines, i)|;
    } else {
      GroupStep(lines, j, i);
      p := FrameExists(lines, i - 1, j);
      FrameMeaning(lines, i - 1, p);
    }
  }

  /** A line is blanked exactly when it lies in the first group of an `#if 0`. */
  lemma {:induction false} DeadExactlyInside(lines: seq<Directive>, i: nat)
    requires i < |lines|
    ensures Dead(StackAfter(lines, i + 1)) <==> InsideIfZero(lines, i)
  {
    var stack := StackAfter(lines, i + 1);
    if Dead(stack) {
      var p :| 0 <= p < |stack| && stack[p].zero && stack[p].first;
      FrameMeaning(lines, i, p);
    }
    if InsideIfZero(lines, i) {
      var j :| 0 <= j <= i && lines[j].Zero? && InFirstGroup(lines, j, i);
      var p := FrameExists(lines, i, j);
      FrameMeaning(lines, i, p);
    }
  }

  // ---------------------------------------------------------------- the laws

  /** Same length, newlines in the same places, everything else kept or blanked. */
  ghost predicate KeepsOffsets(a: string, b: string)
  {
    |a| == |b| && forall i :: 0 <= i < |a| ==> b[i] == a[i] || (b[i] == ' ' && a[i] != '\n')
  }

  lemma {:induction false} JoinKeepsOffsets(a: seq<string>, b: seq<string>)
    requires |a| == |b| && forall i :: 0 <= i < |a| ==> KeepsOffsets(a[i], b[i])
    ensures KeepsOffsets(Join(a, '\n'), Join(b, '\n'))
  {
    if |a| > 1 {
      assert KeepsOffsets(a[0], b[0]);
      JoinKeepsOffsets(a[1..], b[1..]);
    } else if |a| == 1 {
      assert KeepsOffsets(a[0], b[0]);
    }
  }

  lemma {:induction false} StripKeepsOffsets(text: string, alnum: char -> bool)
    ensures KeepsOffsets(text, Strip(text, alnum))
  {
    var lines := Split(text, '\n');
    forall i | 0 <= i < |lines| ensures KeepsOffsets(lines[i], StripLines(lines, alnum)[i]) {
      assert lines[i] in lines;
      StrippedLine(lines, alnum, i);
    }
    JoinKeepsOffsets(lines, StripLines(lines, alnum));
    JoinSplit(text, '\n');
  }

  lemma {:induction false} StrippedLines(text: string, alnum: char -> bool)
    ensures Split(Strip(text, alnum), '\n') == StripLines(Split(text, '\n'), alnum)
  {
    var lines := Split(text, '\n');
    var out := StripLines(lines, alnum);
    forall p | p in out ensures '\n' !in p {
      var i :| 0 <= i < |out| && p == out[i];
      assert lines[i] in lines;
      StrippedLine(lines, alnum, i);
    }
    SplitJoin(out, '\n');
  }

  lemma {:induction false} BlankIsPlain(line: string, alnum: char -> bool)
    requires forall i :: 0 <= i < |line| ==> line[i] == ' '
    ensures SkipSpace(line) == [] && !IfZero(line, alnum)
  {
    if line != [] { BlankIsPlain(line[1..], alnum); }
  }

  /** No line of the result is an `#if 0` head. */
  lemma {:induction false} NoZeroSurvives(text: string, alnum: char -> bool, i: nat)
    requires i < |Split(Strip(text, alnum), '\n')|
    ensures !IfZero(Split(Strip(text, alnum), '\n')[i], alnum)
  {
    StrippedLines(text, alnum);
    var lines := Split(text, '\n');
    var d := Directives(lines, alnum);
    ZeroOpens(lines[i], alnum);
    StrippedLine(lines, alnum, i);
    if InsideIfZero(d, i) {
      BlankIsPlain(Blank(lines[i]), alnum);
    } else {
      assert lines[i] == StripLines(lines, alnum)[i];
      assert d[i] == Zero ==> InFirstGroup(d, i, i);
    }
  }

  lemma {:induction false} StripIdempotent(text: string, alnum: char -> bool)
    ensures Strip(Strip(text, alnum), alnum) == Strip(text, alnum)
  {
    var once := Strip(text, alnum);
    var lines := Split(once, '\n');
    var d := Directives(lines, alnum);
    forall i | 0 <= i < |lines| ensures d[i] != Zero {
      NoZeroSurvives(text, alnum, i);
      ZeroOpens(lines[i], alnum);
    }
    forall i | 0 <= i < |lines| ensures StripLines(lines, alnum)[i] == lines[i] {
      StrippedLine(lines, alnum, i);
    }
    assert StripLines(lines, alnum) == lines;
    JoinSplit(once, '\n');
  }
}
