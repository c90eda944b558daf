/**
 The folded text that the Lisp profiler writes
 (crates/neovm-core/src/emacs_core/system/profiler/mod.rs), against the parser of
 crates/neomacs-diagnostics.
 */
module FoldedText {
  import opened Text
  import opened Folded

  /** `root;...;leaf <count>`. */
  function RenderLine(s: Stack): Bytes
    requires s.count >= 0
  {
    Join(s.frames, SEMI) + [SPACE] + Decimal(s.count)
  }

  function Render(stacks: seq<Stack>): Bytes
    requires forall i :: 0 <= i < |stacks| ==> stacks[i].count >= 0
  {
    if stacks == [] then [] else RenderLine(stacks[0]) + [NL] + Render(stacks[1..])
  }

  /** The output loop of `profiler_cpu_folded`, over the sorted lines. */
  method WriteFolded(lines: seq<Stack>) returns (out: Bytes)
    requires forall i :: 0 <= i < |lines| ==> lines[i].count >= 0
    ensures out == Render(lines)
  {
    out := [];
    for i := 0 to |lines|
      invariant out + Render(lines[i..]) == Render(lines)
    {
      assert lines[i..][1..] == lines[i + 1..];
      ghost var rest := Render(lines[i + 1..]);
      ghost var before := out;
      AppendAssoc(before, RenderLine(lines[i]) + [NL], rest);
      var numeral := Decimal(lines[i].count);
      out := out + Join(lines[i].frames, SEMI);
      out := out + [SPACE];
      out := out + numeral;
      out := out + [NL];
      assert out == before + (RenderLine(lines[i]) + [NL]);
    }
  }

  /** Frames the line format can carry: not empty, no separator, and no whitespace
      for `trim` to take off the front. */
  predicate Printable(frames: seq<Bytes>)
  {
    (forall f :: f in frames ==> f != [] && SEMI !in f) && WhiteHead(Join(frames, SEMI)) == 0
  }

  // ------------------------------------------------------------ what is parsed

  predicate Digits(d: Bytes) { d != [] && forall i :: 0 <= i < |d| ==> IsDigit(d[i]) }

  predicate InRange(n: int, ty: CountType) { if ty == I64 then -TWO63 <= n < TWO63 else 0 <= n < TWO64 }

  /** `s` is the digits `d` after at most one sign, and spells `n`. */
  predicate SpeltBy(s: Bytes, ty: CountType, n: int, d: Bytes)
    requires Digits(d)
  {
    || (s == d && n == DecimalValue(d))
    || (s == [PLUS] + d && n == DecimalValue(d))
    || (ty == I64 && s == [MINUS] + d && n == -(DecimalValue(d) as int))
  }

  ghost predicate Spells(s: Bytes, ty: CountType, n: int)
  {
    exists d :: Digits(d) && SpeltBy(s, ty, n, d)
  }

  /** A count is accepted exactly when it spells a number of its Rust type. */
  lemma {:induction false} CountMeaning(s: Bytes, ty: CountType, n: int)
    ensures ParseCount(s, ty) == Some(n) <==> Spells(s, ty, n) && InRange(n, ty)
  {
    if ParseCount(s, ty) == Some(n) {
      var signed := s[0] == PLUS || (s[0] == MINUS && ty == I64);
      var d := if signed then s[1..] else s;
      assert signed ==> s == [s[0]] + d;
      assert Digits(d) && SpeltBy(s, ty, n, d);
    } else if Spells(s, ty, n) && InRange(n, ty) {
      SpeltIsParsed(s, ty, n);
    }
  }

  lemma {:induction false} SpeltIsParsed(s: Bytes, ty: CountType, n: int)
    requires Spells(s, ty, n) && InRange(n, ty)
    ensures ParseCount(s, ty) == Some(n)
  {
    var d :| Digits(d) && SpeltBy(s, ty, n, d);
    assert IsDigit(d[0]);
    assert s == d || s[1..] == d;
  }

  lemma {:induction false} RSplitParts(s: Bytes)
    ensures var r := RSplitOnce(s, SPACE);
      if r.Some? then s == r.value.0 + [SPACE] + r.value.1 && SPACE !in r.value.1 else SPACE !in s
  {
    if s != [] {
      var init, last := s[..|s| - 1], s[|s| - 1];
      assert s == init + [last];
      RSplitParts(init);
      var r := RSplitOnce(init, SPACE);
      if r.Some? { AppendAssoc(r.value.0 + [SPACE], r.value.1, [last]); }
    }
  }

  /** The trimmed line is `a`, a space, and `b` without a space. */
  predicate LastSpace(line: Bytes, a: Bytes, b: Bytes) { Trim(line) == a + [SPACE] + b && SPACE !in b }

  /** Strictly increasing positions below `n`. */
  ghost predicate Positions(at: seq<nat>, n: nat)
  {
    (forall k :: 0 <= k < |at| ==> at[k] < n) && forall j, k :: 0 <= j < k < |at| ==> at[j] < at[k]
  }

  /** `frames` are the pieces that are not empty, at the positions `at`, in order. */
  ghost predicate Picks(parts: seq<Bytes>, frames: seq<Bytes>, at: seq<nat>)
  {
    && |at| == |frames| && Positions(at, |parts|)
    && (forall k :: 0 <= k < |at| ==> frames[k] == parts[at[k]] && frames[k] != [])
    && (forall i: nat :: i < |parts| && parts[i] != [] ==> i in at)
  }

  function Later(at: seq<nat>): (r: seq<nat>)
    ensures |r| == |at| && forall k :: 0 <= k < |at| ==> r[k] == at[k] + 1
  {
    seq(|at|, k requires 0 <= k < |at| => at[k] + 1)
  }

  lemma {:induction false} LaterMember(at: seq<nat>, i: nat)
    requires i in at
    ensures i + 1 in Later(at)
  {
    var k :| 0 <= k < |at| && at[k] == i;
    assert Later(at)[k] == i + 1;
  }

  /** All pieces but the first are at later positions. */
  lemma {:induction false} LaterCovers(part: Bytes, parts: seq<Bytes>, frames: seq<Bytes>, at: seq<nat>)
    requires Picks(parts, frames, at)
    ensures forall i: nat :: 0 < i < |[part] + parts| && ([part] + parts)[i] != [] ==> i in Later(at)
  {
    forall i: nat | 0 < i < |[part] + parts| && ([part] + parts)[i] != [] ensures i in Later(at) {
      assert ([part] + parts)[i] == parts[i - 1];
      LaterMember(at, i - 1);
    }
  }

  lemma {:induction false} PicksEmpty(part: Bytes, parts: seq<Bytes>, frames: seq<Bytes>, at: seq<nat>)
    requires Picks(parts, frames, at) && part == []
    ensures Picks([part] + parts, frames, Later(at))
  {
    LaterCovers(part, parts, frames, at);
  }

  lemma {:induction false} ZeroLater(at: seq<nat>, n: nat)
    requires Positions(at, n)
    ensures Positions([0] + Later(at), n + 1)
  {
    var late := Later(at);
    forall j, k | 0 <= j < k < |late| ensures late[j] < late[k] { assert at[j] < at[k]; }
  }

  lemma {:induction false} PicksFrame(part: Bytes, parts: seq<Bytes>, frames: seq<Bytes>, at: seq<nat>)
    requires Picks(parts, frames, at) && part != []
    ensures Picks([part] + parts, [part] + frames, [0] + Later(at))
  {
    var all, late := [part] + parts, Later(at);
    LaterCovers(part, parts, frames, at);
    ZeroLater(at, |parts|);
    forall i: nat | i < |all| && all[i] != [] ensures i in [0] + late { assert i > 0 ==> i in late; }
    forall k | 0 <= k < |late| ensures frames[k] == all[late[k]] { assert late[k] == at[k] + 1; }
  }

  lemma {:induction false} NonEmptyPicks(parts: seq<Bytes>) returns (at: seq<nat>)
    ensures Picks(parts, NonEmpty(parts), at)
  {
    at := [];
    if parts != [] {
      var rest := NonEmptyPicks(parts[1..]);
      assert parts == [parts[0]] + parts[1..];
      if parts[0] == [] {
        PicksEmpty(parts[0], parts[1..], NonEmpty(parts[1..]), rest);
        at := Later(rest);
      } else {
        PicksFrame(parts[0], parts[1..], NonEmpty(parts[1..]), rest);
        at := [0] + Later(rest);
      }
    }
  }

  lemma {:induction false} Ascending(a: seq<nat>, n: nat)
    requires a != [] && Positions(a, n)
    ensures Positions(a[1..], n) && forall x :: x in a[1..] ==> a[0] < x
  {
  }

  /** Ascending lists of the same positions are the same list. */
  lemma {:induction false} SamePositions(a: seq<nat>, b: seq<nat>, n: nat)
    requires Positions(a, n) && Positions(b, n)
    requires forall x :: x in a <==> x in b
    ensures a == b
  {
    assert (a != [] ==> a[0] in a) && (b != [] ==> b[0] in b);
    if a != [] && b != [] {
      Ascending(a, n);
      Ascending(b, n);
      assert a == [a[0]] + a[1..] && b == [b[0]] + b[1..];
      assert a[0] == b[0];
      forall x ensures x in a[1..] <==> x in b[1..] {
        assert x in a <==> x == a[0] || x in a[1..];
        assert x in b <==> x == b[0] || x in b[1..];
      }
      SamePositions(a[1..], b[1..], n);
    }
  }

  lemma {:induction false} PickedAt(parts: seq<Bytes>, f: seq<Bytes>, a: seq<nat>, x: nat)
    requires Picks(parts, f, a)
    ensures x in a <==> x < |parts| && parts[x] != []
  {
  }

  /** The pieces that are not empty, in order, are one list only. */
  lemma {:induction false} PicksOnce(parts: seq<Bytes>, f: seq<Bytes>, a: seq<nat>, g: seq<Bytes>, b: seq<nat>)
    requires Picks(parts, f, a) && Picks(parts, g, b)
    ensures f == g
  {
    forall x ensures x in a <==> x in b {
      if x >= 0 {
        PickedAt(parts, f, a, x);
        PickedAt(parts, g, b, x);
      }
    }
    SamePositions(a, b, |parts|);
  }

  /** `frames` are the frames between the semicolons of `a`. */
  ghost predicate Frames(a: Bytes, frames: seq<Bytes>) { exists at :: Picks(Split(a, SEMI), frames, at) }

  lemma {:induction false} FramesPicked(a: Bytes, frames: seq<Bytes>)
    ensures Frames(a, frames) <==> frames == NonEmpty(Split(a, SEMI))
  {
    var parts := Split(a, SEMI);
    var at := NonEmptyPicks(parts);
    if Frames(a, frames) {
      var b :| Picks(parts, frames, b);
      PicksOnce(parts, frames, b, NonEmpty(parts), at);
    }
  }

  ghost predicate Halves(s: Stack, ty: CountType, a: Bytes, b: Bytes)
  {
    ParseCount(Trim(b), ty) == Some(s.count) && Frames(a, s.frames)
  }

  /** A line gives a stack exactly when the text before its last space has a frame
      between semicolons and the text after it is a count; the frames are the pieces
      between the semicolons without the empty ones, in order. */
  lemma {:induction false} LineMeaning(line: Bytes, ty: CountType, s: Stack)
    ensures ParseLine(line, ty) == Some(s) <==>
      s.frames != [] && exists a, b :: LastSpace(line, a, b) && Halves(s, ty, a, b)
  {
    RSplitParts(Trim(line));
    var r := RSplitOnce(Trim(line), SPACE);
    if r.Some? {
      FramesPicked(r.value.0, s.frames);
      assert LastSpace(line, r.value.0, r.value.1);
    }
    forall a, b | LastSpace(line, a, b) ensures r == Some((a, b)) { RSplitAtSpace(a, b); }
  }

  /** The lines that give a stack are at the positions `at`, and give `stacks`. */
  ghost predicate Given(lines: seq<Option<Stack>>, stacks: seq<Stack>, at: seq<nat>, n: nat)
    requires n <= |lines|
  {
    && |at| == |stacks| && Positions(at, n)
    && (forall k :: 0 <= k < |at| ==> lines[at[k]] == Some(stacks[k]))
    && (forall i: nat :: i < n && lines[i].Some? ==> i in at)
  }

  lemma {:induction false} GivenSnoc(lines: seq<Option<Stack>>, stacks: seq<Stack>, at: seq<nat>, n: nat)
    requires n < |lines| && Given(lines, stacks, at, n) && lines[n].Some?
    ensures Given(lines, stacks + [lines[n].value], at + [n], n + 1)
  {
    var at' := at + [n];
    forall i: nat | i < n + 1 && lines[i].Some? ensures i in at' {
      if i < n { assert i in at; } else { assert at'[|at|] == n; }
    }
  }

  /** The stacks parsed are those of exactly the lines that give one, in line order. */
  lemma {:induction false} StacksAreGiven(lines: seq<Option<Stack>>, n: nat) returns (at: seq<nat>)
    requires n <= |lines|
    ensures Given(lines, Stacks(lines, n), at, n)
  {
    at := [];
    if n > 0 {
      at := StacksAreGiven(lines, n - 1);
      if lines[n - 1].Some? {
        GivenSnoc(lines, Stacks(lines, n - 1), at, n - 1);
        at := at + [n - 1];
      }
    }
  }

  /** The stacks parsed are those of the lines that give one, in line order. */
  lemma {:induction false} StackInOrder(lines: seq<Option<Stack>>, i: nat, n: nat)
    requires i < n <= |lines|
    ensures |Stacks(lines, i)| <= |Stacks(lines, n)|
    ensures lines[i].Some? ==>
      |Stacks(lines, i)| < |Stacks(lines, n)| && Stacks(lines, n)[|Stacks(lines, i)|] == lines[i].value
  {
    if i < n - 1 { StackInOrder(lines, i, n - 1); }
  }

  // ---------------------------------------------------------------- one line

  lemma {:induction false} RSplitAtSpace(t: Bytes, d: Bytes)
    requires SPACE !in d
    ensures RSplitOnce(t + [SPACE] + d, SPACE) == Some((t, d))
  {
    var s := t + [SPACE] + d;
    if d == [] {
      assert s[..|s| - 1] == t;
    } else {
      var init := d[..|d| - 1];
      assert s[..|s| - 1] == t + [SPACE] + init;
      RSplitAtSpace(t, init);
      assert d == init + [d[|d| - 1]];
    }
  }

  lemma {:induction false} NoSeparator(s: Bytes)
    requires SPACE !in s
    ensures RSplitOnce(s, SPACE) == None
  {
    if s != [] { NoSeparator(s[..|s| - 1]); }
  }

  lemma {:induction false} DigitAtEnd(s: Bytes)
    requires s != [] && IsDigit(s[|s| - 1])
    ensures TrimEnd(s) == s
  {
  }

  lemma {:induction false} NumeralTrims(n: nat)
    ensures Trim(Decimal(n)) == Decimal(n) && SPACE !in Decimal(n)
  {
    var d := Decimal(n);
    assert IsDigit(d[0]) && IsDigit(d[|d| - 1]);
    DigitAtEnd(d);
  }

  lemma {:induction false} NumeralParses(n: nat, ty: CountType)
    requires if ty == I64 then n < TWO63 else n < TWO64
    ensures ParseCount(Decimal(n), ty) == Some(n)
  {
    var d := Decimal(n);
    assert IsDigit(d[0]);
    DecimalRoundTrip(n);
  }

  lemma {:induction false} HeadBeforeSpace(t: Bytes, rest: Bytes)
    requires t != []
    ensures WhiteHead(t + [SPACE] + rest) == WhiteHead(t)
  {
    var s := t + [SPACE] + rest;
    assert s[0] == t[0];
    assert |s| >= 2 ==> s[1] == if |t| >= 2 then t[1] else SPACE;
    assert |t| >= 3 ==> s[2] == t[2];
    assert |t| == 2 ==> s[2] == SPACE;
  }

  /** The text of the frames survives `trim` and the split at the last space. */
  lemma {:induction false} CleanLine(t: Bytes, n: nat)
    requires t != [] && WhiteHead(t) == 0
    ensures RSplitOnce(Trim(t + [SPACE] + Decimal(n)), SPACE) == Some((t, Decimal(n)))
  {
    var line := t + [SPACE] + Decimal(n);
    HeadBeforeSpace(t, Decimal(n));
    NumeralTrims(n);
    assert line[|line| - 1] == Decimal(n)[|Decimal(n)| - 1];
    DigitAtEnd(line);
    RSplitAtSpace(t, Decimal(n));
  }

  lemma {:induction false} TrimStartSuffix(s: Bytes) returns (k: nat)
    requires s != [] && IsDigit(s[|s| - 1])
    ensures WhiteHead(s) <= k < |s| && TrimStart(s) == s[k..]
    decreases |s|
  {
    if WhiteHead(s) == 0 {
      k := 0;
    } else {
      var w := WhiteHead(s);
      assert w < |s|;
      var j := TrimStartSuffix(s[w..]);
      k := w + j;
      assert s[w..][j..] == s[k..];
    }
  }

  /** Leading whitespace is lost: what is left of the frames is shorter. */
  lemma {:induction false} TrimmedLine(t: Bytes, n: nat)
    requires t == [] || WhiteHead(t) > 0
    ensures var r := RSplitOnce(Trim(t + [SPACE] + Decimal(n)), SPACE); r.Some? ==> |r.value.0| < |t|
  {
    var d := Decimal(n);
    var line := t + [SPACE] + d;
    NumeralTrims(n);
    assert line[|line| - 1] == d[|d| - 1];
    if t != [] { HeadBeforeSpace(t, d); }
    var k := TrimStartSuffix(line);
    assert k > 0;
    DigitAtEnd(line[k..]);
    if k <= |t| {
      assert line[k..] == t[k..] + [SPACE] + d;
      RSplitAtSpace(t[k..], d);
    } else {
      assert line[k..] == d[k - |t| - 1..];
      NoSeparator(line[k..]);
    }
  }

  lemma {:induction false} NonEmptyPieces(parts: seq<Bytes>)
    ensures forall p :: p in NonEmpty(parts) ==> p != [] && p in parts
  {
    if parts != [] { NonEmptyPieces(parts[1..]); }
  }

  lemma {:induction false} NonEmptyAll(parts: seq<Bytes>)
    requires forall p :: p in parts ==> p != []
    ensures NonEmpty(parts) == parts
  {
    if parts != [] {
      assert parts[0] in parts && parts == [parts[0]] + parts[1..];
      forall p | p in parts[1..] ensures p != [] { assert p in parts; }
      NonEmptyAll(parts[1..]);
    }
  }

  lemma {:induction false} NonEmptyShorter(parts: seq<Bytes>)
    ensures |NonEmpty(parts)| <= |parts| && |Join(NonEmpty(parts), SEMI)| <= |Join(parts, SEMI)|
  {
    if parts != [] {
      NonEmptyShorter(parts[1..]);
      var rest := NonEmpty(parts[1..]);
      assert |parts| == 1 ==> rest == [];
      if parts[0] == [] {
        assert NonEmpty(parts) == rest;
      } else {
        assert NonEmpty(parts) == [parts[0]] + rest;
        assert NonEmpty(parts)[1..] == rest;
      }
    }
  }

  lemma {:induction false} FramesOf(frames: seq<Bytes>)
    requires frames != []
    ensures NonEmpty(Split(Join(frames, SEMI), SEMI)) == frames <==> forall f :: f in frames ==> f != [] && SEMI !in f
  {
    var parts := Split(Join(frames, SEMI), SEMI);
    NonEmptyPieces(parts);
    if forall f :: f in frames ==> f != [] && SEMI !in f {
      SplitJoin(frames, SEMI);
      NonEmptyAll(frames);
    }
  }

  /** A line is read back as written exactly when its frames are printable. */
  lemma {:induction false} LineRoundTrip(s: Stack, ty: CountType)
    requires WellFormed(s, ty) && s.count >= 0
    ensures ParseLine(RenderLine(s), ty) == Some(s) <==> Printable(s.frames)
  {
    var t := Join(s.frames, SEMI);
    NumeralTrims(s.count);
    NumeralParses(s.count, ty);
    if t != [] && WhiteHead(t) == 0 {
      CleanLine(t, s.count);
      FramesOf(s.frames);
    } else {
      TrimmedLine(t, s.count);
      var r := RSplitOnce(Trim(RenderLine(s)), SPACE);
      if r.Some? {
        NonEmptyShorter(Split(r.value.0, SEMI));
        JoinSplit(r.value.0, SEMI);
      }
      assert t == [] ==> s.frames[0] == [];
      assert s.frames[0] in s.frames;
    }
  }

  // ------------------------------------------------------------ the whole text

  lemma {:induction false} NoNewline(frames: seq<Bytes>)
    requires forall f :: f in frames ==> NL !in f
    ensures NL !in Join(frames, SEMI)
  {
    if |frames| > 1 { NoNewline(frames[1..]); }
  }

  /** Every stack can be written and read back. */
  ghost predicate AllPrintable(stacks: seq<Stack>, ty: CountType)
  {
    forall i :: 0 <= i < |stacks| ==> StackPrintable(stacks[i], ty)
  }

  ghost predicate StackPrintable(s: Stack, ty: CountType)
  {
    WellFormed(s, ty) && s.count >= 0 && Printable(s.frames) && forall f :: f in s.frames ==> NL !in f
  }

  lemma {:induction false} LineHasNoNewline(s: Stack, ty: CountType)
    requires StackPrintable(s, ty)
    ensures NL !in RenderLine(s)
  {
    NoNewline(s.frames);
    var d := Decimal(s.count);
    assert NL !in d by { assert forall i :: 0 <= i < |d| ==> IsDigit(d[i]); }
  }

  /** Every rendered line is one line. */
  ghost predicate OneLineEach(stacks: seq<Stack>)
    requires Countable(stacks)
  {
    forall i :: 0 <= i < |stacks| ==> NL !in RenderLine(stacks[i])
  }

  predicate Countable(stacks: seq<Stack>) { forall i :: 0 <= i < |stacks| ==> stacks[i].count >= 0 }

  lemma {:induction false} RenderSplits(stacks: seq<Stack>)
    requires Countable(stacks) && OneLineEach(stacks)
    ensures var lines := Split(Render(stacks), NL);
      |lines| == |stacks| + 1 && lines[|stacks|] == []
      && forall i :: 0 <= i < |stacks| ==> lines[i] == RenderLine(stacks[i])
  {
    if stacks != [] {
      RenderSplits(stacks[1..]);
      SplitAfterPiece(RenderLine(stacks[0]), Render(stacks[1..]), NL);
    }
  }

  lemma {:induction false} ParseLinesAt(lines: seq<Bytes>, ty: CountType, i: nat)
    requires i < |lines|
    ensures ParseLines(lines, ty)[i] == ParseLine(lines[i], ty)
  {
    if i < |lines| - 1 { ParseLinesAt(lines[..|lines| - 1], ty, i); }
  }

  lemma {:induction false} StacksAre(lines: seq<Option<Stack>>, stacks: seq<Stack>, k: nat)
    requires k <= |lines| && k <= |stacks| && forall i :: 0 <= i < k ==> lines[i] == Some(stacks[i])
    ensures Stacks(lines, k) == stacks[..k]
  {
    if k > 0 { StacksAre(lines, stacks, k - 1); }
  }

  lemma {:induction false} PrintableParses(stacks: seq<Stack>, ty: CountType)
    requires AllPrintable(stacks, ty)
    ensures Countable(stacks) && Parse(Render(stacks), ty) == stacks
  {
    var lines := Lines(Render(stacks));
    forall i | 0 <= i < |stacks| ensures NL !in RenderLine(stacks[i]) { LineHasNoNewline(stacks[i], ty); }
    RenderSplits(stacks);
    var parsed := ParseLines(lines, ty);
    forall i | 0 <= i < |stacks| ensures parsed[i] == Some(stacks[i]) {
      ParseLinesAt(lines, ty, i);
      LineRoundTrip(stacks[i], ty);
    }
    ParseLinesAt(lines, ty, |stacks|);
    assert ParseLine([], ty) == None;
    StacksAre(parsed, stacks, |stacks|);
  }

  // -------------------------------------------------- nothing else comes back

  /** Bytes of the line for a stack, its newline included. */
  function LineLength(s: Stack): nat
  {
    |Join(s.frames, SEMI)| + 1 + |Decimal(if s.count < 0 then 0 else s.count)| + 1
  }

  function TextLength(stacks: seq<Stack>): nat
  {
    if stacks == [] then 0 else TextLength(stacks[..|stacks| - 1]) + LineLength(stacks[|stacks| - 1])
  }

  /** Bytes of the lines, with a newline for each. */
  function LinesLength(lines: seq<Bytes>): nat
  {
    if lines == [] then 0 else LinesLength(lines[..|lines| - 1]) + |lines[|lines| - 1]| + 1
  }

  function Newlines(s: Bytes): nat
  {
    if s == [] then 0 else Newlines(s[1..]) + (if s[0] == NL then 1 else 0)
  }

  lemma {:induction false} DecimalShortest(s: Bytes)
    requires s != [] && forall i :: 0 <= i < |s| ==> IsDigit(s[i])
    ensures |Decimal(DecimalValue(s))| <= |s|
  {
    var init := s[..|s| - 1];
    if init != [] {
      DecimalShortest(init);
      var v := DecimalValue(init);
      assert IsDigit(s[|s| - 1]);
      assert DecimalValue(s) / 10 == v;
    } else {
      assert DecimalValue(init) == 0 && IsDigit(s[0]);
    }
  }

  lemma {:induction false} TrimEndShorter(s: Bytes)
    ensures |TrimEnd(s)| <= |s|
    decreases |s|
  {
    if WhiteTail(s) != 0 { TrimEndShorter(s[..|s| - WhiteTail(s)]); }
  }

  lemma {:induction false} TrimStartShorter(s: Bytes)
    ensures |TrimStart(s)| <= |s|
    decreases |s|
  {
    if WhiteHead(s) != 0 { TrimStartShorter(s[WhiteHead(s)..]); }
  }

  lemma {:induction false} TrimShorter(s: Bytes)
    ensures |Trim(s)| <= |s|
  {
    TrimStartShorter(s);
    TrimEndShorter(TrimStart(s));
  }

  lemma {:induction false} RSplitLength(s: Bytes, sep: Byte)
    ensures var r := RSplitOnce(s, sep); r.Some? ==> |s| == |r.value.0| + 1 + |r.value.1|
  {
    if s != [] { RSplitLength(s[..|s| - 1], sep); }
  }

  lemma {:induction false} CountShorter(s: Bytes, ty: CountType)
    requires ParseCount(s, ty).Some?
    ensures var n := ParseCount(s, ty).value; |Decimal(if n < 0 then 0 else n)| <= |s|
  {
    var negative := s[0] == MINUS && ty == I64;
    var digits := if negative || s[0] == PLUS then s[1..] else s;
    DecimalShortest(digits);
  }

  /** A stack renders no longer than the line it was parsed from. */
  lemma {:induction false} ParsedShorter(line: Bytes, ty: CountType)
    requires ParseLine(line, ty).Some?
    ensures LineLength(ParseLine(line, ty).value) <= |line| + 1
  {
    TrimShorter(line);
    RSplitLength(Trim(line), SPACE);
    var p := RSplitOnce(Trim(line), SPACE).value;
    TrimShorter(p.1);
    CountShorter(Trim(p.1), ty);
    NonEmptyShorter(Split(p.0, SEMI));
    JoinSplit(p.0, SEMI);
  }

  lemma {:induction false} StacksOfPrefix(a: seq<Option<Stack>>, b: seq<Option<Stack>>, k: nat)
    requires k <= |a| && a <= b
    ensures Stacks(a, k) == Stacks(b, k)
  {
    if k > 0 { StacksOfPrefix(a, b, k - 1); }
  }

  lemma {:induction false} StacksSnoc(parsed: seq<Option<Stack>>, x: Option<Stack>)
    ensures var before := Stacks(parsed, |parsed|);
      Stacks(parsed + [x], |parsed| + 1) == if x.Some? then before + [x.value] else before
  {
    StacksOfPrefix(parsed, parsed + [x], |parsed|);
  }

  lemma {:induction false} TextLengthSnoc(stacks: seq<Stack>, s: Stack)
    ensures TextLength(stacks + [s]) == TextLength(stacks) + LineLength(s)
  {
    assert (stacks + [s])[..|stacks|] == stacks;
  }

  /** One more line: it gives a stack that is no longer, or leaves a byte unused. */
  lemma {:induction false} LengthStep(parsed: seq<Option<Stack>>, x: Option<Stack>, length: nat)
    requires x.Some? ==> LineLength(x.value) <= length + 1
    ensures var before, after := Stacks(parsed, |parsed|), Stacks(parsed + [x], |parsed| + 1);
      && |after| <= |before| + 1
      && TextLength(after) + (1 - (|after| - |before|)) <= TextLength(before) + length + 1
  {
    StacksSnoc(parsed, x);
    if x.Some? { TextLengthSnoc(Stacks(parsed, |parsed|), x.value); }
  }

  /** Each line that gives no stack leaves at least one byte unused. */
  lemma {:induction false} ParsedLength(lines: seq<Bytes>, ty: CountType)
    ensures var parsed := Stacks(ParseLines(lines, ty), |lines|);
      |parsed| <= |lines| && TextLength(parsed) + (|lines| - |parsed|) <= LinesLength(lines)
  {
    if lines != [] {
      var init, last := lines[..|lines| - 1], lines[|lines| - 1];
      ParsedLength(init, ty);
      var x := ParseLine(last, ty);
      if x.Some? { ParsedShorter(last, ty); }
      LengthStep(ParseLines(init, ty), x, |last|);
    }
  }

  lemma {:induction false} LinesLengthCons(line: Bytes, lines: seq<Bytes>)
    ensures LinesLength([line] + lines) == |line| + 1 + LinesLength(lines)
  {
    if lines != [] {
      LinesLengthCons(line, lines[..|lines| - 1]);
      assert ([line] + lines)[..|lines|] == [line] + lines[..|lines| - 1];
    } else {
      assert [line] + [] == [line] && [line][..0] == [];
    }
  }

  lemma {:induction false} SplitLength(s: Bytes)
    ensures LinesLength(Split(s, NL)) == |s| + 1 && |Split(s, NL)| == Newlines(s) + 1
  {
    var lines := Split(s, NL);
    if s == [] {
      LinesLengthCons([], []);
      assert [[]] + [] == lines;
    } else {
      SplitLength(s[1..]);
      var rest := Split(s[1..], NL);
      if s[0] == NL {
        LinesLengthCons([], rest);
      } else {
        LinesLengthCons(rest[0], rest[1..]);
        LinesLengthCons([s[0]] + rest[0], rest[1..]);
        assert rest == [rest[0]] + rest[1..];
      }
    }
  }

  lemma {:induction false} TextLengthCons(s: Stack, stacks: seq<Stack>)
    ensures TextLength([s] + stacks) == LineLength(s) + TextLength(stacks)
  {
    if stacks != [] {
      TextLengthCons(s, stacks[..|stacks| - 1]);
      assert ([s] + stacks)[..|stacks|] == [s] + stacks[..|stacks| - 1];
    } else {
      assert [s] + [] == [s] && [s][..0] == [];
    }
  }

  lemma {:induction false} NewlinesAppend(a: Bytes, b: Bytes)
    ensures Newlines(a + b) == Newlines(a) + Newlines(b)
  {
    if a == [] {
      assert a + b == b;
    } else {
      NewlinesAppend(a[1..], b);
      assert (a + b)[1..] == a[1..] + b;
    }
  }

  lemma {:induction false} NoNewlines(s: Bytes)
    ensures Newlines(s) == 0 <==> NL !in s
  {
    if s != [] {
      NoNewlines(s[1..]);
      assert s == [s[0]] + s[1..];
    }
  }

  /** The text has a newline for each stack, and more where a line has one itself. */
  lemma {:induction false} RenderNewlines(stacks: seq<Stack>)
    requires Countable(stacks)
    ensures |Render(stacks)| == TextLength(stacks) && Newlines(Render(stacks)) >= |stacks|
    ensures Newlines(Render(stacks)) == |stacks| ==> OneLineEach(stacks)
  {
    if stacks != [] {
      var line, rest := RenderLine(stacks[0]), stacks[1..];
      RenderNewlines(rest);
      TextLengthCons(stacks[0], rest);
      assert stacks == [stacks[0]] + rest;
      NewlinesAppend(line, [NL]);
      NewlinesAppend(line + [NL], Render(rest));
      assert Newlines([NL]) == 1;
      NoNewlines(line);
    }
  }

  lemma {:induction false} AllParsed(lines: seq<Option<Stack>>, k: nat)
    requires k <= |lines| && |Stacks(lines, k)| == k
    ensures forall i :: 0 <= i < k ==> lines[i] == Some(Stacks(lines, k)[i])
  {
    if k > 0 {
      StacksFew(lines, k - 1);
      AllParsed(lines, k - 1);
    }
  }

  lemma {:induction false} StacksFew(lines: seq<Option<Stack>>, k: nat)
    requires k <= |lines|
    ensures |Stacks(lines, k)| <= k
  {
    if k > 0 { StacksFew(lines, k - 1); }
  }

  lemma {:induction false} FramesClean(frames: seq<Bytes>, c: Byte)
    requires c !in Join(frames, SEMI)
    ensures forall f :: f in frames ==> c !in f
  {
    if |frames| > 1 {
      FramesClean(frames[1..], c);
      assert frames == [frames[0]] + frames[1..];
    }
  }

  /** If a text parses to the stacks it renders, none of its lines was lost or split. */
  lemma {:induction false} ParsesOneLineEach(stacks: seq<Stack>, ty: CountType)
    requires Countable(stacks) && Parse(Render(stacks), ty) == stacks
    ensures OneLineEach(stacks)
  {
    var text := Render(stacks);
    ParsedLength(Split(text, NL), ty);
    SplitLength(text);
    RenderNewlines(stacks);
  }

  lemma {:induction false} ParsesIsPrintable(stacks: seq<Stack>, ty: CountType)
    requires forall i :: 0 <= i < |stacks| ==> WellFormed(stacks[i], ty) && stacks[i].count >= 0
    requires Parse(Render(stacks), ty) == stacks
    ensures AllPrintable(stacks, ty)
  {
    ParsesOneLineEach(stacks, ty);
    RenderSplits(stacks);
    var lines, n := Lines(Render(stacks)), |stacks|;
    var parsed := ParseLines(lines, ty);
    ParseLinesAt(lines, ty, n);
    assert ParseLine([], ty) == None;
    AllParsed(parsed, n);
    forall i | 0 <= i < n ensures StackPrintable(stacks[i], ty) {
      ParseLinesAt(lines, ty, i);
      LineRoundTrip(stacks[i], ty);
      assert NL !in RenderLine(stacks[i]);
      FramesClean(stacks[i].frames, NL);
    }
  }

  /** What the profiler writes is what the diagnostics parse, the same stacks in the same
      order with the same counts, exactly when every stack can be written. */
  lemma {:induction false} FoldedRoundTrip(stacks: seq<Stack>, ty: CountType)
    requires forall i :: 0 <= i < |stacks| ==> WellFormed(stacks[i], ty) && stacks[i].count >= 0
    ensures Parse(Render(stacks), ty) == stacks <==> AllPrintable(stacks, ty)
  {
    if AllPrintable(stacks, ty) {
      PrintableParses(stacks, ty);
    } else if Parse(Render(stacks), ty) == stacks {
      ParsesIsPrintable(stacks, ty);
    }
  }
}
