/**
 All heads of a file, in order, and what `scan_c_file` makes of them. Scanning goes
 line by line; a head takes everything up to its end with it.
 */
module DocLog {
  import opened Text
  import opened DocStream
  import opened DocText
  import opened DocMachine
  import opened DocRead
  import opened DocArgs
  import opened DocHeads

  // ------------------------------------------------------------------ where heads end

  lemma {:induction false} ReadEnds(data: Bytes, i: nat, comment: bool, m: Machine, seen: bool)
    requires i <= |data| && m.held < |USAGE|
    ensures i <= Read(data, i, comment, m, seen).end <= |data|
    decreases |data| - i
  {
    match NextToken(data, i, comment)
    case End(_, _, _, _) =>
    case Join(next) => ReadEnds(data, next, comment, m, seen);
    case Char(c, next) =>
      if !Completes(m, c) {
        ReadEnds(data, next, comment, Feed(m, c), seen);
      } else if UsageJump(data, next).Some? {
        ReadEnds(data, UsageJump(data, next).value, comment, AfterUsage(m), true);
      }
  }

  lemma {:induction false} ReadBodyEnds(data: Bytes, start: nat, comment: bool, sink: bool, keyword: bool)
    requires start <= |data|
    ensures start <= ReadBody(data, start, comment, sink, keyword).end <= |data|
  {
    var i := BodyStart(data, start, comment);
    if i < |data| { ReadEnds(data, i, comment, Start(sink, keyword), false); }
  }

  lemma {:induction false} OpeningBounds(data: Bytes, p: nat)
    requires p <= |data|
    ensures p <= OpeningAt(data, p).at <= |data|
  {
    var i := SkipSpaces(data, p);
    if At(data, i) == QUOTE { ReadBodyEnds(data, i + 1, false, false, false); }
  }

  lemma {:induction false} DocFateEnds(data: Bytes, h: Head, name: Bytes, o: Opening, a: Arity)
    requires o.at < |data|
    ensures o.at < DocFate(data, h, name, o, a).end <= |data|
  {
    ReadBodyEnds(data, o.at + 1, o.comment, true, true);
  }

  lemma {:induction false} OpeningFateEnds(data: Bytes, h: Head, name: Bytes, q: nat, a: Arity)
    requires q <= |data|
    ensures q <= OpeningFate(data, h, name, q, a).end <= |data|
  {
    OpeningBounds(data, q);
    var o := OpeningAt(data, q);
    if o.Opens(data) { DocFateEnds(data, h, name, o, a); }
  }

  lemma {:induction false} NamedFateEnds(data: Bytes, h: Head, name: Bytes, p: nat, a: Arity)
    requires p <= |data|
    ensures p <= NamedFate(data, h, name, p, a).end <= |data|
  {
    var (q, b) := AfterCommas(data, p, h.Commas(), h.defun, a);
    if q.Some? { OpeningFateEnds(data, h, name, q.value, b); }
  }

  lemma {:induction false} LiteralFateEnds(data: Bytes, h: Head, i: nat, a: Arity)
    requires i < |data|
    ensures i < LiteralFate(data, h, i, a).end <= |data|
  {
    var name := ReadBody(data, i + 1, false, true, false);
    ReadBodyEnds(data, i + 1, false, true, false);
    NamedFateEnds(data, h, name.text, name.end, a);
  }

  lemma {:induction false} ParenFateEnds(data: Bytes, h: Head, open: nat, a: Arity)
    requires open < |data|
    ensures open < ParenFate(data, h, open, a).end <= |data|
  {
    if At(data, open + 1) == QUOTE { LiteralFateEnds(data, h, open + 1, a); }
  }

  /** A head that the file does not end ends after it begins. */
  lemma {:induction false} HeadFateEnds(data: Bytes, h: Head, a: Arity)
    requires h.offset > 0
    ensures HeadFate(data, h, a).end <= |data|
    ensures !HeadFate(data, h, a).outcome.Unfinished? ==> h.offset <= HeadFate(data, h, a).end
  {
    var open := Find(data, h.offset - 1, OPEN);
    if open < |data| { ParenFateEnds(data, h, open, a); }
  }

  // ----------------------------------------------------------------- parameter lists

  /** A balanced stretch from `b` ends at `m`. */
  ghost predicate BalancedTo(data: Bytes, b: nat, m: nat) { b <= m < |data| && Balanced(data[b..m + 1]) }

  lemma {:induction false} MatchingFrom(data: Bytes, b: nat, j: nat, s: Bytes)
    requires b < |data| && data[b] == OPEN && b <= j <= |data| && s == data[b..j] && Unclosed(s)
    ensures match Matching(data, j, Depth(s))
      case Some(m) => j <= m && BalancedTo(data, b, m)
      case None => forall m :: j <= m ==> !BalancedTo(data, b, m)
    decreases |data| - j
  {
    if j < |data| {
      var longer := s + [data[j]];
      UnclosedStep(s, data[j]);
      assert longer == data[b..j + 1];
      if data[j] != CLOSE || Depth(longer) != 0 {
        StillOpen(longer);
        MatchingFrom(data, b, j + 1, longer);
      }
    }
  }

  lemma {:induction false} StillOpen(s: Bytes)
    requires s != [] && Unclosed(s)
    ensures !Balanced(s)
  {
    assert s[..|s|] == s;
  }

  lemma {:induction false} BalancedOnce(data: Bytes, b: nat, m: nat, n: nat)
    requires m <= n && BalancedTo(data, b, m) && BalancedTo(data, b, n)
    ensures m == n
  {
    assert data[b..n + 1][..m + 1 - b] == data[b..m + 1];
  }

  /** The matching parenthesis is the one that closes the first balanced stretch. */
  lemma {:induction false} MatchingIsBalanced(data: Bytes, b: nat, m: nat)
    requires b < |data| && data[b] == OPEN
    ensures Matching(data, b, 0) == Some(m) <==> BalancedTo(data, b, m)
  {
    assert data[b..b] == [];
    MatchingFrom(data, b, b, []);
    assert Depth([]) == 0;
    var r := Matching(data, b, 0);
    if BalancedTo(data, b, m) {
      if r.value <= m { BalancedOnce(data, b, r.value, m); } else { BalancedOnce(data, b, m, r.value); }
    }
  }

  // ------------------------------------------------------------------------- the log

  /** The head on the line that starts at `line`, and what became of it. */
  datatype Entry = Entry(line: nat, head: Head, fate: Fate)

  predicate Final(o: Outcome) { o.Unfinished? || o.Raised? }

  predicate HeadStarts(data: Bytes, line: nat) { LineStart(data, line) && HeadOn(data, line).Some? }

  function EntryOn(data: Bytes, line: nat, a: Arity): Entry
    requires HeadStarts(data, line)
  {
    var h := HeadOn(data, line).value;
    Entry(line, h, HeadFate(data, h, a))
  }

  /** The heads from index `i` on. */
  function Log(data: Bytes, i: nat, a: Arity): seq<Entry>
    decreases |data| + 1 - i
  {
    if i > |data| then []
    else if !HeadStarts(data, i) then Log(data, i + 1, a)
    else
      var e := EntryOn(data, i, a);
      HeadFateEnds(data, e.head, a);
      if Final(e.fate.outcome) then [e] else [e] + Log(data, e.fate.end + 1, e.fate.arity)
  }

  function Records(log: seq<Entry>): seq<Record>
  {
    if log == [] then []
    else
      var before, o := Records(log[..|log| - 1]), log[|log| - 1].fate.outcome;
      if o.Documented? then before + [o.record] else before
  }

  function WithoutDoc(log: seq<Entry>): seq<(Bytes, nat)>
  {
    if log == [] then []
    else
      var before, e := WithoutDoc(log[..|log| - 1]), log[|log| - 1];
      if e.fate.outcome.Bare? then before + [(e.fate.outcome.name, e.head.offset)] else before
  }

  /** The record under way when the file ended. */
  function Cut(log: seq<Entry>): Option<Record>
  {
    if log != [] && log[|log| - 1].fate.outcome.Unfinished? then log[|log| - 1].fate.outcome.cut else None
  }

  /** What `scan_c_file` returns: the two outputs, and the heads without one. */
  datatype ScanResult = ScanResult(records: seq<Record>, headsWithoutDoc: seq<(Bytes, nat)>, docStream: Bytes)

  function Written(records: seq<Record>, cut: Option<Record>, header: Bytes): Bytes
  {
    header + RenderAll(records) + (if cut.Some? then Render(cut.value) else [])
  }

  function FileLog(data: Bytes): seq<Entry> { Log(data, 0, Arity(-1, -1)) }

  /** `None` where reading raises. */
  function ScanFile(path: Bytes, data: Bytes, emit: bool): Option<ScanResult>
  {
    var log := FileLog(data);
    if log != [] && log[|log| - 1].fate.outcome.Raised? then None
    else
      var records := Records(log);
      Some(ScanResult(records, WithoutDoc(log), Written(records, Cut(log), Header(path, emit))))
  }

  // -------------------------------------------------------------------- laws of the log

  /** The first entry of a log, and what follows it. */
  lemma {:induction false} LogCons(data: Bytes, i: nat, a: Arity) returns (e: Entry, rest: seq<Entry>)
    requires i <= |data| && HeadStarts(data, i)
    ensures e.line == i && HeadOn(data, i) == Some(e.head) && e.fate == HeadFate(data, e.head, a)
    ensures Log(data, i, a) == [e] + rest && e.fate.end <= |data|
    ensures if Final(e.fate.outcome) then rest == []
            else i < e.fate.end && rest == Log(data, e.fate.end + 1, e.fate.arity)
    ensures e.fate.outcome.Unfinished? ==> e.fate.end == |data|
  {
    e := EntryOn(data, i, a);
    HeadFateEnds(data, e.head, a);
    UnfinishedEnds(data, e.head, a);
    rest := Log(data, i, a)[1..];
  }

  predicate EntryFits(data: Bytes, e: Entry)
  {
    HeadStarts(data, e.line) && HeadOn(data, e.line) == Some(e.head) && e.line <= |data|
  }

  /** Every entry is the head on its line and ends before the next one starts; only the
      last one can be cut off. */
  ghost predicate InOrder(data: Bytes, log: seq<Entry>, i: nat)
  {
    log != [] ==>
      && i <= log[0].line && EntryFits(data, log[0])
      && (if Final(log[0].fate.outcome) then |log| == 1
          else log[0].line < log[0].fate.end && InOrder(data, log[1..], log[0].fate.end + 1))
  }

  lemma {:induction false} LogInOrder(data: Bytes, i: nat, a: Arity)
    ensures InOrder(data, Log(data, i, a), i)
    decreases |data| + 1 - i
  {
    hide HeadFate, HeadOn;
    if i <= |data| {
      if !HeadStarts(data, i) {
        LogInOrder(data, i + 1, a);
        SkipsTo(data, Log(data, i, a), i);
      } else {
        var e, rest := LogCons(data, i, a);
        if !Final(e.fate.outcome) { LogInOrder(data, e.fate.end + 1, e.fate.arity); }
        ConsInOrder(data, e, rest, i);
      }
    }
  }

  lemma {:induction false} ConsInOrder(data: Bytes, e: Entry, rest: seq<Entry>, i: nat)
    requires i <= e.line && EntryFits(data, e)
    requires if Final(e.fate.outcome) then rest == [] else e.line < e.fate.end && InOrder(data, rest, e.fate.end + 1)
    ensures InOrder(data, [e] + rest, i)
  {
    assert ([e] + rest)[1..] == rest;
  }

  lemma {:induction false} SkipsTo(data: Bytes, log: seq<Entry>, i: nat)
    requires InOrder(data, log, i + 1)
    ensures InOrder(data, log, i)
  {
  }

  /** Line `line` carries a head of the log, or lies inside one, or behind one that
      raised. */
  ghost predicate Accounted(log: seq<Entry>, line: nat)
  {
    exists e :: e in log && e.line <= line && (line <= e.fate.end || e.fate.outcome.Raised?)
  }

  lemma {:induction false} AccountedLater(e: Entry, rest: seq<Entry>, line: nat)
    requires Accounted(rest, line)
    ensures Accounted([e] + rest, line)
  {
    var f :| f in rest && f.line <= line && (line <= f.fate.end || f.fate.outcome.Raised?);
    assert f in [e] + rest;
  }

  lemma {:induction false} AccountedNow(e: Entry, rest: seq<Entry>, line: nat)
    requires e.line <= line && (line <= e.fate.end || e.fate.outcome.Raised?)
    ensures Accounted([e] + rest, line)
  {
    assert e in [e] + rest;
  }

  /** No head is passed over. */
  lemma {:induction false} LogComplete(data: Bytes, i: nat, a: Arity, line: nat)
    requires i <= line && HeadStarts(data, line)
    ensures Accounted(Log(data, i, a), line)
    decreases |data| + 1 - i
  {
    HeadInside(data, line);
    if !HeadStarts(data, i) {
      LogComplete(data, i + 1, a, line);
    } else {
      var e, rest := LogCons(data, i, a);
      if Final(e.fate.outcome) || line <= e.fate.end {
        AccountedNow(e, rest, line);
      } else {
        LogComplete(data, e.fate.end + 1, e.fate.arity, line);
        AccountedLater(e, rest, line);
      }
    }
  }

  lemma {:induction false} HeadInside(data: Bytes, line: nat)
    requires HeadOn(data, line).Some?
    ensures line < |data|
  {
    assert WordAt(data, line, DEF) ==> At(data, line + 0) == DEF[0];
  }

  lemma {:induction false} UnfinishedEnds(data: Bytes, h: Head, a: Arity)
    requires h.offset > 0
    ensures HeadFate(data, h, a).outcome.Unfinished? ==> HeadFate(data, h, a).end == |data|
  {
  }
}
