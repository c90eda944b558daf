/**
 Brendan-Gregg folded stacks, `frameA;frameB;frameC <count>` per line, as
 crates/neomacs-diagnostics parses them. Text is its UTF-8 bytes.
 */
module Folded {
  import opened Text

  const NL: Byte := 10
  const SPACE: Byte := 32
  const SEMI: Byte := 59
  const PLUS: Byte := 43
  const MINUS: Byte := 45
  const TWO63: int := 0x8000_0000_0000_0000
  const TWO64: int := 0x1_0000_0000_0000_0000

  /** One parsed line: frames root-first, and its sample count. */
  datatype Stack = Stack(frames: seq<Bytes>, count: int)

  /** Which Rust integer type the count is parsed as. */
  datatype CountType = I64 | U64

  // --------------------------------------------------------------- whitespace

  /** The three-byte UTF-8 encodings of Unicode White_Space characters. */
  predicate WideSpace(a: Byte, b: Byte, c: Byte)
  {
    || (a == 0xE1 && b == 0x9A && c == 0x80)
    || (a == 0xE2 && b == 0x80 && (0x80 <= c <= 0x8A || c == 0xA8 || c == 0xA9 || c == 0xAF))
    || (a == 0xE2 && b == 0x81 && c == 0x9F)
    || (a == 0xE3 && b == 0x80 && c == 0x80)
  }

  /** Byte length of the whitespace character `s` starts with; 0 if none. */
  function WhiteHead(s: Bytes): (n: nat)
    ensures n <= |s|
  {
    if |s| >= 1 && (9 <= s[0] <= 13 || s[0] == SPACE) then 1
    else if |s| >= 2 && s[0] == 0xC2 && (s[1] == 0x85 || s[1] == 0xA0) then 2
    else if |s| >= 3 && WideSpace(s[0], s[1], s[2]) then 3
    else 0
  }

  /** Byte length of the whitespace character `s` ends with; 0 if none. */
  function WhiteTail(s: Bytes): (n: nat)
    ensures n <= |s|
  {
    var k := |s|;
    if k >= 1 && (9 <= s[k - 1] <= 13 || s[k - 1] == SPACE) then 1
    else if k >= 2 && s[k - 2] == 0xC2 && (s[k - 1] == 0x85 || s[k - 1] == 0xA0) then 2
    else if k >= 3 && WideSpace(s[k - 3], s[k - 2], s[k - 1]) then 3
    else 0
  }

  function TrimStart(s: Bytes): Bytes
    decreases |s|
  {
    if WhiteHead(s) == 0 then s else TrimStart(s[WhiteHead(s)..])
  }

  function TrimEnd(s: Bytes): Bytes
    decreases |s|
  {
    if WhiteTail(s) == 0 then s else TrimEnd(s[..|s| - WhiteTail(s)])
  }

  /** `str::trim`. */
  function Trim(s: Bytes): Bytes { TrimEnd(TrimStart(s)) }

  // ------------------------------------------------------------------ parsing

  /** `str::rsplit_once(sep)`: around the last separator. */
  function RSplitOnce(s: Bytes, sep: Byte): Option<(Bytes, Bytes)>
  {
    if s == [] then None
    else
      var init, last := s[..|s| - 1], s[|s| - 1];
      if last == sep then Some((init, []))
      else match RSplitOnce(init, sep)
        case None => None
        case Some(p) => Some((p.0, p.1 + [last]))
  }

  function DigitsValue(s: Bytes): Option<nat>
  {
    if s == [] || exists i :: 0 <= i < |s| && !IsDigit(s[i]) then None
    else Some(DecimalValue(s))
  }

  /** `str::parse::<i64>` and `str::parse::<u64>`: optional sign, digits, range. */
  function ParseCount(s: Bytes, ty: CountType): (r: Option<int>)
    ensures r.Some? && ty == I64 ==> -TWO63 <= r.value < TWO63
    ensures r.Some? && ty == U64 ==> 0 <= r.value < TWO64
  {
    if s == [] then None
    else
      var negative := s[0] == MINUS && ty == I64;
      match DigitsValue(if negative || s[0] == PLUS then s[1..] else s)
      case None => None
      case Some(v) =>
        var n: int := if negative then -(v as int) else v;
        var fits := if ty == I64 then -TWO63 <= n < TWO63 else n < TWO64;
        if fits then Some(n) else None
  }

  function NonEmpty(parts: seq<Bytes>): seq<Bytes>
  {
    if parts == [] then []
    else (if parts[0] == [] then [] else [parts[0]]) + NonEmpty(parts[1..])
  }

  predicate WellFormed(s: Stack, ty: CountType)
  {
    && s.frames != []
    && (if ty == I64 then -TWO63 <= s.count < TWO63 else 0 <= s.count < TWO64)
  }

  /** One line of folded text, or `None` where the parsers `continue`. */
  function ParseLine(line: Bytes, ty: CountType): (r: Option<Stack>)
    ensures r.Some? ==> WellFormed(r.value, ty)
  {
    match RSplitOnce(Trim(line), SPACE)
    case None => None
    case Some(p) =>
      match ParseCount(Trim(p.1), ty)
      case None => None
      case Some(count) =>
        var frames := NonEmpty(Split(p.0, SEMI));
        if frames == [] then None else Some(Stack(frames, count))
  }

  /** `str::lines`. The trailing carriage return and the empty last line that
      `lines` also drops are erased by `trim` and by the missing count. */
  function Lines(text: Bytes): seq<Bytes> { Split(text, NL) }

  /** Each line parsed on its own. */
  function ParseLines(lines: seq<Bytes>, ty: CountType): (r: seq<Option<Stack>>)
    ensures |r| == |lines|
    ensures forall i :: 0 <= i < |r| && r[i].Some? ==> WellFormed(r[i].value, ty)
  {
    if lines == [] then [] else ParseLines(lines[..|lines| - 1], ty) + [ParseLine(lines[|lines| - 1], ty)]
  }

  /** The stacks among the first `k` lines. */
  function Stacks(lines: seq<Option<Stack>>, k: nat): (r: seq<Stack>)
    requires k <= |lines|
  {
    if k == 0 then []
    else
      var init := Stacks(lines, k - 1);
      if lines[k - 1].None? then init else init + [lines[k - 1].value]
  }

  lemma {:induction false} StacksWellFormed(lines: seq<Option<Stack>>, k: nat, ty: CountType)
    requires k <= |lines|
    requires forall i :: 0 <= i < |lines| && lines[i].Some? ==> WellFormed(lines[i].value, ty)
    ensures forall i :: 0 <= i < |Stacks(lines, k)| ==> WellFormed(Stacks(lines, k)[i], ty)
  {
    if k > 0 { StacksWellFormed(lines, k - 1, ty); }
  }

  /** The stacks every folded consumer sees, in line order. */
  function Parse(text: Bytes, ty: CountType): (r: seq<Stack>)
    ensures forall i :: 0 <= i < |r| ==> WellFormed(r[i], ty)
  {
    var lines := ParseLines(Lines(text), ty);
    StacksWellFormed(lines, |lines|, ty);
    Stacks(lines, |lines|)
  }
}
