/**
 The character stream of scripts/make_docfile.py: a byte cursor with pushback
 and `fscanf ("%d")`. Every operation refines a plain cursor over the data.
 */
module DocStream {
  import opened Text

  const EOF: int := -1
  const NL: Byte := 0x0A
  const CR: Byte := 0x0D
  const SPACE: Byte := 0x20

  /** `c_isspace` in the C locale. */
  predicate IsSpace(c: int) { c == 0x20 || 0x09 <= c <= 0x0D }

  predicate IsAlpha(c: int) { 0x41 <= c <= 0x5A || 0x61 <= c <= 0x7A }

  predicate IsAlnum(c: int) { IsAlpha(c) || IsDigit(c) }

  /** What reading at index `i` answers. */
  function At(data: Bytes, i: nat): int { if i < |data| then data[i] else EOF }

  /** First index at or after `i` that does not hold whitespace. */
  function SkipSpaces(data: Bytes, i: nat): (r: nat)
    ensures r >= i && !IsSpace(At(data, r)) && (i <= |data| ==> r <= |data|)
    decreases |data| - i
  {
    if i < |data| && IsSpace(data[i]) then SkipSpaces(data, i + 1) else i
  }

  function SkipDigits(data: Bytes, i: nat): (r: nat)
    ensures r >= i && (i <= |data| ==> r <= |data|)
    decreases |data| - i
  {
    if i < |data| && IsDigit(data[i]) then SkipDigits(data, i + 1) else i
  }

  /** The number spelled by the digits from `a` up to `b`. */
  function Numeral(data: Bytes, a: nat, b: nat): int
    decreases b
  {
    if b <= a then 0 else 10 * Numeral(data, a, b - 1) + (At(data, b - 1) - 48)
  }

  /** `%d` at `i`: the value and the index after it, or nothing consumed. */
  function ScanInt(data: Bytes, i: nat): (r: (Option<int>, nat))
    ensures r.1 >= i && (i <= |data| ==> r.1 <= |data|)
    ensures r.0.None? ==> r.1 == i
  {
    var s := SkipSpaces(data, i);
    var signed := At(data, s) == 0x2B || At(data, s) == 0x2D;
    var first := if signed then s + 1 else s;
    var end := SkipDigits(data, first);
    if end == first then (None, i)
    else
      var v := Numeral(data, first, end);
      (Some(if At(data, s) == 0x2D then -v else v), end)
  }

  class Stream {
    const data: Bytes
    var pos: nat
    var pushback: seq<Byte>

    /** At most one byte is pushed back, and it is the byte before `pos`. */
    ghost predicate Valid()
      reads this
    {
      && |pushback| <= 1
      && (pushback != [] ==> 1 <= pos <= |data| && pushback[0] == data[pos - 1])
    }

    /** The plain cursor this stream refines. */
    ghost function Cursor(): nat
      requires Valid()
      reads this
    {
      pos - |pushback|
    }

    constructor (data: Bytes)
      ensures Valid() && Cursor() == 0 && this.data == data
    {
      this.data := data;
      pos := 0;
      pushback := [];
    }

    method Getc() returns (c: int)
      requires Valid()
      modifies this
      ensures Valid() && pushback == [] && Cursor() == old(Cursor()) + 1
      ensures c == At(data, old(Cursor()))
    {
      if pushback != [] {
        c := pushback[|pushback| - 1];
        pushback := pushback[..|pushback| - 1];
        return;
      }
      if pos >= |data| {
        pos := pos + 1;
        return EOF;
      }
      c := data[pos];
      pos := pos + 1;
    }

    /** Pushing back the byte just read moves the cursor back over it. */
    method Ungetc(c: int)
      requires EOF <= c < 256
      modifies this`pushback
      ensures pushback == old(pushback) + (if c == EOF then [] else [c])
      ensures old(Valid()) && c == EOF ==> Valid() && Cursor() == old(Cursor())
      ensures old(Valid()) && old(pushback) == [] && 0 < pos <= |data| && data[pos - 1] == c ==>
        Valid() && Cursor() == old(Cursor()) - 1
    {
      if c != EOF {
        pushback := pushback + [c];
      }
    }

    /** A pushed-back byte is part of the field about to be read. */
    method DropPushback()
      requires Valid()
      modifies this
      ensures pushback == [] && pos == old(Cursor())
    {
      while pushback != []
        invariant |pushback| <= pos && pos - |pushback| == old(Cursor())
        decreases |pushback|
      {
        pos := pos - 1;
        pushback := pushback[..|pushback| - 1];
      }
    }

    method SkipBlanks()
      modifies this`pos
      ensures pos == SkipSpaces(data, old(pos))
    {
      while pos < |data| && IsSpace(data[pos])
        invariant SkipSpaces(data, pos) == SkipSpaces(data, old(pos))
      {
        pos := pos + 1;
      }
    }

    method SkipNumeral()
      modifies this`pos
      ensures pos == SkipDigits(data, old(pos))
    {
      while pos < |data| && IsDigit(data[pos])
        invariant SkipDigits(data, pos) == SkipDigits(data, old(pos))
      {
        pos := pos + 1;
      }
    }

    method ScanfInt() returns (r: Option<int>)
      requires Valid()
      modifies this
      ensures Valid()
      ensures (r, Cursor()) == ScanInt(data, old(Cursor()))
    {
      DropPushback();
      var start := pos;
      SkipBlanks();
      var sign := 1;
      if pos < |data| && (data[pos] == 0x2B || data[pos] == 0x2D) {
        sign := if data[pos] == 0x2D then -1 else 1;
        pos := pos + 1;
      }
      var digits := pos;
      SkipNumeral();
      if pos == digits {
        pos := start;
        return None;
      }
      var value := Numeral(data, digits, pos);
      r := Some(if sign == 1 then value else -value);
    }

    method AtEof() returns (eof: bool)
      requires Valid()
      ensures eof <==> Cursor() > |data|
    {
      eof := pos > |data| && pushback == [];
    }
  }
}
