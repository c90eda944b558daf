/**
 `_write_c_args` of scripts/make_docfile.py: the `(fn ARG ...)` usage line of a
 `DEFUN`, made from its C parameter list.
 */
module DocArgs {
  import opened Text
  import opened DocStream

  const OPEN: Byte := 0x28
  const CLOSE: Byte := 0x29
  /** `(fn` */
  const FN: Bytes := [0x28, 0x66, 0x6E]
  /** `void` */
  const VOID: Bytes := [0x76, 0x6F, 0x69, 0x64]
  /** `defalt` */
  const DEFALT: Bytes := [0x64, 0x65, 0x66, 0x61, 0x6C, 0x74]
  /** `DEFAULT` */
  const DEFAULT: Bytes := [0x44, 0x45, 0x46, 0x41, 0x55, 0x4C, 0x54]
  /** `&optional ` */
  const OPTIONAL: Bytes := [0x26, 0x6F, 0x70, 0x74, 0x69, 0x6F, 0x6E, 0x61, 0x6C, 0x20]

  predicate InIdent(c: Byte) { IsAlnum(c) || c == 0x5F }

  /** A comma or a closing parenthesis ends a parameter. */
  predicate EndsParameter(c: Byte) { c == 0x2C || c == CLOSE }

  function Depth(s: Bytes): int
  {
    if s == [] then 0
    else
      var c := s[|s| - 1];
      Depth(s[..|s| - 1]) + (if c == OPEN then 1 else 0) - (if c == CLOSE then 1 else 0)
  }

  /** A parenthesis up to the one that matches it. */
  ghost predicate Balanced(s: Bytes)
  {
    s != [] && s[0] == OPEN && Depth(s) == 0 && forall k :: 0 < k < |s| ==> Depth(s[..k]) > 0
  }

  /** A parenthesis that is still open. */
  ghost predicate Unclosed(s: Bytes)
  {
    s != [] ==> s[0] == OPEN && forall k :: 0 < k <= |s| ==> Depth(s[..k]) > 0
  }

  lemma {:induction false} UnclosedStep(s: Bytes, c: Byte)
    requires Unclosed(s) && (s == [] ==> c == OPEN)
    ensures Depth(s + [c]) == Depth(s) + (if c == OPEN then 1 else 0) - (if c == CLOSE then 1 else 0)
    ensures if c == CLOSE && Depth(s + [c]) == 0 then Balanced(s + [c]) else Unclosed(s + [c])
  {
    var r := s + [c];
    assert r[..|s|] == s && r[..|r|] == r && s[..|s|] == s;
    forall k | 0 < k < |r| ensures Depth(r[..k]) > 0 { assert r[..k] == s[..k]; }
    assert s == [] ==> Depth(s) == 0;
  }

  // ------------------------------------------------------ the parameter names

  /** Where the identifier that ends at `p` starts; `p` if there is none. */
  function IdentStart(buf: Bytes, p: nat): (r: nat)
    requires p <= |buf|
    ensures r <= p
  {
    if p > 0 && InIdent(buf[p - 1]) then IdentStart(buf, p - 1) else p
  }

  /** The last identifier of the parameter that is open at `p`: its name, after the
      words of its type. */
  function LastIdent(buf: Bytes, p: nat): Bytes
    requires p <= |buf|
  {
    if p == 0 || EndsParameter(buf[p - 1]) then []
    else if InIdent(buf[p - 1]) then buf[IdentStart(buf, p)..p]
    else LastIdent(buf, p - 1)
  }

  /** The names of the parameters that end before `p`, without a lone `void`. */
  function ParameterNames(buf: Bytes, p: nat): seq<Bytes>
    requires p <= |buf|
  {
    if p == 0 then []
    else
      var before, name := ParameterNames(buf, p - 1), LastIdent(buf, p - 1);
      if EndsParameter(buf[p - 1]) && name != [] && name != VOID then before + [name] else before
  }

  // ------------------------------------------------------------ the usage line

  function Upper(c: Byte): Byte
  {
    if 0x61 <= c <= 0x7A then c - 32 else if c == 0x5F then 0x2D else c
  }

  /** The Lisp spelling of a C name. */
  function Shown(name: Bytes): Bytes
  {
    if name == DEFALT then DEFAULT else seq(|name|, i requires 0 <= i < |name| => Upper(name[i]))
  }

  /** The `i`-th name after a space; `&optional` before the first that may be left
      out. */
  function Argument(name: Bytes, i: int, min: int, max: int): Bytes
  {
    [0x20] + (if min == i && max > i then OPTIONAL else []) + Shown(name)
  }

  /** `(fn` and the arguments. */
  function Usage(names: seq<Bytes>, min: int, max: int): Bytes
  {
    if names == [] then FN
    else
      var i := |names| - 1;
      Usage(names[..i], min, max) + Argument(names[i], i, min, max)
  }

  /** The usage line for a parameter list, its opening parenthesis included or not. */
  function UsageOf(args: Bytes, min: int, max: int): Bytes
  {
    var buf := if args != [] && args[0] == OPEN then args[1..] else args;
    Usage(ParameterNames(buf, |buf|), min, max) + [CLOSE]
  }

  /** What `ident_start` and `ident_length` know about the open parameter. A `void`
      that was passed over stays there. */
  ghost predicate Remembers(buf: Bytes, p: nat, start: nat, length: int)
    requires p <= |buf|
  {
    && 0 <= length && start + length <= p
    && (length == 0 ==> LastIdent(buf, p) == [])
    && (length > 0 ==>
          || LastIdent(buf, p) == buf[start..start + length]
          || (LastIdent(buf, p) == [] && buf[start..start + length] == VOID))
  }

  /** The text that one name adds. */
  method WriteArgument(ident: Bytes, minargs: int, maxargs: int, ghost i: int) returns (r: Bytes)
    ensures r == Argument(ident, i, minargs + i, maxargs + i)
  {
    r := [0x20];
    if minargs == 0 && maxargs > 0 { r := r + OPTIONAL; }
    r := r + Shown(ident);
  }

  method AppendArgument(out: Bytes, ident: Bytes, minargs: int, maxargs: int,
                        ghost names: seq<Bytes>, ghost min: int, ghost max: int)
    returns (r: Bytes)
    requires minargs + |names| == min && maxargs + |names| == max && out == Usage(names, min, max)
    ensures r == Usage(names + [ident], min, max)
  {
    var argument := WriteArgument(ident, minargs, maxargs, |names|);
    assert (names + [ident])[..|names|] == names;
    r := out + argument;
  }

  ghost predicate Knows(buf: Bytes, p: nat, inIdent: bool, start: nat, length: int)
    requires p <= |buf|
  {
    && (inIdent <==> p > 0 && InIdent(buf[p - 1]))
    && if inIdent then start == IdentStart(buf, p) else Remembers(buf, p, start, length)
  }

  /** Entering or leaving an identifier at character `p`. */
  method Track(buf: Bytes, p: nat, inIdent: bool, start: nat, length: int)
    returns (inIdent': bool, start': nat, length': int)
    requires p < |buf| && Knows(buf, p, inIdent, start, length)
    ensures if EndsParameter(buf[p]) then !inIdent' && Remembers(buf, p, start', length')
            else Knows(buf, p + 1, inIdent', start', length')
  {
    inIdent', start', length' := inIdent, start, length;
    if InIdent(buf[p]) != inIdent {
      if !inIdent {
        inIdent', start' := true, p;
      } else {
        inIdent', length' := false, p - start;
      }
    }
  }

  /** At the end of a parameter: its name, unless it has none or is `void`. */
  method ParameterName(buf: Bytes, p: nat, start: nat, length: int) returns (name: Option<Bytes>)
    requires p < |buf| && EndsParameter(buf[p]) && Remembers(buf, p, start, length)
    ensures name.None? ==>
      ParameterNames(buf, p + 1) == ParameterNames(buf, p) && Knows(buf, p + 1, false, start, length)
    ensures name.Some? ==>
      ParameterNames(buf, p + 1) == ParameterNames(buf, p) + [name.value] && Knows(buf, p + 1, false, start, 0)
  {
    if length == 0 { return None; }
    var ident := buf[start..start + length];
    if ident == VOID { return None; }
    return Some(ident);
  }

  /** One character of the list: the state afterwards, and a name if one ends here. */
  method Advance(buf: Bytes, p: nat, inIdent: bool, start: nat, length: int)
    returns (inIdent': bool, start': nat, length': int, name: Option<Bytes>)
    requires p < |buf| && Knows(buf, p, inIdent, start, length)
    ensures Knows(buf, p + 1, inIdent', start', length')
    ensures name.None? ==> ParameterNames(buf, p + 1) == ParameterNames(buf, p)
    ensures name.Some? ==> ParameterNames(buf, p + 1) == ParameterNames(buf, p) + [name.value]
  {
    inIdent', start', length' := Track(buf, p, inIdent, start, length);
    name := None;
    if EndsParameter(buf[p]) {
      name := ParameterName(buf, p, start', length');
      if name.Some? { length' := 0; }
    }
  }

  /** The loop over the parameter list. */
  method WriteNames(buf: Bytes, min: int, max: int) returns (out: Bytes)
    ensures out == Usage(ParameterNames(buf, |buf|), min, max)
  {
    var minargs, maxargs := min, max;
    var inIdent, identStart, identLength := false, 0, 0;
    out := FN;
    for p := 0 to |buf|
      invariant out == Usage(ParameterNames(buf, p), min, max)
      invariant minargs + |ParameterNames(buf, p)| == min && maxargs + |ParameterNames(buf, p)| == max
      invariant identStart >= 0 && Knows(buf, p, inIdent, identStart, identLength)
    {
      var name;
      inIdent, identStart, identLength, name := Advance(buf, p, inIdent, identStart, identLength);
      if name.Some? {
        out := AppendArgument(out, name.value, minargs, maxargs, ParameterNames(buf, p), min, max);
        minargs, maxargs := minargs - 1, maxargs - 1;
      }
    }
  }

  method WriteCArgs(args: Bytes, min: int, max: int) returns (out: Bytes)
    ensures out == UsageOf(args, min, max)
  {
    var buf := if args != [] && args[0] == OPEN then args[1..] else args;
    out := WriteNames(buf, min, max);
    out := out + [CLOSE];
  }
}
