/**
 A C parameter list written out, and the usage line made of it.
 */
module DocUsage {
  import opened Text
  import opened DocStream
  import opened DocArgs
  import opened DocWrite

  // ---------------------------------------------------------------------- writing

  /** A parameter: the words of its type, its name, and what that is called in Lisp. */
  datatype Parameter = Parameter(words: Bytes, name: Bytes, lisp: Bytes)

  datatype Parameters = Void | Listed(ps: seq<Parameter>)

  /** The parameters from the `k`-th on, and the closing parenthesis. */
  function FromParameter(ps: seq<Parameter>, k: nat): Bytes
    requires k <= |ps|
    decreases |ps| - k
  {
    if k == |ps| then (if k == 0 then [0x29] else [])
    else ps[k].words + (ps[k].name + ([if k + 1 == |ps| then 0x29 else 0x2C] + FromParameter(ps, k + 1)))
  }

  /** `void)`, or the parameters. */
  function Inside(l: Parameters): Bytes
  {
    if l.Void? then [0x76, 0x6F, 0x69, 0x64, 0x29] else FromParameter(l.ps, 0)
  }

  function ListSource(l: Parameters): Bytes { [0x28] + Inside(l) }

  /** A letter of the name and of what it is called: capitals, and hyphens for
      underscores. */
  predicate CalledBy(c: Byte, l: Byte)
  {
    || (Letter(c) && 0x41 <= l <= 0x5A && (c == l || c == l + 32))
    || (Digit(c) && l == c) || (c == 0x5F && l == 0x2D)
  }

  /** `default` is reserved in C, so the name `defalt` is called `DEFAULT`; `void` is no
      name. */
  predicate Called(name: Bytes, lisp: Bytes)
  {
    if name == [0x64, 0x65, 0x66, 0x61, 0x6C, 0x74] then lisp == [0x44, 0x45, 0x46, 0x41, 0x55, 0x4C, 0x54]
    else
      && name != [] && name != [0x76, 0x6F, 0x69, 0x64] && |lisp| == |name|
      && forall i :: 0 <= i < |name| ==> CalledBy(name[i], lisp[i])
  }

  /** The words of a type end before the name, and hold no comma or parenthesis. */
  predicate TypeWords(words: Bytes)
  {
    && (forall i :: 0 <= i < |words| ==> words[i] != 0x28 && words[i] != 0x29 && words[i] != 0x2C)
    && (words != [] ==>
          var last := words[|words| - 1]; !Letter(last) && !Digit(last) && last != 0x5F)
  }

  predicate Listable(l: Parameters)
  {
    l.Listed? ==> forall k :: 0 <= k < |l.ps| ==> TypeWords(l.ps[k].words) && Called(l.ps[k].name, l.ps[k].lisp)
  }

  /** The usage line: every name after a space, and `&optional` before the first one
      that may be left out. */
  function Arguments(ps: seq<Parameter>, n: nat, min: int, max: int): Bytes
    requires n <= |ps|
  {
    if n == 0 then [0x28, 0x66, 0x6E]
    else
      var optional: Bytes :=
        if n - 1 == min && min < max then [0x26, 0x6F, 0x70, 0x74, 0x69, 0x6F, 0x6E, 0x61, 0x6C, 0x20] else [];
      Arguments(ps, n - 1, min, max) + ([0x20] + optional + ps[n - 1].lisp)
  }

  function LispUsage(l: Parameters, min: int, max: int): Bytes
  {
    (if l.Void? then [0x28, 0x66, 0x6E] else Arguments(l.ps, |l.ps|, min, max)) + [0x29]
  }

  // ------------------------------------------------------------------- names

  lemma {:induction false} LetterShown(c: Byte, l: Byte)
    requires CalledBy(c, l)
    ensures InIdent(c) && Upper(c) == l
  {
  }

  /** A name is an identifier, and is shown as what it is called. */
  lemma {:induction false} NameShown(name: Bytes, lisp: Bytes)
    requires Called(name, lisp)
    ensures Shown(name) == lisp && name != VOID && name != []
    ensures forall i :: 0 <= i < |name| ==> InIdent(name[i])
  {
    if name != DEFALT {
      forall i | 0 <= i < |name| ensures InIdent(name[i]) && Upper(name[i]) == lisp[i] {
        LetterShown(name[i], lisp[i]);
      }
    }
  }

  // ------------------------------------------------------------------- reading names

  lemma {:induction false} NoneEnds(buf: Bytes, p: nat, q: nat)
    requires p <= q <= |buf| && forall k :: p <= k < q ==> !EndsParameter(buf[k])
    ensures ParameterNames(buf, q) == ParameterNames(buf, p)
  {
    if p < q { NoneEnds(buf, p, q - 1); }
  }

  lemma {:induction false} WholeIdent(buf: Bytes, p: nat, q: nat)
    requires p <= q <= |buf| && (forall k :: p <= k < q ==> InIdent(buf[k])) && (p == 0 || !InIdent(buf[p - 1]))
    ensures IdentStart(buf, q) == p
  {
    if p < q { WholeIdent(buf, p, q - 1); }
  }

  /** One parameter adds its name. */
  lemma {:induction false} OneParameter(buf: Bytes, i: nat, p: nat, q: nat)
    requires i <= p < q < |buf| && EndsParameter(buf[q])
    requires (i == 0 || EndsParameter(buf[i - 1])) && (p == i || !InIdent(buf[p - 1]))
    requires forall k :: i <= k < p ==> !EndsParameter(buf[k])
    requires forall k :: p <= k < q ==> InIdent(buf[k])
    requires buf[p..q] != VOID
    ensures ParameterNames(buf, q + 1) == ParameterNames(buf, i) + [buf[p..q]]
  {
    NoneEnds(buf, i, q);
    WholeIdent(buf, p, q);
  }

  lemma {:induction false} ParameterParts(buf: Bytes, i: nat, words: Bytes, name: Bytes, sep: Byte, rest: Bytes, p: nat,
                                          q: nat)
    requires Has(buf, i, words + (name + ([sep] + rest))) && p == i + |words| && q == p + |name|
    ensures q < |buf| && buf[i..p] == words && buf[p..q] == name && buf[q] == sep && Has(buf, q + 1, rest)
  {
    HasParts(buf, i, words, name + ([sep] + rest));
    HasParts(buf, p, name, [sep] + rest);
    HasParts(buf, q, [sep], rest);
    HasAt(buf, q, [sep], 0);
  }

  lemma {:induction false} WrittenParameter(buf: Bytes, i: nat, words: Bytes, name: Bytes, sep: Byte, p: nat, q: nat)
    requires i <= p < q < |buf| && buf[i..p] == words && buf[p..q] == name && buf[q] == sep && EndsParameter(sep)
    requires TypeWords(words) && name != VOID && (forall k :: 0 <= k < |name| ==> InIdent(name[k]))
    requires i == 0 || EndsParameter(buf[i - 1])
    ensures ParameterNames(buf, q + 1) == ParameterNames(buf, i) + [name]
  {
    forall k | i <= k < p ensures buf[k] == words[k - i] { assert buf[i..p][k - i] == words[k - i]; }
    forall k | p <= k < q ensures InIdent(buf[k]) { assert buf[p..q][k - p] == name[k - p]; }
    OneParameter(buf, i, p, q);
  }

  function CNames(ps: seq<Parameter>, n: nat): seq<Bytes>
    requires n <= |ps|
  {
    if n == 0 then [] else CNames(ps, n - 1) + [ps[n - 1].name]
  }

  lemma {:induction false} WrittenStep(buf: Bytes, i: nat, words: Bytes, name: Bytes, lisp: Bytes, sep: Byte,
                                       rest: Bytes, q: nat)
    requires Has(buf, i, words + (name + ([sep] + rest))) && q == i + |words| + |name|
    requires TypeWords(words) && Called(name, lisp) && EndsParameter(sep) && (i == 0 || EndsParameter(buf[i - 1]))
    ensures q < |buf| && EndsParameter(buf[q]) && Has(buf, q + 1, rest)
    ensures ParameterNames(buf, q + 1) == ParameterNames(buf, i) + [name]
  {
    NameShown(name, lisp);
    ParameterParts(buf, i, words, name, sep, rest, i + |words|, q);
    WrittenParameter(buf, i, words, name, sep, i + |words|, q);
  }

  lemma {:induction false} WrittenNames(buf: Bytes, ps: seq<Parameter>, k: nat, i: nat)
    requires 0 < |ps| && k <= |ps| && Has(buf, i, FromParameter(ps, k)) && Listable(Listed(ps))
    requires (i == 0 || EndsParameter(buf[i - 1])) && i + |FromParameter(ps, k)| == |buf|
    requires ParameterNames(buf, i) == CNames(ps, k)
    ensures ParameterNames(buf, |buf|) == CNames(ps, |ps|)
    decreases |ps| - k
  {
    hide Listable, Called, TypeWords;
    if k < |ps| {
      var words, name, rest := ps[k].words, ps[k].name, FromParameter(ps, k + 1);
      var sep: Byte := if k + 1 == |ps| then 0x29 else 0x2C;
      var q := i + |words| + |name|;
      assert |FromParameter(ps, k)| == |words| + |name| + 1 + |rest|;
      ParameterAt(ps, k);
      WrittenStep(buf, i, words, name, ps[k].lisp, sep, rest, q);
      WrittenNames(buf, ps, k + 1, q + 1);
    }
  }

  // ----------------------------------------------------------------- the usage line

  lemma {:induction false} ParameterAt(ps: seq<Parameter>, k: nat)
    requires Listable(Listed(ps)) && k < |ps|
    ensures TypeWords(ps[k].words) && Called(ps[k].name, ps[k].lisp)
  {
  }

  lemma {:induction false} UsageStep(names: seq<Bytes>, name: Bytes, min: int, max: int)
    ensures Usage(names + [name], min, max) == Usage(names, min, max) + Argument(name, |names|, min, max)
  {
    hide Argument;
    assert (names + [name])[..|names|] == names;
  }

  lemma {:induction false} ArgumentsAreUsage(ps: seq<Parameter>, n: nat, min: int, max: int)
    requires n <= |ps| && Listable(Listed(ps))
    ensures |CNames(ps, n)| == n && Usage(CNames(ps, n), min, max) == Arguments(ps, n, min, max)
  {
    hide Listable, Called, TypeWords, Shown, Argument;
    if n > 0 {
      ArgumentsAreUsage(ps, n - 1, min, max);
      ParameterAt(ps, n - 1);
      NameShown(ps[n - 1].name, ps[n - 1].lisp);
      UsageStep(CNames(ps, n - 1), ps[n - 1].name, min, max);
      OneArgument(ps[n - 1].name, ps[n - 1].lisp, n - 1, min, max);
    }
  }

  lemma {:induction false} OneArgument(name: Bytes, lisp: Bytes, i: nat, min: int, max: int)
    requires Shown(name) == lisp
    ensures Argument(name, i, min, max) ==
      [0x20]
      + (if i == min && min < max then [0x26, 0x6F, 0x70, 0x74, 0x69, 0x6F, 0x6E, 0x61, 0x6C, 0x20] else [])
      + lisp
  {
  }

  lemma {:induction false} VoidNames(buf: Bytes)
    requires buf == VOID + [0x29]
    ensures ParameterNames(buf, 5) == []
  {
    assert VOID == [0x76, 0x6F, 0x69, 0x64];
    NoneEnds(buf, 0, 4);
    WholeIdent(buf, 0, 4);
    assert buf[0..4] == VOID;
  }

  lemma {:induction false} EmptyNames(buf: Bytes)
    requires buf == [0x29]
    ensures ParameterNames(buf, 1) == []
  {
    assert ParameterNames(buf, 0) == [] && LastIdent(buf, 0) == [];
  }

  lemma {:induction false} InsideNames(l: Parameters)
    requires Listable(l)
    ensures ParameterNames(Inside(l), |Inside(l)|) == if l.Void? then [] else CNames(l.ps, |l.ps|)
  {
    var buf := Inside(l);
    if l.Void? {
      VoidNames(buf);
    } else if l.ps == [] {
      EmptyNames(buf);
    } else {
      assert Has(buf, 0, FromParameter(l.ps, 0));
      WrittenNames(buf, l.ps, 0, 0);
    }
  }

  /** The usage line of a written parameter list gives what its names are called in
      Lisp, in order. */
  lemma {:induction false} UsageReadsBack(l: Parameters, min: int, max: int)
    requires Listable(l)
    ensures UsageOf(ListSource(l), min, max) == LispUsage(l, min, max)
  {
    InsideNames(l);
    assert ListSource(l)[1..] == Inside(l);
    if l.Listed? { ArgumentsAreUsage(l.ps, |l.ps|, min, max); }
    assert FN == [0x28, 0x66, 0x6E];
  }

  // -------------------------------------------------------------- no parentheses inside

  predicate NoParenthesis(s: Bytes) { forall j :: 0 <= j < |s| ==> s[j] != 0x28 && s[j] != 0x29 }

  /** The only parenthesis is the closing one at the end. */
  predicate Closes(s: Bytes) { s != [] && s[|s| - 1] == 0x29 && NoParenthesis(s[..|s| - 1]) }

  lemma {:induction false} ClosesAfter(before: Bytes, s: Bytes)
    requires NoParenthesis(before) && Closes(s)
    ensures Closes(before + s)
  {
    assert (before + s)[..|before + s| - 1] == before + s[..|s| - 1];
  }

  lemma {:induction false} NameNoParenthesis(name: Bytes, lisp: Bytes)
    requires Called(name, lisp)
    ensures NoParenthesis(name)
  {
    NameShown(name, lisp);
  }

  lemma {:induction false} ParameterCloses(p: Parameter, s: Bytes)
    requires TypeWords(p.words) && Called(p.name, p.lisp) && Closes(s)
    ensures Closes(p.words + (p.name + s))
  {
    NameNoParenthesis(p.name, p.lisp);
    ClosesAfter(p.name, s);
    ClosesAfter(p.words, p.name + s);
  }

  lemma {:induction false} ParametersClose(ps: seq<Parameter>, k: nat)
    requires k <= |ps| && Listable(Listed(ps)) && (k < |ps| || k == 0)
    ensures Closes(FromParameter(ps, k))
    decreases |ps| - k
  {
    if k < |ps| {
      if k + 1 == |ps| {
        ParameterCloses(ps[k], [0x29] + []);
      } else {
        ParametersClose(ps, k + 1);
        ClosesAfter([0x2C], FromParameter(ps, k + 1));
        ParameterCloses(ps[k], [0x2C] + FromParameter(ps, k + 1));
      }
    }
  }

  lemma {:induction false} InsideCloses(l: Parameters)
    requires Listable(l)
    ensures Closes(Inside(l))
  {
    if l.Listed? { ParametersClose(l.ps, 0); }
  }
}
