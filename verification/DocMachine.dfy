/**
 The whitespace and keyword machine of scripts/make_docfile.py as a fold over
 decoded characters, against a batch function on the text and a positional
 definition of the keyword.
 */
module DocMachine {
  import opened Text
  import opened DocStream

  /** `usage:` */
  const USAGE: Bytes := [0x75, 0x73, 0x61, 0x67, 0x65, 0x3A]

  predicate Blank(c: int) { c == SPACE || c == NL }

  // --------------------------------------------------------------- whitespace

  function FirstNonSpace(d: Bytes): int
  {
    if d == [] then EOF else if d[0] == SPACE then FirstNonSpace(d[1..]) else d[0]
  }

  /** Delete every space whose run of spaces is directly followed by a newline. */
  function Squeeze(d: Bytes): Bytes
  {
    if d == [] then []
    else if d[0] == SPACE && FirstNonSpace(d[1..]) == NL then Squeeze(d[1..])
    else [d[0]] + Squeeze(d[1..])
  }

  /** Delete the trailing run of spaces and newlines. */
  function TrimBlanks(s: Bytes): Bytes
  {
    if s != [] && Blank(s[|s| - 1]) then TrimBlanks(s[..|s| - 1]) else s
  }

  /** The text GNU keeps of a decoded body. */
  function Batch(d: Bytes): Bytes { TrimBlanks(Squeeze(d)) }

  function NonBlank(d: Bytes): Bytes
  {
    if d == [] then []
    else NonBlank(d[..|d| - 1]) + (if Blank(d[|d| - 1]) then [] else [d[|d| - 1]])
  }

  // ------------------------------------------------------------------ machine

  function Repeat(b: Byte, n: nat): (r: Bytes)
    ensures |r| == n && forall i :: 0 <= i < n ==> r[i] == b
  {
    if n == 0 then [] else Repeat(b, n - 1) + [b]
  }

  /** `struct rcsoc_state`: what has been written, the whitespace owed, and how
      much of the keyword is being held back. */
  datatype Machine = Machine(sink: bool, keyword: bool, out: Bytes, newlines: nat, spaces: nat, held: nat)

  function Start(sink: bool, keyword: bool): Machine { Machine(sink, keyword, [], 0, 0, 0) }

  /** Write the owed newlines, then the owed spaces, then `s`. */
  function Put(m: Machine, s: Bytes): Machine
  {
    var out := m.out + Repeat(NL, m.newlines) + Repeat(SPACE, m.spaces) + s;
    m.(out := if m.sink then out else m.out, newlines := 0, spaces := 0)
  }

  lemma {:induction false} PutPut(m: Machine, a: Bytes, b: Bytes)
    ensures Put(Put(m, a), b) == Put(m, a + b)
  {
    var x := m.out + Repeat(NL, m.newlines) + Repeat(SPACE, m.spaces);
    AppendAssoc(x, a, b);
    assert x + a + Repeat(NL, 0) + Repeat(SPACE, 0) == x + a;
  }

  predicate Matches(m: Machine, c: int)
  {
    m.keyword && m.held < |USAGE| && USAGE[m.held] == c && (m.held > 0 || m.newlines > 0)
  }

  /** One non-blank character: hold it, or release what was held and write it. */
  function Scan(m: Machine, c: Byte): Machine
    requires m.held <= |USAGE|
  {
    if Matches(m, c) then m.(held := m.held + 1)
    else Put(m, USAGE[..m.held] + [c]).(held := 0)
  }

  function Feed(m: Machine, c: Byte): (r: Machine)
    requires m.held <= |USAGE|
    ensures r.held <= |USAGE|
  {
    if c == SPACE then m.(spaces := m.spaces + 1)
    else if c == NL then m.(newlines := m.newlines + 1, spaces := 0)
    else Scan(m, c)
  }

  function Run(m: Machine, d: Bytes): (r: Machine)
    requires m.held <= |USAGE|
    ensures r.held <= |USAGE|
  {
    if d == [] then m else Feed(Run(m, d[..|d| - 1]), d[|d| - 1])
  }

  lemma {:induction false} RunSnoc(m: Machine, d: Bytes, c: Byte)
    requires m.held <= |USAGE|
    ensures Run(m, d + [c]) == Feed(Run(m, d), c)
  {
    assert (d + [c])[..|d|] == d;
  }

  lemma {:induction false} RunKeeps(m: Machine, d: Bytes)
    requires m.held <= |USAGE|
    ensures var r := Run(m, d);
      r.sink == m.sink && r.keyword == m.keyword && (!m.keyword && m.held == 0 ==> r.held == 0)
  {
    if d != [] { RunKeeps(m, d[..|d| - 1]); }
  }

  /** `ch` is the last character of a keyword all but complete. */
  predicate Completes(m: Machine, ch: int)
  {
    m.keyword && m.held == |USAGE| - 1 && ch == USAGE[|USAGE| - 1]
  }

  // ------------------------------------------------- streaming equals batch

  lemma {:induction false} FirstNonSpaceSnoc(d: Bytes, c: Byte)
    ensures FirstNonSpace(d + [c])
         == if FirstNonSpace(d) != EOF then FirstNonSpace(d) else if c == SPACE then EOF else c
  {
    if d == [] {
      assert [c][1..] == [];
    } else {
      assert (d + [c])[1..] == d[1..] + [c];
      FirstNonSpaceSnoc(d[1..], c);
    }
  }

  lemma {:induction false} SqueezeSnoc(d: Bytes, c: Byte)
    requires c != NL
    ensures Squeeze(d + [c]) == Squeeze(d) + [c]
  {
    if d == [] {
      assert [c][1..] == [];
    } else {
      var dc := d + [c];
      assert dc[0] == d[0] && dc[1..] == d[1..] + [c];
      FirstNonSpaceSnoc(d[1..], c);
      SqueezeSnoc(d[1..], c);
    }
  }

  lemma {:induction false} SqueezeKeepsFirst(d: Bytes)
    requires FirstNonSpace(d) != NL
    ensures FirstNonSpace(Squeeze(d)) == FirstNonSpace(d)
  {
    if d != [] && d[0] == SPACE {
      SqueezeKeepsFirst(d[1..]);
      assert Squeeze(d)[1..] == Squeeze(d[1..]);
    }
  }

  lemma {:induction false} OnlySpaces(s: Bytes)
    ensures FirstNonSpace(s) == EOF <==> forall i :: 0 <= i < |s| ==> s[i] == SPACE
  {
    if s != [] {
      OnlySpaces(s[1..]);
      assert forall i :: 1 <= i < |s| ==> s[i] == s[1..][i - 1];
      assert s[0] == SPACE ==>
        ((forall i :: 0 <= i < |s| ==> s[i] == SPACE) <==> forall i :: 0 <= i < |s[1..]| ==> s[1..][i] == SPACE);
    }
  }

  /** A newline deletes exactly the spaces at the end. */
  lemma {:induction false} SqueezeNewline(d: Bytes, x: Bytes, k: nat)
    requires Squeeze(d) == x + Repeat(SPACE, k)
    requires x != [] ==> x[|x| - 1] != SPACE
    ensures Squeeze(d + [NL]) == x + [NL]
  {
    if d == [] {
      assert [NL][1..] == [];
      assert x == [];
    } else {
      var rest, dn := d[1..], d + [NL];
      assert dn[0] == d[0] && dn[1..] == rest + [NL];
      FirstNonSpaceSnoc(rest, NL);
      if d[0] == SPACE && FirstNonSpace(rest) == NL {
        SqueezeNewline(rest, x, k);
      } else if d[0] == SPACE && FirstNonSpace(rest) == EOF {
        assert x != [] ==> Squeeze(d)[|x| - 1] == x[|x| - 1];
        SqueezeAllSpaces(d);
        SqueezeAllSpaces(rest);
        SqueezeNewline(rest, [], |rest|);
      } else {
        SqueezeHeadKept(d, x, k);
        assert Squeeze(rest) == x[1..] + Repeat(SPACE, k);
        SqueezeNewline(rest, x[1..], k);
        assert x == [d[0]] + x[1..];
        AppendAssoc([d[0]], x[1..], [NL]);
      }
    }
  }

  lemma {:induction false} SqueezeAllSpaces(d: Bytes)
    requires FirstNonSpace(d) == EOF
    ensures Squeeze(d) == Repeat(SPACE, |Squeeze(d)|)
    ensures forall i :: 0 <= i < |Squeeze(d)| ==> Squeeze(d)[i] == SPACE
    ensures |d| == |Squeeze(d)|
  {
    SqueezeKeepsFirst(d);
    OnlySpaces(Squeeze(d));
    SqueezeSpacesLength(d);
  }

  lemma {:induction false} SqueezeSpacesLength(d: Bytes)
    requires FirstNonSpace(d) == EOF
    ensures |d| == |Squeeze(d)|
  {
    if d != [] { SqueezeSpacesLength(d[1..]); }
  }

  lemma {:induction false} SqueezeHeadKept(d: Bytes, x: Bytes, k: nat)
    requires d != [] && Squeeze(d) == x + Repeat(SPACE, k)
    requires d[0] == SPACE ==> FirstNonSpace(d[1..]) != NL && FirstNonSpace(d[1..]) != EOF
    ensures x != [] && x[0] == d[0] && Squeeze(d[1..]) == x[1..] + Repeat(SPACE, k)
  {
    assert Squeeze(d) == [d[0]] + Squeeze(d[1..]);
    assert Squeeze(d)[1..] == Squeeze(d[1..]);
    if x == [] {
      assert Squeeze(d) == Repeat(SPACE, k);
      assert d[0] == SPACE by { assert Squeeze(d)[0] == d[0]; }
      SqueezeKeepsFirst(d[1..]);
      var rest := Squeeze(d[1..]);
      forall i | 0 <= i < |rest| ensures rest[i] == SPACE { assert rest[i] == Squeeze(d)[i + 1]; }
      OnlySpaces(rest);
      assert false;
    }
    assert Squeeze(d)[0] == x[0] && (x + Repeat(SPACE, k))[1..] == x[1..] + Repeat(SPACE, k);
  }

  lemma {:induction false} TrimBlanksTail(s: Bytes, newlines: nat, spaces: nat)
    requires s == [] || !Blank(s[|s| - 1])
    ensures TrimBlanks(s + Repeat(NL, newlines) + Repeat(SPACE, spaces)) == s
    decreases newlines + spaces
  {
    var t := s + Repeat(NL, newlines) + Repeat(SPACE, spaces);
    if spaces > 0 {
      TrimBlanksTail(s, newlines, spaces - 1);
      assert t[..|t| - 1] == s + Repeat(NL, newlines) + Repeat(SPACE, spaces - 1);
    } else if newlines > 0 {
      TrimBlanksTail(s, newlines - 1, 0);
      assert t[..|t| - 1] == s + Repeat(NL, newlines - 1) + Repeat(SPACE, 0);
    } else {
      assert t == s;
    }
  }

  /** What has been written, plus the whitespace owed, is the squeezed input. */
  ghost predicate Owes(m: Machine, d: Bytes)
  {
    && Squeeze(d) == m.out + Repeat(NL, m.newlines) + Repeat(SPACE, m.spaces)
    && (m.out == [] || !Blank(m.out[|m.out| - 1]))
  }

  lemma {:induction false} OwesStep(m: Machine, d: Bytes, c: Byte)
    requires m.sink && !m.keyword && m.held == 0 && Owes(m, d)
    ensures Owes(Feed(m, c), d + [c])
  {
    var x := m.out + Repeat(NL, m.newlines);
    if c == NL {
      assert x != [] ==> x[|x| - 1] != SPACE by {
        assert m.newlines > 0 ==> x[|x| - 1] == NL;
      }
      SqueezeNewline(d, x, m.spaces);
      AppendAssoc(m.out, Repeat(NL, m.newlines), [NL]);
      assert Repeat(SPACE, 0) == [];
    } else {
      SqueezeSnoc(d, c);
      if c == SPACE {
        AppendAssoc(x, Repeat(SPACE, m.spaces), [SPACE]);
      } else {
        assert USAGE[..0] + [c] == [c];
        assert Repeat(SPACE, 0) == [] && Repeat(NL, 0) == [];
      }
    }
  }

  lemma {:induction false} RunOwes(d: Bytes)
    ensures Owes(Run(Start(true, false), d), d)
  {
    var m0 := Start(true, false);
    if d != [] {
      var init, c := d[..|d| - 1], d[|d| - 1];
      RunOwes(init);
      RunKeeps(m0, init);
      OwesStep(Run(m0, init), init, c);
      assert d == init + [c];
    } else {
      assert Repeat(SPACE, 0) == [] && Repeat(NL, 0) == [];
    }
  }

  /** With no keyword, the streaming machine writes exactly the batch text. */
  lemma {:induction false} StreamingIsBatch(d: Bytes)
    ensures Run(Start(true, false), d).out == Batch(d)
  {
    RunOwes(d);
    var m := Run(Start(true, false), d);
    TrimBlanksTail(m.out, m.newlines, m.spaces);
  }

  // ------------------------------------------------------------ the keyword

  lemma {:induction false} NonBlankSnoc(a: Bytes, c: Byte)
    ensures NonBlank(a + [c]) == NonBlank(a) + (if Blank(c) then [] else [c])
  {
    assert (a + [c])[..|a|] == a;
  }

  lemma {:induction false} NonBlankAppend(a: Bytes, b: Bytes)
    ensures NonBlank(a + b) == NonBlank(a) + NonBlank(b)
  {
    if b == [] {
      assert a + b == a;
    } else {
      var init, last := b[..|b| - 1], b[|b| - 1];
      assert b == init + [last];
      AppendAssoc(a, init, [last]);
      NonBlankAppend(a, init);
      NonBlankSnoc(a + init, last);
      AppendAssoc(NonBlank(a), NonBlank(init), [last]);
    }
  }

  lemma {:induction false} NonBlankAll(d: Bytes, keep: bool)
    requires forall i :: 0 <= i < |d| ==> Blank(d[i]) == !keep
    ensures NonBlank(d) == if keep then d else []
  {
    if d != [] {
      NonBlankAll(d[..|d| - 1], keep);
      assert d == d[..|d| - 1] + [d[|d| - 1]];
    }
  }

  lemma {:induction false} NonBlankPad(a: Bytes, b: Bytes)
    requires forall i :: 0 <= i < |b| ==> Blank(b[i])
    ensures NonBlank(a + b) == NonBlank(a)
  {
    NonBlankAppend(a, b);
    NonBlankAll(b, false);
  }

  lemma {:induction false} PutNonBlank(m: Machine, s: Bytes)
    requires m.sink && forall i :: 0 <= i < |s| ==> !Blank(s[i])
    ensures NonBlank(Put(m, s).out) == NonBlank(m.out) + s
  {
    var a := m.out + Repeat(NL, m.newlines);
    var b := a + Repeat(SPACE, m.spaces);
    NonBlankPad(m.out, Repeat(NL, m.newlines));
    NonBlankPad(a, Repeat(SPACE, m.spaces));
    NonBlankAppend(b, s);
    NonBlankAll(s, true);
  }

  lemma {:induction false} HeldNonBlank(k: nat, c: Byte)
    requires k <= |USAGE| && !Blank(c)
    ensures forall i :: 0 <= i < k + 1 ==> !Blank((USAGE[..k] + [c])[i])
  {
    assert USAGE == [0x75, 0x73, 0x61, 0x67, 0x65, 0x3A];
  }

  /** The non-blank text a machine accounts for: written or held back. */
  function Kept(m: Machine): Bytes
    requires m.held <= |USAGE|
  {
    NonBlank(m.out) + USAGE[..m.held]
  }

  lemma {:induction false} KeptRelease(m: Machine, c: Byte)
    requires m.sink && m.held <= |USAGE| && !Blank(c) && !Matches(m, c)
    ensures Kept(Feed(m, c)) == Kept(m) + [c]
  {
    var held := USAGE[..m.held] + [c];
    HeldNonBlank(m.held, c);
    PutNonBlank(m, held);
    AppendAssoc(NonBlank(m.out), USAGE[..m.held], [c]);
    assert Feed(m, c).out == Put(m, held).out && Feed(m, c).held == 0;
    assert NonBlank(m.out) + held + USAGE[..0] == NonBlank(m.out) + held;
  }

  lemma {:induction false} KeptMatch(m: Machine, c: Byte)
    requires m.held <= |USAGE| && !Blank(c) && Matches(m, c)
    ensures Kept(Feed(m, c)) == Kept(m) + [c]
  {
    assert Feed(m, c) == m.(held := m.held + 1);
    AppendAssoc(NonBlank(m.out), USAGE[..m.held], [c]);
    assert USAGE[..m.held + 1] == USAGE[..m.held] + [c];
  }

  /** Keyword scanning loses nothing: after any input, over any matches and
      false alarms, the non-blank output followed by the held prefix is the
      non-blank input. */
  lemma {:induction false} KeywordLosesNothing(d: Bytes, keyword: bool)
    ensures Kept(Run(Start(true, keyword), d)) == NonBlank(d)
  {
    var m0 := Start(true, keyword);
    if d == [] {
      assert USAGE[..0] == [];
    } else {
      var init, c := d[..|d| - 1], d[|d| - 1];
      var m := Run(m0, init);
      KeywordLosesNothing(init, keyword);
      RunKeeps(m0, init);
      if Blank(c) {
      } else if Matches(m, c) {
        KeptMatch(m, c);
      } else {
        KeptRelease(m, c);
      }
    }
  }
}
