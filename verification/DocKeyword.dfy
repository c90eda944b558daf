/**
 Where a `usage:` keyword is held back or complete in a decoded text, without
 running the machine: a `u` starts one exactly when a newline lies among the
 blanks before it and no held prefix is open there. Blanks inside are ignored.
 */
module DocKeyword {
  import opened Text
  import opened DocStream
  import opened DocMachine

  /** A newline lies among the blanks that end `d`. */
  predicate NewlineBefore(d: Bytes)
  {
    d != [] && (d[|d| - 1] == NL || (d[|d| - 1] == SPACE && NewlineBefore(d[..|d| - 1])))
  }

  /** A non-blank character, and what the blanks directly before it are. */
  datatype Mark = Mark(c: Byte, afterNewline: bool, afterBlank: bool)

  /** The non-blank characters of a text. */
  function Marks(d: Bytes): seq<Mark>
  {
    if d == [] then []
    else
      var init, c := d[..|d| - 1], d[|d| - 1];
      if Blank(c) then Marks(init)
      else Marks(init) + [Mark(c, NewlineBefore(init), init != [] && Blank(init[|init| - 1]))]
  }

  /** The marks from `s` up to `t` spell the beginning of the keyword. */
  predicate Spells(ms: seq<Mark>, s: nat, t: nat)
    requires s <= t <= |ms|
  {
    t - s <= |USAGE| && forall k :: s <= k < t ==> ms[k].c == USAGE[k - s]
  }

  /** A keyword starts at mark `s`. */
  predicate Starts(ms: seq<Mark>, s: nat)
    requires s < |ms|
    decreases s, 1
  {
    ms[s].c == USAGE[0] && ms[s].afterNewline && !Open(ms, s)
  }

  /** A prefix of the keyword, not all of it, is held before mark `t`. */
  predicate Open(ms: seq<Mark>, t: nat)
    requires t <= |ms|
    decreases t, 0
  {
    exists s :: 0 <= s < t && Starts(ms, s) && t - s < |USAGE| && Spells(ms, s, t)
  }

  /** A whole keyword lies in the text. */
  predicate Seen(d: Bytes)
  {
    var ms := Marks(d);
    exists s :: 0 <= s && s + |USAGE| <= |ms| && Starts(ms, s) && Spells(ms, s, s + |USAGE|)
  }

  // --------------------------------------------------------- one mark at a time

  lemma {:induction false} StartsPrefix(ms: seq<Mark>, ns: seq<Mark>, s: nat)
    requires s < |ms| && ms <= ns
    ensures Starts(ms, s) <==> Starts(ns, s)
    decreases s, 1
  {
    OpenPrefix(ms, ns, s);
  }

  lemma {:induction false} OpenPrefix(ms: seq<Mark>, ns: seq<Mark>, t: nat)
    requires t <= |ms| && ms <= ns
    ensures Open(ms, t) <==> Open(ns, t)
    decreases t, 0
  {
    forall s | 0 <= s < t ensures Starts(ms, s) <==> Starts(ns, s) { StartsPrefix(ms, ns, s); }
    if Open(ms, t) {
      var s :| 0 <= s < t && Starts(ms, s) && t - s < |USAGE| && Spells(ms, s, t);
      assert Spells(ns, s, t);
    }
    if Open(ns, t) {
      var s :| 0 <= s < t && Starts(ns, s) && t - s < |USAGE| && Spells(ns, s, t);
      assert Spells(ms, s, t);
    }
  }

  lemma {:induction false} OpenSince(ms: seq<Mark>, t: nat) returns (s: nat)
    requires t <= |ms| && Open(ms, t)
    ensures s < t && Starts(ms, s) && t - s < |USAGE| && Spells(ms, s, t)
  {
    s :| 0 <= s < t && Starts(ms, s) && t - s < |USAGE| && Spells(ms, s, t);
  }

  /** Held prefixes do not overlap: the keyword has one `u` only. */
  lemma {:induction false} OneStart(ms: seq<Mark>, s: nat, r: nat, t: nat)
    requires s < t <= |ms| && r < t && Spells(ms, s, t) && Spells(ms, r, t)
    requires Starts(ms, s) && Starts(ms, r)
    ensures s == r
  {
    assert forall k :: 1 <= k < |USAGE| ==> USAGE[k] != USAGE[0];
  }

  /** How much of the keyword the machine holds, positionally. */
  ghost predicate Holds(ms: seq<Mark>, k: nat)
  {
    if k == 0 then !Open(ms, |ms|)
    else k < |USAGE| && k <= |ms| && Starts(ms, |ms| - k) && Spells(ms, |ms| - k, |ms|)
  }

  /** A prefix that is open after one more mark started there, or was open before. */
  lemma {:induction false} OpenSnoc(ms: seq<Mark>, mark: Mark) returns (s: nat)
    requires Open(ms + [mark], |ms| + 1) && !Starts(ms + [mark], |ms|)
    ensures s < |ms| && Starts(ms, s) && Spells(ms, s, |ms|) && |ms| - s + 1 < |USAGE| && mark.c == USAGE[|ms| - s]
  {
    var ns := ms + [mark];
    s := OpenSince(ns, |ms| + 1);
    StartsPrefix(ms, ns, s);
    assert ns[|ms|].c == USAGE[|ms| - s];
  }

  lemma {:induction false} StartsNow(ms: seq<Mark>, mark: Mark)
    requires !Open(ms, |ms|) && mark.c == USAGE[0] && mark.afterNewline
    ensures Holds(ms + [mark], 1)
  {
    OpenPrefix(ms, ms + [mark], |ms|);
  }

  lemma {:induction false} NoRestart(ms: seq<Mark>, k: nat, mark: Mark)
    requires 0 < k && Holds(ms, k)
    ensures !Starts(ms + [mark], |ms|)
  {
    assert Open(ms, |ms|);
    OpenPrefix(ms, ms + [mark], |ms|);
  }

  /** One more mark leaves a held prefix open only by continuing it. */
  lemma {:induction false} HeldContinues(ms: seq<Mark>, k: nat, mark: Mark)
    requires 0 < k && Holds(ms, k) && Open(ms + [mark], |ms| + 1)
    ensures mark.c == USAGE[k]
  {
    NoRestart(ms, k, mark);
    var s := OpenSnoc(ms, mark);
    OneStart(ms, s, |ms| - k, |ms|);
  }

  lemma {:induction false} NothingStarts(ms: seq<Mark>, mark: Mark)
    requires !Open(ms, |ms|) && !(mark.c == USAGE[0] && mark.afterNewline)
    ensures !Open(ms + [mark], |ms| + 1)
  {
    if Open(ms + [mark], |ms| + 1) { var s := OpenSnoc(ms, mark); }
  }

  lemma {:induction false} HoldsMore(ms: seq<Mark>, k: nat, mark: Mark)
    requires 0 < k && Holds(ms, k) && mark.c == USAGE[k]
    ensures Starts(ms + [mark], |ms| - k) && Spells(ms + [mark], |ms| - k, |ms| + 1)
  {
    StartsPrefix(ms, ms + [mark], |ms| - k);
  }

  lemma {:induction false} SeenPrefix(d: Bytes, c: Byte)
    requires Seen(d)
    ensures Seen(d + [c])
  {
    var ms, ns := Marks(d), Marks(d + [c]);
    assert (d + [c])[..|d|] == d;
    var s :| 0 <= s && s + |USAGE| <= |ms| && Starts(ms, s) && Spells(ms, s, s + |USAGE|);
    StartsPrefix(ms, ns, s);
    assert Spells(ns, s, s + |USAGE|);
  }

  lemma {:induction false} SeenStays(d: Bytes, e: Bytes)
    requires Seen(d)
    ensures Seen(d + e)
  {
    if e == [] {
      assert d + e == d;
    } else {
      SeenStays(d, e[..|e| - 1]);
      SeenPrefix(d + e[..|e| - 1], e[|e| - 1]);
      assert d + e[..|e| - 1] + [e[|e| - 1]] == d + e;
    }
  }

  /** A keyword completes at `c` exactly when five characters of it are held. */
  lemma {:induction false} SeenStep(d: Bytes, k: nat, c: Byte)
    requires !Seen(d) && Holds(Marks(d), k)
    ensures Seen(d + [c]) <==> k == |USAGE| - 1 && c == USAGE[k]
  {
    var ms, ns := Marks(d), Marks(d + [c]);
    assert (d + [c])[..|d|] == d;
    if k == |USAGE| - 1 && c == USAGE[k] {
      HoldsMore(ms, k, ns[|ms|]);
      assert Starts(ns, |ms| - k);
    }
    if Seen(d + [c]) {
      var s := WholeEnds(d, c);
      assert Open(ms, |ms|);
      OneStart(ms, s, |ms| - k, |ms|);
    }
  }

  /** The first whole keyword ends in the last character. */
  lemma {:induction false} WholeEnds(d: Bytes, c: Byte) returns (s: nat)
    requires !Seen(d) && Seen(d + [c])
    ensures var ms := Marks(d);
      s < |ms| && s + |USAGE| == |ms| + 1 && Starts(ms, s) && Spells(ms, s, |ms|) && c == USAGE[|USAGE| - 1]
  {
    var ms, ns := Marks(d), Marks(d + [c]);
    assert (d + [c])[..|d|] == d;
    s :| 0 <= s && s + |USAGE| <= |ns| && Starts(ns, s) && Spells(ns, s, s + |USAGE|);
    StartsPrefix(ms, ns, s);
    if s + |USAGE| <= |ms| { NotWhole(d, s); }
    assert ns[|ns| - 1].c == c;
  }

  lemma {:induction false} NotWhole(d: Bytes, s: nat)
    requires !Seen(d) && s + |USAGE| <= |Marks(d)| && Starts(Marks(d), s)
    ensures !Spells(Marks(d), s, s + |USAGE|)
  {
  }

  /** What the machine holds after a text without a whole keyword, and what it knows
      about the blanks that end the text. */
  ghost predicate Knows(m: Machine, d: Bytes)
  {
    && m.held < |USAGE| && Holds(Marks(d), m.held)
    && (m.held == 0 ==> (m.newlines > 0 <==> NewlineBefore(d)))
  }

  lemma {:induction false} KnowsStep(m: Machine, d: Bytes, c: Byte)
    requires m.keyword && Knows(m, d) && !Completes(m, c)
    ensures Knows(Feed(m, c), d + [c])
  {
    var ms := Marks(d);
    assert (d + [c])[..|d|] == d;
    if !Blank(c) {
      var mark := Mark(c, NewlineBefore(d), d != [] && Blank(d[|d| - 1]));
      assert Marks(d + [c]) == ms + [mark];
      if m.held > 0 && c == USAGE[m.held] {
        HoldsMore(ms, m.held, mark);
      } else if m.held > 0 {
        if Open(ms + [mark], |ms| + 1) { HeldContinues(ms, m.held, mark); }
      } else if c == USAGE[0] && mark.afterNewline {
        StartsNow(ms, mark);
      } else {
        NothingStarts(ms, mark);
      }
    }
  }

  /** The machine holds back exactly what the text says it should. */
  lemma {:induction false} HeldIsPositional(d: Bytes, sink: bool)
    requires !Seen(d)
    ensures Knows(Run(Start(sink, true), d), d)
  {
    var m0 := Start(sink, true);
    if d != [] {
      var init, c := d[..|d| - 1], d[|d| - 1];
      assert d == init + [c];
      if Seen(init) { SeenPrefix(init, c); }
      HeldIsPositional(init, sink);
      RunKeeps(m0, init);
      SeenStep(init, Run(m0, init).held, c);
      KnowsStep(Run(m0, init), init, c);
    }
  }

  /** A keyword completes at `c` after `d` exactly when the text with `c` holds one. */
  lemma {:induction false} CompletesIsSeen(d: Bytes, c: Byte, sink: bool)
    requires !Seen(d)
    ensures Completes(Run(Start(sink, true), d), c) <==> Seen(d + [c])
  {
    HeldIsPositional(d, sink);
    RunKeeps(Start(sink, true), d);
    SeenStep(d, Run(Start(sink, true), d).held, c);
  }

  /** At the end of a body the held prefix is dropped: text is lost exactly when the
      text ends inside a keyword, and it is that beginning of the keyword. */
  lemma {:induction false} TextLostExactlyWhenOpen(d: Bytes)
    requires !Seen(d)
    ensures var out := Run(Start(true, true), d).out;
      && (NonBlank(out) == NonBlank(d) <==> !Open(Marks(d), |Marks(d)|))
      && exists k: nat :: Holds(Marks(d), k) && k < |USAGE| && NonBlank(out) + USAGE[..k] == NonBlank(d)
  {
    var m := Run(Start(true, true), d);
    KeywordLosesNothing(d, true);
    HeldIsPositional(d, true);
    assert |USAGE[..m.held]| == m.held;
    assert USAGE[..0] == [];
  }
}
