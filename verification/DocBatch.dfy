/**
 When the keyword scan leaves the whitespace rules alone: the text written with the
 keyword on is the batch text exactly when no prefix of `usage:` is held at the end
 and no blank lies inside a prefix that was held.
 */
module DocBatch {
  import opened Text
  import opened DocStream
  import opened DocMachine
  import opened DocKeyword

  /** No blank directly before a character at which a prefix is open. */
  predicate Clean(ms: seq<Mark>)
  {
    forall t :: 0 <= t < |ms| && Open(ms, t) ==> !ms[t].afterBlank
  }

  predicate EndsBlank(d: Bytes) { d != [] && Blank(d[|d| - 1]) }

  lemma {:induction false} CleanSnoc(ms: seq<Mark>, mark: Mark)
    ensures Clean(ms + [mark]) <==> Clean(ms) && (Open(ms, |ms|) ==> !mark.afterBlank)
  {
    var ns := ms + [mark];
    forall t | 0 <= t <= |ms| ensures Open(ms, t) <==> Open(ns, t) { OpenPrefix(ms, ns, t); }
    assert ns[|ms|] == mark && forall t :: 0 <= t < |ms| ==> ns[t] == ms[t];
  }

  /** `o` begins with `x`, `a` newlines, `b` spaces and the first letter of a keyword. */
  ghost predicate Begins(o: Bytes, x: Bytes, a: nat, b: nat)
  {
    && |x| + a + b < |o| && o[..|x|] == x
    && (forall i :: |x| <= i < |x| + a ==> o[i] == NL)
    && (forall i :: |x| + a <= i < |x| + a + b ==> o[i] == SPACE)
    && o[|x| + a + b] == USAGE[0]
  }

  lemma {:induction false} BeginsOnce(o: Bytes, x: Bytes, a: nat, b: nat, n: nat, s: nat)
    requires Begins(o, x, a, b) && Begins(o, x, n, s)
    ensures a == n && b == s
  {
    var newline := o[|x| + if a < n then a else n];
    var first, second := o[|x| + a + b], o[|x| + n + s];
    assert first == second == USAGE[0] && USAGE[0] != NL && USAGE[0] != SPACE;
  }

  lemma {:induction false} BeginsGrows(o: Bytes, r: Bytes, x: Bytes, a: nat, b: nat)
    requires Begins(o, x, a, b) && o <= r
    ensures Begins(r, x, a, b)
  {
    assert forall i :: 0 <= i < |o| ==> r[i] == o[i];
    assert r[..|x|] == o[..|x|];
  }

  lemma {:induction false} PutBegins(m: Machine, s: Bytes)
    requires m.sink
    ensures m.out <= Put(m, s).out
    ensures s != [] && s[0] == USAGE[0] ==> Begins(Put(m, s).out, m.out, m.newlines, m.spaces)
  {
    var nl, sp := Repeat(NL, m.newlines), Repeat(SPACE, m.spaces);
    var o := m.out + nl + sp + s;
    assert o == Put(m, s).out;
    assert forall i :: 0 <= i < |nl| ==> o[|m.out| + i] == nl[i];
    assert forall i :: |m.out| <= i < |m.out| + |nl| ==> o[i] == nl[i - |m.out|];
    assert forall i :: |m.out| + |nl| <= i < |m.out| + |nl| + |sp| ==> o[i] == sp[i - |m.out| - |nl|];
    assert s != [] ==> o[|m.out| + |nl| + |sp|] == s[0];
  }

  /** The machine owes more whitespace than `a` newlines and `b` spaces. */
  predicate Beyond(k: Machine, a: nat, b: nat) { k.newlines > a || (k.newlines == a && k.spaces > b) }

  // The keyword machine `k` beside the plain machine `p`:

  /** They agree; what `k` holds, `p` has written. */
  ghost predicate Agree(k: Machine, p: Machine, d: Bytes)
    requires k.held <= |USAGE|
  {
    if k.held == 0 then p == k.(keyword := false)
    else !EndsBlank(d) && p == Put(k, USAGE[..k.held]).(held := 0, keyword := false)
  }

  /** A blank inside a held prefix: `p` has written less whitespace before it than `k`
      now owes. */
  ghost predicate Torn(k: Machine, p: Machine)
  {
    k.held > 0 && exists a: nat, b: nat :: Beyond(k, a, b) && Begins(p.out, k.out, a, b)
  }

  /** They have written different whitespace. */
  ghost predicate Differ(k: Machine, p: Machine)
  {
    exists x, a: nat, b: nat, n: nat, s: nat ::
      (a != n || b != s) && Begins(p.out, x, a, b) && Begins(k.out, x, n, s)
  }

  ghost predicate Related(k: Machine, p: Machine, d: Bytes)
    requires k.held <= |USAGE|
  {
    || (Agree(k, p, d) && Clean(Marks(d)))
    || (Torn(k, p) && (!Clean(Marks(d)) || EndsBlank(d)))
    || (Differ(k, p) && !Clean(Marks(d)))
  }

  lemma {:induction false} DifferGrows(k: Machine, p: Machine, k': Machine, p': Machine)
    requires Differ(k, p) && k.out <= k'.out && p.out <= p'.out
    ensures Differ(k', p')
  {
    var x, a: nat, b: nat, n: nat, s: nat :|
      (a != n || b != s) && Begins(p.out, x, a, b) && Begins(k.out, x, n, s);
    BeginsGrows(p.out, p'.out, x, a, b);
    BeginsGrows(k.out, k'.out, x, n, s);
  }

  lemma {:induction false} FeedGrows(m: Machine, c: Byte)
    requires m.sink && m.held <= |USAGE|
    ensures m.out <= Feed(m, c).out
  {
    if !Blank(c) && !Matches(m, c) { PutBegins(m, USAGE[..m.held] + [c]); }
  }

  lemma {:induction false} PlainFeed(p: Machine, c: Byte)
    requires !p.keyword && p.held == 0 && !Blank(c)
    ensures Feed(p, c) == Put(p, [c])
  {
    assert USAGE[..0] + [c] == [c];
  }

  lemma {:induction false} BlankStep(k: Machine, p: Machine, d: Bytes, c: Byte)
    requires k.sink && p.sink && k.held < |USAGE| && p.held <= |USAGE| && Related(k, p, d) && Blank(c)
    ensures Related(Feed(k, c), Feed(p, c), d + [c])
  {
    var k', p' := Feed(k, c), Feed(p, c);
    assert (d + [c])[..|d|] == d;
    if Agree(k, p, d) && Clean(Marks(d)) {
      if k.held > 0 {
        PutBegins(k, USAGE[..k.held]);
        assert Beyond(k', k.newlines, k.spaces) && Begins(p'.out, k'.out, k.newlines, k.spaces);
      }
    } else if Torn(k, p) {
      var a: nat, b: nat :| Beyond(k, a, b) && Begins(p.out, k.out, a, b);
      assert Beyond(k', a, b) && Begins(p'.out, k'.out, a, b);
    } else {
      DifferGrows(k, p, k', p');
    }
  }

  lemma {:induction false} AgreeStep(k: Machine, p: Machine, d: Bytes, c: Byte)
    requires k.sink && k.held < |USAGE| && Agree(k, p, d) && !Blank(c)
    ensures Agree(Feed(k, c), Feed(p, c), d + [c])
  {
    PlainFeed(p, c);
    var held := USAGE[..k.held];
    if k.held > 0 { PutPut(k, held, [c]); }
    if Matches(k, c) {
      assert USAGE[..k.held + 1] == held + [c];
      assert k.held == 0 ==> held + [c] == [c];
    } else {
      assert k.held == 0 ==> held + [c] == [c];
    }
  }

  lemma {:induction false} TornStep(k: Machine, p: Machine, c: Byte)
    requires k.sink && p.sink && k.held < |USAGE| && p.held <= |USAGE| && Torn(k, p) && !Blank(c)
    ensures if Matches(k, c) then Torn(Feed(k, c), Feed(p, c)) else Differ(Feed(k, c), Feed(p, c))
  {
    var a: nat, b: nat :| Beyond(k, a, b) && Begins(p.out, k.out, a, b);
    var k', p' := Feed(k, c), Feed(p, c);
    FeedGrows(p, c);
    BeginsGrows(p.out, p'.out, k.out, a, b);
    if Matches(k, c) {
      assert Beyond(k', a, b) && Begins(p'.out, k'.out, a, b);
    } else {
      PutBegins(k, USAGE[..k.held] + [c]);
      assert Begins(k'.out, k.out, k.newlines, k.spaces);
    }
  }

  lemma {:induction false} CharStep(k: Machine, p: Machine, d: Bytes, c: Byte)
    requires k.sink && p.sink && k.keyword && Knows(k, d) && Related(k, p, d) && p.held == 0 && !Blank(c)
    ensures Feed(k, c).held <= |USAGE| && Related(Feed(k, c), Feed(p, c), d + [c])
  {
    var ms, mark := Marks(d), Mark(c, NewlineBefore(d), EndsBlank(d));
    assert (d + [c])[..|d|] == d;
    assert Marks(d + [c]) == ms + [mark];
    CleanSnoc(ms, mark);
    assert k.held > 0 ==> Open(ms, |ms|);
    if Agree(k, p, d) && Clean(ms) {
      AgreeStep(k, p, d, c);
    } else if Torn(k, p) {
      TornStep(k, p, c);
    } else {
      FeedGrows(k, c);
      FeedGrows(p, c);
      DifferGrows(k, p, Feed(k, c), Feed(p, c));
    }
  }

  lemma {:induction false} RunRelated(d: Bytes)
    requires !Seen(d)
    ensures Related(Run(Start(true, true), d), Run(Start(true, false), d), d)
  {
    var k0, p0 := Start(true, true), Start(true, false);
    if d != [] {
      var init, c := d[..|d| - 1], d[|d| - 1];
      assert d == init + [c];
      if Seen(init) { SeenPrefix(init, c); }
      RunRelated(init);
      HeldIsPositional(init, true);
      RunKeeps(k0, init);
      RunKeeps(p0, init);
      var k, p := Run(k0, init), Run(p0, init);
      if Blank(c) { BlankStep(k, p, init, c); } else { CharStep(k, p, init, c); }
    }
  }

  /** Documentation is the batch text of its body exactly when the body does not end
      inside a prefix of `usage:` and no blank lies inside one. */
  lemma {:induction false} KeywordIsBatch(d: Bytes)
    requires !Seen(d)
    ensures Run(Start(true, true), d).out == Batch(d) <==> !Open(Marks(d), |Marks(d)|) && Clean(Marks(d))
  {
    var k, p, ms := Run(Start(true, true), d), Run(Start(true, false), d), Marks(d);
    StreamingIsBatch(d);
    RunRelated(d);
    HeldIsPositional(d, true);
    TextLostExactlyWhenOpen(d);
    RunKeeps(Start(true, false), d);
    KeywordLosesNothing(d, false);
    assert USAGE[..0] == [];
    assert NonBlank(p.out) == NonBlank(d);
    if Differ(k, p) && !Clean(ms) {
      var x, a: nat, b: nat, n: nat, s: nat :|
        (a != n || b != s) && Begins(p.out, x, a, b) && Begins(k.out, x, n, s);
      if p.out == k.out { BeginsOnce(p.out, x, a, b, n, s); }
    }
  }
}
