/** What the chunked scanner of ThinkFilter yields, compared with one pass over the whole text and
    with the regular expression. */
module ThinkTheorems {
  import opened ThinkFilter

  // ---------------------------------------------------------------- tags inside strings

  predicate IsTag(tag: string) { tag == OPEN || tag == CLOSE }

  lemma AtConcat(a: string, b: string, i: int, tag: string)
    ensures 0 <= i <= |a| - |tag| ==> At(a + b, i, tag) == At(a, i, tag)
    ensures |a| <= i ==> At(a + b, i, tag) == At(b, i - |a|, tag)
  {
    if 0 <= i <= |a| - |tag| {
      assert (a + b)[i..i + |tag|] == a[i..i + |tag|];
    }
    if |a| <= i <= |a| + |b| - |tag| {
      assert (a + b)[i..i + |tag|] == b[i - |a|..i - |a| + |tag|];
    }
  }

  lemma AtDrop(s: string, n: nat, i: int, tag: string)
    requires n <= |s| && 0 <= i
    ensures At(s[n..], i, tag) == At(s, n + i, tag)
  {
    assert s == s[..n] + s[n..];
    AtConcat(s[..n], s[n..], n + i, tag);
  }

  lemma FindIs(s: string, tag: string, i: int)
    requires First(s, tag, i)
    ensures Find(s, tag) == i
  {
    FindIsFirst(s, tag);
    var f := Find(s, tag);
    assert f == -1 ==> !At(s, i, tag) || i == -1;
    assert f > i ==> !At(s, i, tag);
    assert i == -1 ==> !At(s, f, tag);
  }

  /** An occurrence that lies in the first part is found there. */
  lemma FindConcat(a: string, b: string, tag: string)
    requires Find(a, tag) != -1
    ensures Find(a + b, tag) == Find(a, tag)
  {
    FindIsFirst(a, tag);
    var i := Find(a, tag);
    forall k | 0 <= k <= i ensures At(a + b, k, tag) == At(a, k, tag) { AtConcat(a, b, k, tag); }
    FindIs(a + b, tag, i);
  }

  /** With none in the first part, the first occurrence straddles the seam or lies beyond it. */
  lemma FindPast(a: string, b: string, tag: string)
    requires Find(a, tag) == -1
    ensures var i := Find(a + b, tag); i == -1 || i > |a| - |tag|
    ensures var i := Find(a + b, tag); i == -1 ==> Find(b, tag) == -1
    ensures var i := Find(a + b, tag); i >= |a| ==> Find(b, tag) == i - |a|
  {
    FindIsFirst(a, tag);
    FindIsFirst(a + b, tag);
    var i := Find(a + b, tag);
    if i != -1 { AtConcat(a, b, i, tag); }
    if i == -1 || i >= |a| { FindBeyond(a, b, tag); }
  }

  lemma FindBeyond(a: string, b: string, tag: string)
    requires Find(a + b, tag) == -1 || Find(a + b, tag) >= |a|
    ensures Find(b, tag) == if Find(a + b, tag) == -1 then -1 else Find(a + b, tag) - |a|
  {
    FindIsFirst(a + b, tag);
    var i := Find(a + b, tag);
    if i != -1 { AtConcat(a, b, i, tag); }
    forall k | 0 <= k && (i == -1 || k < i - |a|) ensures !At(b, k, tag) {
      AtConcat(a, b, |a| + k, tag);
      assert !At(a + b, |a| + k, tag);
    }
    FindIs(b, tag, if i == -1 then -1 else i - |a|);
  }

  /** The first occurrence at or after n, when n does not pass it. */
  lemma FindDrop(s: string, tag: string, n: nat)
    requires n <= Find(s, tag)
    ensures Find(s[n..], tag) == Find(s, tag) - n
  {
    FindIsFirst(s, tag);
    var i := Find(s, tag);
    forall k | 0 <= k ensures At(s[n..], k, tag) == At(s, n + k, tag) { AtDrop(s, n, k, tag); }
    assert At(s, n + (i - n), tag);
    forall k | 0 <= k < i - n ensures !At(s[n..], k, tag) { assert !At(s, n + k, tag); }
    FindIs(s[n..], tag, i - n);
  }

  /** Two different occurrences of tags never overlap. */
  lemma TagsAreApart(s: string, i: int, t: string, j: int, u: string)
    requires IsTag(t) && IsTag(u) && At(s, i, t) && At(s, j, u) && (i, t) != (j, u)
    ensures i + |t| <= j || j + |u| <= i
  {
    if i <= j { NoOverlap(s, i, t, j, u); } else { NoOverlap(s, j, u, i, t); }
  }

  lemma NoOverlap(s: string, i: int, t: string, j: int, u: string)
    requires IsTag(t) && IsTag(u) && At(s, i, t) && At(s, j, u) && i <= j
    ensures i + |t| <= j || (i == j && t == u)
  {
    var overlap := j - i;
    assert s[j..j + |u|][0] == s[j] == u[0];
    assert s[j..j + |u|][1] == s[j + 1] == u[1];
    assert overlap < |t| ==> s[i..i + |t|][overlap] == s[j] == t[overlap];
    assert s[i..i + |t|][1] == s[i + 1] == t[1];
  }

  // ---------------------------------------------------------------- one pass over the whole text

  function Pass(inThink: bool, text: string): (Scanner, string) { Drain(Scanner(text, inThink)) }

  lemma PassInside(x: string)
    ensures var j := Find(x, CLOSE);
            Pass(true, x) == if j == -1 then (Scanner(x, true), "") else Pass(false, x[j + |CLOSE|..])
  {
  }

  lemma PassOutside(x: string)
    ensures var i := Find(x, OPEN);
            if i == -1 then Pass(false, x) == (START, x)
            else
              var r := Pass(true, x[i + |OPEN|..]);
              Pass(false, x) == (r.0, x[..i] + r.1)
  {
  }

  /** Every opened block of the text is closed. */
  predicate Closed(text: string)
    decreases |text|
  {
    var i := Find(text, OPEN);
    i == -1 ||
      var rest := text[i + |OPEN|..];
      var j := Find(rest, CLOSE);
      j != -1 && Closed(rest[j + |CLOSE|..])
  }

  /** The opening tag and what followed it, for a block left open. */
  function OpenBlock(s: Scanner): string { if s.inThink then OPEN + s.buffer else "" }

  predicate AgreesUpToOpenBlock(text: string) {
    var p := Pass(false, text);
    Strip(text) == p.1 + OpenBlock(p.0) && (Closed(text) <==> !p.0.inThink)
  }

  /** One pass agrees with the regular expression up to the block left open, which the expression
      keeps, tag and all, and the scanner drops. */
  lemma {:induction false} PassAgainstRegex(text: string)
    ensures AgreesUpToOpenBlock(text)
    decreases |text|
  {
    PassOutside(text);
    var i := Find(text, OPEN);
    if i == -1 {
      assert text + "" == text;
    } else {
      var rest := text[i + |OPEN|..];
      var j := Find(rest, CLOSE);
      if j == -1 {
        LeftOpen(text, i);
      } else {
        PassAgainstRegex(rest[j + |CLOSE|..]);
        BlockCut(text, i, j);
      }
    }
  }

  lemma LeftOpen(text: string, i: int)
    requires Find(text, OPEN) == i >= 0 && Find(text[i + |OPEN|..], CLOSE) == -1
    ensures AgreesUpToOpenBlock(text)
  {
    FindIsFirst(text, OPEN);
    PassOutside(text);
    PassInside(text[i + |OPEN|..]);
    assert text == (text[..i] + "") + (OPEN + text[i + |OPEN|..]);
  }

  lemma BlockCut(text: string, i: int, j: int)
    requires Find(text, OPEN) == i >= 0 && Find(text[i + |OPEN|..], CLOSE) == j >= 0
    requires AgreesUpToOpenBlock(text[i + |OPEN|..][j + |CLOSE|..])
    ensures AgreesUpToOpenBlock(text)
  {
    var after := text[i + |OPEN|..][j + |CLOSE|..];
    assert Strip(text) == text[..i] + Strip(after) && Closed(text) == Closed(after);
    PassOverBlock(text, i, j, after);
    Appended(text[..i], Pass(false, after).1, OpenBlock(Pass(false, after).0));
  }

  lemma PassOverBlock(text: string, i: int, j: int, after: string)
    requires Find(text, OPEN) == i >= 0 && Find(text[i + |OPEN|..], CLOSE) == j >= 0
    requires after == text[i + |OPEN|..][j + |CLOSE|..]
    ensures Pass(false, text) == (Pass(false, after).0, text[..i] + Pass(false, after).1)
  {
    PassOutside(text);
    PassInside(text[i + |OPEN|..]);
  }

  lemma OnePiece(text: string)
    ensures FeedAll(START, [text]) == Pass(false, text)
  {
    assert "" + text == text;
    var a := Feed(START, text);
    assert [text][1..] == [];
    assert FeedAll(a.0, []) == (a.0, "");
    assert a.1 + "" == a.1;
    assert FeedAll(START, [text]) == (a.0, a.1 + "");
  }

  /** For a text that arrives in one piece the stream equals the expression exactly when every
      opened block is closed. */
  lemma OnePieceEqualsRegexExactlyWhenClosed(text: string)
    ensures Streamed([text]) == Strip(text) <==> Closed(text)
  {
    OnePiece(text);
    PassAgainstRegex(text);
    PassSettles(false, text);
    var p := Pass(false, text);
    assert Streamed([text]) == p.1 + "" == p.1;
    if p.0.inThink {
      assert |Strip(text)| == |p.1| + |OPEN + p.0.buffer|;
    } else {
      assert p.1 + "" == p.1;
    }
  }

  lemma PassSettles(t: bool, text: string)
    ensures Settled(Pass(t, text).0)
  {
    DrainSettles(Scanner(text, t));
  }

  // ---------------------------------------------------------------- chunk boundaries

  /** Position n of the text falls strictly inside an opening tag that one pass acts on. */
  predicate Cuts(inThink: bool, text: string, n: int)
    decreases |text|, if inThink then 0 else 1
  {
    if inThink then
      var j := Find(text, CLOSE);
      j != -1 && Cuts(false, text[j + |CLOSE|..], n - j - |CLOSE|)
    else
      var i := Find(text, OPEN);
      i != -1 && i < n && (n < i + |OPEN| || Cuts(true, text[i + |OPEN|..], n - i - |OPEN|))
  }

  /** Some chunk ends inside such a tag, when `before` has been read already. */
  predicate Severed(inThink: bool, before: string, chunks: seq<string>)
    decreases |chunks|
  {
    chunks != [] &&
    (Cuts(inThink, before + Concat(chunks), |before| + |chunks[0]|)
     || Severed(inThink, before + chunks[0], chunks[1..]))
  }

  /** What is cut is an occurrence of the tag, so a caller may look for those alone. */
  lemma {:induction false} CutsAnOccurrence(inThink: bool, text: string, n: int)
    requires Cuts(inThink, text, n)
    ensures exists i :: At(text, i, OPEN) && i < n < i + |OPEN|
    decreases |text|, if inThink then 0 else 1
  {
    if inThink {
      var j := Find(text, CLOSE);
      var d := j + |CLOSE|;
      CutsAnOccurrence(false, text[d..], n - d);
      var i :| At(text[d..], i, OPEN) && i < n - d < i + |OPEN|;
      AtDrop(text, d, i, OPEN);
      assert At(text, d + i, OPEN);
    } else {
      var i := Find(text, OPEN);
      if n < i + |OPEN| {
        FindIsFirst(text, OPEN);
      } else {
        var d := i + |OPEN|;
        CutsAnOccurrence(true, text[d..], n - d);
        var k :| At(text[d..], k, OPEN) && k < n - d < k + |OPEN|;
        AtDrop(text, d, k, OPEN);
        assert At(text, d + k, OPEN);
      }
    }
  }

  lemma DropHead(a: string, b: string, tag: string)
    requires Find(a, tag) != -1
    ensures Find(a + b, tag) == Find(a, tag)
    ensures (a + b)[Find(a, tag) + |tag|..] == a[Find(a, tag) + |tag|..] + b
    ensures (a + b)[..Find(a, tag)] == a[..Find(a, tag)]
  {
    FindConcat(a, b, tag);
  }

  /** Reading the first part and then the second is one pass, unless the seam cuts a tag. */
  lemma {:induction false} Split(t: bool, a: string, b: string)
    requires !Cuts(t, a + b, |a|)
    ensures SplitsAt(t, a, b)
    decreases |a|, if t then 0 else 1
  {
    if t {
      if Find(a, CLOSE) != -1 {
        CutsInside(a, b, 0);
        Split(false, a[Find(a, CLOSE) + |CLOSE|..], b);
      }
      SplitInside(a, b);
    } else if Find(a, OPEN) == -1 {
      FindPast(a, b, OPEN);
      if Find(a + b, OPEN) == -1 { SplitPlain(a, b); } else { SplitBeyond(a, b); }
    } else {
      CutsOutside(a, b, 0);
      Split(true, a[Find(a, OPEN) + |OPEN|..], b);
      SplitOpening(a, b);
    }
  }

  predicate SplitsAt(t: bool, a: string, b: string) {
    var p := Pass(t, a);
    var q := Pass(p.0.inThink, p.0.buffer + b);
    Pass(t, a + b) == (q.0, p.1 + q.1)
  }

  lemma SplitInside(a: string, b: string)
    requires Find(a, CLOSE) != -1 ==> SplitsAt(false, a[Find(a, CLOSE) + |CLOSE|..], b)
    ensures SplitsAt(true, a, b)
  {
    PassInside(a);
    if Find(a, CLOSE) == -1 {
      var q := Pass(true, a + b);
      assert "" + q.1 == q.1;
    } else {
      DropHead(a, b, CLOSE);
      PassInside(a + b);
    }
  }

  lemma SplitOpening(a: string, b: string)
    requires Find(a, OPEN) != -1 && SplitsAt(true, a[Find(a, OPEN) + |OPEN|..], b)
    ensures SplitsAt(false, a, b)
  {
    DropHead(a, b, OPEN);
    PassOutside(a);
    PassOutside(a + b);
    var p := Pass(false, a);
    var q := Pass(p.0.inThink, p.0.buffer + b);
    var i := Find(a, OPEN);
    Appended(a[..i], Pass(true, a[i + |OPEN|..]).1, q.1);
  }

  /** No tag anywhere. */
  lemma SplitPlain(a: string, b: string)
    requires Find(a, OPEN) == Find(b, OPEN) == Find(a + b, OPEN) == -1
    ensures SplitsAt(false, a, b)
  {
    PassOutside(a);
    PassOutside(b);
    PassOutside(a + b);
    assert "" + b == b;
  }

  /** The first tag lies in the second part. */
  lemma SplitBeyond(a: string, b: string)
    requires Find(a, OPEN) == -1 && Find(b, OPEN) != -1 && Find(a + b, OPEN) == |a| + Find(b, OPEN)
    ensures SplitsAt(false, a, b)
  {
    PassOutside(a);
    PassOutside(b);
    PassOutside(a + b);
    assert "" + b == b;
    var k := Find(b, OPEN);
    DropBoth(a, b, k);
    DropBoth(a, b, k + |OPEN|);
    Appended(a, b[..k], Pass(true, b[k + |OPEN|..]).1);
  }

  lemma DropBoth(a: string, b: string, n: nat)
    requires n <= |b|
    ensures (a + b)[|a| + n..] == b[n..] && (a + b)[..|a| + n] == a + b[..n]
  {
  }

  /** Text read while in a block yields no more than the longer text read outside one. */
  lemma {:induction false} ThinkingYieldsLess(x: string, k: nat)
    requires k <= |x|
    ensures |Pass(true, x[k..]).1| <= |Pass(false, x).1|
    decreases |x|, 2
  {
    PassInside(x[k..]);
    var j := Find(x[k..], CLOSE);
    if j != -1 {
      FindIsFirst(x[k..], CLOSE);
      AtDrop(x, k, j, CLOSE);
      ThinkingEnds(x, k, k + j);
    }
  }

  /** The block ends with the closing tag c. */
  lemma ThinkingEnds(x: string, k: nat, c: int)
    requires k <= c && At(x, c, CLOSE) && Find(x[k..], CLOSE) == c - k
    ensures |Pass(true, x[k..]).1| <= |Pass(false, x).1|
    decreases |x|, 1
  {
    BlockEnds(x, k, c);
    var i := Find(x, OPEN);
    if i == -1 {
      PassOutside(x);
      YieldsNoMore(false, x[c + |CLOSE|..]);
    } else {
      FindIsFirst(x, OPEN);
      TagsAreApart(x, i, OPEN, c, CLOSE);
      if i < c { ThinkingInside(x, k, c, i); } else { ThinkingBefore(x, c + |CLOSE|, i); }
    }
  }

  lemma BlockEnds(x: string, k: nat, c: int)
    requires k <= c <= |x| - |CLOSE| && Find(x[k..], CLOSE) == c - k
    ensures Pass(true, x[k..]) == Pass(false, x[c + |CLOSE|..])
  {
    PassInside(x[k..]);
    assert x[k..][c - k + |CLOSE|..] == x[c + |CLOSE|..];
  }

  lemma {:induction false} YieldsNoMore(t: bool, x: string)
    ensures |Pass(t, x).1| <= |x|
    decreases |x|, if t then 0 else 1
  {
    if t {
      var j := Find(x, CLOSE);
      if j != -1 {
        YieldsNoMore(false, x[j + |CLOSE|..]);
        assert Pass(true, x) == Pass(false, x[j + |CLOSE|..]);
      }
    } else {
      var i := Find(x, OPEN);
      if i != -1 {
        YieldsNoMore(true, x[i + |OPEN|..]);
        assert Pass(false, x).1 == x[..i] + Pass(true, x[i + |OPEN|..]).1;
      }
    }
  }

  /** The block is closed at d before the first opening tag i of x. */
  lemma ThinkingBefore(x: string, d: nat, i: int)
    requires Find(x, OPEN) == i && d <= i
    ensures |Pass(false, x[d..]).1| <= |Pass(false, x).1|
  {
    FindDrop(x, OPEN, d);
    assert x[d..][i - d + |OPEN|..] == x[i + |OPEN|..];
    assert Pass(false, x).1 == x[..i] + Pass(true, x[i + |OPEN|..]).1;
    assert Pass(false, x[d..]).1 == x[d..][..i - d] + Pass(true, x[i + |OPEN|..]).1;
  }

  /** The first opening tag i of x comes before the closing tag c that ends the block: the pass over
      all of x is outside a block again at w, no later than the block ends. */
  lemma ThinkingInside(x: string, k: nat, c: int, i: int)
    requires k <= c && At(x, c, CLOSE) && Find(x[k..], CLOSE) == c - k
    requires Find(x, OPEN) == i >= 0 && i + |OPEN| <= c
    ensures |Pass(true, x[k..]).1| <= |Pass(false, x).1|
    decreases |x|, 0
  {
    var f := Reopened(x, c, i);
    if f <= c {
      var h := BlockInRest(x, k, f, c);
      ThinkingYieldsLess(x[f..], h);
    } else {
      BlockEnds(x, k, c);
    }
  }

  /** A block that ends at c is read alike from k and from some place of the text after f. */
  lemma BlockInRest(x: string, k: nat, f: nat, c: int) returns (h: nat)
    requires k <= c && f <= c && c + |CLOSE| <= |x| && Find(x[k..], CLOSE) == c - k
    ensures h <= |x| - f && Pass(true, x[k..]) == Pass(true, x[f..][h..])
  {
    h := if k < f then 0 else k - f;
    if k < f { SameBlock(x, k, f, c); }
    assert x[f..][h..] == x[if k < f then f else k..];
  }

  /** Where the pass over x is outside a block again after the opening tag i. */
  lemma Reopened(x: string, c: int, i: int) returns (f: nat)
    requires At(x, c, CLOSE) && Find(x, OPEN) == i >= 0 && i + |OPEN| <= c
    ensures 0 < f <= |x| && (f <= c || f == c + |CLOSE|)
    ensures |Pass(false, x).1| == i + |Pass(false, x[f..]).1|
  {
    f := NextClose(x, i + |OPEN|, c);
    SkipsBlock(x, i, f);
  }

  lemma SkipsBlock(x: string, i: int, f: nat)
    requires Find(x, OPEN) == i >= 0 && i + |OPEN| <= f - |CLOSE| <= f <= |x|
    requires Find(x[i + |OPEN|..], CLOSE) == f - |CLOSE| - i - |OPEN|
    ensures |Pass(false, x).1| == i + |Pass(false, x[f..]).1|
  {
    PassOutside(x);
    BlockEnds(x, i + |OPEN|, f - |CLOSE|);
  }

  /** The end of the first closing tag from d on. */
  lemma NextClose(x: string, d: nat, c: int) returns (f: nat)
    requires At(x, c, CLOSE) && d <= c
    ensures |CLOSE| <= f <= |x| && Find(x[d..], CLOSE) == f - |CLOSE| - d
    ensures d <= f - |CLOSE| && (f <= c || f == c + |CLOSE|)
  {
    var z := x[d..];
    AtDrop(x, d, c - d, CLOSE);
    assert At(z, c - d, CLOSE);
    FindIsFirst(z, CLOSE);
    var e := Find(z, CLOSE);
    assert e != -1 && e <= c - d;
    AtDrop(x, d, e, CLOSE);
    f := d + e + |CLOSE|;
    if d + e != c { TagsAreApart(x, d + e, CLOSE, c, CLOSE); }
  }

  /** Between k and the closing tag c that ends the block it does not matter where one starts. */
  lemma SameBlock(x: string, k: nat, f: nat, c: int)
    requires k <= f <= c && c + |CLOSE| <= |x| && Find(x[k..], CLOSE) == c - k
    ensures Pass(true, x[k..]) == Pass(true, x[f..])
  {
    FindDrop(x[k..], CLOSE, f - k);
    assert x[k..][f - k..] == x[f..];
    BlockEnds(x, k, c);
    BlockEnds(x, f, c);
  }

  // ---------------------------------------------------------------- cut and uncut chunkings

  /** A seam that cuts a tag makes the rest yield strictly more than one pass would. */
  lemma {:induction false} CutYieldsMore(t: bool, a: string, b: string)
    requires Cuts(t, a + b, |a|)
    ensures var p := Pass(t, a);
            |Pass(t, a + b).1| < |p.1| + |Pass(p.0.inThink, p.0.buffer + b).1|
    decreases |a|, if t then 0 else 1
  {
    if t {
      if Find(a, CLOSE) == -1 { CutNotInside(a, b); }
      CutsAfterHead(t, a, b);
      CutYieldsMore(false, a[Find(a, CLOSE) + |CLOSE|..], b);
      CutHead(t, a, b);
    } else if Find(a, OPEN) != -1 {
      CutsAfterHead(t, a, b);
      CutYieldsMore(true, a[Find(a, OPEN) + |OPEN|..], b);
      CutHead(t, a, b);
    } else {
      CutHere(a, b);
    }
  }

  lemma CutsAfterHead(t: bool, a: string, b: string)
    requires Find(a, if t then CLOSE else OPEN) != -1
    ensures var x := a[Find(a, if t then CLOSE else OPEN) + |if t then CLOSE else OPEN|..];
            Cuts(t, a + b, |a|) == Cuts(!t, x + b, |x|)
  {
    DropHead(a, b, if t then CLOSE else OPEN);
  }

  lemma CutHead(t: bool, a: string, b: string)
    requires var tag := if t then CLOSE else OPEN;
             Find(a, tag) != -1 &&
             var d := Find(a, tag) + |tag|;
             var p := Pass(!t, a[d..]);
             |Pass(!t, a[d..] + b).1| < |p.1| + |Pass(p.0.inThink, p.0.buffer + b).1|
    ensures var p := Pass(t, a);
            |Pass(t, a + b).1| < |p.1| + |Pass(p.0.inThink, p.0.buffer + b).1|
  {
    DropHead(a, b, if t then CLOSE else OPEN);
    if t {
      PassInside(a);
      PassInside(a + b);
    } else {
      PassOutside(a);
      PassOutside(a + b);
    }
  }

  /** Inside a block nothing before its end is cut. */
  lemma CutNotInside(a: string, b: string)
    requires Find(a, CLOSE) == -1
    ensures !Cuts(true, a + b, |a|)
  {
    FindPast(a, b, CLOSE);
    var j := Find(a + b, CLOSE);
    if j != -1 { CutsAhead((a + b)[j + |CLOSE|..], |a| - j - |CLOSE|); }
  }

  lemma CutsAhead(x: string, n: int)
    requires n <= 0
    ensures !Cuts(false, x, n)
  {
  }

  /** The cut tag leaks, and what follows is read outside a block. */
  lemma CutHere(a: string, b: string)
    requires Find(a, OPEN) == -1 && Cuts(false, a + b, |a|)
    ensures var p := Pass(false, a);
            |Pass(false, a + b).1| < |p.1| + |Pass(p.0.inThink, p.0.buffer + b).1|
  {
    FindPast(a, b, OPEN);
    var i := Find(a + b, OPEN);
    PassOutside(a);
    PassOutside(a + b);
    var k := i + |OPEN| - |a|;
    assert i < |a| && 0 <= k <= |b|;
    DropBoth(a, b, k);
    assert "" + b == b;
    ThinkingYieldsLess(b, k);
  }

  predicate CutsSame(t: bool, a: string, b: string, m: nat) {
    var p := Pass(t, a).0;
    Cuts(t, a + b, |a| + m) == Cuts(p.inThink, p.buffer + b, |p.buffer| + m)
  }

  /** Beyond a seam that cuts nothing, the rest of the text is cut where it was. */
  lemma {:induction false} CutsBeyond(t: bool, a: string, b: string, m: nat)
    requires !Cuts(t, a + b, |a|)
    ensures CutsSame(t, a, b, m)
    decreases |a|, if t then 0 else 1
  {
    if t {
      PassInside(a);
      if Find(a, CLOSE) != -1 {
        CutsInside(a, b, 0);
        CutsInside(a, b, m);
        CutsBeyond(false, a[Find(a, CLOSE) + |CLOSE|..], b, m);
      }
    } else if Find(a, OPEN) != -1 {
      CutsOutside(a, b, 0);
      CutsOutside(a, b, m);
      CutsBeyond(true, a[Find(a, OPEN) + |OPEN|..], b, m);
    } else {
      FindPast(a, b, OPEN);
      CutsBeyondPlain(a, b, m);
    }
  }

  lemma CutsInside(a: string, b: string, m: nat)
    requires Find(a, CLOSE) != -1
    ensures var x := a[Find(a, CLOSE) + |CLOSE|..];
            Cuts(true, a + b, |a| + m) == Cuts(false, x + b, |x| + m)
            && CutsSame(true, a, b, m) == CutsSame(false, x, b, m)
  {
    PassInside(a);
    DropHead(a, b, CLOSE);
  }

  lemma CutsOutside(a: string, b: string, m: nat)
    requires Find(a, OPEN) != -1
    ensures var x := a[Find(a, OPEN) + |OPEN|..];
            Cuts(false, a + b, |a| + m) == Cuts(true, x + b, |x| + m)
            && CutsSame(false, a, b, m) == CutsSame(true, x, b, m)
  {
    PassOutside(a);
    DropHead(a, b, OPEN);
  }

  lemma CutsBeyondPlain(a: string, b: string, m: nat)
    requires Find(a, OPEN) == -1
    requires var k := Find(a + b, OPEN); if k < |a| then k == -1 == Find(b, OPEN) else Find(b, OPEN) == k - |a|
    ensures CutsSame(false, a, b, m)
  {
    ReadPlain(a, b, m);
    if Find(b, OPEN) != -1 { DropBoth(a, b, Find(b, OPEN) + |OPEN|); }
    CutsShifted(a + b, b, |a|, m);
  }

  /** A text without an opening tag leaves the scanner as it was. */
  lemma ReadPlain(a: string, b: string, m: nat)
    requires Find(a, OPEN) == -1
    ensures CutsSame(false, a, b, m) == (Cuts(false, a + b, |a| + m) == Cuts(false, b, m))
  {
    PassOutside(a);
    assert "" + b == b;
  }

  /** Two texts that agree from their opening tags on, d apart. */
  lemma CutsShifted(x: string, y: string, d: nat, m: nat)
    requires var i, j := Find(x, OPEN), Find(y, OPEN);
             if j == -1 then i == -1 else j >= 0 && i == d + j && x[i + |OPEN|..] == y[j + |OPEN|..]
    ensures Cuts(false, x, d + m) == Cuts(false, y, m)
  {
  }

  /** Two places from which the rest of the text is cut alike, m further on. */
  predicate CutAlike(t: bool, a: string, u: bool, c: string, rest: string, m: nat) {
    Cuts(t, a + rest, |a| + m) == Cuts(u, c + rest, |c| + m)
  }

  lemma {:induction false} SeveredAlike(t: bool, a: string, u: bool, c: string, before: string, chunks: seq<string>)
    requires forall m: nat :: CutAlike(t, a, u, c, before + Concat(chunks), m)
    ensures Severed(t, a + before, chunks) == Severed(u, c + before, chunks)
    decreases |chunks|
  {
    if chunks != [] {
      SeveredStep(t, a, before, chunks);
      SeveredStep(u, c, before, chunks);
      assert CutAlike(t, a, u, c, before + Concat(chunks), |before| + |chunks[0]|);
      SeveredAlike(t, a, u, c, before + chunks[0], chunks[1..]);
    }
  }

  lemma SeveredStep(t: bool, a: string, before: string, chunks: seq<string>)
    requires chunks != []
    ensures Severed(t, a + before, chunks)
         == (Cuts(t, a + (before + Concat(chunks)), |a| + (|before| + |chunks[0]|))
             || Severed(t, a + (before + chunks[0]), chunks[1..]))
    ensures (before + chunks[0]) + Concat(chunks[1..]) == before + Concat(chunks)
  {
    Appended(a, before, Concat(chunks));
    Appended(a, before, chunks[0]);
    Appended(before, chunks[0], Concat(chunks[1..]));
  }

  /** The outcome of feeding chunks one after the other against that of one pass over all of them. */
  predicate AgreesExactlyWhenUncut(s: Scanner, chunks: seq<string>) {
    var p := Pass(s.inThink, s.buffer + Concat(chunks));
    if Severed(s.inThink, s.buffer, chunks) then |FeedAll(s, chunks).1| > |p.1| else FeedAll(s, chunks) == p
  }

  /** Feeding the chunks one after the other is one pass when none of them ends inside a tag, and
      otherwise yields strictly more. */
  lemma {:induction false} FeedAllAgainstPass(s: Scanner, chunks: seq<string>)
    requires Settled(s)
    ensures AgreesExactlyWhenUncut(s, chunks)
    decreases |chunks|
  {
    if chunks == [] {
      assert s.buffer + Concat(chunks) == s.buffer;
      SettledPass(s);
    } else {
      var a := s.buffer + chunks[0];
      PassSettles(s.inThink, a);
      FeedAllAgainstPass(Pass(s.inThink, a).0, chunks[1..]);
      if Cuts(s.inThink, a + Concat(chunks[1..]), |a|) {
        StepCut(s, chunks);
      } else {
        StepUncut(s, chunks);
      }
    }
  }

  lemma StepCut(s: Scanner, chunks: seq<string>)
    requires chunks != []
    requires var a := s.buffer + chunks[0];
             Cuts(s.inThink, a + Concat(chunks[1..]), |a|)
             && AgreesExactlyWhenUncut(Pass(s.inThink, a).0, chunks[1..])
    ensures AgreesExactlyWhenUncut(s, chunks)
  {
    var a := s.buffer + chunks[0];
    SeveredFirst(s, chunks);
    CutYieldsMore(s.inThink, a, Concat(chunks[1..]));
    YieldsNoLess(Pass(s.inThink, a).0, chunks[1..]);
    FeedFirst(s, chunks);
  }

  /** A seam that cuts right after the first chunk. */
  lemma SeveredFirst(s: Scanner, chunks: seq<string>)
    requires chunks != []
    ensures s.buffer + Concat(chunks) == s.buffer + chunks[0] + Concat(chunks[1..])
    ensures Cuts(s.inThink, s.buffer + chunks[0] + Concat(chunks[1..]), |s.buffer + chunks[0]|)
            ==> Severed(s.inThink, s.buffer, chunks)
  {
    Appended(s.buffer, chunks[0], Concat(chunks[1..]));
  }

  lemma YieldsNoLess(s: Scanner, chunks: seq<string>)
    requires AgreesExactlyWhenUncut(s, chunks)
    ensures |Pass(s.inThink, s.buffer + Concat(chunks)).1| <= |FeedAll(s, chunks).1|
  {
  }

  lemma FeedFirst(s: Scanner, chunks: seq<string>)
    requires chunks != []
    ensures var p := Pass(s.inThink, s.buffer + chunks[0]);
            FeedAll(s, chunks).1 == p.1 + FeedAll(p.0, chunks[1..]).1
  {
  }

  lemma StepUncut(s: Scanner, chunks: seq<string>)
    requires chunks != []
    requires var a := s.buffer + chunks[0];
             !Cuts(s.inThink, a + Concat(chunks[1..]), |a|)
             && AgreesExactlyWhenUncut(Pass(s.inThink, a).0, chunks[1..])
    ensures AgreesExactlyWhenUncut(s, chunks)
  {
    Appended(s.buffer, chunks[0], Concat(chunks[1..]));
    Split(s.inThink, s.buffer + chunks[0], Concat(chunks[1..]));
    SeveredAfter(s.inThink, s.buffer + chunks[0], chunks[1..]);
  }

  lemma SeveredAfter(t: bool, a: string, chunks: seq<string>)
    requires !Cuts(t, a + Concat(chunks), |a|)
    ensures var p := Pass(t, a).0; Severed(t, a, chunks) == Severed(p.inThink, p.buffer, chunks)
  {
    var p := Pass(t, a).0;
    assert "" + Concat(chunks) == Concat(chunks) && a + "" == a && p.buffer + "" == p.buffer;
    forall m: nat ensures CutAlike(t, a, p.inThink, p.buffer, Concat(chunks), m) {
      CutsBeyond(t, a, Concat(chunks), m);
    }
    SeveredAlike(t, a, p.inThink, p.buffer, "", chunks);
  }

  lemma SettledPass(s: Scanner)
    requires Settled(s)
    ensures Pass(s.inThink, s.buffer) == (s, "")
  {
    if s.inThink { PassInside(s.buffer); } else { PassOutside(s.buffer); }
  }

  // ---------------------------------------------------------------- main results

  /** The chunking does not matter exactly when no chunk ends inside an opening tag that starts a
      block; closing tags, and opening tags inside a block, may be cut anywhere. */
  lemma ChunkingIsHarmlessExactlyWhenUncut(chunks: seq<string>)
    ensures Streamed(chunks) == Streamed([Concat(chunks)]) <==> !Severed(false, "", chunks)
    ensures Severed(false, "", chunks) ==> |Streamed(chunks)| > |Streamed([Concat(chunks)])|
  {
    var text := Concat(chunks);
    assert "" + text == text;
    FeedAllAgainstPass(START, chunks);
    OnePiece(text);
    NothingLeftToFlush(chunks);
    NothingLeftToFlush([text]);
  }

  /** When every opened block is closed, the stream equals the expression exactly when no chunk ends
      inside such a tag. */
  lemma StreamEqualsRegexExactlyWhenUncut(chunks: seq<string>)
    requires Closed(Concat(chunks))
    ensures Streamed(chunks) == Strip(Concat(chunks)) <==> !Severed(false, "", chunks)
  {
    ChunkingIsHarmlessExactlyWhenUncut(chunks);
    OnePieceEqualsRegexExactlyWhenClosed(Concat(chunks));
  }

  /** When no chunk ends inside such a tag, it equals the expression exactly when every opened block
      is closed. */
  lemma StreamEqualsRegexExactlyWhenClosed(chunks: seq<string>)
    requires !Severed(false, "", chunks)
    ensures Streamed(chunks) == Strip(Concat(chunks)) <==> Closed(Concat(chunks))
  {
    ChunkingIsHarmlessExactlyWhenUncut(chunks);
    OnePieceEqualsRegexExactlyWhenClosed(Concat(chunks));
  }

  /** The flush after the last chunk never has anything to yield. */
  lemma NothingLeftToFlush(chunks: seq<string>)
    ensures Streamed(chunks) == FeedAll(START, chunks).1
  {
    FeedAllSettles(START, chunks);
    var out := FeedAll(START, chunks).1;
    assert out + "" == out;
  }

  lemma {:induction false} FeedAllSettles(s: Scanner, chunks: seq<string>)
    requires Settled(s)
    ensures Settled(FeedAll(s, chunks).0)
    decreases |chunks|
  {
    if chunks != [] {
      DrainSettles(s.(buffer := s.buffer + chunks[0]));
      FeedAllSettles(Feed(s, chunks[0]).0, chunks[1..]);
    }
  }

  /** Position n falls inside some occurrence of the opening tag. */
  ghost predicate Straddled(text: string, n: int) { exists i :: At(text, i, OPEN) && i < n < i + |OPEN| }

  /** A sufficient condition that mentions neither the scanner nor blocks. */
  lemma {:induction false} UncutWhenNothingStraddled(before: string, chunks: seq<string>)
    requires forall k :: 0 <= k <= |chunks| ==> !Straddled(before + Concat(chunks), |before| + |Concat(chunks[..k])|)
    ensures !Severed(false, before, chunks)
    decreases |chunks|
  {
    if chunks != [] {
      var text := before + Concat(chunks);
      var next := before + chunks[0];
      Appended(before, chunks[0], Concat(chunks[1..]));
      forall k | 0 <= k <= |chunks[1..]| ensures !Straddled(text, |next| + |Concat(chunks[1..][..k])|) {
        BoundaryShifts(before, chunks, k);
        assert !Straddled(text, |before| + |Concat(chunks[..k + 1])|);
      }
      UncutWhenNothingStraddled(next, chunks[1..]);
      NotCutAtFirst(text, next, chunks[1..]);
    }
  }

  lemma NotCutAtFirst(text: string, next: string, rest: seq<string>)
    requires !Straddled(text, |next| + |Concat(rest[..0])|)
    ensures !Cuts(false, text, |next|)
  {
    assert rest[..0] == [];
    if Cuts(false, text, |next|) { CutsAnOccurrence(false, text, |next|); }
  }

  lemma BoundaryShifts(before: string, chunks: seq<string>, k: nat)
    requires k < |chunks|
    ensures |before| + |Concat(chunks[..k + 1])| == |before + chunks[0]| + |Concat(chunks[1..][..k])|
  {
    assert chunks[..k + 1][1..] == chunks[1..][..k];
  }

  /** A cut opening tag leaks: the expression removes the whole text, the stream shows some of it. */
  lemma CutTagLeaks(body: string)
    requires '<' !in body
    ensures var chunks := ["<th", "ink>" + (body + "</think>")];
            Closed(Concat(chunks)) && Strip(Concat(chunks)) == "" && Streamed(chunks) != ""
  {
    var first, second := "<th", "ink>" + (body + CLOSE);
    var chunks := [first, second];
    var text := OPEN + (body + CLOSE);
    assert chunks[1..] == [second] && chunks[1..][1..] == [];
    assert Concat([second]) == second + "" == second;
    assert Concat(chunks) == first + second == text;
    BlockIsStripped(body);
    assert "" + Concat(chunks) == Concat(chunks);
    assert Cuts(false, text, 3);
    StreamEqualsRegexExactlyWhenUncut(chunks);
  }

  lemma BlockIsStripped(body: string)
    requires '<' !in body
    ensures var text := OPEN + (body + CLOSE); Strip(text) == "" && Closed(text) && Find(text, OPEN) == 0
  {
    var rest := body + CLOSE;
    var text := OPEN + rest;
    AtConcat(OPEN, rest, 0, OPEN);
    assert OPEN[0..|OPEN|] == OPEN;
    FindIs(text, OPEN, 0);
    assert text[|OPEN|..] == rest;
    BlockEndsAfter(body);
    assert rest[|body| + |CLOSE|..] == "" && text[..0] == "";
  }

  lemma BlockEndsAfter(body: string)
    requires '<' !in body
    ensures Find(body + CLOSE, CLOSE) == |body|
  {
    var rest := body + CLOSE;
    assert CLOSE[0..|CLOSE|] == CLOSE && CLOSE[0] == '<';
    AtConcat(body, CLOSE, |body|, CLOSE);
    forall k | 0 <= k < |body| ensures !At(rest, k, CLOSE) {
      assert rest[k..k + |CLOSE|][0] == rest[k] == body[k];
    }
    FindIs(rest, CLOSE, |body|);
  }
}
