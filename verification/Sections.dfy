/** python/playwright-service/app.py, capture_sections: from the boxes found on a page to the
    sections that are cut out of its screenshot. Geometry is over the reals. */
module Sections {

  // ---------------------------------------------------------------- specification

  datatype Section = Section(y: real, height: real, width: real, selector: string) {
    function End(): real { y + height }
  }

  const CHUNK_HEIGHT := 800.0
  const MAX_GAP := 100.0

  function Min(a: real, b: real): real { if a <= b then a else b }

  function Max(a: real, b: real): real { if a >= b then a else b }

  function Overlap(a: Section, b: Section): real {
    Max(0.0, Min(a.End(), b.End()) - Max(a.y, b.y))
  }

  /** The share of the smaller section that two sections have in common. */
  function OverlapShare(a: Section, b: Section): real {
    var m := Min(a.height, b.height);
    if m > 0.0 then Overlap(a, b) / m else 0.0
  }

  /** The boxes kept by the selector loop. */
  function TallEnough(boxes: seq<Section>, minHeight: real): (r: seq<Section>)
    ensures forall s <- r :: s in boxes && s.height >= minHeight
    ensures forall s <- boxes :: s.height >= minHeight ==> s in r
  {
    if boxes == [] then []
    else (if boxes[0].height >= minHeight then [boxes[0]] else []) + TallEnough(boxes[1..], minHeight)
  }

  /** Chunks number k and up of a page of the given height. */
  function Chunks(k: nat, pageHeight: real, minHeight: real, width: real): seq<Section>
    decreases pageHeight - CHUNK_HEIGHT * k as real
  {
    var y := CHUNK_HEIGHT * k as real;
    if y >= pageHeight then []
    else
      var h := Min(CHUNK_HEIGHT, pageHeight - y);
      (if h >= minHeight then [Section(y, h, width, "viewport_chunk")] else [])
        + Chunks(k + 1, pageHeight, minHeight, width)
  }

  function Candidates(boxes: seq<Section>, minHeight: real, pageHeight: real, width: real): seq<Section> {
    var found := TallEnough(boxes, minHeight);
    if |found| < 3 then Chunks(0, pageHeight, minHeight, width) else found
  }

  function Insert(s: Section, sorted: seq<Section>): seq<Section> {
    if sorted == [] || s.y <= sorted[0].y then [s] + sorted else [sorted[0]] + Insert(s, sorted[1..])
  }

  /** The stable sort by y. */
  function SortByY(raw: seq<Section>): seq<Section> {
    if raw == [] then [] else Insert(raw[0], SortByY(raw[1..]))
  }

  /** The de-overlap pass: a section is compared with the last kept one only. */
  function DedupeOnto(kept: seq<Section>, rest: seq<Section>): seq<Section>
    decreases rest
  {
    if rest == [] then kept
    else if kept != [] && OverlapShare(kept[|kept| - 1], rest[0]) > 0.5 then DedupeOnto(kept, rest[1..])
    else DedupeOnto(kept + [rest[0]], rest[1..])
  }

  /** Whether the merge pass joins a section to the one before it. */
  predicate Joins(prev: Section, sec: Section, threshold: real) {
    sec.height < threshold && sec.y - prev.End() < MAX_GAP && prev.height < threshold
  }

  function Joined(prev: Section, sec: Section): Section {
    prev.(height := sec.End() - prev.y, selector := "merged")
  }

  function MergeOnto(merged: seq<Section>, rest: seq<Section>, threshold: real): seq<Section>
    decreases rest
  {
    if rest == [] then merged
    else
      var last := |merged| - 1;
      if merged != [] && Joins(merged[last], rest[0], threshold) then
        MergeOnto(merged[last := Joined(merged[last], rest[0])], rest[1..], threshold)
      else MergeOnto(merged + [rest[0]], rest[1..], threshold)
  }

  function Capped(s: seq<Section>, maxSections: nat): seq<Section> {
    if |s| > maxSections then s[..maxSections] else s
  }

  /** The whole pipeline between the page and the screenshots. */
  function Capture(boxes: seq<Section>, minHeight: real, pageHeight: real, width: real,
                   threshold: real, maxSections: nat): seq<Section>
  {
    var raw := SortByY(Candidates(boxes, minHeight, pageHeight, width));
    Capped(MergeOnto([], DedupeOnto([], raw), threshold), maxSections)
  }

  // ---------------------------------------------------------------- the loops

  method ChunkPage(pageHeight: real, minHeight: real, width: real) returns (raw: seq<Section>)
    ensures raw == Chunks(0, pageHeight, minHeight, width)
  {
    raw := [];
    var k: nat := 0;
    var y := 0.0;
    while y < pageHeight
      invariant y == CHUNK_HEIGHT * k as real
      invariant raw + Chunks(k, pageHeight, minHeight, width) == Chunks(0, pageHeight, minHeight, width)
      decreases pageHeight - y
    {
      var h := Min(CHUNK_HEIGHT, pageHeight - y);
      if h >= minHeight {
        raw := raw + [Section(y, h, width, "viewport_chunk")];
      }
      y := y + CHUNK_HEIGHT;
      k := k + 1;
    }
  }

  method Dedupe(raw: seq<Section>) returns (deduped: seq<Section>)
    ensures deduped == DedupeOnto([], raw)
  {
    deduped := [];
    for i := 0 to |raw|
      invariant DedupeOnto(deduped, raw[i..]) == DedupeOnto([], raw)
    {
      var sec := raw[i];
      assert raw[i..][1..] == raw[i + 1..];
      if deduped != [] {
        var prev := deduped[|deduped| - 1];
        if OverlapShare(prev, sec) > 0.5 {
          continue;
        }
      }
      deduped := deduped + [sec];
    }
  }

  /** A section dictionary, whose height and selector the merge pass overwrites. */
  class SectionBox {
    const y: real
    var height: real
    const width: real
    var selector: string

    function View(): Section
      reads this
    {
      Section(y, height, width, selector)
    }

    constructor (s: Section)
      ensures View() == s
    {
      y, height, width, selector := s.y, s.height, s.width, s.selector;
    }

    method Absorb(sec: SectionBox)
      modifies this
      ensures View() == Joined(old(View()), old(sec.View()))
    {
      height := (sec.y + sec.height) - y;
      selector := "merged";
    }
  }

  function Views(boxes: seq<SectionBox>): (r: seq<Section>)
    reads boxes
    ensures |r| == |boxes|
    ensures forall i :: 0 <= i < |boxes| ==> r[i] == boxes[i].View()
  {
    if boxes == [] then [] else [boxes[0].View()] + Views(boxes[1..])
  }

  ghost predicate DistinctBoxes(boxes: seq<SectionBox>) {
    forall i, j :: 0 <= i < j < |boxes| ==> boxes[i] != boxes[j]
  }

  /** The boxes in `merged` show `views`; they come from the first i boxes, the others are untouched. */
  ghost predicate Merging(deduped: seq<SectionBox>, was: seq<Section>, i: nat,
                          merged: seq<SectionBox>, views: seq<Section>)
    requires i <= |deduped| == |was|
    reads deduped, merged
  {
    && |merged| == |views|
    && DistinctBoxes(merged)
    && (forall j :: 0 <= j < |merged| ==> merged[j] in deduped[..i] && merged[j].View() == views[j])
    && (forall k :: i <= k < |deduped| ==> deduped[k].View() == was[k])
  }

  /** One round of the merge loop. */
  method MergeNext(deduped: seq<SectionBox>, ghost was: seq<Section>, i: nat,
                   merged: seq<SectionBox>, ghost views: seq<Section>, threshold: real)
    returns (next: seq<SectionBox>, ghost nextViews: seq<Section>)
    requires i < |deduped| == |was| && DistinctBoxes(deduped) && Merging(deduped, was, i, merged, views)
    modifies merged
    ensures Merging(deduped, was, i + 1, next, nextViews)
    ensures nextViews ==
      if views != [] && Joins(views[|views| - 1], was[i], threshold)
      then views[|views| - 1 := Joined(views[|views| - 1], was[i])] else views + [was[i]]
  {
    var sec := deduped[i];
    assert forall b <- deduped[..i] :: b in deduped[..i + 1] && b != sec;
    if merged != [] && sec.height < threshold {
      var prev := merged[|merged| - 1];
      var gap := sec.y - (prev.y + prev.height);
      if gap < MAX_GAP && prev.height < threshold {
        prev.Absorb(sec);
        return merged, views[|views| - 1 := Joined(views[|views| - 1], was[i])];
      }
    }
    next, nextViews := merged + [sec], views + [was[i]];
  }

  method Merge(deduped: seq<SectionBox>, threshold: real) returns (merged: seq<SectionBox>)
    requires DistinctBoxes(deduped)
    modifies deduped
    ensures Views(merged) == MergeOnto([], old(Views(deduped)), threshold)
    ensures forall b <- merged :: b in deduped
  {
    merged := [];
    ghost var was, views := Views(deduped), [];
    for i := 0 to |deduped|
      invariant Merging(deduped, was, i, merged, views)
      invariant MergeOnto(views, was[i..], threshold) == MergeOnto([], was, threshold)
    {
      assert was[i..][1..] == was[i + 1..];
      assert forall b <- merged :: b in deduped;
      merged, views := MergeNext(deduped, was, i, merged, views, threshold);
    }
    assert Views(merged) == views;
  }

  // ---------------------------------------------------------------- sorting

  ghost predicate SortedByY(s: seq<Section>) { forall i, j :: 0 <= i < j < |s| ==> s[i].y <= s[j].y }

  lemma {:induction false} InsertSorts(s: Section, sorted: seq<Section>)
    requires SortedByY(sorted)
    ensures SortedByY(Insert(s, sorted))
  {
    if sorted != [] && s.y > sorted[0].y {
      InsertSorts(s, sorted[1..]);
      InsertKeeps(s, sorted[1..]);
      var r := Insert(s, sorted[1..]);
      forall k | 0 <= k < |r| ensures sorted[0].y <= r[k].y {
        assert r[k] in multiset(r);
        if r[k] != s { assert r[k] in sorted[1..]; }
      }
    }
  }

  lemma {:induction false} InsertKeeps(s: Section, sorted: seq<Section>)
    ensures multiset(Insert(s, sorted)) == multiset{s} + multiset(sorted)
  {
    if sorted != [] && s.y > sorted[0].y {
      InsertKeeps(s, sorted[1..]);
      assert sorted == [sorted[0]] + sorted[1..];
    }
  }

  lemma {:induction false} SortSorts(raw: seq<Section>)
    ensures SortedByY(SortByY(raw)) && multiset(SortByY(raw)) == multiset(raw)
  {
    if raw != [] {
      SortSorts(raw[1..]);
      InsertSorts(raw[0], SortByY(raw[1..]));
      InsertKeeps(raw[0], SortByY(raw[1..]));
      assert raw == [raw[0]] + raw[1..];
    }
  }

  // ---------------------------------------------------------------- de-overlap

  ghost predicate Positive(s: seq<Section>) { forall i :: 0 <= i < |s| ==> s[i].height > 0.0 }

  /** b starts and ends after a, and they share at most half of the smaller one. */
  predicate Follows(a: Section, b: Section) {
    && a.y <= b.y
    && a.End() < b.End()
    && Overlap(a, b) <= 0.5 * Min(a.height, b.height)
  }

  /** Every two sections of the list, not only neighbours. */
  ghost predicate Apart(s: seq<Section>) {
    Positive(s) && forall i, j :: 0 <= i < j < |s| ==> Follows(s[i], s[j])
  }

  lemma ShareIsHalf(x: real, m: real)
    requires m > 0.0
    ensures x / m > 0.5 <==> x > 0.5 * m
  {
    assert x == (x / m) * m;
    if x / m > 0.5 { assert (x / m) * m > 0.5 * m; }
    if x / m <= 0.5 { assert (x / m) * m <= 0.5 * m; }
  }

  /** The local test decides between following and overlapping by more than half. */
  lemma LocalTest(a: Section, b: Section)
    requires a.height > 0.0 && b.height > 0.0 && a.y <= b.y
    ensures OverlapShare(a, b) > 0.5 <==> !Follows(a, b)
  {
    ShareIsHalf(Overlap(a, b), Min(a.height, b.height));
  }

  /** Why comparing with the last kept section is enough. */
  lemma FollowsIsTransitive(a: Section, b: Section, c: Section)
    requires a.height > 0.0 && b.height > 0.0 && c.height > 0.0
    requires Follows(a, b) && Follows(b, c)
    ensures Follows(a, c)
  {
  }

  lemma AppendApart(kept: seq<Section>, s: Section)
    requires Apart(kept) && s.height > 0.0 && (kept != [] ==> Follows(kept[|kept| - 1], s))
    ensures Apart(kept + [s])
  {
    var last := |kept| - 1;
    forall i | 0 <= i < |kept| ensures Follows(kept[i], s) {
      if i < last { FollowsIsTransitive(kept[i], kept[last], s); }
    }
  }

  /** `rest` is sorted, positive and starts no higher than the last kept section. */
  ghost predicate Below(kept: seq<Section>, rest: seq<Section>) {
    && Positive(rest) && SortedByY(rest)
    && (kept != [] && rest != [] ==> kept[|kept| - 1].y <= rest[0].y)
  }

  lemma {:induction false} DedupeIsApart(kept: seq<Section>, rest: seq<Section>)
    requires Apart(kept) && Below(kept, rest)
    ensures Apart(DedupeOnto(kept, rest))
    ensures forall s <- DedupeOnto(kept, rest) :: s in kept || s in rest
    ensures kept <= DedupeOnto(kept, rest)
    decreases rest
  {
    if rest != [] {
      var s := rest[0];
      assert forall x <- rest[1..] :: x in rest;
      if kept != [] { LocalTest(kept[|kept| - 1], s); }
      if kept != [] && OverlapShare(kept[|kept| - 1], s) > 0.5 {
        assert rest[1..] != [] ==> s.y <= rest[1..][0].y;
        DedupeIsApart(kept, rest[1..]);
      } else {
        AppendApart(kept, s);
        DedupeIsApart(kept + [s], rest[1..]);
      }
    }
  }

  /** No section disappears without cause: a dropped one overlaps a kept one by more than half. */
  lemma {:induction false} DroppedOverlapKept(kept: seq<Section>, rest: seq<Section>, i: nat)
    requires i < |rest|
    ensures var d := DedupeOnto(kept, rest);
            rest[i] in d || exists k <- d :: OverlapShare(k, rest[i]) > 0.5
    decreases rest
  {
    var d := DedupeOnto(kept, rest);
    var drops := kept != [] && OverlapShare(kept[|kept| - 1], rest[0]) > 0.5;
    var kept' := if drops then kept else kept + [rest[0]];
    if i == 0 {
      DedupeKeeps(kept', rest[1..]);
      if drops { assert kept[|kept| - 1] in d; } else { assert kept'[|kept|] in d; }
    } else {
      DroppedOverlapKept(kept', rest[1..], i - 1);
      assert rest[i] == rest[1..][i - 1];
    }
  }

  lemma {:induction false} DedupeKeeps(kept: seq<Section>, rest: seq<Section>)
    ensures kept <= DedupeOnto(kept, rest)
    decreases rest
  {
    if rest != [] {
      DedupeKeeps(kept, rest[1..]);
      DedupeKeeps(kept + [rest[0]], rest[1..]);
    }
  }

  lemma {:induction false} ApartIsKept(kept: seq<Section>, rest: seq<Section>)
    requires Apart(kept + rest)
    ensures DedupeOnto(kept, rest) == kept + rest
    decreases rest
  {
    if rest == [] {
      assert kept + rest == kept;
    } else {
      var all := kept + rest;
      if kept != [] {
        assert Follows(all[|kept| - 1], all[|kept|]);
        LocalTest(all[|kept| - 1], all[|kept|]);
      }
      assert (kept + [rest[0]]) + rest[1..] == all;
      ApartIsKept(kept + [rest[0]], rest[1..]);
    }
  }

  /** The local test gives a global bound, and a second pass keeps everything. */
  lemma DedupeSeparates(raw: seq<Section>)
    requires Positive(raw)
    ensures var d := DedupeOnto([], SortByY(raw));
            && Apart(d)
            && (forall s <- d :: s in raw)
            && (forall s <- raw :: s in d || exists k <- d :: OverlapShare(k, s) > 0.5)
            && DedupeOnto([], d) == d
  {
    var sorted := SortByY(raw);
    SortSorts(raw);
    forall s | s in sorted ensures s in raw { assert s in multiset(raw); }
    forall i | 0 <= i < |sorted| ensures sorted[i].height > 0.0 { assert sorted[i] in raw; }
    DedupeIsApart([], sorted);
    var d := DedupeOnto([], sorted);
    forall s | s in raw ensures s in d || exists k <- d :: OverlapShare(k, s) > 0.5 {
      assert s in multiset(sorted);
      var i :| 0 <= i < |sorted| && sorted[i] == s;
      DroppedOverlapKept([], sorted, i);
    }
    assert [] + d == d;
    ApartIsKept([], d);
  }

  // ---------------------------------------------------------------- merging

  predicate Covers(m: Section, s: Section) { m.y <= s.y && s.End() <= m.End() }

  ghost predicate CoveredBy(ms: seq<Section>, s: Section) { exists k :: 0 <= k < |ms| && Covers(ms[k], s) }

  /** No neighbour pair would be joined any more. */
  ghost predicate SettledPairs(s: seq<Section>, threshold: real) {
    forall i :: 0 <= i < |s| - 1 ==> !Joins(s[i], s[i + 1], threshold)
  }

  /** A section is untouched, or the result of a join and so of bounded height. */
  ghost predicate WithinBounds(s: seq<Section>, original: seq<Section>, threshold: real) {
    forall i :: 0 <= i < |s| ==> s[i] in original || s[i].height < 2.0 * threshold + MAX_GAP
  }

  lemma JoinGrows(all: seq<Section>, i: nat)
    requires Apart(all) && i + 1 < |all|
    ensures var j := Joined(all[i], all[i + 1]);
            && j.height > all[i].height && j.height >= all[i + 1].height
            && Covers(j, all[i]) && Covers(j, all[i + 1])
            && Apart(all[..i] + [j] + all[i + 2..])
  {
    var a, b := all[i], all[i + 1];
    assert Follows(a, b);
    var j := Joined(a, b);
    var r := all[..i] + [j] + all[i + 2..];
    forall k | 0 <= k < i ensures Follows(all[k], j) {
      assert Follows(all[k], a);
    }
    forall k | i + 2 <= k < |all| ensures Follows(j, all[k]) {
      assert Follows(b, all[k]) && Follows(a, all[k]);
    }
    forall x, y | 0 <= x < y < |r| ensures Follows(r[x], r[y]) {
      var x', y' := if x <= i then x else x + 1, if y <= i then y else y + 1;
      if x != i && y != i { assert Follows(all[x'], all[y']); }
    }
  }

  lemma {:induction false} MergeKeepsApart(merged: seq<Section>, rest: seq<Section>, threshold: real)
    requires Apart(merged + rest)
    ensures Apart(MergeOnto(merged, rest, threshold))
    decreases rest
  {
    if rest == [] {
      assert merged + rest == merged;
    } else {
      var last, all := |merged| - 1, merged + rest;
      if merged != [] && Joins(merged[last], rest[0], threshold) {
        JoinGrows(all, last);
        var next := merged[last := Joined(merged[last], rest[0])];
        assert next + rest[1..] == all[..last] + [Joined(all[last], all[last + 1])] + all[last + 2..];
        MergeKeepsApart(next, rest[1..], threshold);
      } else {
        assert (merged + [rest[0]]) + rest[1..] == all;
        MergeKeepsApart(merged + [rest[0]], rest[1..], threshold);
      }
    }
  }

  lemma CoversTransitively(ms: seq<Section>, j: Section, s: Section)
    requires CoveredBy(ms, j) && Covers(j, s)
    ensures CoveredBy(ms, s)
  {
    var k :| 0 <= k < |ms| && Covers(ms[k], j);
    assert Covers(ms[k], s);
  }

  lemma CoveredBefore(all: seq<Section>, i: nat, after: seq<Section>, ms: seq<Section>)
    requires Apart(all) && i + 1 < |all|
    requires after == all[..i] + [Joined(all[i], all[i + 1])] + all[i + 2..]
    requires forall k :: 0 <= k < |after| ==> CoveredBy(ms, after[k])
    ensures forall k :: 0 <= k < |all| ==> CoveredBy(ms, all[k])
  {
    JoinGrows(all, i);
    assert after[i] == Joined(all[i], all[i + 1]);
    forall k | 0 <= k < |all| ensures CoveredBy(ms, all[k]) {
      if k == i || k == i + 1 {
        CoversTransitively(ms, after[i], all[k]);
      } else {
        assert all[k] == after[if k < i then k else k - 1];
      }
    }
  }

  lemma {:induction false} MergeCovers(merged: seq<Section>, rest: seq<Section>, threshold: real)
    requires Apart(merged + rest)
    ensures forall k :: 0 <= k < |merged + rest| ==> CoveredBy(MergeOnto(merged, rest, threshold), (merged + rest)[k])
    decreases rest
  {
    var last, all := |merged| - 1, merged + rest;
    if rest == [] {
      assert all == merged;
      forall k | 0 <= k < |all| ensures CoveredBy(merged, all[k]) { assert Covers(merged[k], all[k]); }
    } else if merged != [] && Joins(merged[last], rest[0], threshold) {
      JoinGrows(all, last);
      var next := merged[last := Joined(merged[last], rest[0])];
      assert next + rest[1..] == all[..last] + [Joined(all[last], all[last + 1])] + all[last + 2..];
      MergeCovers(next, rest[1..], threshold);
      CoveredBefore(all, last, next + rest[1..], MergeOnto(next, rest[1..], threshold));
    } else {
      assert (merged + [rest[0]]) + rest[1..] == all;
      MergeCovers(merged + [rest[0]], rest[1..], threshold);
    }
  }

  /** A section starts where one original section starts and ends where another one ends. */
  ghost predicate Spans(m: Section, original: seq<Section>) {
    exists a, b :: a in original && b in original && m.y == a.y && m.End() == b.End()
  }

  lemma {:induction false} MergeStaysWithin(
      merged: seq<Section>, rest: seq<Section>, threshold: real, original: seq<Section>)
    requires WithinBounds(merged, original, threshold) && forall s <- rest :: s in original
    requires forall m <- merged :: Spans(m, original)
    ensures WithinBounds(MergeOnto(merged, rest, threshold), original, threshold)
    ensures forall m <- MergeOnto(merged, rest, threshold) :: Spans(m, original)
    decreases rest
  {
    if rest != [] {
      var last := |merged| - 1;
      assert rest[0] in rest && forall s <- rest[1..] :: s in rest;
      if merged != [] && Joins(merged[last], rest[0], threshold) {
        var j := Joined(merged[last], rest[0]);
        assert j.height == merged[last].height + (rest[0].y - merged[last].End()) + rest[0].height;
        assert merged[last] in merged;
        assert Spans(j, original);
        MergeStaysWithin(merged[last := j], rest[1..], threshold, original);
      } else {
        assert Spans(rest[0], original);
        MergeStaysWithin(merged + [rest[0]], rest[1..], threshold, original);
      }
    }
  }

  lemma {:induction false} MergeSettles(merged: seq<Section>, rest: seq<Section>, threshold: real)
    requires Apart(merged + rest) && SettledPairs(merged, threshold)
    ensures SettledPairs(MergeOnto(merged, rest, threshold), threshold)
    decreases rest
  {
    if rest != [] {
      var last, all := |merged| - 1, merged + rest;
      if merged != [] && Joins(merged[last], rest[0], threshold) {
        JoinGrows(all, last);
        var j := Joined(merged[last], rest[0]);
        var next := merged[last := j];
        assert next + rest[1..] == all[..last] + [j] + all[last + 2..];
        assert last > 0 ==> !Joins(merged[last - 1], merged[last], threshold);
        MergeSettles(next, rest[1..], threshold);
      } else {
        assert (merged + [rest[0]]) + rest[1..] == all;
        MergeSettles(merged + [rest[0]], rest[1..], threshold);
      }
    }
  }

  lemma {:induction false} SettledIsKept(merged: seq<Section>, rest: seq<Section>, threshold: real)
    requires SettledPairs(merged + rest, threshold)
    ensures MergeOnto(merged, rest, threshold) == merged + rest
    decreases rest
  {
    var all := merged + rest;
    if rest == [] {
      assert all == merged;
    } else {
      if merged != [] { assert !Joins(all[|merged| - 1], all[|merged|], threshold); }
      assert (merged + [rest[0]]) + rest[1..] == all;
      SettledIsKept(merged + [rest[0]], rest[1..], threshold);
    }
  }

  lemma MergeIsFixpoint(deduped: seq<Section>, threshold: real)
    requires Apart(deduped)
    ensures var m := MergeOnto([], deduped, threshold); MergeOnto([], m, threshold) == m
  {
    var m := MergeOnto([], deduped, threshold);
    assert [] + deduped == deduped && [] + m == m;
    MergeSettles([], deduped, threshold);
    SettledIsKept([], m, threshold);
  }

  lemma MergeCoversAll(deduped: seq<Section>, threshold: real)
    requires Apart(deduped)
    ensures forall k :: 0 <= k < |deduped| ==> CoveredBy(MergeOnto([], deduped, threshold), deduped[k])
  {
    assert [] + deduped == deduped;
    MergeCovers([], deduped, threshold);
  }

  /** Merging a de-overlapped list covers all of it and nothing beyond its sections' ends, keeps
      every two sections apart and in order, bounds what it joins, and is a fixpoint. */
  lemma MergePreservesCoverage(deduped: seq<Section>, threshold: real)
    requires Apart(deduped)
    ensures var m := MergeOnto([], deduped, threshold);
            && (forall k :: 0 <= k < |deduped| ==> CoveredBy(m, deduped[k]))
            && (forall s <- m :: Spans(s, deduped))
            && Apart(m)
            && WithinBounds(m, deduped, threshold)
            && MergeOnto([], m, threshold) == m
  {
    MergeIsFixpoint(deduped, threshold);
    MergeCoversAll(deduped, threshold);
    MergeStaysWithin([], deduped, threshold, deduped);
    assert [] + deduped == deduped;
    MergeKeepsApart([], deduped, threshold);
  }

  // ---------------------------------------------------------------- the whole pipeline

  ghost predicate Within(c: seq<Section>, t: real) { exists i :: 0 <= i < |c| && c[i].y <= t <= c[i].End() }

  /** The chunks lie on an 800 grid and reach down to the last stretch below minHeight. */
  lemma {:induction false} ChunksTile(k: nat, pageHeight: real, minHeight: real, width: real)
    requires 0.0 < minHeight <= CHUNK_HEIGHT
    ensures var c := Chunks(k, pageHeight, minHeight, width);
            && Positive(c)
            && (forall i :: 0 <= i < |c| ==> c[i].y == CHUNK_HEIGHT * (k + i) as real)
            && (forall i :: 0 <= i < |c| ==> c[i].height == Min(CHUNK_HEIGHT, pageHeight - c[i].y))
            && (forall t: real :: CHUNK_HEIGHT * k as real <= t <= pageHeight - minHeight ==> Within(c, t))
    decreases pageHeight - CHUNK_HEIGHT * k as real
  {
    var y := CHUNK_HEIGHT * k as real;
    if y < pageHeight {
      ChunksTile(k + 1, pageHeight, minHeight, width);
      var c, d := Chunks(k, pageHeight, minHeight, width), Chunks(k + 1, pageHeight, minHeight, width);
      var h := Min(CHUNK_HEIGHT, pageHeight - y);
      if h < minHeight {
        assert pageHeight < CHUNK_HEIGHT * (k + 1) as real;
        assert d == [];
      } else {
        assert c == [Section(y, h, width, "viewport_chunk")] + d;
        forall t: real | y <= t <= pageHeight - minHeight
          ensures Within(c, t)
        {
          if t > y + h { assert Within(d, t); }
          WithinEither(c[0], d, t);
        }
      }
    }
  }

  lemma WithinEither(s: Section, d: seq<Section>, t: real)
    requires s.y <= t <= s.End() || Within(d, t)
    ensures Within([s] + d, t)
  {
    var c := [s] + d;
    if s.y <= t <= s.End() {
      assert c[0].y <= t <= c[0].End();
    } else {
      var i :| 0 <= i < |d| && d[i].y <= t <= d[i].End();
      assert c[i + 1] == d[i];
    }
  }

  lemma CandidatesArePositive(boxes: seq<Section>, minHeight: real, pageHeight: real, width: real)
    requires 0.0 < minHeight
    ensures Positive(Candidates(boxes, minHeight, pageHeight, width))
  {
    ChunksArePositive(0, pageHeight, minHeight, width);
    var found := TallEnough(boxes, minHeight);
    forall i | 0 <= i < |found| ensures found[i].height > 0.0 { assert found[i] in found; }
  }

  lemma {:induction false} ChunksArePositive(k: nat, pageHeight: real, minHeight: real, width: real)
    requires 0.0 < minHeight
    ensures Positive(Chunks(k, pageHeight, minHeight, width))
    decreases pageHeight - CHUNK_HEIGHT * k as real
  {
    if CHUNK_HEIGHT * k as real < pageHeight { ChunksArePositive(k + 1, pageHeight, minHeight, width); }
  }

  /** Whatever boxes a page reports, the sections cut out of it are ordered, no two of them share
      more than half of the smaller one, and there are no more than asked for. */
  lemma CaptureSeparates(boxes: seq<Section>, minHeight: real, pageHeight: real, width: real,
                         threshold: real, maxSections: nat)
    requires 0.0 < minHeight
    ensures var c := Capture(boxes, minHeight, pageHeight, width, threshold, maxSections);
            Apart(c) && |c| <= maxSections
  {
    var raw := Candidates(boxes, minHeight, pageHeight, width);
    CandidatesArePositive(boxes, minHeight, pageHeight, width);
    DedupeSeparates(raw);
    MergePreservesCoverage(DedupeOnto([], SortByY(raw)), threshold);
  }

  /** Without the cap nothing is lost: every candidate is covered by a section of the result, or
      overlaps by more than half a candidate that is. */
  lemma CaptureLosesNothing(boxes: seq<Section>, minHeight: real, pageHeight: real, width: real, threshold: real)
    requires 0.0 < minHeight
    ensures var raw := Candidates(boxes, minHeight, pageHeight, width);
            var all := MergeOnto([], DedupeOnto([], SortByY(raw)), threshold);
            forall s <- raw :: CoveredBy(all, s)
              || exists k <- raw :: CoveredBy(all, k) && OverlapShare(k, s) > 0.5
  {
    var raw := Candidates(boxes, minHeight, pageHeight, width);
    CandidatesArePositive(boxes, minHeight, pageHeight, width);
    DedupeSeparates(raw);
    var d := DedupeOnto([], SortByY(raw));
    MergePreservesCoverage(d, threshold);
    var all := MergeOnto([], d, threshold);
    forall s | s in raw ensures CoveredBy(all, s) || exists k <- raw :: CoveredBy(all, k) && OverlapShare(k, s) > 0.5 {
      if s !in d {
        var k :| k in d && OverlapShare(k, s) > 0.5;
        assert k in raw && CoveredBy(all, k);
      } else {
        assert CoveredBy(all, s);
      }
    }
  }
}
