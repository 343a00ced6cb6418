/** What the section pipeline delivers, in the numbers of the page. */
module SectionResults {
  import opened Sections

  // ---------------------------------------------------------------- overlap

  /** The overlap of two sections is the length of what they share. */
  lemma OverlapIs(a: Section, b: Section)
    requires a.height > 0.0 && b.height > 0.0 && a.y <= b.y
    ensures Overlap(a, b) == if a.y + a.height <= b.y then 0.0
                             else if b.y + b.height <= a.y + a.height then b.height
                             else a.y + a.height - b.y
  {
  }

  // ---------------------------------------------------------------- merging

  /** Both small, and less than a hundred apart. */
  predicate SmallNeighbours(a: Section, b: Section, threshold: real) {
    a.height < threshold && b.height < threshold && b.y - (a.y + a.height) < 100.0
  }

  /** The merge leaves no two small neighbours. */
  lemma NoSmallNeighbours(d: seq<Section>, threshold: real)
    requires Apart(d)
    ensures var m := MergeOnto([], d, threshold);
            forall i :: 0 <= i < |m| - 1 ==> !SmallNeighbours(m[i], m[i + 1], threshold)
  {
    var m := MergeOnto([], d, threshold);
    assert [] + d == d;
    MergeSettles([], d, threshold);
    forall i | 0 <= i < |m| - 1 ensures !SmallNeighbours(m[i], m[i + 1], threshold) {
      assert !Joins(m[i], m[i + 1], threshold);
    }
  }

  /** A tall section, or one with a hundred or more of space on both sides. */
  ghost predicate StandsAlone(d: seq<Section>, i: nat, threshold: real)
    requires i < |d|
  {
    d[i].height >= threshold || (FarAbove(d, i) && FarBelow(d, i))
  }

  predicate FarAbove(d: seq<Section>, i: nat)
    requires i < |d|
  {
    i > 0 ==> d[i].y - (d[i - 1].y + d[i - 1].height) >= 100.0
  }

  predicate FarBelow(d: seq<Section>, i: nat)
    requires i < |d|
  {
    i + 1 < |d| ==> d[i + 1].y - (d[i].y + d[i].height) >= 100.0
  }

  lemma {:induction false} AllButLastStay(merged: seq<Section>, rest: seq<Section>, threshold: real)
    requires merged != []
    ensures merged[..|merged| - 1] <= MergeOnto(merged, rest, threshold)
    decreases rest
  {
    if rest != [] {
      var last := |merged| - 1;
      var j := merged[last := Joined(merged[last], rest[0])];
      var more := merged + [rest[0]];
      AllButLastStay(j, rest[1..], threshold);
      AllButLastStay(more, rest[1..], threshold);
      assert j[..last] == merged[..last] && more[..|more| - 1] == merged;
    }
  }

  /** The last merged section stays when nothing can be joined to it. */
  lemma LastStays(merged: seq<Section>, rest: seq<Section>, threshold: real)
    requires merged != [] && StandsAlone(merged + rest, |merged| - 1, threshold)
    ensures merged[|merged| - 1] in MergeOnto(merged, rest, threshold)
  {
    var all, last := merged + rest, |merged| - 1;
    if rest != [] {
      assert all[last] == merged[last] && all[last + 1] == rest[0];
      var more := merged + [rest[0]];
      AllButLastStay(more, rest[1..], threshold);
      assert more[..|more| - 1][last] == merged[last];
      assert MergeOnto(merged, rest, threshold)[last] == merged[last];
    }
  }

  lemma {:induction false} AloneStays(merged: seq<Section>, rest: seq<Section>, threshold: real, k: nat)
    requires |merged| <= k < |merged| + |rest| && StandsAlone(merged + rest, k, threshold)
    ensures (merged + rest)[k] in MergeOnto(merged, rest, threshold)
    decreases rest
  {
    var last, all := |merged| - 1, merged + rest;
    var s, later := rest[0], rest[1..];
    assert (merged + [s]) + later == all;
    if k == |merged| {
      assert all[k] == s && (merged != [] ==> all[k - 1] == merged[last]);
      LastStays(merged + [s], later, threshold);
    } else if merged != [] && Joins(merged[last], s, threshold) {
      var next := merged[last := Joined(merged[last], s)];
      JoinedNeighbours(merged, rest, threshold, k);
      AloneStays(next, later, threshold, k - 1);
    } else {
      AloneStays(merged + [s], later, threshold, k);
    }
  }

  /** A join keeps the end that the next section is measured from. */
  lemma JoinedNeighbours(merged: seq<Section>, rest: seq<Section>, threshold: real, k: nat)
    requires merged != [] && rest != [] && |merged| < k < |merged| + |rest|
    requires StandsAlone(merged + rest, k, threshold)
    ensures var all := merged[|merged| - 1 := Joined(merged[|merged| - 1], rest[0])] + rest[1..];
            all[k - 1] == (merged + rest)[k] && StandsAlone(all, k - 1, threshold)
  {
    var was := merged + rest;
    var j := Joined(merged[|merged| - 1], rest[0]);
    var all := merged[|merged| - 1 := j] + rest[1..];
    assert all[k - 1] == was[k];
    assert j.y + j.height == rest[0].y + rest[0].height;
    assert k == |merged| + 1 ==> all[k - 2] == j && was[k - 1] == rest[0];
    assert k > |merged| + 1 ==> all[k - 2] == was[k - 1];
    assert k + 1 < |was| ==> all[k] == was[k + 1];
  }

  /** Such a section comes out of the merge unchanged. */
  lemma AloneStandsUnchanged(d: seq<Section>, threshold: real, i: nat)
    requires i < |d| && StandsAlone(d, i, threshold)
    ensures d[i] in MergeOnto([], d, threshold)
  {
    assert [] + d == d;
    AloneStays([], d, threshold, i);
  }

  /** A joined section is marked, and as wide as the section it starts with; any other one is an original. */
  ghost predicate Marked(s: seq<Section>, original: seq<Section>) {
    forall m <- s :: m in original || (m.selector == "merged" && exists a <- original :: m.y == a.y && m.width == a.width)
  }

  lemma {:induction false} MergeMarks(merged: seq<Section>, rest: seq<Section>, threshold: real, original: seq<Section>)
    requires Marked(merged, original) && forall s <- rest :: s in original
    ensures Marked(MergeOnto(merged, rest, threshold), original)
    decreases rest
  {
    if rest != [] {
      var last := |merged| - 1;
      assert rest[0] in rest && forall s <- rest[1..] :: s in rest;
      if merged != [] && Joins(merged[last], rest[0], threshold) {
        var next := merged[last := Joined(merged[last], rest[0])];
        assert merged[last] in merged;
        assert Marked(next, original);
        MergeMarks(next, rest[1..], threshold, original);
      } else {
        MergeMarks(merged + [rest[0]], rest[1..], threshold, original);
      }
    }
  }

  lemma JoinedAreMarked(d: seq<Section>, threshold: real)
    ensures Marked(MergeOnto([], d, threshold), d)
  {
    MergeMarks([], d, threshold, d);
  }

  // ---------------------------------------------------------------- candidates

  predicate OnGrid(y: real, n: nat) { y == 800.0 * n as real }

  /** The chunks stand on a grid of 800, as wide as the viewport, and none is lower than asked for. */
  lemma {:induction false} ChunkGrid(k: nat, pageHeight: real, minHeight: real, width: real)
    ensures forall c <- Chunks(k, pageHeight, minHeight, width) ::
              && c.height >= minHeight && c.width == width && c.selector == "viewport_chunk"
              && c.height == (if pageHeight - c.y < 800.0 then pageHeight - c.y else 800.0)
              && exists n: nat :: OnGrid(c.y, n)
    decreases pageHeight - CHUNK_HEIGHT * k as real
  {
    var y := 800.0 * k as real;
    assert OnGrid(y, k);
    if y < pageHeight { ChunkGrid(k + 1, pageHeight, minHeight, width); }
  }

  predicate Tall(s: Section, minHeight: real) { s.height >= minHeight }

  /** At least three boxes are tall enough. */
  ghost predicate ThreeTall(boxes: seq<Section>, minHeight: real) {
    exists i, j, k :: 0 <= i < j < k < |boxes| && Tall(boxes[i], minHeight) && Tall(boxes[j], minHeight)
                      && Tall(boxes[k], minHeight)
  }

  /** The boxes at the places `at`, in order. */
  ghost predicate Picks(boxes: seq<Section>, at: seq<nat>, found: seq<Section>) {
    && |at| == |found|
    && (forall k :: 0 <= k < |at| ==> at[k] < |boxes| && boxes[at[k]] == found[k])
    && (forall k, n :: 0 <= k < n < |at| ==> at[k] < at[n])
  }

  ghost predicate TallIn(boxes: seq<Section>, at: seq<nat>, minHeight: real) {
    forall i :: 0 <= i < |boxes| && Tall(boxes[i], minHeight) ==> i in at
  }

  function Shifted(at: seq<nat>): (r: seq<nat>)
    ensures |r| == |at| && forall k :: 0 <= k < |at| ==> r[k] == at[k] + 1
  {
    seq(|at|, k requires 0 <= k < |at| => at[k] + 1)
  }

  lemma PicksShifted(boxes: seq<Section>, at: seq<nat>, found: seq<Section>)
    requires boxes != [] && Picks(boxes[1..], at, found)
    ensures Picks(boxes, Shifted(at), found)
    ensures Picks(boxes, [0] + Shifted(at), [boxes[0]] + found)
  {
    forall k | 0 <= k < |at| ensures Shifted(at)[k] < |boxes| && boxes[Shifted(at)[k]] == found[k] {
      assert boxes[1..][at[k]] == boxes[at[k] + 1];
    }
  }

  lemma TallInShifted(boxes: seq<Section>, at: seq<nat>, minHeight: real)
    requires boxes != [] && TallIn(boxes[1..], at, minHeight)
    ensures TallIn(boxes, [0] + Shifted(at), minHeight)
    ensures !Tall(boxes[0], minHeight) ==> TallIn(boxes, Shifted(at), minHeight)
  {
    forall i | 0 < i < |boxes| && Tall(boxes[i], minHeight) ensures i in Shifted(at) {
      assert boxes[1..][i - 1] == boxes[i];
      var k :| 0 <= k < |at| && at[k] == i - 1;
      assert Shifted(at)[k] == i;
    }
    assert ([0] + Shifted(at))[0] == 0;
  }

  /** Where the boxes that are kept come from. */
  lemma {:induction false} TallOrigins(boxes: seq<Section>, minHeight: real) returns (at: seq<nat>)
    ensures Picks(boxes, at, TallEnough(boxes, minHeight)) && TallIn(boxes, at, minHeight)
  {
    if boxes == [] {
      at := [];
    } else {
      var more := TallOrigins(boxes[1..], minHeight);
      PicksShifted(boxes, more, TallEnough(boxes[1..], minHeight));
      TallInShifted(boxes, more, minHeight);
      at := if Tall(boxes[0], minHeight) then [0] + Shifted(more) else Shifted(more);
      assert [] + TallEnough(boxes[1..], minHeight) == TallEnough(boxes[1..], minHeight);
    }
  }

  /** With three tall boxes the candidates are exactly the tall boxes in their order, otherwise the
      chunks of the page. */
  lemma CandidatesExactly(boxes: seq<Section>, minHeight: real, pageHeight: real, width: real) returns (at: seq<nat>)
    ensures var c := Candidates(boxes, minHeight, pageHeight, width);
            if !ThreeTall(boxes, minHeight) then c == Chunks(0, pageHeight, minHeight, width)
            else Picks(boxes, at, c) && forall i :: 0 <= i < |boxes| ==> (Tall(boxes[i], minHeight) <==> i in at)
  {
    at := TallOrigins(boxes, minHeight);
    var found := TallEnough(boxes, minHeight);
    forall k | 0 <= k < |at| ensures Tall(boxes[at[k]], minHeight) { assert found[k] in found; }
    if |found| >= 3 {
      assert at[0] < at[1] < at[2];
      assert Tall(boxes[at[0]], minHeight) && Tall(boxes[at[1]], minHeight) && Tall(boxes[at[2]], minHeight);
    } else {
      ThreeNeedThree(boxes, minHeight, at);
    }
  }

  lemma ThreeNeedThree(boxes: seq<Section>, minHeight: real, at: seq<nat>)
    requires |at| < 3 && TallIn(boxes, at, minHeight)
    ensures !ThreeTall(boxes, minHeight)
  {
    forall i, j, k | 0 <= i < j < k < |boxes| && Tall(boxes[i], minHeight) && Tall(boxes[j], minHeight)
      ensures !Tall(boxes[k], minHeight)
    {
      assert i in at && j in at;
      assert forall x <- at :: x == i || x == j;
    }
  }

  // ---------------------------------------------------------------- the cap

  /** The cap keeps the topmost sections, and as many as it may. */
  lemma CaptureKeepsTopmost(boxes: seq<Section>, minHeight: real, pageHeight: real, width: real,
                            threshold: real, maxSections: nat)
    requires 0.0 < minHeight
    ensures var c := Capture(boxes, minHeight, pageHeight, width, threshold, maxSections);
            var all := MergeOnto([], DedupeOnto([], SortByY(Candidates(boxes, minHeight, pageHeight, width))), threshold);
            && c <= all && |c| == (if |all| < maxSections then |all| else maxSections)
            && (forall i, j :: 0 <= i < |c| <= j < |all| ==> c[i].y <= all[j].y && c[i].End() < all[j].End())
  {
    var raw := Candidates(boxes, minHeight, pageHeight, width);
    var all := MergeOnto([], DedupeOnto([], SortByY(raw)), threshold);
    CandidatesArePositive(boxes, minHeight, pageHeight, width);
    DedupeSeparates(raw);
    MergePreservesCoverage(DedupeOnto([], SortByY(raw)), threshold);
    var c := Capped(all, maxSections);
    forall i, j | 0 <= i < |c| <= j < |all| ensures c[i].y <= all[j].y && c[i].End() < all[j].End() {
      assert Follows(all[i], all[j]);
    }
  }
}
