/** Moving comments into the hunks of a patch (`validate_comments_inside_hunks`) and publishing them
    (`publish_code_suggestions`). */
module CommentClipping {
  import opened PyText
  import opened UnifiedDiff

  datatype Range = Range(start: int, end: int)

  /** A suggestion; a missing line number is 0. `moved` where its body was rewritten. */
  datatype Suggestion = Suggestion(file: string, start: int, end: int, hasOriginal: bool, moved: bool)

  const FAR := 10

  /** The lines of the new file a hunk covers, by the size the program reads. */
  function RangeOf(h: Header): Range { Range(h.start2, h.start2 + h.Size2() - 1) }

  /** The ranges of the hunks of a patch. */
  function RangesOf(lines: seq<Line>): seq<Range> {
    if lines == [] then []
    else RangesOf(lines[..|lines| - 1])
         + (if lines[|lines| - 1].Head? then [RangeOf(lines[|lines| - 1].header)] else [])
  }

  predicate Inside(s: int, e: int, r: Range) { r.start <= s && e <= r.end }

  /** The comment does not overrun the range on both sides. */
  predicate Eligible(s: int, e: int, r: Range) { r.start <= s || e <= r.end }

  /** How far the comment overruns a range. */
  function Distance(s: int, e: int, r: Range): int { Max(Max(r.start - s, e - r.end), 0) }

  /** The range a comment is measured against: one it lies in, or else the first eligible one at the least distance. */
  ghost predicate Nearest(s: int, e: int, ranges: seq<Range>, r: Option<Range>) {
    match r
    case None => forall k :: 0 <= k < |ranges| ==> !Eligible(s, e, ranges[k])
    case Some(best) =>
      exists i :: 0 <= i < |ranges| && ranges[i] == best && Eligible(s, e, best)
                  && (forall k :: 0 <= k < i && Eligible(s, e, ranges[k]) ==> Distance(s, e, best) < Distance(s, e, ranges[k]))
                  && (forall k :: 0 <= k < |ranges| && Eligible(s, e, ranges[k]) ==> Distance(s, e, best) <= Distance(s, e, ranges[k]))
  }

  /** The loop over the ranges; it stops at a range that holds the comment. */
  method FindNearest(s: int, e: int, ranges: seq<Range>) returns (valid: bool, best: Option<Range>)
    ensures valid <==> best.Some? && Inside(s, e, best.value)
    ensures Nearest(s, e, ranges, best)
  {
    valid, best := false, None;
    var minDistance: Option<int> := None;
    ghost var at := 0;
    for i := 0 to |ranges|
      invariant !valid && (best.None? <==> minDistance.None?)
      invariant best.Some? ==> minDistance.value == Distance(s, e, best.value) > 0
      invariant best.Some? ==> 0 <= at < i && ranges[at] == best.value && Eligible(s, e, best.value)
      invariant forall k :: 0 <= k < i && Eligible(s, e, ranges[k]) ==>
                  best.Some? && Distance(s, e, best.value) <= Distance(s, e, ranges[k])
      invariant best.Some? ==>
                  forall k :: 0 <= k < at && Eligible(s, e, ranges[k]) ==>
                    Distance(s, e, best.value) < Distance(s, e, ranges[k])
    {
      var d1, d2 := s - ranges[i].start, ranges[i].end - e;
      if d1 >= 0 && d2 >= 0 {
        valid, best := true, Some(ranges[i]);
        assert Distance(s, e, ranges[i]) == 0;
        assert forall k :: 0 <= k < i && Eligible(s, e, ranges[k]) ==> Distance(s, e, ranges[k]) > 0;
        return;
      }
      if d1 * d2 <= 0 {
        var d := Max(-Min(0, d1), -Min(0, d2));
        if minDistance.None? || d < minDistance.value {
          best := Some(ranges[i]);
          minDistance := Some(d);
          at := i;
        }
      }
    }
  }

  /** What becomes of a suggestion measured against the nearest range. */
  function Clipped(x: Suggestion, nearest: Option<Range>): Suggestion {
    if nearest.Some? && !Inside(x.start, x.end, nearest.value) && Distance(x.start, x.end, nearest.value) < FAR then
      x.(start := Max(x.start, nearest.value.start), end := Min(x.end, nearest.value.end), moved := true)
    else x
  }

  /** A suggestion with both its lines and its original is looked at in every file of its name. */
  predicate Considered(x: Suggestion) { x.start != 0 && x.end != 0 && x.hasOriginal }

  datatype DiffFile = DiffFile(name: string, patch: seq<Line>)

  method HunkRanges(patch: seq<Line>) returns (ranges: seq<Range>)
    ensures ranges == RangesOf(patch)
  {
    ranges := [];
    for i := 0 to |patch|
      invariant ranges == RangesOf(patch[..i])
    {
      assert patch[..i + 1][..i] == patch[..i];
      if patch[i].Head? {
        ranges := ranges + [RangeOf(patch[i].header)];
      } else {
        assert ranges + [] == ranges;
      }
    }
    assert patch[..|patch|] == patch;
  }

  /** A suggestion follows another through one file. */
  ghost predicate Moves(file: DiffFile, x: Suggestion, y: Suggestion) {
    if file.name != x.file || !Considered(x) then y == x
    else exists r :: Nearest(x.start, x.end, RangesOf(file.patch), r) && y == Clipped(x, r)
  }

  /** One suggestion, in one file. */
  method ValidateInFile(file: DiffFile, x: Suggestion) returns (y: Suggestion)
    ensures Moves(file, x, y)
  {
    y := x;
    if file.name == x.file {
      var ranges := HunkRanges(file.patch);
      if x.start == 0 || x.end == 0 || !x.hasOriginal {
        return;
      }
      var valid, best := FindNearest(x.start, x.end, ranges);
      if !valid {
        if best.Some? && Distance(x.start, x.end, best.value) < FAR {
          y := x.(start := Max(x.start, best.value.start), end := Min(x.end, best.value.end), moved := true);
        }
      }
    }
  }

  /** A suggestion goes through the files one after the other. */
  ghost predicate Through(files: seq<DiffFile>, x: Suggestion, y: Suggestion) {
    if files == [] then y == x
    else
      var init, last := files[..|files| - 1], files[|files| - 1];
      exists z :: Through(init, x, z) && Moves(last, z, y)
  }

  /** The suggestions are copied, and the copies changed one by one. */
  method ValidateComments(files: seq<DiffFile>, suggestions: seq<Suggestion>) returns (copy: seq<Suggestion>)
    ensures |copy| == |suggestions|
    ensures forall k :: 0 <= k < |copy| ==> Through(files, suggestions[k], copy[k])
  {
    copy := suggestions;
    for k := 0 to |suggestions|
      invariant |copy| == |suggestions|
      invariant forall j :: k <= j < |copy| ==> copy[j] == suggestions[j]
      invariant forall j :: 0 <= j < k ==> Through(files, suggestions[j], copy[j])
    {
      var y := copy[k];
      for f := 0 to |files|
        invariant Through(files[..f], suggestions[k], y)
      {
        ghost var z := y;
        y := ValidateInFile(files[f], y);
        assert files[..f + 1][..f] == files[..f];
        assert Through(files[..f], suggestions[k], z) && Moves(files[f], z, y);
      }
      assert files[..|files|] == files;
      copy := copy[k := y];
    }
  }

  /** Where no two files have one name, a suggestion is changed by its own file only. */
  lemma {:induction false} OwnFileOnly(files: seq<DiffFile>, x: Suggestion, y: Suggestion)
    requires Through(files, x, y)
    requires forall i, j :: 0 <= i < j < |files| ==> files[i].name != files[j].name
    ensures y.file == x.file
    ensures (forall f :: 0 <= f < |files| ==> files[f].name != x.file) ==> y == x
    ensures forall f :: 0 <= f < |files| && files[f].name == x.file ==> Moves(files[f], x, y)
  {
    if files != [] {
      var init, last := files[..|files| - 1], files[|files| - 1];
      var z :| Through(init, x, z) && Moves(last, z, y);
      OwnFileOnly(init, x, z);
      assert forall f :: 0 <= f < |init| ==> init[f] == files[f];
    }
  }

  // ---------- publishing ----------

  datatype Post = Post(file: string, line: int, startLine: Option<int>)

  predicate Publishable(x: Suggestion) { x.start != 0 && x.start != -1 && x.start <= x.end }

  function PostOf(x: Suggestion): Post {
    if x.end > x.start then Post(x.file, x.end, Some(x.start)) else Post(x.file, x.start, None)
  }

  function Posts(xs: seq<Suggestion>): seq<Post> {
    if xs == [] then []
    else Posts(xs[..|xs| - 1]) + (if Publishable(xs[|xs| - 1]) then [PostOf(xs[|xs| - 1])] else [])
  }

  method Publish(xs: seq<Suggestion>) returns (posts: seq<Post>)
    ensures posts == Posts(xs)
  {
    posts := [];
    for k := 0 to |xs|
      invariant posts == Posts(xs[..k])
    {
      var x := xs[k];
      assert xs[..k + 1][..k] == xs[..k] && posts + [] == posts;
      if x.start == 0 || x.start == -1 {
        continue;
      }
      if x.end < x.start {
        continue;
      }
      if x.end > x.start {
        posts := posts + [Post(x.file, x.end, Some(x.start))];
      } else {
        posts := posts + [Post(x.file, x.start, None)];
      }
    }
    assert xs[..|xs|] == xs;
  }

  lemma {:induction false} PostsConcat(a: seq<Suggestion>, b: seq<Suggestion>)
    ensures Posts(a + b) == Posts(a) + Posts(b)
    decreases |b|
  {
    if b == [] {
      assert a + b == a;
    } else {
      var init, x := b[..|b| - 1], b[|b| - 1];
      assert (a + b)[..|a + b| - 1] == a + init;
      PostsConcat(a, init);
      Assoc(Posts(a), Posts(init), if Publishable(x) then [PostOf(x)] else []);
    }
  }

  /** A suggestion is posted exactly if it has a first line and this is not after its last; the post stands at the last
      line, and names the first one if it is another. */
  lemma {:induction false} PostedExactly(before: seq<Suggestion>, x: Suggestion, after: seq<Suggestion>)
    ensures Posts(before + ([x] + after)) ==
            Posts(before)
            + ((if x.start != 0 && x.start != -1 && x.start <= x.end
                then [Post(x.file, x.end, if x.start < x.end then Some(x.start) else None)] else [])
               + Posts(after))
  {
    PostsConcat(before, [x] + after);
    PostsConcat([x], after);
    assert [x][..0] == [];
  }

  // ---------- what moving does ----------

  /** A suggestion is unchanged, or cut down to its part inside a nearest range that it does not overrun on both sides,
      moving each end by at most 9 lines. */
  lemma {:induction false} MovedLittle(x: Suggestion, ranges: seq<Range>, r: Option<Range>)
    requires Nearest(x.start, x.end, ranges, r)
    ensures var y := Clipped(x, r);
            y == x ||
            (r.Some? && r.value in ranges && Eligible(x.start, x.end, r.value)
             && y.start == Max(x.start, r.value.start) && y.end == Min(x.end, r.value.end)
             && 0 <= y.start - x.start < FAR && 0 <= x.end - y.end < FAR
             && (y.start == x.start || y.end == x.end))
  {
  }

  predicate Between(s: int, n: int, e: int) { s <= n <= e }

  /** A moved suggestion is published exactly if it has a line in common with the range it was moved to, and then it lies
      wholly inside that range. */
  lemma {:induction false} PublishedInsideHunk(x: Suggestion, ranges: seq<Range>, r: Option<Range>)
    requires Nearest(x.start, x.end, ranges, r) && Clipped(x, r) != x
    requires 0 < x.start <= x.end && 0 < r.value.start
    ensures Publishable(Clipped(x, r)) <==>
            exists n :: Between(x.start, n, x.end) && Between(r.value.start, n, r.value.end)
    ensures Publishable(Clipped(x, r)) ==> Inside(Clipped(x, r).start, Clipped(x, r).end, r.value)
  {
    var y := Clipped(x, r);
    assert Publishable(y) ==> Between(x.start, y.start, x.end) && Between(r.value.start, y.start, r.value.end);
  }

  /** A suggestion that lies inside some range is never moved. */
  lemma {:induction false} InsideStays(x: Suggestion, ranges: seq<Range>, r: Option<Range>)
    requires Nearest(x.start, x.end, ranges, r) && exists k :: 0 <= k < |ranges| && Inside(x.start, x.end, ranges[k])
    ensures Clipped(x, r) == x
  {
    var k :| 0 <= k < |ranges| && Inside(x.start, x.end, ranges[k]);
    assert Eligible(x.start, x.end, ranges[k]) && Distance(x.start, x.end, ranges[k]) == 0;
  }

  /** Both ends of the suggestion are within 9 lines of the range, one of them inside. */
  predicate Near(x: Suggestion, r: Range) {
    && (r.start <= x.start || x.end <= r.end)
    && r.start - x.start < 10 && x.end - r.end < 10
  }

  ghost predicate NoneHolds(x: Suggestion, ranges: seq<Range>) {
    forall k :: 0 <= k < |ranges| ==> !(ranges[k].start <= x.start && x.end <= ranges[k].end)
  }

  ghost predicate SomeNear(x: Suggestion, ranges: seq<Range>) { exists k :: 0 <= k < |ranges| && Near(x, ranges[k]) }

  lemma {:induction false} NearestNear(x: Suggestion, ranges: seq<Range>, r: Option<Range>)
    requires Nearest(x.start, x.end, ranges, r)
    ensures SomeNear(x, ranges) <==>
            r.Some? && Eligible(x.start, x.end, r.value) && Distance(x.start, x.end, r.value) < FAR
  {
    if SomeNear(x, ranges) {
      var k :| 0 <= k < |ranges| && Near(x, ranges[k]);
      assert Eligible(x.start, x.end, ranges[k]) && Distance(x.start, x.end, ranges[k]) < FAR;
    }
  }

  lemma {:induction false} ClippedExactly(x: Suggestion, ranges: seq<Range>, r: Option<Range>)
    requires Nearest(x.start, x.end, ranges, r)
    ensures Clipped(x, r) != x <==> NoneHolds(x, ranges) && SomeNear(x, ranges)
  {
    NearestNear(x, ranges, r);
    if NoneHolds(x, ranges) {
      assert r.Some? ==> !Inside(x.start, x.end, r.value);
    } else {
      assert exists k :: 0 <= k < |ranges| && Inside(x.start, x.end, ranges[k]);
      InsideStays(x, ranges, r);
    }
  }

  /** In a file of its name a suggestion is moved exactly if it has both lines and its original, lies inside no range, and
      overruns some range by fewer than 10 lines, on one side only. */
  lemma {:induction false} MovedExactly(file: DiffFile, x: Suggestion, y: Suggestion)
    requires Moves(file, x, y) && file.name == x.file
    ensures y != x <==>
            && x.start != 0 && x.end != 0 && x.hasOriginal
            && NoneHolds(x, RangesOf(file.patch)) && SomeNear(x, RangesOf(file.patch))
  {
    if Considered(x) {
      var ranges := RangesOf(file.patch);
      var r :| Nearest(x.start, x.end, ranges, r) && y == Clipped(x, r);
      ClippedExactly(x, ranges, r);
    }
  }

  // ---------- which comments are kept ----------

  lemma {:induction false} RangesSnoc(lines: seq<Line>, l: Line)
    ensures RangesOf(lines + [l]) == RangesOf(lines) + (if l.Head? then [RangeOf(l.header)] else [])
  {
    assert (lines + [l])[..|lines|] == lines;
  }

  lemma {:induction false} RangesConcat(a: seq<Line>, b: seq<Line>)
    ensures RangesOf(a + b) == RangesOf(a) + RangesOf(b)
    decreases |b|
  {
    if b == [] {
      assert a + b == a;
    } else {
      var init, l := b[..|b| - 1], b[|b| - 1];
      assert b == init + [l] && a + b == (a + init) + [l];
      RangesConcat(a, init);
      RangesSnoc(a + init, l);
      Assoc(RangesOf(a), RangesOf(init), if l.Head? then [RangeOf(l.header)] else []);
    }
  }

  lemma {:induction false} NoRanges(body: seq<Line>)
    requires NoHeads(body)
    ensures RangesOf(body) == []
  {
    if body != [] {
      assert body[|body| - 1] in body;
      NoRanges(body[..|body| - 1]);
    }
  }

  lemma {:induction false} RangesOfHunk(h: Hunk)
    requires NoHeads(h.body)
    ensures RangesOf([Head(h.header)] + h.body) == [RangeOf(h.header)]
  {
    RangesConcat([Head(h.header)], h.body);
    RangesSnoc([], Head(h.header));
    NoRanges(h.body);
    assert [] + [Head(h.header)] == [Head(h.header)];
  }

  lemma {:induction false} RangesOfFirst(h: Hunk, rest: seq<Line>)
    requires NoHeads(h.body)
    ensures RangesOf([Head(h.header)] + h.body + rest) == [RangeOf(h.header)] + RangesOf(rest)
  {
    RangesConcat([Head(h.header)] + h.body, rest);
    RangesOfHunk(h);
  }

  lemma {:induction false} RangesOfHunks(hunks: seq<Hunk>)
    requires forall h :: h in hunks ==> NoHeads(h.body)
    ensures |RangesOf(Flatten(hunks))| == |hunks|
    ensures forall k :: 0 <= k < |hunks| ==> RangesOf(Flatten(hunks))[k] == RangeOf(hunks[k].header)
  {
    if hunks != [] {
      var h, rest := hunks[0], hunks[1..];
      assert h in hunks && forall g :: g in rest ==> g in hunks;
      RangesOfHunks(rest);
      RangesOfFirst(h, Flatten(rest));
      assert RangesOf(Flatten(hunks)) == [RangeOf(h.header)] + RangesOf(Flatten(rest));
    }
  }

  /** In a well-formed patch the ranges come one after the other, in the new file. */
  lemma {:induction false} RangesAscend(base: seq<string>, head: seq<string>, hunks: seq<Hunk>, j: nat, k: nat)
    requires Takes(base, head, hunks) && j < k < |hunks|
    ensures NewEnd(hunks[j]) < hunks[k].header.start2 <= NewEnd(hunks[k])
  {
    TakesMember(base, head, 0, 0, hunks, j);
    TakesMember(base, head, OldEnd(hunks[j]), NewEnd(hunks[j]), hunks[j + 1..], k - j - 1);
    assert hunks[j + 1..][k - j - 1] == hunks[k];
  }

  /** A hunk whose new count is omitted is read as covering no line: whatever other hunks there are, as long as none of
      them holds it, a comment on its one line is moved off that line and not published. */
  lemma {:induction false} OmittedCountLosesComment(h: Header, x: Suggestion, ranges: seq<Range>, r: Option<Range>)
    requires h.count2.None? && h.start2 == x.start == x.end && RangeOf(h) in ranges
    requires forall k :: 0 <= k < |ranges| ==> !Inside(x.start, x.end, ranges[k])
    requires Nearest(x.start, x.end, ranges, r)
    ensures Clipped(x, r) != x && !Publishable(Clipped(x, r))
  {
    var k :| 0 <= k < |ranges| && ranges[k] == RangeOf(h);
    assert Eligible(x.start, x.end, ranges[k]) && Distance(x.start, x.end, ranges[k]) == 1;
    assert r.Some? && Distance(x.start, x.end, r.value) == 1;
  }

  lemma {:induction false} HunkHolds(base: seq<string>, head: seq<string>, hunks: seq<Hunk>, k: nat, j: nat, s: int,
                                     e: int)
    requires Takes(base, head, hunks) && k < |hunks| && j < |hunks|
    requires hunks[k].header.start2 <= s <= e <= NewEnd(hunks[k])
    ensures Inside(s, e, RangeOf(hunks[j].header)) <==> j == k && hunks[k].header.count2.Some?
    ensures hunks[k].header.count2.None? ==> hunks[k].header.start2 == s == e
  {
    TakesMember(base, head, 0, 0, hunks, k);
    TakesMember(base, head, 0, 0, hunks, j);
    if j < k {
      RangesAscend(base, head, hunks, j, k);
    } else if k < j {
      RangesAscend(base, head, hunks, k, j);
    }
  }

  /** On a well-formed patch a comment on lines of a hunk is left as it is and published exactly if the hunk's new count
      is written out. */
  lemma {:induction false} KeptExactly(base: seq<string>, head: seq<string>, hunks: seq<Hunk>, k: nat, x: Suggestion,
                                       r: Option<Range>)
    requires Takes(base, head, hunks) && k < |hunks|
    requires hunks[k].header.start2 <= x.start <= x.end <= NewEnd(hunks[k])
    requires Nearest(x.start, x.end, RangesOf(Flatten(hunks)), r)
    ensures Clipped(x, r) == x && Publishable(x) <==> hunks[k].header.count2.Some?
    ensures hunks[k].header.count2.None? ==> !Publishable(Clipped(x, r))
  {
    var ranges := RangesOf(Flatten(hunks));
    TakesNoHeads(base, head, 0, 0, hunks);
    RangesOfHunks(hunks);
    TakesMember(base, head, 0, 0, hunks, k);
    forall j | 0 <= j < |ranges|
      ensures Inside(x.start, x.end, ranges[j]) <==> j == k && hunks[k].header.count2.Some?
    {
      HunkHolds(base, head, hunks, k, j, x.start, x.end);
    }
    HunkHolds(base, head, hunks, k, k, x.start, x.end);
    if hunks[k].header.count2.Some? {
      InsideStays(x, ranges, r);
    } else {
      assert ranges[k] == RangeOf(hunks[k].header);
      OmittedCountLosesComment(hunks[k].header, x, ranges, r);
    }
  }
}
