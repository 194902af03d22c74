/** Dropping hunks that only delete (`omit_deletion_hunks` and `handle_patch_deletions`). */
module OmitDeletions {
  import opened PyText
  import opened UnifiedDiff

  predicate HasAdd(lines: seq<Line>) { exists l :: l in lines && l.Add? }

  /** The number of hunks up to and including the last one that adds a line; 0 if none does. */
  function Adding(hunks: seq<Hunk>): (n: nat)
    ensures n <= |hunks|
    ensures n > 0 ==> HasAdd(hunks[n - 1].body)
    ensures forall k :: n <= k < |hunks| ==> !HasAdd(hunks[k].body)
  {
    if hunks == [] then 0
    else
      var n := Adding(hunks[1..]);
      if n > 0 then n + 1 else if HasAdd(hunks[0].body) then 1 else 0
  }

  /** What is returned in the end, when `added` is settled, `temp` is held back, and the lines still to come are `pre`
      followed by `hunks`. Lines before the first header count towards the first hunk. */
  ghost function Outcome(added: seq<Line>, temp: seq<Line>, inside: bool, pre: seq<Line>, hunks: seq<Hunk>): seq<Line> {
    var held, n := temp + pre, Adding(hunks);
    if n > 0 then added + held + Flatten(hunks[..n])
    else if inside then (if HasAdd(held) then added + held else added)
    else if hunks != [] && HasAdd(held) then added + held + Flatten(hunks[..1])
    else added
  }

  ghost function Omitted(lines: seq<Line>): seq<Line> {
    Outcome([], [], false, Split(lines).0, Split(lines).1)
  }

  lemma {:induction false} FlattenFirst(h: Hunk, hunks: seq<Hunk>, n: nat)
    requires 1 <= n <= |hunks| + 1
    ensures Flatten(([h] + hunks)[..n]) == [Head(h.header)] + h.body + Flatten(hunks[..n - 1])
  {
    var first := ([h] + hunks)[..n];
    assert first[0] == h && first[1..] == hunks[..n - 1];
  }

  /** Passing a header. */
  lemma {:induction false} HeadCase(added: seq<Line>, temp: seq<Line>, inside: bool, h: Hunk, hunks: seq<Hunk>)
    requires !inside ==> added == []
    ensures Outcome(added, temp, inside, [], [h] + hunks) ==
            if inside && HasAdd(temp) then Outcome(added + temp, [Head(h.header)], true, h.body, hunks)
            else Outcome(added, temp + [Head(h.header)], true, h.body, hunks)
  {
    var n, mark := Adding(hunks), [Head(h.header)];
    assert ([h] + hunks)[1..] == hunks;
    assert temp + [] == temp;
    FlattenFirst(h, hunks, n + 1);
    FlattenFirst(h, hunks, 1);
    Assoc(added + temp, mark + h.body, Flatten(hunks[..n]));
    Assoc(added, temp, mark + h.body);
    Assoc(temp, mark, h.body);
    assert mark + h.body + [] == mark + h.body;
  }

  lemma {:induction false} LineCase(added: seq<Line>, temp: seq<Line>, inside: bool, l: Line, pre: seq<Line>,
                                    hunks: seq<Hunk>)
    ensures Outcome(added, temp, inside, [l] + pre, hunks) == Outcome(added, temp + [l], inside, pre, hunks)
  {
    assert temp + ([l] + pre) == temp + [l] + pre;
  }

  lemma {:induction false} HasAddConcat(a: seq<Line>, b: seq<Line>)
    ensures HasAdd(a + b) <==> HasAdd(a) || HasAdd(b)
  {
    if HasAdd(a) {
      var l :| l in a && l.Add?;
      assert l in a + b;
    }
    if HasAdd(b) {
      var l :| l in b && l.Add?;
      assert l in a + b;
    }
  }

  /** What the loop's variables and the lines still to come will amount to. */
  ghost predicate WillBe(added: seq<Line>, temp: seq<Line>, inside: bool, rest: seq<Line>, all: seq<Line>) {
    Outcome(added, temp, inside, Split(rest).0, Split(rest).1) == all
  }

  lemma {:induction false} AtHeader(added: seq<Line>, temp: seq<Line>, inside: bool, line: Line, rest: seq<Line>,
                                    all: seq<Line>)
    requires line.Head? && (!inside ==> added == []) && WillBe(added, temp, inside, [line] + rest, all)
    ensures if inside && HasAdd(temp) then WillBe(added + temp, [line], true, rest, all)
            else WillBe(added, temp + [line], true, rest, all)
  {
    var lines := [line] + rest;
    assert lines[0] == line && lines[1..] == rest;
    HeadCase(added, temp, inside, Hunk(line.header, Split(rest).0), Split(rest).1);
  }

  lemma {:induction false} AtLine(added: seq<Line>, temp: seq<Line>, inside: bool, line: Line, rest: seq<Line>,
                                  all: seq<Line>)
    requires !line.Head? && WillBe(added, temp, inside, [line] + rest, all)
    ensures WillBe(added, temp + [line], inside, rest, all)
  {
    var lines := [line] + rest;
    assert lines[0] == line && lines[1..] == rest;
    LineCase(added, temp, inside, line, Split(rest).0, Split(rest).1);
  }

  /** With lines before the first header: if some hunk adds a line, these lines and the hunks up to the last that does; if
      none does, but they add one themselves, they and the first hunk. */
  lemma {:induction false} OmittedExactly(pre: seq<Line>, hunks: seq<Hunk>, n: nat)
    requires NoHeads(pre) && (forall h :: h in hunks ==> NoHeads(h.body)) && n <= |hunks|
    requires (n > 0 ==> HasAdd(hunks[n - 1].body)) && forall k :: n <= k < |hunks| ==> !HasAdd(hunks[k].body)
    ensures Omitted(pre + Flatten(hunks)) ==
            if n > 0 then pre + Flatten(hunks[..n])
            else if hunks != [] && HasAdd(pre) then pre + Flatten(hunks[..1])
            else []
  {
    SplitFlatten(hunks);
    SplitPrefixed(pre, Flatten(hunks));
    assert pre + [] == pre && [] + pre == pre;
    assert Adding(hunks) == n;
  }

  method OmitDeletionHunks(lines: seq<Line>) returns (added: seq<Line>)
    ensures added == Omitted(lines)
  {
    var temp: seq<Line> := [];
    added := [];
    var addHunk, insideHunk := false, false;
    var i := 0;
    assert lines[0..] == lines;
    while i < |lines|
      invariant 0 <= i <= |lines|
      invariant addHunk <==> HasAdd(temp)
      invariant !insideHunk ==> added == []
      invariant WillBe(added, temp, insideHunk, lines[i..], Omitted(lines))
    {
      var line := lines[i];
      assert lines[i..] == [line] + lines[i + 1..];
      if line.Head? {
        AtHeader(added, temp, insideHunk, line, lines[i + 1..], Omitted(lines));
        if insideHunk && addHunk {
          added := added + temp;
          temp := [];
          addHunk := false;
        }
        HasAddConcat(temp, [line]);
        assert [] + [line] == [line];
        temp := temp + [line];
        insideHunk := true;
      } else {
        AtLine(added, temp, insideHunk, line, lines[i + 1..], Omitted(lines));
        HasAddConcat(temp, [line]);
        temp := temp + [line];
        if line.Add? {
          assert line in [line];
          addHunk := true;
        }
      }
      i := i + 1;
    }
    assert lines[i..] == [] && temp + [] == temp;
    if insideHunk && addHunk {
      added := added + temp;
    }
  }

  // ---------- what is left of a patch ----------

  /** Without lines before the first header, exactly the hunks up to the last one that adds a line are left. */
  lemma {:induction false} OmittedIsPrefix(hunks: seq<Hunk>)
    requires forall h :: h in hunks ==> NoHeads(h.body)
    ensures Omitted(Flatten(hunks)) == Flatten(hunks[..Adding(hunks)])
  {
    SplitFlatten(hunks);
    var n := Adding(hunks);
    assert hunks[..0] == [];
    assert [] + [] + Flatten(hunks[..n]) == Flatten(hunks[..n]);
  }

  function AddedLines(lines: seq<Line>): seq<string> {
    if lines == [] then [] else (if lines[0].Add? then [lines[0].text] else []) + AddedLines(lines[1..])
  }

  lemma {:induction false} AddedConcat(a: seq<Line>, b: seq<Line>)
    ensures AddedLines(a + b) == AddedLines(a) + AddedLines(b)
  {
    if a == [] {
      assert a + b == b;
    } else {
      var ab := a + b;
      assert ab[0] == a[0] && ab[1..] == a[1..] + b;
      AddedConcat(a[1..], b);
      Assoc(if a[0].Add? then [a[0].text] else [], AddedLines(a[1..]), AddedLines(b));
    }
  }

  lemma {:induction false} NoneAdded(lines: seq<Line>)
    requires !HasAdd(lines)
    ensures AddedLines(lines) == []
  {
    if lines != [] {
      assert lines[0] in lines;
      forall l | l in lines[1..] ensures !l.Add? {
        assert l in lines;
      }
      NoneAdded(lines[1..]);
    }
  }

  lemma {:induction false} NoneAddedHunks(hunks: seq<Hunk>)
    requires forall k :: 0 <= k < |hunks| ==> !HasAdd(hunks[k].body)
    ensures AddedLines(Flatten(hunks)) == []
  {
    if hunks != [] {
      assert forall k :: 0 <= k < |hunks[1..]| ==> hunks[1..][k] == hunks[k + 1];
      NoneAddedHunks(hunks[1..]);
      NoneAdded(hunks[0].body);
      AddedConcat([Head(hunks[0].header)] + hunks[0].body, Flatten(hunks[1..]));
      AddedConcat([Head(hunks[0].header)], hunks[0].body);
    }
  }

  lemma {:induction false} FlattenConcat(a: seq<Hunk>, b: seq<Hunk>)
    ensures Flatten(a + b) == Flatten(a) + Flatten(b)
  {
    if a == [] {
      assert a + b == b;
    } else {
      var ab := a + b;
      assert ab[0] == a[0] && ab[1..] == a[1..] + b;
      FlattenConcat(a[1..], b);
      Assoc([Head(a[0].header)] + a[0].body, Flatten(a[1..]), Flatten(b));
    }
  }

  lemma {:induction false} AddedSplit(hunks: seq<Hunk>, n: nat)
    requires n <= |hunks|
    ensures AddedLines(Flatten(hunks)) == AddedLines(Flatten(hunks[..n])) + AddedLines(Flatten(hunks[n..]))
  {
    assert hunks == hunks[..n] + hunks[n..];
    FlattenConcat(hunks[..n], hunks[n..]);
    AddedConcat(Flatten(hunks[..n]), Flatten(hunks[n..]));
  }

  /** No added line is lost or moved. */
  lemma {:induction false} AddedLinesKept(hunks: seq<Hunk>)
    requires forall h :: h in hunks ==> NoHeads(h.body)
    ensures AddedLines(Omitted(Flatten(hunks))) == AddedLines(Flatten(hunks))
  {
    var n := Adding(hunks);
    OmittedIsPrefix(hunks);
    AddedSplit(hunks, n);
    assert AddedLines(Flatten(hunks[n..])) == [] by {
      NoneAddedHunks(hunks[n..]);
    }
  }

  lemma {:induction false} AddingPrefix(hunks: seq<Hunk>)
    ensures Adding(hunks[..Adding(hunks)]) == Adding(hunks)
  {
    var n := Adding(hunks);
    if n > 0 {
      assert HasAdd(hunks[..n][n - 1].body);
    }
  }

  /** A second application changes nothing. */
  lemma {:induction false} OmittedTwice(hunks: seq<Hunk>)
    requires forall h :: h in hunks ==> NoHeads(h.body)
    ensures Omitted(Omitted(Flatten(hunks))) == Omitted(Flatten(hunks))
  {
    var n := Adding(hunks);
    OmittedIsPrefix(hunks);
    OmittedIsPrefix(hunks[..n]);
    AddingPrefix(hunks);
    assert hunks[..n][..n] == hunks[..n];
  }

  lemma {:induction false} KeptSplit(hunks: seq<Hunk>)
    requires forall h :: h in hunks ==> NoHeads(h.body)
    ensures Split(Omitted(Flatten(hunks))) == ([], hunks[..Adding(hunks)])
  {
    var kept := hunks[..Adding(hunks)];
    OmittedIsPrefix(hunks);
    forall h | h in kept ensures NoHeads(h.body) {
      assert h in hunks;
    }
    SplitFlatten(kept);
  }

  /** Every hunk before one that adds a line adds one too. */
  ghost predicate AddsFirst(hunks: seq<Hunk>) {
    forall j, k :: 0 <= j < k < |hunks| && HasAdd(hunks[k].body) ==> HasAdd(hunks[j].body)
  }

  ghost predicate EachAdds(hunks: seq<Hunk>) { forall k :: 0 <= k < |hunks| ==> HasAdd(hunks[k].body) }

  lemma {:induction false} AllKeptAdd(hunks: seq<Hunk>)
    ensures EachAdds(hunks[..Adding(hunks)]) <==> AddsFirst(hunks)
  {
    var n := Adding(hunks);
    var kept := hunks[..n];
    if EachAdds(kept) {
      forall j, k | 0 <= j < k < |hunks| && HasAdd(hunks[k].body) ensures HasAdd(hunks[j].body) {
        assert HasAdd(kept[j].body);
      }
    }
    if AddsFirst(hunks) {
      forall j | 0 <= j < n ensures HasAdd(kept[j].body) {
        assert HasAdd(hunks[n - 1].body);
      }
    }
  }

  /** The stated aim, that no hunk without added lines is left, is met exactly if no such hunk comes before one that
      adds a line. */
  lemma {:induction false} DeletionHunksGone(hunks: seq<Hunk>)
    requires forall h :: h in hunks ==> NoHeads(h.body)
    ensures EachAdds(Split(Omitted(Flatten(hunks))).1) <==> AddsFirst(hunks)
  {
    KeptSplit(hunks);
    AllKeptAdd(hunks);
  }

  lemma {:induction false} FirstHunkFits(base: seq<string>, head: seq<string>, h: Hunk)
    requires |base| >= 2 && |head| >= 1 && base[0] == head[0]
    requires h == Hunk(Header(1, Some(2), 1, Some(1), ""), [Ctx(base[0]), Del(base[1])])
    ensures HunkFits(base, head, h) && OldEnd(h) == 2 && NewEnd(h) == 1
  {
    SidesOfTwo(Ctx(base[0]), Del(base[1]));
    assert base[0..2] == [base[0], base[1]] && head[0..1] == [head[0]];
  }

  lemma {:induction false} SecondHunkFits(base: seq<string>, head: seq<string>, h: Hunk)
    requires |base| == 4 && |head| == 4 && base[3] == head[2]
    requires h == Hunk(Header(4, Some(1), 3, Some(2), ""), [Ctx(base[3]), Add(head[3])])
    ensures HunkFits(base, head, h) && OldEnd(h) == 4 && NewEnd(h) == 4
  {
    SidesOfTwo(Ctx(base[3]), Add(head[3]));
    assert base[3..4] == [base[3]] && head[2..4] == [head[2], head[3]];
  }

  lemma {:induction false} TwoHunksTake(base: seq<string>, head: seq<string>, h0: Hunk, h1: Hunk)
    requires |base| == 4 && |head| == 4 && base[0] == head[0] && base[2] == head[1] && base[3] == head[2]
    requires h0 == Hunk(Header(1, Some(2), 1, Some(1), ""), [Ctx(base[0]), Del(base[1])])
    requires h1 == Hunk(Header(4, Some(1), 3, Some(2), ""), [Ctx(base[3]), Add(head[3])])
    ensures Takes(base, head, [h0, h1])
  {
    FirstHunkFits(base, head, h0);
    SecondHunkFits(base, head, h1);
    assert base[4..] == [] && head[4..] == [] && base[0..0] == [] && head[0..0] == [];
    assert base[2..3] == [base[2]] && head[1..2] == [head[1]];
    TakesCons(base, head, 2, 1, h1, []);
    TakesCons(base, head, 0, 0, h0, [h1]);
    assert [h1] + [] == [h1] && [h0] + [h1] == [h0, h1];
  }

  lemma {:induction false} TwoHunksStay(h0: Hunk, h1: Hunk)
    requires HasAdd(h1.body) && NoHeads(h0.body) && NoHeads(h1.body)
    ensures Omitted(Flatten([h0, h1])) == Flatten([h0, h1])
  {
    BothKept(h0, h1);
    OmittedIsPrefix([h0, h1]);
    assert [h0, h1][..2] == [h0, h1];
  }

  lemma {:induction false} BothKept(h0: Hunk, h1: Hunk)
    requires HasAdd(h1.body)
    ensures Adding([h0, h1]) == 2
  {
    assert [h0, h1][1..] == [h1];
  }

  /** A deletion in front of an addition stays: a patch from one file to another whose first hunk only deletes, and of
      which nothing is dropped. */
  lemma {:induction false} DeletionHunkStays()
    ensures var base, head := ["x", "a", "y", "b"], ["x", "y", "b", "c"];
            var hunks := [Hunk(Header(1, Some(2), 1, Some(1), ""), [Ctx("x"), Del("a")]),
                          Hunk(Header(4, Some(1), 3, Some(2), ""), [Ctx("b"), Add("c")])];
            Takes(base, head, hunks) && !HasAdd(hunks[0].body) && Omitted(Flatten(hunks)) == Flatten(hunks)
  {
    var h0, h1 := Hunk(Header(1, Some(2), 1, Some(1), ""), [Ctx("x"), Del("a")]),
                  Hunk(Header(4, Some(1), 3, Some(2), ""), [Ctx("b"), Add("c")]);
    TwoHunksTake(["x", "a", "y", "b"], ["x", "y", "b", "c"], h0, h1);
    assert h1.body[1].Add? && !h0.body[0].Add? && !h0.body[1].Add?;
    assert NoHeads(h0.body) && NoHeads(h1.body);
    TwoHunksStay(h0, h1);
  }

  /** One hunk in front of a patch whose result is known. */
  lemma {:induction false} AppliesFirst(base: seq<string>, head: seq<string>, p: nat, q: nat, h: Hunk, rest: seq<Hunk>,
                                        end: int, more: seq<string>)
    requires HunkFits(base, head, h) && p <= h.header.start1 - 1 && q <= h.header.start2 - 1
    requires base[p..h.header.start1 - 1] == head[q..h.header.start2 - 1]
    requires NewEnd(h) <= end <= |head| && ApplyFrom(base, OldEnd(h), rest) == Some(head[NewEnd(h)..end] + more)
    ensures ApplyFrom(base, p, [h] + rest) == Some(head[q..end] + more)
  {
    var s2 := h.header.start2 - 1;
    assert ([h] + rest)[1..] == rest;
    assert head[s2..NewEnd(h)] == NewSide(h.body);
    ThreeParts(head, q, s2, NewEnd(h), end, more);
  }

  lemma {:induction false} PrefixApplies(base: seq<string>, head: seq<string>, p: nat, q: nat, hunks: seq<Hunk>, n: nat)
    requires TakesFrom(base, head, p, q, hunks) && n <= |hunks|
    ensures n > 0 ==> 0 <= OldEnd(hunks[n - 1]) <= |base| && q <= NewEnd(hunks[n - 1]) <= |head|
    ensures ApplyFrom(base, p, hunks[..n]) ==
            if n == 0 then Some(base[p..])
            else Some(head[q..NewEnd(hunks[n - 1])] + base[OldEnd(hunks[n - 1])..])
    decreases n
  {
    if n > 0 {
      var h, rest, last := hunks[0], hunks[1..], hunks[n - 1];
      PrefixApplies(base, head, OldEnd(h), NewEnd(h), rest, n - 1);
      assert if n > 1 then rest[n - 2] == last else last == h && head[NewEnd(h)..NewEnd(last)] == [];
      assert [] + base[OldEnd(h)..] == base[OldEnd(h)..];
      AppliesFirst(base, head, p, q, h, rest[..n - 1], NewEnd(last), base[OldEnd(last)..]);
      assert hunks[..n] == [h] + rest[..n - 1];
    }
  }

  lemma {:induction false} ThreeParts(s: seq<string>, a: int, b: int, c: int, d: int, t: seq<string>)
    requires 0 <= a <= b <= c <= d <= |s|
    ensures s[a..b] + s[b..c] + (s[c..d] + t) == s[a..d] + t
  {
  }

  /** What is left is still a correct patch: applied to the old file it gives the new file up to the last hunk left, and
      the old file from there on. */
  lemma {:induction false} OmittedApplies(base: seq<string>, head: seq<string>, hunks: seq<Hunk>)
    requires Takes(base, head, hunks)
    ensures var n := Adding(hunks);
            && (n > 0 ==> 0 <= OldEnd(hunks[n - 1]) <= |base| && 0 <= NewEnd(hunks[n - 1]) <= |head|)
            && Apply(base, Split(Omitted(Flatten(hunks))).1) ==
               Some(if n == 0 then base else head[..NewEnd(hunks[n - 1])] + base[OldEnd(hunks[n - 1])..])
  {
    TakesNoHeads(base, head, 0, 0, hunks);
    KeptSplit(hunks);
    PrefixApplies(base, head, 0, 0, hunks, Adding(hunks));
  }

  // ---------- deleted files ----------

  datatype EditType = Added | Deleted | Modified | Renamed | Unknown

  /** What a caller can rely on when hunks are left of a patch without lines before its first header: all its added lines,
      in a part of the patch that ends with one of its hunks, the last of which adds a line. */
  ghost predicate LeftOf(patch: seq<Line>, left: seq<Line>) {
    && AddedLines(left) == AddedLines(patch) && left <= patch
    && Split(left).0 == [] && Split(left).1 <= Split(patch).1
    && (Split(left).1 != [] ==> HasAdd(Split(left).1[|Split(left).1| - 1].body))
  }

  lemma {:induction false} FlattenPrefix(hunks: seq<Hunk>, n: nat)
    requires n <= |hunks|
    ensures Flatten(hunks[..n]) <= Flatten(hunks)
  {
    FlattenConcat(hunks[..n], hunks[n..]);
    assert hunks[..n] + hunks[n..] == hunks;
  }

  lemma {:induction false} WhatIsLeft(patch: seq<Line>)
    requires Split(patch).0 == []
    ensures LeftOf(patch, Omitted(patch))
  {
    var hunks := Split(patch).1;
    FlattenSplit(patch);
    assert Flatten(hunks) == [] + Flatten(hunks) == patch;
    AddedLinesKept(hunks);
    OmittedIsPrefix(hunks);
    KeptSplit(hunks);
    FlattenPrefix(hunks, Adding(hunks));
  }

  /** `handle_patch_deletions`: nothing is left exactly of a file without new content that is deleted, or may be; of any
      other all additions are, and nothing after the last of its hunks that adds. */
  method HandlePatchDeletions(patch: seq<Line>, headGiven: bool, editType: EditType) returns (left: Option<seq<Line>>)
    ensures left.None? <==> !headGiven && (editType.Deleted? || editType.Unknown?)
    ensures left.Some? ==> left.value == Omitted(patch)
    ensures left.Some? && Split(patch).0 == [] ==> LeftOf(patch, left.value)
  {
    if !headGiven && (editType.Deleted? || editType.Unknown?) {
      left := None;
    } else {
      var omitted := OmitDeletionHunks(patch);
      if Split(patch).0 == [] {
        WhatIsLeft(patch);
      }
      left := Some(omitted);
    }
  }
}
