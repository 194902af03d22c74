/** Selecting a range of lines from a patch (`extract_hunk_lines_from_patch`, right side) and the two routes of
    `extract_relevant_lines_str`. */
module RelevantLines {
  import opened PyText
  import opened UnifiedDiff
  import opened DecoupleHunks
  import opened NumberedText
  import opened LineWalkers

  function RawAll(lines: seq<Line>): (r: seq<string>)
    ensures |r| == |lines| && forall i :: 0 <= i < |r| ==> r[i] == Raw(lines[i])
  {
    seq(|lines|, i requires 0 <= i < |lines| => Raw(lines[i]))
  }

  /** The lines of a body whose number lies in the range; `next` is the number of the next line. A deleted line counts
      with the number of the line that follows it. */
  function InRange(next: int, body: seq<Line>, start: int, end: int): seq<Line>
    decreases |body|
  {
    if body == [] then []
    else (if start <= next <= end then [body[0]] else [])
         + InRange(if body[0].Del? then next else next + 1, body[1..], start, end)
  }

  /** The lines of a hunk from line k on that come after the number before the range and not after its end, by the number
      that the position searches count. */
  function ByLineNo(header: Header, body: seq<Line>, k: nat, start: int, end: int): seq<Line>
    requires k <= |body|
    decreases |body| - k
  {
    if k == |body| then []
    else (if start <= LineNo(-1, [Head(header)] + body, k, NotMinus) + 1 <= end then [body[k]] else [])
         + ByLineNo(header, body, k + 1, start, end)
  }

  /** The walk that selects a range goes by the same number: a line is selected exactly if the number before it is one
      less than a number of the range. */
  lemma {:induction false} RangeByLineNo(header: Header, body: seq<Line>, k: nat, start: int, end: int)
    requires NoHeads(body) && k <= |body|
    ensures InRange(LineNo(-1, [Head(header)] + body, k, NotMinus) + 1, body[k..], start, end) ==
            ByLineNo(header, body, k, start, end)
    decreases |body| - k
  {
    if k < |body| {
      RangeByLineNo(header, body, k + 1, start, end);
      assert body[k..][0] == body[k] && body[k..][1..] == body[k + 1..];
    }
  }

  /** So of a hunk whose header covers the start of the range, the lines in the range are selected. */
  lemma {:induction false} HunkByLineNo(h: Hunk, start: int, end: int)
    requires NoHeads(h.body) && Covers(h.header, start)
    ensures FromHunk(h, start, end) == ByLineNo(h.header, h.body, 0, start, end)
  {
    RangeByLineNo(h.header, h.body, 0, start, end);
    assert h.body[0..] == h.body;
  }

  /** The test made at a header. The line one past the hunk passes as well. */
  predicate Covers(h: Header, start: int) { h.start2 <= start <= h.start2 + h.Size2() }

  function FromHunk(h: Hunk, start: int, end: int): seq<Line> {
    if Covers(h.header, start) then InRange(h.header.start2, h.body, start, end) else []
  }

  function FromHunks(hunks: seq<Hunk>, start: int, end: int): seq<Line> {
    if hunks == [] then [] else FromHunk(hunks[0], start, end) + FromHunks(hunks[1..], start, end)
  }

  /** The hunks whose header passes, each after an empty line, with all their lines. */
  function CoveringHunks(hunks: seq<Hunk>, start: int): seq<Line> {
    if hunks == [] then []
    else (if Covers(hunks[0].header, start) then [Blank, Head(hunks[0].header)] + hunks[0].body else [])
         + CoveringHunks(hunks[1..], start)
  }

  lemma {:induction false} HunksConcat(a: seq<Hunk>, b: seq<Hunk>, start: int, end: int)
    ensures CoveringHunks(a + b, start) == CoveringHunks(a, start) + CoveringHunks(b, start)
    ensures FromHunks(a + b, start, end) == FromHunks(a, start, end) + FromHunks(b, start, end)
  {
    if a == [] {
      assert a + b == b;
    } else {
      var shown := if Covers(a[0].header, start) then [Blank, Head(a[0].header)] + a[0].body else [];
      assert (a + b)[0] == a[0] && (a + b)[1..] == a[1..] + b;
      HunksConcat(a[1..], b, start, end);
      Assoc(shown, CoveringHunks(a[1..], start), CoveringHunks(b, start));
      Assoc(FromHunk(a[0], start, end), FromHunks(a[1..], start, end), FromHunks(b, start, end));
    }
  }

  lemma {:induction false} OneHunk(h: Hunk, rest: seq<Hunk>, start: int, end: int)
    ensures var passes := h.header.start2 <= start && start <= h.header.start2 + h.header.Size2();
            && CoveringHunks([h] + rest, start) ==
               (if passes then [Blank, Head(h.header)] + h.body else []) + CoveringHunks(rest, start)
            && FromHunks([h] + rest, start, end) ==
               (if passes then InRange(h.header.start2, h.body, start, end) else []) + FromHunks(rest, start, end)
  {
    assert ([h] + rest)[1..] == rest;
  }

  /** From each hunk the lines of the range are selected, and the hunk is shown, if the range starts in it or on the line
      after it, by the size the program reads; otherwise nothing is. */
  lemma {:induction false} HunkByHunk(before: seq<Hunk>, h: Hunk, after: seq<Hunk>, start: int, end: int)
    ensures var hunks := before + ([h] + after);
            var passes := h.header.start2 <= start && start <= h.header.start2 + h.header.Size2();
            && CoveringHunks(hunks, start) ==
               CoveringHunks(before, start) + ((if passes then [Blank, Head(h.header)] + h.body else [])
                                               + CoveringHunks(after, start))
            && FromHunks(hunks, start, end) ==
               FromHunks(before, start, end) + ((if passes then InRange(h.header.start2, h.body, start, end) else [])
                                                + FromHunks(after, start, end))
  {
    HunksConcat(before, [h] + after, start, end);
    OneHunk(h, after, start, end);
  }

  /** The lines of the range, from lines of which none is to be passed over; before the first header the count
      starts at -1. */
  function Selected(lines: seq<Line>, start: int, end: int): seq<Line> {
    PendingRange(false, -1, lines, start, end)
  }

  function PendingRange(skipHunk: bool, next: int, lines: seq<Line>, start: int, end: int): seq<Line> {
    var (pre, hunks) := Split(lines);
    (if skipHunk then [] else InRange(next, pre, start, end)) + FromHunks(hunks, start, end)
  }

  /** The lines around the range: whatever comes before the first header, and the hunks whose header passes. */
  function Surrounding(skipHunk: bool, lines: seq<Line>, start: int): seq<Line> {
    var (pre, hunks) := Split(lines);
    (if skipHunk then [] else pre) + CoveringHunks(hunks, start)
  }

  /** Lines before the first header are shown, and those selected that come into the range when they are counted from -1. */
  lemma {:induction false} SelectedExactly(pre: seq<Line>, hunks: seq<Hunk>, start: int, end: int)
    requires NoHeads(pre) && forall h :: h in hunks ==> NoHeads(h.body)
    ensures Selected(pre + Flatten(hunks), start, end) == InRange(-1, pre, start, end) + FromHunks(hunks, start, end)
    ensures Surrounding(false, pre + Flatten(hunks), start) == pre + CoveringHunks(hunks, start)
  {
    SplitFlatten(hunks);
    SplitPrefixed(pre, Flatten(hunks));
    assert pre + [] == pre;
  }

  lemma {:induction false} AllWalked(selected: seq<Line>, shown: seq<Line>, skipHunk: bool, next: int, start: int,
                                     end: int)
    ensures selected + PendingRange(skipHunk, next, [], start, end) == selected
    ensures shown + Surrounding(skipHunk, [], start) == shown
  {
  }

  /** What is selected and shown so far, with what is still to come from `rest`, makes up the whole. */
  ghost predicate Walked(selected: seq<Line>, shown: seq<Line>, skipHunk: bool, next: int, rest: seq<Line>,
                         lines: seq<Line>, start: int, end: int) {
    && selected + PendingRange(skipHunk, next, rest, start, end) == Selected(lines, start, end)
    && shown + Surrounding(skipHunk, rest, start) == Surrounding(false, lines, start)
  }

  lemma {:induction false} WalkHeader(selected: seq<Line>, shown: seq<Line>, skipHunk: bool, next: int, line: Line,
                                      rest: seq<Line>, lines: seq<Line>, start: int, end: int)
    requires line.Head? && Walked(selected, shown, skipHunk, next, [line] + rest, lines, start, end)
    ensures var skips := !Covers(line.header, start);
            Walked(selected, if skips then shown else shown + [Blank, line], skips, line.header.start2, rest, lines, start, end)
  {
    HeadRange(skipHunk, next, line, rest, start, end);
    HeadSurrounding(shown, skipHunk, line, rest, start);
  }

  lemma {:induction false} WalkLine(selected: seq<Line>, shown: seq<Line>, next: int, line: Line, rest: seq<Line>,
                                    lines: seq<Line>, start: int, end: int)
    requires !line.Head? && Walked(selected, shown, false, next, [line] + rest, lines, start, end)
    ensures Walked(if start <= next <= end then selected + [line] else selected, shown + [line], false,
                   if line.Del? then next else next + 1, rest, lines, start, end)
  {
    LineRange(selected, next, line, rest, start, end);
    LineSurrounding(shown, line, rest, start);
  }

  lemma {:induction false} WalkSkipped(selected: seq<Line>, shown: seq<Line>, next: int, line: Line, rest: seq<Line>,
                                       lines: seq<Line>, start: int, end: int)
    requires !line.Head? && Walked(selected, shown, true, next, [line] + rest, lines, start, end)
    ensures Walked(selected, shown, true, next, rest, lines, start, end)
  {
    SkipLine(next, line, rest, start, end);
  }

  lemma {:induction false} WalkStart(lines: seq<Line>, start: int, end: int)
    ensures Walked([], [], false, -1, lines, lines, start, end)
  {
    assert [] + PendingRange(false, -1, lines, start, end) == Selected(lines, start, end);
    assert [] + Surrounding(false, lines, start) == Surrounding(false, lines, start);
  }

  lemma {:induction false} WalkEnd(selected: seq<Line>, shown: seq<Line>, skipHunk: bool, next: int, lines: seq<Line>,
                                   start: int, end: int)
    requires Walked(selected, shown, skipHunk, next, [], lines, start, end)
    ensures selected == Selected(lines, start, end) && shown == Surrounding(false, lines, start)
  {
    AllWalked(selected, shown, skipHunk, next, start, end);
  }

  /** One line that is not skipped. */
  method WalkKept(line: Line, selected0: seq<Line>, shown0: seq<Line>, skipHunk0: bool, start0: int, num0: int,
                  start: int, end: int, ghost rest: seq<Line>, ghost lines: seq<Line>)
    returns (selected: seq<Line>, shown: seq<Line>, skipHunk: bool, start2: int, num: int)
    requires Walked(selected0, shown0, skipHunk0, start0 + num0, [line] + rest, lines, start, end)
    ensures Walked(selected, shown, skipHunk, start2 + num, rest, lines, start, end)
  {
    selected, shown, skipHunk, start2, num := selected0, shown0, skipHunk0, start0, num0;
    if line.Head? {
      WalkHeader(selected, shown, skipHunk, start2 + num, line, rest, lines, start, end);
      num := 0;
      start2 := line.header.start2;
      skipHunk := !(start2 <= start <= start2 + line.header.Size2());
      if !skipHunk {
        shown := shown + [Blank, line];
      }
    } else if !skipHunk {
      WalkLine(selected, shown, start2 + num, line, rest, lines, start, end);
      if start <= start2 + num <= end {
        selected := selected + [line];
      }
      shown := shown + [line];
      if !line.Del? {
        num := num + 1;
      }
    } else {
      WalkSkipped(selected, shown, start2 + num, line, rest, lines, start, end);
    }
  }

  /** One line. */
  method WalkOne(skip: Line -> bool, line: Line, selected0: seq<Line>, shown0: seq<Line>, skipHunk0: bool, start0: int,
                 num0: int, start: int, end: int, ghost tail: seq<Line>, ghost lines: seq<Line>)
    returns (selected: seq<Line>, shown: seq<Line>, skipHunk: bool, start2: int, num: int)
    requires Walked(selected0, shown0, skipHunk0, start0 + num0, Kept(skip, [line] + tail), lines, start, end)
    ensures Walked(selected, shown, skipHunk, start2 + num, Kept(skip, tail), lines, start, end)
  {
    KeptCons(skip, line, tail);
    if skip(line) {
      assert [] + Kept(skip, tail) == Kept(skip, tail);
      selected, shown, skipHunk, start2, num := selected0, shown0, skipHunk0, start0, num0;
    } else {
      selected, shown, skipHunk, start2, num :=
        WalkKept(line, selected0, shown0, skipHunk0, start0, num0, start, end, Kept(skip, tail), lines);
    }
  }

  /** One loop over the lines but those to `skip`; both results are lists of patch lines. */
  method WalkHunks(skip: Line -> bool, patch: seq<Line>, start: int, end: int)
    returns (shown: seq<Line>, selected: seq<Line>)
    ensures var lines := Kept(skip, patch);
            selected == Selected(lines, start, end) && shown == Surrounding(false, lines, start)
  {
    var start2, num := -1, 0;
    var skipHunk := false;
    ghost var lines := Kept(skip, patch);
    shown, selected := [], [];
    var i := 0;
    assert patch[0..] == patch;
    WalkStart(lines, start, end);
    while i < |patch|
      invariant 0 <= i <= |patch|
      invariant Walked(selected, shown, skipHunk, start2 + num, Kept(skip, patch[i..]), lines, start, end)
    {
      assert patch[i..] == [patch[i]] + patch[i + 1..];
      selected, shown, skipHunk, start2, num :=
        WalkOne(skip, patch[i], selected, shown, skipHunk, start2, num, start, end, patch[i + 1..], lines);
      i := i + 1;
    }
    assert patch[i..] == [];
    WalkEnd(selected, shown, skipHunk, start2 + num, lines, start, end);
  }

  lemma {:induction false} HeadRange(skipHunk: bool, next: int, line: Line, rest: seq<Line>, start: int, end: int)
    requires line.Head?
    ensures PendingRange(skipHunk, next, [line] + rest, start, end)
            == PendingRange(!Covers(line.header, start), line.header.start2, rest, start, end)
  {
    var (pre, hunks) := Split(rest);
    var all := [Hunk(line.header, pre)] + hunks;
    assert all[1..] == hunks;
    assert [] + FromHunks(all, start, end) == FromHunks(all, start, end);
  }

  lemma {:induction false} HeadSurrounding(shown: seq<Line>, skipHunk: bool, line: Line, rest: seq<Line>, start: int)
    requires line.Head?
    ensures var skips := !Covers(line.header, start);
            shown + Surrounding(skipHunk, [line] + rest, start)
            == (if skips then shown else shown + [Blank, line]) + Surrounding(skips, rest, start)
  {
    var (pre, hunks) := Split(rest);
    var all := [Hunk(line.header, pre)] + hunks;
    assert all[1..] == hunks;
    assert [] + CoveringHunks(all, start) == CoveringHunks(all, start);
    Assoc([Blank, line], pre, CoveringHunks(hunks, start));
    Assoc(shown, [Blank, line], Surrounding(false, rest, start));
  }

  lemma {:induction false} LineRange(selected: seq<Line>, next: int, line: Line, rest: seq<Line>, start: int, end: int)
    requires !line.Head?
    ensures selected + PendingRange(false, next, [line] + rest, start, end) ==
            (if start <= next <= end then selected + [line] else selected)
            + PendingRange(false, if line.Del? then next else next + 1, rest, start, end)
  {
    var (pre, hunks) := Split(rest);
    var all, after := [line] + pre, if line.Del? then next else next + 1;
    assert all[1..] == pre;
    var first := if start <= next <= end then [line] else [];
    Assoc(first, InRange(after, pre, start, end), FromHunks(hunks, start, end));
    Assoc(selected, first, PendingRange(false, after, rest, start, end));
    assert selected + [] == selected;
  }

  lemma {:induction false} LineSurrounding(shown: seq<Line>, line: Line, rest: seq<Line>, start: int)
    requires !line.Head?
    ensures shown + Surrounding(false, [line] + rest, start) == (shown + [line]) + Surrounding(false, rest, start)
  {
    var (pre, hunks) := Split(rest);
    Assoc([line], pre, CoveringHunks(hunks, start));
    Assoc(shown, [line], Surrounding(false, rest, start));
  }

  lemma {:induction false} SkipLine(next: int, line: Line, rest: seq<Line>, start: int, end: int)
    requires !line.Head?
    ensures PendingRange(true, next, [line] + rest, start, end) == PendingRange(true, next, rest, start, end)
    ensures Surrounding(true, [line] + rest, start) == Surrounding(true, rest, start)
  {
  }

  /** `extract_hunk_lines_from_patch` for the right side. The texts are kept as lists of lines; `trim` strips white space
      at their ends. */
  method ExtractHunkLines(name: string, patch: seq<Line>, start: int, end: int, trim: bool)
    returns (shown: seq<string>, selected: seq<string>)
    ensures var lines := Kept(SaysNoNewline, patch);
            var title := ["", "", "## File: '" + Strip(name) + "'", ""];
            var all, range := title + RawAll(Surrounding(false, lines, start)), RawAll(Selected(lines, start, end));
            && shown == (if trim then Trim(all) else all)
            && selected == (if trim then Trim(range) else range)
  {
    var around, range := WalkHunks(SaysNoNewline, patch, start, end);
    shown := ["", "", "## File: '" + Strip(name) + "'", ""] + RawAll(around);
    selected := RawAll(range);
    if trim {
      shown := Trim(shown);
      selected := Trim(selected);
    }
  }

  // ---------- the two routes to the lines of a range ----------

  /** Drops the deleted lines and the first character of the others. */
  function WithoutMarkers(lines: seq<string>): seq<string> {
    if lines == [] then []
    else (if StartsWith("-", lines[0]) then [] else [if lines[0] == "" then "" else lines[0][1..]]) + WithoutMarkers(lines[1..])
  }

  /** The lines of the range as the patch gives them. Nothing comes of a selection that is blank. */
  function PatchRoute(skip: Line -> bool, patch: seq<Line>, start: int, end: int): Option<seq<string>> {
    var selected := Trim(RawAll(Selected(Kept(skip, patch), start, end)));
    if selected == [] then None else Some(WithoutMarkers(selected))
  }

  lemma {:induction false} TrimNothing(lines: seq<string>)
    ensures Trim(lines) == [] <==> forall i :: 0 <= i < |lines| ==> IsBlank(lines[i])
  {
    if lines != [] {
      TrimNothing(lines[..|lines| - 1]);
    }
  }

  /** Nothing comes of the route exactly if no line is selected that is not white space, marker included. */
  lemma {:induction false} NothingSelected(skip: Line -> bool, patch: seq<Line>, start: int, end: int)
    ensures PatchRoute(skip, patch, start, end).None? <==>
            forall l :: l in Selected(Kept(skip, patch), start, end) ==> IsBlank(Raw(l))
  {
    var selected := Selected(Kept(skip, patch), start, end);
    var texts := RawAll(selected);
    TrimNothing(texts);
    assert forall i :: 0 <= i < |texts| ==> texts[i] == Raw(selected[i]);
  }

  /** The lines that are not deleted, without the marker. */
  method TakeOffMarkers(selected: seq<string>) returns (out: seq<string>)
    ensures out == WithoutMarkers(selected)
  {
    out := [];
    var i := 0;
    assert selected[0..] == selected;
    while i < |selected|
      invariant 0 <= i <= |selected|
      invariant out + WithoutMarkers(selected[i..]) == WithoutMarkers(selected)
    {
      var line := selected[i];
      ghost var rest := WithoutMarkers(selected[i + 1..]);
      assert selected[i..][0] == line && selected[i..][1..] == selected[i + 1..];
      if !StartsWith("-", line) {
        var text := if line == "" then "" else line[1..];
        Assoc(out, [text], rest);
        out := out + [text];
      } else {
        assert [] + rest == rest;
      }
      i := i + 1;
    }
    assert selected[i..] == [] && out + [] == out;
  }

  /** `extract_relevant_lines_str` up to its fence: from the new file where it is at hand, from the patch otherwise. */
  method ExtractRelevantLines(name: string, patch: seq<Line>, head: seq<string>, start: int, end: int)
    returns (lines: Option<seq<string>>)
    ensures lines ==
            if head != [] then Some(Slice(head, start - 1, end)) else PatchRoute(SaysNoNewline, patch, start, end)
  {
    if head == [] {
      var _, selected := ExtractHunkLines(name, patch, start, end, true);
      if selected == [] {
        return None;
      }
      var out := TakeOffMarkers(selected);
      lines := Some(out);
    } else {
      lines := Some(Slice(head, start - 1, end));
    }
  }
}
