/** The lines of a range, selected from the patch and read from the new file, are the same up to white space at the end. */
module RoutesAgree {
  import opened PyText
  import opened UnifiedDiff
  import opened GrownHunks
  import opened NumberedText
  import opened RelevantLines

  // ---------- the range of a hunk ----------

  /** The texts whose number lies in the range, when the first is numbered `next`. */
  function Cut(next: int, side: seq<string>, start: int, end: int): seq<string> {
    var lo := if start < next then 0 else start - next;
    var hi := if end + 1 - next > |side| then |side| else end + 1 - next;
    if lo < hi then side[lo..hi] else []
  }

  lemma {:induction false} CutCons(next: int, t: string, side: seq<string>, start: int, end: int)
    ensures Cut(next, [t] + side, start, end) ==
            (if start <= next <= end then [t] else []) + Cut(next + 1, side, start, end)
  {
  }

  predicate Sided(l: Line) { l.Ctx? || l.Add? || l.Del? }

  /** The new side of what is selected from a body is the part of its new side with numbers in the range. */
  lemma {:induction false} RangeOfBody(next: int, body: seq<Line>, start: int, end: int)
    requires forall l :: l in body ==> Sided(l)
    ensures NewSide(InRange(next, body, start, end)) == Cut(next, NewSide(body), start, end)
    decreases |body|
  {
    if body != [] {
      var l, rest := body[0], body[1..];
      assert l in body && forall m :: m in rest ==> m in body;
      var after := if l.Del? then next else next + 1;
      RangeOfBody(after, rest, start, end);
      RangeOfLine(next, l, NewSide(rest), InRange(after, rest, start, end), start, end);
    }
  }

  lemma {:induction false} RangeOfLine(next: int, l: Line, side: seq<string>, chosen: seq<Line>, start: int, end: int)
    requires Sided(l)
    requires NewSide(chosen) == Cut(if l.Del? then next else next + 1, side, start, end)
    ensures NewSide((if start <= next <= end then [l] else []) + chosen) == Cut(next, NewText(l) + side, start, end)
  {
    SideCons(l, chosen);
    assert [] + chosen == chosen && [] + side == side && [] + NewSide(chosen) == NewSide(chosen);
    if !l.Del? {
      CutCons(next, l.text, side, start, end);
    }
  }

  lemma {:induction false} RangeFromBody(next: int, body: seq<Line>, start: int, end: int)
    ensures forall l :: l in InRange(next, body, start, end) ==> l in body
    decreases |body|
  {
    if body != [] {
      RangeFromBody(if body[0].Del? then next else next + 1, body[1..], start, end);
    }
  }

  // ---------- the hunks of a well-formed patch ----------

  /** Hunks that are read in full: the new side of what is kept is the new side. */
  ghost predicate FullyRead(skip: Line -> bool, hunks: seq<Hunk>) {
    forall k :: 0 <= k < |hunks| ==> !skip(Head(hunks[k].header)) && Clean(skip, hunks[k].body)
  }

  lemma {:induction false} KeptSide(skip: Line -> bool, body: seq<Line>)
    requires Clean(skip, body)
    ensures NewSide(Kept(skip, body)) == NewSide(body) && forall l :: l in Kept(skip, body) ==> Sided(l)
  {
    if body != [] {
      var l := body[0];
      assert l in body && forall m :: m in body[1..] ==> m in body;
      KeptSide(skip, body[1..]);
      if !skip(l) {
        SideCons(l, Kept(skip, body[1..]));
      } else {
        assert [] + Kept(skip, body[1..]) == Kept(skip, body[1..]);
        assert NewText(l) == [] && [] + NewSide(body[1..]) == NewSide(body[1..]);
      }
    }
  }

  lemma {:induction false} HunkRange(skip: Line -> bool, h: Hunk, start: int, end: int)
    requires Clean(skip, h.body)
    ensures NewSide(FromHunk(KeptHunk(skip, h), start, end)) ==
            if Covers(h.header, start) then Cut(h.header.start2, NewSide(h.body), start, end) else []
    ensures forall l :: l in FromHunk(KeptHunk(skip, h), start, end) ==> Sided(l)
  {
    KeptSide(skip, h.body);
    RangeOfBody(h.header.start2, Kept(skip, h.body), start, end);
    RangeFromBody(h.header.start2, Kept(skip, h.body), start, end);
  }

  /** The new side of what is selected, hunk by hunk. */
  function SideOf(skip: Line -> bool, hunks: seq<Hunk>, start: int, end: int): seq<string> {
    if hunks == [] then []
    else NewSide(FromHunk(KeptHunk(skip, hunks[0]), start, end)) + SideOf(skip, hunks[1..], start, end)
  }

  lemma {:induction false} SideOfAll(skip: Line -> bool, hunks: seq<Hunk>, start: int, end: int)
    ensures NewSide(FromHunks(KeptHunks(skip, hunks), start, end)) == SideOf(skip, hunks, start, end)
  {
    if hunks != [] {
      SideOfAll(skip, hunks[1..], start, end);
      FirstAndRest(skip, hunks, start, end);
    }
  }

  /** What is selected from the first hunk, and from the ones after it. */
  lemma {:induction false} FirstAndRest(skip: Line -> bool, hunks: seq<Hunk>, start: int, end: int)
    requires hunks != []
    ensures var first, rest := FromHunk(KeptHunk(skip, hunks[0]), start, end), FromHunks(KeptHunks(skip, hunks[1..]), start, end);
            && NewSide(FromHunks(KeptHunks(skip, hunks), start, end)) == NewSide(first) + NewSide(rest)
            && FromHunks(KeptHunks(skip, hunks), start, end) == first + rest
  {
    var kept := KeptHunks(skip, hunks);
    assert kept[0] == KeptHunk(skip, hunks[0]) && kept[1..] == KeptHunks(skip, hunks[1..]);
    NewSideConcat(FromHunk(kept[0], start, end), FromHunks(kept[1..], start, end));
  }

  lemma {:induction false} RestRead(skip: Line -> bool, hunks: seq<Hunk>)
    requires FullyRead(skip, hunks) && hunks != []
    ensures FullyRead(skip, hunks[1..]) && Clean(skip, hunks[0].body) && !skip(Head(hunks[0].header))
  {
    assert forall j :: 0 <= j < |hunks[1..]| ==> hunks[1..][j] == hunks[j + 1];
  }

  lemma {:induction false} AllSided(skip: Line -> bool, hunks: seq<Hunk>, start: int, end: int)
    requires FullyRead(skip, hunks)
    ensures forall l :: l in FromHunks(KeptHunks(skip, hunks), start, end) ==> Sided(l)
  {
    if hunks != [] {
      RestRead(skip, hunks);
      HunkRange(skip, hunks[0], start, end);
      FirstAndRest(skip, hunks, start, end);
      AllSided(skip, hunks[1..], start, end);
    }
  }

  lemma {:induction false} OwnRange(head: seq<string>, h: Hunk, start: int, end: int)
    requires StandsAt(NewSide(h.body), head, h.header.start2 - 1)
    requires |NewSide(h.body)| == h.header.NewCount()
    requires h.header.start2 <= start <= end && start <= NewEnd(h)
    ensures Covers(h.header, start)
    ensures Cut(h.header.start2, NewSide(h.body), start, end) == head[start - 1..Min(end, NewEnd(h))]
  {
    var at, side := h.header.start2 - 1, NewSide(h.body);
    Middle(head, at, at + |side|, start - 1, Min(end, NewEnd(h)));
  }

  /** A range that starts in a hunk selects its lines of the new file, up to the end of the hunk. */
  lemma {:induction false} InHunk(skip: Line -> bool, head: seq<string>, h: Hunk, start: int, end: int)
    requires Clean(skip, h.body) && StandsAt(NewSide(h.body), head, h.header.start2 - 1)
    requires |NewSide(h.body)| == h.header.NewCount()
    requires h.header.start2 <= start <= end && start <= NewEnd(h)
    ensures 0 < start && NewEnd(h) <= |head|
    ensures NewSide(FromHunk(KeptHunk(skip, h), start, end)) == head[start - 1..Min(end, NewEnd(h))]
  {
    HunkRange(skip, h, start, end);
    OwnRange(head, h, start, end);
  }

  /** A range after a hunk selects nothing from its new side. */
  lemma {:induction false} AfterHunk(skip: Line -> bool, h: Hunk, start: int, end: int)
    requires Clean(skip, h.body) && NewEnd(h) < start
    ensures NewSide(FromHunk(KeptHunk(skip, h), start, end)) == []
  {
    HunkRange(skip, h, start, end);
  }

  /** Hunks after the one in which the range starts add nothing to it, even if it runs on into them. */
  lemma {:induction false} LaterHunks(base: seq<string>, head: seq<string>, p: nat, q: nat, skip: Line -> bool,
                                      hunks: seq<Hunk>, start: int, end: int)
    requires TakesFrom(base, head, p, q, hunks) && FullyRead(skip, hunks) && start <= q
    ensures SideOf(skip, hunks, start, end) == []
    decreases |hunks|
  {
    if hunks != [] {
      var h := hunks[0];
      FirstTaken(base, head, p, q, hunks);
      RestRead(skip, hunks);
      LaterHunks(base, head, OldEnd(h), NewEnd(h), skip, hunks[1..], start, end);
      HunkRange(skip, h, start, end);
    }
  }

  lemma {:induction false} SideOfLater(skip: Line -> bool, hunks: seq<Hunk>, start: int, end: int)
    requires hunks != [] && FullyRead(skip, hunks) && NewEnd(hunks[0]) < start
    ensures SideOf(skip, hunks, start, end) == SideOf(skip, hunks[1..], start, end)
  {
    RestRead(skip, hunks);
    AfterHunk(skip, hunks[0], start, end);
  }

  lemma {:induction false} SideOfFirst(base: seq<string>, head: seq<string>, p: nat, q: nat, skip: Line -> bool,
                                       hunks: seq<Hunk>, start: int, end: int)
    requires hunks != [] && TakesFrom(base, head, p, q, hunks) && FullyRead(skip, hunks)
    requires hunks[0].header.start2 <= start <= end && start <= NewEnd(hunks[0])
    ensures 0 < start <= NewEnd(hunks[0]) <= |head|
    ensures SideOf(skip, hunks, start, end) == head[start - 1..Min(end, NewEnd(hunks[0]))]
  {
    var h := hunks[0];
    FirstTaken(base, head, p, q, hunks);
    RestRead(skip, hunks);
    InHunk(skip, head, h, start, end);
    LaterHunks(base, head, OldEnd(h), NewEnd(h), skip, hunks[1..], start, end);
  }

  lemma {:induction false} SideOfRange(base: seq<string>, head: seq<string>, p: nat, q: nat, skip: Line -> bool,
                                       hunks: seq<Hunk>, k: nat, start: int, end: int)
    requires TakesFrom(base, head, p, q, hunks) && FullyRead(skip, hunks)
    requires k < |hunks| && hunks[k].header.start2 <= start <= end && start <= NewEnd(hunks[k])
    ensures 0 < start <= NewEnd(hunks[k]) <= |head|
    ensures SideOf(skip, hunks, start, end) == head[start - 1..Min(end, NewEnd(hunks[k]))]
    decreases |hunks|
  {
    if k == 0 {
      SideOfFirst(base, head, p, q, skip, hunks, start, end);
    } else {
      var h, rest := hunks[0], hunks[1..];
      FirstTaken(base, head, p, q, hunks);
      RestRead(skip, hunks);
      TakesMember(base, head, OldEnd(h), NewEnd(h), rest, k - 1);
      SideOfLater(skip, hunks, start, end);
      SideOfRange(base, head, OldEnd(h), NewEnd(h), skip, rest, k - 1, start, end);
    }
  }

  /** A hunk in which the range does not start. */
  lemma {:induction false} ElsewhereHunk(skip: Line -> bool, h: Hunk, start: int, end: int)
    requires Clean(skip, h.body) && !(h.header.start2 <= start <= NewEnd(h))
    ensures NewSide(FromHunk(KeptHunk(skip, h), start, end)) == []
  {
    HunkRange(skip, h, start, end);
  }

  /** A range that starts in no hunk selects nothing of any new side. */
  lemma {:induction false} StartsOutside(skip: Line -> bool, hunks: seq<Hunk>, start: int, end: int)
    requires FullyRead(skip, hunks)
    requires forall k :: 0 <= k < |hunks| ==> !(hunks[k].header.start2 <= start <= NewEnd(hunks[k]))
    ensures NewSide(FromHunks(KeptHunks(skip, hunks), start, end)) == []
  {
    if hunks != [] {
      RestRead(skip, hunks);
      assert forall k :: 0 <= k < |hunks[1..]| ==> hunks[1..][k] == hunks[k + 1];
      StartsOutside(skip, hunks[1..], start, end);
      ElsewhereHunk(skip, hunks[0], start, end);
      FirstAndRest(skip, hunks, start, end);
    }
  }

  /** The new side of what is selected from a well-formed patch, for a range that starts in hunk k: the lines of the new
      file, up to the end of that hunk. */
  lemma {:induction false} RangeOfHunks(base: seq<string>, head: seq<string>, skip: Line -> bool, hunks: seq<Hunk>,
                                        k: nat, start: int, end: int)
    requires Takes(base, head, hunks) && FullyRead(skip, hunks)
    requires k < |hunks| && hunks[k].header.start2 <= start <= end && start <= NewEnd(hunks[k])
    ensures 0 < start <= NewEnd(hunks[k]) <= |head|
    ensures NewSide(FromHunks(KeptHunks(skip, hunks), start, end)) == head[start - 1..Min(end, NewEnd(hunks[k]))]
  {
    SideOfAll(skip, hunks, start, end);
    SideOfRange(base, head, 0, 0, skip, hunks, k, start, end);
  }

  // ---------- reading the hunks out of the lines ----------

  lemma {:induction false} KeptConcat(skip: Line -> bool, a: seq<Line>, b: seq<Line>)
    ensures Kept(skip, a + b) == Kept(skip, a) + Kept(skip, b)
  {
    if a == [] {
      assert a + b == b;
    } else {
      assert (a + b)[0] == a[0] && (a + b)[1..] == a[1..] + b;
      KeptConcat(skip, a[1..], b);
      Assoc(if skip(a[0]) then [] else [a[0]], Kept(skip, a[1..]), Kept(skip, b));
    }
  }

  lemma {:induction false} KeptFlatten(skip: Line -> bool, hunks: seq<Hunk>)
    requires forall k :: 0 <= k < |hunks| ==> !skip(Head(hunks[k].header))
    ensures Kept(skip, Flatten(hunks)) == Flatten(KeptHunks(skip, hunks))
  {
    if hunks != [] {
      var h, kept := hunks[0], KeptHunks(skip, hunks);
      assert forall k :: 0 <= k < |hunks[1..]| ==> hunks[1..][k] == hunks[k + 1];
      KeptFlatten(skip, hunks[1..]);
      KeptConcat(skip, [Head(h.header)] + h.body, Flatten(hunks[1..]));
      KeptCons(skip, Head(h.header), h.body);
      assert kept[0] == KeptHunk(skip, h) && kept[1..] == KeptHunks(skip, hunks[1..]);
    }
  }

  lemma {:induction false} SelectedFromHunks(skip: Line -> bool, hunks: seq<Hunk>, start: int, end: int)
    requires BodiesOk(hunks) && FullyRead(skip, hunks)
    ensures Selected(Kept(skip, Flatten(hunks)), start, end) == FromHunks(KeptHunks(skip, hunks), start, end)
  {
    KeptFlatten(skip, hunks);
    KeptNoHeads(skip, hunks);
    SplitFlatten(KeptHunks(skip, hunks));
    var chosen := FromHunks(KeptHunks(skip, hunks), start, end);
    assert [] + chosen == chosen;
  }

  // ---------- white space at the end ----------

  lemma {:induction false} MarkerOff(l: Line)
    requires Sided(l)
    ensures (if StartsWith("-", Raw(l)) then [] else [if Raw(l) == "" then "" else Raw(l)[1..]]) == NewText(l)
  {
    assert !l.Del? ==> Raw(l)[0] != '-' && Raw(l)[1..] == l.text;
    assert l.Del? ==> Raw(l)[..1] == "-";
  }

  lemma {:induction false} MarkersOff(lines: seq<Line>)
    requires forall l :: l in lines ==> Sided(l)
    ensures WithoutMarkers(RawAll(lines)) == NewSide(lines)
  {
    if lines != [] {
      assert lines[0] in lines && forall l :: l in lines[1..] ==> l in lines;
      MarkersOff(lines[1..]);
      assert RawAll(lines)[1..] == RawAll(lines[1..]);
      MarkerOff(lines[0]);
    }
  }

  lemma {:induction false} MarkersOffConcat(a: seq<string>, b: seq<string>)
    ensures WithoutMarkers(a + b) == WithoutMarkers(a) + WithoutMarkers(b)
  {
    if a == [] {
      assert a + b == b;
    } else {
      assert (a + b)[0] == a[0] && (a + b)[1..] == a[1..] + b;
      MarkersOffConcat(a[1..], b);
      var first := if StartsWith("-", a[0]) then [] else [if a[0] == "" then "" else a[0][1..]];
      Assoc(first, WithoutMarkers(a[1..]), WithoutMarkers(b));
    }
  }

  lemma {:induction false} TrimSnoc(lines: seq<string>, last: string)
    ensures Trim(lines + [last]) == if IsBlank(last) then Trim(lines) else lines + [RStrip(last)]
  {
    assert (lines + [last])[..|lines|] == lines;
  }

  /** A line with its marker, stripped at the end. */
  lemma {:induction false} MarkedLine(mark: string, text: string)
    requires mark == "+" || (mark == " " && !IsBlank(text))
    ensures !IsBlank(mark + text) && RStrip(mark + text) == mark + RStrip(text)
  {
    RStripConcat(mark, text);
    if IsBlank(text) {
      assert RStrip("+") == "+" && (mark + text)[0] == '+';
    } else {
      var i :| 0 <= i < |text| && !IsSpace(text[i]);
      assert (mark + text)[i + 1] == text[i];
    }
  }

  lemma {:induction false} DeletedLine(text: string)
    ensures !IsBlank("-" + text) && WithoutMarkers([RStrip("-" + text)]) == []
  {
    RStripConcat("-", text);
    assert ("-" + text)[0] == '-';
    assert RStrip("-") == "-";
    assert StartsWith("-", RStrip("-" + text));
  }

  /** Stripping the end of the last line, before or after its marker is taken off. */
  lemma {:induction false} LastLine(init: seq<string>, l: Line)
    requires Sided(l) && !(l.Ctx? && IsBlank(l.text))
    ensures !IsBlank(Raw(l))
    ensures Trim(init + WithoutMarkers([RStrip(Raw(l))])) == Trim(init + NewText(l))
  {
    if l.Del? {
      DeletedLine(l.text);
    } else {
      var mark := if l.Ctx? then " " else "+";
      MarkedLine(mark, l.text);
      var shown := mark + RStrip(l.text);
      assert shown[0] != '-' && shown[1..] == RStrip(l.text);
      assert WithoutMarkers([shown]) == [RStrip(l.text)];
      TrimSnoc(init, RStrip(l.text));
      TrimSnoc(init, l.text);
    }
  }

  lemma {:induction false} LinesSnoc(init: seq<Line>, l: Line)
    ensures NewSide(init + [l]) == NewSide(init) + NewText(l) && RawAll(init + [l]) == RawAll(init) + [Raw(l)]
  {
    NewSideConcat(init, [l]);
    SideCons(l, []);
    assert [l] + [] == [l] && NewText(l) + [] == NewText(l);
  }

  lemma {:induction false} LastShown(init: seq<Line>, l: Line)
    requires Sided(l) && (forall m :: m in init ==> Sided(m)) && !(l.Ctx? && IsBlank(l.text))
    ensures !IsBlank(Raw(l))
    ensures Trim(WithoutMarkers(RawAll(init) + [RStrip(Raw(l))])) == Trim(NewSide(init) + NewText(l))
  {
    LastLine(NewSide(init), l);
    MarkersOff(init);
    MarkersOffConcat(RawAll(init), [RStrip(Raw(l))]);
  }

  lemma {:induction false} BlankLast(init: seq<Line>, l: Line)
    requires l.Ctx? && IsBlank(l.text)
    ensures Trim(RawAll(init + [l])) == Trim(RawAll(init)) && Trim(NewSide(init + [l])) == Trim(NewSide(init))
  {
    LinesSnoc(init, l);
    assert IsBlank(Raw(l));
    TrimSnoc(RawAll(init), Raw(l));
    TrimSnoc(NewSide(init), l.text);
  }

  lemma {:induction false} TextLast(init: seq<Line>, l: Line)
    requires Sided(l) && (forall m :: m in init ==> Sided(m)) && !(l.Ctx? && IsBlank(l.text))
    ensures Trim(WithoutMarkers(Trim(RawAll(init + [l])))) == Trim(NewSide(init + [l]))
  {
    LinesSnoc(init, l);
    LastShown(init, l);
    TrimSnoc(RawAll(init), Raw(l));
  }

  /** Taking the markers off a selection whose end was stripped gives the new side, up to white space at its end. */
  lemma {:induction false} TrimmedRoute(lines: seq<Line>)
    requires forall l :: l in lines ==> Sided(l)
    ensures Trim(WithoutMarkers(Trim(RawAll(lines)))) == Trim(NewSide(lines))
  {
    if lines == [] {
    } else {
      var init, l := lines[..|lines| - 1], lines[|lines| - 1];
      assert lines == init + [l] && l in lines && forall m :: m in init ==> m in lines;
      if l.Ctx? && IsBlank(l.text) {
        TrimmedRoute(init);
        BlankLast(init, l);
      } else {
        TextLast(init, l);
      }
    }
  }

  /** For a range that starts in a hunk of a well-formed patch that is read in full, the lines selected from the patch are
      those of the new file up to the end of that hunk, up to white space at the end; this holds although neighbouring
      hunks may pass the test at their headers too, and for omitted counts as well. So for a range inside one hunk both
      routes give the same. */
  lemma {:induction false} RoutesAgree(skip: Line -> bool, base: seq<string>, head: seq<string>, hunks: seq<Hunk>,
                                       k: nat, start: int, end: int)
    requires Takes(base, head, hunks) && FullyRead(skip, hunks)
    requires k < |hunks| && hunks[k].header.start2 <= start <= end && start <= NewEnd(hunks[k])
    ensures 0 < start <= NewEnd(hunks[k]) <= |head|
    ensures var route, own := PatchRoute(skip, Flatten(hunks), start, end), head[start - 1..Min(end, NewEnd(hunks[k]))];
            if route.Some? then Trim(route.value) == Trim(own) else Trim(own) == []
    ensures end <= NewEnd(hunks[k]) ==> Slice(head, start - 1, end) == head[start - 1..Min(end, NewEnd(hunks[k]))]
  {
    HunksSided(skip, hunks);
    SelectedFromHunks(skip, hunks, start, end);
    RangeOfHunks(base, head, skip, hunks, k, start, end);
    AllSided(skip, hunks, start, end);
    TrimmedRoute(FromHunks(KeptHunks(skip, hunks), start, end));
  }

  lemma {:induction false} HunksSided(skip: Line -> bool, hunks: seq<Hunk>)
    requires FullyRead(skip, hunks)
    ensures BodiesOk(hunks)
  {
    forall j, l | 0 <= j < |hunks| && l in hunks[j].body ensures BodyLine(l) {
      assert Clean(skip, hunks[j].body);
    }
  }
}
