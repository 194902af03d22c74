/** What the old section of a decoupled hunk shows. */
module OldSections {
  import opened PyText
  import opened UnifiedDiff
  import opened DecoupleHunks
  import opened NumberedText
  import opened NumbersExact

  /** No old-side line is skipped, and every marker of a missing newline is. */
  ghost predicate CleanOld(skip: Line -> bool, body: seq<Line>) {
    forall l :: l in body ==> BodyLine(l) && (InOld(l) ==> !skip(l)) && (l.Note? ==> skip(l))
  }

  lemma {:induction false} OldsOfKept(skip: Line -> bool, body: seq<Line>)
    requires body != []
    ensures Olds(Kept(skip, body)) ==
            (if skip(body[0]) || body[0].Add? then [] else [body[0]]) + Olds(Kept(skip, body[1..]))
  {
    var l, rest := body[0], Kept(skip, body[1..]);
    assert ([l] + rest)[0] == l && ([l] + rest)[1..] == rest && [] + rest == rest;
  }

  /** The old side that is read is the old side, line by line. */
  lemma {:induction false} OldsKept(skip: Line -> bool, body: seq<Line>)
    requires CleanOld(skip, body)
    ensures |Olds(Kept(skip, body))| == |OldSide(body)|
    ensures forall i :: 0 <= i < |OldSide(body)| ==>
              InOld(Olds(Kept(skip, body))[i]) && Olds(Kept(skip, body))[i].text == OldSide(body)[i]
  {
    if body != [] {
      assert body[0] in body && forall l :: l in body[1..] ==> l in body;
      OldsKept(skip, body[1..]);
      OldsOfKept(skip, body);
      assert OldSide(body) == OldText(body[0]) + OldSide(body[1..]);
    }
  }

  /** A text that shows line n of the old file, kept or deleted. */
  ghost predicate ShowsLine(base: seq<string>, n: int, text: string) {
    1 <= n <= |base| && (text == " " + base[n - 1] || text == "-" + base[n - 1])
  }

  lemma {:induction false} OldLineShown(skip: Line -> bool, base: seq<string>, h: Hunk, i: nat)
    requires CleanOld(skip, h.body) && StandsAt(OldSide(h.body), base, h.header.start1 - 1)
    requires i < |Olds(Kept(skip, h.body))|
    ensures ShowsLine(base, h.header.start1 + i, Raw(Olds(Kept(skip, h.body))[i]))
  {
    OldsKept(skip, h.body);
  }

  lemma {:induction false} OldSectionShowsFile(skip: Line -> bool, base: seq<string>, h: Hunk, items: seq<Item>, i: nat)
    requires CleanOld(skip, h.body) && StandsAt(OldSide(h.body), base, h.header.start1 - 1)
    requires HasKind(Olds(Kept(skip, h.body)), false) && i < |OldSide(h.body)|
    ensures var body := Kept(skip, h.body);
            var shown, n := HunkItems(items, Some(h.header), h.header.start2, News(body), Olds(body)), |OldSide(h.body)|;
            && |shown| > n && shown[|shown| - n - 1] == Plain("__old hunk__")
            && shown[|shown| - n + i].Plain? && ShowsLine(base, h.header.start1 + i, shown[|shown| - n + i].text)
  {
    OldsKept(skip, h.body);
    OldLineShown(skip, base, h, i);
    LastOfHunk(items, h.header, News(Kept(skip, h.body)), Olds(Kept(skip, h.body)), i);
  }

  lemma {:induction false} DeletesAnything(items: seq<Item>, h: Header, news: seq<Line>, olds: seq<Line>)
    requires HasKind(olds, false)
    ensures HunkItems(items, Some(h), h.start2, news, olds) == WithOld(WithNew(WithHeader(items, Some(h)), h.start2, news), olds)
  {
  }

  lemma {:induction false} LastOfHunk(items: seq<Item>, h: Header, news: seq<Line>, olds: seq<Line>, i: nat)
    requires HasKind(olds, false) && i < |olds|
    ensures var shown, n := HunkItems(items, Some(h), h.start2, news, olds), |olds|;
            && |shown| > n && shown[|shown| - n - 1] == Plain("__old hunk__")
            && shown[|shown| - n + i] == Plain(Raw(olds[i]))
  {
    DeletesAnything(items, h, news, olds);
    LastSection(WithNew(WithHeader(items, Some(h)), h.start2, news), olds, i);
  }

  lemma {:induction false} LastSection(items: seq<Item>, olds: seq<Line>, i: nat)
    requires i < |olds|
    ensures var shown, n := WithOld(items, olds), |olds|;
            && |shown| > n && shown[|shown| - n - 1] == Plain("__old hunk__")
            && shown[|shown| - n + i] == Plain(Raw(olds[i]))
  {
    LastPart(OrBlank(TrimItems(items)), Plain("__old hunk__"), AsIs(olds), i);
  }

  lemma {:induction false} LastPart<T>(a: seq<T>, mark: T, b: seq<T>, i: nat)
    requires i < |b|
    ensures var all := a + [mark] + b; all[|all| - |b| - 1] == mark && all[|all| - |b| + i] == b[i]
  {
  }

  // ---------- in the whole text ----------

  ghost predicate HasText(items: seq<Item>)
    { exists k :: 0 <= k < |items| && (items[k].Num? || !IsBlank(items[k].text)) }

  /** `all` goes on from `items`, with something that is not only white space. */
  ghost predicate Beyond(items: seq<Item>, all: seq<Item>) { items <= all && HasText(all[|items|..]) }

  lemma {:induction false} BeyondMore(items: seq<Item>, all: seq<Item>, more: seq<Item>)
    requires Beyond(items, all)
    ensures Beyond(items, all + more)
  {
    var rest := all[|items|..];
    var k :| 0 <= k < |rest| && (rest[k].Num? || !IsBlank(rest[k].text));
    assert (all + more)[|items|..][k] == rest[k];
  }

  lemma {:induction false} LastBeyond(items: seq<Item>, init: seq<Item>, last: Item)
    requires last.Num? || !IsBlank(last.text)
    ensures Beyond(items, items + init + [last])
  {
    var rest := (items + init + [last])[|items|..];
    assert rest[|init|] == last;
  }

  /** Stripping the end never reaches back over text. */
  lemma {:induction false} TrimBeyond(items: seq<Item>, more: seq<Item>)
    requires HasText(more)
    ensures Beyond(items, TrimItems(items + more))
    decreases |more|
  {
    var init, last := more[..|more| - 1], more[|more| - 1];
    var all := items + more;
    assert all[..|all| - 1] == items + init && all[|all| - 1] == last;
    if last.Plain? && IsBlank(last.text) {
      TrimBeyond(items, init);
    } else {
      LastBeyond(items, init, if last.Plain? then Plain(RStrip(last.text)) else Num(last.n, last.text, true));
    }
  }

  lemma {:induction false} SectionBeyond(items: seq<Item>, shown: seq<Item>, mark: string, lines: seq<Item>)
    requires Beyond(items, shown)
    ensures Beyond(items, OrBlank(TrimItems(shown)) + [Plain(mark)] + lines)
  {
    TrimBeyond(items, shown[|items|..]);
    assert items + shown[|items|..] == shown;
    BeyondMore(items, TrimItems(shown), [Plain(mark)] + lines);
    assert TrimItems(shown) + ([Plain(mark)] + lines) == TrimItems(shown) + [Plain(mark)] + lines;
  }

  lemma {:induction false} HeaderBeyond(items: seq<Item>, h: Header)
    ensures Beyond(items, WithHeader(items, Some(h)))
  {
    var title := Plain(Raw(Head(h)));
    assert Raw(Head(h))[0] == '@';
    LastBeyond(items, [Plain("")], title);
    assert items + [Plain("")] + [title] == WithHeader(items, Some(h));
  }

  /** A hunk under a header is put out after what is there, which stays as it is. */
  lemma {:induction false} HunkBeyond(items: seq<Item>, h: Header, start2: int, news: seq<Line>, olds: seq<Line>)
    ensures Beyond(items, HunkItems(items, Some(h), start2, news, olds))
  {
    var items1 := WithHeader(items, Some(h));
    HeaderBeyond(items, h);
    SectionBeyond(items, items1, "__new hunk__", Numbered(start2, news));
    var items2 := if HasKind(news, true) || HasKind(olds, false) then WithNew(items1, start2, news) else items1;
    SectionBeyond(items, items2, "__old hunk__", AsIs(olds));
  }

  lemma {:induction false} OutcomeBeyond(items: seq<Item>, h: Header, start2: int, news: seq<Line>, olds: seq<Line>,
                                         hunks: seq<Hunk>)
    ensures var all := Outcome(items, Some(h), start2, news, olds, hunks); all == items || Beyond(items, all)
    decreases |hunks|
  {
    HunkBeyond(items, h, start2, news, olds);
    if hunks != [] {
      var done := if news != [] || olds != [] then HunkItems(items, Some(h), start2, news, olds) else items;
      var next := hunks[0];
      OutcomeBeyond(done, next.header, next.header.start2, News(next.body), Olds(next.body), hunks[1..]);
    }
  }

  /** The text up to and including a hunk stands in the whole text as it was put out, or it is the whole text, and its end
      is stripped. */
  ghost predicate InText(shown: seq<Item>, text: seq<Item>) { shown <= text || text == TrimItems(shown) }

  lemma {:induction false} PutAndLeft(shown: seq<Item>, all: seq<Item>)
    requires all == shown || Beyond(shown, all)
    ensures InText(shown, TrimItems(all))
  {
    if all != shown {
      TrimBeyond(shown, all[|shown|..]);
      assert shown + all[|shown|..] == all;
    }
  }

  /** The items with a hunk put out after them, and those with all the hunks still to come put out too. */
  function Put(items: seq<Item>, h: Hunk): seq<Item> {
    HunkItems(items, Some(h.header), h.header.start2, News(h.body), Olds(h.body))
  }

  function Onward(items: seq<Item>, h: Hunk, hunks: seq<Hunk>): seq<Item> {
    Outcome(items, Some(h.header), h.header.start2, News(h.body), Olds(h.body), hunks)
  }

  function Done(items: seq<Item>, h: Hunk): seq<Item> {
    if News(h.body) != [] || Olds(h.body) != [] then Put(items, h) else items
  }

  /** A hunk is put out if its old side has lines and it is not the last, or if its new side has lines. */
  predicate IsPut(h: Hunk, last: bool) { News(h.body) != [] || (Olds(h.body) != [] && !last) }

  lemma {:induction false} FirstInText(items: seq<Item>, h: Hunk, hunks: seq<Hunk>)
    requires IsPut(h, hunks == [])
    ensures InText(Put(items, h), TrimItems(Onward(items, h, hunks)))
  {
    if hunks != [] {
      var g, put := hunks[0], Put(items, h);
      OutcomeBeyond(put, g.header, g.header.start2, News(g.body), Olds(g.body), hunks[1..]);
    }
    PutAndLeft(Put(items, h), Onward(items, h, hunks));
  }

  /** Where hunk k of those still to come is put out, and that it stays. */
  lemma {:induction false} HunkInText(items: seq<Item>, h: Hunk, hunks: seq<Hunk>, k: nat) returns (before: seq<Item>)
    requires k <= |hunks| && IsPut(([h] + hunks)[k], k == |hunks|)
    ensures InText(Put(before, ([h] + hunks)[k]), TrimItems(Onward(items, h, hunks)))
    decreases k
  {
    if k == 0 {
      before := items;
      FirstInText(items, h, hunks);
    } else {
      assert ([h] + hunks)[k] == ([hunks[0]] + hunks[1..])[k - 1];
      before := HunkInText(Done(items, h), hunks[0], hunks[1..], k - 1);
    }
  }

  /** In the decoupled text of any patch, hunk k of those that are looked at is put out after what comes before it and stays
      as it was put out, but for white space stripped at the very end of the text; so what its sections show stands. */
  lemma {:induction false} HunkStays(file: Option<FileInfo>, patch: seq<Line>, k: nat) returns (before: seq<Item>)
    requires (file.Some? ==> !file.value.deleted) && k < |Seen(patch).1|
    requires IsPut(Seen(patch).1[k], k + 1 == |Seen(patch).1|)
    ensures InText(Put(before, Seen(patch).1[k]), DecoupledItems(file, patch))
  {
    var (pre, hunks) := Seen(patch);
    before := FromTitle(Title(file), News(pre), Olds(pre), hunks, k);
  }

  lemma {:induction false} FromTitle(title: seq<Item>, news: seq<Line>, olds: seq<Line>, hunks: seq<Hunk>, k: nat)
    returns (before: seq<Item>)
    requires k < |hunks| && IsPut(hunks[k], k + 1 == |hunks|)
    ensures InText(Put(before, hunks[k]), TrimItems(Outcome(title, None, -1, news, olds, hunks)))
  {
    var h, rest := hunks[0], hunks[1..];
    assert hunks == [h] + rest;
    before := HunkInText(AfterPreamble(title, news, olds), h, rest, k);
  }

  lemma {:induction false} TrimShortens(items: seq<Item>)
    ensures |TrimItems(items)| <= |items|
  {
    if items != [] {
      TrimShortens(items[..|items| - 1]);
    }
  }

  /** The end stripped: an item stays, or is the last and is stripped, or is white space and gone. */
  lemma {:induction false} TrimAt(items: seq<Item>, p: nat)
    requires p < |items| && items[p].Plain?
    ensures var cut := TrimItems(items);
            && (p < |cut| ==> cut[p] == items[p] || (p + 1 == |cut| && cut[p] == Plain(RStrip(items[p].text))))
            && (p >= |cut| ==> IsBlank(items[p].text))
  {
    var init := items[..|items| - 1];
    TrimShortens(init);
    if p < |init| {
      TrimAt(init, p);
    }
  }

  /** Item p of a text shows line n of the old file, without a number; white space may be stripped at the end of the text,
      so that of a line of white space there nothing is left. */
  ghost predicate ShownAt(base: seq<string>, n: int, text: seq<Item>, p: nat) {
    exists line :: ShowsLine(base, n, line) &&
                   if p < |text| then text[p] == Plain(line) || (p + 1 == |text| && text[p] == Plain(RStrip(line)))
                   else IsBlank(line)
  }

  lemma {:induction false} StaysShown(base: seq<string>, n: int, shown: seq<Item>, text: seq<Item>, p: nat)
    requires InText(shown, text) && p < |shown| && shown[p].Plain? && ShowsLine(base, n, shown[p].text)
    ensures ShownAt(base, n, text, p)
  {
    TrimAt(shown, p);
    var line := shown[p].text;
    assert ShowsLine(base, n, line) && shown[p] == Plain(line);
    if shown <= text {
      assert text[p] == shown[p];
    }
  }

  /** Lines i of a section that starts at item `at` are those of the old file from line `start` on. */
  ghost predicate Shows(base: seq<string>, start: int, shown: seq<Item>, at: nat, i: nat) {
    at + i < |shown| && shown[at + i].Plain? && ShowsLine(base, start + i, shown[at + i].text)
  }

  ghost predicate StillShows(base: seq<string>, start: int, text: seq<Item>, at: nat, i: nat) {
    ShownAt(base, start + i, text, at + i)
  }

  lemma {:induction false} KeptHas(skip: Line -> bool, body: seq<Line>, l: Line)
    requires l in body && !skip(l)
    ensures l in Kept(skip, body) && (!l.Add? ==> l in Olds(Kept(skip, body))) && (!l.Del? ==> l in News(Kept(skip, body)))
  {
    OldsOfKept(skip, body);
    NewsOfKept(skip, body);
    if l != body[0] {
      KeptHas(skip, body[1..], l);
    }
  }

  lemma {:induction false} InSides(body: seq<Line>, l: Line)
    requires l in body
    ensures (InOld(l) ==> l.text in OldSide(body)) && (InNew(l) ==> l.text in NewSide(body))
  {
    assert OldSide(body) == OldText(body[0]) + OldSide(body[1..]);
    assert NewSide(body) == NewText(body[0]) + NewSide(body[1..]);
    if l != body[0] {
      InSides(body[1..], l);
    }
  }

  /** Old-side lines that do not speak of a missing newline are looked at. */
  lemma {:induction false} OldIsClean(body: seq<Line>)
    requires NotesSkip(SaysNoNewline, body) && forall t :: t in OldSide(body) ==> !Speaks(t)
    ensures CleanOld(SaysNoNewline, body)
  {
    forall l | l in body && InOld(l) ensures !SaysNoNewline(l) {
      InSides(body, l);
      LineSpeaks(l);
    }
  }

  lemma {:induction false} MarkStays(shown: seq<Item>, text: seq<Item>, p: nat, mark: string)
    requires InText(shown, text) && p < |shown| && shown[p] == Plain(mark) && mark != "" && !IsSpace(mark[|mark| - 1])
    ensures p < |text| && text[p] == Plain(mark)
  {
    if shown <= text {
      assert text[p] == shown[p];
    } else {
      TrimAt(shown, p);
    }
  }

  /** Where a mark and a section of n lines after it stand in the stripped text. */
  lemma {:induction false} SectionStays(base: seq<string>, start: int, shown: seq<Item>, text: seq<Item>, at: nat,
                                        n: nat)
    requires InText(shown, text) && 0 < at <= |shown| && shown[at - 1] == Plain("__old hunk__")
    requires forall i :: 0 <= i < n ==> Shows(base, start, shown, at, i)
    ensures at <= |text| && text[at - 1] == Plain("__old hunk__")
    ensures forall i :: 0 <= i < n ==> StillShows(base, start, text, at, i)
  {
    MarkStays(shown, text, at - 1, "__old hunk__");
    forall i | 0 <= i < n ensures StillShows(base, start, text, at, i) {
      assert Shows(base, start, shown, at, i);
      StaysShown(base, start + i, shown, text, at + i);
    }
  }

  /** A hunk's old section, over all its lines. */
  lemma {:induction false} OldSectionEnds(skip: Line -> bool, base: seq<string>, h: Hunk, items: seq<Item>)
    returns (at: nat)
    requires CleanOld(skip, h.body) && StandsAt(OldSide(h.body), base, h.header.start1 - 1)
    requires HasKind(Olds(Kept(skip, h.body)), false)
    ensures var shown := Put(items, KeptHunk(skip, h));
            && 0 < at && at + |OldSide(h.body)| == |shown| && shown[at - 1] == Plain("__old hunk__")
            && forall i :: 0 <= i < |OldSide(h.body)| ==> Shows(base, h.header.start1, shown, at, i)
  {
    var shown := Put(items, KeptHunk(skip, h));
    OldsKept(skip, h.body);
    OldSectionShowsFile(skip, base, h, items, 0);
    at := |shown| - |OldSide(h.body)|;
    forall i | 0 <= i < |OldSide(h.body)| ensures Shows(base, h.header.start1, shown, at, i) {
      OldSectionShowsFile(skip, base, h, items, i);
    }
  }

  lemma {:induction false} DeletesAndPut(h: Hunk, last: bool)
    requires NotesSkip(SaysNoNewline, h.body) && (forall t :: t in OldSide(h.body) ==> !Speaks(t))
    requires HasKind(h.body, false) && (!last || Silently(Speaks, NewSide(h.body)))
    ensures HasKind(Olds(Kept(SaysNoNewline, h.body)), false)
    ensures IsPut(KeptHunk(SaysNoNewline, h), last)
  {
    OldIsClean(h.body);
    var l :| l in h.body && l.Del?;
    KeptHas(SaysNoNewline, h.body, l);
    if last {
      var t :| t in NewSide(h.body) && !Speaks(t);
      var n := LineOfText(h.body, t);
      LineSpeaks(n);
      KeptHas(SaysNoNewline, h.body, n);
    }
  }

  lemma {:induction false} LineOfText(body: seq<Line>, t: string) returns (l: Line)
    requires t in NewSide(body)
    ensures l in body && InNew(l) && l.text == t
  {
    assert NewSide(body) == NewText(body[0]) + NewSide(body[1..]);
    if t in NewText(body[0]) {
      l := body[0];
    } else {
      l := LineOfText(body[1..], t);
    }
  }

  lemma {:induction false} OldSectionOf(base: seq<string>, file: Option<FileInfo>, hunks: seq<Hunk>, k: nat)
    returns (at: nat)
    requires (file.Some? ==> !file.value.deleted) && forall i :: 0 <= i < |hunks| ==> HunkReadable(hunks[i])
    requires k < |hunks| && StandsAt(OldSide(hunks[k].body), base, hunks[k].header.start1 - 1)
    requires CleanOld(SaysNoNewline, hunks[k].body) && HasKind(Olds(Kept(SaysNoNewline, hunks[k].body)), false)
    requires IsPut(KeptHunk(SaysNoNewline, hunks[k]), k + 1 == |hunks|)
    ensures var text := DecoupledItems(file, Flatten(hunks));
            && 0 < at <= |text| && text[at - 1] == Plain("__old hunk__")
            && forall i :: 0 <= i < |OldSide(hunks[k].body)| ==> StillShows(base, hunks[k].header.start1, text, at, i)
  {
    var h, g := hunks[k], KeptHunk(SaysNoNewline, hunks[k]);
    SeenHunks(hunks);
    var before := HunkStays(file, Flatten(hunks), k);
    at := OldSectionEnds(SaysNoNewline, base, h, before);
    SectionStays(base, h.header.start1, Put(before, g), DecoupledItems(file, Flatten(hunks)), at, |OldSide(h.body)|);
  }

  /** In the decoupled text of a well-formed patch, a hunk that deletes anything has its old section: after the mark, from
      some place on, the lines of the old file that the hunk covers, in order and without numbers. The last hunk must have a
      new side that is looked at, as it is not put out otherwise. */
  lemma {:induction false} OldSectionInText(base: seq<string>, head: seq<string>, file: Option<FileInfo>,
                                            hunks: seq<Hunk>, k: nat)
    returns (at: nat)
    requires Takes(base, head, hunks) && k < |hunks| && (file.Some? ==> !file.value.deleted)
    requires forall i :: 0 <= i < |hunks| ==> !Speaks(hunks[i].header.section)
    requires forall t :: t in OldSide(hunks[k].body) ==> !Speaks(t)
    requires HasKind(hunks[k].body, false) && (k + 1 < |hunks| || Silently(Speaks, NewSide(hunks[k].body)))
    ensures var text := DecoupledItems(file, Flatten(hunks));
            && 0 < at <= |text| && text[at - 1] == Plain("__old hunk__")
            && forall i :: 0 <= i < |OldSide(hunks[k].body)| ==> StillShows(base, hunks[k].header.start1, text, at, i)
  {
    forall i | 0 <= i < |hunks| ensures HunkReadable(hunks[i]) {
      TakenReadable(base, head, hunks, i);
    }
    TakesMember(base, head, 0, 0, hunks, k);
    OldIsClean(hunks[k].body);
    DeletesAndPut(hunks[k], k + 1 == |hunks|);
    at := OldSectionOf(base, file, hunks, k);
  }
}
