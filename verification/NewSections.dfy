/** What the new section of a decoupled hunk shows. */
module NewSections {
  import opened PyText
  import opened UnifiedDiff
  import opened DecoupleHunks
  import opened NumberedText
  import opened NumbersExact
  import opened OldSections
  import opened ShownText

  // ---------- where it stands ----------

  /** Item p shows a line with its number. */
  ghost predicate Bears(text: seq<Item>, p: nat, line: Item) {
    p < |text| && text[p].Num? && line.Num? && text[p].n == line.n && text[p].text == line.text
  }

  /** A title, a mark and numbered lines one after the other; `at` is where the lines start. */
  ghost predicate Section(text: seq<Item>, title: string, mark: string, lines: seq<Item>, at: nat) {
    && 2 <= at && at + |lines| <= |text|
    && text[at - 2] == Plain(title) && text[at - 1] == Plain(mark)
    && forall i :: 0 <= i < |lines| ==> Bears(text, at + i, lines[i])
  }

  predicate AllNumbered(lines: seq<Item>) { forall i :: 0 <= i < |lines| ==> lines[i].Num? }

  lemma {:induction false} SectionAt(some: seq<Item>, title: string, mark: string, lines: seq<Item>)
    requires |some| >= 1 && some[|some| - 1] == Plain(title) && AllNumbered(lines)
    ensures Section(some + [Plain(mark)] + lines, title, mark, lines, |some| + 1)
  {
    var all, at := some + [Plain(mark)] + lines, |some| + 1;
    assert all[at - 2] == some[at - 2];
    forall i | 0 <= i < |lines| ensures Bears(all, at + i, lines[i]) {
      assert all[at + i] == lines[i];
    }
  }

  /** Stripping the end leaves numbers where they are. */
  lemma {:induction false} TrimNumber(items: seq<Item>, p: nat)
    requires p < |items| && items[p].Num?
    ensures Bears(TrimItems(items), p, items[p])
  {
    var init := items[..|items| - 1];
    TrimShortens(init);
    if p < |init| {
      TrimNumber(init, p);
    }
  }

  lemma {:induction false} NumberStays(shown: seq<Item>, text: seq<Item>, p: nat, line: Item)
    requires InText(shown, text) && Bears(shown, p, line)
    ensures Bears(text, p, line)
  {
    if shown <= text {
      assert text[p] == shown[p];
    } else {
      TrimNumber(shown, p);
    }
  }

  /** A text that is not blank at its end. */
  predicate EndsInText(s: string) { s != "" && !IsSpace(s[|s| - 1]) }

  lemma {:induction false} LinesStay(shown: seq<Item>, text: seq<Item>, lines: seq<Item>, at: nat)
    requires InText(shown, text) && at <= |text|
    requires forall i :: 0 <= i < |lines| ==> Bears(shown, at + i, lines[i])
    ensures at + |lines| <= |text| && forall i :: 0 <= i < |lines| ==> Bears(text, at + i, lines[i])
  {
    forall i | 0 <= i < |lines| ensures Bears(text, at + i, lines[i]) {
      NumberStays(shown, text, at + i, lines[i]);
    }
    if lines != [] {
      var k := |lines| - 1;
      assert Bears(text, at + k, lines[k]);
    }
  }

  /** A section stays where it is in the stripped text. */
  lemma {:induction false} SectionStays(shown: seq<Item>, text: seq<Item>, title: string, mark: string, lines: seq<Item>,
                                        at: nat)
    requires InText(shown, text) && Section(shown, title, mark, lines, at) && EndsInText(title) && EndsInText(mark)
    ensures Section(text, title, mark, lines, at)
  {
    MarkStays(shown, text, at - 2, title);
    MarkStays(shown, text, at - 1, mark);
    LinesStay(shown, text, lines, at);
  }

  lemma {:induction false} SectionInMore(text: seq<Item>, more: seq<Item>, title: string, mark: string,
                                         lines: seq<Item>, at: nat)
    requires Section(text, title, mark, lines, at)
    ensures Section(text + more, title, mark, lines, at)
  {
    forall i | 0 <= i < |lines| ensures Bears(text + more, at + i, lines[i]) {
      assert Bears(text, at + i, lines[i]);
    }
  }

  // ---------- the section of a hunk ----------

  /** The text of a header as it is put out, its end stripped. */
  function HeadText(h: Header): string { RStrip(Raw(Head(h))) }

  lemma {:induction false} HeadEnds(h: Header)
    ensures EndsInText(HeadText(h)) && !IsBlank(Raw(Head(h)))
  {
    assert Raw(Head(h))[0] == '@';
  }

  /** Header text, mark, and numbered new side. */
  ghost predicate NewSection(text: seq<Item>, h: Header, news: seq<Line>, at: nat) {
    Section(text, HeadText(h), "__new hunk__", Numbered(h.start2, news), at)
  }

  lemma {:induction false} TitleTrimmed(items: seq<Item>, title: string)
    requires !IsBlank(title)
    ensures OrBlank(TrimItems(items + [Plain(""), Plain(title)])) == items + [Plain(""), Plain(RStrip(title))]
  {
    var all := items + [Plain(""), Plain(title)];
    assert all[..|all| - 1] == items + [Plain("")] && all[|all| - 1] == Plain(title);
  }

  lemma {:induction false} NewPut(items: seq<Item>, h: Header, news: seq<Line>)
    ensures NewSection(WithNew(WithHeader(items, Some(h)), h.start2, news), h, news, |items| + 3)
  {
    var some := items + [Plain(""), Plain(HeadText(h))];
    HeadEnds(h);
    TitleTrimmed(items, Raw(Head(h)));
    SectionAt(some, HeadText(h), "__new hunk__", Numbered(h.start2, news));
  }

  lemma {:induction false} OldAfterNew(items: seq<Item>, h: Header, news: seq<Line>, olds: seq<Line>, at: nat)
    requires NewSection(items, h, news, at)
    ensures NewSection(WithOld(items, olds), h, news, at)
  {
    var cut, lines := TrimItems(items), Numbered(h.start2, news);
    HeadEnds(h);
    SectionStays(items, cut, HeadText(h), "__new hunk__", lines, at);
    SectionInMore(cut, [Plain("__old hunk__")] + AsIs(olds), HeadText(h), "__new hunk__", lines, at);
    Assoc(cut, [Plain("__old hunk__")], AsIs(olds));
  }

  /** A hunk that changes anything is put out with its header text, the mark, and its numbered lines. */
  lemma {:induction false} NewSectionPut(items: seq<Item>, h: Hunk)
    requires Changes(h)
    ensures NewSection(Put(items, h), h.header, News(h.body), |items| + 3)
  {
    NewPut(items, h.header, News(h.body));
    OldAfterNew(WithNew(WithHeader(items, Some(h.header)), h.header.start2, News(h.body)), h.header, News(h.body),
                Olds(h.body), |items| + 3);
  }

  /** In the decoupled text of any patch a hunk that is put out and changes anything has its new section: its header text,
      the mark, and its new side with the numbers from its start on. */
  lemma {:induction false} HunkHasNewSection(file: Option<FileInfo>, patch: seq<Line>, k: nat) returns (at: nat)
    requires (file.Some? ==> !file.value.deleted) && k < |Seen(patch).1|
    requires IsPut(Seen(patch).1[k], k + 1 == |Seen(patch).1|) && Changes(Seen(patch).1[k])
    ensures NewSection(DecoupledItems(file, patch), Seen(patch).1[k].header, News(Seen(patch).1[k].body), at)
  {
    var h := Seen(patch).1[k];
    var before := HunkStays(file, patch, k);
    at := |before| + 3;
    NewSectionPut(before, h);
    HeadEnds(h.header);
    SectionStays(Put(before, h), DecoupledItems(file, patch), HeadText(h.header), "__new hunk__",
                 Numbered(h.header.start2, News(h.body)), at);
  }

  // ---------- as text ----------

  lemma {:induction false} NewIsClean(body: seq<Line>)
    requires NotesSkip(SaysNoNewline, body) && forall t :: t in NewSide(body) ==> !Speaks(t)
    ensures Clean(SaysNoNewline, body)
  {
    forall l | l in body && InNew(l) ensures !SaysNoNewline(l) {
      InSides(body, l);
      LineSpeaks(l);
    }
  }

  /** The hunk adds or deletes a line that is looked at. */
  ghost predicate ChangesSomething(h: Hunk) { exists l :: l in h.body && (l.Add? || l.Del?) && !SaysNoNewline(l) }

  lemma {:induction false} KeptChanges(h: Hunk)
    requires ChangesSomething(h)
    ensures Changes(KeptHunk(SaysNoNewline, h))
  {
    var l :| l in h.body && (l.Add? || l.Del?) && !SaysNoNewline(l);
    KeptHas(SaysNoNewline, h.body, l);
  }

  /** Line i of a section that starts at `at`, as text. */
  ghost predicate ReadsAt(head: seq<string>, start2: int, text: seq<string>, at: nat, i: nat) {
    at + i < |text| && ReadsLine(head, start2 + i, text[at + i])
  }

  /** A new section, as text. */
  ghost predicate SectionReads(head: seq<string>, h: Header, n: nat, text: seq<string>, at: nat) {
    && 2 <= at && at + n <= |text|
    && text[at - 2] == HeadText(h) && text[at - 1] == "__new hunk__"
    && forall i :: 0 <= i < n ==> ReadsAt(head, h.start2, text, at, i)
  }

  /** Each of the lines names its line of the file, from `start2` on. */
  ghost predicate LineIndexes(head: seq<string>, start2: int, lines: seq<Item>, i: nat) {
    i < |lines| && lines[i].Num? && lines[i].n == start2 + i && IndexesFile(head, lines[i].n, lines[i].text)
  }

  lemma {:induction false} LineShown(head: seq<string>, start2: int, lines: seq<Item>, items: seq<Item>, at: nat, i: nat)
    requires LineIndexes(head, start2, lines, i) && Bears(items, at + i, lines[i])
    ensures ReadsAt(head, start2, ShowAll(items), at, i)
  {
    IndexedRead(head, items[at + i]);
  }

  lemma {:induction false} SectionShown(head: seq<string>, start2: int, title: string, mark: string, lines: seq<Item>,
                                        items: seq<Item>, at: nat)
    requires Section(items, title, mark, lines, at)
    requires forall i :: 0 <= i < |lines| ==> LineIndexes(head, start2, lines, i)
    ensures ShowAll(items)[at - 2] == title && ShowAll(items)[at - 1] == mark
    ensures forall i :: 0 <= i < |lines| ==> ReadsAt(head, start2, ShowAll(items), at, i)
  {
    forall i | 0 <= i < |lines| ensures ReadsAt(head, start2, ShowAll(items), at, i) {
      LineShown(head, start2, lines, items, at, i);
    }
  }

  lemma {:induction false} NumberedIndexes(head: seq<string>, start2: int, news: seq<Line>, i: nat)
    requires i < |news| && IndexesFile(head, start2 + i, Raw(news[i]))
    ensures LineIndexes(head, start2, Numbered(start2, news), i)
  {
  }

  ghost predicate NewsIndex(head: seq<string>, start2: int, news: seq<Line>, i: nat) {
    i < |news| && IndexesFile(head, start2 + i, Raw(news[i]))
  }

  lemma {:induction false} AllNumberedIndex(head: seq<string>, start2: int, news: seq<Line>)
    requires forall i :: 0 <= i < |news| ==> NewsIndex(head, start2, news, i)
    ensures forall i :: 0 <= i < |news| ==> LineIndexes(head, start2, Numbered(start2, news), i)
  {
    forall i | 0 <= i < |news| ensures LineIndexes(head, start2, Numbered(start2, news), i) {
      assert NewsIndex(head, start2, news, i);
      NumberedIndexes(head, start2, news, i);
    }
  }

  lemma {:induction false} NewSideIndexes(head: seq<string>, h: Hunk)
    requires Clean(SaysNoNewline, h.body) && StandsAt(NewSide(h.body), head, h.header.start2 - 1)
    ensures var lines := Numbered(h.header.start2, News(Kept(SaysNoNewline, h.body)));
            |lines| == |NewSide(h.body)| && forall i :: 0 <= i < |lines| ==> LineIndexes(head, h.header.start2, lines, i)
  {
    var news := News(Kept(SaysNoNewline, h.body));
    NewsKept(SaysNoNewline, h.body);
    forall i | 0 <= i < |news| ensures NewsIndex(head, h.header.start2, news, i) {
      LineIndexesFile(SaysNoNewline, head, h, i);
    }
    AllNumberedIndex(head, h.header.start2, news);
  }

  lemma {:induction false} NewSectionOf(head: seq<string>, file: Option<FileInfo>, hunks: seq<Hunk>, k: nat)
    returns (at: nat)
    requires (file.Some? ==> !file.value.deleted) && forall i :: 0 <= i < |hunks| ==> HunkReadable(hunks[i])
    requires k < |hunks| && Clean(SaysNoNewline, hunks[k].body) && NewSide(hunks[k].body) != []
    requires StandsAt(NewSide(hunks[k].body), head, hunks[k].header.start2 - 1) && ChangesSomething(hunks[k])
    ensures var h := hunks[k];
            SectionReads(head, h.header, |NewSide(h.body)|, ShowAll(DecoupledItems(file, Flatten(hunks))), at)
  {
    var h := hunks[k];
    SeenHunks(hunks);
    NewSideIndexes(head, h);
    KeptChanges(h);
    at := HunkHasNewSection(file, Flatten(hunks), k);
    SectionShown(head, h.header.start2, HeadText(h.header), "__new hunk__",
                 Numbered(h.header.start2, News(Kept(SaysNoNewline, h.body))), DecoupledItems(file, Flatten(hunks)), at);
  }

  /** In the decoupled text of a well-formed patch a hunk that changes anything has its new section: the text of its header,
      the mark, and then the lines of the new file that the hunk covers, each behind its number. */
  lemma {:induction false} NewSectionInText(base: seq<string>, head: seq<string>, file: Option<FileInfo>,
                                            hunks: seq<Hunk>, k: nat)
    returns (at: nat)
    requires Takes(base, head, hunks) && k < |hunks| && (file.Some? ==> !file.value.deleted)
    requires forall i :: 0 <= i < |hunks| ==> !Speaks(hunks[i].header.section)
    requires (forall t :: t in NewSide(hunks[k].body) ==> !Speaks(t)) && ChangesSomething(hunks[k])
    ensures var h := hunks[k];
            SectionReads(head, h.header, |NewSide(h.body)|, ShowAll(DecoupledItems(file, Flatten(hunks))), at)
  {
    forall i | 0 <= i < |hunks| ensures HunkReadable(hunks[i]) {
      TakenReadable(base, head, hunks, i);
    }
    TakesMember(base, head, 0, 0, hunks, k);
    NewIsClean(hunks[k].body);
    at := NewSectionOf(head, file, hunks, k);
  }

  // ---------- the ends of the text ----------

  /** A text that stripping leaves as it is. */
  ghost predicate Settled(items: seq<Item>) { items != [] && TrimItems(items) == items }

  lemma {:induction false} PreambleBeyond(title: seq<Item>, news: seq<Line>, olds: seq<Line>)
    requires Settled(title)
    ensures var done := AfterPreamble(title, news, olds); done == title || Beyond(title, done)
  {
    var numbered := Numbered(-1, news);
    assert !IsSpace("__new hunk__"[0]);
    LastBeyond(title, [], Plain("__new hunk__"));
    assert title + [] + [Plain("__new hunk__")] == title + [Plain("__new hunk__")];
    BeyondMore(title, title + [Plain("__new hunk__")], numbered);
    SectionBeyond(title, WithNew(title, -1, news), "__old hunk__", AsIs(olds));
  }

  lemma {:induction false} BeyondBeyond(a: seq<Item>, b: seq<Item>, c: seq<Item>)
    requires a == b || Beyond(a, b)
    requires b == c || Beyond(b, c)
    ensures a == c || Beyond(a, c)
  {
    if a != b && b != c {
      BeyondMore(a, b, c[|b|..]);
      assert b + c[|b|..] == c;
    }
  }

  /** What the text starts with stays. */
  lemma {:induction false} StartStays(title: seq<Item>, news: seq<Line>, olds: seq<Line>, hunks: seq<Hunk>)
    requires Settled(title)
    ensures title <= TrimItems(Outcome(title, None, -1, news, olds, hunks))
  {
    if hunks != [] {
      var h, done := hunks[0], AfterPreamble(title, news, olds);
      var all := Outcome(done, Some(h.header), h.header.start2, News(h.body), Olds(h.body), hunks[1..]);
      PreambleBeyond(title, news, olds);
      OutcomeBeyond(done, h.header, h.header.start2, News(h.body), Olds(h.body), hunks[1..]);
      BeyondBeyond(title, done, all);
      if all != title {
        TrimBeyond(title, all[|title|..]);
        assert title + all[|title|..] == all;
      }
    }
  }

  lemma {:induction false} ClosedTitle(name: string)
    ensures !IsBlank("## File: '" + name + "'") && RStrip("## File: '" + name + "'") == "## File: '" + name + "'"
  {
    var title := "## File: '" + name + "'";
    assert !IsSpace(title[0]) && !IsSpace(title[|title| - 1]);
  }

  lemma {:induction false} TitleSettled(text: string)
    requires !IsBlank(text) && RStrip(text) == text
    ensures Settled([Plain(""), Plain(""), Plain(text)])
  {
    var items := [Plain(""), Plain(""), Plain(text)];
    assert items[..2] + [items[2]] == items;
  }

  /** The text names its file, stripped of white space around the name; of a deleted file it says that and no more. */
  lemma {:induction false} NamesFile(file: Option<FileInfo>, patch: seq<Line>)
    requires file.Some?
    ensures var text, name := ShowAll(DecoupledItems(file, patch)), Strip(file.value.name);
            if file.value.deleted then text == ["", "", "## File '" + name + "' was deleted"]
            else ["", "", "## File: '" + name + "'"] <= text
  {
    if !file.value.deleted {
      var (pre, hunks) := Seen(patch);
      ClosedTitle(Strip(file.value.name));
      TitleSettled("## File: '" + Strip(file.value.name) + "'");
      StartStays(Title(file), News(pre), Olds(pre), hunks);
    }
  }

  lemma {:induction false} OnwardLast(items: seq<Item>, first: Hunk, hunks: seq<Hunk>, h: Hunk)
    requires News(h.body) == [] && News(([first] + hunks)[|hunks|].body) != []
    ensures Onward(items, first, hunks + [h]) == Onward(items, first, hunks)
    decreases |hunks|
  {
    var more := hunks + [h];
    assert hunks == [] ==> ([first] + hunks)[0] == first;
    if hunks == [] {
      assert more == [h] && more[1..] == [];
      assert Onward(items, first, more) == Onward(Put(items, first), h, []);
    } else {
      assert more[0] == hunks[0] && more[1..] == hunks[1..] + [h];
      assert ([hunks[0]] + hunks[1..])[|hunks| - 1] == ([first] + hunks)[|hunks|];
      OnwardLast(Done(items, first), hunks[0], hunks[1..], h);
    }
  }

  lemma {:induction false} OutcomeLast(title: seq<Item>, hunks: seq<Hunk>, h: Hunk)
    requires News(h.body) == [] && (hunks != [] ==> News(hunks[|hunks| - 1].body) != [])
    ensures Outcome(title, None, -1, [], [], hunks + [h]) == Outcome(title, None, -1, [], [], hunks)
  {
    var more := hunks + [h];
    if hunks == [] {
      assert more == [h] && more[1..] == [];
    } else {
      assert more[0] == hunks[0] && more[1..] == hunks[1..] + [h] && [hunks[0]] + hunks[1..] == hunks;
      OnwardLast(title, hunks[0], hunks[1..], h);
    }
  }

  lemma {:induction false} KeptSnoc(skip: Line -> bool, hunks: seq<Hunk>, h: Hunk)
    ensures KeptHunks(skip, hunks + [h]) == KeptHunks(skip, hunks) + [KeptHunk(skip, h)]
  {
  }

  /** The text of hunks that are written out plainly. */
  lemma {:induction false} TextOfHunks(file: Option<FileInfo>, hunks: seq<Hunk>)
    requires (file.Some? ==> !file.value.deleted) && forall k :: 0 <= k < |hunks| ==> HunkReadable(hunks[k])
    ensures DecoupledItems(file, Flatten(hunks)) ==
            TrimItems(Outcome(Title(file), None, -1, [], [], KeptHunks(SaysNoNewline, hunks)))
  {
    SeenHunks(hunks);
  }

  lemma {:induction false} AllReadableSnoc(hunks: seq<Hunk>, h: Hunk)
    requires (forall k :: 0 <= k < |hunks| ==> HunkReadable(hunks[k])) && HunkReadable(h)
    ensures forall k :: 0 <= k < |hunks + [h]| ==> HunkReadable((hunks + [h])[k])
  {
  }

  /** A last hunk without a new side that is looked at is not put out: the text is that of the patch without it, if the hunk
      before it has a new side. */
  lemma {:induction false} LastNotPut(file: Option<FileInfo>, hunks: seq<Hunk>, h: Hunk)
    requires file.Some? ==> !file.value.deleted
    requires (forall k :: 0 <= k < |hunks| ==> HunkReadable(hunks[k])) && HunkReadable(h)
    requires News(Kept(SaysNoNewline, h.body)) == []
    requires hunks != [] ==> News(Kept(SaysNoNewline, hunks[|hunks| - 1].body)) != []
    ensures DecoupledItems(file, Flatten(hunks + [h])) == DecoupledItems(file, Flatten(hunks))
  {
    AllReadableSnoc(hunks, h);
    TextOfHunks(file, hunks);
    TextOfHunks(file, hunks + [h]);
    KeptSnoc(SaysNoNewline, hunks, h);
    OutcomeLast(Title(file), KeptHunks(SaysNoNewline, hunks), KeptHunk(SaysNoNewline, h));
  }
}
