/** Showing a patch as numbered new lines and old lines (`decouple_and_convert_to_hunks_with_lines_numbers`).
    A text is kept as the list of its lines. */
module DecoupleHunks {
  import opened PyText
  import opened UnifiedDiff

  const NO_NEWLINE := "no newline at end of file"

  /** The test by which lines are passed over: it is made on the text of the line, whatever its kind. */
  predicate SaysNoNewline(l: Line) { Contains(NO_NEWLINE, Lower(Raw(l))) }

  datatype FileInfo = FileInfo(name: string, deleted: bool)

  /** A line put out: as it is, or with a number; `cut` where white space at its end has been stripped. */
  datatype Item = Plain(text: string) | Num(n: int, text: string, cut: bool)

  function Show(item: Item): string {
    match item
    case Plain(text) => text
    case Num(n, text, cut) => if cut then RStrip(Dec(n) + " " + text) else Dec(n) + " " + text
  }

  function ShowAll(items: seq<Item>): (r: seq<string>)
    ensures |r| == |items|
  {
    seq(|items|, i requires 0 <= i < |items| => Show(items[i]))
  }

  /** `Trim` on items. */
  function TrimItems(items: seq<Item>): seq<Item> {
    if items == [] then []
    else
      var init, last := items[..|items| - 1], items[|items| - 1];
      match last
      case Plain(text) => if IsBlank(text) then TrimItems(init) else init + [Plain(RStrip(text))]
      case Num(n, text, _) => init + [Num(n, text, true)]
  }

  function OrBlank(items: seq<Item>): seq<Item> { if items == [] then [Plain("")] else items }

  predicate HasKind(lines: seq<Line>, added: bool) { exists l :: l in lines && (if added then l.Add? else l.Del?) }

  /** The lines of the new side, and of the old side. */
  function News(lines: seq<Line>): seq<Line> {
    if lines == [] then [] else (if lines[0].Del? then [] else [lines[0]]) + News(lines[1..])
  }

  function Olds(lines: seq<Line>): seq<Line> {
    if lines == [] then [] else (if lines[0].Add? then [] else [lines[0]]) + Olds(lines[1..])
  }

  function Numbered(start2: int, news: seq<Line>): (r: seq<Item>)
    ensures |r| == |news|
  {
    seq(|news|, i requires 0 <= i < |news| => Num(start2 + i, Raw(news[i]), false))
  }

  function AsIs(lines: seq<Line>): (r: seq<Item>)
    ensures |r| == |lines|
  {
    seq(|lines|, i requires 0 <= i < |lines| => Plain(Raw(lines[i])))
  }

  function WithHeader(items: seq<Item>, header: Option<Header>): seq<Item> {
    if header.Some? then items + [Plain(""), Plain(Raw(Head(header.value)))] else items
  }

  function WithNew(items: seq<Item>, start2: int, news: seq<Line>): seq<Item> {
    OrBlank(TrimItems(items)) + [Plain("__new hunk__")] + Numbered(start2, news)
  }

  function WithOld(items: seq<Item>, olds: seq<Line>): seq<Item> {
    OrBlank(TrimItems(items)) + [Plain("__old hunk__")] + AsIs(olds)
  }

  /** The items with one hunk put out after them. */
  function HunkItems(items: seq<Item>, header: Option<Header>, start2: int, news: seq<Line>, olds: seq<Line>)
    : seq<Item> {
    var plus, minus := HasKind(news, true), HasKind(olds, false);
    var items1 := WithHeader(items, header);
    var items2 := if plus || minus then WithNew(items1, start2, news) else items1;
    if minus then WithOld(items2, olds) else items2
  }

  /** What is put out in the end, when `news` and `olds` are collected under `header` and `hunks` are still to come. The
      last hunk is put out only if its new side has lines. */
  function Outcome(items: seq<Item>, header: Option<Header>, start2: int, news: seq<Line>, olds: seq<Line>,
                   hunks: seq<Hunk>): seq<Item>
    decreases |hunks|
  {
    if hunks == [] then
      if header.Some? && news != [] then HunkItems(items, header, start2, news, olds) else items
    else
      var done := if news != [] || olds != [] then HunkItems(items, header, start2, news, olds) else items;
      var h := hunks[0];
      Outcome(done, Some(h.header), h.header.start2, News(h.body), Olds(h.body), hunks[1..])
  }

  /** The lines that are looked at: not those to `skip`, nor empty lines (but the very first) in front of a header or
      at the end. */
  function Visible(skip: Line -> bool, lines: seq<Line>, first: bool): seq<Line> {
    if lines == [] then []
    else if skip(lines[0]) then Visible(skip, lines[1..], false)
    else if lines[0].Blank? && !first && (|lines| == 1 || lines[1].Head?) then Visible(skip, lines[1..], false)
    else [lines[0]] + Visible(skip, lines[1..], false)
  }

  /** The lines from line i on that are not to be skipped and are not empty, unless the line is the very first or has a line
      after it that is no header. */
  function LookedAt(skip: Line -> bool, lines: seq<Line>, i: nat): seq<Line>
    requires i <= |lines|
    decreases |lines| - i
  {
    if i == |lines| then []
    else
      var empty := lines[i].Blank? && i > 0 && (i + 1 == |lines| || lines[i + 1].Head?);
      (if skip(lines[i]) || empty then [] else [lines[i]]) + LookedAt(skip, lines, i + 1)
  }

  lemma {:induction false} VisibleExactly(skip: Line -> bool, lines: seq<Line>, i: nat)
    requires i <= |lines|
    ensures Visible(skip, lines[i..], i == 0) == LookedAt(skip, lines, i)
    decreases |lines| - i
  {
    if i < |lines| {
      var rest := lines[i..];
      VisibleExactly(skip, lines, i + 1);
      assert rest[0] == lines[i] && rest[1..] == lines[i + 1..] && (|rest| > 1 ==> rest[1] == lines[i + 1]);
    }
  }

  /** The lines before the first header, and the hunks, as they are looked at. */
  function Seen(patch: seq<Line>): (seq<Line>, seq<Hunk>) { Split(Visible(SaysNoNewline, patch, true)) }

  function Title(file: Option<FileInfo>): seq<Item> {
    if file.None? then [] else [Plain(""), Plain(""), Plain("## File: '" + Strip(file.value.name) + "'")]
  }

  function DecoupledItems(file: Option<FileInfo>, patch: seq<Line>): seq<Item> {
    if file.Some? && file.value.deleted then
      [Plain(""), Plain(""), Plain("## File '" + Strip(file.value.name) + "' was deleted")]
    else
      var (pre, hunks) := Seen(patch);
      TrimItems(Outcome(Title(file), None, -1, News(pre), Olds(pre), hunks))
  }

  // ---------- the loops ----------

  lemma {:induction false} ShowNotBlank(n: int, text: string, cut: bool)
    ensures !IsBlank(Show(Num(n, text, cut)))
    ensures RStrip(Show(Num(n, text, cut))) == Show(Num(n, text, true))
  {
    var s := Dec(n) + " " + text;
    assert !IsSpace(s[0]);
  }

  lemma {:induction false} ShowLast(items: seq<Item>, last: Item)
    ensures ShowAll(items + [last]) == ShowAll(items) + [Show(last)]
  {
  }

  /** Trimming the text is trimming the items. */
  lemma {:induction false} TrimShown(items: seq<Item>)
    ensures Trim(ShowAll(items)) == ShowAll(TrimItems(items))
  {
    if items == [] {
    } else {
      var init, last := items[..|items| - 1], items[|items| - 1];
      var shown := ShowAll(items);
      assert shown[..|shown| - 1] == ShowAll(init);
      TrimShown(init);
      match last {
        case Plain(text) =>
          ShowLast(init, Plain(RStrip(text)));
        case Num(n, text, cut) =>
          ShowNotBlank(n, text, cut);
          ShowLast(init, Num(n, text, true));
      }
    }
  }

  lemma {:induction false} ShowConcat(a: seq<Item>, b: seq<Item>)
    ensures ShowAll(a + b) == ShowAll(a) + ShowAll(b)
  {
  }

  /** Text that ends with its last line. */
  lemma {:induction false} Ended(lines: seq<string>, mark: string)
    requires lines != []
    ensures Text(lines + [mark]) == Unended(lines) + "\n" + mark + "\n"
  {
    assert (lines + [mark])[..|lines|] == lines;
  }

  /** A mark after what is there: the text is stripped, and the mark stands on the line after it. */
  lemma {:induction false} MarkExactly(items: seq<Item>, mark: string)
    ensures Text(ShowAll(OrBlank(TrimItems(items)) + [Plain(mark)])) == RStrip(Text(ShowAll(items))) + "\n" + mark + "\n"
  {
    TrimShown(items);
    TrimExactly(ShowAll(items));
    ShowLast(OrBlank(TrimItems(items)), Plain(mark));
    Ended(ShowAll(OrBlank(TrimItems(items))), mark);
  }

  /** `text.rstrip() + "\n" + mark + "\n"` */
  method Mark(out: seq<string>, mark: string, ghost items: seq<Item>) returns (r: seq<string>)
    requires out == ShowAll(items)
    ensures r == ShowAll(OrBlank(TrimItems(items)) + [Plain(mark)])
  {
    TrimShown(items);
    r := Trim(out);
    if r == [] {
      r := [""];
    }
    assert r == ShowAll(OrBlank(TrimItems(items)));
    r := r + [mark];
  }

  lemma {:induction false} NumberedAt(start2: int, news: seq<Line>, i: nat)
    requires i < |news|
    ensures Show(Numbered(start2, news)[i]) == Dec(start2 + i) + " " + Raw(news[i])
  {
  }

  lemma {:induction false} ShowSnoc(all: seq<Item>, i: nat)
    requires i < |all|
    ensures ShowAll(all[..i + 1]) == ShowAll(all[..i]) + [Show(all[i])]
  {
  }

  method NumberLines(out: seq<string>, start2: int, news: seq<Line>, ghost items: seq<Item>) returns (r: seq<string>)
    requires out == ShowAll(items)
    ensures r == ShowAll(items + Numbered(start2, news))
  {
    r := out;
    ghost var all := Numbered(start2, news);
    for i := 0 to |news|
      invariant r == out + ShowAll(all[..i])
    {
      ShowSnoc(all, i);
      NumberedAt(start2, news, i);
      r := r + [Dec(start2 + i) + " " + Raw(news[i])];
    }
    assert all[..|news|] == all;
    ShowConcat(items, all);
  }

  method PutLines(out: seq<string>, olds: seq<Line>, ghost items: seq<Item>) returns (r: seq<string>)
    requires out == ShowAll(items)
    ensures r == ShowAll(items + AsIs(olds))
  {
    r := out;
    ghost var all := AsIs(olds);
    for i := 0 to |olds|
      invariant r == out + ShowAll(all[..i])
    {
      ShowSnoc(all, i);
      r := r + [Raw(olds[i])];
    }
    assert all[..|olds|] == all;
    ShowConcat(items, all);
  }

  /** Puts out the lines collected for one hunk. */
  method PutHunk(out: seq<string>, header: Option<Header>, start2: int, news: seq<Line>, olds: seq<Line>,
                 ghost items: seq<Item>) returns (r: seq<string>)
    requires out == ShowAll(items)
    ensures r == ShowAll(HunkItems(items, header, start2, news, olds))
  {
    r := out;
    ghost var items1 := WithHeader(items, header);
    if header.Some? {
      r := r + ["", Raw(Head(header.value))];
    }
    var isPlusLines, isMinusLines := false, false;
    if news != [] {
      isPlusLines := exists l :: l in news && l.Add?;
    }
    if olds != [] {
      isMinusLines := exists l :: l in olds && l.Del?;
    }
    if isPlusLines || isMinusLines {
      r := Mark(r, "__new hunk__", items1);
      ghost var marked := OrBlank(TrimItems(items1)) + [Plain("__new hunk__")];
      r := NumberLines(r, start2, news, marked);
      items1 := marked + Numbered(start2, news);
    }
    if isMinusLines {
      r := Mark(r, "__old hunk__", items1);
      r := PutLines(r, olds, OrBlank(TrimItems(items1)) + [Plain("__old hunk__")]);
    }
  }

  /** Goes over the lines of a patch, but those to `skip`, and puts out its hunks after what is there already. */
  method PutHunks(skip: Line -> bool, start: seq<string>, patch: seq<Line>, ghost items0: seq<Item>)
    returns (out: seq<string>)
    requires start == ShowAll(items0)
    ensures out == ShowAll(Pending(skip, items0, None, -1, [], [], patch, true))
  {
    out := start;
    ghost var items := items0;
    var newContent: seq<Line>, oldContent: seq<Line> := [], [];
    var start2 := -1;
    var prevHeader: Option<Header>, header: Option<Header> := None, None;
    ghost var goal := Pending(skip, items, None, -1, [], [], patch, true);
    var i := 0;
    assert patch[0..] == patch;
    while i < |patch|
      invariant 0 <= i <= |patch|
      invariant out == ShowAll(items) && header == prevHeader
      invariant Pending(skip, items, header, start2, newContent, oldContent, patch[i..], i == 0) == goal
    {
      var line := patch[i];
      ghost var lines := patch[i..];
      assert lines[0] == line && lines[1..] == patch[i + 1..];
      assert |lines| > 1 ==> lines[1] == patch[i + 1];
      if skip(line) {
      } else if line.Head? {
        header := Some(line.header);
        HeadStep(skip, items, prevHeader, start2, newContent, oldContent, lines, i == 0);
        if newContent != [] || oldContent != [] {
          out := PutHunk(out, prevHeader, start2, newContent, oldContent, items);
          items := HunkItems(items, prevHeader, start2, newContent, oldContent);
        }
        newContent, oldContent := [], [];
        prevHeader := header;
        start2 := line.header.start2;
      } else if line.Blank? && i != 0 && (i + 1 == |patch| || patch[i + 1].Head?) {
      } else {
        LineStep(skip, items, header, start2, newContent, oldContent, lines, i == 0);
        if !line.Del? {
          newContent := newContent + [line];
        }
        if !line.Add? {
          oldContent := oldContent + [line];
        }
      }
      i := i + 1;
    }
    assert patch[i..] == [];
    EndStep(skip, items, header, start2, newContent, oldContent);
    if header.Some? && newContent != [] {
      out := PutHunk(out, header, start2, newContent, oldContent, items);
    }
  }

  method Decouple(file: Option<FileInfo>, patch: seq<Line>) returns (out: seq<string>)
    ensures out == ShowAll(DecoupledItems(file, patch))
  {
    if file.Some? && file.value.deleted {
      out := ["", "", "## File '" + Strip(file.value.name) + "' was deleted"];
      return;
    }
    if file.Some? {
      out := ["", "", "## File: '" + Strip(file.value.name) + "'"];
    } else {
      out := [];
    }
    out := PutHunks(SaysNoNewline, out, patch, Title(file));
    StartStep(file, patch);
    TrimShown(Pending(SaysNoNewline, Title(file), None, -1, [], [], patch, true));
    out := Trim(out);
  }

  /** What is put out in the end, when the lines from some point on are still to come. */
  ghost function Pending(skip: Line -> bool, items: seq<Item>, header: Option<Header>, start2: int, news: seq<Line>,
                         olds: seq<Line>, lines: seq<Line>, first: bool): seq<Item> {
    var (pre, hunks) := Split(Visible(skip, lines, first));
    Outcome(items, header, start2, news + News(pre), olds + Olds(pre), hunks)
  }

  lemma {:induction false} StartStep(file: Option<FileInfo>, patch: seq<Line>)
    requires file.Some? ==> !file.value.deleted
    ensures DecoupledItems(file, patch) == TrimItems(Pending(SaysNoNewline, Title(file), None, -1, [], [], patch, true))
  {
    var (pre, hunks) := Seen(patch);
    assert [] + News(pre) == News(pre) && [] + Olds(pre) == Olds(pre);
  }

  lemma {:induction false} EndStep(skip: Line -> bool, items: seq<Item>, header: Option<Header>, start2: int,
                                   news: seq<Line>, olds: seq<Line>)
    ensures Pending(skip, items, header, start2, news, olds, [], true) == Pending(skip, items, header, start2, news, olds, [], false)
            == if header.Some? && news != [] then HunkItems(items, header, start2, news, olds) else items
  {
    assert news + [] == news && olds + [] == olds;
  }

  lemma {:induction false} HeadStep(skip: Line -> bool, items: seq<Item>, header: Option<Header>, start2: int,
                                    news: seq<Line>, olds: seq<Line>, lines: seq<Line>, first: bool)
    requires lines != [] && lines[0].Head? && !skip(lines[0])
    ensures var done := if news != [] || olds != [] then HunkItems(items, header, start2, news, olds) else items;
            Pending(skip, items, header, start2, news, olds, lines, first)
            == Pending(skip, done, Some(lines[0].header), lines[0].header.start2, [], [], lines[1..], false)
  {
    var seen := Visible(skip, lines, first);
    var (pre, hunks) := Split(Visible(skip, lines[1..], false));
    assert seen[0] == lines[0] && seen[1..] == Visible(skip, lines[1..], false);
    var all := [Hunk(lines[0].header, pre)] + hunks;
    assert Split(seen) == ([], all) && all[1..] == hunks;
    assert news + [] == news && olds + [] == olds;
    assert [] + News(pre) == News(pre) && [] + Olds(pre) == Olds(pre);
  }

  lemma {:induction false} LineStep(skip: Line -> bool, items: seq<Item>, header: Option<Header>, start2: int,
                                    news: seq<Line>, olds: seq<Line>, lines: seq<Line>, first: bool)
    requires lines != [] && !lines[0].Head? && !skip(lines[0])
    requires !(lines[0].Blank? && !first && (|lines| == 1 || lines[1].Head?))
    ensures var l := lines[0];
            Pending(skip, items, header, start2, news, olds, lines, first)
            == Pending(skip, items, header, start2, if l.Del? then news else news + [l], if l.Add? then olds else olds + [l],
                       lines[1..], false)
  {
    var l, seen := lines[0], Visible(skip, lines, first);
    var (pre, hunks) := Split(Visible(skip, lines[1..], false));
    assert seen[0] == l && seen[1..] == Visible(skip, lines[1..], false);
    var all := [l] + pre;
    assert Split(seen) == (all, hunks) && all[1..] == pre;
    SideStep(l, news, all, pre, olds);
  }

  lemma {:induction false} SideStep(l: Line, news: seq<Line>, all: seq<Line>, pre: seq<Line>, olds: seq<Line>)
    requires all == [l] + pre
    ensures news + News(all) == (if l.Del? then news else news + [l]) + News(pre)
    ensures olds + Olds(all) == (if l.Add? then olds else olds + [l]) + Olds(pre)
  {
    assert all[0] == l && all[1..] == pre;
  }
}
