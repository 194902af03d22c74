/** The numbers shown beside the lines of a decoupled patch: which lines they stand by, and that they index the new file. */
module NumberedText {
  import opened PyText
  import opened UnifiedDiff
  import opened GrownHunks
  import opened ExtendPatch
  import opened ExtendMeaning
  import opened ExtendHeaders
  import opened DecoupleHunks

  // ---------- which numbers are shown ----------

  /** The numbered lines among the items, in order. */
  function NumsOf(items: seq<Item>): seq<(int, string)> {
    if items == [] then []
    else NumsOf(items[..|items| - 1])
         + (var last := items[|items| - 1]; if last.Num? then [(last.n, last.text)] else [])
  }

  /** Lines with consecutive numbers from `start` on. */
  function Consecutive(start: int, lines: seq<Line>): (r: seq<(int, string)>)
    ensures |r| == |lines|
  {
    seq(|lines|, i requires 0 <= i < |lines| => (start + i, Raw(lines[i])))
  }

  /** A hunk is shown with numbers if it adds or deletes anything. */
  predicate Changes(h: Hunk) { HasKind(News(h.body), true) || HasKind(Olds(h.body), false) }

  function Expected(hunks: seq<Hunk>): seq<(int, string)> {
    if hunks == [] then []
    else (if Changes(hunks[0]) then Consecutive(hunks[0].header.start2, News(hunks[0].body)) else [])
         + Expected(hunks[1..])
  }

  lemma {:induction false} NumsConcat(a: seq<Item>, b: seq<Item>)
    ensures NumsOf(a + b) == NumsOf(a) + NumsOf(b)
  {
    if b == [] {
      assert a + b == a;
    } else {
      var ab, init := a + b, b[..|b| - 1];
      assert ab[..|ab| - 1] == a + init && ab[|ab| - 1] == b[|b| - 1];
      NumsConcat(a, init);
      var last := b[|b| - 1];
      Assoc(NumsOf(a), NumsOf(init), if last.Num? then [(last.n, last.text)] else []);
    }
  }

  lemma {:induction false} NumsTrim(items: seq<Item>)
    ensures NumsOf(TrimItems(items)) == NumsOf(items)
  {
    if items != [] {
      var init, last := items[..|items| - 1], items[|items| - 1];
      NumsTrim(init);
      match last {
        case Plain(text) => NumsConcat(init, [Plain(RStrip(text))]);
        case Num(n, text, _) => NumsConcat(init, [Num(n, text, true)]);
      }
    }
  }

  lemma {:induction false} NumsNumbered(start2: int, news: seq<Line>)
    ensures NumsOf(Numbered(start2, news)) == Consecutive(start2, news)
  {
    if news != [] {
      var items, k := Numbered(start2, news), |news| - 1;
      assert items[..k] == Numbered(start2, news[..k]);
      NumsNumbered(start2, news[..k]);
      assert Consecutive(start2, news) == Consecutive(start2, news[..k]) + [(start2 + k, Raw(news[k]))];
    }
  }

  lemma {:induction false} NumsPlain(items: seq<Item>)
    requires forall i :: 0 <= i < |items| ==> items[i].Plain?
    ensures NumsOf(items) == []
  {
    if items != [] {
      NumsPlain(items[..|items| - 1]);
    }
  }

  lemma {:induction false} NumsHeader(items: seq<Item>, header: Option<Header>)
    ensures NumsOf(WithHeader(items, header)) == NumsOf(items)
  {
    if header.Some? {
      var more := [Plain(""), Plain(Raw(Head(header.value)))];
      NumsConcat(items, more);
      NumsPlain(more);
    }
  }

  lemma {:induction false} NumsMarked(items: seq<Item>, mark: string, more: seq<Item>)
    ensures NumsOf(OrBlank(TrimItems(items)) + [Plain(mark)] + more) == NumsOf(items) + NumsOf(more)
  {
    NumsTrim(items);
    NumsConcat(OrBlank(TrimItems(items)), [Plain(mark)]);
    NumsConcat(OrBlank(TrimItems(items)) + [Plain(mark)], more);
  }

  lemma {:induction false} NumsHunk(items: seq<Item>, header: Option<Header>, start2: int, news: seq<Line>,
                                    olds: seq<Line>)
    ensures NumsOf(HunkItems(items, header, start2, news, olds)) ==
            NumsOf(items) + (if HasKind(news, true) || HasKind(olds, false) then Consecutive(start2, news) else [])
  {
    var items1 := WithHeader(items, header);
    NumsHeader(items, header);
    NumsNumbered(start2, news);
    NumsMarked(items1, "__new hunk__", Numbered(start2, news));
    var items2 := if HasKind(news, true) || HasKind(olds, false) then WithNew(items1, start2, news) else items1;
    NumsMarked(items2, "__old hunk__", AsIs(olds));
    NumsPlain(AsIs(olds));
  }

  lemma {:induction false} NumsOutcome(items: seq<Item>, h: Hunk, hunks: seq<Hunk>)
    ensures NumsOf(Outcome(items, Some(h.header), h.header.start2, News(h.body), Olds(h.body), hunks)) ==
            NumsOf(items) + Expected([h] + hunks)
    decreases |hunks|
  {
    var news, olds := News(h.body), Olds(h.body);
    NumsHunk(items, Some(h.header), h.header.start2, news, olds);
    assert ([h] + hunks)[1..] == hunks;
    var own := if Changes(h) then Consecutive(h.header.start2, news) else [];
    assert news == [] && olds == [] ==> own == [];
    if hunks == [] {
      assert news == [] ==> own == [];
      assert own + [] == own;
    } else {
      var done := if news != [] || olds != [] then HunkItems(items, Some(h.header), h.header.start2, news, olds) else items;
      assert NumsOf(done) == NumsOf(items) + own;
      NumsOutcome(done, hunks[0], hunks[1..]);
      assert [hunks[0]] + hunks[1..] == hunks;
      Assoc(NumsOf(items), own, Expected(hunks));
    }
  }

  /** The numbers of lines before the first header, where they add or delete anything and a header follows. */
  function PreambleNumbers(pre: seq<Line>, hunks: seq<Hunk>): seq<(int, string)> {
    if hunks != [] && (HasKind(News(pre), true) || HasKind(Olds(pre), false)) then Consecutive(-1, News(pre)) else []
  }

  /** Numbers are shown by exactly the new-side lines of the hunks that change something, in order, consecutive in each
      hunk from the start its header gives; and by lines before the first header, from -1, if those change something. */
  lemma {:induction false} NumbersShown(file: Option<FileInfo>, patch: seq<Line>)
    ensures NumsOf(DecoupledItems(file, patch)) ==
            if file.Some? && file.value.deleted then []
            else PreambleNumbers(Seen(patch).0, Seen(patch).1) + Expected(Seen(patch).1)
  {
    var (pre, hunks) := Seen(patch);
    var title := Title(file);
    if file.Some? && file.value.deleted {
      NumsPlain(DecoupledItems(file, patch));
    } else {
      NumsPlain(title);
      NumsTrim(Outcome(title, None, -1, News(pre), Olds(pre), hunks));
      NumsFromStart(title, News(pre), Olds(pre), hunks);
    }
  }

  lemma {:induction false} NumsFromStart(title: seq<Item>, news: seq<Line>, olds: seq<Line>, hunks: seq<Hunk>)
    requires NumsOf(title) == []
    ensures NumsOf(Outcome(title, None, -1, news, olds, hunks)) ==
            (if hunks != [] && (HasKind(news, true) || HasKind(olds, false)) then Consecutive(-1, news) else [])
            + Expected(hunks)
  {
    if hunks != [] {
      var h, rest := hunks[0], hunks[1..];
      assert hunks == [h] + rest;
      NumsOfPreamble(title, news, olds);
      NumsFromHunk(title, news, olds, h, rest);
    }
  }

  lemma {:induction false} NumsFromHunk(title: seq<Item>, news: seq<Line>, olds: seq<Line>, h: Hunk, rest: seq<Hunk>)
    ensures NumsOf(Outcome(title, None, -1, news, olds, [h] + rest)) ==
            NumsOf(AfterPreamble(title, news, olds)) + Expected([h] + rest)
  {
    NumsOutcome(AfterPreamble(title, news, olds), h, rest);
  }

  lemma {:induction false} NumsOfPreamble(title: seq<Item>, news: seq<Line>, olds: seq<Line>)
    requires NumsOf(title) == []
    ensures NumsOf(AfterPreamble(title, news, olds)) ==
            if HasKind(news, true) || HasKind(olds, false) then Consecutive(-1, news) else []
  {
    NumsHunk(title, None, -1, news, olds);
    assert [] + Consecutive(-1, news) == Consecutive(-1, news);
  }

  function AfterPreamble(title: seq<Item>, news: seq<Line>, olds: seq<Line>): seq<Item> {
    if news != [] || olds != [] then HunkItems(title, None, -1, news, olds) else title
  }

  lemma {:induction false} NumberIsShown(items: seq<Item>, i: nat)
    requires i < |items| && items[i].Num?
    ensures (items[i].n, items[i].text) in NumsOf(items)
  {
    if i < |items| - 1 {
      NumberIsShown(items[..|items| - 1], i);
    }
  }

  lemma {:induction false} NaturalNumbers(hunks: seq<Hunk>)
    requires forall k :: 0 <= k < |hunks| ==> hunks[k].header.start2 >= 0
    ensures forall p :: p in Expected(hunks) ==> p.0 >= 0
  {
    if hunks != [] {
      NaturalNumbers(hunks[1..]);
    }
  }

  /** The one line that keeps its number when the numbers are removed: the first new-side line before the first header, if
      it gets one, keeps "-1". */
  lemma {:induction false} NegativeNumber(file: Option<FileInfo>, patch: seq<Line>, i: nat)
    requires forall k :: 0 <= k < |Seen(patch).1| ==> Seen(patch).1[k].header.start2 >= 0
    requires i < |DecoupledItems(file, patch)|
    ensures var item, news := DecoupledItems(file, patch)[i], News(Seen(patch).0);
            item.Num? && item.n < 0 ==> item.n == -1 && news != [] && item.text == Raw(news[0])
  {
    var item := DecoupledItems(file, patch)[i];
    if item.Num? && item.n < 0 {
      NumberIsShown(DecoupledItems(file, patch), i);
      NumbersShown(file, patch);
      NaturalNumbers(Seen(patch).1);
    }
  }

  // ---------- the lines that are looked at ----------

  /** The lines of a body that are not to be skipped. */
  function Kept(skip: Line -> bool, body: seq<Line>): seq<Line> {
    if body == [] then [] else (if skip(body[0]) then [] else [body[0]]) + Kept(skip, body[1..])
  }

  lemma {:induction false} VisibleBody(skip: Line -> bool, body: seq<Line>, rest: seq<Line>)
    requires forall l :: l in body ==> BodyLine(l)
    ensures Visible(skip, body + rest, false) == Kept(skip, body) + Visible(skip, rest, false)
  {
    if body == [] {
      assert body + rest == rest;
    } else {
      var all := body + rest;
      assert body[0] in body && all[0] == body[0] && all[1..] == body[1..] + rest;
      VisibleBody(skip, body[1..], rest);
      Assoc(if skip(body[0]) then [] else [body[0]], Kept(skip, body[1..]), Visible(skip, rest, false));
    }
  }

  function KeptHunk(skip: Line -> bool, h: Hunk): Hunk { Hunk(h.header, Kept(skip, h.body)) }

  function KeptHunks(skip: Line -> bool, hunks: seq<Hunk>): (r: seq<Hunk>)
    ensures |r| == |hunks| && forall k :: 0 <= k < |r| ==> r[k] == KeptHunk(skip, hunks[k])
  {
    if hunks == [] then [] else [KeptHunk(skip, hunks[0])] + KeptHunks(skip, hunks[1..])
  }

  /** No header is to be skipped, and the bodies are made of body lines. */
  ghost predicate Readable(skip: Line -> bool, hunks: seq<Hunk>) {
    && BodiesOk(hunks)
    && forall k :: 0 <= k < |hunks| ==> !skip(Head(hunks[k].header))
  }

  /** A separator is passed over, or kept if it is the very first line; then the hunk is seen. */
  lemma {:induction false} VisibleHunk(skip: Line -> bool, h: Hunk, rest: seq<Line>, first: bool)
    requires !skip(Blank) && !skip(Head(h.header)) && forall l :: l in h.body ==> BodyLine(l)
    ensures Visible(skip, [Blank, Head(h.header)] + h.body + rest, first) ==
            (if first then [Blank] else []) + ([Head(h.header)] + Kept(skip, h.body) + Visible(skip, rest, false))
  {
    var lines, own := [Blank, Head(h.header)] + h.body + rest, h.body + rest;
    VisibleBody(skip, h.body, rest);
    assert lines[0] == Blank && lines[1] == Head(h.header);
    var tail := lines[1..];
    assert tail[0] == Head(h.header) && tail[1..] == own;
    assert Visible(skip, tail, false) == [Head(h.header)] + Visible(skip, own, false);
    Assoc([Head(h.header)], Kept(skip, h.body), Visible(skip, rest, false));
  }

  /** After the first line, the separators the extension puts in are never seen. */
  lemma {:induction false} VisibleEmit(skip: Line -> bool, hunks: seq<Hunk>)
    requires Readable(skip, hunks) && !skip(Blank)
    ensures Visible(skip, Emit(hunks), false) == Flatten(KeptHunks(skip, hunks))
  {
    if hunks == [] {
    } else {
      VisibleEmit(skip, hunks[1..]);
      VisibleHunk(skip, hunks[0], Emit(hunks[1..]), false);
      var kept := KeptHunks(skip, hunks);
      assert kept[0] == KeptHunk(skip, hunks[0]) && kept[1..] == KeptHunks(skip, hunks[1..]);
    }
  }

  lemma {:induction false} KeptFrom(skip: Line -> bool, body: seq<Line>)
    requires forall l :: l in body ==> BodyLine(l)
    ensures forall l :: l in Kept(skip, body) ==> l in body && !skip(l) && !l.Head?
  {
    if body != [] {
      assert body[0] in body && forall l :: l in body[1..] ==> l in body;
      KeptFrom(skip, body[1..]);
    }
  }

  lemma {:induction false} KeptNoHeads(skip: Line -> bool, hunks: seq<Hunk>)
    requires BodiesOk(hunks)
    ensures forall h :: h in KeptHunks(skip, hunks) ==> NoHeads(h.body)
  {
    forall h | h in KeptHunks(skip, hunks) ensures NoHeads(h.body) {
      var k :| 0 <= k < |hunks| && KeptHunks(skip, hunks)[k] == h;
      assert forall l :: l in hunks[k].body ==> BodyLine(l);
      KeptFrom(skip, hunks[k].body);
    }
  }

  /** The hunks of an extended patch are read as they are, less the lines to skip; the empty first line stands alone in
      front of them. */
  lemma {:induction false} SplitVisibleEmit(skip: Line -> bool, hunks: seq<Hunk>)
    requires Readable(skip, hunks) && !skip(Blank) && hunks != []
    ensures Split(Visible(skip, Emit(hunks), true)) == ([Blank], KeptHunks(skip, hunks))
  {
    var h, kept := hunks[0], KeptHunks(skip, hunks);
    VisibleEmit(skip, hunks[1..]);
    VisibleHunk(skip, h, Emit(hunks[1..]), true);
    assert kept[0] == KeptHunk(skip, h) && kept[1..] == KeptHunks(skip, hunks[1..]);
    assert Visible(skip, Emit(hunks), true) == [Blank] + Flatten(kept);
    KeptNoHeads(skip, hunks);
    SplitFlatten(kept);
    SplitPrefixed([Blank], Flatten(kept));
    assert [Blank] + [] == [Blank];
  }

  // ---------- the numbers index the new file ----------

  /** No new-side line is skipped, and every marker of a missing newline is. */
  ghost predicate Clean(skip: Line -> bool, body: seq<Line>) {
    forall l :: l in body ==> BodyLine(l) && (InNew(l) ==> !skip(l)) && (l.Note? ==> skip(l))
  }

  lemma {:induction false} NewsOfKept(skip: Line -> bool, body: seq<Line>)
    requires body != []
    ensures News(Kept(skip, body)) ==
            (if skip(body[0]) || body[0].Del? then [] else [body[0]]) + News(Kept(skip, body[1..]))
  {
    var l, rest := body[0], Kept(skip, body[1..]);
    NewsCons(l, rest);
    if skip(l) {
      assert [] + rest == rest;
    }
  }

  lemma {:induction false} NewsCons(l: Line, rest: seq<Line>)
    ensures News([l] + rest) == (if l.Del? then [] else [l]) + News(rest)
  {
    var all := [l] + rest;
    assert all[0] == l && all[1..] == rest;
  }

  lemma {:induction false} KeptCons(skip: Line -> bool, l: Line, rest: seq<Line>)
    ensures Kept(skip, [l] + rest) == (if skip(l) then [] else [l]) + Kept(skip, rest)
  {
    var all := [l] + rest;
    assert all[0] == l && all[1..] == rest;
  }

  /** The new side that is read is the new side, line by line. */
  lemma {:induction false} NewsKept(skip: Line -> bool, body: seq<Line>)
    requires Clean(skip, body)
    ensures |News(Kept(skip, body))| == |NewSide(body)|
    ensures forall i :: 0 <= i < |NewSide(body)| ==>
              InNew(News(Kept(skip, body))[i]) && News(Kept(skip, body))[i].text == NewSide(body)[i]
  {
    if body != [] {
      assert body[0] in body && forall l :: l in body[1..] ==> l in body;
      NewsKept(skip, body[1..]);
      NewsOfKept(skip, body);
      assert NewSide(body) == NewText(body[0]) + NewSide(body[1..]);
    }
  }

  /** A numbered line shows, after its marker, the line of the new file that its number names. */
  ghost predicate IndexesFile(head: seq<string>, n: int, text: string) {
    1 <= n <= |head| && (text == " " + head[n - 1] || text == "+" + head[n - 1])
  }

  lemma {:induction false} LineIndexesFile(skip: Line -> bool, head: seq<string>, h: Hunk, i: nat)
    requires Clean(skip, h.body) && StandsAt(NewSide(h.body), head, h.header.start2 - 1)
    requires i < |News(Kept(skip, h.body))|
    ensures IndexesFile(head, h.header.start2 + i, Raw(News(Kept(skip, h.body))[i]))
  {
    NewsKept(skip, h.body);
    StandsIndex(NewSide(h.body), head, h.header.start2 - 1, i);
  }

  lemma {:induction false} HunkIndexesFile(skip: Line -> bool, head: seq<string>, h: Hunk)
    requires Clean(skip, h.body) && StandsAt(NewSide(h.body), head, h.header.start2 - 1)
    ensures forall p :: p in Consecutive(h.header.start2, News(KeptHunk(skip, h).body)) ==> IndexesFile(head, p.0, p.1)
  {
    var news := News(Kept(skip, h.body));
    forall i | 0 <= i < |news| ensures IndexesFile(head, h.header.start2 + i, Raw(news[i])) {
      LineIndexesFile(skip, head, h, i);
    }
    AllConsecutive(head, h.header.start2, news);
  }

  lemma {:induction false} AllConsecutive(head: seq<string>, start: int, news: seq<Line>)
    requires forall i :: 0 <= i < |news| ==> IndexesFile(head, start + i, Raw(news[i]))
    ensures forall p :: p in Consecutive(start, news) ==> IndexesFile(head, p.0, p.1)
  {
  }

  ghost predicate CleanAndPlaced(skip: Line -> bool, head: seq<string>, h: Hunk) {
    Clean(skip, h.body) && StandsAt(NewSide(h.body), head, h.header.start2 - 1)
  }

  lemma {:induction false} ExpectedIndexesFile(skip: Line -> bool, head: seq<string>, hunks: seq<Hunk>)
    requires forall k :: 0 <= k < |hunks| ==> CleanAndPlaced(skip, head, hunks[k])
    ensures forall p :: p in Expected(KeptHunks(skip, hunks)) ==> IndexesFile(head, p.0, p.1)
  {
    if hunks != [] {
      assert CleanAndPlaced(skip, head, hunks[0]);
      assert forall k :: 0 <= k < |hunks[1..]| ==> hunks[1..][k] == hunks[k + 1];
      ExpectedIndexesFile(skip, head, hunks[1..]);
      HunkIndexesFile(skip, head, hunks[0]);
      assert KeptHunks(skip, hunks)[1..] == KeptHunks(skip, hunks[1..]);
    }
  }

  /** The markers are recognised, the separators are not taken for one. */
  lemma {:induction false} NoteSaysSo()
    ensures SaysNoNewline(Note) && !SaysNoNewline(Blank)
  {
    var s := Lower(Raw(Note));
    assert s[2..] == NO_NEWLINE;
    assert s[1..][1..] == s[2..];
    assert Contains(NO_NEWLINE, s[1..][1..]);
    assert Contains(NO_NEWLINE, s[1..]);
    assert Lower(Raw(Blank)) == "";
  }

  /** Nothing that is to be read, neither header nor new-side line, is skipped. */
  ghost predicate Silent(skip: Line -> bool, hunks: seq<Hunk>) {
    && (forall k :: 0 <= k < |hunks| ==> !skip(Head(hunks[k].header)))
    && (forall k, l :: 0 <= k < |hunks| && l in hunks[k].body && InNew(l) ==> !skip(l))
  }

  ghost predicate SidesPlaced(head: seq<string>, hunks: seq<Hunk>) {
    forall k :: 0 <= k < |hunks| ==> StandsAt(NewSide(hunks[k].body), head, hunks[k].header.start2 - 1)
  }

  /** Numbers read off an emitted patch whose new sides stand in the new file. */
  lemma {:induction false} EmittedNumbersIndexFile(skip: Line -> bool, head: seq<string>, es: seq<Hunk>)
    requires skip(Note) && !skip(Blank)
    requires BodiesOk(es) && Silent(skip, es) && SidesPlaced(head, es)
    ensures var (pre, hunks) := Split(Visible(skip, Emit(es), true));
            && (forall l :: l in pre ==> l == Blank)
            && forall p :: p in Expected(hunks) ==> IndexesFile(head, p.0, p.1)
  {
    if es != [] {
      SplitVisibleEmit(skip, es);
    }
    forall k | 0 <= k < |es| ensures CleanAndPlaced(skip, head, es[k]) {
    }
    ExpectedIndexesFile(skip, head, es);
  }

  lemma {:induction false} OnePlaced(cfg: Config, base: seq<string>, head: seq<string>, hunks: seq<Hunk>, k: nat)
    requires Takes(base, head, hunks) && k < |hunks| && hunks[k].header.Explicit()
    requires k + 1 < |hunks| ==> OldEnd(hunks[k]) + cfg.after < hunks[k + 1].header.start1
    ensures var e := ExtendHunks(cfg, base, head, hunks)[k]; StandsAt(NewSide(e.body), head, e.header.start2 - 1)
  {
    ExtendedNewSide(cfg, base, head, hunks, k);
  }

  lemma {:induction false} ExtendedPlaced(cfg: Config, base: seq<string>, head: seq<string>, hunks: seq<Hunk>)
    requires Takes(base, head, hunks)
    requires forall h :: h in hunks ==> h.header.Explicit()
    requires forall k :: 0 <= k < |hunks| - 1 ==> OldEnd(hunks[k]) + cfg.after < hunks[k + 1].header.start1
    ensures BodiesOk(ExtendHunks(cfg, base, head, hunks)) && SidesPlaced(head, ExtendHunks(cfg, base, head, hunks))
  {
    AllExtendedGrown(cfg, base, head, head, hunks);
    forall k | 0 <= k < |hunks|
      ensures StandsAt(NewSide(ExtendHunks(cfg, base, head, hunks)[k].body), head,
                       ExtendHunks(cfg, base, head, hunks)[k].header.start2 - 1)
    {
      OnePlaced(cfg, base, head, hunks, k);
    }
  }

  // ---------- lines passed over by mistake ----------

  /** The number of new-side lines that are passed over. */
  function PassedOver(skip: Line -> bool, body: seq<Line>): nat {
    if body == [] then 0
    else (if InNew(body[0]) && skip(body[0]) then 1 else 0) + PassedOver(skip, body[1..])
  }

  /** The lines of a body that are numbered fall short of its new-side lines by the lines passed over. */
  lemma {:induction false} PassedOverShiftsNumbers(skip: Line -> bool, body: seq<Line>)
    requires forall l :: l in body ==> BodyLine(l) && (l.Note? ==> skip(l))
    ensures |News(Kept(skip, body))| == |NewSide(body)| - PassedOver(skip, body)
  {
    if body != [] {
      assert body[0] in body && forall l :: l in body[1..] ==> l in body;
      PassedOverShiftsNumbers(skip, body[1..]);
      NewsOfKept(skip, body);
      assert NewSide(body) == NewText(body[0]) + NewSide(body[1..]);
    }
  }

  /** A new-side line that is skipped: the line after it gets its number. */
  lemma {:induction false} CommentNumbers(skip: Line -> bool, x: string, l: string, y: string)
    requires !skip(Add(x)) && skip(Add(l)) && !skip(Ctx(y))
    ensures News(Kept(skip, [Add(x), Add(l), Ctx(y)])) == [Add(x), Ctx(y)]
    ensures Consecutive(1, [Add(x), Ctx(y)]) == [(1, "+" + x), (2, " " + y)]
  {
    var a, b, c := Add(x), Add(l), Ctx(y);
    assert [a, b, c] == [a] + ([b] + ([c] + []));
    KeptCons(skip, c, []);
    KeptCons(skip, b, [c] + []);
    KeptCons(skip, a, [b] + ([c] + []));
    assert Kept(skip, [a, b, c]) == [a] + ([c] + []);
    NewsCons(c, []);
    NewsCons(a, [c] + []);
  }

  /** A file can hold such a line. */
  lemma {:induction false} CommentSaysSo()
    ensures SaysNoNewline(Ctx("# No newline at end of file")) && !SaysNoNewline(Add("x")) && !SaysNoNewline(Ctx("y"))
  {
    var s := Lower(Raw(Ctx("# No newline at end of file")));
    assert s[3..] == NO_NEWLINE;
    assert s[1..][1..][1..] == s[3..];
    assert Contains(NO_NEWLINE, s[1..][1..][1..]);
    assert Contains(NO_NEWLINE, s[1..][1..]);
    assert Contains(NO_NEWLINE, s[1..]);
    LongerNotIn(NO_NEWLINE, Lower(Raw(Add("x"))));
    LongerNotIn(NO_NEWLINE, Lower(Raw(Ctx("y"))));
  }

  lemma {:induction false} LongerNotIn(sub: string, s: string)
    requires |s| < |sub|
    ensures !Contains(sub, s)
  {
    if s != [] {
      LongerNotIn(sub, s[1..]);
    }
  }
}
