/** Taking the line numbers out of decoupled text again (`remove_line_numbers`). */
module RemoveNumbers {
  import opened PyText
  import opened UnifiedDiff
  import opened DecoupleHunks

  /** The part of a line after its leading digits and one more character. */
  function AfterDigits(s: string): string {
    if s == "" then "" else if IsDigit(s[0]) then AfterDigits(s[1..]) else s[1..]
  }

  function WithoutNumber(line: string): string {
    if IsBlank(line) then line
    else if AllDigits(line) then ""
    else if IsDigit(line[0]) then AfterDigits(line)
    else line
  }

  lemma {:induction false} AfterDigitsAt(s: string, j: nat)
    requires j < |s| && !IsDigit(s[j]) && forall k :: 0 <= k < j ==> IsDigit(s[k])
    ensures AfterDigits(s) == s[j + 1..]
  {
    if j > 0 {
      AfterDigitsAt(s[1..], j - 1);
      assert s[1..][j..] == s[j + 1..];
    }
  }

  /** The lines of one chunk are overwritten in place. */
  method RemoveLineNumbers(lines: array<string>)
    modifies lines
    ensures forall i :: 0 <= i < lines.Length ==> lines[i] == WithoutNumber(old(lines[i]))
  {
    for i := 0 to lines.Length
      invariant forall k :: 0 <= k < i ==> lines[k] == WithoutNumber(old(lines[k]))
      invariant forall k :: i <= k < lines.Length ==> lines[k] == old(lines[k])
    {
      var line := lines[i];
      if !IsBlank(line) {
        if AllDigits(line) {
          lines[i] := "";
        } else if IsDigit(line[0]) {
          var j := 0;
          while IsDigit(line[j])
            invariant 0 <= j < |line|
            invariant forall k :: 0 <= k < j ==> IsDigit(line[k])
            decreases |line| - j
          {
            assert exists k :: j < k < |line| && !IsDigit(line[k]);
            j := j + 1;
          }
          AfterDigitsAt(line, j);
          lines[i] := line[j + 1..];
        }
      }
    }
  }

  // ---------- the round trip ----------

  /** The line without the number it was given. */
  function Bare(item: Item): string {
    match item
    case Plain(text) => text
    case Num(_, text, cut) => if cut then RStrip(text) else text
  }

  /** No line without a number starts with a digit. */
  predicate Removable(item: Item) {
    match item
    case Plain(text) => text == "" || !IsDigit(text[0])
    case Num(_, _, _) => true
  }

  predicate AllRemovable(items: seq<Item>) { forall i :: 0 <= i < |items| ==> Removable(items[i]) }

  /** Removing the number that was added gives the line back; where white space was stripped from the end of the shown
      line, it gives the line stripped. A number below 0 stays. */
  lemma {:induction false} WithoutShownNumber(item: Item)
    requires Removable(item)
    ensures WithoutNumber(Show(item)) == if item.Num? && item.n < 0 then Show(item) else Bare(item)
  {
    match item {
      case Plain(text) =>
      case Num(n, text, cut) =>
        if n < 0 {
          SignStays(Digits(-n) + " " + text);
        } else {
          NumberFirst(Digits(n), text);
          CutNumber(Digits(n), text);
        }
    }
  }

  lemma {:induction false} SignStays(rest: string)
    ensures WithoutNumber("-" + rest) == "-" + rest
    ensures WithoutNumber(RStrip("-" + rest)) == RStrip("-" + rest)
  {
    assert ("-" + rest)[0] == '-';
    RStripConcat("-", rest);
    assert RStrip("-") == "-";
    assert RStrip("-" + rest)[0] == '-';
  }

  lemma {:induction false} CutShape(d: string, text: string)
    requires d != "" && !IsSpace(d[|d| - 1])
    ensures RStrip(d + " " + text) == if IsBlank(text) then d else d + " " + RStrip(text)
  {
    RStripConcat(d + " ", text);
    if IsBlank(text) {
      RStripConcat(d, " ");
      assert RStrip(d) == d;
    }
  }

  lemma {:induction false} NumberFirst(d: string, text: string)
    requires d != "" && AllDigits(d)
    ensures WithoutNumber(d) == "" && WithoutNumber(d + " " + text) == text
  {
    assert IsDigit(d[0]);
    var full := d + " " + text;
    assert full[0] == d[0] && full[|d|] == ' ';
    AfterDigitsAt(full, |d|);
    assert full[|d| + 1..] == text;
  }

  lemma {:induction false} CutNumber(d: string, text: string)
    requires d != "" && AllDigits(d)
    ensures WithoutNumber(RStrip(d + " " + text)) == RStrip(text)
  {
    assert IsDigit(d[|d| - 1]);
    CutShape(d, text);
    NumberFirst(d, RStrip(text));
  }

  lemma {:induction false} RemovableTrim(items: seq<Item>)
    requires AllRemovable(items)
    ensures AllRemovable(TrimItems(items))
  {
    if items != [] {
      var init, last := items[..|items| - 1], items[|items| - 1];
      RemovableTrim(init);
      assert Removable(last);
      if last.Plain? && !IsBlank(last.text) {
        assert Removable(Plain(RStrip(last.text)));
      }
    }
  }

  /** A section after what is there: the end is trimmed, a mark and the lines follow. */
  lemma {:induction false} SectionRemovable(items: seq<Item>, mark: string, lines: seq<Item>)
    requires AllRemovable(items) && AllRemovable(lines) && Removable(Plain(mark))
    ensures AllRemovable(OrBlank(TrimItems(items)) + [Plain(mark)] + lines)
  {
    RemovableTrim(items);
  }

  lemma {:induction false} HeaderRemovable(items: seq<Item>, header: Option<Header>)
    requires AllRemovable(items)
    ensures AllRemovable(WithHeader(items, header))
  {
  }

  lemma {:induction false} RawRemovable(lines: seq<Line>)
    ensures AllRemovable(AsIs(lines))
  {
  }

  lemma {:induction false} NumberedRemovable(start2: int, news: seq<Line>)
    ensures AllRemovable(Numbered(start2, news))
  {
  }

  lemma {:induction false} HunkRemovable(items: seq<Item>, header: Option<Header>, start2: int, news: seq<Line>,
                                         olds: seq<Line>)
    requires AllRemovable(items)
    ensures AllRemovable(HunkItems(items, header, start2, news, olds))
  {
    var items1 := WithHeader(items, header);
    HeaderRemovable(items, header);
    RawRemovable(olds);
    if HasKind(news, true) || HasKind(olds, false) {
      NumberedRemovable(start2, news);
      SectionRemovable(items1, "__new hunk__", Numbered(start2, news));
      SectionRemovable(WithNew(items1, start2, news), "__old hunk__", AsIs(olds));
    }
  }

  lemma {:induction false} OutcomeRemovable(items: seq<Item>, header: Option<Header>, start2: int, news: seq<Line>,
                                            olds: seq<Line>, hunks: seq<Hunk>)
    requires AllRemovable(items)
    ensures AllRemovable(Outcome(items, header, start2, news, olds, hunks))
    decreases |hunks|
  {
    HunkRemovable(items, header, start2, news, olds);
    if hunks != [] {
      var done := if news != [] || olds != [] then HunkItems(items, header, start2, news, olds) else items;
      var h := hunks[0];
      OutcomeRemovable(done, Some(h.header), h.header.start2, News(h.body), Olds(h.body), hunks[1..]);
    }
  }

  lemma {:induction false} DecoupledRemovable(file: Option<FileInfo>, patch: seq<Line>)
    ensures AllRemovable(DecoupledItems(file, patch))
  {
    var (pre, hunks) := Seen(patch);
    if file.Some? && file.value.deleted {
    } else {
      assert AllRemovable(Title(file));
      OutcomeRemovable(Title(file), None, -1, News(pre), Olds(pre), hunks);
      RemovableTrim(Outcome(Title(file), None, -1, News(pre), Olds(pre), hunks));
    }
  }

  /** Decoupling a patch and removing the numbers gives back every new-side line as it was, up to white space stripped
      at the end of a section, and leaves every other line unchanged; but a line that was given a number below 0 keeps
      it. */
  lemma {:induction false} NumbersRoundTrip(file: Option<FileInfo>, patch: seq<Line>)
    ensures var items := DecoupledItems(file, patch);
            forall i :: 0 <= i < |items| ==>
              WithoutNumber(ShowAll(items)[i]) ==
              if items[i].Num? && items[i].n < 0 then ShowAll(items)[i] else Bare(items[i])
  {
    var items := DecoupledItems(file, patch);
    DecoupledRemovable(file, patch);
    forall i | 0 <= i < |items|
      ensures WithoutNumber(ShowAll(items)[i]) == if items[i].Num? && items[i].n < 0 then ShowAll(items)[i] else Bare(items[i])
    {
      WithoutShownNumber(items[i]);
    }
  }
}
