/** The decoupled text as a reader sees it: the number a line starts with, read from its digits, names the line of the new
    file that follows it. */
module ShownText {
  import opened PyText
  import opened UnifiedDiff
  import opened ExtendPatch
  import opened DecoupleHunks
  import opened NumberedText
  import opened NumbersExact
  import opened RemoveNumbers

  /** A blank and a marked line, or the same with its end stripped. */
  predicate Shown(rest: string, marked: string) { rest == " " + marked || rest == RStrip(" " + marked) }

  /** The digits a line starts with stand for n, and after them it shows line n of the file, kept or added. */
  predicate ReadsLine(head: seq<string>, n: int, line: string) {
    var k := LeadingDigits(line);
    && k > 0 && Value(line[..k]) == n && 1 <= n <= |head|
    && (Shown(line[k..], " " + head[n - 1]) || Shown(line[k..], "+" + head[n - 1]))
  }

  // ---------- the number of a line ----------

  lemma {:induction false} BlankIsNothing(s: string)
    requires IsBlank(s)
    ensures RStrip(s) == ""
  {
    RStripUnique(s, "");
  }

  /** What is read of a line: the digits in front, and what follows them. */
  predicate Reads(line: string, n: int, marked: string) {
    var k := LeadingDigits(line);
    k > 0 && Value(line[..k]) == n && Shown(line[k..], marked)
  }

  lemma {:induction false} ReadStripped(n: nat, marked: string)
    ensures Reads(RStrip(Digits(n) + (" " + marked)), n, marked)
  {
    var d, rest := Digits(n), " " + marked;
    RStripConcat(d, rest);
    if IsBlank(rest) {
      BlankIsNothing(rest);
      assert IsDigit(d[|d| - 1]) && RStrip(d) == d;
      LeadingRead(n, "");
      assert d + "" == d;
    } else {
      LeadingRead(n, RStrip(rest));
    }
  }

  /** Digits in front of a blank are read as they are, stripped or not. */
  lemma {:induction false} ReadBeforeBlank(n: nat, marked: string)
    ensures Reads(Digits(n) + (" " + marked), n, marked) && Reads(RStrip(Digits(n) + (" " + marked)), n, marked)
  {
    LeadingRead(n, " " + marked);
    ReadStripped(n, marked);
  }

  /** A number that is not below 0 is read off its line, with what stands beside it. */
  lemma {:induction false} NumberRead(item: Item)
    requires item.Num? && item.n >= 0
    ensures Reads(Show(item), item.n, item.text)
  {
    Assoc(Dec(item.n), " ", item.text);
    ReadBeforeBlank(item.n, item.text);
  }

  lemma {:induction false} SignedNumber(n: int, text: string, cut: bool)
    requires n < 0
    ensures var line := Show(Num(n, text, cut)); line != "" && line[0] == '-'
  {
    var whole := Dec(n) + " " + text;
    RStripConcat("-", whole[1..]);
    assert whole == "-" + whole[1..];
    assert RStrip("-") == "-";
  }

  /** In the decoupled text of any patch the lines that start with a digit are those that were given a number not below 0. */
  lemma {:induction false} DigitLines(file: Option<FileInfo>, patch: seq<Line>, i: nat)
    requires i < |DecoupledItems(file, patch)|
    ensures var item := DecoupledItems(file, patch)[i];
            LeadingDigits(Show(item)) > 0 <==> item.Num? && item.n >= 0
  {
    var item := DecoupledItems(file, patch)[i];
    DecoupledRemovable(file, patch);
    assert Removable(item);
    if item.Num? {
      if item.n >= 0 {
        NumberRead(item);
      } else {
        SignedNumber(item.n, item.text, item.cut);
      }
    }
  }

  lemma {:induction false} IndexedRead(head: seq<string>, item: Item)
    requires item.Num? && IndexesFile(head, item.n, item.text)
    ensures ReadsLine(head, item.n, Show(item))
  {
    NumberRead(item);
  }

  /** Extending a well-formed patch and decoupling it, where neither the new file nor the section texts speak of a missing
      newline: the number that any line of the text starts with names the line of the new file that it shows. */
  lemma {:induction false} TextIndexesFile(cfg: Config, base: seq<string>, head: seq<string>, file: Option<FileInfo>,
                                           hunks: seq<Hunk>, i: nat)
    requires Takes(base, head, hunks) && (file.Some? ==> !file.value.deleted)
    requires forall h :: h in hunks ==> h.header.Explicit() && !Speaks(h.header.section)
    requires forall k :: 0 <= k < |hunks| - 1 ==> OldEnd(hunks[k]) + cfg.after < hunks[k + 1].header.start1
    requires forall t :: t in head ==> !Speaks(t)
    requires i < |DecoupledItems(file, Processed(cfg, base, head, Flatten(hunks)))|
    ensures var line := ShowAll(DecoupledItems(file, Processed(cfg, base, head, Flatten(hunks))))[i];
            var k := LeadingDigits(line);
            k > 0 ==> ReadsLine(head, Value(line[..k]), line)
  {
    var patch := Processed(cfg, base, head, Flatten(hunks));
    var items := DecoupledItems(file, patch);
    DigitLines(file, patch, i);
    if items[i].Num? && items[i].n >= 0 {
      NumberIsShown(items, i);
      ExtendedNumbersIndexFile(cfg, base, head, file, hunks);
      IndexedRead(head, items[i]);
    }
  }
}
