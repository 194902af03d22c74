/** Reading the lines of a patch back from their text, by the header expression and by their first character. */
module PatchText {
  import opened PyText
  import opened UnifiedDiff

  // ---------- the header expression ----------

  /** `(\d+)`: the number a text starts with, and what follows it. */
  function TakeNumber(s: string): Option<(nat, string)> {
    var k := LeadingDigits(s);
    if k == 0 then None else Some((Value(s[..k]), s[k..]))
  }

  /** `(?:,(\d+))?` */
  function TakeCount(s: string): (Option<int>, string) {
    var n := if StartsWith(",", s) then TakeNumber(s[1..]) else None;
    if n.None? then (None, s) else (Some(n.value.0), n.value.1)
  }

  /** A mark, a start and perhaps a count. */
  function TakeSide(mark: string, s: string): Option<(int, Option<int>, string)> {
    var n := if StartsWith(mark, s) then TakeNumber(s[|mark|..]) else None;
    if n.None? then None
    else
      var (count, rest) := TakeCount(n.value.1);
      Some((n.value.0, count, rest))
  }

  /** `^@@ -(\d+)(?:,(\d+))? \+(\d+)(?:,(\d+))? @@[ ]?(.*)` */
  function ReadHeader(s: string): Option<Header> {
    var left := TakeSide("@@ -", s);
    var right := if left.None? then None else TakeSide(" +", left.value.2);
    if right.None? || !StartsWith(" @@", right.value.2) then None
    else
      var after := right.value.2[3..];
      Some(Header(left.value.0, left.value.1, right.value.0, right.value.1,
                  if StartsWith(" ", after) then after[1..] else after))
  }

  function AsHead(h: Option<Header>): Option<Line> { if h.None? then None else Some(Head(h.value)) }

  /** What kind of line a text is, by its first character. */
  function ReadLine(s: string): Option<Line> {
    if s == "" then Some(Blank)
    else if s[0] == ' ' then Some(Ctx(s[1..]))
    else if s[0] == '+' then Some(Add(s[1..]))
    else if s[0] == '-' then Some(Del(s[1..]))
    else if s[0] == '\\' then Some(Note)
    else AsHead(ReadHeader(s))
  }

  // ---------- what is written is read ----------

  predicate NotNegative(h: Header) {
    h.start1 >= 0 && h.start2 >= 0 && h.Size1() >= 0 && h.Size2() >= 0
  }

  predicate NoDigitFirst(s: string) { s == "" || !IsDigit(s[0]) }

  lemma {:induction false} NumberTaken(n: nat, rest: string)
    requires NoDigitFirst(rest)
    ensures TakeNumber(Digits(n) + rest) == Some((n, rest))
  {
    LeadingRead(n, rest);
  }

  lemma {:induction false} AfterFirst(c: char, rest: string)
    ensures ([c] + rest)[0] == c && ([c] + rest)[1..] == rest
  {
  }

  predicate BlankFirst(s: string) { s != "" && s[0] == ' ' }

  /** The text of a count is read if something else follows. */
  lemma {:induction false} CountTaken(n: nat, rest: string)
    requires BlankFirst(rest)
    ensures TakeCount("," + (Digits(n) + rest)) == (Some(n), rest) && TakeCount(rest) == (None, rest)
    ensures NoDigitFirst("," + (Digits(n) + rest))
  {
    NumberTaken(n, rest);
    AfterFirst(',', Digits(n) + rest);
  }

  predicate Counts(count: Option<int>) { count.Some? ==> count.value >= 0 }

  lemma {:induction false} CountRead(count: Option<int>, rest: string)
    requires Counts(count) && BlankFirst(rest)
    ensures TakeCount(CountText(count) + rest) == (count, rest) && NoDigitFirst(CountText(count) + rest)
  {
    if count.Some? {
      CountTaken(count.value, rest);
      Assoc(",", Digits(count.value), rest);
    } else {
      CountTaken(0, rest);
      assert CountText(count) + rest == rest;
    }
  }

  lemma {:induction false} SideTaken(mark: string, start: nat, count: Option<int>, tail: string, rest: string)
    requires NoDigitFirst(tail) && TakeCount(tail) == (count, rest)
    ensures TakeSide(mark, mark + (Digits(start) + tail)) == Some((start, count, rest))
  {
    NumberTaken(start, tail);
    assert (mark + (Digits(start) + tail))[|mark|..] == Digits(start) + tail;
  }

  /** The text of one side of a header, in front of something else. */
  function SideText(mark: string, start: int, count: Option<int>, rest: string): string {
    mark + (Dec(start) + (CountText(count) + rest))
  }

  lemma {:induction false} SideRead(mark: string, start: int, count: Option<int>, rest: string)
    requires start >= 0 && Counts(count) && BlankFirst(rest)
    ensures TakeSide(mark, SideText(mark, start, count, rest)) == Some((start, count, rest))
  {
    CountRead(count, rest);
    SideTaken(mark, start, count, CountText(count) + rest, rest);
  }

  lemma {:induction false} InEight(a: string, b: string, c: string, d: string, e: string, f: string, g: string,
                                   h: string)
    ensures a + b + c + d + e + f + g + h == a + (b + (c + (d + (e + (f + (g + h))))))
  {
  }

  function SectionText(section: string): string { if section == "" then "" else " " + section }

  lemma {:induction false} SectionRead(section: string)
    ensures var text := SectionText(section); (if StartsWith(" ", text) then text[1..] else text) == section
  {
    if section != "" {
      AfterFirst(' ', section);
    }
  }

  lemma {:induction false} RawInSides(h: Header, end: string)
    requires end == " @@" + SectionText(h.section)
    ensures Raw(Head(h)) == SideText("@@ -", h.start1, h.count1, SideText(" +", h.start2, h.count2, end))
  {
    InEight("@@ -", Dec(h.start1), CountText(h.count1), " +", Dec(h.start2), CountText(h.count2), " @@",
            SectionText(h.section));
  }

  /** A header that is written is read as the header it was. */
  lemma {:induction false} HeaderRead(h: Header)
    requires NotNegative(h)
    ensures ReadHeader(Raw(Head(h))) == Some(h)
  {
    var end := " @@" + SectionText(h.section);
    RawInSides(h, end);
    SideRead("@@ -", h.start1, h.count1, SideText(" +", h.start2, h.count2, end));
    SideRead(" +", h.start2, h.count2, end);
    assert end[3..] == SectionText(h.section);
    SectionRead(h.section);
  }

  lemma {:induction false} HeadFirst(h: Header)
    ensures Raw(Head(h)) != "" && Raw(Head(h))[0] == '@'
  {
    RawInSides(h, " @@" + SectionText(h.section));
  }

  lemma {:induction false} BodyRead(l: Line)
    requires !l.Head?
    ensures ReadLine(Raw(l)) == Some(l)
  {
    if l.Ctx? || l.Add? || l.Del? {
      AfterFirst(if l.Ctx? then ' ' else if l.Add? then '+' else '-', l.text);
    }
  }

  lemma {:induction false} SignedAt(text: string)
    requires text != "" && text[0] == '@'
    ensures ReadLine(text) == AsHead(ReadHeader(text))
  {
  }

  /** So is every line of a patch. */
  lemma {:induction false} LineRead(l: Line)
    requires l.Head? ==> NotNegative(l.header)
    ensures ReadLine(Raw(l)) == Some(l)
  {
    if l.Head? {
      HeaderRead(l.header);
      HeadFirst(l.header);
      SignedAt(Raw(Head(l.header)));
    } else {
      BodyRead(l);
    }
  }
}
