/** Patches in unified format: their lines, their hunks, and what it means for one to turn an old file into a new one. */
module UnifiedDiff {
  import opened PyText

  /** A hunk header as the header expression splits it; a count left out of the text is None. */
  datatype Header = Header(start1: int, count1: Option<int>, start2: int, count2: Option<int>, section: string) {
    // The sizes the program reads: an omitted count becomes 0.
    function Size1(): int { if count1.None? then 0 else count1.value }
    function Size2(): int { if count2.None? then 0 else count2.value }

    // The sizes the format gives to the same text: an omitted count means 1.
    function OldCount(): int { if count1.None? then 1 else count1.value }
    function NewCount(): int { if count2.None? then 1 else count2.value }

    predicate Explicit() { count1.Some? && count2.Some? }
  }

  /** A line of a patch. `Note` is the "\ No newline at end of file" marker, `Blank` the empty line. */
  datatype Line =
    | Head(header: Header)
    | Ctx(text: string)
    | Add(text: string)
    | Del(text: string)
    | Note
    | Blank

  datatype Hunk = Hunk(header: Header, body: seq<Line>)

  function CountText(count: Option<int>): string {
    if count.None? then "" else "," + Dec(count.value)
  }

  /** The text of a line. */
  function Raw(line: Line): string {
    match line
    case Head(h) =>
      "@@ -" + Dec(h.start1) + CountText(h.count1) + " +" + Dec(h.start2) + CountText(h.count2) + " @@"
      + (if h.section == "" then "" else " " + h.section)
    case Ctx(text) => " " + text
    case Add(text) => "+" + text
    case Del(text) => "-" + text
    case Note => "\\ No newline at end of file"
    case Blank => ""
  }

  lemma {:induction false} Assoc<T>(a: seq<T>, b: seq<T>, c: seq<T>)
    ensures (a + b) + c == a + (b + c)
  {
  }

  // ---------- lines and hunks ----------

  /** The lines before the first header, and the hunks. */
  function Split(lines: seq<Line>): (r: (seq<Line>, seq<Hunk>)) {
    if lines == [] then ([], [])
    else
      var (pre, hunks) := Split(lines[1..]);
      if lines[0].Head? then ([], [Hunk(lines[0].header, pre)] + hunks) else ([lines[0]] + pre, hunks)
  }

  function Flatten(hunks: seq<Hunk>): seq<Line> {
    if hunks == [] then [] else [Head(hunks[0].header)] + hunks[0].body + Flatten(hunks[1..])
  }

  ghost predicate NoHeads(lines: seq<Line>) { forall l :: l in lines ==> !l.Head? }

  lemma {:induction false} FlattenSplit(lines: seq<Line>)
    ensures Split(lines).0 + Flatten(Split(lines).1) == lines
    ensures NoHeads(Split(lines).0)
    ensures forall h :: h in Split(lines).1 ==> NoHeads(h.body)
  {
    if lines == [] {
    } else {
      FlattenSplit(lines[1..]);
      var (pre, hunks) := Split(lines[1..]);
      if lines[0].Head? {
        assert ([Hunk(lines[0].header, pre)] + hunks)[1..] == hunks;
      }
    }
  }

  lemma {:induction false} SplitPrefixed(pre: seq<Line>, rest: seq<Line>)
    requires NoHeads(pre)
    ensures Split(pre + rest) == (pre + Split(rest).0, Split(rest).1)
  {
    if pre == [] {
      assert pre + rest == rest;
      assert pre + Split(rest).0 == Split(rest).0;
    } else {
      SplitPrefixed(pre[1..], rest);
      assert (pre + rest)[1..] == pre[1..] + rest;
      assert [pre[0]] + (pre[1..] + Split(rest).0) == pre + Split(rest).0;
    }
  }

  lemma {:induction false} SplitHunk(h: Hunk, tail: seq<Line>, rest: seq<Hunk>)
    requires NoHeads(h.body) && Split(tail) == ([], rest)
    ensures Split([Head(h.header)] + h.body + tail) == ([], [h] + rest)
  {
    SplitPrefixed(h.body, tail);
    var lines := [Head(h.header)] + h.body + tail;
    assert lines[0] == Head(h.header) && lines[1..] == h.body + tail;
    assert h.body + [] == h.body;
  }

  /** Splitting undoes flattening. */
  lemma {:induction false} SplitFlatten(hunks: seq<Hunk>)
    requires forall h :: h in hunks ==> NoHeads(h.body)
    ensures Split(Flatten(hunks)) == ([], hunks)
  {
    if hunks != [] {
      SplitFlatten(hunks[1..]);
      SplitHunk(hunks[0], Flatten(hunks[1..]), hunks[1..]);
      assert [hunks[0]] + hunks[1..] == hunks;
    }
  }

  // ---------- the two sides of a hunk ----------

  predicate InNew(l: Line) { l.Ctx? || l.Add? }
  predicate InOld(l: Line) { l.Ctx? || l.Del? }

  function OldText(l: Line): seq<string> { if l.Ctx? || l.Del? then [l.text] else [] }
  function NewText(l: Line): seq<string> { if l.Ctx? || l.Add? then [l.text] else [] }

  function OldSide(body: seq<Line>): seq<string> {
    if body == [] then [] else OldText(body[0]) + OldSide(body[1..])
  }

  function NewSide(body: seq<Line>): seq<string> {
    if body == [] then [] else NewText(body[0]) + NewSide(body[1..])
  }

  lemma {:induction false} SideCons(l: Line, rest: seq<Line>)
    ensures OldSide([l] + rest) == OldText(l) + OldSide(rest)
    ensures NewSide([l] + rest) == NewText(l) + NewSide(rest)
  {
    var all := [l] + rest;
    assert all[0] == l && all[1..] == rest;
  }

  lemma {:induction false} SidesOfTwo(a: Line, b: Line)
    ensures OldSide([a, b]) == OldText(a) + OldText(b) && NewSide([a, b]) == NewText(a) + NewText(b)
  {
    SideCons(a, [b]);
    SideCons(b, []);
    assert [a] + [b] == [a, b] && [b] + [] == [b];
  }

  function CtxLines(texts: seq<string>): (r: seq<Line>)
    ensures |r| == |texts|
  {
    seq(|texts|, i requires 0 <= i < |texts| => Ctx(texts[i]))
  }

  lemma {:induction false} OldSideConcat(a: seq<Line>, b: seq<Line>)
    ensures OldSide(a + b) == OldSide(a) + OldSide(b)
  {
    if a == [] {
      assert a + b == b;
    } else {
      var ab := a + b;
      assert ab[0] == a[0] && ab[1..] == a[1..] + b;
      OldSideConcat(a[1..], b);
      Assoc(OldText(a[0]), OldSide(a[1..]), OldSide(b));
    }
  }

  lemma {:induction false} NewSideConcat(a: seq<Line>, b: seq<Line>)
    ensures NewSide(a + b) == NewSide(a) + NewSide(b)
  {
    if a == [] {
      assert a + b == b;
    } else {
      var ab := a + b;
      assert ab[0] == a[0] && ab[1..] == a[1..] + b;
      NewSideConcat(a[1..], b);
      Assoc(NewText(a[0]), NewSide(a[1..]), NewSide(b));
    }
  }

  lemma {:induction false} SidesOfCtx(texts: seq<string>)
    ensures OldSide(CtxLines(texts)) == texts && NewSide(CtxLines(texts)) == texts
  {
    if texts != [] {
      SidesOfCtx(texts[1..]);
      assert CtxLines(texts)[1..] == CtxLines(texts[1..]);
      assert [texts[0]] + texts[1..] == texts;
    }
  }

  // ---------- meaning ----------

  /** Applying hunks to the old file from line `pos` (counted from 0) on. Only old starts and bodies are read. */
  function ApplyFrom(base: seq<string>, pos: nat, hunks: seq<Hunk>): Option<seq<string>>
    requires pos <= |base|
    decreases |hunks|
  {
    if hunks == [] then Some(base[pos..])
    else
      var at, before, after := hunks[0].header.start1 - 1, OldSide(hunks[0].body), NewSide(hunks[0].body);
      if at < pos || at + |before| > |base| || base[at..at + |before|] != before then None
      else
        var rest := ApplyFrom(base, at + |before|, hunks[1..]);
        if rest.None? then None else Some(base[pos..at] + after + rest.value)
  }

  /** The file a patch produces, or None where it does not apply. */
  function Apply(base: seq<string>, hunks: seq<Hunk>): Option<seq<string>> {
    ApplyFrom(base, 0, hunks)
  }

  ghost predicate BodyLine(l: Line) { l.Ctx? || l.Add? || l.Del? || l.Note? }

  /** The hunk stands in both files where its header says, with the counts its header says. */
  ghost predicate HunkFits(base: seq<string>, head: seq<string>, h: Hunk) {
    && (forall l :: l in h.body ==> BodyLine(l))
    && |OldSide(h.body)| == h.header.OldCount() >= 1
    && |NewSide(h.body)| == h.header.NewCount() >= 1
    && StandsAt(OldSide(h.body), base, h.header.start1 - 1)
    && StandsAt(NewSide(h.body), head, h.header.start2 - 1)
  }

  function OldEnd(h: Hunk): int { h.header.start1 - 1 + |OldSide(h.body)| }
  function NewEnd(h: Hunk): int { h.header.start2 - 1 + |NewSide(h.body)| }

  /** A well-formed patch from `base` (read from line p on) to `head` (from line q on):
      increasing hunks that fit both files, with equal text between them. */
  ghost predicate TakesFrom(base: seq<string>, head: seq<string>, p: nat, q: nat, hunks: seq<Hunk>)
    decreases |hunks|
  {
    && p <= |base| && q <= |head|
    && if hunks == [] then base[p..] == head[q..]
       else
         var h := hunks[0];
         && HunkFits(base, head, h)
         && p <= h.header.start1 - 1 && q <= h.header.start2 - 1
         && base[p..h.header.start1 - 1] == head[q..h.header.start2 - 1]
         && TakesFrom(base, head, OldEnd(h), NewEnd(h), hunks[1..])
  }

  ghost predicate Takes(base: seq<string>, head: seq<string>, hunks: seq<Hunk>) {
    TakesFrom(base, head, 0, 0, hunks)
  }

  /** A well-formed patch applies, and gives the new file. */
  lemma {:induction false} TakesApplies(base: seq<string>, head: seq<string>, p: nat, q: nat, hunks: seq<Hunk>)
    requires TakesFrom(base, head, p, q, hunks)
    ensures ApplyFrom(base, p, hunks) == Some(head[q..])
    decreases |hunks|
  {
    if hunks == [] {
    } else {
      var h := hunks[0];
      TakesApplies(base, head, OldEnd(h), NewEnd(h), hunks[1..]);
      assert head[q..] == head[q..h.header.start2 - 1] + NewSide(h.body) + head[NewEnd(h)..];
    }
  }

  lemma {:induction false} TakesMember(base: seq<string>, head: seq<string>, p: nat, q: nat, hunks: seq<Hunk>, k: nat)
    requires TakesFrom(base, head, p, q, hunks) && k < |hunks|
    ensures HunkFits(base, head, hunks[k]) && TakesFrom(base, head, OldEnd(hunks[k]), NewEnd(hunks[k]), hunks[k + 1..])
    ensures p < hunks[k].header.start1 && q < hunks[k].header.start2
    ensures NoHeads(hunks[k].body)
    decreases |hunks|
  {
    if k == 0 {
    } else {
      TakesMember(base, head, OldEnd(hunks[0]), NewEnd(hunks[0]), hunks[1..], k - 1);
      assert hunks[1..][k - 1] == hunks[k] && hunks[1..][k..] == hunks[k + 1..];
    }
  }

  lemma {:induction false} TakesCons(base: seq<string>, head: seq<string>, p: nat, q: nat, e: Hunk, es: seq<Hunk>)
    requires HunkFits(base, head, e) && TakesFrom(base, head, OldEnd(e), NewEnd(e), es)
    requires p <= e.header.start1 - 1 && q <= e.header.start2 - 1
    requires base[p..e.header.start1 - 1] == head[q..e.header.start2 - 1]
    ensures TakesFrom(base, head, p, q, [e] + es)
  {
    assert ([e] + es)[1..] == es;
  }

  lemma {:induction false} TakesNoHeads(base: seq<string>, head: seq<string>, p: nat, q: nat, hunks: seq<Hunk>)
    requires TakesFrom(base, head, p, q, hunks)
    ensures forall h :: h in hunks ==> NoHeads(h.body)
  {
    forall h | h in hunks ensures NoHeads(h.body) {
      var k :| 0 <= k < |hunks| && hunks[k] == h;
      TakesMember(base, head, p, q, hunks, k);
    }
  }

  /** Text outside the hunks is the same in both files. */
  lemma {:induction false} GapEqual(base: seq<string>, head: seq<string>, p: nat, q: nat, hunks: seq<Hunk>, t: nat)
    requires TakesFrom(base, head, p, q, hunks)
    requires p + t <= |base|
    requires hunks != [] ==> p + t <= hunks[0].header.start1 - 1
    ensures q + t <= |head| && base[p..p + t] == head[q..q + t]
  {
    var stop1 := if hunks == [] then |base| else hunks[0].header.start1 - 1;
    var stop2 := if hunks == [] then |head| else hunks[0].header.start2 - 1;
    assert hunks == [] ==> base[p..stop1] == base[p..] && head[q..stop2] == head[q..];
    assert base[p..stop1] == head[q..stop2];
    assert |base[p..stop1]| == |head[q..stop2]|;
    assert base[p..p + t] == base[p..stop1][..t];
    assert head[q..q + t] == head[q..stop2][..t];
  }
}
