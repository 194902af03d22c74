/** What an extended hunk is, case by case: where it starts, the lines it is given, its counts and its section text. */
module ExtendedHunks {
  import opened PyText
  import opened UnifiedDiff
  import opened GrownHunks
  import opened ExtendPatch
  import opened ExtendMeaning

  // ---------- what a hunk is given ----------

  /** The last n of the first `at` lines of a file. */
  function LinesBefore(file: seq<string>, at: int, n: int): (r: seq<string>)
    requires 0 <= n <= at <= |file|
    ensures |r| == n
  {
    file[at - n..at]
  }

  /** The range a hunk has with n1 and n2 lines before it and t lines after it. */
  function Around2(h: Header, n1: int, n2: int, t: int): Range {
    Range(h.start1 - n1, h.Size1() + n1 + t, h.start2 - n2, h.Size2() + n2 + t)
  }

  /** A hunk under a new header, between the given lines and the `t` lines that follow it in the old file. */
  function Dressed(base: seq<string>, h: Hunk, c: Context, t: nat): Hunk
    requires Placed(base, h.header) && h.header.start1 - 1 + h.header.Size1() + t <= |base|
  {
    var end := h.header.start1 - 1 + h.header.Size1();
    Hunk(Header(c.range.start1, Some(c.range.size1), c.range.start2, Some(c.range.size2), c.section),
         CtxLines(c.before) + h.body + CtxLines(base[end..end + t]))
  }

  /** The section text stands in line j (counted from 1). */
  ghost predicate SectionIn(base: seq<string>, section: string, j: int) {
    1 <= j <= |base| && HasPart(section, base[j - 1])
  }

  /** Line k is the first of the last `reach` lines before the hunk that holds its section text. */
  ghost predicate FirstWithSection(base: seq<string>, h: Header, reach: nat, k: int) {
    && Max(1, h.start1 - reach) <= k < h.start1 && SectionIn(base, h.section, k)
    && forall j :: Max(1, h.start1 - reach) <= j < k ==> !SectionIn(base, h.section, j)
  }

  /** The n lines before the hunk are the same in both files. */
  ghost predicate SameBefore(base: seq<string>, head: seq<string>, h: Header, n: int) {
    && 0 <= n < h.start1 <= |base| + 1 && n < h.start2 <= |head| + 1
    && LinesBefore(base, h.start1 - 1, n) == LinesBefore(head, h.start2 - 1, n)
  }

  /** In the dynamic mode the hunk starts at line k: the section text stands there first, both files have equally many lines
      within reach before the hunk, and they agree from that line on. */
  ghost predicate StartsAtSection(cfg: Config, base: seq<string>, head: seq<string>, h: Header, k: int) {
    && cfg.dynamic && head != []
    && FirstWithSection(base, h, cfg.dynamicBefore, k)
    && Min(cfg.dynamicBefore, h.start1 - 1) == Min(cfg.dynamicBefore, h.start2 - 1)
    && SameBefore(base, head, h, h.start1 - k)
  }

  /** Of the n lines before the hunk the last m are the same in both files, and the one before these is not. */
  ghost predicate LastAgree(base: seq<string>, head: seq<string>, h: Header, n: nat, m: nat) {
    && n < h.start1 <= |base| + 1 && n < h.start2 <= |head| + 1 && m <= n && SameBefore(base, head, h, m)
    && (m < n ==> base[h.start1 - 2 - m] != head[h.start2 - 2 - m])
  }

  /** The section text that is left when the lines `lead` are put before the hunk. */
  ghost function SectionAfter(cfg: Config, section: string, lead: seq<string>): string {
    if !cfg.dynamic && exists i :: 0 <= i < |lead| && HasPart(section, " " + lead[i]) then "" else section
  }

  /** The hunk with n1 lines of the old file before it, its new start moved up by n2. */
  ghost function Led(cfg: Config, base: seq<string>, h: Header, n1: int, n2: int, section: string): Context
    requires Placed(base, h) && 0 <= n1 < h.start1
  {
    var lead := LinesBefore(base, h.start1 - 1, n1);
    Context(Around2(h, n1, n2, Room(cfg, base, h)), lead, SectionAfter(cfg, section, lead))
  }

  /** The hunk with its own range. */
  function Unled(h: Header): Context { Context(OwnRange(h), [], h.section) }

  /** What is put around a hunk in the fixed way, when there are n1 lines of those asked for before it in the old file and
      n2 in the new: all of them without the new file; with it the last ones on which both files agree, if there are
      equally many and some agree or none are asked for; otherwise the hunk keeps its range. */
  ghost predicate IsFixed(cfg: Config, base: seq<string>, shown: seq<string>, h: Header, n1: nat, n2: nat, c: Context)
    requires Placed(base, h) && n1 < h.start1
  {
    if shown == [] then c == Led(cfg, base, h, n1, n2, h.section)
    else if n1 != n2 then c == Unled(h)
    else
      exists m: nat :: LastAgree(base, shown, h, n1, m) &&
                       c == if m > 0 || n1 == 0 then Led(cfg, base, h, m, m, h.section) else Unled(h)
  }

  /** What is put around a hunk that matches its file: in the dynamic mode the lines from the one with its section text on,
      where that is found, and no section text; otherwise as in the fixed way. */
  ghost predicate IsContext(cfg: Config, base: seq<string>, shown: seq<string>, h: Header, c: Context)
    requires Placed(base, h)
  {
    && (forall k :: StartsAtSection(cfg, base, shown, h, k) ==> c == Led(cfg, base, h, h.start1 - k, h.start1 - k, ""))
    && ((forall k :: !StartsAtSection(cfg, base, shown, h, k)) ==>
          IsFixed(cfg, base, shown, h, Min(cfg.before, h.start1 - 1), Min(cfg.before, h.start2 - 1), c))
  }

  // ---------- windows ----------

  lemma {:induction false} LimitsAre(h: Header, baseLen: nat, after: nat, reach: nat)
    requires 1 <= h.start1 && 1 <= h.start2 && 0 <= h.Size1() && 0 <= h.Size2() && h.start1 - 1 + h.Size1() <= baseLen
    ensures Limits(h, baseLen, after, reach) ==
            Around2(h, Min(reach, h.start1 - 1), Min(reach, h.start2 - 1), Min(after, baseLen - (h.start1 - 1 + h.Size1())))
  {
  }

  lemma {:induction false} WindowsAre(base: seq<string>, head: seq<string>, h: Header, n1: nat, n2: nat, t: int)
    requires n1 < h.start1 <= |base| + 1 && n2 < h.start2 <= |head| + 1
    ensures Window1(base, Around2(h, n1, n2, t), h) == LinesBefore(base, h.start1 - 1, n1)
    ensures Window2(head, Around2(h, n1, n2, t), h) == LinesBefore(head, h.start2 - 1, n2)
  {
    SliceInside(base, h.start1 - 1 - n1, h.start1 - 1);
    SliceInside(head, h.start2 - 1 - n2, h.start2 - 1);
  }

  /** The last m of the n lines before some place. */
  lemma {:induction false} LastOfWindow(file: seq<string>, at: int, n: int, m: int)
    requires 0 <= m <= n <= at <= |file|
    ensures LinesBefore(file, at, n)[n - m..] == LinesBefore(file, at, m)
    ensures m < n ==> LinesBefore(file, at, n)[n - m - 1] == file[at - m - 1]
  {
    Middle(file, at - n, at, at - m, at);
    assert file[at - n..at][n - m..] == file[at - n..at][n - m..n];
  }

  // ---------- the dynamic start ----------

  ghost predicate SameTail(lines1: seq<string>, lines2: seq<string>, i: nat)
    requires i <= |lines1|
  {
    lines1[i..] == Slice(lines2, i, |lines2|)
  }

  lemma {:induction false} SliceToEnd(lines: seq<string>, i: nat)
    ensures Slice(lines, i, |lines|) == if i <= |lines| then lines[i..] else []
  {
  }

  lemma {:induction false} SameTailIs(base: seq<string>, head: seq<string>, at1: int, at2: int, n1: int, n2: int, m: int)
    requires 0 < m <= n1 <= at1 <= |base| && 0 <= n2 <= at2 <= |head|
    ensures SameTail(LinesBefore(base, at1, n1), LinesBefore(head, at2, n2), n1 - m) <==>
            n1 == n2 && LinesBefore(base, at1, m) == LinesBefore(head, at2, m)
  {
    SliceToEnd(LinesBefore(head, at2, n2), n1 - m);
    LastOfWindow(base, at1, n1, m);
    if n1 == n2 {
      LastOfWindow(head, at2, n2, m);
    }
  }

  lemma {:induction false} FirstHolding(section: string, texts: seq<string>, i: nat)
    requires i < |texts|
    ensures FirstWith(section, texts) == Some(i) <==>
            HasPart(section, texts[i]) && forall j :: 0 <= j < i ==> !HasPart(section, texts[j])
  {
    forall j | 0 <= j < |texts| ensures Contains(section, texts[j]) <==> HasPart(section, texts[j]) {
      ContainsExactly(section, texts[j]);
    }
    if HasPart(section, texts[i]) && forall j :: 0 <= j < i ==> !HasPart(section, texts[j]) {
      FirstWithIs(section, texts, Some(i));
    }
  }

  lemma {:induction false} FirstInWindow(base: seq<string>, h: Header, reach: nat, k: int, n: int)
    requires 1 <= h.start1 <= |base| + 1 && n == Min(reach, h.start1 - 1) && h.start1 - n <= k < h.start1
    ensures FirstWith(h.section, LinesBefore(base, h.start1 - 1, n)) == Some(k - (h.start1 - n)) <==>
            FirstWithSection(base, h, reach, k)
  {
    var lo, lines := h.start1 - n, LinesBefore(base, h.start1 - 1, n);
    FirstHolding(h.section, lines, k - lo);
    forall j | lo <= j < h.start1 ensures SectionIn(base, h.section, j) <==> HasPart(h.section, lines[j - lo]) {
      assert lines[j - lo] == base[j - 1];
    }
    forall j | 0 <= j < n ensures SectionIn(base, h.section, j + lo) <==> HasPart(h.section, lines[j]) {
      assert lines[j] == base[j + lo - 1];
    }
  }

  /** The offset found in two windows. */
  function Offset(section: string, lines1: seq<string>, lines2: seq<string>): Option<nat> {
    var at := FirstWith(section, lines1);
    if at.Some? && lines1[at.value..] == Slice(lines2, at.value, |lines2|) then at else None
  }


  lemma {:induction false} OffsetIn(cfg: Config, base: seq<string>, head: seq<string>, h: Header, lines1: seq<string>,
                                    lines2: seq<string>)
    requires lines1 == Window1(base, Limits(h, |base|, cfg.after, cfg.dynamicBefore), h)
    requires lines2 == Window2(head, Limits(h, |base|, cfg.after, cfg.dynamicBefore), h)
    ensures DynamicOffset(cfg, base, head, h) == Offset(h.section, lines1, lines2)
  {
  }

  lemma {:induction false} SameTailBefore(base: seq<string>, head: seq<string>, h: Header, n1: int, n2: int, m: int)
    requires 0 < m <= n1 < h.start1 <= |base| + 1 && 0 <= n2 < h.start2 <= |head| + 1
    ensures SameTail(LinesBefore(base, h.start1 - 1, n1), LinesBefore(head, h.start2 - 1, n2), n1 - m) <==>
            n1 == n2 && SameBefore(base, head, h, m)
  {
    SameTailIs(base, head, h.start1 - 1, h.start2 - 1, n1, n2, m);
  }

  lemma {:induction false} OffsetFrom(section: string, lines1: seq<string>, lines2: seq<string>, i: nat, first: bool,
                                      same: bool)
    requires i < |lines1| && (FirstWith(section, lines1) == Some(i) <==> first) && (SameTail(lines1, lines2, i) <==> same)
    ensures Offset(section, lines1, lines2) == Some(i) <==> first && same
  {
  }

  lemma {:induction false} OffsetExactly(cfg: Config, base: seq<string>, head: seq<string>, h: Header, n1: int, n2: int,
                                         k: int)
    requires cfg.dynamic && head != [] && 1 <= h.start1 <= |base| + 1 && 1 <= h.start2 <= |head| + 1
    requires n1 == Min(cfg.dynamicBefore, h.start1 - 1) && n2 == Min(cfg.dynamicBefore, h.start2 - 1)
    requires h.start1 - n1 <= k < h.start1
    ensures var at := Offset(h.section, LinesBefore(base, h.start1 - 1, n1), LinesBefore(head, h.start2 - 1, n2));
            at == Some(k - (h.start1 - n1)) <==> StartsAtSection(cfg, base, head, h, k)
  {
    FirstInWindow(base, h, cfg.dynamicBefore, k, n1);
    SameTailBefore(base, head, h, n1, n2, h.start1 - k);
    OffsetFrom(h.section, LinesBefore(base, h.start1 - 1, n1), LinesBefore(head, h.start2 - 1, n2), k - (h.start1 - n1),
               FirstWithSection(base, h, cfg.dynamicBefore, k), n1 == n2 && SameBefore(base, head, h, h.start1 - k));
  }

  lemma {:induction false} DynamicIs(cfg: Config, base: seq<string>, head: seq<string>, h: Header, n1: int, n2: int)
    requires Placed(base, h) && h.start2 <= |head| + 1
    requires n1 == Min(cfg.dynamicBefore, h.start1 - 1) && n2 == Min(cfg.dynamicBefore, h.start2 - 1)
    ensures DynamicOffset(cfg, base, head, h) ==
            Offset(h.section, LinesBefore(base, h.start1 - 1, n1), LinesBefore(head, h.start2 - 1, n2))
  {
    LimitsAre(h, |base|, cfg.after, cfg.dynamicBefore);
    WindowsAre(base, head, h, n1, n2, Room(cfg, base, h));
    OffsetIn(cfg, base, head, h, LinesBefore(base, h.start1 - 1, n1), LinesBefore(head, h.start2 - 1, n2));
  }

  // ---------- the range chosen ----------

  /** The range before old and new lines are compared, and the section text it leaves. */
  ghost predicate IsChosen(cfg: Config, base: seq<string>, shown: seq<string>, h: Header, r: Range, section: string)
    requires Placed(base, h)
  {
    var t := Room(cfg, base, h);
    && (forall k :: StartsAtSection(cfg, base, shown, h, k) ==>
          r == Around2(h, h.start1 - k, h.start1 - k, t) && section == "")
    && ((forall k :: !StartsAtSection(cfg, base, shown, h, k)) ==>
          r == Around2(h, Min(cfg.before, h.start1 - 1), Min(cfg.before, h.start2 - 1), t) && section == h.section)
  }

  lemma {:induction false} ChosenUnfolds(cfg: Config, base: seq<string>, head: seq<string>, h: Header, at: Option<nat>,
                                         wide: Range, asked: Range, r: Range, section: string)
    requires cfg.dynamic && head != [] && at == DynamicOffset(cfg, base, head, h)
    requires wide == Limits(h, |base|, cfg.after, cfg.dynamicBefore) && asked == Limits(h, |base|, cfg.after, cfg.before)
    requires (r, section) == Chosen(cfg, base, head, h)
    ensures if at.Some? then r == wide.Drop(at.value) && section == "" else r == asked && section == h.section
  {
  }

  lemma {:induction false} DropIs(h: Header, n1: int, n2: int, t: int, i: int)
    ensures Around2(h, n1, n2, t).Drop(i) == Around2(h, n1 - i, n2 - i, t)
  {
  }

  lemma {:induction false} OffsetInside(section: string, lines1: seq<string>, lines2: seq<string>)
    ensures var at := Offset(section, lines1, lines2); at.Some? ==> at.value < |lines1|
  {
  }

  /** A range that starts `at` lines into the dynamic windows, or the one asked for. */
  lemma {:induction false} IsChosenAt(cfg: Config, base: seq<string>, head: seq<string>, h: Header, n1: int, n2: int,
                                      at: Option<nat>, r: Range, section: string)
    requires Placed(base, h) && cfg.dynamic && head != [] && h.start2 <= |head| + 1
    requires n1 == Min(cfg.dynamicBefore, h.start1 - 1) && n2 == Min(cfg.dynamicBefore, h.start2 - 1)
    requires at == Offset(h.section, LinesBefore(base, h.start1 - 1, n1), LinesBefore(head, h.start2 - 1, n2))
    requires if at.Some? then r == Around2(h, n1, n2, Room(cfg, base, h)).Drop(at.value) && section == ""
             else r == Around2(h, Min(cfg.before, h.start1 - 1), Min(cfg.before, h.start2 - 1), Room(cfg, base, h))
                  && section == h.section
    ensures IsChosen(cfg, base, head, h, r, section)
  {
    forall k | StartsAtSection(cfg, base, head, h, k) ensures at == Some(k - (h.start1 - n1)) && n1 == n2 {
      OffsetExactly(cfg, base, head, h, n1, n2, k);
    }
    if at.Some? {
      OffsetInside(h.section, LinesBefore(base, h.start1 - 1, n1), LinesBefore(head, h.start2 - 1, n2));
      OffsetExactly(cfg, base, head, h, n1, n2, at.value + h.start1 - n1);
      DropIs(h, n1, n2, Room(cfg, base, h), at.value);
    }
  }

  lemma {:induction false} ChosenFixed(cfg: Config, base: seq<string>, shown: seq<string>, h: Header)
    requires Placed(base, h) && (!cfg.dynamic || shown == [])
    ensures IsChosen(cfg, base, shown, h, Chosen(cfg, base, shown, h).0, Chosen(cfg, base, shown, h).1)
  {
    LimitsAre(h, |base|, cfg.after, cfg.before);
  }

  lemma {:induction false} ChosenDynamic(cfg: Config, base: seq<string>, head: seq<string>, h: Header, r: Range,
                                         section: string)
    requires Placed(base, h) && cfg.dynamic && head != [] && h.start2 <= |head| + 1
    requires (r, section) == Chosen(cfg, base, head, h)
    ensures IsChosen(cfg, base, head, h, r, section)
  {
    var n1, n2 := Min(cfg.dynamicBefore, h.start1 - 1), Min(cfg.dynamicBefore, h.start2 - 1);
    var at := Offset(h.section, LinesBefore(base, h.start1 - 1, n1), LinesBefore(head, h.start2 - 1, n2));
    DynamicIs(cfg, base, head, h, n1, n2);
    ChosenUnfolds(cfg, base, head, h, at, Limits(h, |base|, cfg.after, cfg.dynamicBefore),
                  Limits(h, |base|, cfg.after, cfg.before), r, section);
    LimitsAre(h, |base|, cfg.after, cfg.dynamicBefore);
    LimitsAre(h, |base|, cfg.after, cfg.before);
    IsChosenAt(cfg, base, head, h, n1, n2, at, r, section);
  }

  lemma {:induction false} ChosenExactly(cfg: Config, base: seq<string>, shown: seq<string>, h: Header, r: Range,
                                         section: string)
    requires Placed(base, h) && (shown != [] ==> h.start2 <= |shown| + 1)
    requires (r, section) == Chosen(cfg, base, shown, h)
    ensures IsChosen(cfg, base, shown, h, r, section)
  {
    if cfg.dynamic && shown != [] {
      ChosenDynamic(cfg, base, shown, h, r, section);
    } else {
      ChosenFixed(cfg, base, shown, h);
    }
  }

  // ---------- the lines put before a hunk ----------

  lemma {:induction false} TailIs(a: seq<string>, b: seq<string>, m: nat)
    requires |a| == |b| && m <= |a| && a[|a| - m..] == b[|a| - m..]
    requires m < |a| ==> a[|a| - m - 1] != b[|a| - m - 1]
    ensures CommonTail(a, b) == m && (a == b <==> m == |a|)
  {
    if m > 0 {
      var n := |a| - 1;
      assert a[|a| - m..][m - 1] == a[n] && b[|a| - m..][m - 1] == b[n];
      assert a[..n][n - (m - 1)..] == a[|a| - m..][..m - 1] && b[..n][n - (m - 1)..] == b[|a| - m..][..m - 1];
      TailIs(a[..n], b[..n], m - 1);
      assert a == a[..n] + [a[n]] && b == b[..n] + [b[n]];
    }
  }

  lemma {:induction false} AgreedTailIs(base: seq<string>, head: seq<string>, h: Header, r: Range, lines1: seq<string>,
                                        lines2: seq<string>, m: nat)
    requires lines1 == Window1(base, r, h) && lines2 == Window2(head, r, h) && head != []
    requires m <= |lines1| && CommonTail(lines1, lines2) == m && (lines1 == lines2 <==> m == |lines1|)
    ensures Agreed(base, head, h, r) ==
            if m > 0 || |lines1| == 0 then (r.Drop(|lines1| - m), lines1[|lines1| - m..]) else (OwnRange(h), [])
  {
  }

  lemma {:induction false} TailsIn(base: seq<string>, head: seq<string>, h: Header, n: nat, m: nat)
    requires LastAgree(base, head, h, n, m)
    ensures var lines1, lines2 := LinesBefore(base, h.start1 - 1, n), LinesBefore(head, h.start2 - 1, n);
            && CommonTail(lines1, lines2) == m && (lines1 == lines2 <==> m == n)
            && lines1[n - m..] == LinesBefore(base, h.start1 - 1, m)
  {
    LastOfWindow(base, h.start1 - 1, n, m);
    LastOfWindow(head, h.start2 - 1, n, m);
    TailIs(LinesBefore(base, h.start1 - 1, n), LinesBefore(head, h.start2 - 1, n), m);
  }

  lemma {:induction false} AgreedLast(base: seq<string>, head: seq<string>, h: Header, n: nat, m: nat, t: int)
    requires head != [] && LastAgree(base, head, h, n, m)
    ensures Agreed(base, head, h, Around2(h, n, n, t)) ==
            if m > 0 || n == 0 then (Around2(h, m, m, t), LinesBefore(base, h.start1 - 1, m)) else (OwnRange(h), [])
  {
    WindowsAre(base, head, h, n, n, t);
    TailsIn(base, head, h, n, m);
    AgreedTailIs(base, head, h, Around2(h, n, n, t), LinesBefore(base, h.start1 - 1, n),
                 LinesBefore(head, h.start2 - 1, n), m);
    assert Around2(h, n, n, t).Drop(n - m) == Around2(h, m, m, t);
  }

  lemma {:induction false} AgreedApart(base: seq<string>, head: seq<string>, h: Header, n1: nat, n2: nat, t: int)
    requires n1 < h.start1 <= |base| + 1 && n2 < h.start2 <= |head| + 1 && head != [] && n1 != n2
    ensures Agreed(base, head, h, Around2(h, n1, n2, t)) == (OwnRange(h), [])
  {
    WindowsAre(base, head, h, n1, n2, t);
  }

  lemma {:induction false} AgreedAlone(base: seq<string>, h: Header, n1: nat, n2: nat, t: int)
    requires n1 < h.start1 <= |base| + 1
    ensures Agreed(base, [], h, Around2(h, n1, n2, t)) == (Around2(h, n1, n2, t), LinesBefore(base, h.start1 - 1, n1))
  {
    SliceInside(base, h.start1 - 1 - n1, h.start1 - 1);
  }

  lemma {:induction false} SectionLeftIs(cfg: Config, section: string, lead: seq<string>)
    ensures SectionLeft(cfg, section, lead) == SectionAfter(cfg, section, lead)
  {
    var texts := Spaced(lead);
    forall i | 0 <= i < |lead| ensures Contains(section, texts[i]) <==> HasPart(section, " " + lead[i]) {
      ContainsExactly(section, texts[i]);
    }
  }

  /** What is put around a hunk, from the range that was chosen. */
  function ContextFrom(cfg: Config, base: seq<string>, shown: seq<string>, h: Header, r: Range, section: string)
    : Context {
    var (range, before) := Agreed(base, shown, h, r);
    Context(range, before, SectionLeft(cfg, section, before))
  }

  lemma {:induction false} SomeAgree(base: seq<string>, head: seq<string>, h: Header, n: nat) returns (m: nat)
    requires n < h.start1 <= |base| + 1 && n < h.start2 <= |head| + 1
    ensures LastAgree(base, head, h, n, m)
  {
    m := 0;
    while m < n && base[h.start1 - 2 - m] == head[h.start2 - 2 - m]
      invariant m <= n && SameBefore(base, head, h, m)
    {
      OneLonger(base, h.start1 - 1, m);
      OneLonger(head, h.start2 - 1, m);
      m := m + 1;
    }
  }

  lemma {:induction false} OneLonger(file: seq<string>, at: int, m: nat)
    requires m < at <= |file|
    ensures LinesBefore(file, at, m + 1) == [file[at - 1 - m]] + LinesBefore(file, at, m)
  {
  }

  lemma {:induction false} AllAgree(base: seq<string>, head: seq<string>, h: Header, n: nat)
    requires SameBefore(base, head, h, n)
    ensures LastAgree(base, head, h, n, n)
  {
  }

  /** The lines from the one with the section text on. */
  lemma {:induction false} FromSection(cfg: Config, base: seq<string>, head: seq<string>, h: Header, n: nat)
    requires Placed(base, h) && head != [] && SameBefore(base, head, h, n)
    ensures ContextFrom(cfg, base, head, h, Around2(h, n, n, Room(cfg, base, h)), "") == Led(cfg, base, h, n, n, "")
  {
    AllAgree(base, head, h, n);
    AgreedLast(base, head, h, n, n, Room(cfg, base, h));
    SectionLeftIs(cfg, "", LinesBefore(base, h.start1 - 1, n));
  }

  lemma {:induction false} ContextFromIs(cfg: Config, base: seq<string>, head: seq<string>, h: Header, r: Range,
                                         section: string, range: Range, before: seq<string>)
    requires Agreed(base, head, h, r) == (range, before)
    ensures ContextFrom(cfg, base, head, h, r, section) == Context(range, before, SectionAfter(cfg, section, before))
  {
    SectionLeftIs(cfg, section, before);
  }

  lemma {:induction false} FromAgreeing(cfg: Config, base: seq<string>, head: seq<string>, h: Header, n: nat, m: nat)
    requires Placed(base, h) && head != [] && LastAgree(base, head, h, n, m)
    ensures ContextFrom(cfg, base, head, h, Around2(h, n, n, Room(cfg, base, h)), h.section) ==
            if m > 0 || n == 0 then Led(cfg, base, h, m, m, h.section) else Unled(h)
  {
    var r, t := Around2(h, n, n, Room(cfg, base, h)), Room(cfg, base, h);
    AgreedLast(base, head, h, n, m, t);
    if m > 0 || n == 0 {
      ContextFromIs(cfg, base, head, h, r, h.section, Around2(h, m, m, t), LinesBefore(base, h.start1 - 1, m));
    } else {
      ContextFromIs(cfg, base, head, h, r, h.section, OwnRange(h), []);
    }
  }

  /** In the fixed way. */
  lemma {:induction false} FromFixed(cfg: Config, base: seq<string>, shown: seq<string>, h: Header, n1: nat, n2: nat)
    requires Placed(base, h) && n1 < h.start1 && n2 < h.start2 && (shown != [] ==> h.start2 <= |shown| + 1)
    ensures IsFixed(cfg, base, shown, h, n1, n2,
                    ContextFrom(cfg, base, shown, h, Around2(h, n1, n2, Room(cfg, base, h)), h.section))
  {
    var t := Room(cfg, base, h);
    if shown == [] {
      AgreedAlone(base, h, n1, n2, t);
      SectionLeftIs(cfg, h.section, LinesBefore(base, h.start1 - 1, n1));
    } else if n1 != n2 {
      AgreedApart(base, shown, h, n1, n2, t);
      SectionLeftIs(cfg, h.section, []);
    } else {
      var m := SomeAgree(base, shown, h, n1);
      FromAgreeing(cfg, base, shown, h, n1, m);
    }
  }

  lemma {:induction false} FromChosen(cfg: Config, base: seq<string>, shown: seq<string>, h: Header, r: Range,
                                      section: string)
    requires Placed(base, h) && (shown != [] ==> h.start2 <= |shown| + 1) && IsChosen(cfg, base, shown, h, r, section)
    ensures IsContext(cfg, base, shown, h, ContextFrom(cfg, base, shown, h, r, section))
  {
    var c := ContextFrom(cfg, base, shown, h, r, section);
    forall k | StartsAtSection(cfg, base, shown, h, k)
      ensures c == Led(cfg, base, h, h.start1 - k, h.start1 - k, "")
    {
      FromSection(cfg, base, shown, h, h.start1 - k);
    }
    if forall k :: !StartsAtSection(cfg, base, shown, h, k) {
      FromFixed(cfg, base, shown, h, Min(cfg.before, h.start1 - 1), Min(cfg.before, h.start2 - 1));
    }
  }

  lemma {:induction false} ContextExactly(cfg: Config, base: seq<string>, shown: seq<string>, h: Header, r: Range,
                                          section: string)
    requires Placed(base, h) && (shown != [] ==> h.start2 <= |shown| + 1)
    requires (r, section) == Chosen(cfg, base, shown, h)
    ensures ContextOf(cfg, base, shown, h) == ContextFrom(cfg, base, shown, h, r, section)
    ensures IsContext(cfg, base, shown, h, ContextFrom(cfg, base, shown, h, r, section))
  {
    ChosenExactly(cfg, base, shown, h, r, section);
    FromChosen(cfg, base, shown, h, r, section);
  }

  // ---------- the hunks of a patch ----------

  lemma {:induction false} ExtendIs(cfg: Config, base: seq<string>, shown: seq<string>, h: Hunk, c: Context,
                                    after: seq<string>)
    requires Around(cfg, base, shown, h) == c && Trailing(cfg, base, h) == after
    ensures ExtendHunk(cfg, base, shown, h) == Hunk(NewHeader(c), CtxLines(c.before) + h.body + CtxLines(after))
  {
  }

  lemma {:induction false} FitsPlaced(base: seq<string>, head: seq<string>, h: Hunk)
    requires HunkFits(base, head, h)
    ensures Placed(base, h.header) && h.header.start2 - 1 <= |head|
  {
  }

  lemma {:induction false} AroundIs(cfg: Config, base: seq<string>, head: seq<string>, shown: seq<string>, h: Hunk)
    requires HunkFits(base, head, h) && (cfg.before > 0 || cfg.after > 0)
    ensures Around(cfg, base, shown, h) == ContextOf(cfg, base, shown, h.header)
  {
    MatchesItsFile(base, head, h);
  }

  lemma {:induction false} TrailingIs(cfg: Config, base: seq<string>, head: seq<string>, h: Hunk)
    requires HunkFits(base, head, h)
    ensures var end, t := h.header.start1 - 1 + h.header.Size1(), Room(cfg, base, h.header);
            Trailing(cfg, base, h) == base[end..end + t]
  {
    MatchesItsFile(base, head, h);
    SliceClamped(base, h.header.start1 - 1 + h.header.Size1(), cfg.after);
  }

  lemma {:induction false} DressedIs(cfg: Config, base: seq<string>, shown: seq<string>, h: Hunk, c: Context, t: nat,
                                     after: seq<string>)
    requires Placed(base, h.header) && h.header.start1 - 1 + h.header.Size1() + t <= |base|
    requires var end := h.header.start1 - 1 + h.header.Size1(); after == base[end..end + t]
    requires Around(cfg, base, shown, h) == c && Trailing(cfg, base, h) == after
    ensures ExtendHunk(cfg, base, shown, h) == Dressed(base, h, c, t)
  {
    ExtendIs(cfg, base, shown, h, c, after);
  }

  lemma {:induction false} HunkDressed(cfg: Config, base: seq<string>, head: seq<string>, shown: seq<string>, h: Hunk,
                                       c: Context)
    requires HunkFits(base, head, h) && (cfg.before > 0 || cfg.after > 0) && c == ContextOf(cfg, base, shown, h.header)
    ensures Placed(base, h.header) && ExtendHunk(cfg, base, shown, h) == Dressed(base, h, c, Room(cfg, base, h.header))
  {
    var end, t := h.header.start1 - 1 + h.header.Size1(), Room(cfg, base, h.header);
    FitsPlaced(base, head, h);
    AroundIs(cfg, base, head, shown, h);
    TrailingIs(cfg, base, head, h);
    DressedIs(cfg, base, shown, h, c, t, base[end..end + t]);
  }

  /** Every hunk of an extended patch is what it should be: for every well-formed patch, with or without the new file, in the
      dynamic and the fixed mode. */
  lemma {:induction false} EveryHunkExtended(cfg: Config, base: seq<string>, head: seq<string>, shown: seq<string>,
                                             hunks: seq<Hunk>, i: nat)
    returns (c: Context)
    requires Takes(base, head, hunks) && (shown == head || shown == []) && i < |hunks|
    requires cfg.before > 0 || cfg.after > 0
    ensures var es, h := HunksIn(Processed(cfg, base, shown, Flatten(hunks))), hunks[i];
            && |es| == |hunks| && Placed(base, h.header) && IsContext(cfg, base, shown, h.header, c)
            && es[i] == Dressed(base, h, c, Room(cfg, base, h.header))
  {
    ExtendedHunksIn(cfg, base, head, shown, hunks);
    TakesMember(base, head, 0, 0, hunks, i);
    c := OneExtended(cfg, base, head, shown, hunks[i]);
  }

  lemma {:induction false} OneExtended(cfg: Config, base: seq<string>, head: seq<string>, shown: seq<string>, h: Hunk)
    returns (c: Context)
    requires HunkFits(base, head, h) && (cfg.before > 0 || cfg.after > 0) && (shown == head || shown == [])
    ensures Placed(base, h.header) && IsContext(cfg, base, shown, h.header, c)
    ensures ExtendHunk(cfg, base, shown, h) == Dressed(base, h, c, Room(cfg, base, h.header))
  {
    var (r, section) := Chosen(cfg, base, shown, h.header);
    FitsPlaced(base, head, h);
    ContextExactly(cfg, base, shown, h.header, r, section);
    c := ContextFrom(cfg, base, shown, h.header, r, section);
    HunkDressed(cfg, base, head, shown, h, c);
  }

  /** So in the dynamic mode, where the section text of a hunk is found at line k: the hunk starts there, in both files
      equally far up, its first line is that line, and it shows no section text. */
  lemma {:induction false} StartsThere(cfg: Config, base: seq<string>, head: seq<string>, hunks: seq<Hunk>, i: nat,
                                       k: int)
    requires Takes(base, head, hunks) && i < |hunks| && (cfg.before > 0 || cfg.after > 0)
    requires StartsAtSection(cfg, base, head, hunks[i].header, k)
    ensures var es := HunksIn(Processed(cfg, base, head, Flatten(hunks)));
            && |es| == |hunks| && es[i].header.start1 == k && es[i].header.section == ""
            && hunks[i].header.start2 - es[i].header.start2 == hunks[i].header.start1 - k
            && es[i].body != [] && es[i].body[0] == Ctx(base[k - 1])
  {
    var c := EveryHunkExtended(cfg, base, head, head, hunks, i);
    FirstLine(base, hunks[i], c, Room(cfg, base, hunks[i].header));
    assert c.before[0] == base[k - 1];
  }

  lemma {:induction false} FirstLine(base: seq<string>, h: Hunk, c: Context, t: nat)
    requires Placed(base, h.header) && h.header.start1 - 1 + h.header.Size1() + t <= |base| && c.before != []
    ensures Dressed(base, h, c, t).body != [] && Dressed(base, h, c, t).body[0] == Ctx(c.before[0])
  {
    assert CtxLines(c.before)[0] == Ctx(c.before[0]);
  }

  // ---------- the dynamic mode against the fixed one ----------

  lemma {:induction false} SameContext(cfg: Config, fixed: Config, base: seq<string>, shown: seq<string>, h: Header)
    requires cfg.dynamic && fixed == cfg.(dynamic := false)
    requires Chosen(cfg, base, shown, h) == Chosen(fixed, base, shown, h) && Chosen(cfg, base, shown, h).1 == h.section
    ensures ContextOf(cfg, base, shown, h) == ContextOf(fixed, base, shown, h).(section := h.section)
  {
  }

  lemma {:induction false} SameChosen(cfg: Config, fixed: Config, base: seq<string>, shown: seq<string>, h: Header)
    requires Placed(base, h) && (shown != [] ==> h.start2 <= |shown| + 1)
    requires cfg.dynamic && fixed == cfg.(dynamic := false) && forall k :: !StartsAtSection(cfg, base, shown, h, k)
    ensures Chosen(cfg, base, shown, h) == Chosen(fixed, base, shown, h) && Chosen(cfg, base, shown, h).1 == h.section
  {
    var (r, section) := Chosen(cfg, base, shown, h);
    ChosenExactly(cfg, base, shown, h, r, section);
    ChosenFixed(fixed, base, shown, h);
    assert forall k :: !StartsAtSection(fixed, base, shown, h, k);
  }

  /** Where the section text is not found so, the dynamic mode comes to what the fixed one does, but keeps the section
      text. */
  lemma {:induction false} OtherwiseFixed(cfg: Config, fixed: Config, base: seq<string>, shown: seq<string>, h: Hunk)
    requires Placed(base, h.header) && (shown != [] ==> h.header.start2 <= |shown| + 1)
    requires cfg.dynamic && fixed == cfg.(dynamic := false)
    requires forall k :: !StartsAtSection(cfg, base, shown, h.header, k)
    ensures var e, f := ExtendHunk(cfg, base, shown, h), ExtendHunk(fixed, base, shown, h);
            e.body == f.body && e.header == f.header.(section := h.header.section)
  {
    SameChosen(cfg, fixed, base, shown, h.header);
    SameContext(cfg, fixed, base, shown, h.header);
    SameAround(cfg, fixed, base, shown, h);
  }

  lemma {:induction false} SameContexts(cfg: Config, fixed: Config, base: seq<string>, shown: seq<string>, h: Hunk)
    requires fixed == cfg.(dynamic := false)
    requires ContextOf(cfg, base, shown, h.header) == ContextOf(fixed, base, shown, h.header).(section := h.header.section)
    ensures Around(cfg, base, shown, h) == Around(fixed, base, shown, h).(section := h.header.section)
    ensures Trailing(cfg, base, h) == Trailing(fixed, base, h)
  {
  }

  lemma {:induction false} SameAround(cfg: Config, fixed: Config, base: seq<string>, shown: seq<string>, h: Hunk)
    requires fixed == cfg.(dynamic := false)
    requires ContextOf(cfg, base, shown, h.header) == ContextOf(fixed, base, shown, h.header).(section := h.header.section)
    ensures var e, f := ExtendHunk(cfg, base, shown, h), ExtendHunk(fixed, base, shown, h);
            e.body == f.body && e.header == f.header.(section := h.header.section)
  {
    var d, after := Around(fixed, base, shown, h), Trailing(fixed, base, h);
    SameContexts(cfg, fixed, base, shown, h);
    ExtendIs(fixed, base, shown, h, d, after);
    ExtendIs(cfg, base, shown, h, d.(section := h.header.section), after);
  }

  // ---------- a hunk that does not match its file ----------

  lemma {:induction false} AroundMismatch(cfg: Config, base: seq<string>, shown: seq<string>, h: Hunk)
    requires !MatchesFile(base, h)
    ensures Around(cfg, base, shown, h) == Context(OwnRange(h.header), [], h.header.section)
    ensures Trailing(cfg, base, h) == []
  {
  }

  lemma {:induction false} MatchesFirst(base: seq<string>, h: Hunk)
    requires h.body != [] && h.body[0].Ctx? && 1 <= h.header.start1 <= |base|
    ensures MatchesFile(base, h) <==> Strip(h.body[0].text) == Strip(base[h.header.start1 - 1])
  {
    StripSpaced(h.body[0].text);
  }

  /** A hunk whose first line is a context line other than the one the old file has there, white space aside, keeps its
      header, with its counts written out, and its body. */
  lemma {:induction false} MismatchKept(cfg: Config, base: seq<string>, shown: seq<string>, h: Hunk)
    requires h.body != [] && h.body[0].Ctx? && 1 <= h.header.start1 <= |base|
    requires Strip(h.body[0].text) != Strip(base[h.header.start1 - 1])
    ensures ExtendHunk(cfg, base, shown, h) ==
            Hunk(Header(h.header.start1, Some(h.header.Size1()), h.header.start2, Some(h.header.Size2()), h.header.section),
                 h.body)
  {
    MatchesFirst(base, h);
    AroundMismatch(cfg, base, shown, h);
    ExtendIs(cfg, base, shown, h, Context(OwnRange(h.header), [], h.header.section), []);
    assert CtxLines([]) + h.body + CtxLines([]) == h.body;
  }

  /** No other hunk is taken for such a one. */
  lemma {:induction false} MatchesExactly(base: seq<string>, h: Hunk)
    requires 1 <= h.header.start1
    ensures MatchesFile(base, h) <==>
            !(h.body != [] && h.body[0].Ctx? && h.header.start1 <= |base|
              && Strip(h.body[0].text) != Strip(base[h.header.start1 - 1]))
  {
    if h.body != [] && h.body[0].Ctx? && h.header.start1 <= |base| {
      MatchesFirst(base, h);
    }
  }
}
