/** Growing the hunks of a patch with lines of the original file (`extend_patch` and `process_patch_lines`). */
module ExtendPatch {
  import opened PyText
  import opened UnifiedDiff

  datatype Config = Config(before: nat, after: nat, dynamic: bool, dynamicBefore: nat)

  datatype Range = Range(start1: int, size1: int, start2: int, size2: int) {
    /** The range with its first `i` lines given up. */
    function Drop(i: int): Range { Range(start1 + i, size1 - i, start2 + i, size2 - i) }
  }

  /** What goes around a hunk: its new header, the lines put before it, and the section text that is left. */
  datatype Context = Context(range: Range, before: seq<string>, section: string)

  /** `_calc_context_limits` */
  function Limits(h: Header, baseLen: nat, after: nat, linesBefore: nat): Range {
    var start1 := Max(1, h.start1 - linesBefore);
    var size1 := h.Size1() + (h.start1 - start1) + after;
    var start2 := Max(1, h.start2 - linesBefore);
    var size2 := h.Size2() + (h.start2 - start2) + after;
    var over := start1 - 1 + size1 - baseLen;
    if over > 0 then Range(start1, Max(size1 - over, h.Size1()), start2, Max(size2 - over, h.Size2()))
    else Range(start1, size1, start2, size2)
  }

  function OwnRange(h: Header): Range { Range(h.start1, h.Size1(), h.start2, h.Size2()) }

  /** The lines of a file from a range's start up to the hunk. */
  function Window1(base: seq<string>, r: Range, h: Header): seq<string> { Slice(base, r.start1 - 1, h.start1 - 1) }
  function Window2(head: seq<string>, r: Range, h: Header): seq<string> { Slice(head, r.start2 - 1, h.start2 - 1) }

  /** The first text that holds the section. */
  function FirstWith(section: string, texts: seq<string>): (r: Option<nat>)
    ensures r.Some? ==> r.value < |texts| && Contains(section, texts[r.value])
    ensures forall i :: 0 <= i < (if r.Some? then r.value else |texts|) ==> !Contains(section, texts[i])
  {
    if texts == [] then None
    else if Contains(section, texts[0]) then Some(0)
    else
      var rest := FirstWith(section, texts[1..]);
      if rest.None? then None else Some(rest.value + 1)
  }

  /** How far into the dynamic window the section's own line stands, if both files agree from there on. */
  function DynamicOffset(cfg: Config, base: seq<string>, head: seq<string>, h: Header): Option<nat> {
    var r := Limits(h, |base|, cfg.after, cfg.dynamicBefore);
    var lines1, lines2 := Window1(base, r, h), Window2(head, r, h);
    var at := FirstWith(h.section, lines1);
    if at.Some? && lines1[at.value..] == Slice(lines2, at.value, |lines2|) then at else None
  }

  /** The range asked for, before old and new lines are compared, and the section text it leaves. */
  function Chosen(cfg: Config, base: seq<string>, head: seq<string>, h: Header): (Range, string) {
    var at := if cfg.dynamic && head != [] then DynamicOffset(cfg, base, head, h) else None;
    if at.Some? then (Limits(h, |base|, cfg.after, cfg.dynamicBefore).Drop(at.value), "")
    else (Limits(h, |base|, cfg.after, cfg.before), h.section)
  }

  /** The number of last lines that two texts of one length share. */
  function CommonTail(a: seq<string>, b: seq<string>): (n: nat)
    ensures n <= |a| && (n > 0 ==> |a| == |b|)
    ensures forall k :: |a| - n <= k < |a| ==> a[k] == b[k]
    ensures |a| == |b| && n < |a| ==> a[|a| - n - 1] != b[|a| - n - 1]
  {
    if |a| != |b| || a == [] || a[|a| - 1] != b[|b| - 1] then 0
    else 1 + CommonTail(a[..|a| - 1], b[..|b| - 1])
  }

  /** Old and new lines before the hunk end differently: the hunk keeps its own header. */
  predicate Disagrees(base: seq<string>, head: seq<string>, h: Header, r: Range) {
    var lines1, lines2 := Window1(base, r, h), Window2(head, r, h);
    head != [] && lines1 != lines2 && CommonTail(lines1, lines2) == 0
  }

  /** The part of the range on which the lines before the hunk agree in both files, and those lines. */
  function Agreed(base: seq<string>, head: seq<string>, h: Header, r: Range): (Range, seq<string>) {
    var lines1, lines2 := Window1(base, r, h), Window2(head, r, h);
    var tail := CommonTail(lines1, lines2);
    if head == [] || lines1 == lines2 then (r, lines1)
    else if tail == 0 then (OwnRange(h), [])
    else (r.Drop(|lines1| - tail), lines1[|lines1| - tail..])
  }

  /** The section text, dropped if one of the lines put before the hunk shows it. */
  function SectionLeft(cfg: Config, section: string, before: seq<string>): string {
    if !cfg.dynamic && FirstWith(section, Spaced(before)).Some? then "" else section
  }

  function ContextOf(cfg: Config, base: seq<string>, head: seq<string>, h: Header): Context {
    var (chosen, section) := Chosen(cfg, base, head, h);
    var (range, before) := Agreed(base, head, h, chosen);
    Context(range, before, SectionLeft(cfg, section, before))
  }

  /** Texts with the leading blank of a context line. */
  function Spaced(texts: seq<string>): seq<string> {
    seq(|texts|, i requires 0 <= i < |texts| => " " + texts[i])
  }

  /** `check_if_hunk_lines_matches_to_file`: a hunk that starts with a context line must show the file's line there. */
  predicate MatchesFile(base: seq<string>, h: Hunk) {
    h.body == [] || !h.body[0].Ctx? ||
    var line := At(base, h.header.start1 - 1);
    line.None? || Strip(Raw(h.body[0])) == Strip(line.value)
  }

  /** The lines of the old file put after a hunk. */
  function Trailing(cfg: Config, base: seq<string>, h: Hunk): seq<string> {
    var at := h.header.start1 + h.header.Size1() - 1;
    if MatchesFile(base, h) && h.header.start1 != -1 && cfg.after > 0 then Slice(base, at, at + cfg.after) else []
  }

  function Around(cfg: Config, base: seq<string>, head: seq<string>, h: Hunk): Context {
    if MatchesFile(base, h) && (cfg.before > 0 || cfg.after > 0) then ContextOf(cfg, base, head, h.header)
    else Context(OwnRange(h.header), [], h.header.section)
  }

  function NewHeader(c: Context): Header {
    Header(c.range.start1, Some(c.range.size1), c.range.start2, Some(c.range.size2), c.section)
  }

  function ExtendHunk(cfg: Config, base: seq<string>, head: seq<string>, h: Hunk): Hunk {
    var c := Around(cfg, base, head, h);
    Hunk(NewHeader(c), CtxLines(c.before) + h.body + CtxLines(Trailing(cfg, base, h)))
  }

  function MapHunks(f: Hunk -> Hunk, hunks: seq<Hunk>): (r: seq<Hunk>)
    ensures |r| == |hunks| && forall k :: 0 <= k < |r| ==> r[k] == f(hunks[k])
  {
    seq(|hunks|, k requires 0 <= k < |hunks| => f(hunks[k]))
  }

  function ExtendHunks(cfg: Config, base: seq<string>, head: seq<string>, hunks: seq<Hunk>): seq<Hunk> {
    MapHunks(Extender(cfg, base, head), hunks)
  }

  function Extender(cfg: Config, base: seq<string>, head: seq<string>): Hunk -> Hunk {
    h => ExtendHunk(cfg, base, head, h)
  }

  /** Hunks as lines, with an empty line before each header. */
  function Emit(hunks: seq<Hunk>): seq<Line> {
    if hunks == [] then [] else [Blank, Head(hunks[0].header)] + hunks[0].body + Emit(hunks[1..])
  }

  function Processed(cfg: Config, base: seq<string>, head: seq<string>, patch: seq<Line>): seq<Line> {
    var (pre, hunks) := Split(patch);
    pre + Emit(ExtendHunks(cfg, base, head, hunks))
  }

  // ---------- the loops ----------

  lemma {:induction false} FirstWithIs(section: string, texts: seq<string>, r: Option<nat>)
    requires r.Some? ==> r.value < |texts| && Contains(section, texts[r.value])
    requires forall i :: 0 <= i < (if r.Some? then r.value else |texts|) ==> !Contains(section, texts[i])
    ensures FirstWith(section, texts) == r
  {
    var f := FirstWith(section, texts);
    assert f.Some? ==> Contains(section, texts[f.value]);
    assert r.Some? ==> Contains(section, texts[r.value]);
  }

  /** Two texts of one length agree from line i on. */
  ghost predicate AgreeFrom(a: seq<string>, b: seq<string>, i: int) {
    |a| == |b| && forall k :: 0 <= i <= k < |a| ==> a[k] == b[k]
  }

  /** What the search for equal last lines finds. */
  lemma {:induction false} MiniMatch(a: seq<string>, b: seq<string>, found: bool, i: nat)
    requires i <= |a|
    requires forall k :: 0 <= k < i ==> !AgreeFrom(a, b, k)
    requires if found then i < |a| && AgreeFrom(a, b, i) else i == |a|
    ensures found <==> CommonTail(a, b) > 0
    ensures found ==> i == |a| - CommonTail(a, b)
  {
    assert i > 0 ==> !AgreeFrom(a, b, i - 1);
  }

  /** The range and the section text before old and new lines are compared. */
  method FindRange(cfg: Config, base: seq<string>, head: seq<string>, h: Header) returns (range: Range, section: string)
    ensures (range, section) == Chosen(cfg, base, head, h)
  {
    section := h.section;
    if cfg.dynamic && head != [] {
      range := Limits(h, |base|, cfg.after, cfg.dynamicBefore);
      var lines1, lines2 := Window1(base, range, h), Window2(head, range, h);
      var foundHeader := false;
      var i := 0;
      while i < |lines1|
        invariant 0 <= i <= |lines1| && !foundHeader
        invariant section == h.section && range == Limits(h, |base|, cfg.after, cfg.dynamicBefore)
        invariant forall k :: 0 <= k < i ==> !Contains(section, lines1[k])
      {
        if Contains(section, lines1[i]) {
          FirstWithIs(h.section, lines1, Some(i));
          range := range.Drop(i);
          if lines1[i..] == Slice(lines2, i, |lines2|) {
            foundHeader := true;
            section := "";
          }
          break;
        }
        i := i + 1;
      }
      if i == |lines1| {
        FirstWithIs(h.section, lines1, None);
      }
      if !foundHeader {
        range := Limits(h, |base|, cfg.after, cfg.before);
      }
    } else {
      range := Limits(h, |base|, cfg.after, cfg.before);
    }
  }

  /** The part of the chosen range on which old and new lines agree. */
  method Compare(base: seq<string>, head: seq<string>, h: Header, chosen: Range)
    returns (range: Range, before: seq<string>)
    ensures (range, before) == Agreed(base, head, h, chosen)
  {
    range := chosen;
    var lines1 := Window1(base, range, h);
    before := lines1;
    if head != [] {
      var lines2 := Window2(head, range, h);
      if lines1 != lines2 {
        var foundMiniMatch := false;
        var i := 0;
        while i < |lines1|
          invariant 0 <= i <= |lines1| && !foundMiniMatch && before == lines1 && range == chosen
          invariant forall k :: 0 <= k < i ==> !AgreeFrom(lines1, lines2, k)
        {
          if lines1[i..] == Slice(lines2, i, |lines2|) {
            before := lines1[i..];
            range := range.Drop(i);
            foundMiniMatch := true;
            break;
          }
          i := i + 1;
        }
        MiniMatch(lines1, lines2, foundMiniMatch, i);
        if !foundMiniMatch {
          range := OwnRange(h);
          before := [];
        }
      }
    }
  }

  /** The section text, unless one of the added lines shows it already. */
  method RemainingSection(cfg: Config, before: seq<string>, section0: string) returns (section: string)
    ensures section == SectionLeft(cfg, section0, before)
  {
    section := section0;
    if section != "" && !cfg.dynamic {
      ghost var texts := Spaced(before);
      var i := 0;
      while i < |before|
        invariant 0 <= i <= |before| && section == section0
        invariant forall k :: 0 <= k < i ==> !Contains(section0, texts[k])
      {
        if Contains(section, " " + before[i]) {
          FirstWithIs(section0, texts, Some(i));
          section := "";
          return;
        }
        i := i + 1;
      }
      FirstWithIs(section0, texts, None);
    }
  }

  /** The context of one header. */
  method FindContext(cfg: Config, base: seq<string>, head: seq<string>, h: Header) returns (c: Context)
    ensures c == ContextOf(cfg, base, head, h)
  {
    var chosen, section := FindRange(cfg, base, head, h);
    var range, before := Compare(base, head, h, chosen);
    section := RemainingSection(cfg, before, section);
    c := Context(range, before, section);
  }

  /** What is still to be put out for the lines from some point on, after the trailing lines `tail` of the open hunk;
      `f` is what becomes of a hunk. */
  ghost function Pending(f: Hunk -> Hunk, lines: seq<Line>, tail: seq<Line>): seq<Line> {
    Split(lines).0 + tail + Emit(MapHunks(f, Split(lines).1))
  }

  lemma {:induction false} PendingHead(f: Hunk -> Hunk, lines: seq<Line>, tail: seq<Line>, header: Header,
                                       before: seq<Line>, after: seq<Line>)
    requires lines != [] && lines[0].Head?
    requires var pre := Split(lines[1..]).0;
             f(Hunk(lines[0].header, pre)) == Hunk(header, before + pre + after)
    ensures Pending(f, lines, tail) == tail + ([Blank, Head(header)] + before) + Pending(f, lines[1..], after)
  {
    var (pre, hunks) := Split(lines[1..]);
    var h := Hunk(lines[0].header, pre);
    var all, rest := MapHunks(f, [h] + hunks), MapHunks(f, hunks);
    assert all[0] == f(h) && all[1..] == rest;
    assert Split(lines) == ([], [h] + hunks);
    assert [] + tail + Emit(all) == tail + Emit(all);
  }

  lemma {:induction false} LineStep(f: Hunk -> Hunk, done: seq<Line>, lines: seq<Line>, tail: seq<Line>)
    requires lines != [] && !lines[0].Head?
    ensures done + Pending(f, lines, tail) == (done + [lines[0]]) + Pending(f, lines[1..], tail)
  {
  }

  lemma {:induction false} HeadStep(f: Hunk -> Hunk, done: seq<Line>, lines: seq<Line>, tail: seq<Line>, header: Header,
                                    before: seq<Line>, after: seq<Line>)
    requires lines != [] && lines[0].Head?
    requires var pre := Split(lines[1..]).0;
             f(Hunk(lines[0].header, pre)) == Hunk(header, before + pre + after)
    ensures done + Pending(f, lines, tail) ==
            done + tail + ([Blank, Head(header)] + before) + Pending(f, lines[1..], after)
  {
    PendingHead(f, lines, tail, header, before, after);
  }

  lemma {:induction false} PendingEnd(f: Hunk -> Hunk, tail: seq<Line>)
    ensures Pending(f, [], tail) == tail
  {
  }

  method ProcessPatchLines(cfg: Config, base: seq<string>, head: seq<string>, patch: seq<Line>)
    returns (extended: seq<Line>)
    ensures extended == Processed(cfg, base, head, patch)
  {
    extended := [];
    var isValidHunk := true;
    var start1, size1 := -1, -1;
    ghost var f := Extender(cfg, base, head);
    ghost var tail: seq<Line> := [];
    ghost var whole := Processed(cfg, base, head, patch);
    var i := 0;
    while i < |patch|
      invariant 0 <= i <= |patch|
      invariant tail == TrailingLines(cfg, base, isValidHunk, start1, size1)
      invariant extended + Pending(f, patch[i..], tail) == whole
    {
      var line := patch[i];
      ghost var done, lines := extended, patch[i..];
      assert lines[0] == line && lines[1..] == patch[i + 1..];
      if line.Head? {
        extended := extended + TrailingLines(cfg, base, isValidHunk, start1, size1);
        var c;
        start1, size1 := line.header.start1, line.header.Size1();
        isValidHunk, c := StartHunk(cfg, base, head, patch, i);
        extended := extended + ([Blank, Head(NewHeader(c))] + CtxLines(c.before));
        ghost var after := TrailingLines(cfg, base, isValidHunk, start1, size1);
        HeadStep(f, done, lines, tail, NewHeader(c), CtxLines(c.before), after);
        tail := after;
      } else {
        LineStep(f, done, lines, tail);
        extended := extended + [line];
      }
      i := i + 1;
    }
    assert patch[i..] == [];
    PendingEnd(f, tail);
    extended := extended + TrailingLines(cfg, base, isValidHunk, start1, size1);
  }

  /** The lines that finish the open hunk, if there is one and it is valid. */
  function TrailingLines(cfg: Config, base: seq<string>, isValidHunk: bool, start1: int, size1: int): seq<Line> {
    if isValidHunk && start1 != -1 && cfg.after > 0
    then CtxLines(Slice(base, start1 + size1 - 1, start1 + size1 - 1 + cfg.after)) else []
  }

  method StartHunk(cfg: Config, base: seq<string>, head: seq<string>, patch: seq<Line>, i: nat)
    returns (isValidHunk: bool, c: Context)
    requires i < |patch| && patch[i].Head?
    ensures var header, body := patch[i].header, Split(patch[i + 1..]).0;
            Extender(cfg, base, head)(Hunk(header, body)) ==
            Hunk(NewHeader(c), CtxLines(c.before) + body
                 + TrailingLines(cfg, base, isValidHunk, header.start1, header.Size1()))
  {
    var header := patch[i].header;
    isValidHunk := CheckHunk(base, patch, i, header.start1);
    if isValidHunk && (cfg.before > 0 || cfg.after > 0) {
      c := FindContext(cfg, base, head, header);
    } else {
      c := Context(OwnRange(header), [], header.section);
    }
    ghost var h := Hunk(header, Split(patch[i + 1..]).0);
    assert c == Around(cfg, base, head, h);
    assert CtxLines(Trailing(cfg, base, h)) == TrailingLines(cfg, base, isValidHunk, header.start1, header.Size1());
  }

  /** Whether the hunk whose header is line i matches the old file at its start. */
  method CheckHunk(base: seq<string>, patch: seq<Line>, i: nat, start1: int) returns (valid: bool)
    requires i < |patch| && patch[i].Head? && patch[i].header.start1 == start1
    ensures valid == MatchesFile(base, Hunk(patch[i].header, Split(patch[i + 1..]).0))
  {
    ghost var rest := patch[i + 1..];
    valid := true;
    if i + 1 < |patch| && patch[i + 1].Ctx? {
      assert rest[0] == patch[i + 1];
      var line := At(base, start1 - 1);
      if line.Some? && Strip(Raw(patch[i + 1])) != Strip(line.value) {
        valid := false;
      }
    }
  }

  /** `extend_patch`: nothing is extended without a patch, without lines to add, without an old file,
      or for a file type that is skipped. */
  method Extend(cfg: Config, base: seq<string>, head: seq<string>, patch: seq<Line>, skipped: bool)
    returns (extended: seq<Line>)
    ensures extended == if patch == [] || (cfg.before == 0 && cfg.after == 0) || base == [] || skipped then patch
                        else Processed(cfg, base, head, patch)
  {
    if patch == [] || (cfg.before == 0 && cfg.after == 0) || base == [] {
      return patch;
    }
    if skipped {
      return patch;
    }
    extended := ProcessPatchLines(cfg, base, head, patch);
  }
}
