/** What extending a patch keeps: its meaning, its header arithmetic and its place in the new file.
    Throughout, `base` and `head` are the old and new files a well-formed patch relates, and `shown` is
    the new file as it is handed to the extension: the whole of it, or nothing. */
module ExtendMeaning {
  import opened PyText
  import opened UnifiedDiff
  import opened GrownHunks
  import opened ExtendPatch

  // ---------- the shape of one extended hunk ----------

  lemma {:induction false} MatchesItsFile(base: seq<string>, head: seq<string>, h: Hunk)
    requires HunkFits(base, head, h)
    ensures MatchesFile(base, h)
  {
    if h.body != [] && h.body[0].Ctx? {
      var at, side := h.header.start1 - 1, OldSide(h.body);
      assert side[0] == h.body[0].text;
      assert base[at] == base[at..at + |side|][0];
      StripSpaced(base[at]);
    }
  }

  /** The blank in front of a context line does not matter to the comparison. */
  lemma {:induction false} StripSpaced(s: string)
    ensures Strip(" " + s) == Strip(s)
  {
    RStripConcat(" ", s);
    if IsBlank(s) {
      assert RStrip(" ") == RStrip("") == "";
    } else {
      assert (" " + RStrip(s))[1..] == RStrip(s);
    }
  }

  /** Every range a header can be given grows both sizes by what it grows the start, plus `t` lines after. */
  ghost predicate Grows(r: Range, h: Header, t: int) {
    && 1 <= r.start1 <= h.start1 && 1 <= r.start2 <= h.start2
    && r.size1 == h.Size1() + (h.start1 - r.start1) + t
    && r.size2 == h.Size2() + (h.start2 - r.start2) + t
  }

  /** The number of lines of the old file there are to put after a hunk. */
  function Room(cfg: Config, base: seq<string>, h: Header): int {
    Min(cfg.after, |base| - (h.start1 - 1 + h.Size1()))
  }

  lemma {:induction false} LimitsGrow(h: Header, baseLen: nat, after: nat, linesBefore: nat)
    requires 1 <= h.start1 && 1 <= h.start2 && 0 <= h.Size1() && 0 <= h.Size2()
    requires h.start1 - 1 + h.Size1() <= baseLen
    ensures var r := Limits(h, baseLen, after, linesBefore);
            && Grows(r, h, Min(after, baseLen - (h.start1 - 1 + h.Size1())))
            && r.start1 == Max(1, h.start1 - linesBefore) && r.start2 == Max(1, h.start2 - linesBefore)
  {
  }

  /** For any header with starts in the files, the sizes never fall below the hunk's own, and beyond that they do not reach
      past the end of the old file. */
  lemma {:induction false} LimitsCapped(h: Header, baseLen: nat, after: nat, linesBefore: nat)
    requires 1 <= h.start1 && 1 <= h.start2
    ensures var r := Limits(h, baseLen, after, linesBefore);
            var grown1 := h.Size1() + (h.start1 - r.start1) + after;
            var grown2 := h.Size2() + (h.start2 - r.start2) + after;
            var room := baseLen - (r.start1 - 1);
            && r.start1 == Max(1, h.start1 - linesBefore) && r.start2 == Max(1, h.start2 - linesBefore)
            && (grown1 <= room ==> r.size1 == grown1 && r.size2 == grown2)
            && (grown1 > room ==> r.size1 == Max(room, h.Size1()) && r.size2 == Max(grown2 - (grown1 - room), h.Size2()))
  {
  }

  ghost predicate Placed(base: seq<string>, h: Header) {
    && 1 <= h.start1 && 1 <= h.start2 && 0 <= h.Size1() && 0 <= h.Size2()
    && h.start1 - 1 + h.Size1() <= |base|
  }

  lemma {:induction false} SliceInside<T>(s: seq<T>, lo: int, hi: int)
    requires 0 <= lo <= hi <= |s|
    ensures Slice(s, lo, hi) == s[lo..hi]
  {
  }

  lemma {:induction false} ChosenGrows(cfg: Config, base: seq<string>, shown: seq<string>, h: Header)
    requires Placed(base, h)
    requires shown != [] ==> h.start2 - 1 <= |shown|
    ensures Grows(Chosen(cfg, base, shown, h).0, h, Room(cfg, base, h))
  {
    LimitsGrow(h, |base|, cfg.after, cfg.before);
    LimitsGrow(h, |base|, cfg.after, cfg.dynamicBefore);
    if cfg.dynamic && shown != [] {
      var at := DynamicOffset(cfg, base, shown, h);
      if at.Some? {
        var r := Limits(h, |base|, cfg.after, cfg.dynamicBefore);
        SliceInside(base, r.start1 - 1, h.start1 - 1);
        SliceInside(shown, r.start2 - 1, h.start2 - 1);
        var lines1, lines2 := Window1(base, r, h), Window2(shown, r, h);
        assert |lines1[at.value..]| == |Slice(lines2, at.value, |lines2|)| > 0;
      }
    }
  }

  /** The lines before a hunk are the old file's lines just before it, as many as its start moves up; with a new file
      to compare, both starts move equally and the new file has the same lines there. */
  ghost predicate Leads(base: seq<string>, shown: seq<string>, h: Header, r: Range, before: seq<string>) {
    && r.start1 == h.start1 - |before| && StandsAt(before, base, r.start1 - 1)
    && (shown != [] ==> r.start2 == h.start2 - |before| && StandsAt(before, shown, r.start2 - 1))
  }

  lemma {:induction false} Windows(base: seq<string>, shown: seq<string>, h: Header, r: Range, t: int)
    requires Placed(base, h) && Grows(r, h, t)
    requires shown != [] ==> h.start2 - 1 <= |shown|
    ensures Window1(base, r, h) == base[r.start1 - 1..h.start1 - 1]
    ensures shown != [] ==> Window2(shown, r, h) == shown[r.start2 - 1..h.start2 - 1]
  {
  }

  lemma {:induction false} AgreedAll(base: seq<string>, shown: seq<string>, h: Header, chosen: Range, t: int)
    requires Placed(base, h) && Grows(chosen, h, t)
    requires shown != [] ==> h.start2 - 1 <= |shown|
    requires shown == [] || Window1(base, chosen, h) == Window2(shown, chosen, h)
    ensures Agreed(base, shown, h, chosen) == (chosen, Window1(base, chosen, h))
    ensures Leads(base, shown, h, chosen, Window1(base, chosen, h))
  {
    Windows(base, shown, h, chosen, t);
    if shown != [] {
      assert |base[chosen.start1 - 1..h.start1 - 1]| == |shown[chosen.start2 - 1..h.start2 - 1]|;
    }
  }

  lemma {:induction false} TailStands(file: seq<string>, lo: int, hi: int, n: nat, tail: seq<string>)
    requires 0 <= lo <= hi <= |file| && n <= hi - lo && tail == file[lo..hi][hi - lo - n..]
    ensures |tail| == n && StandsAt(tail, file, hi - n)
  {
    Middle(file, lo, hi, hi - n, hi);
    assert file[lo..hi][hi - lo - n..] == file[lo..hi][hi - lo - n..hi - lo];
  }

  lemma {:induction false} AgreedTail(base: seq<string>, shown: seq<string>, h: Header, chosen: Range, t: int,
                                      lines1: seq<string>, lines2: seq<string>, n: nat, tail: seq<string>)
    requires Placed(base, h) && Grows(chosen, h, t)
    requires shown != [] && h.start2 - 1 <= |shown|
    requires lines1 == Window1(base, chosen, h) && lines2 == Window2(shown, chosen, h)
    requires n <= |lines1| == |lines2| && lines1[|lines1| - n..] == tail == lines2[|lines2| - n..]
    ensures Leads(base, shown, h, chosen.Drop(|lines1| - n), tail)
    ensures Grows(chosen.Drop(|lines1| - n), h, t)
  {
    Windows(base, shown, h, chosen, t);
    TailStands(base, chosen.start1 - 1, h.start1 - 1, n, tail);
    TailStands(shown, chosen.start2 - 1, h.start2 - 1, n, tail);
  }

  lemma {:induction false} AgreedShape(base: seq<string>, shown: seq<string>, h: Header, chosen: Range, t: int)
    requires Placed(base, h) && Grows(chosen, h, t)
    requires shown != [] ==> h.start2 - 1 <= |shown|
    ensures var (r, before) := Agreed(base, shown, h, chosen);
            && Leads(base, shown, h, r, before)
            && (if Disagrees(base, shown, h, chosen) then before == [] && r == OwnRange(h) else Grows(r, h, t))
            && (shown == [] ==> r == chosen)
  {
    if shown == [] || Window1(base, chosen, h) == Window2(shown, chosen, h) {
      AgreedAll(base, shown, h, chosen, t);
    } else {
      var lines1, lines2 := Window1(base, chosen, h), Window2(shown, chosen, h);
      var n := CommonTail(lines1, lines2);
      if n > 0 {
        AgreedTail(base, shown, h, chosen, t, lines1, lines2, n, lines1[|lines1| - n..]);
      }
    }
  }

  lemma {:induction false} AroundShape(cfg: Config, base: seq<string>, head: seq<string>, shown: seq<string>, h: Hunk)
    requires HunkFits(base, head, h) && (shown == head || shown == [])
    ensures var c := Around(cfg, base, shown, h);
            1 <= c.range.start1 && Leads(base, shown, h.header, c.range, c.before)
  {
    MatchesItsFile(base, head, h);
    if cfg.before > 0 || cfg.after > 0 {
      var chosen := Chosen(cfg, base, shown, h.header).0;
      ChosenGrows(cfg, base, shown, h.header);
      AgreedShape(base, shown, h.header, chosen, Room(cfg, base, h.header));
    }
  }

  lemma {:induction false} Sandwich(before: seq<string>, body: seq<Line>, after: seq<string>)
    ensures OldSide(CtxLines(before) + body + CtxLines(after)) == before + OldSide(body) + after
    ensures NewSide(CtxLines(before) + body + CtxLines(after)) == before + NewSide(body) + after
  {
    SidesOfCtx(before);
    SidesOfCtx(after);
    OldSideConcat(CtxLines(before), body);
    NewSideConcat(CtxLines(before), body);
    OldSideConcat(CtxLines(before) + body, CtxLines(after));
    NewSideConcat(CtxLines(before) + body, CtxLines(after));
  }

  /** The lines a hunk is extended with. */
  function PadOf(cfg: Config, base: seq<string>, shown: seq<string>, h: Hunk): Pad {
    Pad(Around(cfg, base, shown, h).before, Trailing(cfg, base, h))
  }

  function PadsOf(cfg: Config, base: seq<string>, shown: seq<string>, hunks: seq<Hunk>): (r: seq<Pad>)
    ensures |r| == |hunks|
  {
    seq(|hunks|, k requires 0 <= k < |hunks| => PadOf(cfg, base, shown, hunks[k]))
  }

  /** A hunk with lines of context put around it. */
  lemma {:induction false} PadsGrow(base: seq<string>, shown: seq<string>, h: Hunk, c: Context, after: seq<string>)
    requires 1 <= c.range.start1 && Leads(base, shown, h.header, c.range, c.before) && forall l :: l in h.body ==> BodyLine(l)
    ensures var e := Hunk(NewHeader(c), CtxLines(c.before) + h.body + CtxLines(after));
            Grown(base, h, Pad(c.before, after), e) && 1 <= e.header.start1 && forall l :: l in e.body ==> BodyLine(l)
  {
    Sandwich(c.before, h.body, after);
  }

  lemma {:induction false} ExtendedGrown(cfg: Config, base: seq<string>, head: seq<string>, shown: seq<string>, h: Hunk)
    requires HunkFits(base, head, h) && (shown == head || shown == [])
    ensures var e := ExtendHunk(cfg, base, shown, h);
            && Grown(base, h, PadOf(cfg, base, shown, h), e) && 1 <= e.header.start1
            && forall l :: l in e.body ==> BodyLine(l)
  {
    AroundShape(cfg, base, head, shown, h);
    PadsGrow(base, shown, h, Around(cfg, base, shown, h), Trailing(cfg, base, h));
  }

  lemma {:induction false} AllExtendedGrown(cfg: Config, base: seq<string>, head: seq<string>, shown: seq<string>,
                                            hunks: seq<Hunk>)
    requires Takes(base, head, hunks) && (shown == head || shown == [])
    ensures var pads, es := PadsOf(cfg, base, shown, hunks), ExtendHunks(cfg, base, shown, hunks);
            AllGrown(base, hunks, pads, es) && StartsAfter(0, es) && BodiesOk(es)
  {
    var pads, es := PadsOf(cfg, base, shown, hunks), ExtendHunks(cfg, base, shown, hunks);
    forall k | 0 <= k < |hunks|
      ensures Grown(base, hunks[k], pads[k], es[k]) && 1 <= es[k].header.start1
      ensures forall l :: l in es[k].body ==> BodyLine(l)
    {
      TakesMember(base, head, 0, 0, hunks, k);
      ExtendedGrown(cfg, base, head, shown, hunks[k]);
    }
  }

  // ---------- reading the extended lines back ----------

  /** The lines without the empty separators. */
  function Unspaced(lines: seq<Line>): seq<Line> {
    if lines == [] then [] else (if lines[0].Blank? then [] else [lines[0]]) + Unspaced(lines[1..])
  }

  lemma {:induction false} UnspacedBody(body: seq<Line>, rest: seq<Line>)
    requires forall l :: l in body ==> BodyLine(l)
    ensures Unspaced(body + rest) == body + Unspaced(rest)
  {
    if body == [] {
      assert body + rest == rest;
    } else {
      assert body[0] in body;
      UnspacedBody(body[1..], rest);
      var lines := body + rest;
      assert lines[0] == body[0] && lines[1..] == body[1..] + rest;
      assert [body[0]] + (body[1..] + Unspaced(rest)) == body + Unspaced(rest);
    }
  }

  lemma {:induction false} UnspacedEmit(hunks: seq<Hunk>)
    requires BodiesOk(hunks)
    ensures Unspaced(Emit(hunks)) == Flatten(hunks)
  {
    if hunks == [] {
    } else {
      var h, rest := hunks[0], Emit(hunks[1..]);
      forall k, l | 0 <= k < |hunks[1..]| && l in hunks[1..][k].body ensures BodyLine(l) {
        assert hunks[1..][k] == hunks[k + 1];
      }
      UnspacedEmit(hunks[1..]);
      UnspacedBody(h.body, rest);
      UnspacedHead(h.header, h.body, rest);
      calc {
        Unspaced(Emit(hunks));
        [Head(h.header)] + Unspaced(h.body + rest);
        [Head(h.header)] + (h.body + Flatten(hunks[1..]));
        { Assoc([Head(h.header)], h.body, Flatten(hunks[1..])); }
        Flatten(hunks);
      }
    }
  }

  lemma {:induction false} UnspacedHead(header: Header, body: seq<Line>, rest: seq<Line>)
    ensures Unspaced([Blank, Head(header)] + body + rest) == [Head(header)] + Unspaced(body + rest)
  {
    var lines := [Blank, Head(header)] + body + rest;
    assert lines[1..] == [Head(header)] + (body + rest);
    assert lines[1..][1..] == body + rest;
  }

  /** The hunks a reader finds in a list of lines. */
  function HunksIn(lines: seq<Line>): seq<Hunk> { Split(Unspaced(lines)).1 }

  lemma {:induction false} HunksInEmit(es: seq<Hunk>)
    requires BodiesOk(es)
    ensures HunksIn(Emit(es)) == es
  {
    UnspacedEmit(es);
    forall h | h in es ensures NoHeads(h.body) {
      var k :| 0 <= k < |es| && es[k] == h;
      assert forall l :: l in es[k].body ==> BodyLine(l);
    }
    SplitFlatten(es);
  }

  lemma {:induction false} ProcessedFlatten(cfg: Config, base: seq<string>, shown: seq<string>, hunks: seq<Hunk>)
    requires forall h :: h in hunks ==> NoHeads(h.body)
    ensures Processed(cfg, base, shown, Flatten(hunks)) == Emit(ExtendHunks(cfg, base, shown, hunks))
  {
    SplitFlatten(hunks);
  }

  /** Lines before the first header stay in front, and each hunk follows, extended by itself, after an empty line. */
  lemma {:induction false} ProcessedExactly(cfg: Config, base: seq<string>, shown: seq<string>, pre: seq<Line>,
                                            hunks: seq<Hunk>)
    requires NoHeads(pre) && forall h :: h in hunks ==> NoHeads(h.body)
    ensures Processed(cfg, base, shown, pre + Flatten(hunks)) == pre + Emit(ExtendHunks(cfg, base, shown, hunks))
  {
    SplitFlatten(hunks);
    SplitPrefixed(pre, Flatten(hunks));
    assert pre + [] == pre;
  }

  lemma {:induction false} ExtendedHunksIn(cfg: Config, base: seq<string>, head: seq<string>, shown: seq<string>,
                                           hunks: seq<Hunk>)
    requires Takes(base, head, hunks) && (shown == head || shown == [])
    ensures HunksIn(Processed(cfg, base, shown, Flatten(hunks))) == ExtendHunks(cfg, base, shown, hunks)
  {
    AllExtendedGrown(cfg, base, head, shown, hunks);
    TakesNoHeads(base, head, 0, 0, hunks);
    ProcessedFlatten(cfg, base, shown, hunks);
    HunksInEmit(ExtendHunks(cfg, base, shown, hunks));
  }

  // ---------- the extended patch still means the same ----------

  /** The extended old ranges do not overlap, and what is put after a hunk is what follows it. */
  ghost predicate ExtendsSafely(cfg: Config, base: seq<string>, shown: seq<string>, hunks: seq<Hunk>) {
    Safe(base, hunks, PadsOf(cfg, base, shown, hunks), ExtendHunks(cfg, base, shown, hunks))
  }

  lemma {:induction false} AppliesIfSafe(cfg: Config, base: seq<string>, head: seq<string>, shown: seq<string>,
                                         hunks: seq<Hunk>)
    requires Takes(base, head, hunks) && (shown == head || shown == [])
    ensures Apply(base, ExtendHunks(cfg, base, shown, hunks)) == Some(head) <==> ExtendsSafely(cfg, base, shown, hunks)
  {
    var pads, es := PadsOf(cfg, base, shown, hunks), ExtendHunks(cfg, base, shown, hunks);
    AllExtendedGrown(cfg, base, head, shown, hunks);
    GrownApplies(base, head, 0, 0, 0, hunks, pads, es);
    GivesWhole(head, Apply(base, es));
  }

  lemma {:induction false} GivesWhole(head: seq<string>, result: Option<seq<string>>)
    ensures Gives(head, 0, result) <==> result == Some(head)
  {
    assert head[0..] == head;
  }

  /** Extending a well-formed patch leaves its meaning as it was exactly if it extends safely: with every choice of
      settings, with or without the new file. */
  lemma {:induction false} ExtendingPreservesMeaning(cfg: Config, base: seq<string>, head: seq<string>,
                                                     shown: seq<string>, hunks: seq<Hunk>)
    requires Takes(base, head, hunks) && (shown == head || shown == [])
    ensures Apply(base, HunksIn(Processed(cfg, base, shown, Flatten(hunks)))) == Some(head)
            <==> ExtendsSafely(cfg, base, shown, hunks)
  {
    AppliesIfSafe(cfg, base, head, shown, hunks);
    ExtendedHunksIn(cfg, base, head, shown, hunks);
  }

  /** The headers of the extended hunks count their lines. */
  ghost predicate HeadersExact(cfg: Config, base: seq<string>, shown: seq<string>, hunks: seq<Hunk>) {
    AllExact(hunks, PadsOf(cfg, base, shown, hunks), ExtendHunks(cfg, base, shown, hunks))
  }

  lemma {:induction false} GrownIsWellFormed(base: seq<string>, head: seq<string>, hunks: seq<Hunk>, pads: seq<Pad>,
                                             es: seq<Hunk>)
    requires Takes(base, head, hunks) && AllGrown(base, hunks, pads, es) && StartsAfter(0, es) && BodiesOk(es)
    ensures Takes(base, head, es) <==> Safe(base, hunks, pads, es) && AllExact(hunks, pads, es)
  {
    if Takes(base, head, es) {
      TakesApplies(base, head, 0, 0, es);
      GrownApplies(base, head, 0, 0, 0, hunks, pads, es);
      TakesStarts(base, head, 0, 0, 0, hunks, pads, es);
    }
    if Safe(base, hunks, pads, es) && AllExact(hunks, pads, es) {
      GrownTakes(base, head, 0, 0, 0, hunks, pads, es);
    }
  }

  /** The extended patch is again a well-formed patch between the same two files exactly if it extends safely and
      its headers are exact. */
  lemma {:induction false} ExtendedIsWellFormed(cfg: Config, base: seq<string>, head: seq<string>, shown: seq<string>,
                                                hunks: seq<Hunk>)
    requires Takes(base, head, hunks) && (shown == head || shown == [])
    ensures Takes(base, head, HunksIn(Processed(cfg, base, shown, Flatten(hunks))))
            <==> ExtendsSafely(cfg, base, shown, hunks) && HeadersExact(cfg, base, shown, hunks)
  {
    AllExtendedGrown(cfg, base, head, shown, hunks);
    ExtendedHunksIn(cfg, base, head, shown, hunks);
    GrownIsWellFormed(base, head, hunks, PadsOf(cfg, base, shown, hunks), ExtendHunks(cfg, base, shown, hunks));
  }

  // ---------- when a patch extends safely ----------

  /** With counts written out, what is put after a hunk is always what follows it. */
  lemma {:induction false} ExplicitTrailFits(cfg: Config, base: seq<string>, head: seq<string>, h: Hunk)
    requires HunkFits(base, head, h) && h.header.Explicit()
    ensures StandsAt(Trailing(cfg, base, h), base, OldEnd(h))
    ensures |Trailing(cfg, base, h)| == Room(cfg, base, h.header)
  {
    MatchesItsFile(base, head, h);
  }

  /** An omitted old count is read as 0, so the lines put after the hunk start with the hunk's own line: they fit only
      if the old file repeats that line. */
  lemma {:induction false} OmittedTrailFits(cfg: Config, base: seq<string>, head: seq<string>, h: Hunk)
    requires HunkFits(base, head, h) && h.header.count1.None?
    ensures var at, n := h.header.start1 - 1, |Trailing(cfg, base, h)|;
            && n == Min(cfg.after, |base| - at)
            && (StandsAt(Trailing(cfg, base, h), base, OldEnd(h)) <==>
                at + n < |base| && forall j :: at <= j < at + n ==> base[j] == base[j + 1])
  {
    MatchesItsFile(base, head, h);
    var at, n := h.header.start1 - 1, Min(cfg.after, |base| - (h.header.start1 - 1));
    assert Trailing(cfg, base, h) == base[at..at + n];
    if at + n < |base| {
      if base[at + 1..at + 1 + n] == base[at..at + n] {
        forall j | at <= j < at + n ensures base[j] == base[j + 1] {
          assert base[at..at + n][j - at] == base[at + 1..at + 1 + n][j - at];
        }
      }
    }
  }

  /** The most lines that are ever put before a hunk. */
  function MostBefore(cfg: Config)
    : nat { if cfg.dynamic && cfg.dynamicBefore > cfg.before then cfg.dynamicBefore else cfg.before }

  lemma {:induction false} ChosenAtMost(cfg: Config, base: seq<string>, shown: seq<string>, h: Header)
    requires Placed(base, h) && (shown != [] ==> h.start2 - 1 <= |shown|)
    ensures h.start1 - Chosen(cfg, base, shown, h).0.start1 <= MostBefore(cfg)
  {
    LimitsGrow(h, |base|, cfg.after, cfg.before);
    LimitsGrow(h, |base|, cfg.after, cfg.dynamicBefore);
    ChosenGrows(cfg, base, shown, h);
  }

  lemma {:induction false} AgreedAtMost(base: seq<string>, shown: seq<string>, h: Header, chosen: Range, t: int)
    requires Placed(base, h) && Grows(chosen, h, t) && (shown != [] ==> h.start2 - 1 <= |shown|)
    ensures |Agreed(base, shown, h, chosen).1| <= h.start1 - chosen.start1
  {
    Windows(base, shown, h, chosen, t);
  }

  /** No more lines are put before a hunk than the settings ask for. */
  lemma {:induction false} LeadAtMost(cfg: Config, base: seq<string>, head: seq<string>, shown: seq<string>, h: Hunk)
    requires HunkFits(base, head, h) && (shown == head || shown == [])
    ensures |PadOf(cfg, base, shown, h).before| <= MostBefore(cfg)
  {
    MatchesItsFile(base, head, h);
    if cfg.before > 0 || cfg.after > 0 {
      ChosenGrows(cfg, base, shown, h.header);
      ChosenAtMost(cfg, base, shown, h.header);
      AgreedAtMost(base, shown, h.header, Chosen(cfg, base, shown, h.header).0, Room(cfg, base, h.header));
    }
  }

  lemma {:induction false} FarApartHunk(cfg: Config, base: seq<string>, head: seq<string>, shown: seq<string>, h: Hunk)
    requires HunkFits(base, head, h) && (shown == head || shown == []) && h.header.Explicit()
    ensures var pad := PadOf(cfg, base, shown, h);
            && TrailFits(base, h, pad) && |pad.after| <= cfg.after
            && ExtendHunk(cfg, base, shown, h).header.start1 >= h.header.start1 - MostBefore(cfg)
  {
    ExplicitTrailFits(cfg, base, head, h);
    LeadAtMost(cfg, base, head, shown, h);
    ExtendedGrown(cfg, base, head, shown, h);
  }

  /** Hunks with explicit counts, as far apart as the settings can add lines, extend safely. */
  lemma {:induction false} FarApartIsSafe(cfg: Config, base: seq<string>, head: seq<string>, shown: seq<string>,
                                          hunks: seq<Hunk>)
    requires Takes(base, head, hunks) && (shown == head || shown == [])
    requires forall h :: h in hunks ==> h.header.Explicit()
    requires forall k :: 0 <= k < |hunks| - 1 ==>
               OldEnd(hunks[k]) + cfg.after + MostBefore(cfg) < hunks[k + 1].header.start1
    ensures ExtendsSafely(cfg, base, shown, hunks)
  {
    var pads, es := PadsOf(cfg, base, shown, hunks), ExtendHunks(cfg, base, shown, hunks);
    forall k | 0 <= k < |hunks|
      ensures TrailFits(base, hunks[k], pads[k]) && |pads[k].after| <= cfg.after
      ensures es[k].header.start1 >= hunks[k].header.start1 - MostBefore(cfg)
    {
      TakesMember(base, head, 0, 0, hunks, k);
      FarApartHunk(cfg, base, head, shown, hunks[k]);
    }
  }

  lemma {:induction false} SliceClamped(s: seq<string>, at: int, n: nat)
    requires 0 <= at <= |s|
    ensures Slice(s, at, at + n) == s[at..at + Min(n, |s| - at)]
  {
  }
}
