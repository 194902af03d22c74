/** The headers of extended hunks: how their counts and starts relate to the lines they head. */
module ExtendHeaders {
  import opened PyText
  import opened UnifiedDiff
  import opened GrownHunks
  import opened ExtendPatch
  import opened ExtendMeaning

  /** The lines before the hunk in old and new file end differently, so the hunk keeps its own header. */
  predicate FallsBack(cfg: Config, base: seq<string>, shown: seq<string>, h: Header) {
    Disagrees(base, shown, h, Chosen(cfg, base, shown, h).0)
  }

  lemma {:induction false} AcceptedGrows(cfg: Config, base: seq<string>, head: seq<string>, shown: seq<string>, h: Hunk)
    requires HunkFits(base, head, h) && (shown == head || shown == []) && (cfg.before > 0 || cfg.after > 0)
    ensures var c := Around(cfg, base, shown, h);
            && (if FallsBack(cfg, base, shown, h.header) then c.before == [] && c.range == OwnRange(h.header)
                else Grows(c.range, h.header, Room(cfg, base, h.header)))
            && Leads(base, shown, h.header, c.range, c.before)
            && (shown == [] ==> c.range == Chosen(cfg, base, shown, h.header).0)
  {
    MatchesItsFile(base, head, h);
    ChosenGrows(cfg, base, shown, h.header);
    AgreedShape(base, shown, h.header, Chosen(cfg, base, shown, h.header).0, Room(cfg, base, h.header));
  }

  /** The counts of a header made from the range, against the lines it heads. */
  lemma {:induction false} CountsOf(base: seq<string>, shown: seq<string>, h: Hunk, pad: Pad, e: Hunk, r: Range,
                                    room: int, back: bool)
    requires Grown(base, h, pad, e) && TrailFits(base, h, pad) && StandsAt(OldSide(h.body), base, h.header.start1 - 1)
    requires h.header.Explicit() && |OldSide(h.body)| == h.header.OldCount() && |NewSide(h.body)| == h.header.NewCount()
    requires e.header == Header(r.start1, Some(r.size1), r.start2, Some(r.size2), e.header.section)
    requires if back then pad.before == [] && r == OwnRange(h.header) else Grows(r, h.header, room) && |pad.after| == room
    requires Leads(base, shown, h.header, r, pad.before)
    ensures var missing := if back then |pad.after| else 0;
            var skew := (h.header.start2 - e.header.start2) - |pad.before|;
            && e.header.OldCount() == |OldSide(e.body)| - missing
            && e.header.NewCount() == |NewSide(e.body)| - missing + skew
            && (shown != [] ==> skew == 0)
    ensures StandsAt(OldSide(e.body), base, e.header.start1 - 1)
  {
    OldSidePlaced(base, h, pad, e);
    var now := NewSide(e.body);
    assert |now| == |pad.before| + |NewSide(h.body)| + |pad.after|;
  }

  /** Where lines before the hunk are accepted the old count is right, also at the end of the file, and the new count is
      off by the difference between the moves of the two starts; after a fallback both counts are short by
      exactly the lines put after the hunk. */
  lemma {:induction false} HeaderArithmetic(cfg: Config, base: seq<string>, head: seq<string>, shown: seq<string>,
                                            h: Hunk)
    requires HunkFits(base, head, h) && (shown == head || shown == []) && (cfg.before > 0 || cfg.after > 0)
    requires h.header.Explicit()
    ensures var e, pad := ExtendHunk(cfg, base, shown, h), PadOf(cfg, base, shown, h);
            var missing := if FallsBack(cfg, base, shown, h.header) then |pad.after| else 0;
            var skew := (h.header.start2 - e.header.start2) - |pad.before|;
            && e.header.OldCount() == |OldSide(e.body)| - missing
            && e.header.NewCount() == |NewSide(e.body)| - missing + skew
            && (shown != [] ==> skew == 0)
            && StandsAt(OldSide(e.body), base, e.header.start1 - 1)
            && |pad.after| == Min(cfg.after, |base| - OldEnd(h))
  {
    var pad, c := PadOf(cfg, base, shown, h), Around(cfg, base, shown, h);
    AcceptedGrows(cfg, base, head, shown, h);
    ExtendedGrown(cfg, base, head, shown, h);
    ExplicitTrailFits(cfg, base, head, h);
    CountsOf(base, shown, h, pad, ExtendHunk(cfg, base, shown, h), c.range, Room(cfg, base, h.header),
             FallsBack(cfg, base, shown, h.header));
  }

  /** Without the new file the starts move by what the file has before each of them. */
  lemma {:induction false} StartsWithoutNewFile(cfg: Config, base: seq<string>, head: seq<string>, h: Hunk)
    requires HunkFits(base, head, h) && (cfg.before > 0 || cfg.after > 0)
    ensures var e, pad := ExtendHunk(cfg, base, [], h), PadOf(cfg, base, [], h);
            && |pad.before| == Min(cfg.before, h.header.start1 - 1)
            && h.header.start2 - e.header.start2 == Min(cfg.before, h.header.start2 - 1)
            && !FallsBack(cfg, base, [], h.header)
  {
    AcceptedGrows(cfg, base, head, [], h);
    LimitsGrow(h.header, |base|, cfg.after, cfg.before);
    MatchesItsFile(base, head, h);
  }

  /** The header of an extended hunk is exact exactly if: after a fallback, nothing was put after the hunk;
      otherwise, both starts moved by the same number of lines. */
  lemma {:induction false} ExactHeader(cfg: Config, base: seq<string>, head: seq<string>, shown: seq<string>, h: Hunk)
    requires HunkFits(base, head, h) && (shown == head || shown == []) && (cfg.before > 0 || cfg.after > 0)
    requires h.header.Explicit()
    ensures var e, pad := ExtendHunk(cfg, base, shown, h), PadOf(cfg, base, shown, h);
            Exact(h, pad, e) <==>
            if shown == [] then Min(cfg.before, h.header.start1 - 1) == Min(cfg.before, h.header.start2 - 1)
            else FallsBack(cfg, base, shown, h.header) ==> pad.after == []
  {
    HeaderArithmetic(cfg, base, head, shown, h);
    AcceptedGrows(cfg, base, head, shown, h);
    if shown == [] {
      StartsWithoutNewFile(cfg, base, head, h);
    }
  }

  /** Away from the starts of the files both starts move equally. */
  lemma {:induction false} EvenChosen(cfg: Config, base: seq<string>, head: seq<string>, h: Header)
    requires Placed(base, h) && (head != [] ==> h.start2 - 1 <= |head|)
    requires MostBefore(cfg) < h.start1 && MostBefore(cfg) < h.start2
    ensures var r := Chosen(cfg, base, head, h).0;
            Grows(r, h, Room(cfg, base, h)) && h.start1 - r.start1 == h.start2 - r.start2
  {
    ChosenGrows(cfg, base, head, h);
    LimitsGrow(h, |base|, cfg.after, cfg.before);
    LimitsGrow(h, |base|, cfg.after, cfg.dynamicBefore);
  }

  lemma {:induction false} LineBefore(base: seq<string>, head: seq<string>, p: nat, q: nat, s1: int, s2: int)
    requires p < s1 <= |base| && q <= s2 <= |head| && base[p..s1] == head[q..s2]
    ensures q < s2 && base[s1 - 1] == head[s2 - 1]
  {
    assert |base[p..s1]| == |head[q..s2]|;
    assert base[p..s1][s1 - p - 1] == head[q..s2][s2 - q - 1];
  }

  /** If the line before the hunk is the same in both files, the lines before it do not end differently. */
  lemma {:induction false} SameLast(base: seq<string>, head: seq<string>, h: Header, r: Range, t: int)
    requires Placed(base, h) && Grows(r, h, t) && h.start1 - r.start1 == h.start2 - r.start2
    requires 2 <= h.start1 && 2 <= h.start2 <= |head| + 1 && base[h.start1 - 2] == head[h.start2 - 2]
    ensures !Disagrees(base, head, h, r)
  {
    Windows(base, head, h, r, t);
    var lines1, lines2 := Window1(base, r, h), Window2(head, r, h);
    if r.start1 < h.start1 {
      assert lines1[|lines1| - 1] == base[h.start1 - 2] && lines2[|lines2| - 1] == head[h.start2 - 2];
    }
  }

  /** Lines before a hunk that does not touch the one before it do not end differently. */
  lemma {:induction false} OpenAgrees(base: seq<string>, head: seq<string>, p: nat, q: nat, h: Header, r: Range, t: int)
    requires Placed(base, h) && Grows(r, h, t) && h.start1 - r.start1 == h.start2 - r.start2
    requires p < h.start1 - 1 && q <= h.start2 - 1 <= |head| && base[p..h.start1 - 1] == head[q..h.start2 - 1]
    ensures !Disagrees(base, head, h, r)
  {
    LineBefore(base, head, p, q, h.start1 - 1, h.start2 - 1);
    SameLast(base, head, h, r, t);
  }

  lemma {:induction false} OpenHeader(cfg: Config, base: seq<string>, head: seq<string>, p: nat, q: nat, h: Header)
    requires Placed(base, h) && MostBefore(cfg) < h.start1 && MostBefore(cfg) < h.start2
    requires p < h.start1 - 1 && q <= h.start2 - 1 <= |head| && base[p..h.start1 - 1] == head[q..h.start2 - 1]
    ensures !FallsBack(cfg, base, head, h)
  {
    EvenChosen(cfg, base, head, h);
    OpenAgrees(base, head, p, q, h, Chosen(cfg, base, head, h).0, Room(cfg, base, h));
  }

  /** A hunk that does not touch the previous one (which ends at line p) is not left without lines before it, unless the
      start of either file is nearer than the lines asked for. */
  lemma {:induction false} AcceptedInTheOpen(cfg: Config, base: seq<string>, head: seq<string>, p: nat, q: nat, h: Hunk)
    requires HunkFits(base, head, h) && GapsAgree(base, head, p, q, h)
    requires p < h.header.start1 - 1 && MostBefore(cfg) < h.header.start1 && MostBefore(cfg) < h.header.start2
    ensures !FallsBack(cfg, base, head, h.header)
  {
    MatchesItsFile(base, head, h);
    OpenHeader(cfg, base, head, p, q, h.header);
  }

  // ---------- place in the new file ----------

  lemma {:induction false} LeadPlaced(cfg: Config, base: seq<string>, head: seq<string>, h: Hunk)
    requires HunkFits(base, head, h)
    ensures var e, pad := ExtendHunk(cfg, base, head, h), PadOf(cfg, base, head, h);
            && e.header.start2 == h.header.start2 - |pad.before| && StandsAt(pad.before, head, e.header.start2 - 1)
            && NewSide(e.body) == pad.before + NewSide(h.body) + pad.after
  {
    AroundShape(cfg, base, head, head, h);
    ExtendedGrown(cfg, base, head, head, h);
  }

  /** Lines put after a hunk that end before the next one stand in the new file too. */
  lemma {:induction false} TrailAfter(cfg: Config, base: seq<string>, head: seq<string>, h: Hunk, rest: seq<Hunk>)
    requires HunkFits(base, head, h) && h.header.Explicit()
    requires TakesFrom(base, head, OldEnd(h), NewEnd(h), rest)
    requires rest != [] ==> OldEnd(h) + cfg.after < rest[0].header.start1
    ensures StandsAt(Trailing(cfg, base, h), head, NewEnd(h))
  {
    ExplicitTrailFits(cfg, base, head, h);
    TrailInHead(base, head, h, Trailing(cfg, base, h), rest);
  }

  lemma {:induction false} ExtendedHunkNewSide(cfg: Config, base: seq<string>, head: seq<string>, h: Hunk,
                                               rest: seq<Hunk>)
    requires HunkFits(base, head, h) && h.header.Explicit()
    requires TakesFrom(base, head, OldEnd(h), NewEnd(h), rest)
    requires rest != [] ==> OldEnd(h) + cfg.after < rest[0].header.start1
    ensures var e := ExtendHunk(cfg, base, head, h);
            StandsAt(NewSide(e.body), head, e.header.start2 - 1)
  {
    var pad, e := PadOf(cfg, base, head, h), ExtendHunk(cfg, base, head, h);
    TrailAfter(cfg, base, head, h, rest);
    LeadPlaced(cfg, base, head, h);
    NewSidePlaced(head, h, pad, NewSide(e.body), e.header.start2);
  }

  /** With the new file at hand, the new side of an extended hunk stands in it where the header says, after a fallback
      too, as long as the lines put after the hunk end before the next hunk. */
  lemma {:induction false} ExtendedNewSide(cfg: Config, base: seq<string>, head: seq<string>, hunks: seq<Hunk>, k: nat)
    requires Takes(base, head, hunks) && k < |hunks| && hunks[k].header.Explicit()
    requires k + 1 < |hunks| ==> OldEnd(hunks[k]) + cfg.after < hunks[k + 1].header.start1
    ensures var e := ExtendHunk(cfg, base, head, hunks[k]);
            StandsAt(NewSide(e.body), head, e.header.start2 - 1)
  {
    TakesMember(base, head, 0, 0, hunks, k);
    ExtendedHunkNewSide(cfg, base, head, hunks[k], hunks[k + 1..]);
  }

  lemma {:induction false} NewSidePlaced(head: seq<string>, h: Hunk, pad: Pad, side: seq<string>, start2: int)
    requires side == pad.before + NewSide(h.body) + pad.after && start2 == h.header.start2 - |pad.before|
    requires StandsAt(pad.before, head, start2 - 1) && StandsAt(NewSide(h.body), head, h.header.start2 - 1)
    requires StandsAt(pad.after, head, NewEnd(h))
    ensures StandsAt(side, head, start2 - 1)
  {
    StandsInThree(pad.before, NewSide(h.body), pad.after, head, start2 - 1);
  }

  lemma {:induction false} WithoutNewFile(cfg: Config, base: seq<string>, head: seq<string>, h: Hunk)
    requires HunkFits(base, head, h) && h.header.Explicit() && (cfg.before > 0 || cfg.after > 0)
    ensures var e, pad := ExtendHunk(cfg, base, [], h), PadOf(cfg, base, [], h);
            && Grown(base, h, pad, e) && TrailFits(base, h, pad) && |pad.after| <= cfg.after
            && |pad.before| == Min(cfg.before, h.header.start1 - 1)
            && e.header.start1 == h.header.start1 - |pad.before|
            && h.header.start2 - e.header.start2 == Min(cfg.before, h.header.start2 - 1)
  {
    ExplicitTrailFits(cfg, base, head, h);
    ExtendedGrown(cfg, base, head, [], h);
    StartsWithoutNewFile(cfg, base, head, h);
  }

  lemma {:induction false} StandsOff(base: seq<string>, head: seq<string>, p: nat, q: nat, h: Hunk, pad: Pad, e: Hunk,
                                     moved: int)
    requires HunkFits(base, head, h) && Grown(base, h, pad, e) && p < e.header.start1 && q < h.header.start2
    requires base[p..h.header.start1 - 1] == head[q..h.header.start2 - 1]
    requires StandsAt(pad.after, head, NewEnd(h)) && h.header.start2 - e.header.start2 == moved
    ensures StandsAt(NewSide(e.body), head, e.header.start2 - 1 + (moved - |pad.before|))
  {
    NewSideStands(base, head, p, q, h, pad, e);
  }

  /** Without the new file, the new side stands off by the difference of what each file has before the hunk, within the
      lines asked for: the numbers counted from such a header are wrong by it. */
  lemma {:induction false} NewSideWithoutNewFile(cfg: Config, base: seq<string>, head: seq<string>, p: nat, q: nat,
                                                 h: Hunk, rest: seq<Hunk>)
    requires HunkFits(base, head, h) && h.header.Explicit() && (cfg.before > 0 || cfg.after > 0)
    requires p < h.header.start1 - Min(cfg.before, h.header.start1 - 1) && q < h.header.start2
    requires base[p..h.header.start1 - 1] == head[q..h.header.start2 - 1]
    requires TakesFrom(base, head, OldEnd(h), NewEnd(h), rest)
    requires rest != [] ==> OldEnd(h) + cfg.after < rest[0].header.start1
    ensures var e := ExtendHunk(cfg, base, [], h);
            var off := Min(cfg.before, h.header.start2 - 1) - Min(cfg.before, h.header.start1 - 1);
            StandsAt(NewSide(e.body), head, e.header.start2 - 1 + off)
  {
    WithoutNewFile(cfg, base, head, h);
    TrailAfter(cfg, base, head, h, rest);
    StandsOff(base, head, p, q, h, PadOf(cfg, base, [], h), ExtendHunk(cfg, base, [], h), Min(cfg.before, h.header.start2 - 1));
  }

  // ---------- what goes wrong ----------

  lemma {:induction false} OneStands(s: seq<string>, i: nat)
    requires i < |s|
    ensures StandsAt([s[i]], s, i)
  {
  }

  lemma {:induction false} OneLineChange(base: seq<string>, head: seq<string>, h: Hunk, at: nat)
    requires 1 <= at <= |base| && at <= |head|
    requires h.header.start1 == at == h.header.start2 && h.header.OldCount() == 1 == h.header.NewCount()
    requires h.body == [Del(base[at - 1]), Add(head[at - 1])]
    ensures HunkFits(base, head, h) && OldEnd(h) == at == NewEnd(h)
  {
    var deleted, added := Del(base[at - 1]), Add(head[at - 1]);
    SidesOfTwo(deleted, added);
    OneStands(base, at - 1);
    OneStands(head, at - 1);
  }

  /** A one-line change of a one-line file, written with omitted counts as diff tools write it: extended by one line
      after, it no longer applies. */
  lemma {:induction false} OmittedCountBreaks()
    ensures var base, head := ["a"], ["b"];
            var hunks := [Hunk(Header(1, None, 1, None, ""), [Del("a"), Add("b")])];
            && Takes(base, head, hunks)
            && Apply(base, HunksIn(Processed(Config(0, 1, false, 0), base, head, Flatten(hunks)))) != Some(head)
  {
    var base, head := ["a"], ["b"];
    var h := Hunk(Header(1, None, 1, None, ""), [Del("a"), Add("b")]);
    var hunks := [h];
    OneLineChange(base, head, h, 1);
    assert hunks[1..] == [] && TakesFrom(base, head, 1, 1, []);
    ExtendingPreservesMeaning(Config(0, 1, false, 0), base, head, head, hunks);
    OmittedTrailFits(Config(0, 1, false, 0), base, head, h);
    assert !TrailFits(base, hunks[0], PadsOf(Config(0, 1, false, 0), base, head, hunks)[0]);
  }

  /** Two hunks one line apart, extended by one line on both sides: the shared line is put out twice, and the extended
      patch no longer applies. */
  lemma {:induction false} OverlapBreaks()
    ensures var base, head := ["a", "b", "c"], ["A", "b", "C"];
            var hunks := [Hunk(Header(1, Some(1), 1, Some(1), ""), [Del("a"), Add("A")]),
                          Hunk(Header(3, Some(1), 3, Some(1), ""), [Del("c"), Add("C")])];
            && Takes(base, head, hunks)
            && Apply(base, HunksIn(Processed(Config(1, 1, false, 0), base, head, Flatten(hunks)))) != Some(head)
  {
    var base, head := ["a", "b", "c"], ["A", "b", "C"];
    var cfg := Config(1, 1, false, 0);
    var h0 := Hunk(Header(1, Some(1), 1, Some(1), ""), [Del("a"), Add("A")]);
    var h1 := Hunk(Header(3, Some(1), 3, Some(1), ""), [Del("c"), Add("C")]);
    var hunks := [h0, h1];
    OverlapTakes(base, head, h0, h1);
    ExtendingPreservesMeaning(cfg, base, head, head, hunks);
    OverlapDetail(cfg, base, head, h0, h1);
  }

  lemma {:induction false} TwoHunksApart(base: seq<string>, head: seq<string>, h0: Hunk, h1: Hunk)
    requires |base| == |head| == 3 && base[1] == head[1] && HunkFits(base, head, h0) && HunkFits(base, head, h1)
    requires h0.header.start1 == h0.header.start2 == 1 && OldEnd(h0) == NewEnd(h0) == 1
    requires h1.header.start1 == h1.header.start2 == 3 && OldEnd(h1) == NewEnd(h1) == 3
    ensures Takes(base, head, [h0, h1])
  {
    assert base[3..] == head[3..] && base[1..2] == head[1..2] && base[0..0] == head[0..0];
    TakesCons(base, head, 1, 1, h1, []);
    TakesCons(base, head, 0, 0, h0, [h1]);
    assert [h1] + [] == [h1] && [h0] + [h1] == [h0, h1];
  }

  lemma {:induction false} OverlapTakes(base: seq<string>, head: seq<string>, h0: Hunk, h1: Hunk)
    requires base == ["a", "b", "c"] && head == ["A", "b", "C"]
    requires h0 == Hunk(Header(1, Some(1), 1, Some(1), ""), [Del("a"), Add("A")])
    requires h1 == Hunk(Header(3, Some(1), 3, Some(1), h1.header.section), [Del("c"), Add("C")])
    ensures HunkFits(base, head, h0) && HunkFits(base, head, h1) && Takes(base, head, [h0, h1])
  {
    OneLineChange(base, head, h0, 1);
    OneLineChange(base, head, h1, 3);
    TwoHunksApart(base, head, h0, h1);
  }

  lemma {:induction false} OverlapDetail(cfg: Config, base: seq<string>, head: seq<string>, h0: Hunk, h1: Hunk)
    requires cfg == Config(1, 1, false, 0) && base == ["a", "b", "c"] && head == ["A", "b", "C"]
    requires HunkFits(base, head, h0) && HunkFits(base, head, h1)
    requires h0.header == Header(1, Some(1), 1, Some(1), "") && h1.header == Header(3, Some(1), 3, Some(1), "")
    ensures !ExtendsSafely(cfg, base, head, [h0, h1])
  {
    ExplicitTrailFits(cfg, base, head, h0);
    MatchesItsFile(base, head, h1);
    var r := Chosen(cfg, base, head, h1.header).0;
    assert r.start1 == 2 && r.start2 == 2;
    assert Window1(base, r, h1.header) == ["b"] && Window2(head, r, h1.header) == ["b"];
    var hunks := [h0, h1];
    var pads, es := PadsOf(cfg, base, head, hunks), ExtendHunks(cfg, base, head, hunks);
    assert es[1].header.start1 == 2 && OldEnd(hunks[0]) + |pads[0].after| == 2;
    assert !Apart(hunks, pads, es, 0);
  }
}
