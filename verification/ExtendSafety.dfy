/** When extending a patch is safe, told from the two files, the hunks and the settings alone. */
module ExtendSafety {
  import opened PyText
  import opened UnifiedDiff
  import opened GrownHunks
  import opened ExtendPatch
  import opened ExtendMeaning

  // ---------- what is put after a hunk ----------

  /** What is put after a hunk follows it: always with its old count written out; otherwise, as the hunk's one old line
      comes first, only if the old file repeats it. */
  ghost predicate TrailOk(cfg: Config, base: seq<string>, h: Header) {
    var at, n := h.start1 - 1, Room(cfg, base, h);
    h.count1.Some? || (at + n < |base| && forall j :: 0 <= at <= j < at + n ==> base[j] == base[j + 1])
  }

  lemma {:induction false} TrailFitsOk(cfg: Config, base: seq<string>, head: seq<string>, shown: seq<string>, h: Hunk)
    requires HunkFits(base, head, h)
    ensures TrailFits(base, h, PadOf(cfg, base, shown, h)) <==> TrailOk(cfg, base, h.header)
    ensures |PadOf(cfg, base, shown, h).after| == Room(cfg, base, h.header)
  {
    if h.header.count1.Some? {
      MatchesItsFile(base, head, h);
      SliceClamped(base, OldEnd(h), cfg.after);
    } else {
      OmittedTrailFits(cfg, base, head, h);
    }
  }

  // ---------- what is put before a hunk ----------

  /** The lines before a hunk that a range takes in, if it takes in as many of both files. */
  function Asked(shown: seq<string>, h: Header, r: Range): int {
    if shown == [] || h.start1 - r.start1 == h.start2 - r.start2 then h.start1 - r.start1 else 0
  }

  /** Windows that end after an equal gap have at least the gap in common, and more only if the lines in front of it
      are equal too. */
  lemma {:induction false} TailAndGap(base: seq<string>, head: seq<string>, p: nat, q: nat, s1: int, s2: int, n: nat)
    requires 1 <= p <= s1 <= |base| && 1 <= q <= s2 <= |head| && base[p..s1] == head[q..s2]
    requires s1 - p <= n <= s1 && n <= s2
    ensures s1 - p == s2 - q
    ensures var tail := CommonTail(base[s1 - n..s1], head[s2 - n..s2]);
            tail >= s1 - p && (n > s1 - p ==> (tail == s1 - p <==> base[p - 1] != head[q - 1]))
  {
    var g, a, b := s1 - p, base[s1 - n..s1], head[s2 - n..s2];
    var tail := CommonTail(a, b);
    assert |base[p..s1]| == |head[q..s2]|;
    forall j | n - g <= j < n ensures a[j] == b[j] {
      assert base[p..s1][j - (n - g)] == head[q..s2][j - (n - g)];
    }
    if n > g {
      assert a[n - g - 1] == base[p - 1] && b[n - g - 1] == head[q - 1];
    }
  }

  lemma {:induction false} SameTailIsAll(a: seq<string>, b: seq<string>)
    ensures a == b ==> CommonTail(a, b) == |a|
  {
    if a == b && a != [] {
      SameTailIsAll(a[..|a| - 1], b[..|b| - 1]);
    }
  }

  /** The lines accepted before a hunk are as many as its two windows end with alike. */
  lemma {:induction false} AgreedCount(base: seq<string>, head: seq<string>, h: Header, chosen: Range, t: int)
    requires Placed(base, h) && Grows(chosen, h, t) && h.start2 - 1 <= |head| && head != []
    ensures |Agreed(base, head, h, chosen).1| ==
            CommonTail(base[chosen.start1 - 1..h.start1 - 1], head[chosen.start2 - 1..h.start2 - 1])
  {
    Windows(base, head, h, chosen, t);
    SameTailIsAll(Window1(base, chosen, h), Window2(head, chosen, h));
  }

  /** Windows inside an equal gap are equal. */
  lemma {:induction false} TailInGap(base: seq<string>, head: seq<string>, p: nat, q: nat, s1: int, s2: int, n: nat)
    requires p <= s1 - n && s1 <= |base| && q <= s2 <= |head| && base[p..s1] == head[q..s2]
    ensures q <= s2 - n && CommonTail(base[s1 - n..s1], head[s2 - n..s2]) == n
  {
    SameParts(base, head, p, q, s1, s2, s1 - n, s1);
    SameTailIsAll(base[s1 - n..s1], head[s2 - n..s2]);
  }

  /** The common end of two windows against an equal gap in front of s1 and s2. */
  lemma {:induction false} TailAgainstGap(base: seq<string>, head: seq<string>, p: nat, q: nat, s1: int, s2: int,
                                          n1: nat, n2: nat)
    requires 1 <= p <= s1 <= |base| && 1 <= q <= s2 <= |head| && base[p..s1] == head[q..s2] && n1 <= s1 && n2 <= s2
    ensures var tail := CommonTail(base[s1 - n1..s1], head[s2 - n2..s2]);
            if n1 != n2 then tail == 0
            else if n1 <= s1 - p then tail == n1
            else tail >= s1 - p && (tail == s1 - p <==> base[p - 1] != head[q - 1])
  {
    if n1 == n2 {
      if n1 <= s1 - p {
        TailInGap(base, head, p, q, s1, s2, n1);
      } else {
        TailAndGap(base, head, p, q, s1, s2, n1);
      }
    }
  }

  /** The lines put before a hunk, against the end of the hunk before it (at p and q) and r lines put after that one. */
  lemma {:induction false} LeadAgainstGap(base: seq<string>, head: seq<string>, p: nat, q: nat, h: Header,
                                          chosen: Range, t: int, r: nat)
    requires Placed(base, h) && Grows(chosen, h, t) && h.start2 - 1 <= |head|
    requires 1 <= p < h.start1 && 1 <= q < h.start2 && base[p..h.start1 - 1] == head[q..h.start2 - 1]
    ensures var n1, n2 := h.start1 - chosen.start1, h.start2 - chosen.start2;
            p + r < h.start1 - |Agreed(base, head, h, chosen).1| <==>
            p + r < h.start1 - (if n1 == n2 then n1 else 0) || (r == 0 && base[p - 1] != head[q - 1])
  {
    AgreedCount(base, head, h, chosen, t);
    TailAgainstGap(base, head, p, q, h.start1 - 1, h.start2 - 1, h.start1 - chosen.start1, h.start2 - chosen.start2);
  }

  // ---------- the condition ----------

  /** Between a hunk that ends at p and q, with r lines put after it, and the next one there is room: those lines do not
      meet the ones asked for before the next; or there are none, and the last lines of the first hunk differ, so that no
      more than the gap is taken. */
  ghost predicate RoomAt(base: seq<string>, head: seq<string>, shown: seq<string>, p: int, q: int, r: int, h: Header,
                         asked: Range) {
    || p + r < h.start1 - Asked(shown, h, asked)
    || (shown != [] && r == 0 && At(base, p - 1) != At(head, q - 1))
  }

  ghost predicate Roomy(cfg: Config, base: seq<string>, head: seq<string>, shown: seq<string>, g: Hunk, h: Header) {
    RoomAt(base, head, shown, OldEnd(g), NewEnd(g), Room(cfg, base, g.header), h, Chosen(cfg, base, shown, h).0)
  }

  ghost predicate LeavesRoom(cfg: Config, base: seq<string>, head: seq<string>, shown: seq<string>, hunks: seq<Hunk>) {
    && (forall k :: 0 <= k < |hunks| ==> TrailOk(cfg, base, hunks[k].header))
    && (forall k :: 0 <= k < |hunks| - 1 ==> Roomy(cfg, base, head, shown, hunks[k], hunks[k + 1].header))
  }

  /** Where an extended hunk starts: at the range it asked for, or before the lines it agreed on. */
  ghost predicate StartsRight(cfg: Config, base: seq<string>, shown: seq<string>, h: Hunk) {
    var asked := Chosen(cfg, base, shown, h.header).0;
    && Placed(base, h.header) && Grows(asked, h.header, Room(cfg, base, h.header))
    && ExtendHunk(cfg, base, shown, h).header.start1 ==
       if shown == [] then asked.start1 else h.header.start1 - |Agreed(base, shown, h.header, asked).1|
  }

  lemma {:induction false} StartMoves(cfg: Config, base: seq<string>, head: seq<string>, shown: seq<string>, h: Hunk)
    requires HunkFits(base, head, h) && (shown == head || shown == []) && (cfg.before > 0 || cfg.after > 0)
    ensures StartsRight(cfg, base, shown, h) && h.header.start2 - 1 <= |head|
  {
    MatchesItsFile(base, head, h);
    ChosenGrows(cfg, base, shown, h.header);
    AgreedShape(base, shown, h.header, Chosen(cfg, base, shown, h.header).0, Room(cfg, base, h.header));
  }

  /** A hunk after one that ends at p and q, after which r lines are put: what it asks for, and where it starts then. */
  ghost predicate Follows(base: seq<string>, head: seq<string>, shown: seq<string>, p: int, q: int, r: int, h: Header,
                          asked: Range, t: int, start: int) {
    && Placed(base, h) && Grows(asked, h, t) && h.start2 - 1 <= |head| && 0 <= r
    && 1 <= p < h.start1 && 1 <= q < h.start2 && base[p..h.start1 - 1] == head[q..h.start2 - 1]
    && start == if shown == [] then asked.start1 else h.start1 - |Agreed(base, shown, h, asked).1|
  }

  lemma {:induction false} RoomBetween(base: seq<string>, head: seq<string>, shown: seq<string>, p: int, q: int, r: int,
                                       h: Header, asked: Range, t: int, start: int)
    requires (shown == head || shown == []) && Follows(base, head, shown, p, q, r, h, asked, t, start)
    ensures p + r < start <==> RoomAt(base, head, shown, p, q, r, h, asked)
  {
    if shown != [] {
      LeadAgainstGap(base, head, p, q, h, asked, t, r);
    }
  }

  lemma {:induction false} NextFollows(cfg: Config, base: seq<string>, head: seq<string>, shown: seq<string>, g: Hunk,
                                       h: Hunk)
    requires (shown == head || shown == []) && (cfg.before > 0 || cfg.after > 0)
    requires Next(base, head, g, h)
    ensures Follows(base, head, shown, OldEnd(g), NewEnd(g), Room(cfg, base, g.header), h.header,
                    Chosen(cfg, base, shown, h.header).0, Room(cfg, base, h.header), ExtendHunk(cfg, base, shown, h).header.start1)
  {
    StartMoves(cfg, base, head, shown, h);
  }

  ghost predicate Next(base: seq<string>, head: seq<string>, g: Hunk, h: Hunk) {
    && HunkFits(base, head, g) && HunkFits(base, head, h)
    && OldEnd(g) < h.header.start1 && NewEnd(g) < h.header.start2
    && base[OldEnd(g)..h.header.start1 - 1] == head[NewEnd(g)..h.header.start2 - 1]
  }

  /** Neighbours in a well-formed patch. */
  lemma {:induction false} Neighbours(base: seq<string>, head: seq<string>, hunks: seq<Hunk>, k: nat)
    requires Takes(base, head, hunks) && k + 1 < |hunks|
    ensures Next(base, head, hunks[k], hunks[k + 1])
  {
    TakesMember(base, head, 0, 0, hunks, k);
    assert hunks[k + 1..][0] == hunks[k + 1];
  }

  lemma {:induction false} ApartIsRoomy(cfg: Config, base: seq<string>, head: seq<string>, shown: seq<string>,
                                        hunks: seq<Hunk>, k: nat)
    requires Takes(base, head, hunks) && (shown == head || shown == []) && (cfg.before > 0 || cfg.after > 0)
    requires k + 1 < |hunks|
    ensures Apart(hunks, PadsOf(cfg, base, shown, hunks), ExtendHunks(cfg, base, shown, hunks), k) <==>
            Roomy(cfg, base, head, shown, hunks[k], hunks[k + 1].header)
  {
    var g, h := hunks[k], hunks[k + 1];
    Neighbours(base, head, hunks, k);
    NextFollows(cfg, base, head, shown, g, h);
    RoomBetween(base, head, shown, OldEnd(g), NewEnd(g), Room(cfg, base, g.header), h.header,
                Chosen(cfg, base, shown, h.header).0, Room(cfg, base, h.header), ExtendHunk(cfg, base, shown, h).header.start1);
    TrailFitsOk(cfg, base, head, shown, g);
  }

  lemma {:induction false} TrailIsOk(cfg: Config, base: seq<string>, head: seq<string>, shown: seq<string>,
                                     hunks: seq<Hunk>, k: nat)
    requires Takes(base, head, hunks) && k < |hunks|
    ensures TrailFits(base, hunks[k], PadsOf(cfg, base, shown, hunks)[k]) <==> TrailOk(cfg, base, hunks[k].header)
  {
    TakesMember(base, head, 0, 0, hunks, k);
    TrailFitsOk(cfg, base, head, shown, hunks[k]);
  }

  /** Extending is safe exactly if the hunks leave room, in every mode, with or without the new file, and whether counts
      are written out or not. */
  lemma {:induction false} SafeExactly(cfg: Config, base: seq<string>, head: seq<string>, shown: seq<string>,
                                       hunks: seq<Hunk>)
    requires Takes(base, head, hunks) && (shown == head || shown == []) && (cfg.before > 0 || cfg.after > 0)
    ensures ExtendsSafely(cfg, base, shown, hunks) <==> LeavesRoom(cfg, base, head, shown, hunks)
  {
    var pads, es := PadsOf(cfg, base, shown, hunks), ExtendHunks(cfg, base, shown, hunks);
    forall k | 0 <= k < |hunks| ensures TrailFits(base, hunks[k], pads[k]) <==> TrailOk(cfg, base, hunks[k].header) {
      TrailIsOk(cfg, base, head, shown, hunks, k);
    }
    forall k | 0 <= k < |hunks| - 1 ensures Apart(hunks, pads, es, k) <==> Roomy(cfg, base, head, shown, hunks[k], hunks[k + 1].header) {
      ApartIsRoomy(cfg, base, head, shown, hunks, k);
    }
  }

  /** So the extended patch still means the same exactly if the hunks leave room. */
  lemma {:induction false} MeaningKeptExactly(cfg: Config, base: seq<string>, head: seq<string>, shown: seq<string>,
                                              hunks: seq<Hunk>)
    requires Takes(base, head, hunks) && (shown == head || shown == []) && (cfg.before > 0 || cfg.after > 0)
    ensures Apply(base, HunksIn(Processed(cfg, base, shown, Flatten(hunks)))) == Some(head)
            <==> LeavesRoom(cfg, base, head, shown, hunks)
  {
    ExtendingPreservesMeaning(cfg, base, head, shown, hunks);
    SafeExactly(cfg, base, head, shown, hunks);
  }

  // ---------- the plain modes ----------

  /** The range asked for in a plain mode, without the search for the section's own line. */
  lemma {:induction false} AskedPlainly(cfg: Config, base: seq<string>, shown: seq<string>, h: Header)
    requires Placed(base, h) && (shown == [] || !cfg.dynamic)
    ensures Asked(shown, h, Chosen(cfg, base, shown, h).0) ==
            if shown == [] || Min(cfg.before, h.start1 - 1) == Min(cfg.before, h.start2 - 1) then Min(cfg.before, h.start1 - 1)
            else 0
  {
    LimitsGrow(h, |base|, cfg.after, cfg.before);
  }

  lemma {:induction false} RoomOfExplicit(cfg: Config, base: seq<string>, head: seq<string>, h: Hunk)
    requires HunkFits(base, head, h) && h.header.Explicit()
    ensures Room(cfg, base, h.header) == Min(cfg.after, |base| - OldEnd(h)) && TrailOk(cfg, base, h.header)
    ensures Placed(base, h.header)
  {
  }

  lemma {:induction false} RoomyWithout(cfg: Config, base: seq<string>, head: seq<string>, g: Hunk, h: Hunk)
    requires Next(base, head, g, h) && g.header.Explicit() && h.header.Explicit()
    ensures Roomy(cfg, base, head, [], g, h.header) <==>
            OldEnd(g) + Min(cfg.after, |base| - OldEnd(g)) < h.header.start1 - Min(cfg.before, h.header.start1 - 1)
  {
    RoomOfExplicit(cfg, base, head, g);
    RoomOfExplicit(cfg, base, head, h);
    AskedPlainly(cfg, base, [], h.header);
  }

  /** Without the new file, and with counts written out: what each hunk takes after it and the next one before it do not
      meet. */
  lemma {:induction false} SafeWithoutNewFile(cfg: Config, base: seq<string>, head: seq<string>, hunks: seq<Hunk>)
    requires Takes(base, head, hunks) && (cfg.before > 0 || cfg.after > 0)
    requires forall h :: h in hunks ==> h.header.Explicit()
    ensures ExtendsSafely(cfg, base, [], hunks) <==>
            forall k :: 0 <= k < |hunks| - 1 ==>
              OldEnd(hunks[k]) + Min(cfg.after, |base| - OldEnd(hunks[k]))
              < hunks[k + 1].header.start1 - Min(cfg.before, hunks[k + 1].header.start1 - 1)
  {
    SafeExactly(cfg, base, head, [], hunks);
    TrailsOk(cfg, base, head, hunks);
    forall k | 0 <= k < |hunks| - 1
      ensures Roomy(cfg, base, head, [], hunks[k], hunks[k + 1].header) <==>
              OldEnd(hunks[k]) + Min(cfg.after, |base| - OldEnd(hunks[k]))
              < hunks[k + 1].header.start1 - Min(cfg.before, hunks[k + 1].header.start1 - 1)
    {
      Neighbours(base, head, hunks, k);
      RoomyWithout(cfg, base, head, hunks[k], hunks[k + 1]);
    }
  }

  lemma {:induction false} TrailsOk(cfg: Config, base: seq<string>, head: seq<string>, hunks: seq<Hunk>)
    requires Takes(base, head, hunks) && forall h :: h in hunks ==> h.header.Explicit()
    ensures forall k :: 0 <= k < |hunks| ==> TrailOk(cfg, base, hunks[k].header)
  {
    forall k | 0 <= k < |hunks| ensures TrailOk(cfg, base, hunks[k].header) {
      assert hunks[k] in hunks;
    }
  }

  lemma {:induction false} RoomyFixed(cfg: Config, base: seq<string>, head: seq<string>, g: Hunk, h: Hunk)
    requires Next(base, head, g, h) && g.header.Explicit() && h.header.Explicit()
    requires !cfg.dynamic && cfg.after > 0 && cfg.before < h.header.start1 && cfg.before < h.header.start2
    ensures Roomy(cfg, base, head, head, g, h.header) <==> OldEnd(g) + cfg.after + cfg.before < h.header.start1
  {
    RoomOfExplicit(cfg, base, head, g);
    RoomOfExplicit(cfg, base, head, h);
    AskedPlainly(cfg, base, head, h.header);
  }

  /** In the fixed mode with the new file, where every hunk but the first is far enough from the starts of both files and
      lines are put after hunks: the patch extends safely exactly if its hunks lie as far apart as lines are asked for. */
  lemma {:induction false} FarApartExactly(cfg: Config, base: seq<string>, head: seq<string>, hunks: seq<Hunk>)
    requires Takes(base, head, hunks) && !cfg.dynamic && cfg.after > 0
    requires forall h :: h in hunks ==> h.header.Explicit()
    requires forall k :: 0 < k < |hunks| ==> cfg.before < hunks[k].header.start1 && cfg.before < hunks[k].header.start2
    ensures ExtendsSafely(cfg, base, head, hunks) <==>
            forall k :: 0 <= k < |hunks| - 1 ==> OldEnd(hunks[k]) + cfg.after + cfg.before < hunks[k + 1].header.start1
  {
    SafeExactly(cfg, base, head, head, hunks);
    TrailsOk(cfg, base, head, hunks);
    forall k | 0 <= k < |hunks| - 1
      ensures Roomy(cfg, base, head, head, hunks[k], hunks[k + 1].header) <==>
              OldEnd(hunks[k]) + cfg.after + cfg.before < hunks[k + 1].header.start1
    {
      Neighbours(base, head, hunks, k);
      RoomyFixed(cfg, base, head, hunks[k], hunks[k + 1]);
    }
  }
}
