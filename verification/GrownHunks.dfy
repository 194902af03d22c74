/** Hunks grown by context lines of the old file: when a patch made of them still means the same. */
module GrownHunks {
  import opened PyText
  import opened UnifiedDiff

  /** Context lines put before and after a hunk. */
  datatype Pad = Pad(before: seq<string>, after: seq<string>)

  /** `e` is `h` with the padding around it: lead lines taken from the old file, the start moved up to match. */
  ghost predicate Grown(base: seq<string>, h: Hunk, pad: Pad, e: Hunk) {
    && e.header.start1 == h.header.start1 - |pad.before|
    && StandsAt(pad.before, base, e.header.start1 - 1)
    && OldSide(e.body) == pad.before + OldSide(h.body) + pad.after
    && NewSide(e.body) == pad.before + NewSide(h.body) + pad.after
  }

  ghost predicate AllGrown(base: seq<string>, hunks: seq<Hunk>, pads: seq<Pad>, es: seq<Hunk>) {
    && |hunks| == |pads| == |es|
    && forall k :: 0 <= k < |hunks| ==> Grown(base, hunks[k], pads[k], es[k])
  }

  /** The lines put after the hunk are the ones that follow it in the old file. */
  ghost predicate TrailFits(base: seq<string>, h: Hunk, pad: Pad) {
    StandsAt(pad.after, base, OldEnd(h))
  }

  /** The grown old range of hunk k ends before the next one starts. */
  ghost predicate Apart(hunks: seq<Hunk>, pads: seq<Pad>, es: seq<Hunk>, k: nat)
    requires |hunks| == |pads| == |es| && k + 1 < |hunks|
  {
    OldEnd(hunks[k]) + |pads[k].after| < es[k + 1].header.start1
  }

  /** Every trailing part fits, and the grown old ranges of neighbouring hunks do not overlap. */
  ghost predicate Safe(base: seq<string>, hunks: seq<Hunk>, pads: seq<Pad>, es: seq<Hunk>)
    requires |hunks| == |pads| == |es|
  {
    && (forall k :: 0 <= k < |hunks| ==> TrailFits(base, hunks[k], pads[k]))
    && (forall k :: 0 <= k < |hunks| - 1 ==> Apart(hunks, pads, es, k))
  }

  ghost predicate StartsAfter(p: int, es: seq<Hunk>) { es != [] ==> p < es[0].header.start1 }

  lemma {:induction false} ApartStep(hunks: seq<Hunk>, pads: seq<Pad>, es: seq<Hunk>)
    requires |hunks| == |pads| == |es| > 0
    ensures (forall k :: 0 <= k < |hunks| - 1 ==> Apart(hunks, pads, es, k)) <==>
            && StartsAfter(OldEnd(hunks[0]) + |pads[0].after|, es[1..])
            && (forall k :: 0 <= k < |hunks[1..]| - 1 ==> Apart(hunks[1..], pads[1..], es[1..], k))
  {
    assert |hunks| > 1 ==> (Apart(hunks, pads, es, 0) <==> StartsAfter(OldEnd(hunks[0]) + |pads[0].after|, es[1..]));
    assert forall k: nat :: k < |hunks| - 2 ==> (Apart(hunks[1..], pads[1..], es[1..], k) <==> Apart(hunks, pads, es, k + 1));
    assert forall k :: 0 < k < |hunks| - 1 ==> (Apart(hunks, pads, es, k) <==> Apart(hunks[1..], pads[1..], es[1..], k - 1));
  }

  lemma {:induction false} TrailsStep(base: seq<string>, hunks: seq<Hunk>, pads: seq<Pad>)
    requires |hunks| == |pads| > 0
    ensures (forall k :: 0 <= k < |hunks| ==> TrailFits(base, hunks[k], pads[k])) <==>
            && TrailFits(base, hunks[0], pads[0])
            && (forall k :: 0 <= k < |hunks[1..]| ==> TrailFits(base, hunks[1..][k], pads[1..][k]))
  {
    assert forall k :: 0 <= k < |hunks[1..]| ==>
             (TrailFits(base, hunks[1..][k], pads[1..][k]) <==> TrailFits(base, hunks[k + 1], pads[k + 1]));
    assert forall k :: 0 < k < |hunks| ==>
             (TrailFits(base, hunks[k], pads[k]) <==> TrailFits(base, hunks[1..][k - 1], pads[1..][k - 1]));
  }

  lemma {:induction false} SafeStep(base: seq<string>, hunks: seq<Hunk>, pads: seq<Pad>, es: seq<Hunk>)
    requires |hunks| == |pads| == |es| > 0
    ensures Safe(base, hunks, pads, es) <==>
            && TrailFits(base, hunks[0], pads[0])
            && StartsAfter(OldEnd(hunks[0]) + |pads[0].after|, es[1..])
            && Safe(base, hunks[1..], pads[1..], es[1..])
  {
    TrailsStep(base, hunks, pads);
    ApartStep(hunks, pads, es);
  }

  lemma {:induction false} SplitThree<T>(a: seq<T>, b: seq<T>, c: seq<T>)
    ensures var s := a + b + c; s[..|a|] == a && s[|a|..|a| + |b|] == b && s[|a| + |b|..] == c
  {
  }

  lemma {:induction false} SameThree<T>(a: seq<T>, b: seq<T>, c: seq<T>, x: seq<T>, y: seq<T>, z: seq<T>)
    requires |a| == |x| && |b| == |y| && |c| == |z|
    ensures a + b + c == x + y + z <==> a == x && b == y && c == z
  {
    SplitThree(a, b, c);
    SplitThree(x, y, z);
  }

  lemma {:induction false} CutThree<T>(s: seq<T>, i: nat, j: nat, k: nat, l: nat)
    requires i <= j <= k <= l <= |s|
    ensures s[i..l] == s[i..j] + s[j..k] + s[k..l]
  {
  }

  /** One hunk laid out as lead lines, own lines and trailing lines at once. */
  lemma {:induction false} StandsInThree(a: seq<string>, b: seq<string>, c: seq<string>, whole: seq<string>, at: int)
    ensures StandsAt(a + b + c, whole, at) && 0 <= at <==>
            StandsAt(a, whole, at) && StandsAt(b, whole, at + |a|) && StandsAt(c, whole, at + |a| + |b|)
  {
    var i, j, k := at + |a|, at + |a| + |b|, at + |a| + |b| + |c|;
    if 0 <= at && k <= |whole| {
      CutThree(whole, at, i, j, k);
      SameThree(a, b, c, whole[at..i], whole[i..j], whole[j..k]);
      assert whole[at..k] == whole[at..i] + whole[i..j] + whole[j..k];
      assert |a + b + c| == k - at;
    }
  }

  lemma {:induction false} SuffixOf(x: seq<string>, r: seq<string>, whole: seq<string>, k: nat)
    requires k <= |whole| && x + r == whole[k..]
    ensures |whole| - |r| == k + |x| && r == whole[k + |x|..]
  {
    assert |x + r| == |whole[k..]|;
    assert (x + r)[|x|..] == r;
    assert whole[k..][|x|..] == whole[k + |x|..];
  }

  lemma {:induction false} Middle(file: seq<string>, lo: int, hi: int, a: int, b: int)
    requires 0 <= lo <= a <= b <= hi <= |file|
    ensures file[lo..hi][a - lo..b - lo] == file[a..b]
  {
    var window := file[lo..hi];
    forall i | 0 <= i < b - a ensures window[a - lo..b - lo][i] == file[a..b][i] {
      assert window[a - lo + i] == file[a + i];
    }
  }

  /** Equal stretches of two files agree part by part. */
  lemma {:induction false} SameParts(base: seq<string>, head: seq<string>, p: nat, q: nat, s1: int, s2: int, a: int,
                                     b: int)
    requires p <= a <= b <= s1 <= |base| && q <= s2 <= |head| && base[p..s1] == head[q..s2]
    ensures s1 - p == s2 - q && base[a..b] == head[q + a - p..q + b - p]
  {
    assert |base[p..s1]| == |head[q..s2]|;
    Middle(base, p, s1, a, b);
    Middle(head, q, s2, q + a - p, q + b - p);
  }

  lemma {:induction false} FiveParts(s: seq<string>, a: int, b: int, c: int, d: int, e: int)
    requires 0 <= a <= b <= c <= d <= e <= |s|
    ensures s[a..] == s[a..b] + (s[b..c] + s[c..d] + s[d..e]) + s[e..]
  {
    CutThree(s, b, c, d, e);
    CutThree(s, a, b, e, |s|);
    assert s[a..|s|] == s[a..] && s[e..|s|] == s[e..];
  }

  /** The new file from q + t on, read through one grown hunk. */
  lemma {:induction false} HeadInPieces(base: seq<string>, head: seq<string>, p: nat, q: nat, t: nat, s1: int, s2: int,
                                        lead: int, before: seq<string>, side: seq<string>, after: seq<string>)
    requires p + t <= lead == s1 - |before| && s1 <= |base| && q <= s2 <= |head| && base[p..s1] == head[q..s2]
    requires StandsAt(before, base, lead) && StandsAt(side, head, s2) && StandsAt(after, head, s2 + |side|)
    ensures q + t <= |head|
    ensures head[q + t..] == base[p + t..lead] + (before + side + after) + head[s2 + |side| + |after|..]
  {
    SameParts(base, head, p, q, s1, s2, p + t, lead);
    SameParts(base, head, p, q, s1, s2, lead, s1);
    FiveParts(head, q + t, q + lead - p, s2, s2 + |side|, s2 + |side| + |after|);
  }

  /** One step of applying an extended hunk from line `pos` on. */
  lemma {:induction false} ApplyStep(base: seq<string>, pos: nat, e: Hunk, rest: seq<Hunk>)
    requires pos <= |base|
    ensures var at := e.header.start1 - 1;
            var fits := pos <= at && StandsAt(OldSide(e.body), base, at);
            ApplyFrom(base, pos, [e] + rest) ==
            if !fits then None
            else
              var tail := ApplyFrom(base, at + |OldSide(e.body)|, rest);
              if tail.None? then None else Some(base[pos..at] + NewSide(e.body) + tail.value)
  {
    assert ([e] + rest)[1..] == rest;
  }

  /** The same step for an old and a new side given in three parts. */
  lemma {:induction false} StepInThree(base: seq<string>, pos: nat, e: Hunk, rest: seq<Hunk>, at: int, was: seq<string>,
                                       now: seq<string>, before: seq<string>, ownOld: seq<string>, ownNew: seq<string>,
                                       after: seq<string>)
    requires pos <= |base| && at == e.header.start1 - 1 && was == OldSide(e.body) && now == NewSide(e.body)
    requires was == before + ownOld + after && now == before + ownNew + after
    requires StandsAt(before, base, at) && StandsAt(ownOld, base, at + |before|)
    ensures ApplyFrom(base, pos, [e] + rest) ==
            if !(pos <= at && StandsAt(after, base, at + |before| + |ownOld|)) then None
            else
              var tail := ApplyFrom(base, at + |before| + |ownOld| + |after|, rest);
              if tail.None? then None else Some(base[pos..at] + (before + ownNew + after) + tail.value)
  {
    ApplyStep(base, pos, e, rest);
    StandsInThree(before, ownOld, after, base, at);
    assert |was| == |before| + |ownOld| + |after|;
  }

  /** Applying the first grown hunk: it applies where it comes late enough and its trailing lines fit. */
  lemma {:induction false} GrownStep(base: seq<string>, pos: nat, h: Hunk, pad: Pad, e: Hunk, es: seq<Hunk>)
    requires StandsAt(OldSide(h.body), base, h.header.start1 - 1) && Grown(base, h, pad, e) && pos <= |base|
    ensures ApplyFrom(base, pos, [e] + es) ==
            if !(pos < e.header.start1 && TrailFits(base, h, pad)) then None
            else
              var tail := ApplyFrom(base, OldEnd(h) + |pad.after|, es);
              if tail.None? then None
              else Some(base[pos..e.header.start1 - 1] + (pad.before + NewSide(h.body) + pad.after) + tail.value)
  {
    StepInThree(base, pos, e, es, e.header.start1 - 1, OldSide(e.body), NewSide(e.body),
                pad.before, OldSide(h.body), NewSide(h.body), pad.after);
  }

  /** The text from q + t on, put together from one grown hunk and what follows it, is right exactly if what follows
      is. */
  lemma {:induction false} PieceRight(base: seq<string>, head: seq<string>, p: nat, q: nat, t: nat, s1: int, s2: int,
                                      lead: int, before: seq<string>, side: seq<string>, after: seq<string>,
                                      tail: seq<string>)
    requires p + t <= lead == s1 - |before| && s1 <= |base| && q <= s2 <= |head| && base[p..s1] == head[q..s2]
    requires StandsAt(before, base, lead) && StandsAt(side, head, s2)
    requires Gives(head, s2 + |side| + |after|, Some(tail)) ==> StandsAt(after, head, s2 + |side|)
    ensures Gives(head, q + t, Some(base[p + t..lead] + (before + side + after) + tail)) <==>
            Gives(head, s2 + |side| + |after|, Some(tail))
  {
    var x := base[p + t..lead] + (before + side + after);
    assert |base[p..s1]| == |head[q..s2]|;
    assert q + t + |x| == s2 + |side| + |after|;
    if Gives(head, q + t, Some(x + tail)) {
      SuffixOf(x, tail, head, q + t);
    }
    if Gives(head, s2 + |side| + |after|, Some(tail)) {
      HeadInPieces(base, head, p, q, t, s1, s2, lead, before, side, after);
    }
  }

  lemma {:induction false} NothingLeft(base: seq<string>, head: seq<string>, p: nat, q: nat, t: nat)
    requires TakesFrom(base, head, p, q, []) && p + t <= |base|
    ensures q + t <= |head| && base[p + t..] == head[q + t..]
  {
    GapEqual(base, head, p, q, [], t);
    assert base[p + t..] == base[p..][t..] && head[q + t..] == head[q..][t..];
  }

  /** Up to the hunk the files are the same, from line p and line q on. */
  ghost predicate GapsAgree(base: seq<string>, head: seq<string>, p: nat, q: nat, h: Hunk) {
    && p < h.header.start1 <= |base| + 1 && q < h.header.start2 <= |head| + 1
    && base[p..h.header.start1 - 1] == head[q..h.header.start2 - 1]
  }

  lemma {:induction false} FirstTaken(base: seq<string>, head: seq<string>, p: nat, q: nat, hunks: seq<Hunk>)
    requires TakesFrom(base, head, p, q, hunks) && hunks != []
    ensures HunkFits(base, head, hunks[0]) && GapsAgree(base, head, p, q, hunks[0])
    ensures OldEnd(hunks[0]) >= 0 && NewEnd(hunks[0]) >= 0
    ensures TakesFrom(base, head, OldEnd(hunks[0]), NewEnd(hunks[0]), hunks[1..])
  {
  }

  ghost predicate Gives(head: seq<string>, from: int, result: Option<seq<string>>) {
    0 <= from <= |head| && result == Some(head[from..])
  }

  /** Trailing lines that end before the next hunk stand in the new file as well. */
  lemma {:induction false} TrailInHead(base: seq<string>, head: seq<string>, h: Hunk, after: seq<string>,
                                       rest: seq<Hunk>)
    requires 0 <= OldEnd(h) && 0 <= NewEnd(h) && TakesFrom(base, head, OldEnd(h), NewEnd(h), rest)
    requires StandsAt(after, base, OldEnd(h))
    requires rest != [] ==> OldEnd(h) + |after| < rest[0].header.start1
    ensures StandsAt(after, head, NewEnd(h))
  {
    GapEqual(base, head, OldEnd(h), NewEnd(h), rest, |after|);
  }

  /** The same of a grown hunk. */
  lemma {:induction false} GrownPiece(base: seq<string>, head: seq<string>, p: nat, q: nat, t: nat, h: Hunk, pad: Pad,
                                      e: Hunk, tail: seq<string>)
    requires StandsAt(NewSide(h.body), head, h.header.start2 - 1) && Grown(base, h, pad, e) && GapsAgree(base, head, p, q, h)
    requires p + t < e.header.start1
    requires Gives(head, NewEnd(h) + |pad.after|, Some(tail)) ==> StandsAt(pad.after, head, NewEnd(h))
    ensures Gives(head, q + t, Some(base[p + t..e.header.start1 - 1] + (pad.before + NewSide(h.body) + pad.after) + tail)) <==>
            Gives(head, NewEnd(h) + |pad.after|, Some(tail))
  {
    PieceRight(base, head, p, q, t, h.header.start1 - 1, h.header.start2 - 1, e.header.start1 - 1,
               pad.before, NewSide(h.body), pad.after, tail);
  }

  /** The trailing lines stand in the new file, if the rest goes on from there. */
  lemma {:induction false} TrailIfRight(base: seq<string>, head: seq<string>, h: Hunk, after: seq<string>,
                                        rest: seq<Hunk>, es: seq<Hunk>, right: bool)
    requires 0 <= OldEnd(h) && 0 <= NewEnd(h) && TakesFrom(base, head, OldEnd(h), NewEnd(h), rest)
    requires StandsAt(after, base, OldEnd(h)) && (right ==> StartsAfter(OldEnd(h) + |after|, es))
    requires rest != [] ==> es != [] && es[0].header.start1 <= rest[0].header.start1
    ensures right ==> StandsAt(after, head, NewEnd(h))
  {
    if right {
      TrailInHead(base, head, h, after, rest);
    }
  }

  lemma {:induction false} GrownCombine(base: seq<string>, head: seq<string>, p: nat, q: nat, t: nat, h: Hunk, pad: Pad,
                                        e: Hunk, rest: seq<Hunk>, es: seq<Hunk>)
    requires StandsAt(OldSide(h.body), base, h.header.start1 - 1) && StandsAt(NewSide(h.body), head, h.header.start2 - 1)
    requires TakesFrom(base, head, OldEnd(h), NewEnd(h), rest) && Grown(base, h, pad, e)
    requires GapsAgree(base, head, p, q, h) && p + t < e.header.start1 && TrailFits(base, h, pad)
    requires rest != [] ==> es != [] && es[0].header.start1 <= rest[0].header.start1
    requires Gives(head, NewEnd(h) + |pad.after|, ApplyFrom(base, OldEnd(h) + |pad.after|, es)) ==>
             StartsAfter(OldEnd(h) + |pad.after|, es)
    ensures Gives(head, q + t, ApplyFrom(base, p + t, [e] + es)) <==>
            Gives(head, NewEnd(h) + |pad.after|, ApplyFrom(base, OldEnd(h) + |pad.after|, es))
  {
    GrownStep(base, p + t, h, pad, e, es);
    var tail := ApplyFrom(base, OldEnd(h) + |pad.after|, es);
    if tail.Some? {
      TrailIfRight(base, head, h, pad.after, rest, es, Gives(head, NewEnd(h) + |pad.after|, tail));
      GrownPiece(base, head, p, q, t, h, pad, e, tail.value);
    }
  }

  /** One hunk of the induction: `restSafe` says that the hunks after it are safe. */
  lemma {:induction false} GrownAppliesStep(base: seq<string>, head: seq<string>, p: nat, q: nat, t: nat, h: Hunk,
                                            pad: Pad, e: Hunk, rest: seq<Hunk>, es: seq<Hunk>, restSafe: bool)
    requires HunkFits(base, head, h) && TakesFrom(base, head, OldEnd(h), NewEnd(h), rest) && Grown(base, h, pad, e)
    requires GapsAgree(base, head, p, q, h) && p + t <= |base|
    requires rest != [] ==> es != [] && es[0].header.start1 <= rest[0].header.start1
    requires TrailFits(base, h, pad) ==>
               (Gives(head, NewEnd(h) + |pad.after|, ApplyFrom(base, OldEnd(h) + |pad.after|, es)) <==>
                StartsAfter(OldEnd(h) + |pad.after|, es) && restSafe)
    ensures Gives(head, q + t, ApplyFrom(base, p + t, [e] + es)) <==>
            p + t < e.header.start1 && TrailFits(base, h, pad) && StartsAfter(OldEnd(h) + |pad.after|, es) && restSafe
  {
    GrownStep(base, p + t, h, pad, e, es);
    if p + t < e.header.start1 && TrailFits(base, h, pad) {
      GrownCombine(base, head, p, q, t, h, pad, e, rest, es);
    }
  }

  ghost predicate GrownInTurn(base: seq<string>, hunks: seq<Hunk>, pads: seq<Pad>, es: seq<Hunk>) {
    && |hunks| == |pads| == |es|
    && (hunks == [] || (Grown(base, hunks[0], pads[0], es[0]) && GrownInTurn(base, hunks[1..], pads[1..], es[1..])))
  }

  ghost predicate SafeInTurn(base: seq<string>, hunks: seq<Hunk>, pads: seq<Pad>, es: seq<Hunk>)
    requires |hunks| == |pads| == |es|
  {
    hunks == [] ||
    (&& TrailFits(base, hunks[0], pads[0])
     && StartsAfter(OldEnd(hunks[0]) + |pads[0].after|, es[1..])
     && SafeInTurn(base, hunks[1..], pads[1..], es[1..]))
  }

  lemma {:induction false} RestGrown(base: seq<string>, hunks: seq<Hunk>, pads: seq<Pad>, es: seq<Hunk>)
    requires AllGrown(base, hunks, pads, es) && hunks != []
    ensures AllGrown(base, hunks[1..], pads[1..], es[1..])
    ensures Grown(base, hunks[0], pads[0], es[0])
    ensures |hunks| > 1 ==> es[1].header.start1 <= hunks[1].header.start1
  {
    assert |hunks| > 1 ==> Grown(base, hunks[1], pads[1], es[1]);
    forall k | 0 <= k < |hunks[1..]| ensures Grown(base, hunks[1..][k], pads[1..][k], es[1..][k]) {
      assert Grown(base, hunks[k + 1], pads[k + 1], es[k + 1]);
    }
  }

  lemma {:induction false} InTurn(base: seq<string>, hunks: seq<Hunk>, pads: seq<Pad>, es: seq<Hunk>)
    requires AllGrown(base, hunks, pads, es)
    ensures GrownInTurn(base, hunks, pads, es) && (SafeInTurn(base, hunks, pads, es) <==> Safe(base, hunks, pads, es))
  {
    if hunks != [] {
      RestGrown(base, hunks, pads, es);
      SafeStep(base, hunks, pads, es);
      InTurn(base, hunks[1..], pads[1..], es[1..]);
    }
  }

  lemma {:induction false} AppliesStep(base: seq<string>, head: seq<string>, p: nat, q: nat, t: nat, hunks: seq<Hunk>,
                                       pads: seq<Pad>, es: seq<Hunk>)
    requires TakesFrom(base, head, p, q, hunks) && GrownInTurn(base, hunks, pads, es) && hunks != []
    requires p + t <= |base|
    requires var at, to := OldEnd(hunks[0]) + |pads[0].after|, NewEnd(hunks[0]) + |pads[0].after|;
             TrailFits(base, hunks[0], pads[0]) ==>
               (Gives(head, to, ApplyFrom(base, at, es[1..])) <==>
                StartsAfter(at, es[1..]) && SafeInTurn(base, hunks[1..], pads[1..], es[1..]))
    ensures Gives(head, q + t, ApplyFrom(base, p + t, es)) <==>
            (StartsAfter(p + t, es) && SafeInTurn(base, hunks, pads, es))
  {
    var h, pad, rest, more := hunks[0], pads[0], hunks[1..], es[1..];
    FirstTaken(base, head, p, q, hunks);
    GrownAppliesStep(base, head, p, q, t, h, pad, es[0], rest, more, SafeInTurn(base, rest, pads[1..], more));
    assert es == [es[0]] + more;
  }

  lemma {:induction false} AppliesInTurn(base: seq<string>, head: seq<string>, p: nat, q: nat, t: nat,
                                         hunks: seq<Hunk>, pads: seq<Pad>, es: seq<Hunk>)
    requires TakesFrom(base, head, p, q, hunks) && GrownInTurn(base, hunks, pads, es)
    requires p + t <= |base|
    ensures Gives(head, q + t, ApplyFrom(base, p + t, es)) <==>
            (StartsAfter(p + t, es) && SafeInTurn(base, hunks, pads, es))
    decreases |hunks|
  {
    if hunks == [] {
      NothingLeft(base, head, p, q, t);
    } else {
      var h, pad := hunks[0], pads[0];
      FirstTaken(base, head, p, q, hunks);
      if TrailFits(base, h, pad) {
        AppliesInTurn(base, head, OldEnd(h), NewEnd(h), |pad.after|, hunks[1..], pads[1..], es[1..]);
      }
      AppliesStep(base, head, p, q, t, hunks, pads, es);
    }
  }

  /** Applying grown hunks from line p + t on gives the new file from line q + t on exactly where the hunks stay
      apart and their trailing lines fit. */
  lemma {:induction false} GrownApplies(base: seq<string>, head: seq<string>, p: nat, q: nat, t: nat, hunks: seq<Hunk>,
                                        pads: seq<Pad>, es: seq<Hunk>)
    requires TakesFrom(base, head, p, q, hunks) && AllGrown(base, hunks, pads, es)
    requires p + t <= |base|
    ensures Gives(head, q + t, ApplyFrom(base, p + t, es)) <==>
            (StartsAfter(p + t, es) && Safe(base, hunks, pads, es))
  {
    InTurn(base, hunks, pads, es);
    AppliesInTurn(base, head, p, q, t, hunks, pads, es);
  }

  // ---------- grown hunks as a well-formed patch ----------

  /** The header of a grown hunk says how many lines it has, and both starts moved by its lead lines. */
  ghost predicate Exact(h: Hunk, pad: Pad, e: Hunk) {
    && e.header.OldCount() == |OldSide(e.body)|
    && e.header.NewCount() == |NewSide(e.body)|
    && e.header.start2 == h.header.start2 - |pad.before|
  }

  ghost predicate AllExact(hunks: seq<Hunk>, pads: seq<Pad>, es: seq<Hunk>)
    requires |hunks| == |pads| == |es|
  {
    forall k :: 0 <= k < |hunks| ==> Exact(hunks[k], pads[k], es[k])
  }

  ghost predicate BodiesOk(es: seq<Hunk>) {
    forall k, l :: 0 <= k < |es| && l in es[k].body ==> BodyLine(l)
  }

  /** The new side of a grown hunk stands in the new file. */
  lemma {:induction false} NewSideStands(base: seq<string>, head: seq<string>, p: nat, q: nat, h: Hunk, pad: Pad,
                                         e: Hunk)
    requires HunkFits(base, head, h) && Grown(base, h, pad, e) && p < e.header.start1 && q < h.header.start2
    requires base[p..h.header.start1 - 1] == head[q..h.header.start2 - 1]
    requires StandsAt(pad.after, head, NewEnd(h))
    ensures StandsAt(NewSide(e.body), head, h.header.start2 - 1 - |pad.before|)
    ensures q <= h.header.start2 - 1 - |pad.before|
  {
    ThreeStand(base, head, p, q, h.header.start1 - 1, h.header.start2 - 1, pad.before, NewSide(h.body), pad.after);
  }

  /** Lead lines taken just before a hunk stand just before it in the new file too. */
  lemma {:induction false} LeadInHead(base: seq<string>, head: seq<string>, p: nat, q: nat, s1: int, s2: int,
                                      before: seq<string>)
    requires p <= s1 - |before| && s1 <= |base| && q <= s2 <= |head| && base[p..s1] == head[q..s2]
    requires StandsAt(before, base, s1 - |before|)
    ensures StandsAt(before, head, s2 - |before|) && q <= s2 - |before|
  {
    SameParts(base, head, p, q, s1, s2, s1 - |before|, s1);
  }

  lemma {:induction false} ThreeStand(base: seq<string>, head: seq<string>, p: nat, q: nat, s1: int, s2: int,
                                      before: seq<string>, side: seq<string>, after: seq<string>)
    requires p <= s1 - |before| && s1 <= |base| && q <= s2 <= |head| && base[p..s1] == head[q..s2]
    requires StandsAt(before, base, s1 - |before|) && StandsAt(side, head, s2) && StandsAt(after, head, s2 + |side|)
    ensures StandsAt(before + side + after, head, s2 - |before|) && q <= s2 - |before|
  {
    LeadInHead(base, head, p, q, s1, s2, before);
    StandsInThree(before, side, after, head, s2 - |before|);
  }

  lemma {:induction false} ThreePlaced(whole: seq<string>, all: seq<string>, before: seq<string>, own: seq<string>,
                                       after: seq<string>, at: int)
    requires all == before + own + after
    requires StandsAt(before, whole, at) && StandsAt(own, whole, at + |before|) && StandsAt(after, whole, at + |before| + |own|)
    ensures StandsAt(all, whole, at) && |all| == |before| + |own| + |after|
  {
    StandsInThree(before, own, after, whole, at);
  }

  /** The old side of a grown hunk stands in the old file. */
  lemma {:induction false} OldSidePlaced(base: seq<string>, h: Hunk, pad: Pad, e: Hunk)
    requires Grown(base, h, pad, e) && StandsAt(OldSide(h.body), base, h.header.start1 - 1) && TrailFits(base, h, pad)
    ensures StandsAt(OldSide(e.body), base, e.header.start1 - 1)
    ensures e.header.start1 - 1 + |OldSide(e.body)| == OldEnd(h) + |pad.after|
  {
    ThreePlaced(base, OldSide(e.body), pad.before, OldSide(h.body), pad.after, e.header.start1 - 1);
  }

  lemma {:induction false} GrownFits(base: seq<string>, head: seq<string>, h: Hunk, pad: Pad, e: Hunk)
    requires HunkFits(base, head, h) && Grown(base, h, pad, e) && Exact(h, pad, e) && TrailFits(base, h, pad)
    requires StandsAt(NewSide(e.body), head, e.header.start2 - 1)
    requires forall l :: l in e.body ==> BodyLine(l)
    ensures HunkFits(base, head, e)
    ensures OldEnd(e) == OldEnd(h) + |pad.after| && NewEnd(e) == NewEnd(h) + |pad.after|
  {
    OldSidePlaced(base, h, pad, e);
    var now := NewSide(e.body);
    assert |now| == |pad.before| + |NewSide(h.body)| + |pad.after|;
  }

  lemma {:induction false} GrownTakesStep(base: seq<string>, head: seq<string>, p: nat, q: nat, t: nat, h: Hunk,
                                          pad: Pad, e: Hunk, rest: seq<Hunk>, es: seq<Hunk>)
    requires HunkFits(base, head, h) && TakesFrom(base, head, OldEnd(h), NewEnd(h), rest) && Grown(base, h, pad, e)
    requires GapsAgree(base, head, p, q, h) && Exact(h, pad, e) && TrailFits(base, h, pad) && (forall l :: l in e.body ==> BodyLine(l))
    requires p + t < e.header.start1
    requires rest != [] ==> OldEnd(h) + |pad.after| < rest[0].header.start1
    requires TakesFrom(base, head, OldEnd(h) + |pad.after|, NewEnd(h) + |pad.after|, es)
    ensures TakesFrom(base, head, p + t, q + t, [e] + es)
  {
    TrailInHead(base, head, h, pad.after, rest);
    GrownTakesCons(base, head, p, q, t, h, pad, e, es);
  }

  lemma {:induction false} GrownTakesCons(base: seq<string>, head: seq<string>, p: nat, q: nat, t: nat, h: Hunk,
                                          pad: Pad, e: Hunk, es: seq<Hunk>)
    requires HunkFits(base, head, h) && Grown(base, h, pad, e) && StandsAt(pad.after, head, NewEnd(h))
    requires GapsAgree(base, head, p, q, h) && Exact(h, pad, e) && TrailFits(base, h, pad) && (forall l :: l in e.body ==> BodyLine(l))
    requires p + t < e.header.start1 && 0 <= OldEnd(h) && 0 <= NewEnd(h)
    requires TakesFrom(base, head, OldEnd(h) + |pad.after|, NewEnd(h) + |pad.after|, es)
    ensures TakesFrom(base, head, p + t, q + t, [e] + es)
  {
    GrownCons(base, head, p, q, t, h, pad, e);
    assert TakesFrom(base, head, OldEnd(e), NewEnd(e), es);
    TakesCons(base, head, p + t, q + t, e, es);
  }

  lemma {:induction false} TakesInTurn(base: seq<string>, head: seq<string>, p: nat, q: nat, t: nat,
                                       hunks: seq<Hunk>, pads: seq<Pad>, es: seq<Hunk>)
    requires TakesFrom(base, head, p, q, hunks) && GrownInTurn(base, hunks, pads, es)
    requires p + t <= |base| && StartsAfter(p + t, es)
    requires SafeInTurn(base, hunks, pads, es) && ExactInTurn(hunks, pads, es)
    ensures TakesFrom(base, head, p + t, q + t, es)
    decreases |hunks|
  {
    if hunks == [] {
      NothingLeft(base, head, p, q, t);
    } else {
      var h, pad, rest, more := hunks[0], pads[0], hunks[1..], es[1..];
      FirstTaken(base, head, p, q, hunks);
      TakesInTurn(base, head, OldEnd(h), NewEnd(h), |pad.after|, rest, pads[1..], more);
      GrownTakesStep(base, head, p, q, t, h, pad, es[0], rest, more);
      assert es == [es[0]] + more;
    }
  }

  lemma {:induction false} GrownTakes(base: seq<string>, head: seq<string>, p: nat, q: nat, t: nat, hunks: seq<Hunk>,
                                      pads: seq<Pad>, es: seq<Hunk>)
    requires TakesFrom(base, head, p, q, hunks) && AllGrown(base, hunks, pads, es) && BodiesOk(es)
    requires p + t <= |base| && StartsAfter(p + t, es)
    requires Safe(base, hunks, pads, es) && AllExact(hunks, pads, es)
    ensures TakesFrom(base, head, p + t, q + t, es)
  {
    InTurn(base, hunks, pads, es);
    ExactTurns(hunks, pads, es);
    TakesInTurn(base, head, p, q, t, hunks, pads, es);
  }

  /** A grown hunk in its place after line p + t of the old and q + t of the new file. */
  lemma {:induction false} GrownCons(base: seq<string>, head: seq<string>, p: nat, q: nat, t: nat, h: Hunk, pad: Pad,
                                     e: Hunk)
    requires HunkFits(base, head, h) && Grown(base, h, pad, e) && Exact(h, pad, e) && TrailFits(base, h, pad)
    requires forall l :: l in e.body ==> BodyLine(l)
    requires p + t < e.header.start1 && q < h.header.start2
    requires base[p..h.header.start1 - 1] == head[q..h.header.start2 - 1]
    requires StandsAt(pad.after, head, NewEnd(h))
    ensures HunkFits(base, head, e)
    ensures OldEnd(e) == OldEnd(h) + |pad.after| && NewEnd(e) == NewEnd(h) + |pad.after|
    ensures q + t <= e.header.start2 - 1 && base[p + t..e.header.start1 - 1] == head[q + t..e.header.start2 - 1]
  {
    NewSideStands(base, head, p, q, h, pad, e);
    GrownFits(base, head, h, pad, e);
    GapBefore(base, head, p, q, t, h.header.start1 - 1, h.header.start2 - 1, |pad.before|);
  }

  lemma {:induction false} GapBefore(base: seq<string>, head: seq<string>, p: nat, q: nat, t: nat, s1: int, s2: int,
                                     moved: nat)
    requires p + t <= s1 - moved && s1 <= |base| && q <= s2 <= |head| && base[p..s1] == head[q..s2]
    ensures q + t <= s2 - moved && base[p + t..s1 - moved] == head[q + t..s2 - moved]
  {
    SameParts(base, head, p, q, s1, s2, p + t, s1 - moved);
  }

  ghost predicate ExactInTurn(hunks: seq<Hunk>, pads: seq<Pad>, es: seq<Hunk>)
    requires |hunks| == |pads| == |es|
  {
    hunks == [] ||
    (&& Exact(hunks[0], pads[0], es[0]) && (forall l :: l in es[0].body ==> BodyLine(l))
     && ExactInTurn(hunks[1..], pads[1..], es[1..]))
  }

  lemma {:induction false} ExactTurns(hunks: seq<Hunk>, pads: seq<Pad>, es: seq<Hunk>)
    requires |hunks| == |pads| == |es|
    ensures ExactInTurn(hunks, pads, es) <==> AllExact(hunks, pads, es) && BodiesOk(es)
  {
    if hunks != [] {
      ExactTurns(hunks[1..], pads[1..], es[1..]);
    }
  }

  /** In a well-formed patch both starts of a grown hunk have moved by the same number of lines. */
  lemma {:induction false} ExactFirst(base: seq<string>, head: seq<string>, p: nat, q: nat, t: nat, h: Hunk, pad: Pad,
                                      e: Hunk)
    requires HunkFits(base, head, h) && GapsAgree(base, head, p, q, h) && Grown(base, h, pad, e)
    requires HunkFits(base, head, e) && GapsAgree(base, head, p + t, q + t, e)
    ensures Exact(h, pad, e)
    ensures OldEnd(e) == OldEnd(h) + |pad.after| && NewEnd(e) == NewEnd(h) + |pad.after|
  {
    assert |base[p..h.header.start1 - 1]| == |head[q..h.header.start2 - 1]|;
    assert |base[p + t..e.header.start1 - 1]| == |head[q + t..e.header.start2 - 1]|;
    assert |OldSide(e.body)| == |pad.before| + |OldSide(h.body)| + |pad.after|;
    assert |NewSide(e.body)| == |pad.before| + |NewSide(h.body)| + |pad.after|;
  }

  lemma {:induction false} ExactFrom(base: seq<string>, head: seq<string>, p: nat, q: nat, t: nat, h: Hunk, pad: Pad,
                                     e: Hunk, more: seq<Hunk>)
    requires HunkFits(base, head, h) && GapsAgree(base, head, p, q, h) && Grown(base, h, pad, e) && 0 <= OldEnd(h) && 0 <= NewEnd(h)
    requires HunkFits(base, head, e) && GapsAgree(base, head, p + t, q + t, e) && 0 <= OldEnd(e) && 0 <= NewEnd(e)
    requires TakesFrom(base, head, OldEnd(e), NewEnd(e), more)
    ensures Exact(h, pad, e) && forall l :: l in e.body ==> BodyLine(l)
    ensures TakesFrom(base, head, OldEnd(h) + |pad.after|, NewEnd(h) + |pad.after|, more)
  {
    ExactFirst(base, head, p, q, t, h, pad, e);
  }

  lemma {:induction false} FirstExact(base: seq<string>, head: seq<string>, p: nat, q: nat, t: nat, h: Hunk, pad: Pad,
                                      es: seq<Hunk>)
    requires HunkFits(base, head, h) && GapsAgree(base, head, p, q, h) && 0 <= OldEnd(h) && 0 <= NewEnd(h)
    requires es != [] && Grown(base, h, pad, es[0]) && TakesFrom(base, head, p + t, q + t, es)
    ensures Exact(h, pad, es[0]) && forall l :: l in es[0].body ==> BodyLine(l)
    ensures TakesFrom(base, head, OldEnd(h) + |pad.after|, NewEnd(h) + |pad.after|, es[1..])
  {
    FirstTaken(base, head, p + t, q + t, es);
    ExactFrom(base, head, p, q, t, h, pad, es[0], es[1..]);
  }

  lemma {:induction false} StartsInTurn(base: seq<string>, head: seq<string>, p: nat, q: nat, t: nat,
                                        hunks: seq<Hunk>, pads: seq<Pad>, es: seq<Hunk>)
    requires TakesFrom(base, head, p, q, hunks) && GrownInTurn(base, hunks, pads, es)
    requires TakesFrom(base, head, p + t, q + t, es)
    ensures ExactInTurn(hunks, pads, es)
    decreases |hunks|
  {
    if hunks != [] {
      FirstTaken(base, head, p, q, hunks);
      FirstExact(base, head, p, q, t, hunks[0], pads[0], es);
      StartsInTurn(base, head, OldEnd(hunks[0]), NewEnd(hunks[0]), |pads[0].after|, hunks[1..], pads[1..], es[1..]);
    }
  }

  /** Where grown hunks are a well-formed patch again, their headers are exact. */
  lemma {:induction false} TakesStarts(base: seq<string>, head: seq<string>, p: nat, q: nat, t: nat, hunks: seq<Hunk>,
                                       pads: seq<Pad>, es: seq<Hunk>)
    requires TakesFrom(base, head, p, q, hunks) && AllGrown(base, hunks, pads, es)
    requires TakesFrom(base, head, p + t, q + t, es)
    ensures AllExact(hunks, pads, es)
  {
    InTurn(base, hunks, pads, es);
    StartsInTurn(base, head, p, q, t, hunks, pads, es);
    ExactTurns(hunks, pads, es);
  }
}
