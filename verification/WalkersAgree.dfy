/** All the line walkers follow one line number, and on a well-formed patch that number is the line's place in its file. */
module WalkersAgree {
  import opened PyText
  import opened UnifiedDiff
  import opened LineWalkers
  import opened DecoupleHunks
  import opened NumberedText

  // ---------- how far two walkers differ ----------

  /** Lines since the last header, up to line i, that `p` counts and `q` does not. */
  function Excess(lines: seq<Line>, i: int, p: Line -> bool, q: Line -> bool): nat
    requires -1 <= i < |lines|
    decreases i + 1
  {
    if i < 0 || lines[i].Head? then 0
    else Excess(lines, i - 1, p, q) + (if p(lines[i]) && !q(lines[i]) then 1 else 0)
  }

  /** Two walkers that start alike differ by what one counts and the other does not, since the last header. */
  lemma {:induction false} WalkersDiffer(before: int, lines: seq<Line>, i: int, p: Line -> bool, q: Line -> bool)
    requires -1 <= i < |lines|
    ensures LineNo(before, lines, i, p) - LineNo(before, lines, i, q) == Excess(lines, i, p, q) - Excess(lines, i, q, p)
    decreases i + 1
  {
    if i >= 0 && !lines[i].Head? {
      WalkersDiffer(before, lines, i - 1, p, q);
    }
  }

  /** Line j lies in the hunk of line i, at or before it. */
  ghost predicate SameHunk(lines: seq<Line>, j: int, i: int) {
    0 <= j <= i < |lines| && forall k :: j <= k <= i ==> !lines[k].Head?
  }

  lemma {:induction false} ExcessZero(lines: seq<Line>, i: int, p: Line -> bool, q: Line -> bool)
    requires -1 <= i < |lines|
    ensures Excess(lines, i, p, q) == 0 <==> forall j :: SameHunk(lines, j, i) ==> (p(lines[j]) ==> q(lines[j]))
    decreases i + 1
  {
    if i >= 0 && !lines[i].Head? {
      ExcessZero(lines, i - 1, p, q);
      assert forall j :: SameHunk(lines, j, i) <==> j == i || SameHunk(lines, j, i - 1);
    } else if i >= 0 {
      assert forall j :: SameHunk(lines, j, i) ==> !lines[i].Head?;
    }
  }

  lemma {:induction false} ExcessNone(lines: seq<Line>, i: int, p: Line -> bool, q: Line -> bool)
    requires -1 <= i < |lines| && forall l :: l in lines && p(l) ==> q(l)
    ensures Excess(lines, i, p, q) == 0
  {
    ExcessZero(lines, i, p, q);
  }

  /** The position searches and GitLab's walk give a line the same number exactly if no marker of a missing newline and
      no empty line comes before it in its hunk. */
  lemma {:induction false} SearchesAgree(lines: seq<Line>, i: int)
    requires 0 <= i < |lines|
    ensures LineNo(-1, lines, i, NotMinus) == LineNo(-1, lines, i, InNew) <==>
            forall j :: SameHunk(lines, j, i) ==> !lines[j].Note? && !lines[j].Blank?
  {
    WalkersDiffer(-1, lines, i, NotMinus, InNew);
    ExcessNone(lines, i, InNew, NotMinus);
    ExcessZero(lines, i, NotMinus, InNew);
  }

  /** What the numbered text counts. */
  function Shown(skip: Line -> bool): Line -> bool { (l: Line) => !l.Head? && !l.Del? && !skip(l) }

  /** The number shown by a line of the decoupled patch is the number of that walk. */
  lemma {:induction false} DecoupledNumberIsLineNo(skip: Line -> bool, h: Hunk, k: nat)
    requires NoHeads(h.body) && k < |h.body| && !skip(h.body[k]) && !h.body[k].Del?
    ensures var shown := Consecutive(h.header.start2, News(Kept(skip, h.body)));
            var at := |News(Kept(skip, h.body[..k]))|;
            && at < |shown|
            && shown[at] == (LineNo(-1, [Head(h.header)] + h.body, k + 1, Shown(skip)), Raw(h.body[k]))
  {
    var before, lines := News(Kept(skip, h.body[..k])), [Head(h.header)] + h.body;
    NewsSplit(skip, h.body, k);
    assert News(Kept(skip, h.body))[|before|] == h.body[k];
    CountSoFar(skip, h.header, h.body, k);
    assert lines[k + 1] == h.body[k] && h.body[k] in h.body;
    assert LineNo(-1, lines, k + 1, Shown(skip)) == LineNo(-1, lines, k, Shown(skip)) + 1;
  }

  lemma {:induction false} NewsSplit(skip: Line -> bool, body: seq<Line>, k: nat)
    requires k < |body| && !skip(body[k]) && !body[k].Del?
    ensures News(Kept(skip, body)) ==
            News(Kept(skip, body[..k])) + [body[k]] + News(Kept(skip, body[k + 1..]))
    decreases k
  {
    NewsOfKept(skip, body);
    if k > 0 {
      NewsSplit(skip, body[1..], k - 1);
      NewsOfKept(skip, body[..k]);
      assert body[..k][1..] == body[1..][..k - 1] && body[1..][k..] == body[k + 1..];
      var first := if skip(body[0]) || body[0].Del? then [] else [body[0]];
      Assoc(first, News(Kept(skip, body[1..][..k - 1])), [body[k]]);
      Assoc(first, News(Kept(skip, body[1..][..k - 1])) + [body[k]], News(Kept(skip, body[k + 1..])));
    }
  }

  /** After the first k lines of a body the number has grown by the lines shown. */
  lemma {:induction false} CountSoFar(skip: Line -> bool, header: Header, body: seq<Line>, k: nat)
    requires NoHeads(body) && k <= |body|
    ensures LineNo(-1, [Head(header)] + body, k, Shown(skip)) == header.start2 - 1 + |News(Kept(skip, body[..k]))|
  {
    if k > 0 {
      CountSoFar(skip, header, body, k - 1);
      assert body[k - 1] in body && ([Head(header)] + body)[k] == body[k - 1];
      NewsSnoc(skip, body[..k - 1], body[k - 1]);
      assert body[..k] == body[..k - 1] + [body[k - 1]];
    }
  }

  lemma {:induction false} NewsSnoc(skip: Line -> bool, body: seq<Line>, l: Line)
    ensures |News(Kept(skip, body + [l]))| == |News(Kept(skip, body))| + (if skip(l) || l.Del? then 0 else 1)
  {
    NewsOfKept(skip, body + [l]);
    if body == [] {
      assert body + [l] == [l] && [l][1..] == [];
    } else {
      NewsOfKept(skip, body);
      NewsSnoc(skip, body[1..], l);
      assert (body + [l])[1..] == body[1..] + [l];
    }
  }

  // ---------- the number is the place in the file ----------

  /** The lines of one hunk, in place: line numbers run along both sides. */
  lemma {:induction false} NumberInBody(before: int, header: Header, body: seq<Line>, tail: seq<Line>, k: nat)
    requires NoHeads(body) && k <= |body|
    ensures var lines := [Head(header)] + body + tail;
            && LineNo(before, lines, k, InNew) == header.start2 - 1 + |NewSide(body[..k])|
            && OldLineNo(before, lines, k, InOld) == header.start1 - 1 + |OldSide(body[..k])|
  {
    if k > 0 {
      NumberInBody(before, header, body, tail, k - 1);
      assert body[k - 1] in body && ([Head(header)] + body + tail)[k] == body[k - 1];
      assert body[..k] == body[..k - 1] + [body[k - 1]];
      NewSideConcat(body[..k - 1], [body[k - 1]]);
      OldSideConcat(body[..k - 1], [body[k - 1]]);
    }
  }

  /** A line on one side stands there right after the lines before it. */
  lemma {:induction false} SideAt(body: seq<Line>, k: nat)
    requires k < |body|
    ensures InNew(body[k]) ==> |NewSide(body[..k])| < |NewSide(body)| && NewSide(body)[|NewSide(body[..k])|] == body[k].text
    ensures InOld(body[k]) ==> |OldSide(body[..k])| < |OldSide(body)| && OldSide(body)[|OldSide(body[..k])|] == body[k].text
    ensures |NewSide(body[..k + 1])| == |NewSide(body[..k])| + (if InNew(body[k]) then 1 else 0) <= |NewSide(body)|
    ensures |OldSide(body[..k + 1])| == |OldSide(body[..k])| + (if InOld(body[k]) then 1 else 0) <= |OldSide(body)|
  {
    assert body == body[..k] + [body[k]] + body[k + 1..];
    assert body[..k + 1] == body[..k] + [body[k]];
    NewSideConcat(body[..k], [body[k]]);
    NewSideConcat(body[..k] + [body[k]], body[k + 1..]);
    OldSideConcat(body[..k], [body[k]]);
    OldSideConcat(body[..k] + [body[k]], body[k + 1..]);
  }

  /** A header starts the count afresh. */
  lemma {:induction false} NumberAfterHeader(before: int, a: seq<Line>, b: seq<Line>, i: nat)
    requires b != [] && b[0].Head? && i < |b|
    ensures LineNo(before, a + b, |a| + i, InNew) == LineNo(before, b, i, InNew)
    ensures OldLineNo(before, a + b, |a| + i, InOld) == OldLineNo(before, b, i, InOld)
  {
    assert (a + b)[|a| + i] == b[i];
    if !b[i].Head? {
      NumberAfterHeader(before, a, b, i - 1);
    }
  }

  /** A line with number n in the new file and m in the old one stands there in each file it belongs to. */
  ghost predicate InPlace(base: seq<string>, head: seq<string>, l: Line, n: int, m: int) {
    && (InNew(l) ==> 1 <= n <= |head| && head[n - 1] == l.text)
    && (InOld(l) ==> 1 <= m <= |base| && base[m - 1] == l.text)
  }

  ghost predicate RightNumbers(base: seq<string>, head: seq<string>, lines: seq<Line>, i: int)
    requires 0 <= i < |lines|
  {
    InPlace(base, head, lines[i], LineNo(-1, lines, i, InNew), OldLineNo(-1, lines, i, InOld))
  }

  /** Line k of a body, in its place in the new file. */
  lemma {:induction false} NewLinePlaced(head: seq<string>, body: seq<Line>, at: int, k: nat)
    requires StandsAt(NewSide(body), head, at) && k < |body| && InNew(body[k])
    ensures 0 <= at + |NewSide(body[..k])| < |head| && head[at + |NewSide(body[..k])|] == body[k].text
  {
    SideAt(body, k);
  }

  lemma {:induction false} OldLinePlaced(base: seq<string>, body: seq<Line>, at: int, k: nat)
    requires StandsAt(OldSide(body), base, at) && k < |body| && InOld(body[k])
    ensures 0 <= at + |OldSide(body[..k])| < |base| && base[at + |OldSide(body[..k])|] == body[k].text
  {
    SideAt(body, k);
  }

  /** The numbers of line k of a body. */
  function NewNo(h: Hunk, k: nat): int
    requires k < |h.body|
  {
    h.header.start2 - 1 + |NewSide(h.body[..k])| + (if InNew(h.body[k]) then 1 else 0)
  }

  function OldNo(h: Hunk, k: nat): int
    requires k < |h.body|
  {
    h.header.start1 - 1 + |OldSide(h.body[..k])| + (if InOld(h.body[k]) then 1 else 0)
  }

  lemma {:induction false} NumberOfLine(h: Hunk, tail: seq<Line>, k: nat)
    requires NoHeads(h.body) && k < |h.body|
    ensures var lines := [Head(h.header)] + h.body + tail;
            && lines[k + 1] == h.body[k]
            && LineNo(-1, lines, k + 1, InNew) == NewNo(h, k)
            && OldLineNo(-1, lines, k + 1, InOld) == OldNo(h, k)
  {
    NumberInBody(-1, h.header, h.body, tail, k);
    assert ([Head(h.header)] + h.body + tail)[k + 1] == h.body[k] && h.body[k] in h.body;
  }

  lemma {:induction false} BodyLinePlaced(base: seq<string>, head: seq<string>, h: Hunk, k: nat)
    requires StandsAt(OldSide(h.body), base, h.header.start1 - 1) && StandsAt(NewSide(h.body), head, h.header.start2 - 1)
    requires k < |h.body|
    ensures InPlace(base, head, h.body[k], NewNo(h, k), OldNo(h, k))
  {
    if InNew(h.body[k]) {
      NewLinePlaced(head, h.body, h.header.start2 - 1, k);
    }
    if InOld(h.body[k]) {
      OldLinePlaced(base, h.body, h.header.start1 - 1, k);
    }
  }

  lemma {:induction false} BodyLineRight(base: seq<string>, head: seq<string>, h: Hunk, tail: seq<Line>, k: nat)
    requires StandsAt(OldSide(h.body), base, h.header.start1 - 1) && StandsAt(NewSide(h.body), head, h.header.start2 - 1)
    requires k < |h.body| && NoHeads(h.body)
    ensures RightNumbers(base, head, [Head(h.header)] + h.body + tail, k + 1)
  {
    NumberOfLine(h, tail, k);
    BodyLinePlaced(base, head, h, k);
  }

  lemma {:induction false} FirstHunkRight(base: seq<string>, head: seq<string>, h: Hunk, tail: seq<Line>, i: nat)
    requires StandsAt(OldSide(h.body), base, h.header.start1 - 1) && StandsAt(NewSide(h.body), head, h.header.start2 - 1)
    requires i <= |h.body| && NoHeads(h.body)
    ensures RightNumbers(base, head, [Head(h.header)] + h.body + tail, i)
  {
    if i > 0 {
      BodyLineRight(base, head, h, tail, i - 1);
    } else {
      assert ([Head(h.header)] + h.body + tail)[0] == Head(h.header);
    }
  }

  lemma {:induction false} LaterHunkRight(base: seq<string>, head: seq<string>, first: seq<Line>, tail: seq<Line>,
                                          j: nat)
    requires j < |tail| && tail[0].Head? && RightNumbers(base, head, tail, j)
    ensures RightNumbers(base, head, first + tail, |first| + j)
  {
    NumberAfterHeader(-1, first, tail, j);
    assert (first + tail)[|first| + j] == tail[j];
  }

  lemma {:induction false} FirstStands(base: seq<string>, head: seq<string>, p: nat, q: nat, hunks: seq<Hunk>)
    requires TakesFrom(base, head, p, q, hunks) && hunks != []
    ensures var h := hunks[0];
            && NoHeads(h.body) && OldEnd(h) >= 0 && NewEnd(h) >= 0
            && StandsAt(OldSide(h.body), base, h.header.start1 - 1) && StandsAt(NewSide(h.body), head, h.header.start2 - 1)
            && TakesFrom(base, head, OldEnd(h), NewEnd(h), hunks[1..])
  {
  }

  /** On a well-formed patch, the number every walker gives a line is the line's place in the file it belongs to. */
  lemma {:induction false} NumbersAreRight(base: seq<string>, head: seq<string>, p: nat, q: nat, hunks: seq<Hunk>,
                                           i: nat)
    requires TakesFrom(base, head, p, q, hunks) && i < |Flatten(hunks)|
    ensures RightNumbers(base, head, Flatten(hunks), i)
    decreases |hunks|
  {
    var h, tail := hunks[0], Flatten(hunks[1..]);
    var first := [Head(h.header)] + h.body;
    FirstStands(base, head, p, q, hunks);
    if i >= |first| {
      NumbersAreRight(base, head, OldEnd(h), NewEnd(h), hunks[1..], i - |first|);
      LaterHunkRight(base, head, first, tail, i - |first|);
    } else {
      FirstHunkRight(base, head, h, tail, i);
    }
  }

  // ---------- search by text and back ----------

  /** No header takes the number back. */
  ghost predicate Ascending(lines: seq<Line>, counts: Line -> bool) {
    forall i :: 0 < i < |lines| && lines[i].Head? ==> LineNo(-1, lines, i - 1, counts) <= lines[i].header.start2 - 1
  }

  lemma {:induction false} NumbersAscend(lines: seq<Line>, counts: Line -> bool, j: nat, i: nat)
    requires Ascending(lines, counts) && j <= i < |lines|
    ensures LineNo(-1, lines, j, counts) <= LineNo(-1, lines, i, counts)
  {
    if j < i {
      NumbersAscend(lines, counts, j, i - 1);
    }
  }

  /** A line is the first with its number exactly if it is the first line at all or its number is a new one. */
  lemma {:induction false} FirstWithNumber(lines: seq<Line>, counts: Line -> bool, i: nat)
    requires Ascending(lines, counts) && i < |lines|
    ensures (forall k :: 0 <= k < i ==> LineNo(-1, lines, k, counts) != LineNo(-1, lines, i, counts)) <==>
            i == 0 || LineNo(-1, lines, i - 1, counts) < LineNo(-1, lines, i, counts)
  {
    if i > 0 {
      NumbersAscend(lines, counts, i - 1, i);
      forall k | 0 <= k < i ensures LineNo(-1, lines, k, counts) <= LineNo(-1, lines, i - 1, counts) {
        NumbersAscend(lines, counts, k, i - 1);
      }
    }
  }

  /** On a patch that starts with a header it does not matter where the count starts. */
  lemma {:induction false} StartIrrelevant(a: int, b: int, lines: seq<Line>, i: nat, counts: Line -> bool)
    requires i < |lines| && lines[0].Head?
    ensures LineNo(a, lines, i, counts) == LineNo(b, lines, i, counts)
  {
    if !lines[i].Head? {
      StartIrrelevant(a, b, lines, i - 1, counts);
    }
  }

  /** Searching by the number that a search by text gave comes back to the same line exactly if the line is the first of
      the patch or its number differs from that of the line before; so it always does from a line that is no header. */
  lemma {:induction false} SearchBack(lines: seq<Line>, has: Line -> bool, number: int, byText: Search, back: Search)
    requires Ascending(lines, NotMinus) && forall l :: l in lines ==> !BadHeader(l)
    requires Scanned(has, lines, number, byText) && byText.Found? && byText.position >= 0
    requires number == -1 || lines[0].Head?
    requires back.Found? && back.absolute == byText.absolute && -1 <= back.position < |lines|
    requires back.position >= 0 ==> LineNo(-1, lines, back.position, NotMinus) == back.absolute
    requires forall k :: 0 <= k < (if back.position >= 0 then back.position else |lines|) ==>
               LineNo(-1, lines, k, NotMinus) != back.absolute
    ensures var i := byText.position;
            back.position == i <==>
            i == 0 || LineNo(-1, lines, i - 1, NotMinus) < LineNo(-1, lines, i, NotMinus)
    ensures !lines[byText.position].Head? ==> back.position == byText.position
  {
    if number != -1 {
      StartIrrelevant(number, -1, lines, byText.position, NotMinus);
    }
    FirstWithNumber(lines, NotMinus, byText.position);
    assert back.position >= 0;
    assert LineNo(-1, lines, byText.position, NotMinus) == back.absolute;
  }

  // ---------- when the numbers ascend ----------

  /** The markers of a missing newline. */
  function Notes(body: seq<Line>): nat {
    if body == [] then 0 else Notes(body[..|body| - 1]) + (if body[|body| - 1].Note? then 1 else 0)
  }

  /** The position searches count the new side of a hunk and its markers. */
  lemma {:induction false} CountInBody(before: int, header: Header, body: seq<Line>, tail: seq<Line>, k: nat)
    requires (forall l :: l in body ==> BodyLine(l)) && k <= |body|
    ensures LineNo(before, [Head(header)] + body + tail, k, NotMinus) ==
            header.start2 - 1 + |NewSide(body[..k])| + Notes(body[..k])
  {
    if k > 0 {
      CountInBody(before, header, body, tail, k - 1);
      assert body[k - 1] in body && ([Head(header)] + body + tail)[k] == body[k - 1];
      assert body[..k] == body[..k - 1] + [body[k - 1]];
      NewSideConcat(body[..k - 1], [body[k - 1]]);
      assert body[..k][..k - 1] == body[..k - 1];
    }
  }

  lemma {:induction false} CountAfterHeader(before: int, a: seq<Line>, b: seq<Line>, i: nat, counts: Line -> bool)
    requires b != [] && b[0].Head? && i < |b|
    ensures LineNo(before, a + b, |a| + i, counts) == LineNo(before, b, i, counts)
  {
    assert (a + b)[|a| + i] == b[i];
    if !b[i].Head? {
      CountAfterHeader(before, a, b, i - 1, counts);
    }
  }

  lemma {:induction false} NoHeadInside(h: Hunk, tail: seq<Line>, i: nat)
    requires NoHeads(h.body)
    ensures 0 < i <= |h.body| ==> !([Head(h.header)] + h.body + tail)[i].Head?
  {
    if 0 < i <= |h.body| {
      assert ([Head(h.header)] + h.body + tail)[i] == h.body[i - 1] && h.body[i - 1] in h.body;
    }
  }

  /** A header that does not take the number back. */
  ghost predicate AscendsTo(lines: seq<Line>, i: int)
    requires 0 < i < |lines|
  {
    lines[i].Head? ==> LineNo(-1, lines, i - 1, NotMinus) <= lines[i].header.start2 - 1
  }

  lemma {:induction false} AscendsPast(first: seq<Line>, tail: seq<Line>, j: nat)
    requires 0 < j < |tail| && tail[0].Head?
    ensures AscendsTo(first + tail, |first| + j) <==> AscendsTo(tail, j)
  {
    CountAfterHeader(-1, first, tail, j - 1, NotMinus);
    assert (first + tail)[|first| + j] == tail[j];
  }

  lemma {:induction false} AscendsNext(h: Hunk, tail: seq<Line>)
    requires (forall l :: l in h.body ==> BodyLine(l)) && tail != [] && tail[0].Head?
    ensures AscendsTo([Head(h.header)] + h.body + tail, 1 + |h.body|) <==>
            NewEnd(h) + Notes(h.body) < tail[0].header.start2
  {
    CountInBody(-1, h.header, h.body, tail, |h.body|);
    assert h.body[..|h.body|] == h.body;
    assert ([Head(h.header)] + h.body + tail)[1 + |h.body|] == tail[0];
  }

  lemma {:induction false} AscendsStep(h: Hunk, tail: seq<Line>)
    requires (forall l :: l in h.body ==> BodyLine(l)) && (tail != [] ==> tail[0].Head?)
    ensures Ascending([Head(h.header)] + h.body + tail, NotMinus) <==>
            (tail != [] ==> NewEnd(h) + Notes(h.body) < tail[0].header.start2) && Ascending(tail, NotMinus)
  {
    var first := [Head(h.header)] + h.body;
    var lines := first + tail;
    if tail != [] {
      AscendsNext(h, tail);
    }
    forall j | 0 < j < |tail| ensures AscendsTo(lines, |first| + j) <==> AscendsTo(tail, j) {
      AscendsPast(first, tail, j);
    }
    forall i | 0 < i < |first| ensures AscendsTo(lines, i) {
      NoHeadInside(h, tail, i);
    }
    ByTurns(lines);
    ByTurns(tail);
    assert forall i :: |first| < i < |lines| ==> (AscendsTo(lines, i) <==> AscendsTo(tail, i - |first|));
  }

  lemma {:induction false} ByTurns(lines: seq<Line>)
    ensures Ascending(lines, NotMinus) <==> forall i :: 0 < i < |lines| ==> AscendsTo(lines, i)
  {
    if Ascending(lines, NotMinus) {
      forall i | 0 < i < |lines| ensures AscendsTo(lines, i) {
      }
    }
    if forall i :: 0 < i < |lines| ==> AscendsTo(lines, i) {
      forall i | 0 < i < |lines| && lines[i].Head? ensures LineNo(-1, lines, i - 1, NotMinus) <= lines[i].header.start2 - 1 {
        assert AscendsTo(lines, i);
      }
    }
  }

  /** No marker of a missing newline counts into the next hunk. */
  ghost predicate NotesFit(hunks: seq<Hunk>) {
    |hunks| < 2 || (NewEnd(hunks[0]) + Notes(hunks[0].body) < hunks[1].header.start2 && NotesFit(hunks[1..]))
  }

  /** The numbers of a well-formed patch ascend exactly if the markers of a missing newline in each hunk but the last fit
      into the gap before the next hunk: so always where there are none, or only in the last hunk. */
  lemma {:induction false} TakesAscends(base: seq<string>, head: seq<string>, p: nat, q: nat, hunks: seq<Hunk>)
    requires TakesFrom(base, head, p, q, hunks)
    ensures Ascending(Flatten(hunks), NotMinus) <==> NotesFit(hunks)
    decreases |hunks|
  {
    if hunks != [] {
      TakesMember(base, head, p, q, hunks, 0);
      TakesAscends(base, head, OldEnd(hunks[0]), NewEnd(hunks[0]), hunks[1..]);
      AscendsStep(hunks[0], Flatten(hunks[1..]));
    }
  }

  lemma {:induction false} NoNotes(body: seq<Line>)
    requires forall l :: l in body ==> !l.Note?
    ensures Notes(body) == 0
  {
    if body != [] {
      assert body[|body| - 1] in body;
      NoNotes(body[..|body| - 1]);
    }
  }

  /** Markers in the last hunk, where the format puts them if the file's last line is in the patch, do no harm. */
  lemma {:induction false} NotesAtEndFit(base: seq<string>, head: seq<string>, p: nat, q: nat, hunks: seq<Hunk>)
    requires TakesFrom(base, head, p, q, hunks)
    requires forall k, l :: 0 <= k < |hunks| - 1 && l in hunks[k].body ==> !l.Note?
    ensures NotesFit(hunks)
    decreases |hunks|
  {
    if |hunks| >= 2 {
      TakesMember(base, head, p, q, hunks, 1);
      TakesMember(base, head, p, q, hunks, 0);
      assert hunks[1..][0] == hunks[1];
      NoNotes(hunks[0].body);
      assert forall k :: 0 <= k < |hunks[1..]| ==> hunks[1..][k] == hunks[k + 1];
      NotesAtEndFit(base, head, OldEnd(hunks[0]), NewEnd(hunks[0]), hunks[1..]);
    }
  }
}
