/** The numbers of any patch, also where headers are passed over because their section texts speak of a missing newline: the
    lines under such a header are read as lines of the hunk before it, or as lines before the first header. */
module MergedRuns {
  import opened PyText
  import opened UnifiedDiff
  import opened GrownHunks
  import opened ExtendPatch
  import opened ExtendMeaning
  import opened ExtendHeaders
  import opened DecoupleHunks
  import opened NumberedText
  import opened NumbersExact

  // ---------- how hunks are read ----------

  /** The hunks up to the first header that is read. */
  function Lead(skip: Line -> bool, hunks: seq<Hunk>): seq<Hunk> {
    if hunks == [] || !skip(Head(hunks[0].header)) then [] else [hunks[0]] + Lead(skip, hunks[1..])
  }

  /** The other hunks, in runs: one whose header is read, and those after it whose headers are passed over. */
  function Runs(skip: Line -> bool, hunks: seq<Hunk>): (runs: seq<seq<Hunk>>)
    ensures forall k :: 0 <= k < |runs| ==> runs[k] != []
  {
    if hunks == [] then []
    else if skip(Head(hunks[0].header)) then Runs(skip, hunks[1..])
    else [[hunks[0]] + Lead(skip, hunks[1..])] + Runs(skip, hunks[1..])
  }

  function Bodies(hunks: seq<Hunk>): seq<Line> {
    if hunks == [] then [] else hunks[0].body + Bodies(hunks[1..])
  }

  /** A run as it is read: one hunk under the first header. */
  function Joined(run: seq<Hunk>): Hunk
    requires run != []
  {
    Hunk(run[0].header, Bodies(run))
  }

  function JoinedAll(runs: seq<seq<Hunk>>): (joined: seq<Hunk>)
    requires forall k :: 0 <= k < |runs| ==> runs[k] != []
    ensures |joined| == |runs| && forall k :: 0 <= k < |runs| ==> joined[k] == Joined(runs[k])
  {
    seq(|runs|, k requires 0 <= k < |runs| => Joined(runs[k]))
  }

  lemma {:induction false} KeptConcat(skip: Line -> bool, a: seq<Line>, b: seq<Line>)
    ensures Kept(skip, a + b) == Kept(skip, a) + Kept(skip, b)
  {
    if a == [] {
      assert a + b == b;
    } else {
      assert (a + b)[0] == a[0] && (a + b)[1..] == a[1..] + b;
      KeptConcat(skip, a[1..], b);
      Assoc(if skip(a[0]) then [] else [a[0]], Kept(skip, a[1..]), Kept(skip, b));
    }
  }

  lemma {:induction false} BodiesRest(hunks: seq<Hunk>)
    requires BodiesOk(hunks) && hunks != []
    ensures BodiesOk(hunks[1..]) && forall l :: l in hunks[0].body ==> BodyLine(l)
  {
    assert forall k :: 0 <= k < |hunks[1..]| ==> hunks[1..][k] == hunks[k + 1];
  }

  /** What is seen of hunks. */
  function SeenOf(skip: Line -> bool, hunks: seq<Hunk>): seq<Line> {
    Kept(skip, Bodies(Lead(skip, hunks))) + Flatten(KeptHunks(skip, JoinedAll(Runs(skip, hunks))))
  }

  lemma {:induction false} BodiesCons(h: Hunk, rest: seq<Hunk>)
    ensures Bodies([h] + rest) == h.body + Bodies(rest)
  {
    assert ([h] + rest)[1..] == rest;
  }

  lemma {:induction false} RunsRead(skip: Line -> bool, h: Hunk, rest: seq<Hunk>)
    requires !skip(Head(h.header))
    ensures var run, kept := [h] + Lead(skip, rest), KeptHunks(skip, JoinedAll(Runs(skip, [h] + rest)));
            && Lead(skip, [h] + rest) == [] && kept != []
            && kept[0] == KeptHunk(skip, Joined(run)) && kept[1..] == KeptHunks(skip, JoinedAll(Runs(skip, rest)))
  {
    var run, runs := [h] + Lead(skip, rest), Runs(skip, rest);
    assert ([h] + rest)[1..] == rest;
    assert Runs(skip, [h] + rest) == [run] + runs && JoinedAll([run] + runs)[1..] == JoinedAll(runs);
  }

  lemma {:induction false} SeenRead(skip: Line -> bool, h: Hunk, rest: seq<Hunk>)
    requires !skip(Head(h.header))
    ensures SeenOf(skip, [h] + rest) == [Head(h.header)] + Kept(skip, h.body) + SeenOf(skip, rest)
  {
    var lead, kept := Lead(skip, rest), KeptHunks(skip, JoinedAll(Runs(skip, [h] + rest)));
    RunsRead(skip, h, rest);
    BodiesCons(h, lead);
    KeptConcat(skip, h.body, Bodies(lead));
    Assoc([Head(h.header)], Kept(skip, h.body), Kept(skip, Bodies(lead)));
    assert [] + Flatten(kept) == Flatten(kept);
    Assoc([Head(h.header)] + Kept(skip, h.body), Kept(skip, Bodies(lead)), Flatten(kept[1..]));
  }

  lemma {:induction false} SeenPassed(skip: Line -> bool, h: Hunk, rest: seq<Hunk>)
    requires skip(Head(h.header))
    ensures SeenOf(skip, [h] + rest) == Kept(skip, h.body) + SeenOf(skip, rest)
  {
    var hunks, lead := [h] + rest, Lead(skip, rest);
    assert hunks[1..] == rest;
    BodiesCons(h, lead);
    KeptConcat(skip, h.body, Bodies(lead));
    Assoc(Kept(skip, h.body), Kept(skip, Bodies(lead)), Flatten(KeptHunks(skip, JoinedAll(Runs(skip, rest)))));
  }

  /** One hunk, read or passed over. */
  lemma {:induction false} VisibleHeader(skip: Line -> bool, h: Hunk, rest: seq<Line>, first: bool)
    requires forall l :: l in h.body ==> BodyLine(l)
    ensures Visible(skip, [Head(h.header)] + h.body + rest, first) ==
            (if skip(Head(h.header)) then [] else [Head(h.header)]) + Kept(skip, h.body) + Visible(skip, rest, false)
  {
    if skip(Head(h.header)) {
      var lines := [Head(h.header)] + h.body + rest;
      VisibleBody(skip, h.body, rest);
      assert lines[0] == Head(h.header) && lines[1..] == h.body + rest;
      assert [] + Kept(skip, h.body) == Kept(skip, h.body);
    } else {
      VisibleOne(skip, h, rest, first);
    }
  }

  /** A separator before a header is dropped, whether the header is read or not, unless it is the very first line. */
  lemma {:induction false} VisibleSeparated(skip: Line -> bool, h: Hunk, rest: seq<Line>, first: bool)
    requires !skip(Blank)
    ensures Visible(skip, [Blank, Head(h.header)] + h.body + rest, first) ==
            (if first then [Blank] else []) + Visible(skip, [Head(h.header)] + h.body + rest, false)
  {
    var lines, tail := [Blank, Head(h.header)] + h.body + rest, [Head(h.header)] + h.body + rest;
    assert lines[0] == Blank && lines[1] == Head(h.header) && lines[1..] == tail;
    assert [] + Visible(skip, tail, false) == Visible(skip, tail, false);
  }

  lemma {:induction false} VisibleRuns(skip: Line -> bool, hunks: seq<Hunk>, first: bool)
    requires BodiesOk(hunks)
    ensures Visible(skip, Flatten(hunks), first) == SeenOf(skip, hunks)
  {
    if hunks != [] {
      var h, rest := hunks[0], hunks[1..];
      BodiesRest(hunks);
      VisibleRuns(skip, rest, false);
      VisibleHeader(skip, h, Flatten(rest), first);
      assert hunks == [h] + rest;
      SeenStep(skip, h, rest);
    }
  }

  lemma {:induction false} SeenStep(skip: Line -> bool, h: Hunk, rest: seq<Hunk>)
    ensures SeenOf(skip, [h] + rest) ==
            (if skip(Head(h.header)) then [] else [Head(h.header)]) + Kept(skip, h.body) + SeenOf(skip, rest)
  {
    if skip(Head(h.header)) {
      SeenPassed(skip, h, rest);
      assert [] + Kept(skip, h.body) == Kept(skip, h.body);
    } else {
      SeenRead(skip, h, rest);
    }
  }

  lemma {:induction false} VisibleEmitRuns(skip: Line -> bool, hunks: seq<Hunk>)
    requires BodiesOk(hunks) && !skip(Blank)
    ensures Visible(skip, Emit(hunks), false) == SeenOf(skip, hunks)
  {
    if hunks != [] {
      var h, rest := hunks[0], hunks[1..];
      BodiesRest(hunks);
      VisibleEmitRuns(skip, rest);
      VisibleSeparated(skip, h, Emit(rest), false);
      VisibleHeader(skip, h, Emit(rest), false);
      SeenStep(skip, h, rest);
      assert hunks == [h] + rest;
      assert [] + Visible(skip, [Head(h.header)] + h.body + Emit(rest), false) == Visible(skip, [Head(h.header)] + h.body + Emit(rest), false);
    }
  }

  lemma {:induction false} VisibleEmitFirst(skip: Line -> bool, hunks: seq<Hunk>)
    requires BodiesOk(hunks) && !skip(Blank) && hunks != []
    ensures Visible(skip, Emit(hunks), true) == [Blank] + SeenOf(skip, hunks)
  {
    var h, rest := hunks[0], hunks[1..];
    VisibleEmitRuns(skip, hunks);
    VisibleSeparated(skip, h, Emit(rest), false);
    VisibleSeparated(skip, h, Emit(rest), true);
    assert [] + Visible(skip, [Head(h.header)] + h.body + Emit(rest), false) == Visible(skip, [Head(h.header)] + h.body + Emit(rest), false);
  }

  ghost predicate LinesOk(lines: seq<Line>) { forall l :: l in lines ==> BodyLine(l) }

  lemma {:induction false} LeadOk(skip: Line -> bool, hunks: seq<Hunk>)
    requires BodiesOk(hunks)
    ensures LinesOk(Bodies(Lead(skip, hunks))) && BodiesOk(Lead(skip, hunks))
  {
    if hunks != [] && skip(Head(hunks[0].header)) {
      BodiesRest(hunks);
      LeadOk(skip, hunks[1..]);
      var lead := Lead(skip, hunks[1..]);
      assert ([hunks[0]] + lead)[1..] == lead;
    }
  }

  lemma {:induction false} RunsOk(skip: Line -> bool, hunks: seq<Hunk>, k: nat)
    requires BodiesOk(hunks) && k < |Runs(skip, hunks)|
    ensures LinesOk(Bodies(Runs(skip, hunks)[k])) && BodiesOk(Runs(skip, hunks)[k])
    decreases |hunks|
  {
    BodiesRest(hunks);
    if skip(Head(hunks[0].header)) {
      RunsOk(skip, hunks[1..], k);
    } else if k > 0 {
      RunsOk(skip, hunks[1..], k - 1);
    } else {
      LeadOk(skip, hunks[1..]);
      var lead := Lead(skip, hunks[1..]);
      assert ([hunks[0]] + lead)[1..] == lead;
    }
  }

  lemma {:induction false} JoinedOk(skip: Line -> bool, hunks: seq<Hunk>)
    requires BodiesOk(hunks)
    ensures BodiesOk(JoinedAll(Runs(skip, hunks)))
  {
    var runs := Runs(skip, hunks);
    forall k, l | 0 <= k < |runs| && l in JoinedAll(runs)[k].body ensures BodyLine(l) {
      RunsOk(skip, hunks, k);
    }
  }

  /** What is read of hunks that are written out plainly. */
  lemma {:induction false} ReadFlat(skip: Line -> bool, hunks: seq<Hunk>)
    requires BodiesOk(hunks)
    ensures Split(Visible(skip, Flatten(hunks), true)) ==
            (Kept(skip, Bodies(Lead(skip, hunks))), KeptHunks(skip, JoinedAll(Runs(skip, hunks))))
  {
    LeadOk(skip, hunks);
    JoinedOk(skip, hunks);
    KeptFrom(skip, Bodies(Lead(skip, hunks)));
    VisibleRuns(skip, hunks, true);
    SplitKept(skip, Kept(skip, Bodies(Lead(skip, hunks))), JoinedAll(Runs(skip, hunks)));
  }

  /** And as the extension writes them. */
  lemma {:induction false} ReadEmit(skip: Line -> bool, hunks: seq<Hunk>)
    requires BodiesOk(hunks) && !skip(Blank) && hunks != []
    ensures Split(Visible(skip, Emit(hunks), true)) ==
            ([Blank] + Kept(skip, Bodies(Lead(skip, hunks))), KeptHunks(skip, JoinedAll(Runs(skip, hunks))))
  {
    ReadFlat(skip, hunks);
    VisibleRuns(skip, hunks, true);
    VisibleEmitFirst(skip, hunks);
    SplitPrefixed([Blank], SeenOf(skip, hunks));
  }

  // ---------- the numbers of a run ----------

  /** The lines a run shows, each with its place in the new file. */
  function RunPlaces(skip: Line -> bool, run: seq<Hunk>): seq<(int, string)> {
    if run == [] then [] else Places(skip, run[0].header.start2, run[0].body) + RunPlaces(skip, run[1..])
  }

  /** The texts passed over before the first that is shown, and the number of those that are shown. */
  function Spoken(says: string -> bool, texts: seq<string>): nat {
    if texts == [] || !says(texts[0]) then 0 else 1 + Spoken(says, texts[1..])
  }

  function Quiet(says: string -> bool, texts: seq<string>): nat {
    if texts == [] then 0 else (if says(texts[0]) then 0 else 1) + Quiet(says, texts[1..])
  }

  /** A hunk whose new side is `texts` from place `start` on, when n is the next number: its first line shown has that
      number, and none is passed over after it but at the end. */
  predicate HunkRight(says: string -> bool, n: int, start: int, texts: seq<string>) {
    Silently(says, texts) ==> n == start + Spoken(says, texts) && !SpeaksEarlier(says, Shown(says, texts))
  }

  /** The texts from the first one that is shown on. */
  function Shown(says: string -> bool, texts: seq<string>): seq<string> {
    if texts == [] || !says(texts[0]) then texts else Shown(says, texts[1..])
  }

  /** The numbers of a run are right from n on. */
  predicate RunRight(says: string -> bool, n: int, run: seq<Hunk>)
    decreases |run|
  {
    run == []
    || (HunkRight(says, n, run[0].header.start2, NewSide(run[0].body))
        && RunRight(says, n + Quiet(says, NewSide(run[0].body)), run[1..]))
  }

  lemma {:induction false} SilentlyCons(says: string -> bool, t: string, rest: seq<string>)
    ensures Silently(says, [t] + rest) <==> !says(t) || Silently(says, rest)
  {
    var all := [t] + rest;
    assert t == all[0] && forall u :: u in rest ==> u in all;
  }

  lemma {:induction false} TextsCons(says: string -> bool, t: string, rest: seq<string>)
    ensures Spoken(says, [t] + rest) == if says(t) then 1 + Spoken(says, rest) else 0
    ensures Quiet(says, [t] + rest) == (if says(t) then 0 else 1) + Quiet(says, rest)
    ensures Shown(says, [t] + rest) == if says(t) then Shown(says, rest) else [t] + rest
  {
    assert ([t] + rest)[1..] == rest;
  }

  lemma {:induction false} ShownCount(skip: Line -> bool, says: string -> bool, body: seq<Line>)
    requires GoesBy(skip, says, body)
    ensures |News(Kept(skip, body))| == Quiet(says, NewSide(body))
  {
    if body != [] {
      var l, rest := body[0], body[1..];
      assert l in body && forall m :: m in rest ==> m in body;
      ShownCount(skip, says, rest);
      NewsOfKept(skip, body);
      if InNew(l) {
        TextsCons(says, l.text, NewSide(rest));
      } else {
        OtherLine(skip, says, 0, body);
      }
    }
  }

  /** The lines of one hunk of a run. */
  lemma {:induction false} HunkTrue(skip: Line -> bool, says: string -> bool, n: int, start: int, body: seq<Line>)
    requires GoesBy(skip, says, body)
    ensures Consecutive(n, News(Kept(skip, body))) == Places(skip, start, body) <==> HunkRight(says, n, start, NewSide(body))
    decreases |body|
  {
    if body != [] {
      var l, rest := body[0], body[1..];
      assert l in body && forall m :: m in rest ==> m in body;
      if !InNew(l) {
        HunkTrue(skip, says, n, start, rest);
        OtherLine(skip, says, start, body);
      } else {
        NewsOfKept(skip, body);
        TextsCons(says, l.text, NewSide(rest));
        SilentlyCons(says, l.text, NewSide(rest));
        if skip(l) {
          HunkTrue(skip, says, n, start + 1, rest);
          assert [] + News(Kept(skip, rest)) == News(Kept(skip, rest));
        } else {
          FirstShown(skip, says, n, start, l, rest);
        }
      }
    }
  }

  lemma {:induction false} FirstShown(skip: Line -> bool, says: string -> bool, n: int, start: int, l: Line,
                                      rest: seq<Line>)
    requires InNew(l) && !skip(l) && !says(l.text) && GoesBy(skip, says, rest)
    ensures Consecutive(n, [l] + News(Kept(skip, rest))) == [(start, Raw(l))] + Places(skip, start + 1, rest) <==>
            n == start && !SpeaksEarlier(says, [l.text] + NewSide(rest))
  {
    EarlierCons(says, l.text, NewSide(rest));
    ConsecutiveCons(n, l, News(Kept(skip, rest)));
    if n == start {
      NewLineTrue(skip, says, start, l, rest);
    } else {
      assert ([(n, Raw(l))] + Consecutive(n + 1, News(Kept(skip, rest))))[0].0 == n;
      assert ([(start, Raw(l))] + Places(skip, start + 1, rest))[0].0 == start;
    }
  }

  lemma {:induction false} NewsConcat(a: seq<Line>, b: seq<Line>)
    ensures News(a + b) == News(a) + News(b)
  {
    if a == [] {
      assert a + b == b;
    } else {
      assert (a + b)[0] == a[0] && (a + b)[1..] == a[1..] + b;
      NewsConcat(a[1..], b);
      Assoc(if a[0].Del? then [] else [a[0]], News(a[1..]), News(b));
    }
  }

  lemma {:induction false} JoinNumbers(n: int, own: seq<Line>, more: seq<Line>, a: seq<(int, string)>,
                                       b: seq<(int, string)>)
    requires |own| == |a|
    ensures |Consecutive(n, own + more)| == |own| + |more|
    ensures Consecutive(n, own + more) == a + b <==> Consecutive(n, own) == a && Consecutive(n + |own|, more) == b
  {
    ConsecutiveConcat(n, own, more);
    SameConcat(Consecutive(n, own), Consecutive(n + |own|, more), a, b);
  }

  /** The numbers of a run are the places of its lines exactly if the run is right. */
  lemma {:induction false} RunTrue(skip: Line -> bool, says: string -> bool, n: int, run: seq<Hunk>)
    requires forall k :: 0 <= k < |run| ==> GoesBy(skip, says, run[k].body)
    ensures |Consecutive(n, News(Kept(skip, Bodies(run))))| == |RunPlaces(skip, run)|
    ensures Consecutive(n, News(Kept(skip, Bodies(run)))) == RunPlaces(skip, run) <==> RunRight(says, n, run)
    decreases |run|
  {
    if run != [] {
      var h, rest := run[0], run[1..];
      assert forall k :: 0 <= k < |rest| ==> rest[k] == run[k + 1];
      var own, more := News(Kept(skip, h.body)), News(Kept(skip, Bodies(rest)));
      RunTrue(skip, says, n + |own|, rest);
      ShownCount(skip, says, h.body);
      HunkTrue(skip, says, n, h.header.start2, h.body);
      PlacesFrom(skip, h.header.start2, h.body);
      KeptConcat(skip, h.body, Bodies(rest));
      NewsConcat(Kept(skip, h.body), Kept(skip, Bodies(rest)));
      JoinNumbers(n, own, more, Places(skip, h.header.start2, h.body), RunPlaces(skip, rest));
    }
  }

  // ---------- the numbers of a patch ----------

  /** A run shows its numbers if any of its hunks changes anything that is looked at. */
  predicate RunShows(run: seq<Hunk>) { run != [] && Changes(KeptHunk(SaysNoNewline, Joined(run))) }

  /** The hunks before the first header that is read, if any is, show numbers counted from -1. */
  predicate LeadShows(hunks: seq<Hunk>) { Runs(SaysNoNewline, hunks) != [] && RunShows(Lead(SaysNoNewline, hunks)) }

  function RunsPlaces(runs: seq<seq<Hunk>>): seq<(int, string)> {
    if runs == [] then []
    else (if RunShows(runs[0]) then RunPlaces(SaysNoNewline, runs[0]) else []) + RunsPlaces(runs[1..])
  }

  /** The lines shown with numbers, each with its place in the new file. */
  function PlacesRead(hunks: seq<Hunk>): seq<(int, string)> {
    (if LeadShows(hunks) then RunPlaces(SaysNoNewline, Lead(SaysNoNewline, hunks)) else [])
    + RunsPlaces(Runs(SaysNoNewline, hunks))
  }

  ghost predicate RunsRight(runs: seq<seq<Hunk>>) {
    forall k :: 0 <= k < |runs| && RunShows(runs[k]) ==> RunRight(Speaks, runs[k][0].header.start2, runs[k])
  }

  lemma {:induction false} GoByText(hunks: seq<Hunk>)
    requires BodiesOk(hunks)
    ensures forall k :: 0 <= k < |hunks| ==> GoesBy(SaysNoNewline, Speaks, hunks[k].body)
  {
    NoteSaysSo();
    forall k | 0 <= k < |hunks| ensures GoesBy(SaysNoNewline, Speaks, hunks[k].body) {
      SkipsByText(hunks[k].body);
    }
  }

  lemma {:induction false} JoinedCons(skip: Line -> bool, runs: seq<seq<Hunk>>)
    requires runs != [] && forall k :: 0 <= k < |runs| ==> runs[k] != []
    ensures var kept := KeptHunks(skip, JoinedAll(runs));
            && kept != [] && kept[0] == KeptHunk(skip, Joined(runs[0])) && kept[1..] == KeptHunks(skip, JoinedAll(runs[1..]))
  {
    assert JoinedAll(runs)[1..] == JoinedAll(runs[1..]);
  }

  /** What one run shows. */
  lemma {:induction false} OneRunTrue(run: seq<Hunk>)
    requires run != [] && BodiesOk(run)
    ensures var shown := if RunShows(run) then Consecutive(run[0].header.start2, News(KeptHunk(SaysNoNewline, Joined(run)).body)) else [];
            var places := if RunShows(run) then RunPlaces(SaysNoNewline, run) else [];
            |shown| == |places| && (shown == places <==> (RunShows(run) ==> RunRight(Speaks, run[0].header.start2, run)))
  {
    GoByText(run);
    RunTrue(SaysNoNewline, Speaks, run[0].header.start2, run);
  }

  lemma {:induction false} RunsTrue(runs: seq<seq<Hunk>>)
    requires forall k :: 0 <= k < |runs| ==> runs[k] != [] && BodiesOk(runs[k])
    ensures var shown := Expected(KeptHunks(SaysNoNewline, JoinedAll(runs)));
            |shown| == |RunsPlaces(runs)| && (shown == RunsPlaces(runs) <==> RunsRight(runs))
  {
    if runs != [] {
      var run, rest, kept := runs[0], runs[1..], KeptHunks(SaysNoNewline, JoinedAll(runs));
      assert forall k :: 0 <= k < |rest| ==> rest[k] == runs[k + 1];
      RunsTrue(rest);
      OneRunTrue(run);
      JoinedCons(SaysNoNewline, runs);
      SameConcat(if RunShows(run) then Consecutive(run[0].header.start2, News(kept[0].body)) else [], Expected(kept[1..]),
                 if RunShows(run) then RunPlaces(SaysNoNewline, run) else [], RunsPlaces(rest));
      RunsRightCons(runs);
    }
  }

  lemma {:induction false} RunsRightCons(runs: seq<seq<Hunk>>)
    requires runs != [] && forall k :: 0 <= k < |runs| ==> runs[k] != []
    ensures RunsRight(runs) <==>
            (RunShows(runs[0]) ==> RunRight(Speaks, runs[0][0].header.start2, runs[0])) && RunsRight(runs[1..])
  {
    assert forall k :: 0 < k < |runs| ==> runs[k] == runs[1..][k - 1];
    assert forall k :: 0 <= k < |runs[1..]| ==> runs[1..][k] == runs[k + 1];
  }

  lemma {:induction false} LeadTrue(hunks: seq<Hunk>)
    requires BodiesOk(hunks)
    ensures var lead := Lead(SaysNoNewline, hunks);
            var news := News(Kept(SaysNoNewline, Bodies(lead)));
            && |Consecutive(-1, news)| == |RunPlaces(SaysNoNewline, lead)|
            && (Consecutive(-1, news) == RunPlaces(SaysNoNewline, lead) <==> RunRight(Speaks, -1, lead))
  {
    LeadOk(SaysNoNewline, hunks);
    GoByText(Lead(SaysNoNewline, hunks));
    RunTrue(SaysNoNewline, Speaks, -1, Lead(SaysNoNewline, hunks));
  }

  /** An empty line changes nothing but the number of lines. */
  lemma {:induction false} LeadNumbers(hunks: seq<Hunk>)
    ensures var pre, kept := Kept(SaysNoNewline, Bodies(Lead(SaysNoNewline, hunks))), KeptHunks(SaysNoNewline, JoinedAll(Runs(SaysNoNewline, hunks)));
            && PreambleNumbers(pre, kept) == (if LeadShows(hunks) then Consecutive(-1, News(pre)) else [])
            && PreambleNumbers([Blank] + pre, kept) == (if LeadShows(hunks) then Consecutive(-1, [Blank] + News(pre)) else [])
  {
    var lead, pre := Lead(SaysNoNewline, hunks), Kept(SaysNoNewline, Bodies(Lead(SaysNoNewline, hunks)));
    if lead == [] {
      assert pre == [];
    }
    var all := [Blank] + pre;
    assert all[0] == Blank && all[1..] == pre;
    assert News(all) == [Blank] + News(pre) && Olds(all) == [Blank] + Olds(pre);
  }

  /** Patches written out plainly: the numbers shown are the places of their lines exactly if every run that shows numbers is
      right, and so are the hunks before the first header that is read, if they show any. */
  lemma {:induction false} ReadNumbersTrue(file: Option<FileInfo>, hunks: seq<Hunk>)
    requires (file.Some? ==> !file.value.deleted) && BodiesOk(hunks)
    ensures NumsOf(DecoupledItems(file, Flatten(hunks))) == PlacesRead(hunks) <==>
            && (LeadShows(hunks) ==> RunRight(Speaks, -1, Lead(SaysNoNewline, hunks)))
            && RunsRight(Runs(SaysNoNewline, hunks))
  {
    var lead, runs := Lead(SaysNoNewline, hunks), Runs(SaysNoNewline, hunks);
    ReadFlat(SaysNoNewline, hunks);
    NumbersShown(file, Flatten(hunks));
    LeadNumbers(hunks);
    LeadTrue(hunks);
    forall k | 0 <= k < |runs| ensures BodiesOk(runs[k]) {
      RunsOk(SaysNoNewline, hunks, k);
    }
    RunsTrue(runs);
    SameConcat(if LeadShows(hunks) then Consecutive(-1, News(Kept(SaysNoNewline, Bodies(lead)))) else [],
               Expected(KeptHunks(SaysNoNewline, JoinedAll(runs))),
               if LeadShows(hunks) then RunPlaces(SaysNoNewline, lead) else [], RunsPlaces(runs));
  }

  lemma {:induction false} BlankInFront(shows: bool, lead: seq<Line>, leadPlaces: seq<(int, string)>,
                                        shown: seq<(int, string)>, places: seq<(int, string)>)
    requires |lead| == |leadPlaces| && |shown| == |places|
    ensures (if shows then Consecutive(-1, [Blank] + lead) else []) + shown == (if shows then leadPlaces else []) + places <==>
            !shows && shown == places
  {
    if shows {
      assert |Consecutive(-1, [Blank] + lead) + shown| == |leadPlaces + places| + 1;
    } else {
      assert [] + shown == shown && [] + places == places;
    }
  }

  /** Patches as the extension writes them, with an empty line in front: the same, but there the hunks before the first header
      that is read are never right if they show numbers. */
  lemma {:induction false} EmittedNumbersTrue(file: Option<FileInfo>, hunks: seq<Hunk>)
    requires (file.Some? ==> !file.value.deleted) && BodiesOk(hunks)
    ensures NumsOf(DecoupledItems(file, Emit(hunks))) == PlacesRead(hunks) <==>
            !LeadShows(hunks) && RunsRight(Runs(SaysNoNewline, hunks))
  {
    if hunks == [] {
      ReadNumbersTrue(file, hunks);
    } else {
      var lead, runs := Lead(SaysNoNewline, hunks), Runs(SaysNoNewline, hunks);
      NoteSaysSo();
      ReadEmit(SaysNoNewline, hunks);
      NumbersShown(file, Emit(hunks));
      LeadNumbers(hunks);
      LeadTrue(hunks);
      forall k | 0 <= k < |runs| ensures BodiesOk(runs[k]) {
        RunsOk(SaysNoNewline, hunks, k);
      }
      RunsTrue(runs);
      BlankInFront(LeadShows(hunks), News(Kept(SaysNoNewline, Bodies(lead))), RunPlaces(SaysNoNewline, lead),
                   Expected(KeptHunks(SaysNoNewline, JoinedAll(runs))), RunsPlaces(runs));
    }
  }

  // ---------- well-formed patches ----------

  lemma {:induction false} TakenBodies(base: seq<string>, head: seq<string>, hunks: seq<Hunk>)
    requires Takes(base, head, hunks)
    ensures BodiesOk(hunks)
  {
    forall k, l | 0 <= k < |hunks| && l in hunks[k].body ensures BodyLine(l) {
      TakesMember(base, head, 0, 0, hunks, k);
    }
  }

  /** On every well-formed patch the numbers shown are the places in the new file exactly if every run that shows numbers is
      right, and the hunks before the first header that is read show none, or no line. */
  lemma {:induction false} PatchNumbersExactly(base: seq<string>, head: seq<string>, file: Option<FileInfo>,
                                               hunks: seq<Hunk>)
    requires Takes(base, head, hunks) && (file.Some? ==> !file.value.deleted)
    ensures NumsOf(DecoupledItems(file, Flatten(hunks))) == PlacesRead(hunks) <==>
            && (LeadShows(hunks) ==> forall h :: h in Lead(SaysNoNewline, hunks) ==> !Silently(Speaks, NewSide(h.body)))
            && RunsRight(Runs(SaysNoNewline, hunks))
  {
    TakenBodies(base, head, hunks);
    ReadNumbersTrue(file, hunks);
    forall h | h in Lead(SaysNoNewline, hunks) ensures h.header.start2 >= 1 {
      LeadFrom(SaysNoNewline, hunks, h);
      var k :| 0 <= k < |hunks| && hunks[k] == h;
      TakesMember(base, head, 0, 0, hunks, k);
    }
    NeverMinus(Speaks, Lead(SaysNoNewline, hunks));
  }

  lemma {:induction false} LeadFrom(skip: Line -> bool, hunks: seq<Hunk>, h: Hunk)
    requires h in Lead(skip, hunks)
    ensures h in hunks
  {
    if h != hunks[0] {
      LeadFrom(skip, hunks[1..], h);
    }
  }

  /** Numbers from -1 are no places in a file. */
  lemma {:induction false} NeverMinus(says: string -> bool, lead: seq<Hunk>)
    requires forall h :: h in lead ==> h.header.start2 >= 1
    ensures RunRight(says, -1, lead) <==> forall h :: h in lead ==> !Silently(says, NewSide(h.body))
  {
    if lead != [] {
      var h, rest := lead[0], lead[1..];
      assert lead == [h] + rest && h in lead && forall g :: g in rest ==> g in lead;
      NeverMinus(says, rest);
      NoneQuiet(says, NewSide(h.body));
    }
  }

  lemma {:induction false} NoneQuiet(says: string -> bool, texts: seq<string>)
    ensures !Silently(says, texts) <==> Quiet(says, texts) == 0
  {
    if texts != [] {
      NoneQuiet(says, texts[1..]);
      assert texts == [texts[0]] + texts[1..];
      SilentlyCons(says, texts[0], texts[1..]);
    }
  }

  lemma {:induction false} AllQuiet(says: string -> bool, texts: seq<string>)
    requires forall t :: t in texts ==> !says(t)
    ensures Quiet(says, texts) == |texts| && Spoken(says, texts) == 0 && !SpeaksEarlier(says, texts) && Shown(says, texts) == texts
    ensures texts != [] ==> Silently(says, texts)
  {
    if texts != [] {
      assert texts[0] in texts && forall t :: t in texts[1..] ==> t in texts;
      AllQuiet(says, texts[1..]);
    }
  }

  lemma {:induction false} ReadAsOne(skip: Line -> bool, g: Hunk, h: Hunk)
    requires !skip(Head(g.header)) && skip(Head(h.header))
    ensures Lead(skip, [g, h]) == [] && Runs(skip, [g, h]) == [[g, h]]
  {
    assert [g, h][1..] == [h] && [h][1..] == [];
    assert Lead(skip, [h]) == [h] + Lead(skip, []) == [h] && Runs(skip, [h]) == Runs(skip, []) == [];
    assert [g] + [h] == [g, h];
  }

  lemma {:induction false} TwoRight(says: string -> bool, g: Hunk, h: Hunk)
    requires NewSide(g.body) != [] && NewSide(h.body) != []
    requires forall t :: t in NewSide(g.body) || t in NewSide(h.body) ==> !says(t)
    ensures RunRight(says, g.header.start2, [g, h]) <==> NewEnd(g) + 1 == h.header.start2
  {
    AllQuiet(says, NewSide(g.body));
    AllQuiet(says, NewSide(h.body));
    assert [g, h][1..] == [h] && [h][1..] == [];
    var n := g.header.start2 + |NewSide(g.body)|;
    assert RunRight(says, n, [h]) <==> n == h.header.start2;
  }

  /** Where the header of the second of two hunks is passed over, and nothing else speaks of a missing newline, the numbers
      are right exactly if none are shown or nothing lies between the two hunks. */
  lemma {:induction false} PassedHeader(base: seq<string>, head: seq<string>, file: Option<FileInfo>, g: Hunk, h: Hunk)
    requires Takes(base, head, [g, h]) && (file.Some? ==> !file.value.deleted)
    requires !Speaks(g.header.section) && Speaks(h.header.section) && forall t :: t in head ==> !Speaks(t)
    ensures NumsOf(DecoupledItems(file, Flatten([g, h]))) == PlacesRead([g, h]) <==>
            (RunShows([g, h]) ==> NewEnd(g) + 1 == h.header.start2)
  {
    HeadSpeaks(g.header);
    HeadSpeaks(h.header);
    ReadAsOne(SaysNoNewline, g, h);
    PatchNumbersExactly(base, head, file, [g, h]);
    TakesMember(base, head, 0, 0, [g, h], 0);
    TakesMember(base, head, 0, 0, [g, h], 1);
    StandsIn(NewSide(g.body), head, g.header.start2 - 1);
    StandsIn(NewSide(h.body), head, h.header.start2 - 1);
    TwoRight(Speaks, g, h);
  }

  lemma {:induction false} KeptAll(skip: Line -> bool, body: seq<Line>)
    requires forall l :: l in body ==> !skip(l)
    ensures Kept(skip, body) == body
  {
    if body != [] {
      assert body[0] in body && forall l :: l in body[1..] ==> l in body;
      KeptAll(skip, body[1..]);
    }
  }

  lemma {:induction false} ShowsIfAdded(g: Hunk, h: Hunk, l: Line)
    requires l.Add? && l in g.body && forall m :: m in g.body || m in h.body ==> !SaysNoNewline(m)
    ensures RunShows([g, h])
  {
    var body := g.body + h.body;
    BodiesCons(g, [h]);
    BodiesCons(h, []);
    assert [g] + [h] == [g, h] && [h] + [] == [h] && h.body + [] == h.body;
    KeptAll(SaysNoNewline, body);
    assert l in body;
    AddedIsNew(body, l);
  }

  lemma {:induction false} AddedIsNew(body: seq<Line>, l: Line)
    requires l.Add? && l in body
    ensures l in News(body)
  {
    if l != body[0] {
      AddedIsNew(body[1..], l);
    }
  }

  /** A well-formed patch of two hunks a line apart, of which the second has such a section text: its numbers are not the
      places of their lines. */
  lemma {:induction false} SectionPassed(section: string)
    requires Speaks(section)
    ensures var base, head := ["a", "b", "c"], ["A", "b", "C"];
            var hunks := [Hunk(Header(1, Some(1), 1, Some(1), ""), [Del("a"), Add("A")]),
                          Hunk(Header(3, Some(1), 3, Some(1), section), [Del("c"), Add("C")])];
            Takes(base, head, hunks) && NumsOf(DecoupledItems(None, Flatten(hunks))) != PlacesRead(hunks)
  {
    var base, head := ["a", "b", "c"], ["A", "b", "C"];
    var g, h := Hunk(Header(1, Some(1), 1, Some(1), ""), [Del("a"), Add("A")]),
                Hunk(Header(3, Some(1), 3, Some(1), section), [Del("c"), Add("C")]);
    OverlapTakes(base, head, g, h);
    ShortTextSilent("");
    forall c: char ensures !Speaks([c]) {
      ShortTextSilent([c]);
    }
    assert forall t :: t in head ==> t == [t[0]];
    NothingSpeaks(g, h);
    ShowsIfAdded(g, h, Add("A"));
    PassedHeader(base, head, None, g, h);
    SidesOfTwo(Del("a"), Add("A"));
  }

  lemma {:induction false} NothingSpeaks(g: Hunk, h: Hunk)
    requires forall l :: l in g.body || l in h.body ==> (l.Add? || l.Del?) && !Speaks(l.text)
    ensures forall l :: l in g.body || l in h.body ==> !SaysNoNewline(l)
  {
    forall l | l in g.body || l in h.body ensures !SaysNoNewline(l) {
      LineSpeaks(l);
    }
  }

  /** Extending any well-formed patch and then numbering it: the numbers shown are the places that the extended headers say
      under the same condition on the extended hunks. */
  lemma {:induction false} ExtendedNumbersExactly(cfg: Config, base: seq<string>, head: seq<string>,
                                                  file: Option<FileInfo>, hunks: seq<Hunk>)
    requires Takes(base, head, hunks) && (file.Some? ==> !file.value.deleted)
    ensures var es := ExtendHunks(cfg, base, head, hunks);
            NumsOf(DecoupledItems(file, Processed(cfg, base, head, Flatten(hunks)))) == PlacesRead(es) <==>
            !LeadShows(es) && RunsRight(Runs(SaysNoNewline, es))
  {
    AllExtendedGrown(cfg, base, head, head, hunks);
    EmittedNumbersTrue(file, ExtendHunks(cfg, base, head, hunks));
    TakesNoHeads(base, head, 0, 0, hunks);
    ProcessedFlatten(cfg, base, head, hunks);
  }
}
