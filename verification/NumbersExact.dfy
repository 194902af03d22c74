/** When the numbers shown to the model are the places of their lines: exactly when no line that speaks of a missing newline
    is passed over in front of another line of its hunk. */
module NumbersExact {
  import opened PyText
  import opened UnifiedDiff
  import opened GrownHunks
  import opened ExtendPatch
  import opened ExtendMeaning
  import opened DecoupleHunks
  import opened NumberedText
  import opened WalkersAgree

  // ---------- which texts are passed over ----------

  /** A text that speaks of a missing newline. */
  predicate Speaks(text: string) { Contains(NO_NEWLINE, Lower(text)) }

  lemma {:induction false} ContainsAfter(sub: string, a: string, b: string)
    requires sub != "" && sub[0] !in a
    ensures Contains(sub, a + b) <==> Contains(sub, b)
  {
    if a == "" {
      assert a + b == b;
    } else {
      var s := a + b;
      assert s[0] == a[0] && s[1..] == a[1..] + b;
      ContainsAfter(sub, a[1..], b);
      assert !(sub <= s) by {
        assert sub[0] != s[0];
      }
    }
  }

  lemma {:induction false} LowerConcat(a: string, b: string)
    ensures Lower(a + b) == Lower(a) + Lower(b)
  {
  }

  /** Digits and the signs of headers and markers. */
  predicate Sign(c: char) { IsDigit(c) || c == ' ' || c == '+' || c == '-' || c == ',' || c == '@' }

  predicate AllSigns(s: string) { forall i :: 0 <= i < |s| ==> Sign(s[i]) }

  /** Signs in front do not matter to what a text says. */
  lemma {:induction false} SpeaksAfter(signs: string, text: string)
    requires AllSigns(signs)
    ensures Speaks(signs + text) <==> Speaks(text)
  {
    LowerConcat(signs, text);
    assert forall i :: 0 <= i < |signs| ==> Lower(signs)[i] == signs[i];
    ContainsAfter(NO_NEWLINE, Lower(signs), Lower(text));
  }

  /** A line of a file is passed over if its text speaks of a missing newline, whatever its marker. */
  lemma {:induction false} LineSpeaks(l: Line)
    requires l.Ctx? || l.Add? || l.Del?
    ensures SaysNoNewline(l) <==> Speaks(l.text)
  {
    SpeaksAfter(if l.Ctx? then " " else if l.Add? then "+" else "-", l.text);
  }

  lemma {:induction false} SignsConcat(a: string, b: string)
    requires AllSigns(a) && AllSigns(b)
    ensures AllSigns(a + b)
  {
  }

  lemma {:induction false} CountSigns(count: Option<int>)
    ensures AllSigns(CountText(count))
  {
    if count.Some? {
      SignsConcat(",", Dec(count.value));
    }
  }

  lemma {:induction false} HeadSigns(h: Header)
    ensures AllSigns("@@ -" + Dec(h.start1) + CountText(h.count1) + " +" + Dec(h.start2) + CountText(h.count2) + " @@")
  {
    CountSigns(h.count1);
    CountSigns(h.count2);
    SignsConcat("@@ -", Dec(h.start1));
    SignsConcat("@@ -" + Dec(h.start1), CountText(h.count1));
    SignsConcat("@@ -" + Dec(h.start1) + CountText(h.count1), " +");
    SignsConcat("@@ -" + Dec(h.start1) + CountText(h.count1) + " +", Dec(h.start2));
    SignsConcat("@@ -" + Dec(h.start1) + CountText(h.count1) + " +" + Dec(h.start2), CountText(h.count2));
    SignsConcat("@@ -" + Dec(h.start1) + CountText(h.count1) + " +" + Dec(h.start2) + CountText(h.count2), " @@");
  }

  /** A header is passed over if its section text speaks of a missing newline. */
  lemma {:induction false} HeadSpeaks(h: Header)
    ensures SaysNoNewline(Head(h)) <==> Speaks(h.section)
  {
    var signs := "@@ -" + Dec(h.start1) + CountText(h.count1) + " +" + Dec(h.start2) + CountText(h.count2) + " @@";
    HeadSigns(h);
    SpeaksAfter(signs, if h.section == "" then "" else " " + h.section);
    SpeaksAfter(" ", h.section);
  }

  // ---------- one line ----------

  /** Body lines of which every marker of a missing newline is skipped. */
  ghost predicate NotesSkip(skip: Line -> bool, body: seq<Line>) {
    forall l :: l in body ==> BodyLine(l) && (l.Note? ==> skip(l))
  }

  /** The number shown beside a line is its place in the new file exactly if no new-side line is passed over before it in
      its hunk. */
  lemma {:induction false} ShownNumberTrue(skip: Line -> bool, h: Hunk, k: nat)
    requires NotesSkip(skip, h.body) && k < |h.body| && InNew(h.body[k]) && !skip(h.body[k])
    ensures var shown, at := Consecutive(h.header.start2, News(Kept(skip, h.body))), |News(Kept(skip, h.body[..k]))|;
            at < |shown| && shown[at].1 == Raw(h.body[k])
            && (shown[at].0 == NewNo(h, k) <==> PassedOver(skip, h.body[..k]) == 0)
  {
    DecoupledNumberIsLineNo(skip, h, k);
    PassedOverShiftsNumbers(skip, h.body[..k]);
  }

  // ---------- all lines of a hunk ----------

  /** The lines a hunk shows, each with its place in the new file; `next` is the place of the next one. */
  function Places(skip: Line -> bool, next: int, body: seq<Line>): seq<(int, string)>
    decreases |body|
  {
    if body == [] then []
    else
      var rest := Places(skip, if InNew(body[0]) then next + 1 else next, body[1..]);
      if skip(body[0]) || body[0].Del? then rest else [(next, Raw(body[0]))] + rest
  }

  lemma {:induction false} PlacesFrom(skip: Line -> bool, next: int, body: seq<Line>)
    ensures |Places(skip, next, body)| == |News(Kept(skip, body))|
    ensures forall i :: 0 <= i < |Places(skip, next, body)| ==> Places(skip, next, body)[i].0 >= next
    decreases |body|
  {
    if body != [] {
      PlacesFrom(skip, if InNew(body[0]) then next + 1 else next, body[1..]);
      NewsOfKept(skip, body);
    }
  }

  ghost predicate AllIndex(head: seq<string>, pairs: seq<(int, string)>) {
    forall i :: 0 <= i < |pairs| ==> IndexesFile(head, pairs[i].0, pairs[i].1)
  }

  /** They are true: each shows, after its marker, the line of the new file that stands there. */
  lemma {:induction false} PlacesIndexFile(skip: Line -> bool, head: seq<string>, next: int, body: seq<Line>)
    requires NotesSkip(skip, body) && StandsAt(NewSide(body), head, next - 1)
    ensures AllIndex(head, Places(skip, next, body))
    decreases |body|
  {
    if body != [] {
      var l, rest := body[0], body[1..];
      assert l in body && forall m :: m in rest ==> m in body;
      var after := if InNew(l) then next + 1 else next;
      FirstStands(head, NewText(l), NewSide(rest), next - 1);
      PlacesIndexFile(skip, head, after, rest);
    }
  }

  lemma {:induction false} FirstStands(head: seq<string>, a: seq<string>, b: seq<string>, at: int)
    requires StandsAt(a + b, head, at)
    ensures StandsAt(b, head, at + |a|) && (|a| > 0 ==> at < |head| && head[at] == a[0])
  {
    var whole := head[at..at + |a + b|];
    assert whole[|a|..] == b && head[at + |a|..at + |a| + |b|] == whole[|a|..];
    assert |a| > 0 ==> whole[0] == head[at];
  }

  /** Some line is read after the ones passed over. */
  predicate Silently(says: string -> bool, texts: seq<string>) { exists t :: t in texts && !says(t) }

  /** A text that `says` holds of comes before one that it does not hold of. */
  predicate SpeaksEarlier(says: string -> bool, texts: seq<string>) {
    texts != [] && ((says(texts[0]) && Silently(says, texts[1..])) || SpeaksEarlier(says, texts[1..]))
  }

  /** The test for lines goes by their texts, and skips every marker of a missing newline. */
  ghost predicate GoesBy(skip: Line -> bool, says: string -> bool, body: seq<Line>) {
    NotesSkip(skip, body) && forall l :: l in body && !l.Note? ==> (skip(l) <==> says(l.text))
  }

  lemma {:induction false} ReadAfter(skip: Line -> bool, says: string -> bool, body: seq<Line>)
    requires GoesBy(skip, says, body)
    ensures News(Kept(skip, body)) != [] <==> Silently(says, NewSide(body))
  {
    if body != [] {
      var l, rest := body[0], body[1..];
      assert l in body && forall m :: m in rest ==> m in body;
      ReadAfter(skip, says, rest);
      NewsOfKept(skip, body);
    }
  }

  /** Behind a line that was passed over the numbers are right only if nothing more is shown. */
  lemma {:induction false} Behind(skip: Line -> bool, next: int, body: seq<Line>)
    ensures Consecutive(next - 1, News(Kept(skip, body))) == Places(skip, next, body) <==> News(Kept(skip, body)) == []
  {
    PlacesFrom(skip, next, body);
    var shown := Consecutive(next - 1, News(Kept(skip, body)));
    if shown != [] {
      assert shown[0].0 == next - 1 && Places(skip, next, body)[0].0 >= next;
    }
  }

  lemma {:induction false} ConsecutiveConcat(n: int, a: seq<Line>, b: seq<Line>)
    ensures Consecutive(n, a + b) == Consecutive(n, a) + Consecutive(n + |a|, b)
  {
  }

  lemma {:induction false} ConsecutiveCons(start: int, l: Line, rest: seq<Line>)
    ensures Consecutive(start, [l] + rest) == [(start, Raw(l))] + Consecutive(start + 1, rest)
  {
    ConsecutiveConcat(start, [l], rest);
    ConsecutiveOne(start, l);
  }

  lemma {:induction false} ConsecutiveOne(start: int, l: Line)
    ensures Consecutive(start, [l]) == [(start, Raw(l))]
  {
  }

  lemma {:induction false} EarlierMeansSilently(says: string -> bool, texts: seq<string>)
    ensures SpeaksEarlier(says, texts) ==> Silently(says, texts)
  {
    if texts != [] && SpeaksEarlier(says, texts) {
      EarlierMeansSilently(says, texts[1..]);
      var t :| t in texts[1..] && !says(t);
      assert t in texts;
    }
  }

  lemma {:induction false} EarlierCons(says: string -> bool, t: string, rest: seq<string>)
    ensures SpeaksEarlier(says, [t] + rest) <==> if says(t) then Silently(says, rest) else SpeaksEarlier(says, rest)
  {
    assert ([t] + rest)[1..] == rest;
    EarlierMeansSilently(says, rest);
  }

  lemma {:induction false} SamePairs(p: (int, string), a: seq<(int, string)>, b: seq<(int, string)>)
    ensures [p] + a == [p] + b <==> a == b
  {
    assert ([p] + a)[1..] == a && ([p] + b)[1..] == b;
  }

  /** All numbers of a hunk are right exactly if none of its new-side lines that are skipped comes before one that is not. */
  lemma {:induction false} NumbersTrue(skip: Line -> bool, says: string -> bool, next: int, body: seq<Line>)
    requires GoesBy(skip, says, body)
    ensures Consecutive(next, News(Kept(skip, body))) == Places(skip, next, body) <==>
            !SpeaksEarlier(says, NewSide(body))
    decreases |body|, 0
  {
    if body != [] {
      var l, rest := body[0], body[1..];
      assert l in body && forall m :: m in rest ==> m in body;
      if InNew(l) {
        NewsOfKept(skip, body);
        EarlierCons(says, l.text, NewSide(rest));
        NewLineTrue(skip, says, next, l, rest);
      } else {
        NumbersTrue(skip, says, next, rest);
        OtherLine(skip, says, next, body);
      }
    }
  }

  /** A line that is not of the new side changes nothing. */
  lemma {:induction false} OtherLine(skip: Line -> bool, says: string -> bool, next: int, body: seq<Line>)
    requires GoesBy(skip, says, body) && body != [] && !InNew(body[0])
    ensures News(Kept(skip, body)) == News(Kept(skip, body[1..])) && NewSide(body) == NewSide(body[1..])
    ensures Places(skip, next, body) == Places(skip, next, body[1..])
  {
    var rest := body[1..];
    NewsOfKept(skip, body);
    assert [] + NewSide(rest) == NewSide(rest);
    assert [] + News(Kept(skip, rest)) == News(Kept(skip, rest));
  }

  lemma {:induction false} NewLineTrue(skip: Line -> bool, says: string -> bool, next: int, l: Line, rest: seq<Line>)
    requires InNew(l) && GoesBy(skip, says, rest)
    ensures var news := News(Kept(skip, rest));
            if skip(l) then
              Consecutive(next, news) == Places(skip, next + 1, rest) <==> !Silently(says, NewSide(rest))
            else
              Consecutive(next, [l] + news) == [(next, Raw(l))] + Places(skip, next + 1, rest) <==>
              !SpeaksEarlier(says, NewSide(rest))
    decreases |rest|, 1
  {
    var news := News(Kept(skip, rest));
    if skip(l) {
      Behind(skip, next + 1, rest);
      ReadAfter(skip, says, rest);
    } else {
      NumbersTrue(skip, says, next + 1, rest);
      ConsecutiveCons(next, l, news);
      SamePairs((next, Raw(l)), Consecutive(next + 1, news), Places(skip, next + 1, rest));
    }
  }

  // ---------- all hunks ----------

  /** What a hunk shows with numbers adds or deletes something. */
  predicate ShowsNumbers(h: Hunk) { Changes(KeptHunk(SaysNoNewline, h)) }

  /** The lines shown with numbers, each with its place in the new file. */
  function AllPlaces(hunks: seq<Hunk>): seq<(int, string)> {
    if hunks == [] then []
    else (if ShowsNumbers(hunks[0]) then Places(SaysNoNewline, hunks[0].header.start2, hunks[0].body) else [])
         + AllPlaces(hunks[1..])
  }

  ghost predicate NumberedRight(h: Hunk) { ShowsNumbers(h) ==> !SpeaksEarlier(Speaks, NewSide(h.body)) }

  ghost predicate HunkReadable(h: Hunk) { NotesSkip(SaysNoNewline, h.body) && !Speaks(h.header.section) }

  lemma {:induction false} SkipsByText(body: seq<Line>)
    requires NotesSkip(SaysNoNewline, body)
    ensures GoesBy(SaysNoNewline, Speaks, body)
  {
    forall l | l in body && !l.Note? ensures SaysNoNewline(l) <==> Speaks(l.text) {
      LineSpeaks(l);
    }
  }

  lemma {:induction false} HunkNumbers(h: Hunk)
    requires HunkReadable(h)
    ensures var shown := if ShowsNumbers(h) then Consecutive(h.header.start2, News(KeptHunk(SaysNoNewline, h).body)) else [];
            var places := if ShowsNumbers(h) then Places(SaysNoNewline, h.header.start2, h.body) else [];
            |shown| == |places| && (shown == places <==> NumberedRight(h))
  {
    PlacesFrom(SaysNoNewline, h.header.start2, h.body);
    SkipsByText(h.body);
    NumbersTrue(SaysNoNewline, Speaks, h.header.start2, h.body);
  }

  lemma {:induction false} SameConcat<T>(a: seq<T>, b: seq<T>, c: seq<T>, d: seq<T>)
    requires |a| == |c|
    ensures a + b == c + d <==> a == c && b == d
  {
    assert (a + b)[..|a|] == a && (a + b)[|a|..] == b;
    assert (c + d)[..|c|] == c && (c + d)[|c|..] == d;
  }

  lemma {:induction false} HunksNumbers(hunks: seq<Hunk>)
    requires forall k :: 0 <= k < |hunks| ==> HunkReadable(hunks[k])
    ensures Expected(KeptHunks(SaysNoNewline, hunks)) == AllPlaces(hunks) <==>
            forall k :: 0 <= k < |hunks| ==> NumberedRight(hunks[k])
  {
    if hunks != [] {
      var kept, h := KeptHunks(SaysNoNewline, hunks), hunks[0];
      assert forall k :: 0 <= k < |hunks[1..]| ==> hunks[1..][k] == hunks[k + 1];
      HunksNumbers(hunks[1..]);
      HunkNumbers(h);
      assert kept[0] == KeptHunk(SaysNoNewline, h) && kept[1..] == KeptHunks(SaysNoNewline, hunks[1..]);
      SameConcat(if ShowsNumbers(h) then Consecutive(h.header.start2, News(kept[0].body)) else [], Expected(kept[1..]),
                 if ShowsNumbers(h) then Places(SaysNoNewline, h.header.start2, h.body) else [], AllPlaces(hunks[1..]));
      assert forall k :: 0 < k < |hunks| ==> hunks[k] == hunks[1..][k - 1];
    }
  }

  // ---------- the decoupled text of a patch ----------

  lemma {:induction false} VisibleFlatten(skip: Line -> bool, hunks: seq<Hunk>, first: bool)
    requires Readable(skip, hunks)
    ensures Visible(skip, Flatten(hunks), first) == Flatten(KeptHunks(skip, hunks))
  {
    if hunks != [] {
      var h, kept := hunks[0], KeptHunks(skip, hunks);
      VisibleFlatten(skip, hunks[1..], false);
      VisibleOne(skip, h, Flatten(hunks[1..]), first);
      assert kept[0] == KeptHunk(skip, h) && kept[1..] == KeptHunks(skip, hunks[1..]);
    }
  }

  lemma {:induction false} VisibleOne(skip: Line -> bool, h: Hunk, rest: seq<Line>, first: bool)
    requires !skip(Head(h.header)) && forall l :: l in h.body ==> BodyLine(l)
    ensures Visible(skip, [Head(h.header)] + h.body + rest, first) ==
            [Head(h.header)] + Kept(skip, h.body) + Visible(skip, rest, false)
  {
    var lines := [Head(h.header)] + h.body + rest;
    VisibleBody(skip, h.body, rest);
    assert lines[0] == Head(h.header) && lines[1..] == h.body + rest;
    Assoc([Head(h.header)], Kept(skip, h.body), Visible(skip, rest, false));
  }

  lemma {:induction false} AllReadable(hunks: seq<Hunk>)
    requires forall k :: 0 <= k < |hunks| ==> HunkReadable(hunks[k])
    ensures Readable(SaysNoNewline, hunks)
  {
    forall k | 0 <= k < |hunks| ensures !SaysNoNewline(Head(hunks[k].header)) {
      HeadSpeaks(hunks[k].header);
    }
    forall k, l | 0 <= k < |hunks| && l in hunks[k].body ensures BodyLine(l) {
      assert HunkReadable(hunks[k]);
    }
  }

  /** What is seen of a patch that is written out plainly, or as the extension writes it. */
  lemma {:induction false} SeenHunks(hunks: seq<Hunk>)
    requires forall k :: 0 <= k < |hunks| ==> HunkReadable(hunks[k])
    ensures Seen(Flatten(hunks)) == ([], KeptHunks(SaysNoNewline, hunks))
    ensures Seen(Emit(hunks)) == (if hunks == [] then [] else [Blank], KeptHunks(SaysNoNewline, hunks))
  {
    AllReadable(hunks);
    VisibleFlatten(SaysNoNewline, hunks, true);
    SplitKept(SaysNoNewline, [], hunks);
    assert [] + Flatten(KeptHunks(SaysNoNewline, hunks)) == Flatten(KeptHunks(SaysNoNewline, hunks));
    NoteSaysSo();
    if hunks != [] {
      SplitVisibleEmit(SaysNoNewline, hunks);
    }
  }

  lemma {:induction false} NoPreamble(hunks: seq<Hunk>)
    ensures PreambleNumbers([], hunks) == [] && PreambleNumbers([Blank], hunks) == []
  {
    assert News([]) == [] && Olds([]) == [];
    assert [Blank][1..] == [] && News([Blank]) == [Blank] && Olds([Blank]) == [Blank];
  }

  /** The numbers shown for hunks, written out plainly or as the extension writes them, are the places of their lines
      exactly if in no hunk shown with numbers a new-side line that speaks of a missing newline comes before one that does
      not. */
  lemma {:induction false} ShownNumbersTrue(file: Option<FileInfo>, hunks: seq<Hunk>)
    requires (file.Some? ==> !file.value.deleted) && forall k :: 0 <= k < |hunks| ==> HunkReadable(hunks[k])
    ensures NumsOf(DecoupledItems(file, Flatten(hunks))) == AllPlaces(hunks) <==>
            forall k :: 0 <= k < |hunks| ==> NumberedRight(hunks[k])
    ensures NumsOf(DecoupledItems(file, Emit(hunks))) == NumsOf(DecoupledItems(file, Flatten(hunks)))
  {
    var kept := KeptHunks(SaysNoNewline, hunks);
    SeenHunks(hunks);
    NoPreamble(kept);
    NumbersShown(file, Flatten(hunks));
    NumbersShown(file, Emit(hunks));
    HunksNumbers(hunks);
    assert [] + Expected(kept) == Expected(kept);
  }

  // ---------- well-formed patches ----------

  lemma {:induction false} TakenReadable(base: seq<string>, head: seq<string>, hunks: seq<Hunk>, k: nat)
    requires Takes(base, head, hunks) && k < |hunks| && !Speaks(hunks[k].header.section)
    ensures HunkReadable(hunks[k])
    ensures 1 <= hunks[k].header.start2 <= NewEnd(hunks[k]) <= |head|
    ensures NewSide(hunks[k].body) == head[hunks[k].header.start2 - 1..NewEnd(hunks[k])]
  {
    TakesMember(base, head, 0, 0, hunks, k);
    NoteSaysSo();
  }

  lemma {:induction false} PlacesOfHunks(head: seq<string>, hunks: seq<Hunk>)
    requires forall k :: 0 <= k < |hunks| ==>
               HunkReadable(hunks[k]) && StandsAt(NewSide(hunks[k].body), head, hunks[k].header.start2 - 1)
    ensures forall p :: p in AllPlaces(hunks) ==> IndexesFile(head, p.0, p.1)
  {
    if hunks != [] {
      assert forall k :: 0 <= k < |hunks[1..]| ==> hunks[1..][k] == hunks[k + 1];
      PlacesOfHunks(head, hunks[1..]);
      PlacesIndexFile(SaysNoNewline, head, hunks[0].header.start2, hunks[0].body);
    }
  }

  // ---------- extended patches ----------

  /** Extending a well-formed patch and then numbering it, where no section text it is left with speaks of a missing
      newline: the numbers shown are the places that the extended headers say exactly if in no hunk shown with numbers a
      new-side line that speaks of it comes before one that does not. */
  lemma {:induction false} ExtendedNumbersTrue(cfg: Config, base: seq<string>, head: seq<string>,
                                               file: Option<FileInfo>, hunks: seq<Hunk>)
    requires Takes(base, head, hunks) && (file.Some? ==> !file.value.deleted)
    requires var es := ExtendHunks(cfg, base, head, hunks); forall k :: 0 <= k < |es| ==> !Speaks(es[k].header.section)
    ensures var es := ExtendHunks(cfg, base, head, hunks);
            NumsOf(DecoupledItems(file, Processed(cfg, base, head, Flatten(hunks)))) == AllPlaces(es) <==>
            forall k :: 0 <= k < |es| ==> NumberedRight(es[k])
  {
    var es := ExtendHunks(cfg, base, head, hunks);
    AllExtendedGrown(cfg, base, head, head, hunks);
    NoteSaysSo();
    forall k | 0 <= k < |es| ensures HunkReadable(es[k]) {
    }
    ShownNumbersTrue(file, es);
    TakesNoHeads(base, head, 0, 0, hunks);
    ProcessedFlatten(cfg, base, head, hunks);
  }

  lemma {:induction false} NoneEarlier(texts: seq<string>)
    requires forall t :: t in texts ==> !Speaks(t)
    ensures !SpeaksEarlier(Speaks, texts)
  {
    if texts != [] {
      assert texts[0] in texts && forall t :: t in texts[1..] ==> t in texts;
      NoneEarlier(texts[1..]);
    }
  }

  lemma {:induction false} StandsIn(part: seq<string>, whole: seq<string>, at: int)
    requires StandsAt(part, whole, at)
    ensures forall t :: t in part ==> t in whole
  {
    forall t | t in part ensures t in whole {
      var i :| 0 <= i < |part| && part[i] == t;
    }
  }

  /** In a file that does not speak of a missing newline the numbers of all hunks that stand in it are right. */
  lemma {:induction false} SilentFile(head: seq<string>, es: seq<Hunk>)
    requires BodiesOk(es) && SidesPlaced(head, es) && forall t :: t in head ==> !Speaks(t)
    requires forall k :: 0 <= k < |es| ==> !Speaks(es[k].header.section)
    ensures forall k :: 0 <= k < |es| ==> NumberedRight(es[k])
    ensures forall p :: p in AllPlaces(es) ==> IndexesFile(head, p.0, p.1)
  {
    NoteSaysSo();
    forall k | 0 <= k < |es| ensures HunkReadable(es[k]) && NumberedRight(es[k]) {
      StandsIn(NewSide(es[k].body), head, es[k].header.start2 - 1);
      NoneEarlier(NewSide(es[k].body));
    }
    PlacesOfHunks(head, es);
  }

  /** Extending a well-formed patch with the new file at hand and then numbering it: every number shown names the line of
      the new file it stands by, if the lines put after a hunk end before the next hunk, counts are written out, and
      neither the new file nor the section texts speak of a missing newline. */
  lemma {:induction false} ExtendedNumbersIndexFile(cfg: Config, base: seq<string>, head: seq<string>,
                                                    file: Option<FileInfo>, hunks: seq<Hunk>)
    requires Takes(base, head, hunks) && (file.Some? ==> !file.value.deleted)
    requires forall h :: h in hunks ==> h.header.Explicit() && !Speaks(h.header.section)
    requires forall k :: 0 <= k < |hunks| - 1 ==> OldEnd(hunks[k]) + cfg.after < hunks[k + 1].header.start1
    requires forall t :: t in head ==> !Speaks(t)
    ensures forall p :: p in NumsOf(DecoupledItems(file, Processed(cfg, base, head, Flatten(hunks)))) ==>
              IndexesFile(head, p.0, p.1)
  {
    var es := ExtendHunks(cfg, base, head, hunks);
    ExtendedNumbersTrue(cfg, base, head, file, hunks);
    ExtendedPlaced(cfg, base, head, hunks);
    SilentFile(head, es);
  }

  // ---------- lines before the first header ----------

  /** A deleted line and an added one before the first header, as the patches that `difflib` makes for large files have
      them ("--- " and "+++ "): the second of them is shown with the number -1, whatever hunks follow. */
  lemma {:induction false} PreambleNumbered(file: Option<FileInfo>, a: Line, b: Line, hunks: seq<Hunk>)
    requires (file.Some? ==> !file.value.deleted) && hunks != []
    requires a.Del? && b.Add? && !Speaks(a.text) && !Speaks(b.text)
    requires forall k :: 0 <= k < |hunks| ==> HunkReadable(hunks[k])
    ensures NumsOf(DecoupledItems(file, [a, b] + Flatten(hunks))) ==
            [(-1, Raw(b))] + Expected(KeptHunks(SaysNoNewline, hunks))
  {
    LineSpeaks(a);
    LineSpeaks(b);
    AllReadable(hunks);
    SeenAfterTwo(SaysNoNewline, a, b, hunks);
    NumbersShown(file, [a, b] + Flatten(hunks));
    SignedPreamble(a, b, KeptHunks(SaysNoNewline, hunks));
  }

  lemma {:induction false} SeenAfterTwo(skip: Line -> bool, a: Line, b: Line, hunks: seq<Hunk>)
    requires a.Del? && b.Add? && !skip(a) && !skip(b) && Readable(skip, hunks)
    ensures Split(Visible(skip, [a, b] + Flatten(hunks), true)) == ([a, b], KeptHunks(skip, hunks))
  {
    VisibleAfterTwo(skip, a, b, hunks);
    SplitKept(skip, [a, b], hunks);
  }

  lemma {:induction false} SplitKept(skip: Line -> bool, pre: seq<Line>, hunks: seq<Hunk>)
    requires NoHeads(pre) && BodiesOk(hunks)
    ensures Split(pre + Flatten(KeptHunks(skip, hunks))) == (pre, KeptHunks(skip, hunks))
  {
    KeptNoHeads(skip, hunks);
    SplitFlatten(KeptHunks(skip, hunks));
    SplitPrefixed(pre, Flatten(KeptHunks(skip, hunks)));
    assert pre + [] == pre;
  }

  lemma {:induction false} VisibleAfterTwo(skip: Line -> bool, a: Line, b: Line, hunks: seq<Hunk>)
    requires a.Del? && b.Add? && !skip(a) && !skip(b) && Readable(skip, hunks)
    ensures Visible(skip, [a, b] + Flatten(hunks), true) == [a, b] + Flatten(KeptHunks(skip, hunks))
  {
    VisibleFlatten(skip, hunks, false);
  }

  lemma {:induction false} SignedPreamble(a: Line, b: Line, hunks: seq<Hunk>)
    requires a.Del? && b.Add? && hunks != []
    ensures PreambleNumbers([a, b], hunks) == [(-1, Raw(b))]
  {
    NewsCons(a, [b]);
    NewsCons(b, []);
    assert [a] + [b] == [a, b] && [b] + [] == [b];
    assert b in News([a, b]);
  }

  // ---------- what goes wrong ----------

  lemma {:induction false} OneExpected(h: Hunk, news: seq<Line>)
    requires news == News(Kept(SaysNoNewline, h.body)) && news != [] && news[0].Add?
    ensures Expected(KeptHunks(SaysNoNewline, [h])) == Consecutive(h.header.start2, news)
  {
    var kept := KeptHunks(SaysNoNewline, [h]);
    assert kept == [KeptHunk(SaysNoNewline, h)] && kept[1..] == [];
    assert news[0] in news;
    assert Consecutive(h.header.start2, news) + [] == Consecutive(h.header.start2, news);
  }

  /** A line added at the top of a file, with a comment below it that speaks of a missing newline: whatever the texts, the
      line after the comment is shown with the comment's number. */
  lemma {:induction false} CommentPassed(x: string, comment: string, y: string, h: Hunk)
    requires !Speaks(x) && Speaks(comment) && !Speaks(y)
    requires h == Hunk(Header(1, Some(1), 1, Some(3), ""), [Add(x), Add(comment), Ctx(y)])
    ensures Takes([y], [x, comment, y], [h])
    ensures NumsOf(DecoupledItems(None, Flatten([h]))) == [(1, "+" + x), (2, " " + y)]
  {
    CommentHunk([y], [x, comment, y], h);
    ShortTextSilent("");
    NoteSaysSo();
    SeenHunks([h]);
    NumbersShown(None, Flatten([h]));
    NoPreamble(KeptHunks(SaysNoNewline, [h]));
    LineSpeaks(Add(x));
    LineSpeaks(Add(comment));
    LineSpeaks(Ctx(y));
    CommentNumbers(SaysNoNewline, x, comment, y);
    OneExpected(h, [Add(x), Ctx(y)]);
    assert [] + Consecutive(1, [Add(x), Ctx(y)]) == Consecutive(1, [Add(x), Ctx(y)]);
  }

  /** A well-formed patch with such a comment. */
  lemma {:induction false} NumberTooSmall()
    ensures var comment := "# No newline at end of file";
            var base, head, hunks := ["y"], ["x", comment, "y"],
                                     [Hunk(Header(1, Some(1), 1, Some(3), ""), [Add("x"), Add(comment), Ctx("y")])];
            && Takes(base, head, hunks)
            && NumsOf(DecoupledItems(None, Flatten(hunks))) == [(1, "+" + "x"), (2, " " + "y")] && head[2] == "y" != head[1]
  {
    var comment := "# No newline at end of file";
    CommentSaysSo();
    LineSpeaks(Ctx(comment));
    ShortTextSilent("x");
    ShortTextSilent("y");
    CommentPassed("x", comment, "y", Hunk(Header(1, Some(1), 1, Some(3), ""), [Add("x"), Add(comment), Ctx("y")]));
  }

  lemma {:induction false} ShortTextSilent(text: string)
    requires |text| < |NO_NEWLINE|
    ensures !Speaks(text)
  {
    LongerNotIn(NO_NEWLINE, Lower(text));
  }

  lemma {:induction false} CommentHunk(base: seq<string>, head: seq<string>, h: Hunk)
    requires |base| == 1 && |head| == 3 && head[2] == base[0]
    requires h == Hunk(Header(1, Some(1), 1, Some(3), ""), [Add(head[0]), Add(head[1]), Ctx(head[2])])
    ensures Takes(base, head, [h])
  {
    SideCons(Add(head[0]), [Add(head[1]), Ctx(head[2])]);
    SidesOfTwo(Add(head[1]), Ctx(head[2]));
    assert h.body == [Add(head[0])] + [Add(head[1]), Ctx(head[2])];
    assert OldSide(h.body) == base && NewSide(h.body) == head;
    assert base[0..1] == base && head[0..3] == head && base[1..] == [] && head[3..] == [];
    TakesCons(base, head, 0, 0, h, []);
    assert [h] + [] == [h];
  }
}
