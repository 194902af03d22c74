/** What the steps of wrapping do to the symbols of a text: splitting, tagging, replacing, making list items, counting. */
module WrapParts {
  import opened PyText
  import opened WrapText

  // ---------- splitting ----------

  /** Parts with a text between each two. */
  function JoinedWith(parts: seq<Text>, between: Text): Text {
    if parts == [] then []
    else if |parts| == 1 then parts[0]
    else parts[0] + (between + JoinedWith(parts[1..], between))
  }

  lemma {:induction false} JoinedCons(part: Text, parts: seq<Text>, between: Text)
    requires parts != []
    ensures JoinedWith([part] + parts, between) == part + (between + JoinedWith(parts, between))
  {
    assert ([part] + parts)[1..] == parts;
  }

  lemma {:induction false} JoinedLonger(c: Symbol, parts: seq<Text>, between: Text)
    requires parts != []
    ensures JoinedWith([[c] + parts[0]] + parts[1..], between) == [c] + JoinedWith(parts, between)
  {
    var more := [[c] + parts[0]] + parts[1..];
    assert more[1..] == parts[1..];
    if |parts| > 1 {
      assert ([c] + parts[0]) + (between + JoinedWith(parts[1..], between))
          == [c] + (parts[0] + (between + JoinedWith(parts[1..], between)));
    }
  }

  /** The parts hold no separator, and with it between them they are the text. */
  lemma {:induction false} PartsExactly(sep: Symbol, text: Text)
    ensures JoinedWith(Parts(sep, text), [sep]) == text
    ensures forall k :: 0 <= k < |Parts(sep, text)| ==> sep !in Parts(sep, text)[k]
  {
    if text != [] {
      var rest := Parts(sep, text[1..]);
      PartsExactly(sep, text[1..]);
      assert text == [text[0]] + text[1..];
      if text[0] == sep {
        JoinedCons([], rest, [sep]);
        assert [] + ([sep] + text[1..]) == text;
      } else {
        JoinedLonger(text[0], rest, [sep]);
      }
    }
  }

  // ---------- tagging ----------

  /** Code tags read as the backticks they come from. */
  function Unread(text: Text): Text {
    if text == [] then [] else [if text[0] == Open || text[0] == Close then Tick else text[0]] + Unread(text[1..])
  }

  function OddTicks(text: Text): bool {
    if text == [] then false else (text[0] == Tick) != OddTicks(text[1..])
  }

  /** Tagging turns backticks into tags and changes nothing else; one tag more closes code that is left open. */
  lemma {:induction false} TaggedExactly(text: Text, inside: bool)
    requires Untagged(text)
    ensures Tick !in Tagged(text, inside)
    ensures Unread(Tagged(text, inside)) == text + (if OddTicks(text) != inside then [Tick] else [])
  {
    if text == [] {
      assert [Close][1..] == [] && Unread([Close]) == [Tick];
    } else {
      var now := if text[0] == Tick then !inside else inside;
      assert Untagged(text[1..]) && text[0] in text;
      TaggedExactly(text[1..], now);
      assert Tagged(text, inside)[1..] == Tagged(text[1..], now);
      assert text == [text[0]] + text[1..];
    }
  }

  // ---------- replacing ----------

  ghost predicate Occurs(part: Text, text: Text) { exists i :: StandsAt(part, text, i) }

  /** In the text of a part, followed by what is sought, this comes up nowhere earlier. */
  ghost predicate UpTo(part: Text, from: Text) {
    forall i :: 0 <= i < |part| ==> !StandsAt(from, part + from, i)
  }

  lemma {:induction false} StandsCons(part: Text, c: Symbol, rest: Text, i: int)
    ensures StandsAt(part, [c] + rest, i) <==> if i == 0 then part <= [c] + rest else StandsAt(part, rest, i - 1)
  {
    var all := [c] + rest;
    if i > 0 && i + |part| <= |all| {
      assert all[i..i + |part|] == rest[i - 1..i - 1 + |part|];
    }
  }

  lemma {:induction false} OccursCons(part: Text, c: Symbol, rest: Text)
    ensures Occurs(part, [c] + rest) <==> part <= [c] + rest || Occurs(part, rest)
  {
    StandsCons(part, c, rest, 0);
    if Occurs(part, rest) {
      var i :| StandsAt(part, rest, i);
      StandsCons(part, c, rest, i + 1);
    }
    if Occurs(part, [c] + rest) {
      var i :| StandsAt(part, [c] + rest, i);
      StandsCons(part, c, rest, i);
    }
  }

  lemma {:induction false} LongerUpTo(c: Symbol, part: Text, from: Text, after: Text)
    requires UpTo(part, from) && !(from <= [c] + (part + (from + after)))
    ensures UpTo([c] + part, from)
  {
    var more := [c] + part;
    assert more + from == [c] + (part + from);
    assert more + from <= [c] + (part + (from + after));
    forall i | 0 <= i < |more| ensures !StandsAt(from, more + from, i) {
      StandsCons(from, c, part + from, i);
    }
  }

  /** Replacing takes a text apart at the places where `from` stands, each time the first one left, and puts `to` there. */
  ghost predicate IsReplaced(text: Text, from: Text, to: Text, r: Text, parts: seq<Text>) {
    && parts != [] && text == JoinedWith(parts, from) && r == JoinedWith(parts, to)
    && (forall k :: 0 <= k < |parts| - 1 ==> UpTo(parts[k], from))
    && !Occurs(from, parts[|parts| - 1])
  }

  lemma {:induction false} ReplaceExactly(text: Text, from: Text, to: Text) returns (parts: seq<Text>)
    requires from != []
    ensures IsReplaced(text, from, to, Replace(text, from, to), parts)
    decreases |text|
  {
    if text == [] {
      parts := [[]];
    } else if from <= text {
      var rest := ReplaceExactly(text[|from|..], from, to);
      parts := [[]] + rest;
      FirstReplaced(text, from, to, rest);
    } else {
      var rest := ReplaceExactly(text[1..], from, to);
      parts := [[text[0]] + rest[0]] + rest[1..];
      OtherKept(text, from, to, rest);
    }
  }

  lemma {:induction false} FirstReplaced(text: Text, from: Text, to: Text, rest: seq<Text>)
    requires from != [] && from <= text
    requires IsReplaced(text[|from|..], from, to, Replace(text[|from|..], from, to), rest)
    ensures IsReplaced(text, from, to, Replace(text, from, to), [[]] + rest)
  {
    var parts := [[]] + rest;
    JoinedCons([], rest, from);
    JoinedCons([], rest, to);
    assert text == from + text[|from|..];
    assert forall k :: 0 < k < |parts| ==> parts[k] == rest[k - 1];
  }

  lemma {:induction false} OtherKept(text: Text, from: Text, to: Text, rest: seq<Text>)
    requires from != [] && text != [] && !(from <= text)
    requires IsReplaced(text[1..], from, to, Replace(text[1..], from, to), rest)
    ensures IsReplaced(text, from, to, Replace(text, from, to), [[text[0]] + rest[0]] + rest[1..])
  {
    var parts := [[text[0]] + rest[0]] + rest[1..];
    JoinedLonger(text[0], rest, from);
    JoinedLonger(text[0], rest, to);
    assert text == [text[0]] + text[1..];
    assert forall k :: 0 < k < |parts| ==> parts[k] == rest[k];
    if |rest| == 1 {
      OccursCons(from, text[0], rest[0]);
    } else {
      LongerUpTo(text[0], rest[0], from, JoinedWith(rest[1..], from));
    }
  }

  // ---------- lists ----------

  /** A marker at the start of a line. */
  predicate Marker(p: Text) {
    p == [Newline, Ch('-'), Space] || p == [Newline, Space, Ch('-'), Space]
    || p == [Newline, Ch('*'), Space] || p == [Newline, Space, Ch('*'), Space]
  }

  /** What is replaced leaves nothing that was not there before and has no break in it. */
  lemma {:induction false} PrefixBefore(q: Text, text: Text, from: Text)
    requires from != [] && Br !in q && q <= Replace(text, from, ITEM)
    ensures q <= text
    decreases |text|
  {
    if q != [] {
      assert q[0] in q;
      assert !(from <= text);
      assert Br !in q[1..] && q[1..] <= Replace(text[1..], from, ITEM);
      PrefixBefore(q[1..], text[1..], from);
      assert q == [q[0]] + q[1..] && text == [text[0]] + text[1..];
    }
  }

  lemma {:induction false} AfterItem(p: Text, rest: Text)
    requires Marker(p)
    ensures Occurs(p, ITEM + rest) <==> Occurs(p, rest)
  {
    assert ITEM + rest == [Br] + ([Li] + ([Space] + rest));
    OccursCons(p, Space, rest);
    OccursCons(p, Li, [Space] + rest);
    OccursCons(p, Br, [Li] + ([Space] + rest));
    assert p[0] == Newline;
  }

  lemma {:induction false} OccursLater(p: Text, text: Text, n: nat)
    requires n <= |text| && Occurs(p, text[n..])
    ensures Occurs(p, text)
  {
    var i :| StandsAt(p, text[n..], i);
    assert text[n + i..n + i + |p|] == text[n..][i..i + |p|];
    assert StandsAt(p, text, n + i);
  }

  /** Replacing one marker makes no new one, and leaves none of its own kind. */
  lemma {:induction false} MarkerGone(p: Text, text: Text, from: Text)
    requires Marker(p) && Marker(from)
    ensures Occurs(p, Replace(text, from, ITEM)) ==> p != from && Occurs(p, text)
    decreases |text|
  {
    var r := Replace(text, from, ITEM);
    if text == [] {
    } else if from <= text {
      MarkerGone(p, text[|from|..], from);
      AfterItem(p, Replace(text[|from|..], from, ITEM));
      if Occurs(p, r) {
        OccursLater(p, text, |from|);
      }
    } else {
      MarkerGone(p, text[1..], from);
      OccursCons(p, text[0], Replace(text[1..], from, ITEM));
      OccursCons(p, text[0], text[1..]);
      assert text == [text[0]] + text[1..];
      if p <= r {
        PrefixBefore(p, text, from);
      }
    }
  }

  lemma {:induction false} FourGone(p: Text, text: Text, m0: Text, m1: Text, m2: Text, m3: Text)
    requires Marker(p) && Marker(m0) && Marker(m1) && Marker(m2) && Marker(m3)
    requires p == m0 || p == m1 || p == m2 || p == m3
    ensures !Occurs(p, Replace(Replace(Replace(Replace(text, m0, ITEM), m1, ITEM), m2, ITEM), m3, ITEM))
  {
    var a := Replace(text, m0, ITEM);
    var b := Replace(a, m1, ITEM);
    var c := Replace(b, m2, ITEM);
    MarkerGone(p, text, m0);
    MarkerGone(p, a, m1);
    MarkerGone(p, b, m2);
    MarkerGone(p, c, m3);
  }

  /** A list has no marker left at the start of any line. */
  lemma {:induction false} ListedMarkersGone(text: Text, p: Text)
    requires Marker(p)
    ensures !Occurs(p, Listed(text))
  {
    var body := LStripped(text);
    FourGone(p, text[..LeadingBlanks(text)] + [Li] + (if |body| >= 2 then body[2..] else []),
             [Newline, Ch('-'), Space], [Newline, Space, Ch('-'), Space],
             [Newline, Ch('*'), Space], [Newline, Space, Ch('*'), Space]);
  }

  /** What markers and list items are made of. */
  predicate ListMark(s: Symbol) {
    s == Newline || s == Space || s == Br || s == Li || s == Ch('-') || s == Ch('*')
  }

  /** The symbols of a text but those that markers and list items are made of. */
  function Inner(text: Text): Text {
    if text == [] then [] else (if ListMark(text[0]) then [] else [text[0]]) + Inner(text[1..])
  }

  lemma {:induction false} AssocText(a: Text, b: Text, c: Text)
    ensures a + (b + c) == (a + b) + c
  {
  }

  lemma {:induction false} InnerCons(s: Symbol, rest: Text)
    ensures Inner([s] + rest) == (if ListMark(s) then [] else [s]) + Inner(rest)
  {
    assert ([s] + rest)[1..] == rest;
  }

  lemma {:induction false} InnerConcat(a: Text, b: Text)
    ensures Inner(a + b) == Inner(a) + Inner(b)
  {
    if a == [] {
      assert a + b == b;
    } else {
      InnerConcat(a[1..], b);
      InnerCons(a[0], a[1..] + b);
      assert a + b == [a[0]] + (a[1..] + b);
      AssocText(if ListMark(a[0]) then [] else [a[0]], Inner(a[1..]), Inner(b));
    }
  }

  predicate NothingInner(text: Text) { forall s :: s in text ==> ListMark(s) }

  lemma {:induction false} InnerOfMarks(text: Text)
    requires NothingInner(text)
    ensures Inner(text) == []
  {
    if text != [] {
      assert text[0] in text;
      InnerOfMarks(text[1..]);
    }
  }

  lemma {:induction false} ReplaceKeepsInner(text: Text, from: Text)
    requires Marker(from)
    ensures Inner(Replace(text, from, ITEM)) == Inner(text)
    decreases |text|
  {
    if text == [] {
    } else if from <= text {
      var rest := text[|from|..];
      assert text == from + rest;
      ReplaceKeepsInner(rest, from);
      InnerOfMarks(from);
      InnerOfMarks(ITEM);
      InnerConcat(from, rest);
      InnerConcat(ITEM, Replace(rest, from, ITEM));
    } else {
      ReplaceKeepsInner(text[1..], from);
      assert Replace(text, from, ITEM)[1..] == Replace(text[1..], from, ITEM);
    }
  }

  lemma {:induction false} FourKeepInner(text: Text, m0: Text, m1: Text, m2: Text, m3: Text)
    requires Marker(m0) && Marker(m1) && Marker(m2) && Marker(m3)
    ensures Inner(Replace(Replace(Replace(Replace(text, m0, ITEM), m1, ITEM), m2, ITEM), m3, ITEM)) == Inner(text)
  {
    var a := Replace(text, m0, ITEM);
    var b := Replace(a, m1, ITEM);
    ReplaceKeepsInner(text, m0);
    ReplaceKeepsInner(a, m1);
    ReplaceKeepsInner(b, m2);
    ReplaceKeepsInner(Replace(b, m2, ITEM), m3);
  }

  lemma {:induction false} FirstKeepsInner(lead: Text, marker: Text, rest: Text)
    requires NothingInner(marker)
    ensures Inner(lead + [Li] + rest) == Inner(lead + marker + rest)
  {
    InnerOfMarks(marker);
    InnerOfMarks([Li]);
    InnerConcat(lead, [Li]);
    InnerConcat(lead + [Li], rest);
    InnerConcat(lead, marker);
    InnerConcat(lead + marker, rest);
  }

  /** Making list items loses nothing but the markers. */
  lemma {:induction false} ListedKeepsInner(text: Text)
    requires IsList(text)
    ensures Inner(Listed(text)) == Inner(text)
  {
    var body, lead := LStripped(text), text[..LeadingBlanks(text)];
    FourKeepInner(lead + [Li] + body[2..], [Newline, Ch('-'), Space], [Newline, Space, Ch('-'), Space],
                  [Newline, Ch('*'), Space], [Newline, Space, Ch('*'), Space]);
    FirstKeepsInner(lead, body[..2], body[2..]);
    assert text == lead + body[..2] + body[2..];
  }

  lemma {:induction false} PrefixAt(part: Text, whole: Text, k: nat)
    requires k < |part|
    ensures part <= whole ==> k < |whole| && part[k] == whole[k]
  {
  }

  lemma {:induction false} NotPrefix(lead: Text, rest: Text, from: Text)
    requires Marker(from) && Ch('-') !in lead && Ch('*') !in lead
    ensures !(from <= lead + ([Li] + rest))
  {
    var all, k := lead + ([Li] + rest), |from| - 2;
    PrefixAt(from, all, 0);
    PrefixAt(from, all, 1);
    PrefixAt(from, all, k);
    assert from[k] == Ch('-') || from[k] == Ch('*');
    assert k < |lead| ==> all[k] == lead[k] && lead[k] in lead;
    assert all[|lead|] == Li;
  }

  lemma {:induction false} OneKept(c: Symbol, rest: Text, from: Text)
    requires from != [] && !(from <= [c] + rest)
    ensures Replace([c] + rest, from, ITEM) == [c] + Replace(rest, from, ITEM)
  {
    assert ([c] + rest)[1..] == rest;
  }

  lemma {:induction false} HeadStays(lead: Text, rest: Text, from: Text)
    requires Marker(from) && Ch('-') !in lead && Ch('*') !in lead
    ensures Replace(lead + ([Li] + rest), from, ITEM) == lead + ([Li] + Replace(rest, from, ITEM))
  {
    NotPrefix(lead, rest, from);
    if lead == [] {
      NothingBefore([Li] + rest, [Li] + Replace(rest, from, ITEM));
      OneKept(Li, rest, from);
    } else {
      HeadStays(lead[1..], rest, from);
      OneBefore(lead, [Li] + rest);
      OneBefore(lead, [Li] + Replace(rest, from, ITEM));
      OneKept(lead[0], lead[1..] + ([Li] + rest), from);
    }
  }

  lemma {:induction false} NothingBefore(a: Text, b: Text)
    ensures [] + a == a && [] + b == b
  {
  }

  lemma {:induction false} OneBefore(lead: Text, rest: Text)
    requires lead != []
    ensures lead + rest == [lead[0]] + (lead[1..] + rest)
  {
  }

  /** A list starts with its first item, behind the blanks it started with. */
  lemma {:induction false} ListedStarts(text: Text)
    requires IsList(text)
    ensures text[..LeadingBlanks(text)] + [Li] <= Listed(text)
  {
    var lead, rest := text[..LeadingBlanks(text)], LStripped(text)[2..];
    assert Ch('-') !in lead && Ch('*') !in lead;
    assert lead + [Li] + rest == lead + ([Li] + rest);
    var a := Replace(rest, [Newline, Ch('-'), Space], ITEM);
    var b := Replace(a, [Newline, Space, Ch('-'), Space], ITEM);
    var c := Replace(b, [Newline, Ch('*'), Space], ITEM);
    HeadStays(lead, rest, [Newline, Ch('-'), Space]);
    HeadStays(lead, a, [Newline, Space, Ch('-'), Space]);
    HeadStays(lead, b, [Newline, Ch('*'), Space]);
    HeadStays(lead, c, [Newline, Space, Ch('*'), Space]);
  }

  /** A list starts, behind blanks, with a dash or an asterisk and a space. */
  lemma {:induction false} ListExactly(text: Text)
    ensures IsList(text) <==>
            exists n :: 0 <= n < |text| - 1 && (forall i :: 0 <= i < n ==> BlankSymbol(text[i]))
                        && (text[n] == Ch('-') || text[n] == Ch('*')) && text[n + 1] == Space
  {
    var m := LeadingBlanks(text);
    var body := LStripped(text);
    if IsList(text) {
      assert text[m] == body[0] && text[m + 1] == body[1];
    }
    if n :| 0 <= n < |text| - 1 && (forall i :: 0 <= i < n ==> BlankSymbol(text[i]))
            && (text[n] == Ch('-') || text[n] == Ch('*')) && text[n + 1] == Space {
      assert !BlankSymbol(text[n]);
      assert m == n;
    }
  }

  // ---------- breaks and blanks ----------

  /** Every line break becomes a break, and nothing else changes. */
  lemma {:induction false} BrokenExactly(text: Text)
    ensures |Broken(text)| == |text|
    ensures forall i :: 0 <= i < |text| ==> Broken(text)[i] == if text[i] == Newline then Br else text[i]
  {
    if text != [] {
      BrokenExactly(text[1..]);
    }
  }

  /** What is stripped is white space at the ends: spaces, line breaks and other white space, no tag; and all of it. */
  lemma {:induction false} StrippedExactly(text: Text) returns (i: nat, j: nat)
    ensures i <= j <= |text| && Stripped(text) == text[i..j]
    ensures forall k :: 0 <= k < i || j <= k < |text| ==>
              text[k] == Space || text[k] == Newline || (text[k].Ch? && IsSpace(text[k].c))
    ensures i < j ==> text[i] != Space && text[i] != Newline && !(text[i].Ch? && IsSpace(text[i].c))
    ensures i < j ==> text[j - 1] != Space && text[j - 1] != Newline && !(text[j - 1].Ch? && IsSpace(text[j - 1].c))
  {
    j := |text| - TrailingBlanks(text);
    i := LeadingBlanks(text[..j]);
    assert Stripped(text) == text[..j][i..] == text[i..j];
    assert forall k :: 0 <= k < j ==> text[..j][k] == text[k];
  }

  // ---------- counting ----------

  predicate IsTag(s: Symbol) { s == Open || s == Close || s == Br || s == Li || s.Markup? }

  /** The text without its tags. */
  function NoTags(text: Text): Text {
    if text == [] then [] else (if IsTag(text[0]) then [] else [text[0]]) + NoTags(text[1..])
  }

  /** What is counted is the length of the text without its tags. */
  lemma {:induction false} VisibleExactly(text: Text)
    ensures Visible(text) == |NoTags(text)|
  {
    if text != [] {
      VisibleExactly(text[1..]);
    }
  }

  lemma {:induction false} NoTagsCons(s: Symbol, rest: Text)
    ensures NoTags([s] + rest) == (if IsTag(s) then [] else [s]) + NoTags(rest)
  {
    assert ([s] + rest)[1..] == rest;
  }

  lemma {:induction false} NoTagsConcat(a: Text, b: Text)
    ensures NoTags(a + b) == NoTags(a) + NoTags(b)
  {
    if a == [] {
      assert a + b == b;
    } else {
      NoTagsConcat(a[1..], b);
      NoTagsCons(a[0], a[1..] + b);
      assert a + b == [a[0]] + (a[1..] + b);
      AssocText(if IsTag(a[0]) then [] else [a[0]], NoTags(a[1..]), NoTags(b));
    }
  }

  /** What is written for the pieces: a word with a blank after it, or a break, which in code stands between tags. */
  lemma {:induction false} PiecesExactly(pieces: seq<Piece>, p: Piece)
    ensures TextOfAll(pieces + [p]) ==
            TextOfAll(pieces) + (if p.Word? then p.word + [Space] else if p.inCode then [Close, Br, Open] else [Br])
  {
    assert (pieces + [p])[..|pieces|] == pieces;
  }

  // ---------- runs ----------

  /** A break that was put in, or a list item or break that is a word by itself. */
  predicate IsBreak(p: Piece) { p.Inserted? || p.word == [Li] || p.word == [Br] }

  /** The words that are counted: all but tags that stand by themselves. */
  function Counted(pieces: seq<Piece>): seq<Text> {
    if pieces == [] then []
    else
      var p := pieces[|pieces| - 1];
      Counted(pieces[..|pieces| - 1])
      + (if p.Inserted? || p.word in [[Open], [Close], [Li], [Br]] then [] else [p.word])
  }

  /** Pieces from place j on, with a break just before them and none among them. */
  ghost predicate SinceBreak(pieces: seq<Piece>, j: int) {
    && 0 <= j <= |pieces| && (j > 0 ==> IsBreak(pieces[j - 1]))
    && forall k :: j <= k < |pieces| ==> !IsBreak(pieces[k])
  }

  lemma {:induction false} CountedSnoc(pieces: seq<Piece>, p: Piece)
    ensures Counted(pieces + [p]) ==
            Counted(pieces) + (if p.Inserted? || p.word in [[Open], [Close], [Li], [Br]] then [] else [p.word])
  {
    assert (pieces + [p])[..|pieces|] == pieces;
  }

  lemma {:induction false} SinceSnoc(pieces: seq<Piece>, p: Piece, j: nat)
    requires SinceBreak(pieces, j) && !IsBreak(p)
    ensures SinceBreak(pieces + [p], j) && (pieces + [p])[j..] == pieces[j..] + [p]
  {
  }

  /** A run is the counted words since the last break. */
  lemma {:induction false} RunExactly(pieces: seq<Piece>) returns (j: nat)
    ensures SinceBreak(pieces, j) && Run(pieces) == Counted(pieces[j..])
  {
    if pieces == [] {
      j := 0;
    } else {
      var init, p := pieces[..|pieces| - 1], pieces[|pieces| - 1];
      assert pieces == init + [p];
      Snoc(init, p);
      if IsBreak(p) {
        j := |pieces|;
        assert pieces[j..] == [];
      } else {
        j := RunExactly(init);
        SinceSnoc(init, p, j);
        CountedSnoc(init[j..], p);
        assert Run(init) + [] == Run(init);
      }
    }
  }

  /** The words with a blank after each. */
  function Spread(words: seq<Text>): Text {
    if words == [] then [] else Spread(words[..|words| - 1]) + (words[|words| - 1] + [Space])
  }

  /** The length of a run is what can be seen of its words and the blanks after them. */
  lemma {:induction false} LengthExactly(words: seq<Text>)
    ensures Length(words) == |NoTags(Spread(words))|
  {
    if words != [] {
      var init, last := words[..|words| - 1], words[|words| - 1];
      LengthExactly(init);
      VisibleExactly(last);
      NoTagsConcat(Spread(init), last + [Space]);
      NoTagsConcat(last, [Space]);
      assert [Space][1..] == [];
    }
  }

  // ---------- nothing is lost ----------

  /** A character other than white space and the markers of lists. */
  predicate Letter(s: Symbol) { s.Ch? && !IsSpace(s.c) && s.c != '-' && s.c != '*' }

  function Letters(text: Text): Text {
    if text == [] then [] else (if Letter(text[0]) then [text[0]] else []) + Letters(text[1..])
  }

  lemma {:induction false} LettersCons(s: Symbol, rest: Text)
    ensures Letters([s] + rest) == (if Letter(s) then [s] else []) + Letters(rest)
  {
    assert ([s] + rest)[1..] == rest;
  }

  lemma {:induction false} LettersConcat(a: Text, b: Text)
    ensures Letters(a + b) == Letters(a) + Letters(b)
  {
    if a == [] {
      assert a + b == b;
    } else {
      var own := if Letter(a[0]) then [a[0]] else [];
      LettersConcat(a[1..], b);
      LettersCons(a[0], a[1..] + b);
      assert a + b == [a[0]] + (a[1..] + b);
      AssocText(own, Letters(a[1..]), Letters(b));
    }
  }

  lemma {:induction false} NoLetters(text: Text)
    requires forall s :: s in text ==> !Letter(s)
    ensures Letters(text) == []
  {
    if text != [] {
      assert text[0] in text;
      NoLetters(text[1..]);
    }
  }

  lemma {:induction false} LettersOfTagged(text: Text, inside: bool)
    ensures Letters(Tagged(text, inside)) == Letters(text)
  {
    if text == [] {
      NoLetters(Tagged(text, inside));
    } else {
      var now := if text[0] == Tick then !inside else inside;
      var s := if text[0] == Tick then (if inside then Close else Open) else text[0];
      LettersOfTagged(text[1..], now);
      LettersCons(s, Tagged(text[1..], now));
      assert Tagged(text, inside) == [s] + Tagged(text[1..], now);
    }
  }

  lemma {:induction false} LettersOfInner(text: Text)
    ensures Letters(Inner(text)) == Letters(text)
  {
    if text != [] {
      LettersOfInner(text[1..]);
      if !ListMark(text[0]) {
        LettersCons(text[0], Inner(text[1..]));
      } else {
        assert [] + Inner(text[1..]) == Inner(text[1..]) && [] + Letters(text[1..]) == Letters(text[1..]);
      }
    }
  }

  lemma {:induction false} LettersOfListed(text: Text)
    requires IsList(text)
    ensures Letters(Listed(text)) == Letters(text)
  {
    ListedKeepsInner(text);
    LettersOfInner(text);
    LettersOfInner(Listed(text));
  }

  lemma {:induction false} LettersOfBroken(text: Text)
    ensures Letters(Broken(text)) == Letters(text)
  {
    if text != [] {
      LettersOfBroken(text[1..]);
      LettersCons(if text[0] == Newline then Br else text[0], Broken(text[1..]));
    }
  }

  lemma {:induction false} LettersOfPrepared(text: Text)
    ensures Letters(Prepared(text)) == Letters(text)
  {
    var tagged := Tagged(text, false);
    LettersOfTagged(text, false);
    if IsList(text) {
      ListStays(text);
      LettersOfListed(tagged);
      LettersOfBroken(Listed(tagged));
    } else {
      LettersOfBroken(tagged);
    }
  }

  lemma {:induction false} LettersOfWord(word: Text, blank: Text, rest: Text)
    requires blank == [] || blank == [Space]
    ensures Letters(word + (blank + rest)) == Letters(word) + Letters(rest)
  {
    LettersConcat(word, blank + rest);
    LettersConcat(blank, rest);
    NoLetters(blank);
  }

  /** The words one after the other, each with its letters. */
  function LettersOfWords(words: seq<Text>): Text {
    if words == [] then [] else LettersOfWords(words[..|words| - 1]) + Letters(words[|words| - 1])
  }

  lemma {:induction false} LettersFromFront(word: Text, rest: seq<Text>)
    ensures LettersOfWords([word] + rest) == Letters(word) + LettersOfWords(rest)
  {
    var all := [word] + rest;
    if rest == [] {
      assert all[..0] == [] && [] + Letters(word) == Letters(word) + [];
    } else {
      var init := rest[..|rest| - 1];
      LettersFromFront(word, init);
      assert all[..|all| - 1] == [word] + init;
      var last := Letters(rest[|rest| - 1]);
      assert Letters(word) + (LettersOfWords(init) + last) == (Letters(word) + LettersOfWords(init)) + last;
    }
  }

  lemma {:induction false} LettersOfRejoined(words: seq<Text>)
    ensures Letters(Rejoined(words)) == LettersOfWords(words)
  {
    if words != [] {
      var w, rest := words[0], words[1..];
      assert words == [w] + rest;
      LettersFromFront(w, rest);
      LettersOfRejoined(rest);
      RejoinedCons(w, rest);
      LettersOfWord(w, if EndsInBreak(w) then [] else [Space], Rejoined(rest));
      if rest == [] {
        assert Letters(w) + [] == Letters(w);
      }
    }
  }

  lemma {:induction false} LettersOfPiece(p: Piece)
    ensures Letters(TextOf(p)) == if p.Word? then Letters(p.word) else []
  {
    if p.Word? {
      LettersConcat(p.word, [Space]);
      NoLetters([Space]);
    } else {
      NoLetters(TextOf(p));
    }
  }

  lemma {:induction false} LettersOfPieces(pieces: seq<Piece>)
    ensures Letters(TextOfAll(pieces)) == LettersOfWords(WordsOf(pieces))
  {
    if pieces != [] {
      var init, p := pieces[..|pieces| - 1], pieces[|pieces| - 1];
      LettersOfPieces(init);
      LettersConcat(TextOfAll(init), TextOf(p));
      LettersOfPiece(p);
      if p.Word? {
        assert (WordsOf(init) + [p.word])[..|WordsOf(init)|] == WordsOf(init);
      } else {
        assert WordsOf(init) + [] == WordsOf(init);
      }
    }
  }

  lemma {:induction false} LettersInside(front: Text, middle: Text, back: Text)
    requires (forall s :: s in front ==> !Letter(s)) && forall s :: s in back ==> !Letter(s)
    ensures Letters(front + (middle + back)) == Letters(middle)
  {
    LettersConcat(front, middle + back);
    LettersConcat(middle, back);
    NoLetters(front);
    NoLetters(back);
  }

  lemma {:induction false} LettersOfStripped(text: Text)
    ensures Letters(Stripped(text)) == Letters(text)
  {
    var i, j := StrippedExactly(text);
    LettersInside(text[..i], text[i..j], text[j..]);
    assert text == text[..i] + (text[i..j] + text[j..]);
  }

  /** Wrapping loses and reorders no letter. */
  lemma {:induction false} WrapKeepsLetters(text: Text, x: int, pieces: seq<Piece>, r: Text)
    requires IsWrapped(text, x, pieces, r)
    ensures Letters(r) == Letters(text)
  {
    var body := Stripped(TextOfAll(pieces));
    LettersOfPrepared(text);
    LettersOfRejoined(WordsOf(pieces));
    LettersOfPieces(pieces);
    LettersOfStripped(TextOfAll(pieces));
    if IsList(text) {
      LettersConcat([Markup("<ul>")] + body, [Markup("</ul>")]);
      LettersConcat([Markup("<ul>")], body);
      NoLetters([Markup("<ul>")]);
      NoLetters([Markup("</ul>")]);
    }
  }

  // ---------- what is rewritten ----------

  lemma {:induction false} TaggedSymbols(text: Text, inside: bool)
    ensures Tick !in Tagged(text, inside)
  {
    if text != [] {
      TaggedSymbols(text[1..], if text[0] == Tick then !inside else inside);
    }
  }

  lemma {:induction false} ReplacedSymbols(text: Text, from: Text, s: Symbol)
    requires from != [] && s !in text && s !in ITEM
    ensures s !in Replace(text, from, ITEM)
    decreases |text|
  {
    if text != [] {
      if from <= text {
        ReplacedSymbols(text[|from|..], from, s);
      } else {
        ReplacedSymbols(text[1..], from, s);
      }
    }
  }

  lemma {:induction false} ListedSymbols(text: Text)
    requires Tick !in text
    ensures Tick !in Listed(text)
  {
    var body := LStripped(text);
    var first := text[..LeadingBlanks(text)] + [Li] + (if |body| >= 2 then body[2..] else []);
    var a := Replace(first, [Newline, Ch('-'), Space], ITEM);
    var b := Replace(a, [Newline, Space, Ch('-'), Space], ITEM);
    var c := Replace(b, [Newline, Ch('*'), Space], ITEM);
    ReplacedSymbols(first, [Newline, Ch('-'), Space], Tick);
    ReplacedSymbols(a, [Newline, Space, Ch('-'), Space], Tick);
    ReplacedSymbols(b, [Newline, Ch('*'), Space], Tick);
    ReplacedSymbols(c, [Newline, Space, Ch('*'), Space], Tick);
  }

  lemma {:induction false} BrokenSymbols(text: Text)
    ensures Newline !in Broken(text)
    ensures Tick !in text ==> Tick !in Broken(text)
    ensures Li in text ==> Li in Broken(text)
  {
    if text != [] {
      BrokenSymbols(text[1..]);
    }
  }

  lemma {:induction false} PreparedSymbols(text: Text)
    ensures Newline !in Prepared(text) && Tick !in Prepared(text) && (IsList(text) ==> Li in Prepared(text))
  {
    var tagged := Tagged(text, false);
    TaggedSymbols(text, false);
    if IsList(text) {
      ListStays(text);
      ListedSymbols(tagged);
      ListedStarts(tagged);
      var lead := tagged[..LeadingBlanks(tagged)];
      assert (lead + [Li])[|lead|] == Li && Listed(tagged)[|lead|] == (lead + [Li])[|lead|];
      BrokenSymbols(Listed(tagged));
    } else {
      BrokenSymbols(tagged);
    }
  }

  /** Words hold the symbols of the text but its spaces. */
  lemma {:induction false} WordSymbols(words: seq<Text>, s: Symbol)
    requires s != Space
    ensures s in Rejoined(words) <==> exists k :: 0 <= k < |words| && s in words[k]
  {
    if words != [] {
      var w, rest := words[0], words[1..];
      assert words == [w] + rest;
      RejoinedCons(w, rest);
      WordSymbols(rest, s);
      if k :| 0 <= k < |words| && s in words[k] {
        assert k > 0 ==> rest[k - 1] == words[k];
      }
      if k :| 0 <= k < |rest| && s in rest[k] {
        assert words[k + 1] == rest[k];
      }
    }
  }

  /** What is written holds the symbols of the words, blanks, and what breaks are made of. */
  lemma {:induction false} PieceSymbols(pieces: seq<Piece>, s: Symbol)
    requires s != Space && s != Br && s != Open && s != Close
    ensures s in TextOfAll(pieces) <==> exists k :: 0 <= k < |WordsOf(pieces)| && s in WordsOf(pieces)[k]
  {
    if pieces != [] {
      var init, p := pieces[..|pieces| - 1], pieces[|pieces| - 1];
      PieceSymbols(init, s);
      var some, all := WordsOf(init), WordsOf(pieces);
      assert p.Inserted? ==> all == some;
      assert p.Word? ==> all == some + [p.word] && all[|some|] == p.word;
      if k :| 0 <= k < |some| && s in some[k] {
        assert all[k] == some[k];
      }
      if k :| 0 <= k < |all| && s in all[k] {
        assert k < |some| ==> some[k] == all[k];
      }
    }
  }

  lemma {:induction false} StrippedSymbols(text: Text, s: Symbol)
    ensures s in Stripped(text) ==> s in text
    ensures s == Li && s in text ==> s in Stripped(text)
  {
    var i, j := StrippedExactly(text);
    if s in text[i..j] {
      var k :| 0 <= k < j - i && text[i..j][k] == s;
      assert text[i + k] == s;
    }
    if s == Li && s in text {
      var k :| 0 <= k < |text| && text[k] == s;
      assert text[i..j][k - i] == s;
    }
  }

  /** In what comes of wrapping a longer text no line break and no backtick is left, and a list has items. */
  lemma {:induction false} WrapRewrites(text: Text, x: int, pieces: seq<Piece>, r: Text)
    requires IsWrapped(text, x, pieces, r)
    ensures Newline !in r && Tick !in r && (IsList(text) ==> Li in r)
  {
    var written, words := TextOfAll(pieces), WordsOf(pieces);
    PreparedSymbols(text);
    WordSymbols(words, Newline);
    WordSymbols(words, Tick);
    WordSymbols(words, Li);
    PieceSymbols(pieces, Newline);
    PieceSymbols(pieces, Tick);
    PieceSymbols(pieces, Li);
    StrippedSymbols(written, Newline);
    StrippedSymbols(written, Tick);
    StrippedSymbols(written, Li);
  }
}
