/** Wrapping long text without breaking its code tags (`replace_code_tags` and `insert_br_after_x_chars`). A text is a
    sequence of symbols in which a tag is one symbol; `Markup` is any other tag that has no blank inside. */
module WrapText {
  import opened PyText

  datatype Symbol = Open | Close | Br | Li | Tick | Newline | Space | Ch(c: char) | Markup(tag: string)

  type Text = seq<Symbol>

  // ---------- nesting ----------

  /** The depth of code tags after a text, starting at depth d; None if a tag is closed that is not open. */
  function Depth(d: nat, text: Text): Option<nat>
    decreases |text|
  {
    if text == [] then Some(d)
    else if text[0] == Open then Depth(d + 1, text[1..])
    else if text[0] == Close then (if d == 0 then None else Depth(d - 1, text[1..]))
    else Depth(d, text[1..])
  }

  lemma {:induction false} DepthConcat(d: nat, a: Text, b: Text)
    ensures Depth(d, a + b) == if Depth(d, a).None? then None else Depth(Depth(d, a).value, b)
    decreases |a|
  {
    if a == [] {
      assert a + b == b;
    } else {
      assert (a + b)[0] == a[0] && (a + b)[1..] == a[1..] + b;
      if a[0] == Open {
        DepthConcat(d + 1, a[1..], b);
      } else if a[0] == Close {
        if d > 0 {
          DepthConcat(d - 1, a[1..], b);
        }
      } else {
        DepthConcat(d, a[1..], b);
      }
    }
  }

  /** Without opening and closing tags the depth stays; with opening tags only it grows. */
  lemma {:induction false} DepthWithout(d: nat, text: Text)
    requires Close !in text
    ensures Depth(d, text).Some? && Depth(d, text).value >= d
    ensures Open in text ==> Depth(d, text).value >= d + 1
    ensures Open !in text ==> Depth(d, text) == Some(d)
    decreases |text|
  {
    if text != [] {
      DepthWithout(if text[0] == Open then d + 1 else d, text[1..]);
    }
  }

  predicate Untagged(text: Text) { Open !in text && Close !in text }

  // ---------- code tags ----------

  /** `text.split(sep)` */
  function Parts(sep: Symbol, text: Text): (r: seq<Text>)
    ensures |r| > 0
  {
    if text == [] then [[]]
    else
      var rest := Parts(sep, text[1..]);
      if text[0] == sep then [[]] + rest else [[text[0]] + rest[0]] + rest[1..]
  }

  function Join(parts: seq<Text>): Text {
    if parts == [] then [] else parts[0] + Join(parts[1..])
  }

  /** Backticks read as opening and closing tags in turn; a tag left open is closed at the end. */
  function Tagged(text: Text, inside: bool): Text {
    if text == [] then (if inside then [Close] else [])
    else if text[0] == Tick then [if inside then Close else Open] + Tagged(text[1..], !inside)
    else [text[0]] + Tagged(text[1..], inside)
  }

  function InTags(part: Text): Text { [Open] + part + [Close] }

  /** Every other part in code tags. */
  function Wrapped(parts: seq<Text>, inside: bool): seq<Text> {
    if parts == [] then [] else [if inside then InTags(parts[0]) else parts[0]] + Wrapped(parts[1..], !inside)
  }

  lemma {:induction false} WrappedAt(parts: seq<Text>, inside: bool)
    ensures |Wrapped(parts, inside)| == |parts|
    ensures forall i :: 0 <= i < |parts| ==>
              Wrapped(parts, inside)[i] == if (i % 2 == 1) != inside then InTags(parts[i]) else parts[i]
  {
    if parts != [] {
      var rest := Wrapped(parts[1..], !inside);
      WrappedAt(parts[1..], !inside);
      forall i | 0 <= i < |parts|
        ensures Wrapped(parts, inside)[i] == if (i % 2 == 1) != inside then InTags(parts[i]) else parts[i]
      {
        if i > 0 {
          Parity(i);
          assert Wrapped(parts, inside)[i] == rest[i - 1] && parts[1..][i - 1] == parts[i];
        }
      }
    }
  }

  lemma {:induction false} Parity(i: int)
    requires i > 0
    ensures (i % 2 == 1) != ((i - 1) % 2 == 1)
  {
  }

  /** What is left of the wrapped parts when the opening tag of the first is already written. */
  function Body(first: Text, later: seq<Text>, inside: bool): Text {
    first + ((if inside then [Close] else []) + Join(Wrapped(later, !inside)))
  }

  lemma {:induction false} BodyOther(c: Symbol, first: Text, later: seq<Text>, inside: bool)
    ensures Body([c] + first, later, inside) == [c] + Body(first, later, inside)
  {
  }

  lemma {:induction false} FirstPart(sep: Symbol, text: Text)
    requires text != []
    ensures var parts, rest := Parts(sep, text), Parts(sep, text[1..]);
            && parts[0] == (if text[0] == sep then [] else [text[0]] + rest[0])
            && parts[1..] == (if text[0] == sep then rest else rest[1..])
  {
  }

  lemma {:induction false} BodyTurns(rest: seq<Text>, inside: bool)
    requires rest != []
    ensures Body([], rest, inside) == [if inside then Close else Open] + Body(rest[0], rest[1..], !inside)
  {
  }

  /** The wrapped parts, taken in turn, read as the tagged text. */
  lemma {:induction false} BodyIsTagged(text: Text, inside: bool)
    ensures Body(Parts(Tick, text)[0], Parts(Tick, text)[1..], inside) == Tagged(text, inside)
  {
    if text != [] {
      var rest := Parts(Tick, text[1..]);
      FirstPart(Tick, text);
      if text[0] == Tick {
        BodyIsTagged(text[1..], !inside);
        BodyTurns(rest, inside);
      } else {
        BodyIsTagged(text[1..], inside);
        BodyOther(text[0], rest[0], rest[1..], inside);
      }
    }
  }

  /** The parts with every second one before the i-th rewritten. */
  function WrappedTo(parts: seq<Text>, i: nat): seq<Text> {
    seq(|parts|, k requires 0 <= k < |parts| => if k < i && k % 2 == 1 then InTags(parts[k]) else parts[k])
  }

  lemma {:induction false} WrappedToStep(parts: seq<Text>, i: nat)
    requires i < |parts| && i % 2 == 1
    ensures WrappedTo(parts, i)[i] == parts[i]
    ensures WrappedTo(parts, i)[i := InTags(parts[i])] == WrappedTo(parts, i + 2)
  {
  }

  lemma {:induction false} WrappedToEnd(parts: seq<Text>, i: nat)
    requires |parts| <= i
    ensures WrappedTo(parts, i) == Wrapped(parts, false) && WrappedTo(parts, 1) == parts
  {
    WrappedAt(parts, false);
  }

  lemma {:induction false} PartsAreTagged(text: Text)
    ensures Join(Wrapped(Parts(Tick, text), false)) == Tagged(text, false)
  {
    var parts := Parts(Tick, text);
    BodyIsTagged(text, false);
    assert [parts[0]] + parts[1..] == parts;
  }

  /** Every second part is rewritten in place. */
  method ReplaceCodeTags(text: Text) returns (r: Text)
    ensures r == Tagged(text, false)
  {
    var parts := Parts(Tick, text);
    ghost var before := parts;
    var i := 1;
    WrappedToEnd(before, |before|);
    while i < |parts|
      invariant i % 2 == 1 && |parts| == |before| && parts == WrappedTo(before, i)
    {
      WrappedToStep(before, i);
      parts := parts[i := InTags(parts[i])];
      i := i + 2;
    }
    WrappedToEnd(before, i);
    PartsAreTagged(text);
    r := Join(parts);
  }

  lemma {:induction false} TaggedCloses(text: Text, inside: bool)
    requires Untagged(text)
    ensures Depth(if inside then 1 else 0, Tagged(text, inside)) == Some(0)
  {
    if text == [] {
      assert [Close][1..] == [];
    } else {
      assert Untagged(text[1..]);
      var tagged := Tagged(text, inside);
      if text[0] == Tick {
        TaggedCloses(text[1..], !inside);
        assert tagged[1..] == Tagged(text[1..], !inside);
      } else {
        TaggedCloses(text[1..], inside);
        assert tagged[1..] == Tagged(text[1..], inside);
        assert text[0] in text;
      }
    }
  }

  lemma {:induction false} DepthFirst(d: nat, text: Text)
    requires text != []
    ensures Depth(d, text) ==
            if text[0] == Open then Depth(d + 1, text[1..])
            else if text[0] == Close then (if d == 0 then None else Depth(d - 1, text[1..]))
            else Depth(d, text[1..])
  {
  }

  /** At no point are code tags open inside one another. */
  lemma {:induction false} TaggedIsFlat(text: Text, inside: bool, n: nat)
    requires Untagged(text) && n <= |Tagged(text, inside)|
    ensures var d := Depth(if inside then 1 else 0, Tagged(text, inside)[..n]); d.Some? && d.value <= 1
  {
    var tagged := Tagged(text, inside);
    if n > 0 {
      DepthFirst(if inside then 1 else 0, tagged[..n]);
      assert tagged[..n][1..] == tagged[1..][..n - 1];
      if text == [] {
        assert tagged == [Close] && tagged[1..] == [];
      } else {
        var now := if text[0] == Tick then !inside else inside;
        assert Untagged(text[1..]) && text[0] in text;
        assert tagged[1..] == Tagged(text[1..], now);
        TaggedIsFlat(text[1..], now, n - 1);
      }
    }
  }

  /** Whatever its backticks, a text without tags is tagged with every tag closed, and none inside another. */
  lemma {:induction false} TaggedIsNested(text: Text)
    requires Untagged(text)
    ensures Depth(0, Tagged(text, false)) == Some(0)
    ensures forall n :: 0 <= n <= |Tagged(text, false)| ==>
              Depth(0, Tagged(text, false)[..n]).Some? && Depth(0, Tagged(text, false)[..n]).value <= 1
  {
    TaggedCloses(text, false);
    forall n | 0 <= n <= |Tagged(text, false)|
      ensures Depth(0, Tagged(text, false)[..n]).Some? && Depth(0, Tagged(text, false)[..n]).value <= 1
    {
      TaggedIsFlat(text, false, n);
    }
  }

  // ---------- lists ----------

  predicate BlankSymbol(s: Symbol) { s == Space || s == Newline || (s.Ch? && IsSpace(s.c)) }

  function LeadingBlanks(text: Text): (n: nat)
    ensures n <= |text| && (n < |text| ==> !BlankSymbol(text[n]))
    ensures forall i :: 0 <= i < n ==> BlankSymbol(text[i])
  {
    if text == [] || !BlankSymbol(text[0]) then 0 else 1 + LeadingBlanks(text[1..])
  }

  function TrailingBlanks(text: Text): (n: nat)
    ensures n <= |text| && (n < |text| ==> !BlankSymbol(text[|text| - n - 1]))
    ensures forall i :: |text| - n <= i < |text| ==> BlankSymbol(text[i])
  {
    if text == [] || !BlankSymbol(text[|text| - 1]) then 0 else 1 + TrailingBlanks(text[..|text| - 1])
  }

  function LStripped(text: Text): Text { text[LeadingBlanks(text)..] }

  function RStripped(text: Text): Text { text[..|text| - TrailingBlanks(text)] }

  predicate IsList(text: Text) {
    var body := LStripped(text);
    |body| >= 2 && body[1] == Space && (body[0] == Ch('-') || body[0] == Ch('*'))
  }

  /** `text.replace(from, to)` */
  function Replace(text: Text, from: Text, to: Text): Text
    requires from != []
    decreases |text|
  {
    if text == [] then []
    else if from <= text then to + Replace(text[|from|..], from, to)
    else [text[0]] + Replace(text[1..], from, to)
  }

  const ITEM: Text := [Br, Li, Space]

  /** The first marker becomes a list item, and so does every one that starts a line. */
  function Listed(text: Text): Text {
    var body := LStripped(text);
    var first := text[..LeadingBlanks(text)] + [Li] + (if |body| >= 2 then body[2..] else []);
    var dashes := Replace(Replace(first, [Newline, Ch('-'), Space], ITEM), [Newline, Space, Ch('-'), Space], ITEM);
    Replace(Replace(dashes, [Newline, Ch('*'), Space], ITEM), [Newline, Space, Ch('*'), Space], ITEM)
  }

  lemma {:induction false} DepthOfPlain(d: nat, plain: Text, rest: Text)
    requires Untagged(plain)
    ensures Depth(d, plain + rest) == Depth(d, rest)
  {
    DepthWithout(d, plain);
    DepthConcat(d, plain, rest);
  }

  /** Replacing text without tags by text without tags keeps the depth. */
  lemma {:induction false} ReplaceKeepsDepth(d: nat, text: Text, from: Text, to: Text)
    requires from != [] && Untagged(from) && Untagged(to)
    ensures Depth(d, Replace(text, from, to)) == Depth(d, text)
    decreases |text|
  {
    if text != [] {
      if from <= text {
        assert text == from + text[|from|..];
        DepthOfPlain(d, from, text[|from|..]);
        DepthOfPlain(d, to, Replace(text[|from|..], from, to));
        ReplaceKeepsDepth(d, text[|from|..], from, to);
      } else {
        var d' := if text[0] == Open then d + 1 else if text[0] == Close && d > 0 then d - 1 else d;
        ReplaceKeepsDepth(d', text[1..], from, to);
        assert Replace(text, from, to)[1..] == Replace(text[1..], from, to);
      }
    }
  }

  /** Making list items of a list keeps the depth. */
  lemma {:induction false} FirstItemKeepsDepth(d: nat, text: Text)
    requires IsList(text)
    ensures var body := LStripped(text);
            Depth(d, text[..LeadingBlanks(text)] + [Li] + body[2..]) == Depth(d, text)
  {
    var body := LStripped(text);
    var lead := text[..LeadingBlanks(text)];
    assert text == lead + (body[..2] + body[2..]);
    assert lead + [Li] + body[2..] == lead + ([Li] + body[2..]);
    DepthOfPlain(d, lead, body[..2] + body[2..]);
    DepthOfPlain(d, body[..2], body[2..]);
    DepthOfPlain(d, lead, [Li] + body[2..]);
    DepthOfPlain(d, [Li], body[2..]);
  }

  lemma {:induction false} ListedKeepsDepth(d: nat, text: Text)
    requires IsList(text)
    ensures Depth(d, Listed(text)) == Depth(d, text)
  {
    var body := LStripped(text);
    var first := text[..LeadingBlanks(text)] + [Li] + body[2..];
    FirstItemKeepsDepth(d, text);
    var a := Replace(first, [Newline, Ch('-'), Space], ITEM);
    var b := Replace(a, [Newline, Space, Ch('-'), Space], ITEM);
    var c := Replace(b, [Newline, Ch('*'), Space], ITEM);
    ReplaceKeepsDepth(d, first, [Newline, Ch('-'), Space], ITEM);
    ReplaceKeepsDepth(d, a, [Newline, Space, Ch('-'), Space], ITEM);
    ReplaceKeepsDepth(d, b, [Newline, Ch('*'), Space], ITEM);
    ReplaceKeepsDepth(d, c, [Newline, Space, Ch('*'), Space], ITEM);
  }

  /** Tagging leaves the marker that makes a text a list. */
  lemma {:induction false} ListStays(text: Text)
    requires IsList(text)
    ensures IsList(Tagged(text, false))
  {
    var tagged := Tagged(text, false);
    assert text[0] != Tick;
    assert tagged[0] == text[0] && tagged[1..] == Tagged(text[1..], false);
    if BlankSymbol(text[0]) {
      ListStays(text[1..]);
    } else {
      assert tagged[1] == Tagged(text[1..], false)[0] == text[1];
    }
  }

  function Stripped(text: Text): Text { LStripped(RStripped(text)) }

  lemma {:induction false} LStripKeepsDepth(d: nat, text: Text)
    ensures Depth(d, LStripped(text)) == Depth(d, text)
  {
    var n := LeadingBlanks(text);
    assert text == text[..n] + text[n..];
    DepthOfPlain(d, text[..n], text[n..]);
  }

  lemma {:induction false} DepthBeforePlain(d: nat, text: Text, plain: Text)
    requires Untagged(plain)
    ensures Depth(d, text + plain) == Depth(d, text)
  {
    DepthConcat(d, text, plain);
    if Depth(d, text).Some? {
      DepthWithout(Depth(d, text).value, plain);
    }
  }

  lemma {:induction false} RStripKeepsDepth(d: nat, text: Text)
    ensures Depth(d, RStripped(text)) == Depth(d, text)
  {
    var n := |text| - TrailingBlanks(text);
    assert text == text[..n] + text[n..];
    DepthBeforePlain(d, text[..n], text[n..]);
  }

  lemma {:induction false} StripKeepsDepth(d: nat, text: Text)
    ensures Depth(d, Stripped(text)) == Depth(d, text)
  {
    RStripKeepsDepth(d, text);
    LStripKeepsDepth(d, RStripped(text));
  }

  /** The whole of a list in list tags. */
  function Enclosed(isList: bool, text: Text): Text {
    if isList then [Markup("<ul>")] + text + [Markup("</ul>")] else text
  }

  lemma {:induction false} EnclosedKeepsDepth(isList: bool, text: Text)
    ensures Depth(0, Enclosed(isList, text)) == Depth(0, text)
  {
    if isList {
      DepthBeforePlain(0, [Markup("<ul>")] + text, [Markup("</ul>")]);
      DepthOfPlain(0, [Markup("<ul>")], text);
    }
  }

  // ---------- words ----------

  function Broken(text: Text): Text {
    if text == [] then [] else [if text[0] == Newline then Br else text[0]] + Broken(text[1..])
  }

  /** The words between spaces; a break ends the word it stands in. */
  function Words(text: Text): (r: seq<Text>)
    ensures |r| > 0
  {
    if text == [] then [[]]
    else
      var rest := Words(text[1..]);
      if text[0] == Space then [[]] + rest
      else if text[0] == Br then [[Br]] + rest
      else [[text[0]] + rest[0]] + rest[1..]
  }

  /** The last word is ended by a break. */
  function WithBreak(words: seq<Text>): (r: seq<Text>)
    requires words != []
    ensures |r| == |words|
  {
    words[|words| - 1 := words[|words| - 1] + [Br]]
  }

  /** The words of lines one after the other, with a break at the end of every line but the last. */
  function WordsOfLines(lines: seq<Text>): seq<Text> {
    if lines == [] then []
    else if |lines| == 1 then Parts(Space, lines[0])
    else WithBreak(Parts(Space, lines[0])) + WordsOfLines(lines[1..])
  }

  lemma {:induction false} BreakOther(c: Symbol, words: seq<Text>)
    requires words != []
    ensures var more := [[c] + words[0]] + words[1..];
            WithBreak(more) == [[c] + WithBreak(words)[0]] + WithBreak(words)[1..]
  {
    if |words| == 1 {
      assert ([c] + words[0]) + [Br] == [c] + (words[0] + [Br]);
    }
  }

  lemma {:induction false} FirstLine(line: Text, lines: seq<Text>)
    ensures WordsOfLines([line] + lines) ==
            if lines == [] then Parts(Space, line) else WithBreak(Parts(Space, line)) + WordsOfLines(lines)
  {
    assert ([line] + lines)[1..] == lines;
  }

  lemma {:induction false} OtherPart(c: Symbol, line: Text)
    requires c != Space
    ensures var p := Parts(Space, line); Parts(Space, [c] + line) == [[c] + p[0]] + p[1..]
  {
    assert ([c] + line)[1..] == line;
  }

  lemma {:induction false} OtherFirst(c: Symbol, words: seq<Text>, rest: seq<Text>)
    requires words != []
    ensures ([[c] + words[0]] + words[1..]) + rest == [[c] + (words + rest)[0]] + (words + rest)[1..]
  {
  }

  lemma {:induction false} LineOther(c: Symbol, line: Text, lines: seq<Text>)
    requires c != Space
    ensures var words := WordsOfLines([line] + lines);
            words != [] && WordsOfLines([[c] + line] + lines) == [[c] + words[0]] + words[1..]
  {
    var p := Parts(Space, line);
    FirstLine(line, lines);
    FirstLine([c] + line, lines);
    OtherPart(c, line);
    BreakOther(c, p);
    OtherFirst(c, WithBreak(p), WordsOfLines(lines));
  }

  lemma {:induction false} BreakLater(words: seq<Text>)
    requires words != []
    ensures WithBreak([[]] + words) == [[]] + WithBreak(words)
  {
  }

  lemma {:induction false} BlankPart(line: Text)
    ensures Parts(Space, [Space] + line) == [[]] + Parts(Space, line)
  {
    assert ([Space] + line)[1..] == line;
  }

  lemma {:induction false} EmptyFirst(p: seq<Text>, rest: seq<Text>)
    ensures ([[]] + p) + rest == [[]] + (p + rest)
  {
  }

  lemma {:induction false} LineBlank(line: Text, lines: seq<Text>)
    ensures WordsOfLines([[Space] + line] + lines) == [[]] + WordsOfLines([line] + lines)
  {
    FirstLine(line, lines);
    FirstLine([Space] + line, lines);
    BlankPart(line);
    BreakLater(Parts(Space, line));
    EmptyFirst(WithBreak(Parts(Space, line)), WordsOfLines(lines));
  }

  /** Splitting at the breaks and then at the blanks gives the words. */
  lemma {:induction false} LinesGiveWords(text: Text)
    ensures WordsOfLines(Parts(Br, text)) == Words(text)
  {
    if text != [] {
      var rest := Parts(Br, text[1..]);
      LinesGiveWords(text[1..]);
      assert rest == [rest[0]] + rest[1..];
      if text[0] == Br {
        assert ([[]] + rest)[1..] == rest;
        var none: Text := [];
        assert Parts(Space, none) == [none] && none + [Br] == [Br];
        assert WithBreak([none]) == [[Br]];
      } else if text[0] == Space {
        LineBlank(rest[0], rest[1..]);
      } else {
        LineOther(text[0], rest[0], rest[1..]);
      }
    }
  }

  lemma {:induction false} LineStep(done: seq<Text>, lines: seq<Text>, i: nat)
    requires i < |lines|
    ensures var p := Parts(Space, lines[i]);
            done + WordsOfLines(lines[i..]) ==
            (done + (if i == |lines| - 1 then p else WithBreak(p))) + WordsOfLines(lines[i + 1..])
  {
    FirstLine(lines[i], lines[i + 1..]);
    assert lines[i..] == [lines[i]] + lines[i + 1..];
  }

  lemma {:induction false} LastEnded(done: seq<Text>, words: seq<Text>)
    requires words != []
    ensures var all := done + words; all[|all| - 1 := all[|all| - 1] + [Br]] == done + WithBreak(words)
  {
  }

  /** The lines one by one, split into words. */
  method SplitWords(text: Text) returns (words: seq<Text>)
    ensures words == Words(text)
  {
    var lines := Parts(Br, text);
    ghost var all := WordsOfLines(lines);
    words := [];
    assert lines[0..] == lines && [] + all == all;
    for i := 0 to |lines|
      invariant words + WordsOfLines(lines[i..]) == all
    {
      LineStep(words, lines, i);
      LastEnded(words, Parts(Space, lines[i]));
      words := words + Parts(Space, lines[i]);
      if i < |lines| - 1 {
        words := words[|words| - 1 := words[|words| - 1] + [Br]];
      }
    }
    assert lines[|lines|..] == [] && words + [] == words;
    LinesGiveWords(text);
  }

  lemma {:induction false} WordsKeepDepth(d: nat, text: Text)
    ensures Depth(d, Join(Words(text))) == Depth(d, text)
    decreases |text|
  {
    var words := Words(text);
    if text == [] {
      assert Join(words) == [] + Join([]) == [];
    } else {
      var rest := Words(text[1..]);
      var d' := if text[0] == Open then d + 1 else if text[0] == Close && d > 0 then d - 1 else d;
      WordsKeepDepth(d', text[1..]);
      if text[0] == Space {
        assert words[1..] == rest && [] + Join(rest) == Join(rest);
      } else if text[0] == Br {
        assert words[1..] == rest && ([Br] + Join(rest))[1..] == Join(rest);
      } else {
        assert words[0] == [text[0]] + rest[0] && words[1..] == rest[1..];
        assert Join(words) == [text[0]] + Join(rest);
        assert Join(words)[1..] == Join(rest);
      }
    }
  }

  predicate EndsInBreak(word: Text) { word != [] && word[|word| - 1] == Br }

  /** A word holds no blank, and a break only at its end. */
  ghost predicate IsWord(word: Text) {
    Space !in word && forall i :: 0 <= i < |word| - 1 ==> word[i] != Br
  }

  /** The words one after the other, with a blank after each that is not the last and not ended by a break. */
  function Rejoined(words: seq<Text>): Text {
    if words == [] then []
    else if |words| == 1 then words[0]
    else words[0] + ((if EndsInBreak(words[0]) then [] else [Space]) + Rejoined(words[1..]))
  }

  /** The text taken apart at its blanks and after its breaks, nothing of it lost. */
  ghost predicate IsSplit(text: Text, words: seq<Text>) {
    && words != [] && !EndsInBreak(words[|words| - 1])
    && (forall k :: 0 <= k < |words| ==> IsWord(words[k]))
    && Rejoined(words) == text
  }

  lemma {:induction false} SplitTail(text: Text, words: seq<Text>)
    requires IsSplit(text, words) && |words| > 1
    ensures IsSplit(Rejoined(words[1..]), words[1..])
    ensures text == words[0] + ((if EndsInBreak(words[0]) then [] else [Space]) + Rejoined(words[1..]))
  {
    var rest := words[1..];
    assert rest[|rest| - 1] == words[|words| - 1] && forall k :: 0 <= k < |rest| ==> rest[k] == words[k + 1];
  }

  lemma {:induction false} SplitCons(word: Text, rest: seq<Text>, text: Text)
    requires IsWord(word) && IsSplit(text, rest)
    ensures IsSplit(word + ((if EndsInBreak(word) then [] else [Space]) + text), [word] + rest)
  {
    var all := [word] + rest;
    assert all[1..] == rest && all[|all| - 1] == rest[|rest| - 1];
    forall k | 0 <= k < |all| ensures IsWord(all[k]) {
      assert k > 0 ==> all[k] == rest[k - 1];
    }
  }

  lemma {:induction false} LongerIsWord(c: Symbol, w: Text)
    requires c != Space && c != Br
    ensures IsWord([c] + w) <==> IsWord(w)
    ensures EndsInBreak([c] + w) <==> EndsInBreak(w)
  {
    assert forall i :: 0 <= i < |w| ==> ([c] + w)[i + 1] == w[i];
  }

  lemma {:induction false} RejoinedCons(w: Text, rest: seq<Text>)
    ensures Rejoined([w] + rest) ==
            if rest == [] then w else w + ((if EndsInBreak(w) then [] else [Space]) + Rejoined(rest))
  {
    assert ([w] + rest)[1..] == rest;
  }

  lemma {:induction false} AssocFirst(c: Symbol, w: Text, rest: Text)
    ensures ([c] + w) + rest == [c] + (w + rest)
  {
  }

  lemma {:induction false} LongerRejoined(c: Symbol, w: Text, rest: seq<Text>)
    requires c != Space && c != Br
    ensures Rejoined([[c] + w] + rest) == [c] + Rejoined([w] + rest)
  {
    RejoinedCons(w, rest);
    RejoinedCons([c] + w, rest);
    LongerIsWord(c, w);
    AssocFirst(c, w, (if EndsInBreak(w) then [] else [Space]) + Rejoined(rest));
  }

  /** The words after the first. */
  ghost predicate Tails(w: Text, rest: seq<Text>) {
    && !EndsInBreak(if rest == [] then w else rest[|rest| - 1])
    && forall k :: 0 <= k < |rest| ==> IsWord(rest[k])
  }

  lemma {:induction false} SplitParts(text: Text, w: Text, rest: seq<Text>)
    ensures IsSplit(text, [w] + rest) <==> IsWord(w) && Tails(w, rest) && Rejoined([w] + rest) == text
  {
    var all := [w] + rest;
    assert all[0] == w && forall k :: 0 < k < |all| ==> all[k] == rest[k - 1];
    assert forall k :: 0 <= k < |rest| ==> rest[k] == all[k + 1];
  }

  lemma {:induction false} LongerWord(c: Symbol, w: Text, rest: seq<Text>, text: Text)
    requires c != Space && c != Br
    ensures IsSplit([c] + text, [[c] + w] + rest) <==> IsSplit(text, [w] + rest)
  {
    SplitParts(text, w, rest);
    SplitParts([c] + text, [c] + w, rest);
    LongerIsWord(c, w);
    LongerRejoined(c, w, rest);
    FirstCancels(c, Rejoined([w] + rest), text);
  }

  lemma {:induction false} FirstCancels(c: Symbol, a: Text, b: Text)
    ensures [c] + a == [c] + b <==> a == b
  {
    assert ([c] + a)[1..] == a && ([c] + b)[1..] == b;
  }

  lemma {:induction false} WordsSplit(text: Text)
    ensures IsSplit(text, Words(text))
  {
    if text == [] {
    } else {
      var c, rest := text[0], Words(text[1..]);
      WordsSplit(text[1..]);
      assert text == [c] + text[1..];
      if c == Space || c == Br {
        SplitCons(if c == Space then [] else [Br], rest, text[1..]);
        BreakOrBlank(c, text[1..]);
      } else {
        LongerWord(c, rest[0], rest[1..], text[1..]);
        assert [rest[0]] + rest[1..] == rest;
      }
    }
  }

  lemma {:induction false} BreakOrBlank(c: Symbol, text: Text)
    requires c == Space || c == Br
    ensures var word := if c == Space then [] else [Br];
            IsWord(word) && word + ((if EndsInBreak(word) then [] else [Space]) + text) == [c] + text
  {
  }

  lemma {:induction false} ShortFirst(text: Text, words: seq<Text>)
    requires IsSplit(text, words) && (words[0] == [] || words[0] == [Br])
    ensures |words| == 1 ==> text == []
    ensures |words| > 1 ==> text != [] && IsSplit(text[1..], words[1..])
                            && text[0] == (if words[0] == [] then Space else Br)
  {
    if |words| > 1 {
      var rest := Rejoined(words[1..]);
      SplitTail(text, words);
      assert text == [if words[0] == [] then Space else Br] + rest;
      assert text[1..] == rest;
    }
  }

  /** A text can be taken apart in this way only once. */
  lemma {:induction false} WordsExactly(text: Text, words: seq<Text>)
    ensures IsSplit(text, words) <==> words == Words(text)
    decreases |text|
  {
    WordsSplit(text);
    if IsSplit(text, words) {
      var w := words[0];
      assert words == [w] + words[1..];
      if w == [] || w == [Br] {
        ShortFirst(text, words);
        if |words| == 1 {
          assert words == [[]];
        } else {
          WordsExactly(text[1..], words[1..]);
        }
      } else {
        LongFirst(text, words);
        WordsExactly(text[1..], [w[1..]] + words[1..]);
        var rest := Words(text[1..]);
        assert rest[0] == w[1..] && rest[1..] == words[1..] && [w[0]] + w[1..] == w;
      }
    }
  }

  lemma {:induction false} LongFirst(text: Text, words: seq<Text>)
    requires IsSplit(text, words) && words[0] != [] && words[0] != [Br]
    ensures text != [] && text[0] == words[0][0] && text[0] != Space && text[0] != Br
    ensures IsSplit(text[1..], [words[0][1..]] + words[1..])
  {
    var w := words[0];
    var less := [w[1..]] + words[1..];
    assert IsWord(w) && w[0] in w && w[0] != Space && (|w| > 1 ==> w[0] != Br);
    assert |w| == 1 ==> w == [w[0]];
    assert [w[0]] + less[0] == w && less[1..] == words[1..] && words == [w] + words[1..];
    if |words| > 1 {
      SplitTail(text, words);
    }
    assert text[0] == w[0];
    assert text == [w[0]] + text[1..];
    LongerWord(w[0], w[1..], words[1..], text[1..]);
  }

  lemma {:induction false} BrokenKeepsDepth(d: nat, text: Text)
    ensures Depth(d, Broken(text)) == Depth(d, text)
    decreases |text|
  {
    if text != [] {
      var broken := Broken(text);
      assert broken[1..] == Broken(text[1..]);
      var d' := if text[0] == Open then d + 1 else if text[0] == Close && d > 0 then d - 1 else d;
      BrokenKeepsDepth(d', text[1..]);
    }
  }

  // ---------- wrapping ----------

  /** The characters of a word that can be seen. */
  function Visible(word: Text): nat {
    if word == [] then 0
    else (if word[0].Ch? || word[0].Tick? || word[0].Newline? || word[0].Space? then 1 else 0) + Visible(word[1..])
  }

  /** A word of the text, or a break that was put in; in code, the break closes and reopens the tag. */
  datatype Piece = Word(word: Text) | Inserted(inCode: bool)

  function TextOf(p: Piece): Text {
    match p
    case Word(w) => w + [Space]
    case Inserted(inCode) => if inCode then [Close, Br, Open] else [Br]
  }

  function TextOfAll(pieces: seq<Piece>): Text {
    if pieces == [] then [] else TextOfAll(pieces[..|pieces| - 1]) + TextOf(pieces[|pieces| - 1])
  }

  function WordsOf(pieces: seq<Piece>): seq<Text> {
    if pieces == [] then []
    else WordsOf(pieces[..|pieces| - 1])
         + (var p := pieces[|pieces| - 1]; if p.Word? then [p.word] else [])
  }

  predicate Saved(word: Text) { word == [Open] || word == [Close] || word == [Li] || word == [Br] }

  /** The words since the last break that are counted: since one put in, or a list item or break standing by itself. */
  function Run(pieces: seq<Piece>): seq<Text> {
    if pieces == [] then []
    else
      var p := pieces[|pieces| - 1];
      if p.Inserted? || p.word == [Li] || p.word == [Br] then []
      else if Saved(p.word) then Run(pieces[..|pieces| - 1])
      else Run(pieces[..|pieces| - 1]) + [p.word]
  }

  /** The length of a run, with a space after each word. */
  function Length(run: seq<Text>): nat {
    if run == [] then 0 else Length(run[..|run| - 1]) + Visible(run[|run| - 1]) + 1
  }

  /** At no point is a run longer than x, its last space not counted, unless it is one single word. */
  ghost predicate RunsFit(pieces: seq<Piece>, x: int) {
    forall i :: 0 <= i <= |pieces| ==> |Run(pieces[..i])| <= 1 || Length(Run(pieces[..i])) - 1 <= x
  }

  /** No break is put in where the run could have gone on. */
  ghost predicate BreaksNeeded(pieces: seq<Piece>, x: int) {
    forall i :: 0 <= i < |pieces| && pieces[i].Inserted? ==>
      i + 1 < |pieces| && pieces[i + 1].Word? && pieces[i + 1].word !in [[Open], [Close], [Li], [Br]]
      && Length(Run(pieces[..i])) + Visible(pieces[i + 1].word) > x
  }

  /** The words are all there, and where the tags of the words nest, so do those of the pieces; code is only taken to be
      open where it is. */
  ghost predicate Nested(pieces: seq<Piece>, words: seq<Text>, isInsideCode: bool) {
    var depth := Depth(0, JoinBack(words));
    && WordsOf(pieces) == words
    && (depth.Some? ==> Depth(0, TextOfAll(pieces)) == depth && (isInsideCode ==> depth.value >= 1))
  }

  ghost predicate Fits(pieces: seq<Piece>, currentLength: int, x: int) {
    currentLength == Length(Run(pieces)) && RunsFit(pieces, x) && BreaksNeeded(pieces, x)
  }

  predicate Opens(p: Piece) { p.Word? && Open in p.word && Close !in p.word }
  predicate Closes(p: Piece) { p.Word? && Close in p.word }

  /** Some word opens code, and none closes any from there on. */
  ghost predicate InCode(pieces: seq<Piece>) {
    exists k :: 0 <= k < |pieces| && Opens(pieces[k]) && forall j :: k <= j < |pieces| ==> !Closes(pieces[j])
  }

  /** A break closes and reopens the tag exactly if it stands in code. */
  ghost predicate BreaksMarked(pieces: seq<Piece>) {
    forall i :: 0 <= i < |pieces| && pieces[i].Inserted? ==> (pieces[i].inCode <==> InCode(pieces[..i]))
  }

  /** `Join`, from the end. */
  function JoinBack(words: seq<Text>): Text {
    if words == [] then [] else JoinBack(words[..|words| - 1]) + words[|words| - 1]
  }

  lemma {:induction false} JoinBackIsJoin(a: seq<Text>, b: seq<Text>)
    ensures JoinBack(a) + Join(b) == JoinBack(a + b)
    decreases |b|
  {
    if b == [] {
      assert a + b == a && JoinBack(a) + [] == JoinBack(a);
    } else {
      var ab := a + [b[0]];
      assert ab[..|ab| - 1] == a;
      JoinBackIsJoin(ab, b[1..]);
      assert ab + b[1..] == a + b;
      assert JoinBack(a) + (b[0] + Join(b[1..])) == (JoinBack(a) + b[0]) + Join(b[1..]);
    }
  }

  lemma {:induction false} DepthOfWord(d: nat, word: Text)
    ensures Depth(d, word + [Space]) == Depth(d, word)
  {
    DepthConcat(d, word, [Space]);
    assert [Space][1..] == [];
    if Depth(d, word).Some? {
      assert Depth(Depth(d, word).value, [Space]) == Depth(Depth(d, word).value, []);
    }
  }

  lemma {:induction false} BreakKeepsDepth(pieces: seq<Piece>, isInsideCode: bool)
    requires Depth(0, TextOfAll(pieces)).Some? && (isInsideCode ==> Depth(0, TextOfAll(pieces)).value >= 1)
    ensures Depth(0, TextOfAll(pieces + [Inserted(isInsideCode)])) == Depth(0, TextOfAll(pieces))
  {
    var more := pieces + [Inserted(isInsideCode)];
    assert more[..|more| - 1] == pieces;
    DepthConcat(0, TextOfAll(pieces), TextOf(Inserted(isInsideCode)));
    assert [Close, Br, Open][1..] == [Br, Open] && [Br, Open][1..] == [Open] && [Open][1..] == [] && [Br][1..] == [];
  }

  lemma {:induction false} WordKeepsDepth(pieces: seq<Piece>, words: seq<Text>, word: Text)
    requires Depth(0, TextOfAll(pieces)) == Depth(0, JoinBack(words))
    ensures Depth(0, TextOfAll(pieces + [Word(word)])) == Depth(0, JoinBack(words + [word]))
    ensures Depth(0, JoinBack(words)).None? ==> Depth(0, JoinBack(words + [word])).None?
  {
    var more, all := pieces + [Word(word)], words + [word];
    assert more[..|more| - 1] == pieces && all[..|all| - 1] == words;
    DepthConcat(0, TextOfAll(pieces), word + [Space]);
    DepthConcat(0, JoinBack(words), word);
    if Depth(0, JoinBack(words)).Some? {
      DepthOfWord(Depth(0, JoinBack(words)).value, word);
    }
  }

  function InsideNow(word: Text, before: bool): bool {
    if Close in word then false else if Open in word then true else before
  }

  lemma {:induction false} InsideAfter(d: nat, word: Text, isInsideCode: bool)
    requires Depth(d, word).Some? && (isInsideCode ==> d >= 1)
    ensures InsideNow(word, isInsideCode) ==> Depth(d, word).value >= 1
  {
    if Close !in word {
      DepthWithout(d, word);
    }
  }

  // ---------- one turn of the loop ----------

  function Put(pieces: seq<Piece>, broken: bool, inCode: bool, word: Text): seq<Piece> {
    (if broken then pieces + [Inserted(inCode)] else pieces) + [Word(word)]
  }

  lemma {:induction false} NestedStep(pieces: seq<Piece>, words: seq<Text>, isInsideCode: bool, broken: bool,
                                      word: Text)
    requires Nested(pieces, words, isInsideCode)
    ensures Nested(Put(pieces, broken, isInsideCode, word), words + [word], InsideNow(word, isInsideCode))
  {
    var more := if broken then pieces + [Inserted(isInsideCode)] else pieces;
    assert (words + [word])[..|words|] == words;
    DepthConcat(0, JoinBack(words), word);
    if Depth(0, JoinBack(words)).Some? {
      BreakKeepsDepth(pieces, isInsideCode);
      WordKeepsDepth(more, words, word);
      if Depth(0, JoinBack(words + [word])).Some? {
        InsideAfter(Depth(0, JoinBack(words)).value, word, isInsideCode);
      }
    }
  }

  lemma {:induction false} RunsFitSnoc(pieces: seq<Piece>, p: Piece, x: int)
    requires RunsFit(pieces, x)
    requires |Run(pieces + [p])| <= 1 || Length(Run(pieces + [p])) - 1 <= x
    ensures RunsFit(pieces + [p], x)
  {
    var more := pieces + [p];
    forall i | 0 <= i <= |more| ensures |Run(more[..i])| <= 1 || Length(Run(more[..i])) - 1 <= x {
      if i <= |pieces| {
        assert more[..i] == pieces[..i];
      } else {
        assert more[..i] == more;
      }
    }
  }

  lemma {:induction false} BreaksNeededSnoc(pieces: seq<Piece>, broken: bool, inCode: bool, word: Text, x: int)
    requires BreaksNeeded(pieces, x)
    requires broken ==> !Saved(word) && Length(Run(pieces)) + Visible(word) > x
    ensures BreaksNeeded(Put(pieces, broken, inCode, word), x)
  {
    var more := Put(pieces, broken, inCode, word);
    forall i | 0 <= i < |more| && more[i].Inserted?
      ensures i + 1 < |more| && more[i + 1].Word? && more[i + 1].word !in [[Open], [Close], [Li], [Br]]
              && Length(Run(more[..i])) + Visible(more[i + 1].word) > x
    {
      if i < |pieces| {
        assert pieces[i].Inserted? && more[..i] == pieces[..i] && more[i + 1] == pieces[i + 1];
      } else {
        assert more[..i] == pieces;
      }
    }
  }

  lemma {:induction false} Snoc(pieces: seq<Piece>, p: Piece)
    ensures WordsOf(pieces + [p]) == WordsOf(pieces) + (if p.Word? then [p.word] else [])
    ensures Run(pieces + [p]) ==
            if p.Inserted? || p.word == [Li] || p.word == [Br] then []
            else if Saved(p.word) then Run(pieces)
            else Run(pieces) + [p.word]
  {
    assert (pieces + [p])[..|pieces|] == pieces;
  }

  lemma {:induction false} LengthSnoc(run: seq<Text>, word: Text)
    ensures Length(run + [word]) == Length(run) + Visible(word) + 1
  {
    assert (run + [word])[..|run|] == run;
  }

  lemma {:induction false} RunsFitStep(pieces: seq<Piece>, inCode: bool, broken: bool, word: Text, x: int)
    requires RunsFit(pieces, x)
    requires broken <==> !Saved(word) && Length(Run(pieces)) + Visible(word) > x
    ensures RunsFit(Put(pieces, broken, inCode, word), x)
  {
    Snoc(pieces, Inserted(inCode));
    assert pieces[..|pieces|] == pieces;
    assert |Run(pieces)| <= 1 || Length(Run(pieces)) - 1 <= x;
    if broken {
      RunsFitSnoc(pieces, Inserted(inCode), x);
    }
    var more := if broken then pieces + [Inserted(inCode)] else pieces;
    Snoc(more, Word(word));
    LengthSnoc(Run(more), word);
    RunsFitSnoc(more, Word(word), x);
  }

  function LengthAfter(word: Text, before: int, broken: bool): int {
    if word == [Li] || word == [Br] then 0
    else if Saved(word) then before
    else (if broken then 0 else before) + Visible(word) + 1
  }

  lemma {:induction false} LengthStep(pieces: seq<Piece>, inCode: bool, broken: bool, word: Text)
    requires broken ==> !Saved(word)
    ensures Length(Run(Put(pieces, broken, inCode, word))) == LengthAfter(word, Length(Run(pieces)), broken)
  {
    var more := if broken then pieces + [Inserted(inCode)] else pieces;
    Snoc(pieces, Inserted(inCode));
    Snoc(more, Word(word));
    LengthSnoc(Run(more), word);
  }

  lemma {:induction false} FitsStep(pieces: seq<Piece>, currentLength: int, inCode: bool, broken: bool, word: Text,
                                    x: int)
    requires Fits(pieces, currentLength, x)
    requires broken <==> !Saved(word) && currentLength + Visible(word) > x
    ensures Fits(Put(pieces, broken, inCode, word), LengthAfter(word, currentLength, broken), x)
  {
    RunsFitStep(pieces, inCode, broken, word, x);
    BreaksNeededSnoc(pieces, broken, inCode, word, x);
    LengthStep(pieces, inCode, broken, word);
  }

  lemma {:induction false} InCodeSnoc(pieces: seq<Piece>, p: Piece)
    ensures InCode(pieces + [p]) <==> if Closes(p) then false else if Opens(p) then true else InCode(pieces)
  {
    var more := pieces + [p];
    assert more[|pieces|] == p;
    if InCode(pieces) && !Closes(p) {
      var k :| 0 <= k < |pieces| && Opens(pieces[k]) && forall j :: k <= j < |pieces| ==> !Closes(pieces[j]);
      assert Opens(more[k]) && forall j :: k <= j < |more| ==> !Closes(more[j]);
    }
    if InCode(more) && !Opens(p) {
      var k :| 0 <= k < |more| && Opens(more[k]) && forall j :: k <= j < |more| ==> !Closes(more[j]);
      assert Opens(pieces[k]) && forall j :: k <= j < |pieces| ==> !Closes(pieces[j]) by {
        assert forall j :: k <= j < |pieces| ==> more[j] == pieces[j];
      }
    }
  }

  lemma {:induction false} MarkedStep(pieces: seq<Piece>, broken: bool, word: Text)
    requires BreaksMarked(pieces)
    ensures var more := Put(pieces, broken, InCode(pieces), word);
            BreaksMarked(more) && InCode(more) == InsideNow(word, InCode(pieces))
  {
    var inCode := InCode(pieces);
    var some, more := if broken then pieces + [Inserted(inCode)] else pieces, Put(pieces, broken, inCode, word);
    InCodeSnoc(pieces, Inserted(inCode));
    InCodeSnoc(some, Word(word));
    forall i | 0 <= i < |more| && more[i].Inserted? ensures more[i].inCode <==> InCode(more[..i]) {
      if i < |pieces| {
        assert more[..i] == pieces[..i] && more[i] == pieces[i];
      } else {
        assert more[..i] == pieces;
      }
    }
  }

  /** A word is put, after a break if it does not fit. */
  method PutWord(pieces0: seq<Piece>, inside0: bool, length0: int, word: Text, x: int)
    returns (pieces: seq<Piece>, isInsideCode: bool, currentLength: int)
    ensures var broken := !Saved(word) && length0 + Visible(word) > x;
            && pieces == Put(pieces0, broken, inside0, word)
            && isInsideCode == InsideNow(word, inside0)
            && currentLength == LengthAfter(word, length0, broken)
  {
    pieces, isInsideCode, currentLength := pieces0, inside0, length0;
    var isSavedWord := word == [Open] || word == [Close] || word == [Li] || word == [Br];
    var lenWord := Visible(word);
    if !isSavedWord && currentLength + lenWord > x {
      pieces := pieces + [Inserted(isInsideCode)];
      currentLength := 0;
    }
    pieces := pieces + [Word(word)];
    if !isSavedWord {
      currentLength := currentLength + lenWord + 1;
    }
    if word == [Li] || word == [Br] {
      currentLength := 0;
    }
    if Open in word {
      isInsideCode := true;
    }
    if Close in word {
      isInsideCode := false;
    }
  }

  ghost predicate Wrapping(pieces: seq<Piece>, words: seq<Text>, isInsideCode: bool, currentLength: int, x: int) {
    && Nested(pieces, words, isInsideCode) && Fits(pieces, currentLength, x)
    && BreaksMarked(pieces) && isInsideCode == InCode(pieces)
  }

  lemma {:induction false} OneTurn(pieces: seq<Piece>, words: seq<Text>, isInsideCode: bool, currentLength: int,
                                   word: Text, x: int, more: seq<Piece>, insideNow: bool, lengthNow: int)
    requires Wrapping(pieces, words, isInsideCode, currentLength, x)
    requires var broken := !Saved(word) && currentLength + Visible(word) > x;
             && more == Put(pieces, broken, isInsideCode, word)
             && insideNow == InsideNow(word, isInsideCode) && lengthNow == LengthAfter(word, currentLength, broken)
    ensures Wrapping(more, words + [word], insideNow, lengthNow, x)
  {
    var broken := !Saved(word) && currentLength + Visible(word) > x;
    NestedStep(pieces, words, isInsideCode, broken, word);
    MarkedStep(pieces, broken, word);
    FitsStep(pieces, currentLength, isInsideCode, broken, word, x);
  }

  /** One turn of the loop, with what it keeps. */
  method TakeWord(pieces0: seq<Piece>, inside0: bool, length0: int, word: Text, x: int, ghost done: seq<Text>)
    returns (pieces: seq<Piece>, isInsideCode: bool, currentLength: int)
    requires Wrapping(pieces0, done, inside0, length0, x)
    ensures Wrapping(pieces, done + [word], isInsideCode, currentLength, x)
  {
    pieces, isInsideCode, currentLength := PutWord(pieces0, inside0, length0, word, x);
    OneTurn(pieces0, done, inside0, length0, word, x, pieces, isInsideCode, currentLength);
  }

  lemma {:induction false} AllWrapped(pieces: seq<Piece>, words: seq<Text>, isInsideCode: bool, currentLength: int, x: int)
    requires Wrapping(pieces, words, isInsideCode, currentLength, x)
    ensures WordsOf(pieces) == words && RunsFit(pieces, x) && BreaksNeeded(pieces, x) && BreaksMarked(pieces)
    ensures Depth(0, JoinBack(words)).Some? ==> Depth(0, TextOfAll(pieces)) == Depth(0, JoinBack(words))
  {
  }

  lemma {:induction false} NothingYet(x: int)
    ensures Wrapping([], [], false, 0, x)
  {
  }

  /** The loop over the words. */
  method WrapWords(words: seq<Text>, x: int) returns (pieces: seq<Piece>)
    ensures WordsOf(pieces) == words
    ensures Depth(0, JoinBack(words)).Some? ==> Depth(0, TextOfAll(pieces)) == Depth(0, JoinBack(words))
    ensures RunsFit(pieces, x) && BreaksNeeded(pieces, x) && BreaksMarked(pieces)
  {
    pieces := [];
    var isInsideCode := false;
    var currentLength := 0;
    ghost var done: seq<Text> := [];
    NothingYet(x);
    for i := 0 to |words|
      invariant done == words[..i] && Wrapping(pieces, done, isInsideCode, currentLength, x)
    {
      pieces, isInsideCode, currentLength := TakeWord(pieces, isInsideCode, currentLength, words[i], x, done);
      done := done + [words[i]];
    }
    assert words[..|words|] == words;
    AllWrapped(pieces, done, isInsideCode, currentLength, x);
  }

  /** The text whose words are wrapped. */
  function Prepared(text: Text): Text {
    Broken(if IsList(text) then Listed(Tagged(text, false)) else Tagged(text, false))
  }

  lemma {:induction false} PreparedKeepsDepth(text: Text)
    ensures Depth(0, Prepared(text)) == Depth(0, Tagged(text, false))
  {
    var tagged := Tagged(text, false);
    if IsList(text) {
      ListStays(text);
      ListedKeepsDepth(0, tagged);
      BrokenKeepsDepth(0, Listed(tagged));
    } else {
      BrokenKeepsDepth(0, tagged);
    }
  }

  /** The wrapped form of a text: its words in order, with breaks between them only where they are needed. */
  ghost predicate IsWrapped(text: Text, x: int, pieces: seq<Piece>, r: Text) {
    && r == (if IsList(text) then [Markup("<ul>")] + Stripped(TextOfAll(pieces)) + [Markup("</ul>")]
             else Stripped(TextOfAll(pieces)))
    && IsSplit(Prepared(text), WordsOf(pieces)) && RunsFit(pieces, x) && BreaksNeeded(pieces, x)
    && BreaksMarked(pieces)
  }

  lemma {:induction false} WrappedSo(text: Text, x: int, pieces: seq<Piece>, r: Text)
    requires r == Enclosed(IsList(text), Stripped(TextOfAll(pieces))) && IsSplit(Prepared(text), WordsOf(pieces))
    requires RunsFit(pieces, x) && BreaksNeeded(pieces, x) && BreaksMarked(pieces)
    ensures IsWrapped(text, x, pieces, r)
  {
  }

  /** A short text stays as it is. In others breaks are put in, and code tags nest as they did once the backticks were
      read; where all of them come from backticks, every one is closed. */
  method WrapText(text: Text, x: int) returns (r: Text)
    ensures text == [] || Visible(text) < x ==> r == text
    ensures text != [] && Visible(text) >= x ==>
              && (exists pieces :: IsWrapped(text, x, pieces, r))
              && (Depth(0, Tagged(text, false)).Some? ==> Depth(0, r) == Depth(0, Tagged(text, false)))
              && (Untagged(text) ==> Depth(0, r) == Some(0))
  {
    if text == [] || Visible(text) < x {
      return text;
    }
    var isList := IsList(text);
    var newText := ReplaceCodeTags(text);
    if isList {
      newText := Listed(newText);
    }
    newText := Broken(newText);
    var words := SplitWords(newText);
    WordsSplit(newText);
    var pieces := WrapWords(words, x);
    var processed := Stripped(TextOfAll(pieces));
    r := Enclosed(isList, processed);
    WrappedSo(text, x, pieces, r);
    if Untagged(text) {
      TaggedCloses(text, false);
    }
    PreparedKeepsDepth(text);
    WordsKeepDepth(0, newText);
    JoinBackIsJoin([], words);
    assert [] + words == words && [] + Join(words) == Join(words);
    StripKeepsDepth(0, TextOfAll(pieces));
    EnclosedKeepsDepth(isList, processed);
  }
}
