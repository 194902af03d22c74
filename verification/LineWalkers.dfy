/** The loops that find a line of a patch and its line number (`find_line_number_of_relevant_line_in_file`, both directions,
    and GitLab's `find_in_file`). */
module LineWalkers {
  import opened PyText
  import opened UnifiedDiff

  /** The number of the last line at or before line i of a patch that `counts`; `before` is the number ahead of the first
      header. A header resets the number to one less than its start. */
  function LineNo(before: int, lines: seq<Line>, i: int, counts: Line -> bool): int
    requires -1 <= i < |lines|
    decreases i + 1
  {
    if i < 0 then before
    else if lines[i].Head? then lines[i].header.start2 - 1
    else LineNo(before, lines, i - 1, counts) + (if counts(lines[i]) then 1 else 0)
  }

  /** The same for the old file. */
  function OldLineNo(before: int, lines: seq<Line>, i: int, counts: Line -> bool): int
    requires -1 <= i < |lines|
    decreases i + 1
  {
    if i < 0 then before
    else if lines[i].Head? then lines[i].header.start1 - 1
    else OldLineNo(before, lines, i - 1, counts) + (if counts(lines[i]) then 1 else 0)
  }

  /** What the position searches count: every line that does not start with '-'. */
  predicate NotMinus(l: Line) { !l.Head? && !l.Del? }

  datatype Search = Found(position: int, absolute: int) | Raised

  /** The header expression gives a number for both counts, or the conversion raises. */
  predicate BadHeader(l: Line) { l.Head? && !l.header.Explicit() }

  // ---------- search by number ----------

  /** "matching absolute to relative" */
  method FindByAbsolute(lines: seq<Line>, absolute: int) returns (r: Search)
    requires absolute != -1
    ensures r.Raised? ==>
              exists j :: 0 <= j < |lines| && BadHeader(lines[j]) &&
                          forall k :: 0 <= k < j ==> !BadHeader(lines[k]) && LineNo(-1, lines, k, NotMinus) != absolute
    ensures r.Found? ==> r.absolute == absolute && -1 <= r.position < |lines|
    ensures r.Found? && r.position >= 0 ==> LineNo(-1, lines, r.position, NotMinus) == absolute
    ensures r.Found? ==> forall k :: 0 <= k < (if r.position >= 0 then r.position else |lines|) ==>
              !BadHeader(lines[k]) && LineNo(-1, lines, k, NotMinus) != absolute
  {
    var delta, start2 := 0, 0;
    for i := 0 to |lines|
      invariant start2 + delta - 1 == LineNo(-1, lines, i - 1, NotMinus)
      invariant forall k :: 0 <= k < i ==> !BadHeader(lines[k]) && LineNo(-1, lines, k, NotMinus) != absolute
    {
      var line := lines[i];
      if line.Head? {
        delta := 0;
        if !line.header.Explicit() {
          return Raised;
        }
        start2 := line.header.start2;
      } else if !line.Del? {
        delta := delta + 1;
      }
      var current := start2 + delta - 1;
      if current == absolute {
        return Found(i, absolute);
      }
    }
    r := Found(-1, absolute);
  }

  // ---------- search by text ----------

  /** `text in line` */
  function Holds(text: string): Line -> bool { l => Contains(text, Raw(l)) }

  /** `text in line and line[0] != '-'`, where the line is not empty; `has` is the test for the text. */
  predicate Hit(has: Line -> bool, l: Line) { has(l) && !l.Blank? && !l.Del? }

  /** The search raises on such a line. */
  predicate Bad(has: Line -> bool, l: Line) { BadHeader(l) || (has(l) && l.Blank?) }

  predicate Passes(has: Line -> bool, l: Line) { !Hit(has, l) && !Bad(has, l) }

  ghost predicate NotFound(has: Line -> bool, lines: seq<Line>) {
    forall k :: 0 <= k < |lines| ==> Passes(has, lines[k])
  }

  /** What one pass comes to, from the given number on: the first line that is hit, or that raises. */
  ghost predicate Scanned(has: Line -> bool, lines: seq<Line>, number: int, r: Search) {
    match r
    case Raised => exists j :: 0 <= j < |lines| && Bad(has, lines[j]) && NotFound(has, lines[..j])
    case Found(position, absolute) =>
      if position == -1 then absolute == -1 && NotFound(has, lines)
      else
        && 0 <= position < |lines| && NotFound(has, lines[..position])
        && Hit(has, lines[position]) && !BadHeader(lines[position])
        && absolute == LineNo(number, lines, position, NotMinus)
  }

  /** A line at which a pass stops: a header with an omitted count, or a line that holds the text and is not deleted. */
  predicate Stops(has: Line -> bool, l: Line) {
    (l.Head? && (l.header.count1.None? || l.header.count2.None?)) || (has(l) && !l.Del?)
  }

  /** The first line at which a pass stops decides: it raises at a header with an omitted count and at an empty line, and
      otherwise has found the line; where there is none it has found nothing. */
  lemma {:induction false} SearchDecided(has: Line -> bool, lines: seq<Line>, number: int, r: Search, j: nat)
    requires Scanned(has, lines, number, r) && j <= |lines| && forall k :: 0 <= k < j ==> !Stops(has, lines[k])
    requires j < |lines| ==> Stops(has, lines[j])
    ensures j == |lines| ==> r == Found(-1, -1)
    ensures j < |lines| && (lines[j].Blank? || (lines[j].Head? && !lines[j].header.Explicit())) ==> r == Raised
    ensures j < |lines| && !lines[j].Blank? && !(lines[j].Head? && !lines[j].header.Explicit()) ==>
              r == Found(j, LineNo(number, lines, j, NotMinus))
  {
    assert forall l :: Stops(has, l) <==> !Passes(has, l);
    match r {
      case Raised =>
        var i :| 0 <= i < |lines| && Bad(has, lines[i]) && NotFound(has, lines[..i]);
        SameStop(has, lines, i, j);
      case Found(position, absolute) =>
        if position != -1 {
          SameStop(has, lines, position, j);
        }
    }
  }

  lemma {:induction false} SameStop(has: Line -> bool, lines: seq<Line>, i: nat, j: nat)
    requires i < |lines| && !Passes(has, lines[i]) && NotFound(has, lines[..i])
    requires j <= |lines| && (forall k :: 0 <= k < j ==> Passes(has, lines[k])) && (j < |lines| ==> !Passes(has, lines[j]))
    ensures i == j
  {
    PassesBefore(has, lines, i);
  }

  lemma {:induction false} PassesBefore(has: Line -> bool, lines: seq<Line>, i: nat)
    requires i <= |lines| && NotFound(has, lines[..i])
    ensures forall k :: 0 <= k < i ==> Passes(has, lines[k])
  {
    assert forall k :: 0 <= k < i ==> lines[..i][k] == lines[k];
  }

  /** One pass over the lines, from the number that the variables hold before it. */
  method ScanForText(lines: seq<Line>, has: Line -> bool, startBefore: int, deltaBefore: int)
    returns (r: Search, start2: int, delta: int)
    ensures Scanned(has, lines, startBefore + deltaBefore - 1, r)
    ensures NotFound(has, lines) <==> r == Found(-1, -1)
    ensures r == Found(-1, -1) ==>
              start2 + delta - 1 == LineNo(startBefore + deltaBefore - 1, lines, |lines| - 1, NotMinus)
  {
    start2, delta := startBefore, deltaBefore;
    for i := 0 to |lines|
      invariant start2 + delta - 1 == LineNo(startBefore + deltaBefore - 1, lines, i - 1, NotMinus)
      invariant forall k :: 0 <= k < i ==> Passes(has, lines[k])
    {
      var line := lines[i];
      if line.Head? {
        delta := 0;
        if !line.header.Explicit() {
          return Raised, start2, delta;
        }
        start2 := line.header.start2;
      } else if !line.Del? {
        delta := delta + 1;
      }
      if has(line) {
        if line.Blank? {
          return Raised, start2, delta;
        }
        if !line.Del? {
          return Found(i, start2 + delta - 1), start2, delta;
        }
      }
    }
    r := Found(-1, -1);
  }

  /** A test that comes to the same on every line gives the same result. */
  lemma {:induction false} SameTest(lines: seq<Line>, has: Line -> bool, test: Line -> bool, number: int, r: Search)
    requires forall l :: has(l) <==> test(l)
    ensures NotFound(has, lines) <==> NotFound(test, lines)
    ensures Scanned(has, lines, number, r) <==> Scanned(test, lines, number, r)
  {
    assert forall l :: Hit(has, l) <==> Hit(test, l);
    assert forall l :: Bad(has, l) <==> Bad(test, l);
    assert forall l :: Passes(has, l) <==> Passes(test, l);
    assert forall part :: NotFound(has, part) <==> NotFound(test, part);
  }

  /** The text stands somewhere in the line. */
  ghost function HasText(text: string): Line -> bool { l => HasPart(text, Raw(l)) }

  lemma {:induction false} HoldsExactly(text: string)
    ensures forall l :: Holds(text)(l) <==> HasText(text)(l)
  {
    forall l ensures Holds(text)(l) <==> HasText(text)(l) {
      ContainsExactly(text, Raw(l));
    }
  }

  /** One pass, and if it finds nothing and `retry` says so another one with the second test, from the number the first
      pass ended with. */
  method ScanTwice(lines: seq<Line>, has: Line -> bool, retry: bool, hasLess: Line -> bool) returns (r: Search)
    ensures if retry && NotFound(has, lines)
            then Scanned(hasLess, lines, LineNo(-1, lines, |lines| - 1, NotMinus), r)
            else Scanned(has, lines, -1, r)
  {
    var start2, delta;
    r, start2, delta := ScanForText(lines, has, 0, 0);
    if r == Found(-1, -1) && retry {
      r, start2, delta := ScanForText(lines, hasLess, start2, delta);
    }
  }

  /** `close` are the close matches found for the text. If nothing is found, a text that starts with '+' is tried again
      without it, from the number the first pass ended with. */
  method FindByText(lines: seq<Line>, relevant: string, close: seq<string>) returns (r: Search)
    ensures var sought := if |close| == 1 && StartsWith("+", close[0]) then close[0] else relevant;
            if StartsWith("+", sought) && NotFound(HasText(sought), lines)
            then Scanned(HasText(LStrip(sought[1..])), lines, LineNo(-1, lines, |lines| - 1, NotMinus), r)
            else Scanned(HasText(sought), lines, -1, r)
  {
    var sought := relevant;
    if |close| == 1 && StartsWith("+", close[0]) {
      sought := close[0];
    }
    var noPlusLine := LStrip(if sought == "" then "" else sought[1..]);
    r := ScanTwice(lines, Holds(sought), StartsWith("+", sought), Holds(noPlusLine));
    HoldsExactly(sought);
    HoldsExactly(noPlusLine);
    SameTest(lines, Holds(sought), HasText(sought), -1, r);
    SameTest(lines, Holds(noPlusLine), HasText(noPlusLine), LineNo(-1, lines, |lines| - 1, NotMinus), r);
  }

  // ---------- GitLab ----------

  datatype Edit = Context | Deletion | Addition

  /** `get_edit_type` of a line that is not empty. */
  function EditOf(l: Line): Edit { if l.Del? then Deletion else if l.Add? then Addition else Context }

  datatype Place = Place(edit: Edit, source: int, target: int) | Nowhere | Failed

  /** `relevant in line`, or the same without a leading '+'. */
  function Mentions(relevant: string): Line -> bool {
    l => Contains(relevant, Raw(l)) || (StartsWith("+", relevant) && Contains(LStrip(relevant[1..]), Raw(l)))
  }

  /** The text stands somewhere in the line, or what is left of it without a leading '+' and white space after that. */
  ghost function MentionsText(relevant: string): Line -> bool {
    l => HasPart(relevant, Raw(l)) || (StartsWith("+", relevant) && HasPart(LStrip(relevant[1..]), Raw(l)))
  }

  lemma {:induction false} MentionsExactly(relevant: string)
    ensures forall l :: Mentions(relevant)(l) <==> MentionsText(relevant)(l)
  {
    forall l ensures Mentions(relevant)(l) <==> MentionsText(relevant)(l) {
      ContainsExactly(relevant, Raw(l));
      if StartsWith("+", relevant) {
        ContainsExactly(LStrip(relevant[1..]), Raw(l));
      }
    }
  }

  /** Line i is the first that matches; headers never do. */
  ghost predicate FirstMatch(lines: seq<Line>, has: Line -> bool, i: int) {
    && 0 <= i < |lines| && !lines[i].Head? && has(lines[i])
    && forall k :: 0 <= k < i ==> lines[k].Head? || !has(lines[k])
  }

  /** The first line that matches, with numbers that its callers take one less of. */
  ghost predicate Located(lines: seq<Line>, has: Line -> bool, r: Place) {
    match r
    case Nowhere => forall k :: 0 <= k < |lines| ==> lines[k].Head? || !has(lines[k])
    case Failed => exists i :: FirstMatch(lines, has, i) && lines[i].Blank?
    case Place(edit, source, target) =>
      exists i :: FirstMatch(lines, has, i) && !lines[i].Blank?
                  && (edit.Deletion? <==> lines[i].Del?) && (edit.Addition? <==> lines[i].Add?)
                  && source - 1 == OldLineNo(-1, lines, i, InOld) && target - 1 == LineNo(-1, lines, i, InNew)
  }

  lemma {:induction false} SamePlace(lines: seq<Line>, has: Line -> bool, test: Line -> bool, r: Place)
    requires forall l :: has(l) <==> test(l)
    ensures Located(lines, has, r) <==> Located(lines, test, r)
  {
    assert forall i :: FirstMatch(lines, has, i) <==> FirstMatch(lines, test, i);
  }

  method FindFirst(lines: seq<Line>, has: Line -> bool) returns (r: Place)
    ensures Located(lines, has, r)
  {
    var source, target := 0, 0;
    for i := 0 to |lines|
      invariant source - 1 == OldLineNo(-1, lines, i - 1, InOld)
      invariant target - 1 == LineNo(-1, lines, i - 1, InNew)
      invariant forall k :: 0 <= k < i ==> lines[k].Head? || !has(lines[k])
    {
      var line := lines[i];
      if line.Head? {
        source := line.header.start1;
        target := line.header.start2;
        continue;
      }
      if line.Del? {
        source := source + 1;
      } else if line.Add? {
        target := target + 1;
      } else if line.Ctx? {
        source := source + 1;
        target := target + 1;
      }
      if has(line) {
        assert FirstMatch(lines, has, i);
        if line.Blank? {
          return Failed;
        }
        return Place(EditOf(line), source, target);
      }
    }
    r := Nowhere;
  }

  /** The first line that is no header and passes the test decides: the search fails at an empty line and otherwise has found
      the line; where there is none it is nowhere. */
  lemma {:induction false} PlaceDecided(lines: seq<Line>, has: Line -> bool, r: Place, j: nat)
    requires Located(lines, has, r) && j <= |lines|
    requires forall k :: 0 <= k < j ==> lines[k].Head? || !has(lines[k])
    requires j < |lines| ==> !lines[j].Head? && has(lines[j])
    ensures j == |lines| ==> r == Nowhere
    ensures j < |lines| ==> if lines[j].Blank? then r == Failed
                            else r.Place? && r.source - 1 == OldLineNo(-1, lines, j, InOld)
                                 && r.target - 1 == LineNo(-1, lines, j, InNew)
  {
    forall i | FirstMatch(lines, has, i) ensures i == j {
    }
  }

  /** `find_in_file` */
  method FindInFile(lines: seq<Line>, relevant: string) returns (r: Place)
    ensures Located(lines, MentionsText(relevant), r)
  {
    r := FindFirst(lines, Mentions(relevant));
    MentionsExactly(relevant);
    SamePlace(lines, Mentions(relevant), MentionsText(relevant), r);
  }
}
