/** The Python operations on text and lists that the modelled functions rely on. */
module PyText {

  datatype Option<+T> = None | Some(value: T)

  function Min(a: int, b: int): int { if a < b then a else b }
  function Max(a: int, b: int): int { if a < b then b else a }

  // ---------- lists ----------

  /** Where a slice bound falls: negative bounds count from the end, and all bounds are clamped. */
  function Bound(i: int, len: nat): (k: nat)
    ensures k <= len
  {
    if i < 0 then (if i + len < 0 then 0 else i + len)
    else if i > len then len else i
  }

  /** `s[lo:hi]` */
  function Slice<T>(s: seq<T>, lo: int, hi: int): seq<T> {
    var a, b := Bound(lo, |s|), Bound(hi, |s|);
    if a < b then s[a..b] else []
  }

  /** `s[i]`, or nothing where Python raises IndexError. */
  function At<T>(s: seq<T>, i: int): Option<T> {
    if 0 <= i < |s| then Some(s[i])
    else if -|s| <= i < 0 then Some(s[|s| + i])
    else None
  }

  /** A negative index counts from the end, and one out of reach is no element, or the nearest end of a slice. */
  lemma {:induction false} FromTheEnd<T>(s: seq<T>, k: int)
    requires k > 0
    ensures At(s, -k) == if k <= |s| then Some(s[|s| - k]) else None
    ensures Slice(s, -k, |s|) == if k <= |s| then s[|s| - k..] else s
    ensures Slice(s, 0, -k) == if k <= |s| then s[..|s| - k] else []
    ensures Slice(s, 0, |s| + k) == s && Slice(s, |s| + k, |s| + k + 1) == []
  {
  }

  /** `part` stands in `whole` from index `at` on. */
  ghost predicate StandsAt<T>(part: seq<T>, whole: seq<T>, at: int) {
    0 <= at && at + |part| <= |whole| && whole[at..at + |part|] == part
  }

  // ---------- strings ----------

  /** `sub in s` */
  predicate Contains(sub: string, s: string) {
    sub <= s || (s != [] && Contains(sub, s[1..]))
  }

  predicate StartsWith(prefix: string, s: string) {
    prefix <= s
  }

  /** The characters `str.strip` removes. */
  predicate IsSpace(c: char) {
    || 9 as char <= c <= 13 as char
    || 28 as char <= c <= ' '
    || c == 0x85 as char || c == 0xa0 as char || c == 0x1680 as char
    || 0x2000 as char <= c <= 0x200a as char
    || c == 0x2028 as char || c == 0x2029 as char || c == 0x202f as char
    || c == 0x205f as char || c == 0x3000 as char
  }

  predicate IsDigit(c: char) { '0' <= c <= '9' }

  function RStrip(s: string): (r: string)
    ensures r <= s
    ensures r != [] ==> !IsSpace(r[|r| - 1])
    ensures forall i :: |r| <= i < |s| ==> IsSpace(s[i])
  {
    if s == [] || !IsSpace(s[|s| - 1]) then s else RStrip(s[..|s| - 1])
  }

  function LStrip(s: string): string {
    if s == [] || !IsSpace(s[0]) then s else LStrip(s[1..])
  }

  function Strip(s: string): string { LStrip(RStrip(s)) }

  /** A string of white space only, the empty string included. */
  predicate IsBlank(s: string) { forall i :: 0 <= i < |s| ==> IsSpace(s[i]) }

  /** `str.lower` on the ASCII letters. */
  function Lower(s: string): (r: string)
    ensures |r| == |s|
  {
    seq(|s|, i requires 0 <= i < |s| => if 'A' <= s[i] <= 'Z' then s[i] - 'A' + 'a' else s[i])
  }

  predicate AllDigits(s: string) { forall i :: 0 <= i < |s| ==> IsDigit(s[i]) }

  function Digits(n: nat): (d: string)
    ensures d != [] && forall i :: 0 <= i < |d| ==> IsDigit(d[i])
  {
    if n < 10 then ['0' + n as char] else Digits(n / 10) + ['0' + (n % 10) as char]
  }

  /** `f"{n}"` */
  function Dec(n: int): string {
    if n < 0 then "-" + Digits(-n) else Digits(n)
  }

  // ---------- what the texts mean ----------

  /** `part` stands somewhere in `s`. */
  ghost predicate HasPart(part: string, s: string) {
    exists i :: StandsAt(part, s, i)
  }

  lemma {:induction false} ContainsExactly(sub: string, s: string)
    ensures Contains(sub, s) <==> HasPart(sub, s)
  {
    if sub <= s {
      assert StandsAt(sub, s, 0);
    } else if s != [] {
      ContainsExactly(sub, s[1..]);
      if HasPart(sub, s) {
        var i :| StandsAt(sub, s, i);
        assert i > 0 ==> s[1..][i - 1..i - 1 + |sub|] == s[i..i + |sub|];
        assert StandsAt(sub, s[1..], i - 1);
      }
      if HasPart(sub, s[1..]) {
        var i :| StandsAt(sub, s[1..], i);
        assert s[i + 1..i + 1 + |sub|] == s[1..][i..i + |sub|];
        assert StandsAt(sub, s, i + 1);
      }
    }
  }

  /** The part of a text between its first and its last character that is not white space. */
  ghost predicate IsStripped(s: string, r: string, at: int) {
    && 0 <= at && at + |r| <= |s| && r == s[at..at + |r|]
    && (r != [] ==> !IsSpace(r[0]) && !IsSpace(r[|r| - 1]))
    && forall i :: 0 <= i < |s| && !(at <= i < at + |r|) ==> IsSpace(s[i])
  }

  /** What is left is an end of the text, with only white space in front of it. */
  lemma {:induction false} LStripExactly(s: string)
    ensures var r := LStrip(s);
            && |r| <= |s| && r == s[|s| - |r|..] && (r != [] ==> !IsSpace(r[0]))
            && forall i :: 0 <= i < |s| - |r| ==> IsSpace(s[i])
  {
    if s != [] && IsSpace(s[0]) {
      LStripExactly(s[1..]);
      var r := LStrip(s[1..]);
      assert r == s[1..][|s[1..]| - |r|..] == s[|s| - |r|..];
      assert forall i :: 0 < i < |s| - |r| ==> s[i] == s[1..][i - 1];
    }
  }

  lemma {:induction false} StripExactly(s: string)
    ensures IsStripped(s, Strip(s), |RStrip(s)| - |Strip(s)|)
  {
    var t, r := RStrip(s), Strip(s);
    LStripExactly(t);
    assert r == t[|t| - |r|..] && t == s[..|t|];
    assert r != [] ==> r[|r| - 1] == t[|t| - 1];
    forall i | 0 <= i < |t| - |r| ensures IsSpace(s[i]) {
      assert IsSpace(t[i]) && s[i] == t[i];
    }
  }

  /** The number that digits stand for, read from the left after those that gave v. */
  function ValueFrom(v: nat, s: string): nat
    requires AllDigits(s)
    decreases |s|
  {
    if s == [] then v else ValueFrom(10 * v + (s[0] - '0') as int, s[1..])
  }

  function Value(s: string): nat
    requires AllDigits(s)
  {
    ValueFrom(0, s)
  }

  lemma {:induction false} ValueSnoc(v: nat, s: string, c: char)
    requires AllDigits(s) && IsDigit(c)
    ensures ValueFrom(v, s + [c]) == 10 * ValueFrom(v, s) + (c - '0') as int
    decreases |s|
  {
    var all := s + [c];
    if s == [] {
      assert all[0] == c && all[1..] == [];
    } else {
      ValueSnoc(10 * v + (s[0] - '0') as int, s[1..], c);
      assert all[0] == s[0] && all[1..] == s[1..] + [c];
    }
  }

  /** The digits of a number stand for it, and none is put in front of them that does not count. */
  lemma {:induction false} DigitsRead(n: nat)
    ensures Value(Digits(n)) == n && (|Digits(n)| > 1 ==> Digits(n)[0] != '0')
  {
    if n < 10 {
      ValueSnoc(0, [], '0' + n as char);
      assert [] + ['0' + n as char] == Digits(n);
    } else {
      DigitsRead(n / 10);
      ValueSnoc(0, Digits(n / 10), '0' + (n % 10) as char);
    }
  }

  /** The number of digits a text starts with. */
  function LeadingDigits(s: string): (k: nat)
    ensures k <= |s| && AllDigits(s[..k]) && (k < |s| ==> !IsDigit(s[k]))
  {
    if s == [] || !IsDigit(s[0]) then 0 else 1 + LeadingDigits(s[1..])
  }

  /** `int(s)`, or nothing where it raises: a sign may stand in front of the digits. */
  function ReadInt(s: string): Option<int> {
    var signed := StartsWith("-", s);
    var digits := if signed then s[1..] else s;
    if digits == [] || !AllDigits(digits) then None
    else
      var n: int := Value(digits);
      Some(if signed then -n else n)
  }

  lemma {:induction false} DecRead(n: int)
    ensures ReadInt(Dec(n)) == Some(n)
  {
    if n < 0 {
      DigitsRead(-n);
      assert Dec(n)[1..] == Digits(-n);
    } else {
      DigitsRead(n);
      assert IsDigit(Digits(n)[0]);
    }
  }

  lemma {:induction false} LeadingUnique(s: string, k: nat)
    requires k <= |s| && AllDigits(s[..k]) && (k < |s| ==> !IsDigit(s[k]))
    ensures LeadingDigits(s) == k
  {
    if k > 0 {
      assert s[..k][0] == s[0] && s[1..][..k - 1] == s[..k][1..];
      LeadingUnique(s[1..], k - 1);
    }
  }

  /** Digits followed by something that is none are read up to there. */
  lemma {:induction false} LeadingRead(n: nat, rest: string)
    requires rest != [] ==> !IsDigit(rest[0])
    ensures var all, k := Digits(n) + rest, LeadingDigits(Digits(n) + rest);
            k > 0 && Value(all[..k]) == n && all[k..] == rest
  {
    var all, k := Digits(n) + rest, |Digits(n)|;
    assert all[..k] == Digits(n) && all[k..] == rest;
    LeadingUnique(all, k);
    DigitsRead(n);
  }

  // ---------- text kept as the list of its lines ----------

  /** `text.rstrip()`, for a text whose every line ends in a line break. */
  function Trim(lines: seq<string>): (r: seq<string>)
    ensures |r| <= |lines|
  {
    if lines == [] then []
    else if IsBlank(lines[|lines| - 1]) then Trim(lines[..|lines| - 1])
    else lines[..|lines| - 1] + [RStrip(lines[|lines| - 1])]
  }

  /** The text that lines make up, each ended by a line break. */
  function Text(lines: seq<string>): string {
    if lines == [] then "" else Text(lines[..|lines| - 1]) + lines[|lines| - 1] + "\n"
  }

  /** The same without the last line break. */
  function Unended(lines: seq<string>): string {
    if lines == [] then "" else Text(lines[..|lines| - 1]) + lines[|lines| - 1]
  }

  // ---------- small facts ----------

  lemma {:induction false} RStripUnique(s: string, r: string)
    requires r <= s
    requires r != [] ==> !IsSpace(r[|r| - 1])
    requires forall i :: |r| <= i < |s| ==> IsSpace(s[i])
    ensures RStrip(s) == r
  {
    var t := RStrip(s);
    assert t == s[..|t|] && r == s[..|r|];
  }

  lemma {:induction false} RStripConcat(a: string, b: string)
    ensures RStrip(a + b) == if IsBlank(b) then RStrip(a) else a + RStrip(b)
  {
    if IsBlank(b) {
      var r := RStrip(a);
      forall i | |r| <= i < |a + b| ensures IsSpace((a + b)[i]) {
        assert (a + b)[i] == if i < |a| then a[i] else b[i - |a|];
      }
      RStripUnique(a + b, r);
    } else {
      var r := a + RStrip(b);
      assert r <= a + b by { assert b == RStrip(b) + b[|RStrip(b)|..]; }
      forall i | |r| <= i < |a + b| ensures IsSpace((a + b)[i]) {
        assert (a + b)[i] == b[i - |a|];
      }
      RStripUnique(a + b, r);
    }
  }

  lemma {:induction false} StandsIndex<T>(part: seq<T>, whole: seq<T>, at: int, i: nat)
    requires StandsAt(part, whole, at) && i < |part|
    ensures at + i < |whole| && whole[at + i] == part[i]
  {
    assert whole[at..at + |part|][i] == part[i];
  }

  lemma {:induction false} LineStripped(a: string, last: string)
    ensures RStrip(a + last + "\n") == if IsBlank(last) then RStrip(a) else a + RStrip(last)
  {
    RStripConcat(a + last, "\n");
    RStripConcat(a, last);
    assert IsBlank("\n");
  }

  /** Stripping the lines is stripping the text they make up. */
  lemma {:induction false} TrimExactly(lines: seq<string>)
    ensures Unended(Trim(lines)) == RStrip(Text(lines))
  {
    if lines != [] {
      var init, last := lines[..|lines| - 1], lines[|lines| - 1];
      LineStripped(Text(init), last);
      if IsBlank(last) {
        TrimExactly(init);
      } else {
        assert Trim(lines)[..|init|] == init;
      }
    }
  }
}
