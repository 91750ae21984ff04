/** The pattern matching inside `parseRawData` of the add-Pokémon form
    (components/add-pokemon-form.tsx). Each regular expression of the source is a
    "match at position i" function over the text, and `Leftmost` is the regex
    engine's search: it tries positions 0, 1, ..., |s| and returns the first one
    that matches, with the first capture group. */
module StatBlock {
  import opened Common

  /** A successful search: the position where the match starts and capture group 1. */
  datatype Match = Match(pos: nat, group: string)

  /** Character classes used by the patterns. */
  predicate NotSpace(c: char) { !IsJsSpace(c) }          // [^\s]
  predicate NotCloseParen(c: char) { c != ')' }          // [^)]
  predicate IsGenderLetter(c: char) { c == 'M' || c == 'F' }  // [MF]
  predicate IsDigit(c: char) { '0' <= c <= '9' }         // \d
  predicate NotNewline(c: char) { c != '\n' }            // [^\n]
  predicate IsAsciiLetter(c: char) { 'A' <= c <= 'Z' || 'a' <= c <= 'z' }  // [A-Za-z]

  /** Does the literal `lit` occur in `s` at position `i`? */
  predicate LiteralAt(s: string, i: int, lit: string) {
    0 <= i && i + |lit| <= |s| && s[i..i + |lit|] == lit
  }

  /** The end of the run of `cls` characters that starts at `i`. */
  function RunEnd(s: string, i: nat, cls: char -> bool): (j: nat)
    requires i <= |s|
    ensures i <= j <= |s|
    ensures forall k :: i <= k < j ==> cls(s[k])
    ensures j == |s| || !cls(s[j])
    decreases |s| - i
  {
    if i == |s| || !cls(s[i]) then i else RunEnd(s, i + 1, cls)
  }

  /** The greedy match of `([cls]+)` at position `i`: the longest non-empty run of
      `cls` characters starting there, or nothing when `s[i]` is not one of them. */
  function ClassRun(s: string, i: int, cls: char -> bool): (r: Option<string>)
    ensures r.Some? <==> 0 <= i < |s| && cls(s[i])
    ensures r.Some? ==> 0 < |r.value| && i + |r.value| <= |s| && r.value == s[i..i + |r.value|]
    ensures r.Some? ==> forall k :: 0 <= k < |r.value| ==> cls(r.value[k])
    ensures r.Some? ==> i + |r.value| == |s| || !cls(s[i + |r.value|])
  {
    if 0 <= i < |s| && cls(s[i]) then Some(s[i..RunEnd(s, i, cls)]) else None
  }

  /** The match of a single-character class `([cls])` at position `i`. */
  function CharAt(s: string, i: int, cls: char -> bool): (r: Option<string>)
    ensures r.Some? <==> 0 <= i < |s| && cls(s[i])
    ensures r.Some? ==> r.value == [s[i]]
  {
    if 0 <= i < |s| && cls(s[i]) then Some([s[i]]) else None
  }

  /** The regex search: the first position `pos >= from` at which `at` matches. */
  function Leftmost(s: string, at: (string, nat) -> Option<string>, from: nat): (r: Option<Match>)
    ensures r.Some? ==> from <= r.value.pos <= |s| && at(s, r.value.pos) == Some(r.value.group)
    ensures r.Some? ==> forall j :: from <= j < r.value.pos ==> at(s, j).None?
    ensures r.None? ==> forall j :: from <= j <= |s| ==> at(s, j).None?
    decreases |s| + 1 - from
  {
    if from > |s| then None
    else match at(s, from)
      case Some(g) => Some(Match(from, g))
      case None => Leftmost(s, at, from + 1)
  }

  function GroupOf(m: Option<Match>): Option<string> {
    match m
    case Some(x) => Some(x.group)
    case None => None
  }

  // ---------------------------------------------------------------------------
  // The patterns, one per line 78-83 of the form.

  /** `/^([^\s]+)/`: without the multiline flag `^` holds only at position 0. */
  function NameAt(s: string, i: nat): Option<string> {
    if i == 0 then ClassRun(s, 0, NotSpace) else None
  }

  /** `/$$([^)]+)$$/`: each `$` asserts the end of the input (no multiline flag), so
      the group would have to start where the input ends. */
  function SpeciesAt(s: string, i: nat): Option<string> {
    if i == |s| then
      match ClassRun(s, i, NotCloseParen)
      case Some(g) => if i + |g| == |s| then Some(g) else None
      case None => None
    else None
  }

  /** `/$$([MF])$$/`: the same end anchors around a single M or F. */
  function GenderAt(s: string, i: nat): Option<string> {
    if i == |s| then
      match CharAt(s, i, IsGenderLetter)
      case Some(g) => if i + 1 == |s| then Some(g) else None
      case None => None
    else None
  }

  /** `/Level: (\d+)/` */
  function LevelAt(s: string, i: nat): Option<string> {
    if LiteralAt(s, i, "Level: ") then ClassRun(s, i + 7, IsDigit) else None
  }

  /** `/Ability: ([^\n]+)/` */
  function AbilityAt(s: string, i: nat): Option<string> {
    if LiteralAt(s, i, "Ability: ") then ClassRun(s, i + 9, NotNewline) else None
  }

  /** `/([A-Za-z]+) Nature/`. Backtracking never finds a shorter letter run: the
      character after a shorter run is a letter, not the space " Nature" needs. */
  function NatureAt(s: string, i: nat): Option<string> {
    match ClassRun(s, i, IsAsciiLetter)
    case Some(g) => if LiteralAt(s, i + |g|, " Nature") then Some(g) else None
    case None => None
  }

  function NameMatch(s: string): Option<string> { GroupOf(Leftmost(s, NameAt, 0)) }
  function SpeciesMatch(s: string): Option<string> { GroupOf(Leftmost(s, SpeciesAt, 0)) }
  function GenderMatch(s: string): Option<string> { GroupOf(Leftmost(s, GenderAt, 0)) }
  function LevelMatch(s: string): Option<string> { GroupOf(Leftmost(s, LevelAt, 0)) }
  function AbilityMatch(s: string): Option<string> { GroupOf(Leftmost(s, AbilityAt, 0)) }
  function NatureMatch(s: string): Option<string> { GroupOf(Leftmost(s, NatureAt, 0)) }

  // ---------------------------------------------------------------------------
  // Number.parseInt on a run of decimal digits, and moves.

  predicate AllDigits(d: string) {
    forall k :: 0 <= k < |d| ==> IsDigit(d[k])
  }

  /** `Number.parseInt(d)` for a string of decimal digits. */
  function DecimalValue(d: string): nat
    requires AllDigits(d)
  {
    if d == [] then 0 else 10 * DecimalValue(d[..|d| - 1]) + (d[|d| - 1] - '0') as nat
  }

  /** The shortest decimal spelling of `n` (the inverse of `DecimalValue`). */
  function DecimalDigits(n: nat): (d: string)
    ensures AllDigits(d) && |d| > 0
  {
    if n < 10 then [('0' as int + n) as char]
    else DecimalDigits(n / 10) + [('0' as int + n % 10) as char]
  }

  /** `DecimalValue` reads back every number written by `DecimalDigits`. */
  lemma {:induction false} DecimalRoundTrip(n: nat)
    ensures DecimalValue(DecimalDigits(n)) == n
  {
    if n >= 10 {
      DecimalRoundTrip(n / 10);
      var d := DecimalDigits(n);
      assert d[..|d| - 1] == DecimalDigits(n / 10);
    }
  }

  /** `rawData.split("\n").slice(-4).join(", ")`: the last (at most) four lines. */
  function MovesText(s: string): string {
    var lines := Split(s, '\n');
    var keep := if |lines| < 4 then |lines| else 4;
    Join(lines[|lines| - keep..], ", ")
  }

  // ---------------------------------------------------------------------------
  // What each pattern extracts.

  /** The nickname is the maximal run of non-space characters at the very start of
      the text; a text that starts with white space (or is empty) yields nothing. */
  lemma NameMatchMeaning(s: string)
    ensures NameMatch(s).Some? <==> |s| > 0 && !IsJsSpace(s[0])
    ensures NameMatch(s).Some? ==>
      var g := NameMatch(s).value;
      0 < |g| <= |s| && g == s[..|g|] && (forall k :: 0 <= k < |g| ==> !IsJsSpace(g[k]))
      && (|g| == |s| || IsJsSpace(s[|g|]))
  {
    var m := Leftmost(s, NameAt, 0);
    if |s| > 0 && !IsJsSpace(s[0]) {
      assert NameAt(s, 0).Some?;
    }
    if m.Some? {
      assert m.value.pos == 0;
    }
  }

  /** The species pattern never matches, whatever the text. */
  lemma SpeciesNeverMatches(s: string)
    ensures SpeciesMatch(s) == None
  {
    var m := Leftmost(s, SpeciesAt, 0);
    if m.Some? {
      var r := ClassRun(s, |s|, NotCloseParen);
      assert r.None?;
    }
  }

  /** The gender pattern never matches, whatever the text. */
  lemma GenderNeverMatches(s: string)
    ensures GenderMatch(s) == None
  {
  }

  /** The level digits are the digit run right after the first "Level: " that is
      followed by a digit; no earlier "Level: " is followed by one. */
  lemma LevelMatchMeaning(s: string)
    ensures LevelMatch(s).None? <==>
      forall i :: 0 <= i <= |s| ==> !(LiteralAt(s, i, "Level: ") && i + 7 < |s| && IsDigit(s[i + 7]))
    ensures LevelMatch(s).Some? ==>
      exists i :: 0 <= i <= |s| && LiteralAt(s, i, "Level: ")
        && ClassRun(s, i + 7, IsDigit) == LevelMatch(s)
        && forall j :: 0 <= j < i ==> !(LiteralAt(s, j, "Level: ") && j + 7 < |s| && IsDigit(s[j + 7]))
  {
    var m := Leftmost(s, LevelAt, 0);
    if m.None? {
      forall i | 0 <= i <= |s|
        ensures !(LiteralAt(s, i, "Level: ") && i + 7 < |s| && IsDigit(s[i + 7]))
      {
        assert LevelAt(s, i).None?;
      }
    } else {
      var i := m.value.pos;
      assert LevelAt(s, i).Some?;
      forall j | 0 <= j < i
        ensures !(LiteralAt(s, j, "Level: ") && j + 7 < |s| && IsDigit(s[j + 7]))
      {
        assert LevelAt(s, j).None?;
      }
    }
  }

  /** A matched level is a non-empty string of digits, so `Number.parseInt` reads it. */
  lemma LevelMatchIsDigits(s: string)
    ensures LevelMatch(s).Some? ==> |LevelMatch(s).value| > 0 && AllDigits(LevelMatch(s).value)
  {
    var m := Leftmost(s, LevelAt, 0);
    if m.Some? {
      assert LevelAt(s, m.value.pos).Some?;
    }
  }

  /** The ability is the capture of `[^\n]+` (the rest of the line, see `ClassRun`)
      after the first "Ability: " that is followed by a character other than a
      newline; no earlier "Ability: " is followed by one. */
  lemma AbilityMatchMeaning(s: string)
    ensures AbilityMatch(s).None? <==>
      forall i :: 0 <= i <= |s| ==> !(LiteralAt(s, i, "Ability: ") && i + 9 < |s| && s[i + 9] != '\n')
    ensures AbilityMatch(s).Some? ==>
      exists i :: 0 <= i <= |s| && LiteralAt(s, i, "Ability: ")
        && ClassRun(s, i + 9, NotNewline) == AbilityMatch(s)
        && forall j :: 0 <= j < i ==> !(LiteralAt(s, j, "Ability: ") && j + 9 < |s| && s[j + 9] != '\n')
  {
    var m := Leftmost(s, AbilityAt, 0);
    if m.None? {
      forall i | 0 <= i <= |s|
        ensures !(LiteralAt(s, i, "Ability: ") && i + 9 < |s| && s[i + 9] != '\n')
      {
        assert AbilityAt(s, i).None?;
      }
    } else {
      var i := m.value.pos;
      assert AbilityAt(s, i).Some?;
      forall j | 0 <= j < i
        ensures !(LiteralAt(s, j, "Ability: ") && j + 9 < |s| && s[j + 9] != '\n')
      {
        assert AbilityAt(s, j).None?;
      }
    }
  }

  /** A letter of `s` ends at `e` and " Nature" follows it: the text has a
      nature label there. */
  predicate NatureLabelAt(s: string, e: int) {
    0 < e <= |s| && IsAsciiLetter(s[e - 1]) && LiteralAt(s, e, " Nature")
  }

  /** Some letter of `s` is directly followed by " Nature". */
  predicate HasNatureLabel(s: string) {
    exists e :: 0 < e <= |s| && NatureLabelAt(s, e)
  }

  /** `g` is the whole run of ASCII letters (no letter before it, none after it)
      that ends at the first nature label of `s`. */
  predicate FirstNatureRun(s: string, g: string) {
    exists i :: 0 <= i < |s| && ClassRun(s, i, IsAsciiLetter) == Some(g)
      && (i == 0 || !IsAsciiLetter(s[i - 1]))
      && NatureLabelAt(s, i + |g|)
      && forall e :: 0 < e < i + |g| ==> !NatureLabelAt(s, e)
  }

  /** The nature pattern matches exactly when the text has a nature label, and
      then it captures the letter run that ends at the first label. */
  lemma NatureMatchMeaning(s: string)
    ensures NatureMatch(s).None? <==> !HasNatureLabel(s)
    ensures NatureMatch(s).Some? ==> FirstNatureRun(s, NatureMatch(s).value)
  {
    if NatureMatch(s).Some? {
      var i, g := NatureFound(s);
      assert NatureLabelAt(s, i + |g|);
      assert FirstNatureRun(s, g);
    } else if HasNatureLabel(s) {
      var e :| 0 < e <= |s| && NatureLabelAt(s, e);
      NatureAtLabel(s, e);
      assert false;
    }
  }

  /** Where the leftmost nature match starts and what it captures. */
  lemma NatureFound(s: string) returns (i: nat, g: string)
    requires NatureMatch(s).Some?
    ensures g == NatureMatch(s).value
    ensures i < |s| && ClassRun(s, i, IsAsciiLetter) == Some(g)
    ensures i == 0 || !IsAsciiLetter(s[i - 1])
    ensures NatureLabelAt(s, i + |g|)
    ensures forall e :: 0 < e < i + |g| ==> !NatureLabelAt(s, e)
  {
    var m := Leftmost(s, NatureAt, 0).value;
    i, g := m.pos, m.group;
    assert NatureAt(s, i) == Some(g);
    assert ClassRun(s, i, IsAsciiLetter) == Some(g);
    if i > 0 && IsAsciiLetter(s[i - 1]) {
      NatureAtEarlier(s, i);
      assert false;
    }
    NoLabelBefore(s, i, g);
  }

  /** No nature label ends inside the letter run at `i` or before it when the
      pattern matches nowhere before `i`. */
  lemma NoLabelBefore(s: string, i: nat, g: string)
    requires ClassRun(s, i, IsAsciiLetter) == Some(g)
    requires forall j :: 0 <= j < i ==> NatureAt(s, j).None?
    ensures forall e :: 0 < e < i + |g| ==> !NatureLabelAt(s, e)
  {
    forall e | 0 < e < i + |g|
      ensures !NatureLabelAt(s, e)
    {
      if e - 1 < i {
        if NatureLabelAt(s, e) {
          NatureAtLabel(s, e);
          assert false;
        }
      } else {
        assert s[e] == g[e - i];
      }
    }
  }

  /** A nature label at `e` is already a match of the pattern at `e - 1`. */
  lemma NatureAtLabel(s: string, e: int)
    requires NatureLabelAt(s, e)
    ensures NatureAt(s, e - 1) == Some([s[e - 1]])
  {
    var r := ClassRun(s, e - 1, IsAsciiLetter).value;
    assert !IsAsciiLetter(s[e]);
    assert forall k :: 0 <= k < |r| ==> r[k] == s[e - 1 + k];
    assert r == s[e - 1..e] == [s[e - 1]];
  }

  /** The letter run starting one character earlier ends at the same place, so the
      nature pattern that matches at `i` already matches at `i - 1`. */
  lemma NatureAtEarlier(s: string, i: nat)
    requires 0 < i <= |s| && IsAsciiLetter(s[i - 1]) && NatureAt(s, i).Some?
    ensures NatureAt(s, i - 1) == NatureAt(s, i).(value := [s[i - 1]] + NatureAt(s, i).value)
  {
    var g := NatureAt(s, i).value;
    var g' := ClassRun(s, i - 1, IsAsciiLetter).value;
    assert g' == s[i - 1..i + |g|];
    assert g == ClassRun(s, i, IsAsciiLetter).value;
    assert g' == [s[i - 1]] + g;
  }

  /** The moves text of a single line is that line itself. */
  lemma MovesOfOneLine(s: string)
    requires '\n' !in s
    ensures MovesText(s) == s
  {
    JoinSplitRoundTrip(s, '\n');
    SplitLength(s, '\n');
    CountAbsent(s, '\n');
  }

  lemma {:induction false} CountAbsent(s: string, c: char)
    requires c !in s
    ensures Count(s, c) == 0
  {
    if s != [] {
      CountAbsent(s[1..], c);
    }
  }

  /** With at most four lines every line is kept: the moves text is the input
      with each newline replaced by ", ". */
  lemma MovesOfFewLines(s: string)
    requires Count(s, '\n') <= 3
    ensures MovesText(s) == ReplaceChar(s, '\n', ", ")
  {
    SplitLength(s, '\n');
    JoinSplit(s, '\n', ", ");
    var lines := Split(s, '\n');
    assert lines[0..] == lines;
  }

  /** With more lines, only the last four are kept: the moves text is the part
      after the fourth-last newline, with each remaining newline replaced by ", ". */
  lemma MovesKeepsLastLines(s: string, p: nat)
    requires p < |s| && s[p] == '\n' && Count(s[p + 1..], '\n') == 3
    ensures MovesText(s) == ReplaceChar(s[p + 1..], '\n', ", ")
  {
    var tail := s[p + 1..];
    SplitAt(s, '\n', p);
    SplitLength(tail, '\n');
    JoinSplit(tail, '\n', ", ");
    var lines := Split(s, '\n');
    assert lines[|lines| - 4..] == Split(tail, '\n');
  }
}
