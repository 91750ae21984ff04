/** Vocabulary shared by the whole model: optional values, error results, and the
    JavaScript string primitives the application relies on (white space, `trim`,
    `split` on one character, `join`). */
module Common {

  /** A value that may be absent: JavaScript's `undefined` or SQL `null`. */
  datatype Option<+T> = None | Some(value: T)

  /** The outcome of an operation that can throw: `Err` carries the thrown message. */
  datatype Result<+T> = Ok(value: T) | Err(message: string)

  /** The characters JavaScript treats as white space in `\s` and in `trim`:
      the WhiteSpace and LineTerminator productions of ECMA-262. */
  predicate IsJsSpace(c: char) {
    || c == '\t' || c == '\n' || c == '\U{000B}' || c == '\U{000C}' || c == '\r' || c == ' '
    || c == '\U{00A0}' || c == '\U{1680}' || ('\U{2000}' <= c <= '\U{200A}')
    || c == '\U{2028}' || c == '\U{2029}' || c == '\U{202F}' || c == '\U{205F}'
    || c == '\U{3000}' || c == '\U{FEFF}'
  }

  predicate AllSpace(s: string) {
    forall i :: 0 <= i < |s| ==> IsJsSpace(s[i])
  }

  /** Where the leading white space of `s` ends, searching from `i`. */
  function SpaceEnd(s: string, i: nat): (n: nat)
    requires i <= |s|
    ensures i <= n <= |s|
    ensures forall k :: i <= k < n ==> IsJsSpace(s[k])
    ensures n == |s| || !IsJsSpace(s[n])
    decreases |s| - i
  {
    if i == |s| || !IsJsSpace(s[i]) then i else SpaceEnd(s, i + 1)
  }

  /** Where the trailing white space of `s[..j]` starts, never going below `lo`. */
  function SpaceStart(s: string, lo: nat, j: nat): (m: nat)
    requires lo <= j <= |s|
    ensures lo <= m <= j
    ensures forall k :: m <= k < j ==> IsJsSpace(s[k])
    ensures m == lo || !IsJsSpace(s[m - 1])
  {
    if j == lo || !IsJsSpace(s[j - 1]) then j else SpaceStart(s, lo, j - 1)
  }

  /** `s.trim()`. The result is the middle of `s` with white space at neither end,
      and only white space was cut off on either side. */
  function Trim(s: string): (r: string)
    ensures exists a :: 0 <= a <= |s| - |r| && r == s[a..a + |r|] && AllSpace(s[..a]) && AllSpace(s[a + |r|..])
    ensures r == [] || (!IsJsSpace(r[0]) && !IsJsSpace(r[|r| - 1]))
  {
    var a := SpaceEnd(s, 0);
    var b := SpaceStart(s, a, |s|);
    assert AllSpace(s[..a]) && AllSpace(s[b..]) by {
      assert forall k :: 0 <= k < a ==> s[..a][k] == s[k];
      assert forall k :: 0 <= k < |s| - b ==> s[b..][k] == s[b + k];
    }
    assert b == a || !IsJsSpace(s[b - 1]);
    s[a..b]
  }

  /** A blank string holds nothing but white space (it may be empty). */
  predicate IsBlank(s: string) {
    AllSpace(s)
  }

  /** JavaScript's `!s.trim()` holds exactly of the blank strings: trimming
      leaves nothing exactly when every character is white space. */
  lemma BlankIffTrimEmpty(s: string)
    ensures IsBlank(s) <==> Trim(s) == ""
  {
  }

  /** Trimming an already trimmed string changes nothing. */
  lemma TrimIdempotent(s: string)
    ensures Trim(Trim(s)) == Trim(s)
  {
    var r := Trim(s);
    assert r[0..|r|] == r;
  }

  /** `s.split(sep)` for a one-character separator. */
  function Split(s: string, sep: char): (r: seq<string>)
    ensures |r| >= 1
    ensures forall k :: 0 <= k < |r| ==> sep !in r[k]
  {
    if s == [] then [""]
    else
      var rest := Split(s[1..], sep);
      if s[0] == sep then [""] + rest
      else [[s[0]] + rest[0]] + rest[1..]
  }

  /** `parts.join(sep)`. */
  function Join(parts: seq<string>, sep: string): string {
    if |parts| == 0 then ""
    else if |parts| == 1 then parts[0]
    else parts[0] + sep + Join(parts[1..], sep)
  }

  /** Number of occurrences of `c` in `s`. */
  function Count(s: string, c: char): nat {
    if s == [] then 0 else (if s[0] == c then 1 else 0) + Count(s[1..], c)
  }

  /** `s` with every `c` replaced by `rep`. */
  function ReplaceChar(s: string, c: char, rep: string): string {
    if s == [] then ""
    else (if s[0] == c then rep else [s[0]]) + ReplaceChar(s[1..], c, rep)
  }

  /** Splitting yields one piece more than there are separators. */
  lemma {:induction false} SplitLength(s: string, sep: char)
    ensures |Split(s, sep)| == Count(s, sep) + 1
  {
    if s != [] {
      SplitLength(s[1..], sep);
    }
  }

  /** Splitting at one separator splits the two sides independently. */
  lemma {:induction false} SplitAt(s: string, sep: char, p: nat)
    requires p < |s| && s[p] == sep
    ensures Split(s, sep) == Split(s[..p], sep) + Split(s[p + 1..], sep)
  {
    var t := s[1..];
    if p == 0 {
      assert s[..p] == [] && t == s[p + 1..];
      assert Split(s, sep) == [""] + Split(t, sep);
    } else {
      SplitAt(t, sep, p - 1);
      var head := s[..p];
      assert head[0] == s[0] && head[1..] == t[..p - 1];
      assert t[p..] == s[p + 1..];
      var inner := Split(t[..p - 1], sep);
      if s[0] == sep {
        assert Split(head, sep) == [""] + inner;
      } else {
        assert Split(head, sep) == [[s[0]] + inner[0]] + inner[1..];
      }
    }
  }

  /** Splitting on `sep` and joining with `rep` replaces each separator by `rep`;
      with `rep == [sep]` this is the round trip `join(split(s)) == s`. */
  lemma {:induction false} JoinSplit(s: string, sep: char, rep: string)
    ensures Join(Split(s, sep), rep) == ReplaceChar(s, sep, rep)
  {
    if s != [] {
      JoinSplit(s[1..], sep, rep);
      var rest := Split(s[1..], sep);
      if s[0] != sep {
        var r := Split(s, sep);
        assert r[0] == [s[0]] + rest[0] && r[1..] == rest[1..];
        if |rest| > 1 {
          assert Join(rest, rep) == rest[0] + rep + Join(rest[1..], rep);
        }
      }
    }
  }

  lemma ReplaceCharWithItself(s: string, c: char)
    ensures ReplaceChar(s, c, [c]) == s
  {
  }

  /** The round trip `split(s).join(sep) == s`. */
  lemma JoinSplitRoundTrip(s: string, sep: char)
    ensures Join(Split(s, sep), [sep]) == s
  {
    JoinSplit(s, sep, [sep]);
    ReplaceCharWithItself(s, sep);
  }
}
