/** Character-level helpers shared by the filter engine and the catalogue
    normalizers: JavaScript's whitespace class, `trim`, ASCII case folding,
    substring search and UTF-16 length. */
module Text {

  /** ECMAScript WhiteSpace and LineTerminator code points: exactly the set
      matched by the regular-expression class `\s` and removed by `trim()`. */
  predicate IsSpace(c: char) {
    || c == ' ' || c == '\t' || c == '\n' || c == '\U{000B}' || c == '\U{000C}' || c == '\r'
    || c == '\U{00A0}' || c == '\U{1680}' || ('\U{2000}' <= c <= '\U{200A}')
    || c == '\U{2028}' || c == '\U{2029}' || c == '\U{202F}' || c == '\U{205F}'
    || c == '\U{3000}' || c == '\U{FEFF}'
  }

  predicate NoSpace(s: string) {
    forall i :: 0 <= i < |s| ==> !IsSpace(s[i])
  }

  /** `s.trimStart()`: drops the leading whitespace and nothing else. */
  function TrimStart(s: string): (r: string)
    ensures |r| <= |s| && r == s[|s| - |r|..]
    ensures forall i :: 0 <= i < |s| - |r| ==> IsSpace(s[i])
    ensures |r| == 0 || !IsSpace(r[0])
    ensures |s| > 0 && IsSpace(s[0]) ==> |r| < |s|
  {
    if |s| > 0 && IsSpace(s[0]) then
      var t := s[1..];
      var r := TrimStart(t);
      assert forall i :: 1 <= i < |s| - |r| ==> s[i] == t[i - 1];
      r
    else s
  }

  /** `s.trimEnd()`: drops the trailing whitespace and nothing else. */
  function TrimEnd(s: string): (r: string)
    ensures |r| <= |s| && r == s[..|r|]
    ensures forall i :: |r| <= i < |s| ==> IsSpace(s[i])
    ensures |r| == 0 || !IsSpace(r[|r| - 1])
  {
    if |s| > 0 && IsSpace(s[|s| - 1]) then TrimEnd(s[..|s| - 1]) else s
  }

  /** `s.trim()`. */
  function Trim(s: string): (r: string)
    ensures |r| == 0 || (!IsSpace(r[0]) && !IsSpace(r[|r| - 1]))
    ensures |r| <= |s|
  {
    var t := TrimStart(s);
    var r := TrimEnd(t);
    assert |r| > 0 ==> r[0] == t[0];
    r
  }

  /** A string that `trim()` leaves as it is. */
  predicate Trimmed(s: string) {
    |s| == 0 || (!IsSpace(s[0]) && !IsSpace(s[|s| - 1]))
  }

  lemma TrimOfTrimmed(s: string)
    requires Trimmed(s)
    ensures Trim(s) == s
  {
  }

  /** ASCII case folding; every other code point is left unchanged. */
  function LowerChar(c: char): char {
    if 'A' <= c <= 'Z' then (c as int + 32) as char else c
  }

  /** `s.toLowerCase()`, restricted to ASCII letters. */
  function Lower(s: string): (r: string)
    ensures |r| == |s|
    ensures forall i :: 0 <= i < |s| ==> r[i] == LowerChar(s[i])
  {
    seq(|s|, i requires 0 <= i < |s| => LowerChar(s[i]))
  }

  lemma LowerAppend(a: string, b: string)
    ensures Lower(a + b) == Lower(a) + Lower(b)
  {
  }

  predicate IsLowerAlnum(c: char) {
    ('a' <= c <= 'z') || ('0' <= c <= '9')
  }

  /** `hay.includes(needle)`. */
  predicate Contains(hay: string, needle: string)
    decreases |hay|
  {
    needle <= hay || (|hay| > 0 && Contains(hay[1..], needle))
  }

  lemma ContainsEmpty(hay: string)
    ensures Contains(hay, "")
  {
  }

  /** Length as JavaScript reports it: code points outside the Basic
      Multilingual Plane occupy two UTF-16 code units. */
  function Utf16Length(s: string): (n: nat)
    ensures |s| <= n <= 2 * |s|
  {
    if |s| == 0 then 0
    else (if s[0] as int >= 0x10000 then 2 else 1) + Utf16Length(s[1..])
  }

  /** The leading run of non-whitespace characters. */
  function TakeWord(s: string): (w: string)
    ensures w <= s && NoSpace(w)
    ensures |w| < |s| ==> IsSpace(s[|w|])
  {
    if |s| == 0 || IsSpace(s[0]) then [] else [s[0]] + TakeWord(s[1..])
  }

  /** `s.split(/\s+/).filter(Boolean)`: the maximal non-whitespace runs. */
  function Words(s: string): (ws: seq<string>)
    decreases |s|
  {
    var t := TrimStart(s);
    if |t| == 0 then []
    else
      var w := TakeWord(t);
      [w] + Words(t[|w|..])
  }

  /** `trimStart` leaves a string that starts with a word alone. */
  lemma TrimStartOfWordStart(s: string)
    requires |s| > 0 && !IsSpace(s[0])
    ensures TrimStart(s) == s
  {
  }

  /** The words of a string that starts with a word: that word, then the
      words of what follows it. */
  lemma WordsOfWordStart(s: string)
    requires |s| > 0 && !IsSpace(s[0])
    ensures Words(s) == [TakeWord(s)] + Words(s[|TakeWord(s)|..])
  {
    TrimStartOfWordStart(s);
  }

  /** A string that starts with a word is that word and what follows it. */
  lemma SplitAtWord(s: string)
    requires |s| > 0 && !IsSpace(s[0])
    ensures |TakeWord(s)| > 0
    ensures s == TakeWord(s) + s[|TakeWord(s)|..]
  {
  }

  /** There are no words exactly when the string is all whitespace. */
  lemma WordsEmptyIff(s: string)
    ensures |Words(s)| == 0 <==> (forall i :: 0 <= i < |s| ==> IsSpace(s[i]))
  {
    var t := TrimStart(s);
    if |t| > 0 {
      assert s[|s| - |t|] == t[0];
    }
  }

  /** A trimmed string has more than one word exactly when it contains a
      whitespace character somewhere. */
  lemma {:induction false} ManyWordsIffInnerSpace(s: string)
    requires Trimmed(s)
    ensures |Words(s)| > 1 <==> exists i :: 0 <= i < |s| && IsSpace(s[i])
  {
    if |s| == 0 {
      return;
    }
    assert TrimStart(s) == s;
    var w := TakeWord(s);
    var rest := s[|w|..];
    assert Words(s) == [w] + Words(rest);
    if |rest| == 0 {
      assert w == s;
      WordsEmptyIff(rest);
    } else {
      assert IsSpace(s[|w|]);
      assert rest[|rest| - 1] == s[|s| - 1];
      WordsEmptyIff(rest);
      assert !IsSpace(rest[|rest| - 1]);
    }
  }

  /** Decimal rendering of an integer, as template literals print it. */
  function IntToString(i: int): (r: string)
    ensures |r| > 0
  {
    if i < 0 then "-" + NatToString(-i) else NatToString(i)
  }

  function NatToString(n: nat): (r: string)
    ensures |r| > 0
    ensures forall k :: 0 <= k < |r| ==> '0' <= r[k] <= '9'
  {
    if n < 10 then [DigitChar(n)] else NatToString(n / 10) + [DigitChar(n % 10)]
  }

  function DigitChar(d: nat): (c: char)
    requires d < 10
    ensures '0' <= c <= '9'
  {
    ('0' as int + d) as char
  }
}
