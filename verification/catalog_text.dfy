/** The string and list utilities the catalogue loader normalizes names,
    keys, slugs and image URLs with. Case folding covers ASCII letters only. */
module CatalogText {
  import opened Text
  import opened Seqs

  /** Only plain spaces, never two whitespace characters in a row. */
  predicate Collapsed(s: string) {
    && (forall i :: 0 <= i < |s| && IsSpace(s[i]) ==> s[i] == ' ')
    && (forall i :: 1 <= i < |s| ==> !(IsSpace(s[i - 1]) && IsSpace(s[i])))
  }

  lemma ConsCollapsed(c: char, t: string)
    requires Collapsed(t)
    requires IsSpace(c) ==> c == ' ' && (|t| == 0 || !IsSpace(t[0]))
    ensures Collapsed([c] + t)
  {
    var s := [c] + t;
    forall i | 1 <= i < |s|
      ensures !(IsSpace(s[i - 1]) && IsSpace(s[i]))
    {
      if i > 1 { assert s[i - 1] == t[i - 2] && s[i] == t[i - 1]; }
    }
  }

  lemma CollapsedSlice(s: string, a: nat, b: nat)
    requires Collapsed(s) && a <= b <= |s|
    ensures Collapsed(s[a..b])
  {
    var t := s[a..b];
    assert forall i :: 0 <= i < |t| ==> t[i] == s[a + i];
    forall i | 1 <= i < |t|
      ensures !(IsSpace(t[i - 1]) && IsSpace(t[i]))
    {
      assert t[i - 1] == s[a + i - 1];
    }
  }

  /** `value.replace(/\s+/g, " ")`: every whitespace run becomes one space. */
  function CollapseSpaces(s: string): (r: string)
    ensures Collapsed(r)
    ensures |s| > 0 ==> |r| > 0 && (IsSpace(r[0]) <==> IsSpace(s[0]))
    decreases |s|
  {
    if |s| == 0 then ""
    else if IsSpace(s[0]) then
      var t := TrimStart(s);
      ConsCollapsed(' ', CollapseSpaces(t));
      " " + CollapseSpaces(t)
    else
      ConsCollapsed(s[0], CollapseSpaces(s[1..]));
      [s[0]] + CollapseSpaces(s[1..])
  }

  /** A collapsed string with no whitespace at either end. */
  predicate SpaceNormal(s: string) {
    Trimmed(s) && Collapsed(s)
  }

  /** `normalizeSpaces`: whitespace runs become single spaces, and the ends
      are trimmed. */
  function NormalizeSpaces(s: string): (r: string)
    ensures SpaceNormal(r)
  {
    var c := CollapseSpaces(s);
    TrimCollapsed(c);
    TrimEnd(TrimStart(c))
  }

  /** Trimming both ends of a collapsed string leaves it normal. */
  lemma TrimCollapsed(c: string)
    requires Collapsed(c)
    ensures SpaceNormal(TrimEnd(TrimStart(c)))
  {
    var a := TrimStart(c);
    var r := TrimEnd(a);
    CollapsedSlice(c, |c| - |a|, |c|);
    assert c[|c| - |a|..|c|] == a;
    CollapsedSlice(a, 0, |r|);
    assert a[0..|r|] == r;
    assert |r| > 0 ==> r[0] == a[0];
  }

  lemma {:induction false} CollapseOfCollapsed(s: string)
    requires Collapsed(s)
    ensures CollapseSpaces(s) == s
    decreases |s|
  {
    if |s| > 0 {
      if IsSpace(s[0]) {
        assert |s| == 1 || !IsSpace(s[1]);
        assert TrimStart(s) == s[1..];
        CollapseOfCollapsed(s[1..]);
      } else {
        CollapseOfCollapsed(s[1..]);
      }
    }
  }

  /** Normalizing an already normalized string changes nothing. */
  lemma NormalizeSpacesIdempotent(s: string)
    ensures NormalizeSpaces(NormalizeSpaces(s)) == NormalizeSpaces(s)
  {
    var r := NormalizeSpaces(s);
    CollapseOfCollapsed(r);
    assert TrimStart(r) == r;
    assert TrimEnd(r) == r;
  }

  /** Normalizing a string that is already normal changes nothing. */
  lemma NormalizeSpacesOfNormal(s: string)
    requires SpaceNormal(s)
    ensures NormalizeSpaces(s) == s
  {
    CollapseOfCollapsed(s);
    assert TrimStart(s) == s;
    assert TrimEnd(s) == s;
  }

  /** `words.join(" ")`. */
  function JoinSpaced(ws: seq<string>): string {
    if |ws| == 0 then "" else if |ws| == 1 then ws[0] else ws[0] + (" " + JoinSpaced(ws[1..]))
  }

  /** A run of non-whitespace characters passes through collapsing as is. */
  lemma {:induction false} CollapseWordPrefix(w: string, rest: string)
    requires NoSpace(w)
    ensures CollapseSpaces(w + rest) == w + CollapseSpaces(rest)
    decreases |w|
  {
    if |w| == 0 {
      assert w + rest == rest;
    } else {
      var tail := CollapseSpaces(rest);
      AppendHead(w, rest);
      AppendHead(w, tail);
      assert !IsSpace(w[0]);
      CollapseWordPrefix(w[1..], rest);
    }
  }

  /** Trailing whitespace is all `trimEnd` removes, so text in front of a
      part that keeps something is untouched. */
  lemma {:induction false} TrimEndAppend(a: string, x: string)
    requires |TrimEnd(x)| > 0
    ensures TrimEnd(a + x) == a + TrimEnd(x)
    decreases |x|
  {
    var s := a + x;
    if IsSpace(x[|x| - 1]) {
      var x' := x[..|x| - 1];
      assert s[..|s| - 1] == a + x';
      TrimEndAppend(a, x');
    } else {
      assert TrimEnd(x) == x;
    }
  }

  /** Leading whitespace does not change the words. */
  lemma WordsAfterTrim(s: string)
    ensures Words(TrimStart(s)) == Words(s)
  {
    var t := TrimStart(s);
    assert TrimStart(t) == t;
  }

  /** A lone word collapses and trims to itself, and is its only word. */
  lemma CoreOfWord(s: string)
    requires |s| > 0 && NoSpace(s)
    ensures TrimEnd(CollapseSpaces(s)) == JoinSpaced(Words(s))
  {
    WordsOfWordStart(s);
    SplitAtWord(s);
    assert TakeWord(s) == s;
    assert Words(s[|s|..]) == [];
    assert Words(s) == [s];
    CollapseWordPrefix(s, "");
    assert s + "" == s;
    assert !IsSpace(s[|s| - 1]);
  }

  /** A word followed only by whitespace collapses and trims to the word. */
  lemma CollapseWordThenBlank(w: string, rest: string)
    requires |w| > 0 && NoSpace(w)
    requires |rest| > 0 && IsSpace(rest[0]) && |TrimStart(rest)| == 0
    ensures TrimEnd(CollapseSpaces(w + rest)) == w
  {
    CollapseWordPrefix(w, rest);
    assert CollapseSpaces(rest) == " ";
    assert !IsSpace(w[|w| - 1]);
    assert (w + " ")[..|w|] == w;
  }

  /** A word followed only by whitespace is the string's only word. */
  lemma CoreOfWordThenBlank(s: string, w: string, rest: string)
    requires |s| > 0 && !IsSpace(s[0])
    requires w == TakeWord(s) && rest == s[|w|..]
    requires |rest| > 0 && |TrimStart(rest)| == 0
    ensures TrimEnd(CollapseSpaces(s)) == JoinSpaced(Words(s))
  {
    WordsOfWordStart(s);
    SplitAtWord(s);
    WordsAfterTrim(rest);
    assert Words(TrimStart(rest)) == [];
    assert Words(s) == [w];
    CollapseWordThenBlank(w, rest);
  }

  /** Text that starts with a non-whitespace character keeps something
      after `trimEnd`. */
  lemma TrimEndNonBlank(x: string)
    requires |x| > 0 && !IsSpace(x[0])
    ensures |TrimEnd(x)| > 0
  {
  }

  /** Trimming the end of a word, a space and text that starts with a
      non-whitespace character only trims that text. */
  lemma TrimEndJoin(w: string, x: string)
    requires |x| > 0 && !IsSpace(x[0])
    ensures TrimEnd(w + (" " + x)) == w + (" " + TrimEnd(x))
  {
    TrimEndNonBlank(x);
    TrimEndAppend(" ", x);
    TrimEndAppend(w, " " + x);
  }

  /** A word, whitespace and more text collapse to the word, one space,
      and the collapsed rest. */
  lemma CoreOfWordThenMore(w: string, rest: string)
    requires NoSpace(w)
    requires |rest| > 0 && IsSpace(rest[0]) && |TrimStart(rest)| > 0
    ensures TrimEnd(CollapseSpaces(w + rest))
            == w + (" " + TrimEnd(CollapseSpaces(TrimStart(rest))))
  {
    var x := CollapseSpaces(TrimStart(rest));
    CollapseWordPrefix(w, rest);
    assert CollapseSpaces(rest) == " " + x;
    TrimEndJoin(w, x);
  }

  /** Joining a word in front of a non-empty list of words. */
  lemma JoinSpacedCons(w: string, ws: seq<string>)
    requires |ws| > 0
    ensures JoinSpaced([w] + ws) == w + (" " + JoinSpaced(ws))
  {
    assert ([w] + ws)[1..] == ws;
  }

  /** The inductive step: a word, whitespace, and a rest for which the
      claim already holds. */
  lemma CoreStep(s: string, w: string, rest: string)
    requires |s| > 0 && !IsSpace(s[0])
    requires w == TakeWord(s) && rest == s[|w|..]
    requires |rest| > 0 && |TrimStart(rest)| > 0
    requires TrimEnd(CollapseSpaces(TrimStart(rest))) == JoinSpaced(Words(TrimStart(rest)))
    ensures TrimEnd(CollapseSpaces(s)) == JoinSpaced(Words(s))
  {
    var t := TrimStart(rest);
    WordsOfWordStart(s);
    SplitAtWord(s);
    WordsAfterTrim(rest);
    CoreOfWordThenMore(w, rest);
    WordsEmptyIff(t);
    assert !IsSpace(t[0]);
    JoinSpacedCons(w, Words(t));
  }

  /** For a string that starts with a word, collapsing and trimming the
      end gives its words joined by single spaces. */
  lemma {:induction false} CoreJoinsWords(s: string)
    requires |s| == 0 || !IsSpace(s[0])
    ensures TrimEnd(CollapseSpaces(s)) == JoinSpaced(Words(s))
    decreases |s|
  {
    if |s| > 0 {
      var w := TakeWord(s);
      var rest := s[|w|..];
      SplitAtWord(s);
      if |rest| == 0 {
        assert s == w;
        CoreOfWord(s);
      } else if |TrimStart(rest)| == 0 {
        CoreOfWordThenBlank(s, w, rest);
      } else {
        CoreJoinsWords(TrimStart(rest));
        CoreStep(s, w, rest);
      }
    }
  }

  /** `normalizeSpaces` gives the whitespace-separated words of its input
      joined by single spaces. */
  lemma NormalizeSpacesJoinsWords(s: string)
    ensures NormalizeSpaces(s) == JoinSpaced(Words(s))
  {
    var c := CollapseSpaces(s);
    if |s| > 0 && IsSpace(s[0]) {
      var t := TrimStart(s);
      assert c == " " + CollapseSpaces(t);
      assert TrimStart(c) == CollapseSpaces(t);
      CoreJoinsWords(t);
      WordsAfterTrim(s);
    } else {
      assert TrimStart(c) == c;
      CoreJoinsWords(s);
    }
  }

  /** `value.replace(/<pat>/g, "")` for a literal pattern: occurrences are
      removed left to right without rescanning what removal joins. */
  function RemoveAll(s: string, pat: string): (r: string)
    requires |pat| > 0
    ensures |r| <= |s|
    ensures forall i :: 0 <= i < |r| ==> r[i] in s
    decreases |s|
  {
    if |s| < |pat| then s
    else if pat <= s then RemoveAll(s[|pat|..], pat)
    else [s[0]] + RemoveAll(s[1..], pat)
  }

  lemma {:induction false} RemoveAllAbsent(s: string, pat: string)
    requires |pat| > 0 && pat[0] !in s
    ensures RemoveAll(s, pat) == s
    decreases |s|
  {
    if |s| >= |pat| {
      assert s[0] != pat[0];
      RemoveAllAbsent(s[1..], pat);
    }
  }

  const LocalLegendTag: string := "(local legend)"

  predicate AllLowerAlnum(s: string) {
    forall i :: 0 <= i < |s| ==> IsLowerAlnum(s[i])
  }

  /** `keyify`: the lower-cased text without the "(local legend)" tag and
      without anything but ASCII letters and digits. */
  function Keyify(s: string): (r: string)
    ensures AllLowerAlnum(r)
    ensures |r| <= |s|
  {
    var kept := Filter(RemoveAll(Lower(s), LocalLegendTag), IsLowerAlnum);
    TrimOfTrimmed(kept);
    Trim(kept)
  }

  /** A string of lower-case ASCII letters and digits has no whitespace at
      its ends, no upper-case letters and no parenthesis. */
  lemma LowerAlnumIsPlain(s: string)
    requires AllLowerAlnum(s)
    ensures Trimmed(s) && Lower(s) == s && '(' !in s
  {
    assert |s| == 0 || (IsLowerAlnum(s[0]) && IsLowerAlnum(s[|s| - 1]));
    LowerOfLowerAlnum(s);
  }

  /** A string of lower-case ASCII letters and digits is its own key. */
  lemma KeyifyOfKey(s: string)
    requires AllLowerAlnum(s)
    ensures Keyify(s) == s
  {
    LowerAlnumIsPlain(s);
    RemoveAllAbsent(s, LocalLegendTag);
    FilterAll(s, IsLowerAlnum);
    TrimOfTrimmed(s);
  }

  /** A key is its own key. */
  lemma KeyifyIdempotent(s: string)
    ensures Keyify(Keyify(s)) == Keyify(s)
  {
    KeyifyOfKey(Keyify(s));
  }

  /** Without an opening parenthesis there is no tag to remove: the key is
      the ASCII letters and digits of the lower-cased text, in order. */
  lemma KeyifyWithoutTag(s: string)
    requires '(' !in s
    ensures Keyify(s) == Filter(Lower(s), IsLowerAlnum)
  {
    var low := Lower(s);
    assert '(' !in low;
    RemoveAllAbsent(low, LocalLegendTag);
    var kept := Filter(low, IsLowerAlnum);
    TrimOfTrimmed(kept);
  }

  /** Removing a pattern that follows text in which it cannot start leaves
      that text. */
  lemma {:induction false} RemoveAllTrailing(a: string, pat: string)
    requires |pat| > 0 && pat[0] !in a
    ensures RemoveAll(a + pat, pat) == a
    decreases |a|
  {
    if |a| == 0 {
      assert a + pat == pat;
      assert pat[|pat|..] == "";
    } else {
      AppendHead(a, pat);
      assert a[0] != pat[0];
      RemoveAllTrailing(a[1..], pat);
      assert [a[0]] + a[1..] == a;
    }
  }

  /** A trailing "(local legend)" tag does not change the key, so a local
      legend and the boss it is named after share one key. */
  lemma KeyifyDropsTag(a: string)
    requires '(' !in a
    ensures Keyify(a + LocalLegendTag) == Keyify(a)
  {
    var low := Lower(a);
    LowerAppend(a, LocalLegendTag);
    assert Lower(LocalLegendTag) == LocalLegendTag;
    assert '(' !in low;
    RemoveAllTrailing(low, LocalLegendTag);
    RemoveAllAbsent(low, LocalLegendTag);
  }

  lemma LowerOfLowerAlnum(k: string)
    requires AllLowerAlnum(k)
    ensures Lower(k) == k
  {
  }

  /** Drops the leading run of characters other than ASCII letters and
      digits. */
  function SkipSeparators(s: string): (r: string)
    ensures |r| <= |s| && r == s[|s| - |r|..]
    ensures |r| == 0 || IsLowerAlnum(r[0])
    ensures |s| > 0 && !IsLowerAlnum(s[0]) ==> |r| < |s|
  {
    if |s| > 0 && !IsLowerAlnum(s[0]) then
      var t := s[1..];
      var r := SkipSeparators(t);
      assert t[|t| - |r|..] == s[|s| - |r|..];
      r
    else s
  }

  /** Everything `SkipSeparators` drops is a separator. */
  lemma {:induction false} SkipSeparatorsDrops(s: string)
    ensures forall i :: 0 <= i < |s| - |SkipSeparators(s)| ==> !IsLowerAlnum(s[i])
    decreases |s|
  {
    if |s| > 0 && !IsLowerAlnum(s[0]) {
      var t := s[1..];
      SkipSeparatorsDrops(t);
      assert forall i :: 1 <= i < |s| ==> s[i] == t[i - 1];
    }
  }

  predicate SlugChars(s: string) {
    forall i :: 0 <= i < |s| ==> IsLowerAlnum(s[i]) || s[i] == '-'
  }

  predicate NoDoubleDash(s: string) {
    forall i :: 1 <= i < |s| ==> !(s[i - 1] == '-' && s[i] == '-')
  }

  lemma ConsSlug(c: char, t: string)
    requires SlugChars(t) && NoDoubleDash(t)
    requires IsLowerAlnum(c) || c == '-'
    requires c == '-' ==> |t| == 0 || t[0] != '-'
    ensures SlugChars([c] + t) && NoDoubleDash([c] + t)
  {
    var s := [c] + t;
    assert forall i :: 1 <= i < |s| ==> s[i] == t[i - 1];
    forall i | 1 <= i < |s|
      ensures !(s[i - 1] == '-' && s[i] == '-')
    {
      if i > 1 { assert s[i - 1] == t[i - 2]; }
    }
  }

  lemma SlugSlice(s: string, a: nat, b: nat)
    requires SlugChars(s) && NoDoubleDash(s) && a <= b <= |s|
    ensures SlugChars(s[a..b]) && NoDoubleDash(s[a..b])
  {
    var t := s[a..b];
    assert forall i :: 0 <= i < |t| ==> t[i] == s[a + i];
    forall i | 1 <= i < |t|
      ensures !(t[i - 1] == '-' && t[i] == '-')
    {
      assert t[i - 1] == s[a + i - 1];
    }
  }

  /** `replace(/[^a-z0-9]+/g, "-")`. */
  function DashRuns(s: string): (r: string)
    ensures SlugChars(r) && NoDoubleDash(r)
    ensures |s| > 0 ==> |r| > 0 && (r[0] == '-' <==> !IsLowerAlnum(s[0]))
    decreases |s|
  {
    if |s| == 0 then ""
    else if !IsLowerAlnum(s[0]) then
      ConsSlug('-', DashRuns(SkipSeparators(s)));
      "-" + DashRuns(SkipSeparators(s))
    else
      ConsSlug(s[0], DashRuns(s[1..]));
      [s[0]] + DashRuns(s[1..])
  }

  function StripLeadingDashes(s: string): (r: string)
    ensures |r| <= |s| && r == s[|s| - |r|..]
    ensures |r| == 0 || r[0] != '-'
    ensures forall i :: 0 <= i < |s| - |r| ==> s[i] == '-'
  {
    if |s| > 0 && s[0] == '-' then StripLeadingDashes(s[1..]) else s
  }

  function StripTrailingDashes(s: string): (r: string)
    ensures |r| <= |s| && r == s[..|r|]
    ensures |r| == 0 || r[|r| - 1] != '-'
    ensures forall i :: |r| <= i < |s| ==> s[i] == '-'
  {
    if |s| > 0 && s[|s| - 1] == '-' then StripTrailingDashes(s[..|s| - 1]) else s
  }

  /** A URL slug: ASCII letters, digits and single inner dashes. */
  predicate IsSlug(s: string) {
    SlugChars(s) && NoDoubleDash(s) && (|s| == 0 || (s[0] != '-' && s[|s| - 1] != '-'))
  }

  /** Strips the dashes a separator run left at either end. */
  function StripDashes(d: string): (r: string)
    requires SlugChars(d) && NoDoubleDash(d)
    ensures IsSlug(r)
    ensures IsSlug(d) ==> r == d
  {
    var a := StripLeadingDashes(d);
    var r := StripTrailingDashes(a);
    SlugSlice(d, |d| - |a|, |d|);
    SlugSlice(a, 0, |r|);
    assert a[..|r|] == r;
    assert |r| > 0 ==> r[0] == a[0];
    r
  }

  /** `toSlug`. */
  function ToSlug(s: string): (r: string)
    ensures IsSlug(r)
  {
    StripDashes(DashRuns(Lower(s)))
  }

  lemma {:induction false} DashRunsOfSlugChars(s: string)
    requires SlugChars(s) && NoDoubleDash(s)
    ensures DashRuns(s) == s
    decreases |s|
  {
    if |s| > 0 {
      if !IsLowerAlnum(s[0]) {
        assert |s| == 1 || IsLowerAlnum(s[1]);
        assert SkipSeparators(s) == s[1..];
      }
      DashRunsOfSlugChars(s[1..]);
    }
  }

  /** A slug is its own slug. */
  lemma ToSlugOfSlug(s: string)
    requires IsSlug(s)
    ensures ToSlug(s) == s
  {
    assert Lower(s) == s;
    DashRunsOfSlugChars(s);
  }

  /** `toSlug` is idempotent. */
  lemma ToSlugIdempotent(s: string)
    ensures ToSlug(ToSlug(s)) == ToSlug(s)
  {
    ToSlugOfSlug(ToSlug(s));
  }

  /** Only separators are dropped from the front. */
  lemma SkipSeparatorsKeepsText(s: string)
    ensures Filter(SkipSeparators(s), IsLowerAlnum) == Filter(s, IsLowerAlnum)
  {
    var r := SkipSeparators(s);
    SkipSeparatorsDrops(s);
    FilterDropPrefix(s, |s| - |r|, IsLowerAlnum);
  }

  /** Replacing separator runs by dashes keeps every letter and digit, in
      order. */
  lemma {:induction false} DashRunsKeepsText(s: string)
    ensures Filter(DashRuns(s), IsLowerAlnum) == Filter(s, IsLowerAlnum)
    decreases |s|
  {
    if |s| > 0 {
      if !IsLowerAlnum(s[0]) {
        var t := SkipSeparators(s);
        DashRunsKeepsText(t);
        SkipSeparatorsKeepsText(s);
        assert ("-" + DashRuns(t))[1..] == DashRuns(t);
      } else {
        DashRunsKeepsText(s[1..]);
        assert ([s[0]] + DashRuns(s[1..]))[1..] == DashRuns(s[1..]);
      }
    }
  }

  /** Stripping the dashes at the ends keeps every letter and digit. */
  lemma StripDashesKeepsText(d: string)
    requires SlugChars(d) && NoDoubleDash(d)
    ensures Filter(StripDashes(d), IsLowerAlnum) == Filter(d, IsLowerAlnum)
  {
    var a := StripLeadingDashes(d);
    var r := StripTrailingDashes(a);
    FilterDropPrefix(d, |d| - |a|, IsLowerAlnum);
    FilterDropSuffix(a, |r|, IsLowerAlnum);
  }

  /** The slug holds exactly the letters and digits of the lower-cased
      text, in order. */
  lemma ToSlugKeepsText(s: string)
    ensures Filter(ToSlug(s), IsLowerAlnum) == Filter(Lower(s), IsLowerAlnum)
  {
    DashRunsKeepsText(Lower(s));
    StripDashesKeepsText(DashRuns(Lower(s)));
  }

  /** A run of letters and digits passes through `DashRuns` as is. */
  lemma {:induction false} DashRunsWordPrefix(w: string, rest: string)
    requires AllLowerAlnum(w)
    ensures DashRuns(w + rest) == w + DashRuns(rest)
    decreases |w|
  {
    if |w| == 0 {
      assert w + rest == rest;
    } else {
      AppendHead(w, rest);
      AppendHead(w, DashRuns(rest));
      assert IsLowerAlnum(w[0]);
      DashRunsWordPrefix(w[1..], rest);
    }
  }

  /** Skipping a separator run that ends where a letter or digit starts. */
  lemma {:induction false} SkipSeparatorsRun(sep: string, b: string)
    requires forall i :: 0 <= i < |sep| ==> !IsLowerAlnum(sep[i])
    requires |b| == 0 || IsLowerAlnum(b[0])
    ensures SkipSeparators(sep + b) == b
    decreases |sep|
  {
    if |sep| == 0 {
      assert sep + b == b;
    } else {
      AppendHead(sep, b);
      SkipSeparatorsRun(sep[1..], b);
    }
  }

  /** A whole separator run becomes a single dash. */
  lemma DashRunsSeparator(sep: string, b: string)
    requires |sep| > 0 && forall i :: 0 <= i < |sep| ==> !IsLowerAlnum(sep[i])
    requires |b| == 0 || IsLowerAlnum(b[0])
    ensures DashRuns(sep + b) == "-" + DashRuns(b)
  {
    AppendHead(sep, b);
    SkipSeparatorsRun(sep, b);
  }

  /** Lower-casing two words around a separator run only touches the
      separators. */
  lemma LowerAroundSeparator(a: string, sep: string, b: string)
    requires AllLowerAlnum(a) && AllLowerAlnum(b)
    ensures Lower(a + (sep + b)) == a + (Lower(sep) + b)
  {
    LowerAppend(a, sep + b);
    LowerAppend(sep, b);
    LowerOfLowerAlnum(a);
    LowerOfLowerAlnum(b);
  }

  /** Two words joined by one dash form a slug. */
  lemma DashJoinIsSlug(a: string, b: string)
    requires |a| > 0 && AllLowerAlnum(a) && |b| > 0 && AllLowerAlnum(b)
    ensures IsSlug(a + ("-" + b))
  {
    var joined := a + ("-" + b);
    assert forall i :: 0 <= i < |a| ==> joined[i] == a[i];
    assert joined[|a|] == '-';
    assert forall i :: |a| < i < |joined| ==> joined[i] == b[i - |a| - 1];
  }

  /** Two words with any separator run between them give the words joined
      by one dash. */
  lemma ToSlugJoinsWords(a: string, sep: string, b: string)
    requires |a| > 0 && AllLowerAlnum(a) && |b| > 0 && AllLowerAlnum(b)
    requires |sep| > 0 && forall i :: 0 <= i < |sep| ==> !IsLowerAlnum(LowerChar(sep[i]))
    ensures ToSlug(a + (sep + b)) == a + ("-" + b)
  {
    var low := Lower(sep);
    LowerAroundSeparator(a, sep, b);
    DashRunsWordPrefix(a, low + b);
    DashRunsSeparator(low, b);
    DashRunsOfSlugChars(b);
    DashJoinIsSlug(a, b);
  }

  /** `uniqueUrls`: the non-empty URLs, each once, in order of first
      appearance. */
  function UniqueUrls(list: seq<string>): (r: seq<string>)
    ensures NoDups(r)
    ensures forall i :: 0 <= i < |r| ==> r[i] != ""
    ensures forall u :: u in r <==> u in list && u != ""
    ensures forall i, j :: 0 <= i < j < |r| ==> IndexOf(list, r[i]) < IndexOf(list, r[j])
  {
    var nonEmpty := Filter(list, (u: string) => u != "");
    var r := Dedupe(nonEmpty);
    forall i, j | 0 <= i < j < |r|
      ensures IndexOf(list, r[i]) < IndexOf(list, r[j])
    {
      FilterKeepsOrder(list, (u: string) => u != "", r[i], r[j]);
    }
    r
  }
}
