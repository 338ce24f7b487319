/**
 * The pieces of Python's `str` (and list slicing) that the modelled code relies on:
 * `strip`, `replace`, `in`, `startswith`, `join`, `split`, `splitlines`, `lower`,
 * `str(int)`, string ordering and slices with Python's clamping rules.
 */
module Strings {

  // ---------------------------------------------------------------------------
  // Character classes
  // ---------------------------------------------------------------------------

  /** Python's `str.isspace()` on one character: the characters `str.strip()` removes. */
  predicate IsSpace(c: char) {
    || c == ' ' || c == '\t' || c == '\n' || c == '\r'
    || c == '\U{0B}' || c == '\U{0C}'
    || ('\U{1C}' <= c <= '\U{1F}')
    || c == '\U{85}' || c == '\U{A0}' || c == '\U{1680}'
    || ('\U{2000}' <= c <= '\U{200A}')
    || c == '\U{2028}' || c == '\U{2029}' || c == '\U{202F}' || c == '\U{205F}' || c == '\U{3000}'
  }

  /** The character set of `strip(". ")`. */
  predicate IsDotOrSpace(c: char) {
    c == '.' || c == ' '
  }

  /** The characters at which Python's `str.splitlines()` ends a line. */
  predicate IsLineBreak(c: char) {
    || c == '\n' || c == '\r' || c == '\U{0B}' || c == '\U{0C}'
    || c == '\U{1C}' || c == '\U{1D}' || c == '\U{1E}'
    || c == '\U{85}' || c == '\U{2028}' || c == '\U{2029}'
  }

  // ---------------------------------------------------------------------------
  // strip
  // ---------------------------------------------------------------------------

  /** `s.lstrip(chars)` where `drop` says which characters belong to `chars`. */
  function LStrip(s: string, drop: char -> bool): (r: string)
    ensures |r| <= |s| && r == s[|s| - |r|..]
    ensures r == [] || !drop(r[0])
    ensures forall i | 0 <= i < |s| - |r| :: drop(s[i])
    decreases |s|
  {
    if s != [] && drop(s[0]) then LStrip(s[1..], drop) else s
  }

  /** `s.rstrip(chars)`. */
  function RStrip(s: string, drop: char -> bool): (r: string)
    ensures |r| <= |s| && r == s[..|r|]
    ensures r == [] || !drop(r[|r| - 1])
    ensures forall i | |r| <= i < |s| :: drop(s[i])
    decreases |s|
  {
    if s != [] && drop(s[|s| - 1]) then RStrip(s[..|s| - 1], drop) else s
  }

  /** `s.strip(chars)`: the longest middle part that neither starts nor ends with a dropped character. */
  function StripBy(s: string, drop: char -> bool): (r: string)
    ensures exists i, j | 0 <= i <= j <= |s| :: r == s[i..j]
    ensures r == [] || (!drop(r[0]) && !drop(r[|r| - 1]))
  {
    var l := LStrip(s, drop);
    var r := RStrip(l, drop);
    assert r == s[|s| - |l|..|s| - |l| + |r|];
    r
  }

  /** `s.strip()`. */
  function Strip(s: string): string {
    StripBy(s, IsSpace)
  }

  /** A string that neither starts nor ends with a dropped character is its own strip. */
  lemma StripByOfStripped(s: string, drop: char -> bool)
    requires s == [] || (!drop(s[0]) && !drop(s[|s| - 1]))
    ensures StripBy(s, drop) == s
  {
  }

  /** Stripping twice is stripping once. */
  lemma StripByIdempotent(s: string, drop: char -> bool)
    ensures StripBy(StripBy(s, drop), drop) == StripBy(s, drop)
  {
    StripByOfStripped(StripBy(s, drop), drop);
  }

  /** Stripping leaves nothing exactly when every character is dropped. */
  lemma StripByEmptyIff(s: string, drop: char -> bool)
    ensures StripBy(s, drop) == [] <==> forall k | 0 <= k < |s| :: drop(s[k])
  {
    var l := LStrip(s, drop);
    var n := |s| - |l|;
    var r := RStrip(l, drop);
    assert StripBy(s, drop) == r;
    assert forall k | n <= k < |s| :: l[k - n] == s[k];
    if forall k | 0 <= k < |s| :: drop(s[k]) {
      LStripOfDropped(s, drop);
    } else {
      var k :| 0 <= k < |s| && !drop(s[k]);
      assert n <= k;
      assert !drop(l[k - n]);
      assert k - n < |r|;
    }
  }

  lemma {:induction false} LStripOfDropped(s: string, drop: char -> bool)
    requires forall k | 0 <= k < |s| :: drop(s[k])
    ensures LStrip(s, drop) == []
    decreases |s|
  {
    if s != [] {
      assert forall k | 0 <= k < |s| - 1 :: s[1..][k] == s[k + 1];
      LStripOfDropped(s[1..], drop);
    }
  }

  /** A string whose first character is not dropped keeps that character first. */
  lemma {:induction false} StripByKeepsHead(s: string, drop: char -> bool)
    requires s != [] && !drop(s[0])
    ensures StripBy(s, drop) != [] && StripBy(s, drop)[0] == s[0]
  {
    assert LStrip(s, drop) == s;
    RStripKeepsHead(s, drop);
  }

  lemma {:induction false} RStripKeepsHead(s: string, drop: char -> bool)
    requires s != [] && !drop(s[0])
    ensures RStrip(s, drop) != [] && RStrip(s, drop)[0] == s[0]
    decreases |s|
  {
    if |s| > 1 && drop(s[|s| - 1]) {
      RStripKeepsHead(s[..|s| - 1], drop);
    }
  }

  // ---------------------------------------------------------------------------
  // Substrings: `in`, `replace`
  // ---------------------------------------------------------------------------

  /** Python's `pat in s` for strings. */
  predicate Contains(s: string, pat: string)
    decreases |s|
  {
    pat <= s || (s != [] && Contains(s[1..], pat))
  }

  lemma {:induction false} ContainsInRight(a: string, b: string, pat: string)
    requires Contains(b, pat)
    ensures Contains(a + b, pat)
    decreases |a|
  {
    if a == [] {
      assert a + b == b;
    } else {
      assert (a + b)[1..] == a[1..] + b;
      ContainsInRight(a[1..], b, pat);
    }
  }

  lemma {:induction false} ContainsInLeft(a: string, b: string, pat: string)
    requires Contains(a, pat)
    ensures Contains(a + b, pat)
    decreases |a|
  {
    if pat <= a {
      assert pat <= a + b;
    } else {
      assert (a + b)[1..] == a[1..] + b;
      ContainsInLeft(a[1..], b, pat);
    }
  }

  /** Every string contains each of its prefixes' prefixes: a shorter pattern is found whenever a longer one is. */
  lemma {:induction false} ContainsShorter(s: string, pat: string, short: string)
    requires short <= pat && Contains(s, pat)
    ensures Contains(s, short)
    decreases |s|
  {
    if !(pat <= s) {
      ContainsShorter(s[1..], pat, short);
    }
  }

  /**
   * Python's `s.replace(pat, rep)` for a non-empty pattern: occurrences are
   * replaced left to right and never overlap.
   */
  function Replace(s: string, pat: string, rep: string): string
    requires pat != []
    decreases |s|
  {
    if s == [] then []
    else if pat <= s then rep + Replace(s[|pat|..], pat, rep)
    else [s[0]] + Replace(s[1..], pat, rep)
  }

  /** Replacing a pattern that does not occur changes nothing. */
  lemma {:induction false} ReplaceAbsent(s: string, pat: string, rep: string)
    requires pat != [] && !Contains(s, pat)
    ensures Replace(s, pat, rep) == s
    decreases |s|
  {
    if s != [] {
      ReplaceAbsent(s[1..], pat, rep);
    }
  }

  /** The markdown code fence. */
  const Fence := "```"

  /** Removing fences keeps a first character that is not a backtick. */
  lemma RemoveFenceKeepsHead(s: string)
    requires s != [] && s[0] != '`'
    ensures Replace(s, Fence, "") != [] && Replace(s, Fence, "")[0] == s[0]
  {
  }

  /** Removing fences from a string that does not start with two backticks yields one that does not either. */
  lemma RemoveFenceNoDoubleHead(s: string)
    requires !("``" <= s)
    ensures !("``" <= Replace(s, Fence, ""))
  {
    if s != [] && s[0] == '`' && |s| > 1 {
      RemoveFenceKeepsHead(s[1..]);
    }
  }

  /** `s.replace("```", "")` leaves no fence behind: a removal never joins backticks into a new one. */
  lemma {:induction false} RemoveFenceLeavesNone(s: string)
    ensures !Contains(Replace(s, Fence, ""), Fence)
    decreases |s|
  {
    if s == [] {
    } else if Fence <= s {
      assert Replace(s, Fence, "") == "" + Replace(s[3..], Fence, "") == Replace(s[3..], Fence, "");
      RemoveFenceLeavesNone(s[3..]);
    } else {
      var t := Replace(s[1..], Fence, "");
      RemoveFenceLeavesNone(s[1..]);
      if s[0] == '`' {
        assert !("``" <= s[1..]);
        RemoveFenceNoDoubleHead(s[1..]);
      }
      assert ([s[0]] + t)[1..] == t;
    }
  }

  /** A part of a string contains only what the whole does. */
  lemma {:induction false} NotContainsSlice(s: string, i: nat, j: nat, pat: string)
    requires i <= j <= |s| && !Contains(s, pat)
    ensures !Contains(s[i..j], pat)
  {
    if Contains(s[i..j], pat) {
      assert s == s[..i] + (s[i..j] + s[j..]);
      ContainsInLeft(s[i..j], s[j..], pat);
      ContainsInRight(s[..i], s[i..j] + s[j..], pat);
      assert false;
    }
  }

  // ---------------------------------------------------------------------------
  // join, split, splitlines
  // ---------------------------------------------------------------------------

  /** Python's `sep.join(parts)`. */
  function Join(sep: string, parts: seq<string>): string
    decreases |parts|
  {
    if |parts| == 0 then ""
    else if |parts| == 1 then parts[0]
    else parts[0] + sep + Join(sep, parts[1..])
  }

  /** Appending one part to a non-empty list appends the separator and that part. */
  lemma {:induction false} JoinAppend(sep: string, parts: seq<string>, last: string)
    requires parts != []
    ensures Join(sep, parts + [last]) == Join(sep, parts) + sep + last
    decreases |parts|
  {
    if |parts| == 1 {
      assert (parts + [last])[1..] == [last];
    } else {
      assert (parts + [last])[1..] == parts[1..] + [last];
      JoinAppend(sep, parts[1..], last);
    }
  }

  /** A joined string contains every part, and so every prefix of a part. */
  lemma {:induction false} JoinContainsPart(sep: string, parts: seq<string>, k: nat, pat: string)
    requires k < |parts| && pat <= parts[k]
    ensures Contains(Join(sep, parts), pat)
    decreases |parts|
  {
    if |parts| == 1 {
      assert Contains(parts[0], pat);
    } else if k == 0 {
      assert Contains(parts[0], pat);
      ContainsInLeft(parts[0], sep + Join(sep, parts[1..]), pat);
      assert parts[0] + (sep + Join(sep, parts[1..])) == Join(sep, parts);
    } else {
      JoinContainsPart(sep, parts[1..], k - 1, pat);
      ContainsInRight(parts[0] + sep, Join(sep, parts[1..]), pat);
    }
  }

  /** Python's `s.split(sep)` for a non-empty separator: always at least one part. */
  function Split(s: string, sep: string): (parts: seq<string>)
    requires sep != []
    ensures |parts| >= 1
    decreases |s|
  {
    if s == [] then [""]
    else if sep <= s then [""] + Split(s[|sep|..], sep)
    else
      var rest := Split(s[1..], sep);
      [[s[0]] + rest[0]] + rest[1..]
  }

  lemma JoinCons(sep: string, first: string, rest: seq<string>)
    requires rest != []
    ensures Join(sep, [first] + rest) == first + sep + Join(sep, rest)
  {
    assert ([first] + rest)[1..] == rest;
  }

  /** Joining the parts of a split with the same separator gives back the string. */
  lemma {:induction false} SplitJoin(s: string, sep: string)
    requires sep != []
    ensures Join(sep, Split(s, sep)) == s
    decreases |s|
  {
    if s == [] {
    } else if sep <= s {
      SplitJoinAtSeparator(s, sep);
    } else {
      SplitJoinAtChar(s, sep);
    }
  }

  lemma {:induction false} SplitJoinAtSeparator(s: string, sep: string)
    requires sep != [] && s != [] && sep <= s
    ensures Join(sep, Split(s, sep)) == s
    decreases |s|, 0
  {
    var rest := Split(s[|sep|..], sep);
    SplitJoin(s[|sep|..], sep);
    JoinCons(sep, "", rest);
    assert s == sep + s[|sep|..];
  }

  lemma {:induction false} SplitJoinAtChar(s: string, sep: string)
    requires sep != [] && s != [] && !(sep <= s)
    ensures Join(sep, Split(s, sep)) == s
    decreases |s|, 0
  {
    SplitJoin(s[1..], sep);
    var rest := Split(s[1..], sep);
    var first := [s[0]] + rest[0];
    assert Split(s, sep) == [first] + rest[1..];
    assert s == [s[0]] + s[1..];
    if |rest| == 1 {
      assert [first] + rest[1..] == [first];
    } else {
      JoinOfExtendedHead(sep, s[0], rest);
    }
  }

  /** Putting a character in front of the first part puts it in front of the joined string. */
  lemma JoinOfExtendedHead(sep: string, c: char, parts: seq<string>)
    requires |parts| > 1
    ensures Join(sep, [[c] + parts[0]] + parts[1..]) == [c] + Join(sep, parts)
  {
    var tail := Join(sep, parts[1..]);
    JoinCons(sep, [c] + parts[0], parts[1..]);
    JoinCons(sep, parts[0], parts[1..]);
    assert parts == [parts[0]] + parts[1..];
    assert [c] + parts[0] + sep + tail == [c] + (parts[0] + sep + tail);
  }

  /** No occurrence of `sep` starts inside `x`, even one running into a following separator. */
  predicate SeparatorOnlyAfter(x: string, sep: string) {
    forall i | 0 <= i < |x| :: !(sep <= (x + sep)[i..])
  }

  /** Splitting `x + tail` when no separator starts inside `x` glues `x` onto the first part of `tail`. */
  lemma {:induction false} SplitGluedHead(x: string, tail: string, sep: string)
    requires sep != []
    requires forall i | 0 <= i < |x| :: !(sep <= (x + tail)[i..])
    ensures Split(x + tail, sep) == [x + Split(tail, sep)[0]] + Split(tail, sep)[1..]
    decreases |x|
  {
    if x == [] {
      var parts := Split(tail, sep);
      assert x + tail == tail;
      assert x + parts[0] == parts[0];
      assert [parts[0]] + parts[1..] == parts;
    } else {
      var s := x + tail;
      assert s[1..] == x[1..] + tail;
      forall i | 0 <= i < |x| - 1
        ensures !(sep <= (x[1..] + tail)[i..])
      {
        assert (x[1..] + tail)[i..] == s[i + 1..];
      }
      SplitGluedHead(x[1..], tail, sep);
      assert s[0..] == s;
      assert [s[0]] + (x[1..] + Split(tail, sep)[0]) == x + Split(tail, sep)[0];
    }
  }

  /** A split undoes a join whose parts let the separator appear only between them. */
  lemma {:induction false} SplitOfJoin(parts: seq<string>, sep: string)
    requires sep != [] && parts != []
    requires forall k | 0 <= k < |parts| - 1 :: SeparatorOnlyAfter(parts[k], sep)
    requires !Contains(parts[|parts| - 1], sep)
    ensures Split(Join(sep, parts), sep) == parts
    decreases |parts|
  {
    if |parts| == 1 {
      SplitOfLastPart(parts[0], sep);
    } else {
      var tail := parts[1..];
      forall k | 0 <= k < |tail| - 1
        ensures SeparatorOnlyAfter(tail[k], sep)
      {
        assert tail[k] == parts[k + 1];
      }
      SplitOfJoin(tail, sep);
      SplitOfJoinedHead(parts[0], Join(sep, tail), sep);
      assert Join(sep, parts) == parts[0] + sep + Join(sep, tail);
      assert parts == [parts[0]] + tail;
    }
  }

  /** A string without the separator splits into itself. */
  lemma SplitOfLastPart(x: string, sep: string)
    requires sep != [] && !Contains(x, sep)
    ensures Split(x, sep) == [x]
  {
    forall i | 0 <= i < |x|
      ensures !(sep <= (x + "")[i..])
    {
      assert x + "" == x;
      NoPrefixInsideAbsent(x, sep, i);
    }
    SplitGluedHead(x, "", sep);
    assert x + "" == x;
  }

  /** A pattern no longer than `a` is a prefix of `a + b` exactly when it is one of `a`. */
  lemma PrefixOfConcat(p: string, a: string, b: string)
    requires |p| <= |a|
    ensures p <= a + b <==> p <= a
  {
    assert (a + b)[..|p|] == a[..|p|];
  }

  /** Splitting `x + sep + rest`, when no separator starts inside `x`, gives `x` and then the parts of `rest`. */
  lemma SplitOfJoinedHead(x: string, rest: string, sep: string)
    requires sep != [] && SeparatorOnlyAfter(x, sep)
    ensures Split(x + sep + rest, sep) == [x] + Split(rest, sep)
  {
    var tail := sep + rest;
    forall i | 0 <= i < |x|
      ensures !(sep <= (x + tail)[i..])
    {
      assert (x + tail)[i..] == (x + sep)[i..] + rest;
      PrefixOfConcat(sep, (x + sep)[i..], rest);
    }
    SplitGluedHead(x, tail, sep);
    assert tail[|sep|..] == rest;
    assert Split(tail, sep) == [""] + Split(rest, sep);
    assert x + sep + rest == x + tail;
    assert x + "" == x;
  }

  lemma {:induction false} NoPrefixInsideAbsent(x: string, sep: string, i: nat)
    requires i < |x| && !Contains(x, sep)
    ensures !(sep <= x[i..])
    decreases i
  {
    if i > 0 {
      NoPrefixInsideAbsent(x[1..], sep, i - 1);
      assert x[1..][i - 1..] == x[i..];
    }
  }

  /** Python's `c in s` for a one-character pattern. */
  lemma {:induction false} ContainsCharIff(s: string, c: char)
    ensures Contains(s, [c]) <==> c in s
    decreases |s|
  {
    if s != [] {
      ContainsCharIff(s[1..], c);
      assert s == [s[0]] + s[1..];
    }
  }

  /** A one-character separator absent from every part can be split off again. */
  lemma SplitOfJoinAtChar(parts: seq<string>, c: char)
    requires parts != []
    requires forall k | 0 <= k < |parts| :: c !in parts[k]
    ensures Split(Join([c], parts), [c]) == parts
  {
    forall k | 0 <= k < |parts| - 1
      ensures SeparatorOnlyAfter(parts[k], [c])
    {
      forall i | 0 <= i < |parts[k]|
        ensures !([c] <= (parts[k] + [c])[i..])
      {
        assert (parts[k] + [c])[i..][0] == parts[k][i];
      }
    }
    ContainsCharIff(parts[|parts| - 1], c);
    SplitOfJoin(parts, [c]);
  }

  /** The index of the first line break at or after `from`, or `|s|` when there is none. */
  function LineEnd(s: string, from: nat): (i: nat)
    requires from <= |s|
    ensures from <= i <= |s|
    ensures forall k | from <= k < i :: !IsLineBreak(s[k])
    ensures i < |s| ==> IsLineBreak(s[i])
    decreases |s| - from
  {
    if from == |s| || IsLineBreak(s[from]) then from else LineEnd(s, from + 1)
  }

  /**
   * Python's `s.splitlines()`: lines without their terminators, `\r\n` counting
   * as one terminator, and no empty last line for a trailing terminator.
   */
  function SplitLines(s: string): seq<string>
    decreases |s|
  {
    if s == [] then []
    else
      var i := LineEnd(s, 0);
      if i == |s| then [s]
      else
        var next := if s[i] == '\r' && i + 1 < |s| && s[i + 1] == '\n' then i + 2 else i + 1;
        [s[..i]] + SplitLines(s[next..])
  }

  /** No line that `splitlines` returns holds a line break. */
  lemma {:induction false} SplitLinesHaveNoBreaks(s: string)
    ensures forall k, j | 0 <= k < |SplitLines(s)| && 0 <= j < |SplitLines(s)[k]| :: !IsLineBreak(SplitLines(s)[k][j])
    decreases |s|
  {
    if s != [] {
      var i := LineEnd(s, 0);
      if i < |s| {
        var next := if s[i] == '\r' && i + 1 < |s| && s[i + 1] == '\n' then i + 2 else i + 1;
        SplitLinesHaveNoBreaks(s[next..]);
      }
    }
  }

  // ---------------------------------------------------------------------------
  // Case, numbers
  // ---------------------------------------------------------------------------

  /** ASCII lower-casing. */
  function LowerAscii(s: string): (r: string)
    ensures |r| == |s|
    ensures forall i | 0 <= i < |s| :: r[i] == (if 'A' <= s[i] <= 'Z' then (s[i] as int + 32) as char else s[i])
  {
    seq(|s|, i requires 0 <= i < |s| => if 'A' <= s[i] <= 'Z' then (s[i] as int + 32) as char else s[i])
  }

  function DigitChar(d: nat): (c: char)
    requires d < 10
  {
    "0123456789"[d]
  }

  /** Python's `str(n)` for a natural number. */
  function NatToString(n: nat): (r: string)
    ensures r != [] && forall k | 0 <= k < |r| :: '0' <= r[k] <= '9'
    decreases n
  {
    if n < 10 then [DigitChar(n)] else NatToString(n / 10) + [DigitChar(n % 10)]
  }

  /** Python's `str(i)` for an integer. */
  function IntToString(i: int): string {
    if i < 0 then "-" + NatToString(-i) else NatToString(i)
  }

  /** The value of a string of decimal digits. */
  function DigitsValue(s: string): int
    decreases |s|
  {
    if s == [] then 0 else DigitsValue(s[..|s| - 1]) * 10 + (s[|s| - 1] as int - '0' as int)
  }

  /** `str(n)` can be read back: the decimal rendering determines the number. */
  lemma {:induction false} NatToStringReadsBack(n: nat)
    ensures DigitsValue(NatToString(n)) == n
    decreases n
  {
    if n >= 10 {
      NatToStringReadsBack(n / 10);
      var r := NatToString(n / 10) + [DigitChar(n % 10)];
      assert r[..|r| - 1] == NatToString(n / 10);
    }
  }

  // ---------------------------------------------------------------------------
  // Ordering: Python compares strings by code point, lexicographically
  // ---------------------------------------------------------------------------

  /** Python's `a < b` on strings. */
  predicate Below(a: string, b: string)
    decreases |a|
  {
    if a == [] then b != []
    else if b == [] then false
    else if a[0] == b[0] then Below(a[1..], b[1..])
    else a[0] < b[0]
  }

  lemma {:induction false} BelowIrreflexive(a: string)
    ensures !Below(a, a)
    decreases |a|
  {
    if a != [] {
      BelowIrreflexive(a[1..]);
    }
  }

  lemma {:induction false} BelowTransitive(a: string, b: string, c: string)
    requires Below(a, b) && Below(b, c)
    ensures Below(a, c)
    decreases |a|
  {
    if a != [] && a[0] == b[0] && b[0] == c[0] {
      BelowTransitive(a[1..], b[1..], c[1..]);
    }
  }

  lemma {:induction false} BelowTotal(a: string, b: string)
    ensures a == b || Below(a, b) || Below(b, a)
    decreases |a|
  {
    if a != [] && b != [] && a[0] == b[0] {
      BelowTotal(a[1..], b[1..]);
      if a[1..] == b[1..] {
        assert a == [a[0]] + a[1..] && b == [b[0]] + b[1..];
      }
    }
  }

  lemma {:induction false} BelowAsymmetric(a: string, b: string)
    requires Below(a, b)
    ensures !Below(b, a)
    decreases |a|
  {
    if a != [] && a[0] == b[0] {
      BelowAsymmetric(a[1..], b[1..]);
    }
  }

  /** Strictly increasing in Python's string order: what `sorted(set_of_strings)` returns. */
  predicate StrictlySorted(xs: seq<string>) {
    forall i, j | 0 <= i < j < |xs| :: Below(xs[i], xs[j])
  }

  /** Inserting a new string into a strictly sorted list at its place. */
  function InsertSorted(x: string, xs: seq<string>): (r: seq<string>)
    requires StrictlySorted(xs) && x !in xs
    ensures StrictlySorted(r)
    ensures forall y :: y in r <==> y == x || y in xs
    decreases |xs|
  {
    if xs == [] then [x]
    else if Below(x, xs[0]) then
      assert forall k | 0 < k < |xs| :: Below(x, xs[k]) by {
        forall k | 0 < k < |xs|
          ensures Below(x, xs[k])
        {
          BelowTransitive(x, xs[0], xs[k]);
        }
      }
      [x] + xs
    else
      BelowTotal(x, xs[0]);
      var rest := InsertSorted(x, xs[1..]);
      assert forall y | y in rest :: Below(xs[0], y) by {
        forall y | y in rest
          ensures Below(xs[0], y)
        {
          if y != x {
            var k :| 0 <= k < |xs[1..]| && xs[1..][k] == y;
            assert xs[k + 1] == y;
          }
        }
      }
      [xs[0]] + rest
  }

  /** Two strictly sorted lists with the same elements are equal: `sorted` of a set is determined. */
  lemma {:induction false} SortedUnique(a: seq<string>, b: seq<string>)
    requires StrictlySorted(a) && StrictlySorted(b)
    requires forall y :: y in a <==> y in b
    ensures a == b
    decreases |a|
  {
    assert a != [] ==> a[0] in b;
    assert b != [] ==> b[0] in a;
    if a != [] && b != [] {
      if a[0] != b[0] {
        var i :| 0 <= i < |b| && b[i] == a[0];
        var j :| 0 <= j < |a| && a[j] == b[0];
        assert Below(b[0], a[0]) && Below(a[0], b[0]);
        BelowAsymmetric(a[0], b[0]);
      }
      forall y
        ensures y in a[1..] <==> y in b[1..]
      {
        if y in a[1..] {
          var k :| 0 <= k < |a[1..]| && a[1..][k] == y;
          assert a[k + 1] == y && Below(a[0], y);
          BelowIrreflexive(y);
          assert y in b;
        }
        if y in b[1..] {
          var k :| 0 <= k < |b[1..]| && b[1..][k] == y;
          assert b[k + 1] == y && Below(b[0], y);
          BelowIrreflexive(y);
          assert y in a;
        }
      }
      SortedUnique(a[1..], b[1..]);
      assert a == [a[0]] + a[1..] && b == [b[0]] + b[1..];
    }
  }

  /** `m` is the least element of `s`. */
  predicate IsLeast(m: string, s: set<string>) {
    m in s && forall y | y in s && y != m :: Below(m, y)
  }

  /** Every finite non-empty set of strings has a least element. */
  lemma {:induction false} LeastExists(s: set<string>)
    requires s != {}
    ensures exists m :: IsLeast(m, s)
    decreases |s|
  {
    var x :| x in s;
    if s == {x} {
      assert IsLeast(x, s);
    } else {
      var rest := s - {x};
      LeastExists(rest);
      var m :| IsLeast(m, rest);
      BelowTotal(m, x);
      if Below(m, x) {
        forall y | y in s && y != m
          ensures Below(m, y)
        {
          if y != x {
            assert y in rest;
          }
        }
        assert IsLeast(m, s);
      } else {
        forall y | y in s && y != x
          ensures Below(x, y)
        {
          if y != m {
            assert y in rest;
            BelowTransitive(x, m, y);
          }
        }
        assert IsLeast(x, s);
      }
    }
  }

  /** Python's `sorted(s)` for a set of strings. */
  ghost function SortedOf(s: set<string>): (r: seq<string>)
    ensures StrictlySorted(r)
    ensures forall y :: y in r <==> y in s
    decreases |s|
  {
    if s == {} then []
    else
      LeastExists(s);
      var m :| IsLeast(m, s);
      var rest := SortedOf(s - {m});
      assert forall k | 0 <= k < |rest| :: rest[k] in s - {m};
      [m] + rest
  }

  // ---------------------------------------------------------------------------
  // Distinct elements, as the keys of a dict built from a list
  // ---------------------------------------------------------------------------

  /** The distinct elements of `xs`, each where it first occurs. */
  function Distinct<T(==, !new)>(xs: seq<T>): (r: seq<T>)
    ensures forall x :: x in r <==> x in xs
    ensures forall i, j | 0 <= i < j < |r| :: r[i] != r[j]
    decreases |xs|
  {
    if xs == [] then []
    else
      var init := xs[..|xs| - 1];
      assert xs == init + [xs[|xs| - 1]];
      var d := Distinct(init);
      if xs[|xs| - 1] in d then d else d + [xs[|xs| - 1]]
  }

  /** `x` occurs in `xs` before every occurrence of `y`. */
  predicate OccursBefore<T(==)>(xs: seq<T>, x: T, y: T) {
    exists a | 0 <= a < |xs| && xs[a] == x :: forall b | 0 <= b < |xs| && xs[b] == y :: a < b
  }

  /** The distinct elements keep the order of their first occurrences. */
  lemma {:induction false} DistinctKeepsFirstOccurrences<T(!new)>(xs: seq<T>)
    ensures forall i, j | 0 <= i < j < |Distinct(xs)| :: OccursBefore(xs, Distinct(xs)[i], Distinct(xs)[j])
    decreases |xs|
  {
    if xs != [] {
      var init := xs[..|xs| - 1];
      var last := xs[|xs| - 1];
      DistinctKeepsFirstOccurrences(init);
      var d := Distinct(init);
      var r := Distinct(xs);
      forall i, j | 0 <= i < j < |r|
        ensures OccursBefore(xs, r[i], r[j])
      {
        assert r[i] in d;
        if j < |d| {
          assert OccursBefore(init, d[i], d[j]);
          var a :| 0 <= a < |init| && init[a] == d[i] && forall b | 0 <= b < |init| && init[b] == d[j] :: a < b;
          assert xs[a] == r[i];
          forall b | 0 <= b < |xs| && xs[b] == r[j]
            ensures a < b
          {
            if b < |init| {
              assert init[b] == r[j];
            }
          }
        } else {
          assert r[j] == last && last !in init;
          var a :| 0 <= a < |init| && init[a] == r[i];
          assert xs[a] == r[i];
          assert forall b | 0 <= b < |init| :: init[b] != last;
          assert forall b | 0 <= b < |xs| && xs[b] == r[j] :: b == |init|;
        }
      }
    }
  }

  // ---------------------------------------------------------------------------
  // Python slices, which clamp out-of-range bounds instead of failing
  // ---------------------------------------------------------------------------

  /** `s[n:]` for `n >= 0`. */
  function DropFirst<T>(s: seq<T>, n: nat): (r: seq<T>)
    ensures |r| == if n <= |s| then |s| - n else 0
    ensures forall k | 0 <= k < |r| :: r[k] == s[n + k]
  {
    if n <= |s| then s[n..] else []
  }

  /** `s[:-n]` for `n > 0`. */
  function DropLast<T>(s: seq<T>, n: nat): (r: seq<T>)
    requires n > 0
    ensures |r| == if n <= |s| then |s| - n else 0
    ensures r <= s
  {
    if n <= |s| then s[..|s| - n] else []
  }

  /** `s[:k]` for any integer `k`: a negative `k` counts from the end. */
  function PrefixSlice<T>(s: seq<T>, k: int): (r: seq<T>)
    ensures r <= s
    ensures 0 <= k ==> |r| == if k <= |s| then k else |s|
    ensures k < 0 ==> |r| == if -k <= |s| then |s| + k else 0
  {
    if 0 <= k then (if k <= |s| then s[..k] else s)
    else if -k <= |s| then s[..|s| + k]
    else []
  }
}
