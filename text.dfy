/**
 * The Python `str` operations the pipeline relies on, over `string` (= seq<char>):
 * strip, split, splitlines, int(), str(int), lower(), startswith/endswith,
 * removesuffix, `in` (substring), replace and rfind.
 */
module Text {
  import opened Wrappers

  // ---------------------------------------------------------------------------
  // Character classes
  // ---------------------------------------------------------------------------

  /** The characters Python's str.strip() and str.split() treat as whitespace. */
  predicate IsSpace(c: char) {
    || c == ' '
    || ('\t' <= c <= '\r')
    || ('\U{1c}' <= c <= '\U{1f}')
    || c == '\U{85}' || c == '\U{a0}' || c == '\U{1680}'
    || ('\U{2000}' <= c <= '\U{200a}')
    || c == '\U{2028}' || c == '\U{2029}' || c == '\U{202f}' || c == '\U{205f}' || c == '\U{3000}'
  }

  /** The characters at which Python's str.splitlines() breaks a line. */
  predicate IsLineBoundary(c: char) {
    || ('\n' <= c <= '\r')
    || ('\U{1c}' <= c <= '\U{1e}')
    || c == '\U{85}' || c == '\U{2028}' || c == '\U{2029}'
  }

  predicate IsDigit(c: char) { '0' <= c <= '9' }

  // ---------------------------------------------------------------------------
  // strip
  // ---------------------------------------------------------------------------

  /** str.lstrip(): the longest suffix that does not start with whitespace. */
  function TrimLeft(s: string): (r: string)
    ensures |r| <= |s| && r == s[|s| - |r|..]
    ensures r == [] || !IsSpace(r[0])
    ensures forall i :: 0 <= i < |s| - |r| ==> IsSpace(s[i])
  {
    if s != [] && IsSpace(s[0]) then TrimLeft(s[1..]) else s
  }

  /** str.rstrip(): the longest prefix that does not end with whitespace. */
  function TrimRight(s: string): (r: string)
    ensures |r| <= |s| && r == s[..|r|]
    ensures r == [] || !IsSpace(r[|r| - 1])
    ensures forall i :: |r| <= i < |s| ==> IsSpace(s[i])
  {
    if s != [] && IsSpace(s[|s| - 1]) then TrimRight(s[..|s| - 1]) else s
  }

  /** str.strip(): s without its leading and trailing whitespace. */
  function Strip(s: string): (r: string)
    ensures r == [] || (!IsSpace(r[0]) && !IsSpace(r[|r| - 1]))
    ensures Contains(s, r)
  {
    var t := TrimLeft(s);
    var r := TrimRight(t);
    assert OccursAt(s, r, |s| - |t|);
    r
  }

  /** Text that has no whitespace at either end is left alone by strip. */
  lemma StripNoOp(s: string)
    requires s == [] || (!IsSpace(s[0]) && !IsSpace(s[|s| - 1]))
    ensures Strip(s) == s
  {
  }

  /** Every line NonBlankLines returns is already stripped. */
  lemma NonBlankLinesStripped(s: string, k: nat)
    requires k < |NonBlankLines(s)|
    ensures Strip(NonBlankLines(s)[k]) == NonBlankLines(s)[k]
  {
    StrippedNonBlankStripped(SplitWhere(Strip(s), IsLineBoundary), k);
  }

  lemma StrippedNonBlankStripped(pieces: seq<string>, k: nat)
    requires k < |StrippedNonBlank(pieces)|
    ensures Strip(StrippedNonBlank(pieces)[k]) == StrippedNonBlank(pieces)[k]
  {
    var lines := StrippedNonBlank(pieces);
    assert lines[k] != [] && !IsSpace(lines[k][0]) && !IsSpace(lines[k][|lines[k]| - 1]);
    StripNoOp(lines[k]);
  }

  // ---------------------------------------------------------------------------
  // split, join, splitlines
  // ---------------------------------------------------------------------------

  /**
   * Cut s at every character satisfying isSep; the pieces keep empty strings
   * between adjacent separators, as Python's str.split(sep) does.
   */
  function SplitWhere(s: string, isSep: char -> bool): (parts: seq<string>)
    ensures |parts| >= 1
    ensures forall p <- parts :: forall c <- p :: !isSep(c)
  {
    if s == [] then [[]]
    else
      var rest := SplitWhere(s[1..], isSep);
      assert rest[0] in rest;
      if isSep(s[0]) then [[]] + rest
      else
        var first := [s[0]] + rest[0];
        assert forall c <- first :: c == s[0] || c in rest[0];
        assert forall p <- rest[1..] :: p in rest;
        [first] + rest[1..]
  }

  /** Python's str.split(sep) for a one-character separator. */
  function Split(s: string, sep: char): (parts: seq<string>)
    ensures |parts| >= 1
    ensures forall p <- parts :: sep !in p
  {
    var parts := SplitWhere(s, c => c == sep);
    assert forall p <- parts :: forall c <- p :: c != sep;
    parts
  }

  /** sep.join(parts). */
  function Join(parts: seq<string>, sep: string): string {
    if parts == [] then []
    else if |parts| == 1 then parts[0]
    else parts[0] + sep + Join(parts[1..], sep)
  }

  /** Drops the empty strings, keeping the order of the others. */
  function NonEmpty(parts: seq<string>): (r: seq<string>)
    ensures forall p <- r :: p != [] && p in parts
  {
    if parts == [] then []
    else (if parts[0] == [] then [] else [parts[0]]) + NonEmpty(parts[1..])
  }

  /** Python's str.split() without an argument: the maximal runs of non-whitespace. */
  function Words(s: string): (ws: seq<string>)
    ensures forall w <- ws :: w != [] && forall c <- w :: !IsSpace(c)
  {
    NonEmpty(SplitWhere(s, IsSpace))
  }

  /**
   * The lines of s that are not blank, each stripped: what
   * `[l.strip() for l in s.strip().splitlines() if l.strip()]` yields. Splitting at
   * every boundary character (so "\r\n" yields an extra empty piece) does not
   * change the result, because empty and blank pieces are dropped.
   */
  function NonBlankLines(s: string): (lines: seq<string>)
    ensures forall k :: 0 <= k < |lines| ==> lines[k] != [] && !IsSpace(lines[k][0]) && !IsSpace(lines[k][|lines[k]| - 1])
  {
    StrippedNonBlank(SplitWhere(Strip(s), IsLineBoundary))
  }

  function StrippedNonBlank(pieces: seq<string>): (lines: seq<string>)
    ensures forall k :: 0 <= k < |lines| ==> lines[k] != [] && !IsSpace(lines[k][0]) && !IsSpace(lines[k][|lines[k]| - 1])
  {
    if pieces == [] then []
    else
      var l := Strip(pieces[0]);
      var rest := StrippedNonBlank(pieces[1..]);
      if l == [] then rest else [l] + rest
  }

  /** Whitespace-only text strips to the empty string. */
  lemma StripBlank(s: string)
    requires forall c <- s :: IsSpace(c)
    ensures Strip(s) == []
  {
  }

  /** The one empty piece of an empty string holds no line. */
  lemma StrippedNonBlankEmpty()
    ensures StrippedNonBlank([[]]) == []
  {
    var pieces: seq<string> := [[]];
    StripBlank(pieces[0]);
    assert pieces[1..] == [];
  }

  /** Whitespace-only text has no non-blank line. */
  lemma NonBlankLinesBlank(s: string)
    requires forall c <- s :: IsSpace(c)
    ensures NonBlankLines(s) == []
  {
    StripBlank(s);
    assert SplitWhere(Strip(s), IsLineBoundary) == [[]];
    StrippedNonBlankEmpty();
  }

  /** A line with no boundary and no surrounding whitespace is its own only non-blank line. */
  lemma NonBlankLinesOne(s: string)
    requires s != [] && !IsSpace(s[0]) && !IsSpace(s[|s| - 1])
    requires forall c <- s :: !IsLineBoundary(c)
    ensures NonBlankLines(s) == [s]
  {
    StripNoOp(s);
    SplitWhereNone(s, IsLineBoundary);
    assert SplitWhere(Strip(s), IsLineBoundary) == [s];
    assert StrippedNonBlank([s][1..]) == [];
  }

  /** Two such lines separated by a line feed are the two non-blank lines. */
  lemma NonBlankLinesTwo(a: string, b: string)
    requires a != [] && !IsSpace(a[0]) && !IsSpace(a[|a| - 1])
    requires b != [] && !IsSpace(b[0]) && !IsSpace(b[|b| - 1])
    requires forall c <- a :: !IsLineBoundary(c)
    requires forall c <- b :: !IsLineBoundary(c)
    ensures NonBlankLines(a + "\n" + b) == [a, b]
  {
    var s := a + "\n" + b;
    assert s[0] == a[0] && s[|s| - 1] == b[|b| - 1];
    StripNoOp(s);
    SplitLinesTwo(a, b);
    StrippedNonBlankLines([a, b]);
  }

  /** Two boundary-free pieces joined by a line feed split back into the two. */
  lemma SplitLinesTwo(a: string, b: string)
    requires forall c <- a :: !IsLineBoundary(c)
    requires forall c <- b :: !IsLineBoundary(c)
    ensures SplitWhere(a + "\n" + b, IsLineBoundary) == [a, b]
  {
    SplitWhereConcat(a, '\n', b, IsLineBoundary);
    SplitWhereNone(a, IsLineBoundary);
    SplitWhereNone(b, IsLineBoundary);
  }

  /** A stripped, boundary-free first line followed by a line feed is the first non-blank line. */
  lemma NonBlankLinesFirst(first: string, rest: string)
    requires first != [] && !IsSpace(first[0]) && !IsSpace(first[|first| - 1])
    requires forall c <- first :: !IsLineBoundary(c)
    requires rest != [] && !IsSpace(rest[|rest| - 1])
    ensures var lines := NonBlankLines(first + "\n" + rest); lines != [] && lines[0] == first
  {
    var s := first + "\n" + rest;
    assert s[0] == first[0] && s[|s| - 1] == rest[|rest| - 1];
    StripNoOp(s);
    StripNoOp(first);
    SplitWhereConcat(first, '\n', rest, IsLineBoundary);
    SplitWhereNone(first, IsLineBoundary);
    var pieces := SplitWhere(s, IsLineBoundary);
    assert pieces[0] == first;
  }

  /** Pieces that are already stripped and non-empty pass through unchanged. */
  lemma {:induction false} StrippedNonBlankLines(pieces: seq<string>)
    requires forall k :: 0 <= k < |pieces| ==> pieces[k] != [] && !IsSpace(pieces[k][0]) && !IsSpace(pieces[k][|pieces[k]| - 1])
    ensures StrippedNonBlank(pieces) == pieces
  {
    if pieces != [] {
      StripNoOp(pieces[0]);
      StrippedNonBlankLines(pieces[1..]);
    }
  }

  /** A string with no separator is one piece. */
  lemma {:induction false} SplitWhereNone(s: string, isSep: char -> bool)
    requires forall c <- s :: !isSep(c)
    ensures SplitWhere(s, isSep) == [s]
  {
    if s != [] {
      SplitWhereNone(s[1..], isSep);
      assert [s[0]] + s[1..] == s;
    }
  }

  /** Splitting distributes over a separator: the pieces of a + [c] + b are those of a, then those of b. */
  lemma {:induction false} SplitWhereConcat(a: string, c: char, b: string, isSep: char -> bool)
    requires isSep(c)
    ensures SplitWhere(a + [c] + b, isSep) == SplitWhere(a, isSep) + SplitWhere(b, isSep)
  {
    if a == [] {
      assert a + [c] + b == [c] + b;
      assert ([c] + b)[1..] == b;
    } else {
      assert (a + [c] + b)[1..] == a[1..] + [c] + b;
      SplitWhereConcat(a[1..], c, b, isSep);
    }
  }

  lemma SplitNone(s: string, sep: char)
    requires sep !in s
    ensures Split(s, sep) == [s]
  {
    SplitWhereNone(s, c => c == sep);
  }

  lemma SplitConcat(a: string, sep: char, b: string)
    ensures Split(a + [sep] + b, sep) == Split(a, sep) + Split(b, sep)
  {
    SplitWhereConcat(a, sep, b, c => c == sep);
  }

  /** Three separator-free pieces joined by the separator split back into those three. */
  lemma SplitThree(a: string, b: string, c: string, sep: char)
    requires sep !in a && sep !in b && sep !in c
    ensures Split(a + [sep] + b + [sep] + c, sep) == [a, b, c]
  {
    assert a + [sep] + b + [sep] + c == a + [sep] + (b + [sep] + c);
    SplitConcat(a, sep, b + [sep] + c);
    SplitConcat(b, sep, c);
    SplitNone(a, sep);
    SplitNone(b, sep);
    SplitNone(c, sep);
  }

  lemma {:induction false} JoinCons(x: string, parts: seq<string>, sep: string)
    requires parts != []
    ensures Join([x + parts[0]] + parts[1..], sep) == x + Join(parts, sep)
  {
    var ps := [x + parts[0]] + parts[1..];
    if |parts| > 1 {
      assert ps[1..] == parts[1..];
    }
  }

  /** Joining the pieces of a split with its separator gives back the original string. */
  lemma {:induction false} SplitJoin(s: string, sep: char)
    ensures Join(Split(s, sep), [sep]) == s
  {
    if s != [] {
      var rest := Split(s[1..], sep);
      SplitJoin(s[1..], sep);
      if s[0] == sep {
        assert Split(s, sep) == [[]] + rest;
        assert ([[]] + rest)[1..] == rest;
      } else {
        assert Split(s, sep) == [[s[0]] + rest[0]] + rest[1..];
        JoinCons([s[0]], rest, [sep]);
      }
    }
  }

  // ---------------------------------------------------------------------------
  // int() and str() on integers
  // ---------------------------------------------------------------------------

  predicate IsDigits(s: string) {
    |s| > 0 && forall c <- s :: IsDigit(c)
  }

  function DigitsValue(s: string): nat
    requires forall c <- s :: IsDigit(c)
  {
    if s == [] then 0
    else
      assert s[|s| - 1] in s;
      assert IsDigit(s[|s| - 1]);
      DigitsValue(s[..|s| - 1]) * 10 + (s[|s| - 1] as int - '0' as int)
  }

  function DigitChar(d: nat): (c: char)
    requires d < 10
    ensures IsDigit(c) && c as int - '0' as int == d
  {
    ('0' as int + d) as char
  }

  /** str(n) for a natural number: its decimal digits, without leading zeros. */
  function NatToString(n: nat): (s: string)
    ensures IsDigits(s)
    ensures |s| > 1 ==> s[0] != '0'
  {
    if n < 10 then [DigitChar(n)] else NatToString(n / 10) + [DigitChar(n % 10)]
  }

  /** str(i) for any integer. */
  function IntToString(i: int): (s: string)
    ensures s != [] && !IsSpace(s[0]) && !IsSpace(s[|s| - 1])
  {
    var digits := NatToString(if i < 0 then -i else i);
    assert digits[0] in digits && digits[|digits| - 1] in digits;
    if i < 0 then "-" + digits else digits
  }

  /** str(i) is made of ASCII digits and, for a negative i, a leading minus sign. */
  lemma IntToStringChars(i: int)
    ensures forall c <- IntToString(i) :: c == '-' || IsDigit(c)
  {
    var digits := NatToString(if i < 0 then -i else i);
    assert forall c <- digits :: IsDigit(c);
  }

  /** An optionally signed run of ASCII digits. */
  predicate IsIntLiteral(t: string) {
    IsDigits(t) || (|t| > 1 && (t[0] == '-' || t[0] == '+') && IsDigits(t[1..]))
  }

  /** str(i) holds no separator that is neither a digit nor '-'. */
  lemma IntToStringLacks(i: int, sep: char)
    requires sep != '-' && !IsDigit(sep)
    ensures sep !in IntToString(i)
  {
    IntToStringChars(i);
  }

  /** Three integers written with a separator between them split back into their texts. */
  lemma SplitThreeInts(i: int, j: int, k: int, sep: char)
    requires sep != '-' && !IsDigit(sep)
    ensures Split(IntToString(i) + [sep] + IntToString(j) + [sep] + IntToString(k), sep)
         == [IntToString(i), IntToString(j), IntToString(k)]
  {
    IntToStringLacks(i, sep);
    IntToStringLacks(j, sep);
    IntToStringLacks(k, sep);
    SplitThree(IntToString(i), IntToString(j), IntToString(k), sep);
  }

  /**
   * Python's int(s): surrounding whitespace is ignored, then an optional sign and
   * at least one digit; anything else raises ValueError, here None.
   */
  function ParseInt(s: string): (r: Option<int>)
    ensures r.Some? <==> IsIntLiteral(Strip(s))
  {
    var t := Strip(s);
    if IsDigits(t) then Some(DigitsValue(t))
    else if |t| > 1 && (t[0] == '-' || t[0] == '+') && IsDigits(t[1..]) then
      var magnitude: int := DigitsValue(t[1..]);
      Some(if t[0] == '-' then -magnitude else magnitude)
    else None
  }

  lemma {:induction false} DigitsValueOfNatToString(n: nat)
    ensures DigitsValue(NatToString(n)) == n
  {
    if n >= 10 {
      var s := NatToString(n);
      DigitsValueOfNatToString(n / 10);
      assert s[..|s| - 1] == NatToString(n / 10);
    }
  }

  /** int(str(i)) == i. */
  lemma ParseIntOfIntToString(i: int)
    ensures ParseInt(IntToString(i)) == Some(i)
  {
    var s := IntToString(i);
    StripNoOp(s);
    if i < 0 {
      DigitsValueOfNatToString(-i);
      assert s[0] == '-' && s[0] in s;
      assert s[1..] == NatToString(-i);
    } else {
      DigitsValueOfNatToString(i);
    }
  }

  function Pow10(k: nat): (p: nat)
    ensures p >= 1
  {
    if k == 0 then 1 else 10 * Pow10(k - 1)
  }

  /** str(n) has at most k digits exactly when n < 10^k. */
  lemma {:induction false} NatToStringLengthBound(n: nat, k: nat)
    requires k >= 1
    ensures |NatToString(n)| <= k <==> n < Pow10(k)
  {
    if n >= 10 && k >= 2 {
      NatToStringLengthBound(n / 10, k - 1);
    }
    if k >= 2 {
      assert Pow10(k) >= 10 by { Pow10AtLeastTen(k); }
    }
  }

  lemma {:induction false} Pow10AtLeastTen(k: nat)
    requires k >= 1
    ensures Pow10(k) >= 10
  {
    if k > 1 { Pow10AtLeastTen(k - 1); }
  }

  /** The decimal rendering of a natural number is four characters long exactly for 1000..9999. */
  lemma NatToStringFourWide(n: nat)
    ensures |NatToString(n)| == 4 <==> 1000 <= n <= 9999
  {
    NatToStringLengthBound(n, 4);
    NatToStringLengthBound(n, 3);
    assert Pow10(3) == 1000 && Pow10(4) == 10000;
  }

  // ---------------------------------------------------------------------------
  // lower, startswith, endswith, removesuffix, substring, replace, rfind
  // ---------------------------------------------------------------------------

  function ToLowerChar(c: char): char {
    if 'A' <= c <= 'Z' then (c as int + 32) as char else c
  }

  /** str.lower() on ASCII letters; every other character is unchanged. */
  function ToLower(s: string): (r: string)
    ensures |r| == |s| && forall i :: 0 <= i < |s| ==> r[i] == ToLowerChar(s[i])
  {
    seq(|s|, i requires 0 <= i < |s| => ToLowerChar(s[i]))
  }

  predicate StartsWith(s: string, prefix: string) {
    |prefix| <= |s| && s[..|prefix|] == prefix
  }

  predicate EndsWith(s: string, suffix: string) {
    |suffix| <= |s| && s[|s| - |suffix|..] == suffix
  }

  /** str.removesuffix(suffix). */
  function RemoveSuffix(s: string, suffix: string): (r: string)
    ensures EndsWith(s, suffix) ==> r + suffix == s
    ensures !EndsWith(s, suffix) ==> r == s
  {
    if EndsWith(s, suffix) then s[..|s| - |suffix|] else s
  }

  /** `sub in s` for strings: sub occurs contiguously somewhere in s. */
  predicate Contains(s: string, sub: string) {
    exists i | 0 <= i <= |s| - |sub| :: OccursAt(s, sub, i)
  }

  /** sub occurs in s starting at index i. */
  predicate OccursAt(s: string, sub: string, i: int) {
    0 <= i <= |s| - |sub| && s[i..i + |sub|] == sub
  }

  /** What occurs in a suffix occurs in the whole string. */
  lemma ContainsOfSuffix(s: string, suffix: string, sub: string)
    requires EndsWith(s, suffix) && Contains(suffix, sub)
    ensures Contains(s, sub)
  {
    var k :| 0 <= k <= |suffix| - |sub| && OccursAt(suffix, sub, k);
    var off := |s| - |suffix|;
    assert s[off..] == suffix;
    assert s[off + k..off + k + |sub|] == suffix[k..k + |sub|];
    assert OccursAt(s, sub, off + k);
  }

  /** A string occurs inside any concatenation that has it in the middle. */
  lemma ContainsInfix(a: string, b: string, c: string)
    ensures Contains(a + b + c, b)
  {
    assert (a + b + c)[|a|..|a| + |b|] == b;
    assert OccursAt(a + b + c, b, |a|);
  }

  /** str.replace(pattern, replacement): every non-overlapping occurrence, scanned left to right. */
  function ReplaceAll(s: string, pattern: string, replacement: string): string
    requires pattern != []
    decreases |s|
  {
    if |s| < |pattern| then s
    else if s[..|pattern|] == pattern then replacement + ReplaceAll(s[|pattern|..], pattern, replacement)
    else [s[0]] + ReplaceAll(s[1..], pattern, replacement)
  }

  /** A prefix that holds no first character of the pattern is copied unchanged. */
  lemma {:induction false} ReplaceAllSkipsPrefix(a: string, b: string, pattern: string, replacement: string)
    requires pattern != [] && pattern[0] !in a
    ensures ReplaceAll(a + b, pattern, replacement) == a + ReplaceAll(b, pattern, replacement)
    decreases |a|
  {
    if a == [] {
      assert a + b == b;
    } else {
      var s := a + b;
      assert s[0] == a[0] && a[0] in a;
      ReplaceAllCopiesFirst(s, pattern, replacement);
      assert s[1..] == a[1..] + b;
      ReplaceAllSkipsPrefix(a[1..], b, pattern, replacement);
      assert [a[0]] + (a[1..] + ReplaceAll(b, pattern, replacement)) == a + ReplaceAll(b, pattern, replacement);
    }
  }

  /** A string that does not open with the pattern's first character keeps that character. */
  lemma ReplaceAllCopiesFirst(s: string, pattern: string, replacement: string)
    requires pattern != [] && s != [] && s[0] != pattern[0]
    ensures ReplaceAll(s, pattern, replacement) == [s[0]] + ReplaceAll(s[1..], pattern, replacement)
  {
    if |s| < |pattern| {
      ReplaceAllShort(s[1..], pattern, replacement);
      assert s == [s[0]] + s[1..];
    } else {
      assert s[..|pattern|][0] == s[0];
    }
  }

  lemma ReplaceAllShort(s: string, pattern: string, replacement: string)
    requires pattern != [] && |s| < |pattern|
    ensures ReplaceAll(s, pattern, replacement) == s
  {
  }

  /** An occurrence at the front is replaced and scanning resumes after it. */
  lemma ReplaceAllAtPattern(b: string, pattern: string, replacement: string)
    requires pattern != []
    ensures ReplaceAll(pattern + b, pattern, replacement) == replacement + ReplaceAll(b, pattern, replacement)
  {
    assert (pattern + b)[..|pattern|] == pattern;
    assert (pattern + b)[|pattern|..] == b;
  }

  lemma {:induction false} ReplaceAllAbsent(s: string, pattern: string, replacement: string)
    requires pattern != [] && !Contains(s, pattern)
    ensures ReplaceAll(s, pattern, replacement) == s
  {
    if |s| >= |pattern| {
      assert !OccursAt(s, pattern, 0);
      if !Contains(s[1..], pattern) {
        ReplaceAllAbsent(s[1..], pattern, replacement);
      } else {
        var t := s[1..];
        var i :| 0 <= i <= |t| - |pattern| && OccursAt(t, pattern, i);
        assert t[i..i + |pattern|] == s[i + 1..i + 1 + |pattern|];
        assert OccursAt(s, pattern, i + 1);
      }
    }
  }

  /** Replacing by a string of the same length keeps the length. */
  lemma {:induction false} ReplaceAllSameLength(s: string, pattern: string, replacement: string)
    requires pattern != [] && |replacement| == |pattern|
    ensures |ReplaceAll(s, pattern, replacement)| == |s|
  {
    if |s| >= |pattern| {
      if s[..|pattern|] == pattern {
        ReplaceAllSameLength(s[|pattern|..], pattern, replacement);
      } else {
        ReplaceAllSameLength(s[1..], pattern, replacement);
      }
    }
  }

  /** A character found neither in the string nor in the replacement is not in the result. */
  lemma {:induction false} ReplaceAllKeepsOut(s: string, pattern: string, replacement: string, c: char)
    requires pattern != [] && c !in s && c !in replacement
    ensures c !in ReplaceAll(s, pattern, replacement)
    decreases |s|
  {
    if |s| >= |pattern| {
      if s[..|pattern|] == pattern {
        assert forall k :: |pattern| <= k < |s| ==> s[k] in s;
        ReplaceAllKeepsOut(s[|pattern|..], pattern, replacement, c);
      } else {
        assert forall k :: 1 <= k < |s| ==> s[k] in s;
        ReplaceAllKeepsOut(s[1..], pattern, replacement, c);
      }
    }
  }

  /** str.rfind(c): the index of the last occurrence of c, or -1. */
  function RFind(s: string, c: char): (i: int)
    ensures -1 <= i < |s|
    ensures i >= 0 ==> s[i] == c
    ensures forall j :: i < j < |s| ==> s[j] != c
  {
    if s == [] then -1
    else if s[|s| - 1] == c then |s| - 1
    else RFind(s[..|s| - 1], c)
  }

  /** The last occurrence is the one after which c does not occur. */
  lemma RFindAt(s: string, c: char, i: int)
    requires -1 <= i < |s| && (i >= 0 ==> s[i] == c)
    requires forall j :: i < j < |s| ==> s[j] != c
    ensures RFind(s, c) == i
  {
  }
}
