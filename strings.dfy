/**
 * The PHP string primitives the two components rely on, over byte strings modelled as
 * `string` (one character per byte): `str_starts_with`, `str_contains`, `str_replace`,
 * the decimal rendering of `(string) int`, and ASCII `strtolower`.
 *
 * `Split` and `Join` (PHP's `explode` and `implode`) are the reference definition that
 * `ReplaceAll` is proved against: replacing every occurrence of a separator is cutting the
 * string at the separator and gluing the pieces back with the replacement.
 */
module Strings {

  /** `str_starts_with(s, prefix)`. */
  predicate StartsWith(s: string, prefix: string)
  {
    |prefix| <= |s| && s[..|prefix|] == prefix
  }

  /** `str_contains(s, needle)`: some suffix of `s` starts with `needle`. */
  predicate Contains(s: string, needle: string)
    decreases |s|
  {
    StartsWith(s, needle) || (|s| > 0 && Contains(s[1..], needle))
  }

  /** The recursive scan agrees with the positional reading "needle occurs at some offset". */
  lemma {:induction false} ContainsIffOccursAt(s: string, needle: string)
    ensures Contains(s, needle) <==> exists i :: 0 <= i <= |s| && StartsWith(s[i..], needle)
    decreases |s|
  {
    if Contains(s, needle) {
      if StartsWith(s, needle) {
        assert s[0..] == s;
      } else {
        ContainsIffOccursAt(s[1..], needle);
        var i :| 0 <= i <= |s[1..]| && StartsWith(s[1..][i..], needle);
        assert s[1..][i..] == s[i + 1..];
      }
    }
    if exists i :: 0 <= i <= |s| && StartsWith(s[i..], needle) {
      var i :| 0 <= i <= |s| && StartsWith(s[i..], needle);
      if i == 0 {
        assert s[0..] == s;
      } else {
        assert s[1..][i - 1..] == s[i..];
        ContainsIffOccursAt(s[1..], needle);
      }
    }
  }

  lemma ContainsCons(c: char, s: string, needle: string)
    requires Contains(s, needle)
    ensures Contains([c] + s, needle)
  {
    assert ([c] + s)[1..] == s;
  }

  /**
   * `str_replace(search, replace, s)` for one search string: a left-to-right scan that
   * replaces every non-overlapping occurrence of `search` and resumes after it. An empty
   * search string leaves `s` unchanged, as PHP does.
   */
  function ReplaceAll(s: string, search: string, replace: string): string
    decreases |s|
  {
    if |search| == 0 || |s| == 0 then s
    else if StartsWith(s, search) then replace + ReplaceAll(s[|search|..], search, replace)
    else [s[0]] + ReplaceAll(s[1..], search, replace)
  }

  /** `explode(sep, s)`: the pieces of `s` between the non-overlapping occurrences of `sep`. */
  function Split(s: string, sep: string): (parts: seq<string>)
    requires |sep| > 0
    ensures |parts| >= 1
    decreases |s|
  {
    if |s| == 0 then [""]
    else if StartsWith(s, sep) then [""] + Split(s[|sep|..], sep)
    else
      var rest := Split(s[1..], sep);
      [[s[0]] + rest[0]] + rest[1..]
  }

  /** `implode(sep, parts)`. */
  function Join(parts: seq<string>, sep: string): string
    decreases |parts|
  {
    if |parts| == 0 then ""
    else if |parts| == 1 then parts[0]
    else parts[0] + sep + Join(parts[1..], sep)
  }

  /** Replacing every occurrence is cutting at the separator and gluing with the replacement. */
  lemma {:induction false} ReplaceAllIsJoinOfSplit(s: string, sep: string, replace: string)
    requires |sep| > 0
    ensures ReplaceAll(s, sep, replace) == Join(Split(s, sep), replace)
    decreases |s|
  {
    if |s| == 0 {
    } else if StartsWith(s, sep) {
      ReplaceAllIsJoinOfSplit(s[|sep|..], sep, replace);
      var rest := Split(s[|sep|..], sep);
      assert Split(s, sep) == [""] + rest;
      assert ([""] + rest)[1..] == rest;
    } else {
      ReplaceAllIsJoinOfSplit(s[1..], sep, replace);
      var rest := Split(s[1..], sep);
      var parts := [[s[0]] + rest[0]] + rest[1..];
      assert Split(s, sep) == parts;
      if |rest| == 1 {
        assert Join(parts, replace) == [s[0]] + rest[0];
      } else {
        assert parts[1..] == rest[1..];
        assert Join(parts, replace) == ([s[0]] + rest[0]) + replace + Join(rest[1..], replace);
        assert Join(rest, replace) == rest[0] + replace + Join(rest[1..], replace);
      }
    }
  }

  /** Replacing a string by itself changes nothing. */
  lemma {:induction false} ReplaceAllBySelf(s: string, sep: string)
    ensures ReplaceAll(s, sep, sep) == s
    decreases |s|
  {
    if |sep| == 0 || |s| == 0 {
    } else if StartsWith(s, sep) {
      ReplaceAllBySelf(s[|sep|..], sep);
      assert s == s[..|sep|] + s[|sep|..];
    } else {
      ReplaceAllBySelf(s[1..], sep);
      assert s == [s[0]] + s[1..];
    }
  }

  /** Gluing the pieces back with the separator gives the original string. */
  lemma JoinOfSplit(s: string, sep: string)
    requires |sep| > 0
    ensures Join(Split(s, sep), sep) == s
  {
    ReplaceAllIsJoinOfSplit(s, sep, sep);
    ReplaceAllBySelf(s, sep);
  }

  /** The first piece is a prefix of the string. */
  lemma {:induction false} SplitHeadIsPrefix(s: string, sep: string)
    requires |sep| > 0
    ensures StartsWith(s, Split(s, sep)[0])
    decreases |s|
  {
    if |s| == 0 {
    } else if StartsWith(s, sep) {
    } else {
      SplitHeadIsPrefix(s[1..], sep);
      var head := Split(s[1..], sep)[0];
      assert [s[0]] + head == s[..|head| + 1];
    }
  }

  /** No piece contains the separator. */
  lemma {:induction false} SplitPiecesAreFree(s: string, sep: string)
    requires |sep| > 0
    ensures forall k :: 0 <= k < |Split(s, sep)| ==> !Contains(Split(s, sep)[k], sep)
    decreases |s|
  {
    if |s| == 0 {
      assert Split(s, sep) == [""];
    } else if StartsWith(s, sep) {
      SplitPiecesAreFree(s[|sep|..], sep);
      var rest := Split(s[|sep|..], sep);
      assert Split(s, sep) == [""] + rest;
      assert !Contains("", sep);
    } else {
      SplitPiecesAreFree(s[1..], sep);
      SplitHeadIsPrefix(s[1..], sep);
      var rest := Split(s[1..], sep);
      var head := [s[0]] + rest[0];
      assert head[1..] == rest[0];
      assert head == s[..|head|];
      assert !Contains(head, sep);
      assert Split(s, sep) == [head] + rest[1..];
    }
  }

  /** There is more than one piece exactly when the separator occurs. */
  lemma {:induction false} SplitHasSeveralPiecesIffContains(s: string, sep: string)
    requires |sep| > 0
    ensures |Split(s, sep)| >= 2 <==> Contains(s, sep)
    decreases |s|
  {
    if |s| == 0 {
    } else if StartsWith(s, sep) {
    } else {
      SplitHasSeveralPiecesIffContains(s[1..], sep);
    }
  }

  /** A string without the search string is left as it is. */
  lemma ReplaceAllAbsent(s: string, search: string, replace: string)
    requires !Contains(s, search)
    ensures ReplaceAll(s, search, replace) == s
  {
    if |search| > 0 {
      SplitHasSeveralPiecesIffContains(s, search);
      ReplaceAllIsJoinOfSplit(s, search, replace);
      JoinOfSplit(s, search);
    }
  }

  /** Each occurrence is replaced, so the replacement appears wherever the search string did. */
  lemma {:induction false} ReplaceAllContainsReplacement(s: string, search: string, replace: string)
    requires |search| > 0 && Contains(s, search)
    ensures Contains(ReplaceAll(s, search, replace), replace)
    decreases |s|
  {
    if StartsWith(s, search) {
      var r := replace + ReplaceAll(s[|search|..], search, replace);
      assert r[..|replace|] == replace;
    } else {
      ReplaceAllContainsReplacement(s[1..], search, replace);
      ContainsCons(s[0], ReplaceAll(s[1..], search, replace), replace);
    }
  }

  /** A replacement at least as long as the search string never shortens the text. */
  lemma {:induction false} ReplaceAllNotShorter(s: string, search: string, replace: string)
    requires |replace| >= |search|
    ensures |ReplaceAll(s, search, replace)| >= |s|
    decreases |s|
  {
    if |search| == 0 || |s| == 0 {
    } else if StartsWith(s, search) {
      ReplaceAllNotShorter(s[|search|..], search, replace);
    } else {
      ReplaceAllNotShorter(s[1..], search, replace);
    }
  }

  /**
   * A text with one occurrence, and no earlier partial overlap with it: exactly that
   * occurrence is replaced and everything around it is kept.
   */
  lemma {:induction false} ReplaceAllSingleOccurrence(before: string, sep: string, after: string, replace: string)
    requires |sep| > 0
    requires !Contains(before + sep[..|sep| - 1], sep) && !Contains(after, sep)
    ensures ReplaceAll(before + sep + after, sep, replace) == before + replace + after
    decreases |before|
  {
    var s := before + sep + after;
    if |before| == 0 {
      assert s == sep + after;
      assert s[..|sep|] == sep;
      assert s[|sep|..] == after;
      ReplaceAllAbsent(after, sep, replace);
    } else {
      var early := before + sep[..|sep| - 1];
      assert s[..|sep|] == early[..|sep|];
      assert !StartsWith(s, sep);
      assert early[1..] == before[1..] + sep[..|sep| - 1];
      ReplaceAllSingleOccurrence(before[1..], sep, after, replace);
      assert s[1..] == before[1..] + sep + after;
      assert before + replace + after == [before[0]] + (before[1..] + replace + after);
    }
  }

  // ---- stepping a scan over a known text ----

  lemma MismatchAt(s: string, prefix: string, k: nat)
    requires k < |s| && k < |prefix| && s[k] != prefix[k]
    ensures !StartsWith(s, prefix)
  {
    if |prefix| <= |s| {
      assert s[..|prefix|][k] == s[k];
    }
  }

  /** A string contains any needle placed inside it. */
  lemma {:induction false} ContainsInfix(a: string, needle: string, b: string)
    ensures Contains(a + needle + b, needle)
    decreases |a|
  {
    if |a| == 0 {
      assert a + needle + b == needle + b;
      assert (needle + b)[..|needle|] == needle;
    } else {
      ContainsInfix(a[1..], needle, b);
      assert (a + needle + b)[1..] == a[1..] + needle + b;
    }
  }

  /** A run of text in which the needle cannot start does not affect `Contains`. */
  lemma {:induction false} ContainsSkipRun(a: string, b: string, needle: string)
    requires |needle| > 0 && needle[0] !in a
    ensures Contains(a + b, needle) == Contains(b, needle)
    decreases |a|
  {
    if |a| > 0 {
      assert (a + b)[1..] == a[1..] + b;
      ContainsSkipRun(a[1..], b, needle);
    } else {
      assert a + b == b;
    }
  }

  /**
   * A character `c` that starts the needle but is followed by a mismatch within `run`, with
   * no further `c` in `run`, does not affect `Contains` either.
   */
  lemma ContainsSkipFalseStart(c: char, run: string, rest: string, k: nat, needle: string)
    requires |needle| > 0 && needle[0] == c && c !in run
    requires 0 < k < |needle| && k <= |run| && run[k - 1] != needle[k]
    ensures Contains([c] + run + rest, needle) == Contains(rest, needle)
  {
    var s := [c] + run + rest;
    assert s[k] == run[k - 1];
    MismatchAt(s, needle, k);
    assert s[1..] == run + rest;
    ContainsSkipRun(run, rest, needle);
  }

  lemma {:induction false} ShortNotContains(s: string, needle: string)
    requires |s| < |needle|
    ensures !Contains(s, needle)
    decreases |s|
  {
    if |s| > 0 {
      ShortNotContains(s[1..], needle);
    }
  }

  // ---- last occurrence of a character: the last-`/` and last-`.` searches of `pathinfo` ----

  /** The index of the last `c` in `s`, or -1 when `s` holds no `c`. */
  function LastIndexOf(s: string, c: char): (i: int)
    ensures -1 <= i < |s|
    ensures i >= 0 ==> s[i] == c && c !in s[i + 1..]
    ensures i < 0 ==> c !in s
    decreases |s|
  {
    if |s| == 0 then -1
    else if s[|s| - 1] == c then |s| - 1
    else LastIndexOf(s[..|s| - 1], c)
  }

  /** A `c` followed by text free of `c` is the last one, wherever it stands. */
  lemma LastIndexOfMarked(a: string, c: char, b: string)
    requires c !in b
    ensures LastIndexOf(a + [c] + b, c) == |a|
  {
    var s := a + [c] + b;
    assert s[|a|] == c;
  }

  // ---- decimal rendering: `(string) $n` for a non-negative int ----

  predicate IsDigits(s: string)
  {
    forall i :: 0 <= i < |s| ==> '0' <= s[i] <= '9'
  }

  function DigitChar(d: nat): (c: char)
    requires d < 10
    ensures '0' <= c <= '9'
  {
    (48 + d) as char
  }

  function DigitsValue(s: string): nat
    requires IsDigits(s)
    decreases |s|
  {
    if |s| == 0 then 0 else 10 * DigitsValue(s[..|s| - 1]) + (s[|s| - 1] as int - 48)
  }

  /** The decimal digits of `n`: non-empty, all digits, and no leading zero unless `n` is 0. */
  function DecimalString(n: nat): (s: string)
    ensures |s| >= 1 && IsDigits(s)
    ensures s[0] == '0' ==> n == 0
    decreases n
  {
    if n < 10 then [DigitChar(n)] else DecimalString(n / 10) + [DigitChar(n % 10)]
  }

  /** Reading the digits back gives the number. */
  lemma {:induction false} DecimalRoundTrip(n: nat)
    ensures DigitsValue(DecimalString(n)) == n
    decreases n
  {
    var s := DecimalString(n);
    if n >= 10 {
      DecimalRoundTrip(n / 10);
      assert s[..|s| - 1] == DecimalString(n / 10);
    }
  }

  // ---- ASCII lower case: `strtolower` (locale-independent since PHP 8.2) ----

  function LowerChar(c: char): (r: char)
    ensures 'A' <= c <= 'Z' ==> r as int == c as int + 32
    ensures !('A' <= c <= 'Z') ==> r == c
  {
    if 'A' <= c <= 'Z' then (c as int + 32) as char else c
  }

  function Lower(s: string): (r: string)
    ensures |r| == |s|
    ensures forall i :: 0 <= i < |s| ==> r[i] == LowerChar(s[i])
    ensures forall i :: 0 <= i < |r| ==> !('A' <= r[i] <= 'Z')
  {
    seq(|s|, i requires 0 <= i < |s| => LowerChar(s[i]))
  }
}
