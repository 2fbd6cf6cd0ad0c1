/** The parts of Python's `str` the checker relies on: prefix tests, `split`, `join`, `rsplit`-style
    last segments and `str(int)`. Strings are sequences of characters; no encoding is modelled. */
module Strings {
  import opened Wrappers
  import opened Seqs

  /** `s.startswith(prefix)`. */
  predicate StartsWith(s: string, prefix: string) {
    |prefix| <= |s| && s[..|prefix|] == prefix
  }

  /** `s.endswith(suffix)`. */
  predicate EndsWith(s: string, suffix: string) {
    |suffix| <= |s| && s[|s| - |suffix|..] == suffix
  }

  /** `sep` occurs in `s` starting at index `i`. */
  predicate OccursAt(s: string, sep: string, i: nat) {
    i + |sep| <= |s| && s[i..i + |sep|] == sep
  }

  /** `sep in s`. */
  predicate Contains(s: string, sep: string) {
    exists i :: 0 <= i <= |s| && OccursAt(s, sep, i)
  }

  /** `c not in s`, stated by index. */
  predicate NoChar(s: string, c: char) {
    forall k :: 0 <= k < |s| ==> s[k] != c
  }

  /** A prefix of a string without `c` has no `c`. */
  lemma NoCharPrefix(s: string, n: nat, c: char)
    requires n <= |s| && NoChar(s, c)
    ensures NoChar(s[..n], c)
  {
    forall k | 0 <= k < n
      ensures s[..n][k] != c
    {
      assert s[..n][k] == s[k];
    }
  }

  /** Two strings without `c` make a string without `c`. */
  lemma NoCharConcat(a: string, b: string, c: char)
    requires NoChar(a, c) && NoChar(b, c)
    ensures NoChar(a + b, c)
  {
    forall k | 0 <= k < |a + b|
      ensures (a + b)[k] != c
    {
      if k >= |a| {
        assert (a + b)[k] == b[k - |a|];
      }
    }
  }

  /** The index of the last `c` in `s`, or -1 when there is none (`s.rfind(c)`). */
  function LastIndex(s: string, c: char): (r: int)
    ensures -1 <= r < |s|
    ensures r >= 0 ==> s[r] == c
  {
    LastIndexBefore(s, c, |s|)
  }

  /** The index of the last `c` among the first `n` characters of `s`, or -1. */
  function LastIndexBefore(s: string, c: char, n: nat): (r: int)
    requires n <= |s|
    ensures -1 <= r < n
    ensures r >= 0 ==> s[r] == c
  {
    if n == 0 then -1
    else if s[n - 1] == c then n - 1
    else LastIndexBefore(s, c, n - 1)
  }

  /** No `c` follows the one LastIndexBefore finds among the first `n` characters. */
  lemma {:induction false} LastIndexBeforeIsLast(s: string, c: char, n: nat)
    requires n <= |s|
    ensures forall j :: LastIndexBefore(s, c, n) < j < n ==> s[j] != c
  {
    if n > 0 && s[n - 1] != c {
      LastIndexBeforeIsLast(s, c, n - 1);
    }
  }

  /** No `c` follows the last one. */
  lemma LastIndexIsLast(s: string, c: char)
    ensures forall j :: LastIndex(s, c) < j < |s| ==> s[j] != c
  {
    LastIndexBeforeIsLast(s, c, |s|);
  }

  /** The index of the first `c` in `s` at or after `from`, or `|s|` when there is none. */
  function FirstIndex(s: string, c: char, from: nat): (r: nat)
    requires from <= |s|
    ensures from <= r <= |s|
    ensures r < |s| ==> s[r] == c
    ensures forall j :: from <= j < r ==> s[j] != c
    decreases |s| - from
  {
    if from == |s| then from
    else if s[from] == c then from
    else FirstIndex(s, c, from + 1)
  }

  /** The three properties in LastIndex's contract determine its result. */
  lemma LastIndexUnique(s: string, c: char, r: int)
    requires -1 <= r < |s|
    requires r >= 0 ==> s[r] == c
    requires forall j :: r < j < |s| ==> s[j] != c
    ensures r == LastIndex(s, c)
  {
    LastIndexIsLast(s, c);
  }

  /** The text after the last `sep` in `s`, or all of `s` when `sep` does not occur:
      `s.split(sep)[-1]` for a one-character separator (see AfterLastIsLastPart). */
  function AfterLast(s: string, sep: char): (r: string)
    ensures |r| <= |s|
  {
    var i := LastIndex(s, sep);
    if i < 0 then s else s[i + 1..]
  }

  /** The text after the last separator holds no separator. */
  lemma AfterLastNoSep(s: string, sep: char)
    ensures NoChar(AfterLast(s, sep), sep)
  {
    LastIndexIsLast(s, sep);
    var r := AfterLast(s, sep);
    forall k | 0 <= k < |r|
      ensures r[k] != sep
    {
      assert r[k] == s[LastIndex(s, sep) + 1 + k];
    }
  }

  /** Past a `c` at index `i`, the last `c` sits `i + 1` places earlier. */
  lemma LastIndexAfter(s: string, c: char, i: nat)
    requires i < |s| && s[i] == c
    ensures LastIndex(s[i + 1..], c) == LastIndex(s, c) - i - 1
  {
    var last := LastIndex(s, c);
    LastIndexIsLast(s, c);
    assert last >= i;
    var tail := s[i + 1..];
    forall j | last - i - 1 < j < |tail|
      ensures tail[j] != c
    {
      assert tail[j] == s[i + 1 + j];
    }
    LastIndexUnique(tail, c, last - i - 1);
  }

  /** Whatever precedes a separator does not affect the text after the last one. */
  lemma AfterLastSkipsPrefix(s: string, sep: char, i: nat)
    requires i < |s| && s[i] == sep
    ensures AfterLast(s, sep) == AfterLast(s[i + 1..], sep)
  {
    LastIndexAfter(s, sep, i);
    DropDrop(s, i + 1, LastIndex(s, sep) - i);
  }

  /** Dropping `a` elements and then `b` more drops `a + b`. */
  lemma DropDrop(s: string, a: nat, b: nat)
    requires a + b <= |s|
    ensures s[a..][b..] == s[a + b..]
  {
  }

  /** A string without the separator is its own last segment. */
  lemma AfterLastWithoutSep(s: string, sep: char)
    requires NoChar(s, sep)
    ensures AfterLast(s, sep) == s
  {
    LastIndexUnique(s, sep, -1);
  }

  /** The leftmost occurrence of `sep` at or after `from` (`s.find(sep, from)`), or None for -1;
      FindFirstIsLeast states that no earlier occurrence is skipped. */
  function FindFirst(s: string, sep: string, from: nat): (r: Option<nat>)
    requires |sep| > 0
    ensures r.Some? ==> from <= r.value && OccursAt(s, sep, r.value)
    decreases |s| - from
  {
    if from + |sep| > |s| then None
    else if OccursAt(s, sep, from) then Some(from)
    else FindFirst(s, sep, from + 1)
  }

  /** Every occurrence at or after `from` is found, or one before it is. */
  lemma {:induction false} FindFirstIsLeast(s: string, sep: string, from: nat, j: nat)
    requires |sep| > 0 && from <= j && OccursAt(s, sep, j)
    ensures FindFirst(s, sep, from).Some? && FindFirst(s, sep, from).value <= j
    decreases j - from
  {
    if from < j && !OccursAt(s, sep, from) {
      FindFirstIsLeast(s, sep, from + 1, j);
    }
  }

  /** `s.split(sep)` for a non-empty separator: the pieces between non-overlapping occurrences
      found from the left. */
  function Split(s: string, sep: string): (parts: seq<string>)
    requires |sep| > 0
    ensures |parts| >= 1
    decreases |s|
  {
    var found := FindFirst(s, sep, 0);
    if found.None? then [s] else [s[..found.value]] + Split(s[found.value + |sep|..], sep)
  }

  /** `sep.join(parts)`. */
  function Join(parts: seq<string>, sep: string): string
    decreases |parts|
  {
    if |parts| == 0 then ""
    else if |parts| == 1 then parts[0]
    else parts[0] + sep + Join(parts[1..], sep)
  }

  /** No occurrence of `sep` in `a + sep` starts inside `a`: splitting `a + sep + rest` then cuts
      exactly after `a`. */
  predicate CleanBefore(a: string, sep: string) {
    forall j :: 0 <= j < |a| ==> !OccursAt(a + sep, sep, j)
  }

  /** A string that does not contain the separator is not split. */
  lemma SplitWithoutSep(s: string, sep: string)
    requires |sep| > 0 && !Contains(s, sep)
    ensures Split(s, sep) == [s]
  {
    match FindFirst(s, sep, 0)
    case None =>
    case Some(i) =>
      assert false;
  }

  /** A string that contains the separator splits into at least two parts. */
  lemma SplitWithSep(s: string, sep: string)
    requires |sep| > 0 && Contains(s, sep)
    ensures |Split(s, sep)| >= 2
  {
    var k: nat :| OccursAt(s, sep, k);
    FindFirstIsLeast(s, sep, 0, k);
  }

  /** Splitting `a + sep + rest` when the first separator is the one after `a`. */
  lemma SplitCons(a: string, sep: string, rest: string)
    requires |sep| > 0 && CleanBefore(a, sep)
    ensures Split(a + sep + rest, sep) == [a] + Split(rest, sep)
  {
    var s := a + sep + rest;
    assert OccursAt(s, sep, |a|) by {
      assert s[|a|..|a| + |sep|] == sep;
    }
    forall j | 0 <= j < |a|
      ensures !OccursAt(s, sep, j)
    {
      assert !OccursAt(a + sep, sep, j);
      assert s[j..j + |sep|] == (a + sep)[j..j + |sep|];
    }
    FindFirstIsLeast(s, sep, 0, |a|);
    var i := FindFirst(s, sep, 0).value;
    assert i == |a|;
    assert s[..i] == a;
    assert s[i + |sep|..] == rest;
  }

  /** When an occurrence of `sep` starts inside `a`, the first part of `a + sep + rest` is shorter
      than `a`. */
  lemma SplitCutsEarly(a: string, sep: string, rest: string)
    requires |sep| > 0 && !CleanBefore(a, sep)
    ensures |Split(a + sep + rest, sep)[0]| < |a|
  {
    var s := a + sep + rest;
    var j: nat :| j < |a| && OccursAt(a + sep, sep, j);
    assert s[j..j + |sep|] == (a + sep)[j..j + |sep|];
    FindFirstIsLeast(s, sep, 0, j);
  }

  /** With a one-character separator, a part is clean exactly when it does not hold that character. */
  lemma CleanBeforeChar(a: string, sep: string)
    requires |sep| == 1 && NoChar(a, sep[0])
    ensures CleanBefore(a, sep)
  {
    forall j: nat | j < |a|
      ensures !OccursAt(a + sep, sep, j)
    {
      assert (a + sep)[j..j + 1][0] == a[j];
    }
  }

  /** A one-character separator occurs only where its character does. */
  lemma NotContainsChar(s: string, sep: string)
    requires |sep| == 1 && NoChar(s, sep[0])
    ensures !Contains(s, sep)
  {
    forall i | 0 <= i <= |s|
      ensures !OccursAt(s, sep, i)
    {
      if i + 1 <= |s| {
        assert s[i..i + 1][0] == s[i];
      }
    }
  }

  /** Joining with a one-character separator that no part contains, then splitting on it,
      gives the parts back. */
  lemma {:induction false} SplitJoin(parts: seq<string>, sep: string)
    requires |sep| == 1 && |parts| >= 1
    requires forall k :: 0 <= k < |parts| ==> NoChar(parts[k], sep[0])
    ensures Split(Join(parts, sep), sep) == parts
    decreases |parts|
  {
    if |parts| == 1 {
      NotContainsChar(parts[0], sep);
      SplitWithoutSep(parts[0], sep);
    } else {
      CleanBeforeChar(parts[0], sep);
      SplitCons(parts[0], sep, Join(parts[1..], sep));
      SplitJoin(parts[1..], sep);
      assert parts == [parts[0]] + parts[1..];
    }
  }

  /** AfterLast is the last part of `s.split(sep)`, which is how the source computes a short name. */
  lemma {:induction false} AfterLastIsLastPart(s: string, sep: char)
    ensures AfterLast(s, sep) == Last(Split(s, [sep]))
    decreases |s|
  {
    if NoChar(s, sep) {
      AfterLastWithoutSep(s, sep);
      NotContainsChar(s, [sep]);
      SplitWithoutSep(s, [sep]);
    } else {
      var first := FirstIndex(s, sep, 0);
      var a, rest := s[..first], s[first + 1..];
      assert s == a + [sep] + rest;
      CleanBeforeChar(a, [sep]);
      SplitCons(a, [sep], rest);
      LastConcat([a], Split(rest, [sep]));
      AfterLastIsLastPart(rest, sep);
      AfterLastSkipsPrefix(s, sep, first);
    }
  }

  // Decimal rendering of integers (Python's `str(int)`).

  predicate IsDigit(c: char) {
    '0' <= c <= '9'
  }

  predicate AllDigits(s: string) {
    forall i :: 0 <= i < |s| ==> IsDigit(s[i])
  }

  function DigitChar(d: nat): (c: char)
    requires d < 10
    ensures IsDigit(c)
  {
    ('0' as int + d) as char
  }

  function DigitValue(c: char): (d: nat)
    requires IsDigit(c)
    ensures d < 10
  {
    c as int - '0' as int
  }

  /** `str(n)` for a non-negative integer: decimal digits without leading zeros. */
  function NatToDecimal(n: nat): (s: string)
    ensures |s| >= 1 && AllDigits(s)
    ensures s[0] == '0' <==> n == 0
    ensures n == 0 ==> s == "0"
    decreases n
  {
    if n < 10 then [DigitChar(n)] else NatToDecimal(n / 10) + [DigitChar(n % 10)]
  }

  /** The value of a string of decimal digits. */
  function DecimalValue(s: string): nat
    requires AllDigits(s)
    decreases |s|
  {
    if |s| == 0 then 0 else DecimalValue(s[..|s| - 1]) * 10 + DigitValue(s[|s| - 1])
  }

  lemma {:induction false} NatDecimalRoundTrip(n: nat)
    ensures DecimalValue(NatToDecimal(n)) == n
    decreases n
  {
    if n >= 10 {
      NatDecimalRoundTrip(n / 10);
      var s := NatToDecimal(n);
      assert s[..|s| - 1] == NatToDecimal(n / 10);
    }
  }

  /** `str(i)` for any integer: a minus sign before the digits of a negative value. */
  function IntToDecimal(i: int): string {
    if i < 0 then "-" + NatToDecimal(-i) else NatToDecimal(i)
  }

  /** Strings of the shape `str(int)` produces: digits, optionally after one minus sign. */
  predicate IsDecimalInt(s: string) {
    (|s| >= 1 && AllDigits(s)) || (|s| >= 2 && s[0] == '-' && AllDigits(s[1..]))
  }

  /** `int(s)` on a string of that shape. */
  function DecimalToInt(s: string): int
    requires IsDecimalInt(s)
  {
    if s[0] == '-' then -(DecimalValue(s[1..]) as int) else DecimalValue(s)
  }

  /** Rendering an integer and reading it back gives the integer. */
  lemma IntDecimalRoundTrip(i: int)
    ensures IsDecimalInt(IntToDecimal(i)) && DecimalToInt(IntToDecimal(i)) == i
  {
    if i < 0 {
      var digits := NatToDecimal(-i);
      var s := "-" + digits;
      assert IntToDecimal(i) == s;
      assert s[1..] == digits;
      NatDecimalRoundTrip(-i);
      assert IsDecimalInt(s);
      assert DecimalToInt(s) == -(DecimalValue(digits) as int);
    } else {
      var s := NatToDecimal(i);
      assert IsDigit(s[0]);
      assert DecimalToInt(s) == DecimalValue(s);
      NatDecimalRoundTrip(i);
    }
  }
}
