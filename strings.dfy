/**
 * String helpers shared by the model: decimal formatting of integers
 * (C# `int.ToString()`), `String.Replace`, `String.LastIndexOf` and
 * separator joining. Strings are sequences of Dafny `char`s, which are
 * Unicode scalar values; C# strings are UTF-16 code units, so the two
 * differ only on characters outside the Basic Multilingual Plane.
 */
module Strings {

  predicate IsDigit(c: char) { '0' <= c <= '9' }

  function DigitChar(d: nat): (c: char)
    requires d < 10
    ensures IsDigit(c)
  {
    "0123456789"[d]
  }

  /** Decimal digits of `n`, most significant first, no leading zeros. */
  function NatToString(n: nat): (s: string)
    ensures |s| >= 1
    ensures forall i :: 0 <= i < |s| ==> IsDigit(s[i])
    ensures |s| == 1 <==> n < 10
  {
    if n < 10 then [DigitChar(n)] else NatToString(n / 10) + [DigitChar(n % 10)]
  }

  /** `int.ToString()` in the invariant culture: a leading '-' for negatives. */
  function IntToString(i: int): (s: string)
    ensures |s| >= 1
    ensures i >= 0 ==> forall k :: 0 <= k < |s| ==> IsDigit(s[k])
    ensures s[0] == '-' <==> i < 0
    ensures i < 0 ==> forall k :: 1 <= k < |s| ==> IsDigit(s[k])
  {
    if i < 0 then "-" + NatToString(-i) else NatToString(i)
  }

  lemma DigitCharInjective(a: nat, b: nat)
    requires a < 10 && b < 10 && DigitChar(a) == DigitChar(b)
    ensures a == b
  {
  }

  /** Two naturals with the same decimal representation are equal. */
  lemma {:induction false} NatToStringInjective(a: nat, b: nat)
    requires NatToString(a) == NatToString(b)
    ensures a == b
  {
    var s := NatToString(a);
    if a < 10 {
      DigitCharInjective(a, b);
    } else {
      assert NatToString(a / 10) == s[..|s| - 1] == NatToString(b / 10);
      NatToStringInjective(a / 10, b / 10);
      DigitCharInjective(a % 10, b % 10);
    }
  }

  /** Distinct integers format to distinct strings. */
  lemma IntToStringInjective(a: int, b: int)
    requires IntToString(a) == IntToString(b)
    ensures a == b
  {
    var s := IntToString(a);
    if a < 0 {
      assert NatToString(-a) == s[1..] == NatToString(-b);
      NatToStringInjective(-a, -b);
    } else {
      NatToStringInjective(a, b);
    }
  }

  /** The index of the first `c` in `s`, or `|s|` when there is none. */
  function IndexOf(s: string, c: char): (r: nat)
    ensures r <= |s|
    ensures forall j :: 0 <= j < r ==> s[j] != c
    ensures r < |s| ==> s[r] == c
  {
    if |s| == 0 then 0 else if s[0] == c then 0 else 1 + IndexOf(s[1..], c)
  }

  /** In `a + [c] + b` with no `c` in `a`, the first `c` is the one after `a`. */
  lemma {:induction false} IndexOfSplit(a: string, c: char, b: string)
    requires c !in a
    ensures IndexOf(a + [c] + b, c) == |a|
    decreases |a|
  {
    var s := a + [c] + b;
    if |a| > 0 {
      assert s[0] == a[0];
      assert s[1..] == a[1..] + [c] + b;
      IndexOfSplit(a[1..], c, b);
    }
  }

  /** Two strings with the same prefix and suffix around them are equal. */
  lemma CancelAround(x: string, m: string, m': string, z: string)
    requires x + m + z == x + m' + z
    ensures m == m'
  {
    var s := x + m + z;
    forall k | 0 <= k < |m| ensures m[k] == m'[k] {
      assert s[|x| + k] == m[k];
      assert s[|x| + k] == m'[k];
    }
  }

  /** Splitting at a separator absent from the first parts recovers both parts. */
  lemma SplitAtSeparator(a: string, b: string, a': string, b': string, c: char)
    requires c !in a && c !in a'
    requires a + [c] + b == a' + [c] + b'
    ensures a == a' && b == b'
  {
    var s := a + [c] + b;
    IndexOfSplit(a, c, b);
    IndexOfSplit(a', c, b');
    assert a == s[..|a|] && a' == s[..|a'|];
    assert b == s[|a| + 1..] && b' == s[|a'| + 1..];
  }

  /** A string without `c` contains no pattern that mentions `c`. */
  lemma AbsentCharNoMatch(s: string, pat: string, c: char)
    requires c in pat && c !in s
    ensures !Contains(s, pat)
  {
    var j :| 0 <= j < |pat| && pat[j] == c;
    forall k | 0 <= k <= |s|
      ensures !OccursAt(s, pat, k)
    {
      if k <= |s| - |pat| {
        assert s[k..k + |pat|][j] == s[k + j] != c;
      }
    }
  }

  predicate StartsWith(s: string, prefix: string) {
    |prefix| <= |s| && s[..|prefix|] == prefix
  }

  predicate EndsWith(s: string, suffix: string) {
    |suffix| <= |s| && s[|s| - |suffix|..] == suffix
  }

  /** True when `pat` occurs in `s` starting at index `k`. */
  predicate OccursAt(s: string, pat: string, k: int) {
    0 <= k <= |s| - |pat| && s[k..k + |pat|] == pat
  }

  /** True when `pat` occurs in `s` at some position. */
  predicate Contains(s: string, pat: string) {
    exists k :: 0 <= k <= |s| && OccursAt(s, pat, k)
  }

  /**
   * C# `String.Replace(pat, rep)`: scans left to right and replaces every
   * non-overlapping occurrence of `pat`. An empty `pat` makes C# throw, so
   * callers pass a non-empty one.
   */
  function ReplaceAll(s: string, pat: string, rep: string): string
    requires |pat| > 0
    decreases |s|
  {
    if |s| < |pat| then s
    else if s[..|pat|] == pat then rep + ReplaceAll(s[|pat|..], pat, rep)
    else [s[0]] + ReplaceAll(s[1..], pat, rep)
  }

  /** Every character of a replacement result comes from the input or from `rep`. */
  lemma {:induction false} ReplaceAllChars(s: string, pat: string, rep: string, c: char)
    requires |pat| > 0
    requires c in ReplaceAll(s, pat, rep)
    ensures c in s || c in rep
    decreases |s|
  {
    if |s| < |pat| {
    } else if s[..|pat|] == pat {
      if c !in rep {
        ReplaceAllChars(s[|pat|..], pat, rep, c);
      }
    } else {
      if c != s[0] {
        ReplaceAllChars(s[1..], pat, rep, c);
      }
    }
  }

  /** Replacing a one-character pattern by text that lacks it removes it entirely. */
  lemma {:induction false} ReplaceAllRemovesChar(s: string, c: char, rep: string)
    requires c !in rep
    ensures c !in ReplaceAll(s, [c], rep)
    decreases |s|
  {
    if |s| >= 1 {
      ReplaceAllRemovesChar(s[1..], c, rep);
      if s[..1] != [c] {
        assert s[0] != c;
      }
    }
  }

  /** Replacement never lengthens a string when `rep` is no longer than `pat`. */
  lemma {:induction false} ReplaceAllShrinks(s: string, pat: string, rep: string)
    requires |pat| > 0 && |rep| <= |pat|
    ensures |ReplaceAll(s, pat, rep)| <= |s|
    decreases |s|
  {
    if |s| < |pat| {
    } else if s[..|pat|] == pat {
      ReplaceAllShrinks(s[|pat|..], pat, rep);
    } else {
      ReplaceAllShrinks(s[1..], pat, rep);
    }
  }

  /** A one-character pattern that does not occur leaves the string unchanged. */
  lemma {:induction false} ReplaceAllAbsentChar(s: string, c: char, rep: string)
    requires c !in s
    ensures ReplaceAll(s, [c], rep) == s
    decreases |s|
  {
    if |s| >= 1 {
      assert s[..1] != [c] by { assert s[0] != c; }
      ReplaceAllAbsentChar(s[1..], c, rep);
      assert [s[0]] + s[1..] == s;
    }
  }

  /** A pattern that does not occur anywhere leaves the string unchanged. */
  lemma {:induction false} ReplaceAllAbsent(s: string, pat: string, rep: string)
    requires |pat| > 0 && !Contains(s, pat)
    ensures ReplaceAll(s, pat, rep) == s
    decreases |s|
  {
    if |s| >= |pat| {
      assert !OccursAt(s, pat, 0);
      assert s[0..|pat|] == s[..|pat|];
      assert !Contains(s[1..], pat) by {
        forall k | 0 <= k <= |s[1..]|
          ensures !OccursAt(s[1..], pat, k)
        {
          if k <= |s[1..]| - |pat| {
            assert s[1..][k..k + |pat|] == s[k + 1..k + 1 + |pat|];
            assert !OccursAt(s, pat, k + 1);
          }
        }
      }
      ReplaceAllAbsent(s[1..], pat, rep);
      assert [s[0]] + s[1..] == s;
    }
  }

  /** A match at the very start is replaced, and the scan resumes after it. */
  lemma ReplaceAllPrefix(pat: string, rest: string, rep: string)
    requires |pat| > 0
    ensures ReplaceAll(pat + rest, pat, rep) == rep + ReplaceAll(rest, pat, rep)
  {
    var s := pat + rest;
    assert s[..|pat|] == pat && s[|pat|..] == rest;
  }

  /**
   * C# `String.LastIndexOf(c)`: the largest index holding `c`, or -1.
   */
  function LastIndexOf(s: string, c: char): (r: int)
    ensures -1 <= r < |s|
    ensures r >= 0 ==> s[r] == c && forall j :: r < j < |s| ==> s[j] != c
    ensures r == -1 <==> c !in s
  {
    if |s| == 0 then -1
    else if s[|s| - 1] == c then |s| - 1
    else LastIndexOf(s[..|s| - 1], c)
  }

  /**
   * `items` separated by `sep`, as `String.Join` does: no leading or
   * trailing separator, "" for no items.
   */
  function Join(items: seq<string>, sep: string): string
    decreases |items|
  {
    if |items| == 0 then ""
    else if |items| == 1 then items[0]
    else Join(items[..|items| - 1], sep) + sep + items[|items| - 1]
  }

  /** Joining one more item appends a separator and the item. */
  lemma JoinSnoc(items: seq<string>, sep: string, x: string)
    requires |items| > 0
    ensures Join(items + [x], sep) == Join(items, sep) + sep + x
  {
    assert (items + [x])[..|items|] == items;
  }

  /** A join of non-empty items is empty only when there are no items. */
  lemma JoinEmpty(items: seq<string>, sep: string)
    requires forall i :: 0 <= i < |items| ==> |items[i]| > 0
    ensures |Join(items, sep)| == 0 <==> |items| == 0
  {
    if |items| > 1 {
      assert |Join(items, sep)| >= |items[|items| - 1]|;
    }
  }

  /** Every item and every separator of a join is kept, in order: its length is their sum. */
  lemma {:induction false} JoinLength(items: seq<string>, sep: string)
    requires |items| > 0
    ensures |Join(items, sep)| == SumLengths(items) + (|items| - 1) * |sep|
    decreases |items|
  {
    if |items| > 1 {
      JoinLength(items[..|items| - 1], sep);
      SumLengthsSnoc(items[..|items| - 1], items[|items| - 1]);
      assert items[..|items| - 1] + [items[|items| - 1]] == items;
    }
  }

  function SumLengths(items: seq<string>): nat
    decreases |items|
  {
    if |items| == 0 then 0 else SumLengths(items[..|items| - 1]) + |items[|items| - 1]|
  }

  lemma SumLengthsSnoc(items: seq<string>, x: string)
    ensures SumLengths(items + [x]) == SumLengths(items) + |x|
  {
    assert (items + [x])[..|items|] == items;
  }

  /** `a + sep + b` when `a` is the first item: joining from the front. */
  lemma {:induction false} JoinCons(items: seq<string>, sep: string)
    requires |items| >= 2
    ensures Join(items, sep) == items[0] + sep + Join(items[1..], sep)
    decreases |items|
  {
    var n := |items|;
    if n > 2 {
      JoinCons(items[..n - 1], sep);
      assert items[..n - 1][1..] == items[1..][..n - 2];
      assert items[1..][n - 2] == items[n - 1];
    } else {
      assert items[1..] == [items[1]];
    }
  }

  /** The pieces of `s` between occurrences of `c`; `[s]` when `c` does not occur. */
  function Split(s: string, c: char): (r: seq<string>)
    ensures |r| >= 1
    ensures forall i :: 0 <= i < |r| ==> c !in r[i]
    decreases |s|
  {
    var k := IndexOf(s, c);
    if k == |s| then [s] else [s[..k]] + Split(s[k + 1..], c)
  }

  /** Splitting undoes a join on a one-character separator that no item contains. */
  lemma {:induction false} SplitJoin(items: seq<string>, c: char)
    requires |items| >= 1
    requires forall i :: 0 <= i < |items| ==> c !in items[i]
    ensures Split(Join(items, [c]), c) == items
    decreases |items|
  {
    if |items| == 1 {
      var s := items[0];
      assert Join(items, [c]) == s;
      assert IndexOf(s, c) == |s|;
    } else {
      JoinCons(items, [c]);
      var rest := Join(items[1..], [c]);
      var s := items[0] + [c] + rest;
      IndexOfSplit(items[0], c, rest);
      assert s[..|items[0]|] == items[0];
      assert s[|items[0]| + 1..] == rest;
      SplitJoin(items[1..], c);
      assert [items[0]] + items[1..] == items;
    }
  }
}
