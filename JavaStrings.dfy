/**
 * The behaviour of the java.lang.String and java.lang.Integer operations that the
 * tweet-search core relies on: startsWith, split on a one-character delimiter,
 * replace, Integer.parseInt and String.valueOf(int).
 */
module JavaStrings {
  import opened Wrappers

  /** String.startsWith */
  predicate StartsWith(s: string, prefix: string) {
    |prefix| <= |s| && s[..|prefix|] == prefix
  }

  /** String.contains */
  predicate Contains(s: string, t: string)
    decreases |s|
  {
    StartsWith(s, t) || (|s| > 0 && Contains(s[1..], t))
  }

  // ---------------------------------------------------------------------------
  // Splitting on one character

  /** Every piece of `s` between occurrences of `d`, empty pieces included. */
  function SplitAll(s: string, d: char): (pieces: seq<string>)
    ensures |pieces| >= 1
    ensures forall i :: 0 <= i < |pieces| ==> d !in pieces[i]
    ensures StartsWith(s, pieces[0])
    ensures |pieces| == 1 <==> d !in s
    ensures |pieces| == 1 ==> pieces[0] == s
    ensures |pieces| > 1 ==> |pieces[0]| < |s| && s[|pieces[0]|] == d
    decreases |s|
  {
    if |s| == 0 then [""]
    else
      var rest := SplitAll(s[1..], d);
      if s[0] == d then
        [""] + rest
      else
        assert s[1..][..|rest[0]|] == rest[0];
        [[s[0]] + rest[0]] + rest[1..]
  }

  /** After the first piece and its delimiter, the pieces are those of the rest of the string. */
  lemma {:induction false} SplitAllTail(s: string, d: char)
    requires |SplitAll(s, d)| > 1
    ensures var n := |SplitAll(s, d)[0]|;
      n < |s| && SplitAll(s, d)[1..] == SplitAll(s[n + 1..], d)
    decreases |s|
  {
    if s[0] != d {
      SplitAllTail(s[1..], d);
      var n := |SplitAll(s[1..], d)[0]|;
      assert s[1..][n + 1..] == s[n + 2..];
    }
  }

  /** The pieces with `d` between consecutive ones: the inverse of SplitAll. */
  function Join(pieces: seq<string>, d: char): string
    requires |pieces| >= 1
  {
    if |pieces| == 1 then pieces[0] else pieces[0] + [d] + Join(pieces[1..], d)
  }

  lemma {:induction false} JoinSplitAll(s: string, d: char)
    ensures Join(SplitAll(s, d), d) == s
    decreases |s|
  {
    var pieces := SplitAll(s, d);
    if |pieces| > 1 {
      var n := |pieces[0]|;
      SplitAllTail(s, d);
      JoinSplitAll(s[n + 1..], d);
      assert s == s[..n] + [d] + s[n + 1..];
    }
  }

  lemma {:induction false} SplitAllPiece(p: string, t: string, d: char)
    requires d !in p
    ensures SplitAll(p + [d] + t, d) == [p] + SplitAll(t, d)
  {
    var s := p + [d] + t;
    assert s[..|p|] == p;
    var pieces := SplitAll(s, d);
    SplitAllPrefixFree(s, d, |p|);
    SplitAllTail(s, d);
    assert s[|p| + 1..] == t;
  }

  /** The first piece of `s` is everything before its first `d`. */
  lemma {:induction false} SplitAllPrefixFree(s: string, d: char, n: nat)
    requires n < |s| && s[n] == d && d !in s[..n]
    ensures |SplitAll(s, d)[0]| == n
  {
    var p := SplitAll(s, d)[0];
    assert s[..|p|] == p;
  }

  lemma {:induction false} SplitAllJoin(pieces: seq<string>, d: char)
    requires |pieces| >= 1
    requires forall i :: 0 <= i < |pieces| ==> d !in pieces[i]
    ensures SplitAll(Join(pieces, d), d) == pieces
  {
    if |pieces| > 1 {
      var tail := Join(pieces[1..], d);
      assert Join(pieces, d) == pieces[0] + [d] + tail;
      SplitAllJoin(pieces[1..], d);
      SplitAllPiece(pieces[0], tail, d);
      assert [pieces[0]] + pieces[1..] == pieces;
    }
  }

  /** Drops the empty strings at the end of `pieces`. */
  function StripTrailingEmpty(pieces: seq<string>): (r: seq<string>)
    ensures |r| <= |pieces| && r == pieces[..|r|]
    ensures forall i :: |r| <= i < |pieces| ==> pieces[i] == ""
    ensures r == [] || r[|r| - 1] != ""
    decreases |pieces|
  {
    if |pieces| > 0 && pieces[|pieces| - 1] == "" then
      StripTrailingEmpty(pieces[..|pieces| - 1])
    else
      pieces
  }

  /**
   * String.split with a one-character pattern: a string without the delimiter
   * gives itself; otherwise the pieces, with trailing empty strings discarded.
   */
  function Split(s: string, d: char): (parts: seq<string>)
    ensures forall i :: 0 <= i < |parts| ==> d !in parts[i]
    ensures d !in s ==> parts == [s]
    ensures d in s ==> |parts| <= |SplitAll(s, d)| && parts == SplitAll(s, d)[..|parts|]
    ensures d in s ==> forall i :: |parts| <= i < |SplitAll(s, d)| ==> SplitAll(s, d)[i] == ""
    ensures d in s ==> parts == [] || parts[|parts| - 1] != ""
  {
    if d !in s then [s] else StripTrailingEmpty(SplitAll(s, d))
  }

  /** Split yields at least two parts exactly when some piece after the first is non-empty. */
  lemma SplitHasSecond(s: string, d: char)
    ensures |Split(s, d)| >= 2 <==>
      exists i :: 1 <= i < |SplitAll(s, d)| && SplitAll(s, d)[i] != ""
  {
    var all := SplitAll(s, d);
    if d in s {
      var r := StripTrailingEmpty(all);
      if |r| >= 2 {
        assert all[|r| - 1] == r[|r| - 1];
      }
    }
  }

  // ---------------------------------------------------------------------------
  // Replacing

  /** String.replace(target, replacement): leftmost non-overlapping occurrences, left to right. */
  function ReplaceAll(s: string, target: string, replacement: string): (r: string)
    requires |target| > 0
    ensures replacement == "" ==> |r| <= |s|
    ensures |replacement| == |target| ==> |r| == |s|
    decreases |s|
  {
    if |s| < |target| then s
    else if s[..|target|] == target then replacement + ReplaceAll(s[|target|..], target, replacement)
    else [s[0]] + ReplaceAll(s[1..], target, replacement)
  }

  /** A string in which the target does not occur is left as it is. */
  lemma {:induction false} ReplaceAllAbsent(s: string, target: string, replacement: string)
    requires |target| > 0 && !Contains(s, target)
    ensures ReplaceAll(s, target, replacement) == s
    decreases |s|
  {
    if |s| >= |target| {
      ReplaceAllAbsent(s[1..], target, replacement);
      assert [s[0]] + s[1..] == s;
    }
  }

  /** An occurrence at the front is replaced and the scan continues after it. */
  lemma ReplaceAllHit(target: string, t: string, replacement: string)
    requires |target| > 0
    ensures ReplaceAll(target + t, target, replacement) == replacement + ReplaceAll(t, target, replacement)
  {
    assert (target + t)[..|target|] == target;
    assert (target + t)[|target|..] == t;
  }

  /** A prefix in which no occurrence of the target starts is copied unchanged. */
  lemma {:induction false} ReplaceAllSkipPrefix(p: string, t: string, target: string, replacement: string)
    requires |target| > 0
    requires forall i :: 0 <= i < |p| ==> !StartsWith((p + t)[i..], target)
    ensures ReplaceAll(p + t, target, replacement) == p + ReplaceAll(t, target, replacement)
    decreases |p|
  {
    var s := p + t;
    if p == [] {
      assert s == t;
    } else if |s| < |target| {
      assert ReplaceAll(t, target, replacement) == t;
    } else {
      assert s[0..] == s;
      assert s[..|target|] != target;
      var rest := p[1..] + t;
      assert s[1..] == rest;
      assert ReplaceAll(s, target, replacement) == [s[0]] + ReplaceAll(rest, target, replacement);
      forall i | 0 <= i < |p| - 1
        ensures !StartsWith(rest[i..], target)
      {
        assert rest[i..] == s[i + 1..];
      }
      ReplaceAllSkipPrefix(p[1..], t, target, replacement);
      assert p == [s[0]] + p[1..];
    }
  }

  /** The characters of `s` other than `c`, in their order. */
  function Without(s: string, c: char): (r: string)
    ensures c !in r
    ensures multiset(r) == multiset(s)[c := 0]
    decreases |s|
  {
    if |s| == 0 then ""
    else
      assert s == [s[0]] + s[1..];
      (if s[0] == c then "" else [s[0]]) + Without(s[1..], c)
  }

  /** Replacing a one-character string by "" removes every occurrence of that character. */
  lemma {:induction false} ReplaceCharIsWithout(s: string, c: char)
    ensures ReplaceAll(s, [c], "") == Without(s, c)
    decreases |s|
  {
    if |s| > 0 {
      ReplaceCharIsWithout(s[1..], c);
      if s[0] == c {
        assert s[..1] == [c];
        assert ReplaceAll(s, [c], "") == "" + ReplaceAll(s[1..], [c], "");
      } else {
        assert s[..1] != [c] by { assert s[..1][0] == s[0]; }
        assert ReplaceAll(s, [c], "") == [s[0]] + ReplaceAll(s[1..], [c], "");
      }
    }
  }

  // ---------------------------------------------------------------------------
  // Java int and its decimal text

  const IntMin: int := -0x8000_0000
  const IntMax: int := 0x7fff_ffff

  predicate IsInt32(n: int) {
    IntMin <= n <= IntMax
  }

  predicate IsDigit(c: char) {
    '0' <= c <= '9'
  }

  predicate AllDigits(s: string) {
    forall i :: 0 <= i < |s| ==> IsDigit(s[i])
  }

  function DigitValue(c: char): nat
    requires IsDigit(c)
  {
    c as int - '0' as int
  }

  function DigitChar(n: nat): (c: char)
    requires n < 10
    ensures IsDigit(c) && DigitValue(c) == n
  {
    ('0' as int + n) as char
  }

  /** The number written by a string of decimal digits, most significant first. */
  function DigitsValue(s: string): nat
    requires AllDigits(s)
  {
    if |s| == 0 then 0 else DigitsValue(s[..|s| - 1]) * 10 + DigitValue(s[|s| - 1])
  }

  /** The decimal digits of `n`, without leading zeros. */
  function NatToString(n: nat): (s: string)
    ensures |s| >= 1 && AllDigits(s)
    ensures s[0] == '0' ==> n == 0 && s == "0"
    decreases n
  {
    if n < 10 then [DigitChar(n)] else NatToString(n / 10) + [DigitChar(n % 10)]
  }

  /** String.valueOf(int) */
  function IntToString(n: int): string {
    if n < 0 then "-" + NatToString(-n) else NatToString(n)
  }

  /**
   * Integer.parseInt(s): an optional sign and at least one decimal digit, the
   * value within the range of int; `None` stands for NumberFormatException.
   */
  function ParseInt(s: string): (r: Option<int>)
    ensures r.Some? ==> IsInt32(r.value)
  {
    if |s| == 0 then None
    else
      var signed := s[0] == '-' || s[0] == '+';
      var digits := if signed then s[1..] else s;
      if |digits| == 0 || !AllDigits(digits) then None
      else
        var magnitude: int := DigitsValue(digits);
        var v: int := if s[0] == '-' then -magnitude else magnitude;
        if IsInt32(v) then Some(v) else None
  }

  lemma {:induction false} DigitsValueOfNat(n: nat)
    ensures DigitsValue(NatToString(n)) == n
    decreases n
  {
    var s := NatToString(n);
    if n >= 10 {
      DigitsValueOfNat(n / 10);
      assert s[..|s| - 1] == NatToString(n / 10);
    }
  }

  /** Leading zeros do not change the number a digit string denotes. */
  lemma {:induction false} DigitsValueLeadingZero(s: string)
    requires AllDigits(s)
    ensures AllDigits("0" + s) && DigitsValue("0" + s) == DigitsValue(s)
    decreases |s|
  {
    var z := "0" + s;
    assert AllDigits(z);
    if |s| > 0 {
      DigitsValueLeadingZero(s[..|s| - 1]);
      assert z[..|z| - 1] == "0" + s[..|s| - 1];
    }
  }

  /** Integer.parseInt reads back what String.valueOf(int) writes. */
  lemma ParseIntToString(n: int)
    requires IsInt32(n)
    ensures ParseInt(IntToString(n)) == Some(n)
  {
    var text := IntToString(n);
    if n < 0 {
      var digits := NatToString(-n);
      DigitsValueOfNat(-n);
      assert text == "-" + digits;
      assert text[1..] == digits;
      assert digits[0] != '-' && digits[0] != '+';
    } else {
      DigitsValueOfNat(n);
      assert text[0] != '-' && text[0] != '+';
    }
  }
}
