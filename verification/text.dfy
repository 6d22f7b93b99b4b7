/**
 The string primitives of the .NET runtime that the discovery engine leans on,
 stated over `string` (a sequence of UTF-16 code units):
 ASCII case mapping, ordinal prefix/suffix tests, ordinal replace-all,
 `Path.GetExtension`, and the decimal rendering of integers (`ToString()` and
 the `D3` format specifier).
 */
module Text {

  predicate IsUpperAscii(c: char) {
    'A' <= c <= 'Z'
  }

  predicate IsLowerAscii(c: char) {
    'a' <= c <= 'z'
  }

  predicate IsDigit(c: char) {
    '0' <= c <= '9'
  }

  /** `char.ToLowerInvariant` restricted to the ASCII letters. */
  function LowerChar(c: char): (r: char)
    ensures !IsUpperAscii(r)
    ensures IsUpperAscii(c) ==> r as int == c as int + 32
    ensures !IsUpperAscii(c) ==> r == c
  {
    if IsUpperAscii(c) then (c as int + 32) as char else c
  }

  /** `char.ToUpperInvariant` restricted to the ASCII letters. */
  function UpperChar(c: char): (r: char)
    ensures !IsLowerAscii(r)
    ensures IsLowerAscii(c) ==> r as int == c as int - 32
    ensures !IsLowerAscii(c) ==> r == c
  {
    if IsLowerAscii(c) then (c as int - 32) as char else c
  }

  function Lower(s: string): (r: string)
    ensures |r| == |s|
    ensures forall i :: 0 <= i < |s| ==> r[i] == LowerChar(s[i])
  {
    seq(|s|, i requires 0 <= i < |s| => LowerChar(s[i]))
  }

  function Upper(s: string): (r: string)
    ensures |r| == |s|
    ensures forall i :: 0 <= i < |s| ==> r[i] == UpperChar(s[i])
  {
    seq(|s|, i requires 0 <= i < |s| => UpperChar(s[i]))
  }

  /** Upper-casing forgets any earlier lower-casing. */
  lemma UpperOfLower(s: string)
    ensures Upper(Lower(s)) == Upper(s)
  {
    assert forall i :: 0 <= i < |s| ==> UpperChar(LowerChar(s[i])) == UpperChar(s[i]);
  }

  /** Ordinal `StartsWith`. */
  predicate StartsWith(s: string, prefix: string) {
    |prefix| <= |s| && s[..|prefix|] == prefix
  }

  /** Ordinal `EndsWith`. */
  predicate EndsWith(s: string, suffix: string) {
    |suffix| <= |s| && s[|s| - |suffix|..] == suffix
  }

  /** `EndsWith` under invariant-culture case folding, for ASCII letters. */
  predicate EndsWithIgnoreCase(s: string, suffix: string) {
    EndsWith(Lower(s), Lower(suffix))
  }

  /**
   Case folding cannot produce a dot or a digit from anything else, so a
   case-insensitive `.000` suffix is an ordinal one.
   */
  lemma DotZerosIgnoreCase(s: string)
    ensures EndsWithIgnoreCase(s, ".000") <==> EndsWith(s, ".000")
  {
    assert Lower(".000") == ".000";
    if |s| >= 4 {
      var t := s[|s| - 4..];
      var u := Lower(s)[|s| - 4..];
      assert forall i :: 0 <= i < 4 ==> u[i] == LowerChar(t[i]);
      if u == ".000" {
        assert forall i :: 0 <= i < 4 ==> t[i] == u[i];
        assert t == ".000";
      }
      if t == ".000" {
        assert u == ".000";
      }
    }
  }

  /** `s` has an occurrence of `p` at some position. */
  predicate Contains(s: string, p: string)
    decreases |s|
  {
    StartsWith(s, p) || (|s| > 0 && Contains(s[1..], p))
  }

  lemma {:induction false} ContainsAt(s: string, p: string, i: nat)
    requires i + |p| <= |s|
    requires s[i..i + |p|] == p
    ensures Contains(s, p)
    decreases i
  {
    if i == 0 {
      assert s[..|p|] == p;
    } else {
      assert s[1..][i - 1..i - 1 + |p|] == s[i..i + |p|];
      ContainsAt(s[1..], p, i - 1);
    }
  }

  lemma {:induction false} ContainsSuffix(s: string, p: string, k: nat)
    requires k <= |s|
    requires Contains(s[k..], p)
    ensures Contains(s, p)
    decreases k
  {
    if k > 0 {
      assert s[1..][k - 1..] == s[k..];
      ContainsSuffix(s[1..], p, k - 1);
    }
  }

  /**
   Ordinal `string.Replace(pattern, replacement)`: scans left to right and substitutes
   every non-overlapping occurrence of `pattern`.
   */
  function ReplaceAll(s: string, pattern: string, replacement: string): (r: string)
    requires |pattern| > 0
    ensures !Contains(s, pattern) ==> r == s
    ensures |pattern| == |replacement| ==> |r| == |s|
    ensures |pattern| >= |replacement| ==> |r| <= |s|
    ensures |pattern| <= |replacement| ==> |r| >= |s|
    decreases |s|
  {
    if |s| == 0 then s
    else if StartsWith(s, pattern) then replacement + ReplaceAll(s[|pattern|..], pattern, replacement)
    else [s[0]] + ReplaceAll(s[1..], pattern, replacement)
  }

  /**
   Substituting `a` by `b` and then `b` back by `a` restores any text free of
   `b`, for three-character patterns whose replacement cannot overlap itself.
   */
  lemma {:induction false} ReplaceRoundTrip(s: string, a: string, b: string)
    requires |a| == 3 && |b| == 3
    requires b[1] != b[0] && b[2] != b[0]
    requires !Contains(s, b)
    ensures ReplaceAll(ReplaceAll(s, a, b), b, a) == s
    decreases |s|
  {
    if |s| == 0 {
    } else if StartsWith(s, a) {
      if Contains(s[3..], b) {
        ContainsSuffix(s, b, 3);
      }
      var t := ReplaceAll(s[3..], a, b);
      ReplaceRoundTrip(s[3..], a, b);
      assert (b + t)[..3] == b;
      assert (b + t)[3..] == t;
      assert s == a + s[3..];
    } else {
      var t := ReplaceAll(s[1..], a, b);
      ReplaceRoundTrip(s[1..], a, b);
      assert !StartsWith([s[0]] + t, b) by {
        NoFalseStart(s, a, b);
      }
      assert ([s[0]] + t)[1..] == t;
      assert [s[0]] + s[1..] == s;
    }
  }

  /**
   After substituting `a` by `b`, an occurrence of `b` cannot begin at an
   untouched first character of a text free of `b`.
   */
  lemma NoFalseStart(s: string, a: string, b: string)
    requires |a| == 3 && |b| == 3
    requires b[1] != b[0] && b[2] != b[0]
    requires !Contains(s, b)
    requires |s| > 0 && !StartsWith(s, a)
    ensures !StartsWith([s[0]] + ReplaceAll(s[1..], a, b), b)
  {
    assert !StartsWith(s, b);
    var u := s[1..];
    var x := [s[0]] + ReplaceAll(u, a, b);
    if |u| > 0 {
      ReplaceAllFirst(u, a, b);
      if StartsWith(u, a) {
        // the second character would be b[0], which is not b[1]
        assert x[1] == b[0];
      } else {
        var v := u[1..];
        assert ReplaceAll(u, a, b) == [u[0]] + ReplaceAll(v, a, b);
        if |v| > 0 {
          ReplaceAllFirst(v, a, b);
          if StartsWith(v, a) {
            // the third character would be b[0], which is not b[2]
            assert x[2] == b[0];
          } else {
            // the first three characters are untouched, and they are not b
            assert x[..3] == s[..3];
          }
        }
      }
    }
  }

  /**
   Replace-all leaves a prefix alone when no occurrence of the pattern starts
   inside it.
   */
  lemma {:induction false} ReplaceUntouchedPrefix(s: string, a: string, b: string, k: nat)
    requires |a| > 0 && k <= |s|
    requires forall j :: 0 <= j < k ==> !StartsWith(s[j..], a)
    ensures ReplaceAll(s, a, b) == s[..k] + ReplaceAll(s[k..], a, b)
    decreases k
  {
    if k > 0 {
      assert s[0..] == s;
      forall j | 0 <= j < k - 1
        ensures !StartsWith(s[1..][j..], a)
      {
        assert s[1..][j..] == s[j + 1..];
      }
      ReplaceUntouchedPrefix(s[1..], a, b, k - 1);
      assert s[1..][k - 1..] == s[k..];
      assert [s[0]] + s[1..][..k - 1] == s[..k];
    }
  }

  /** The first character after replace-all: the replacement's, or the original one. */
  lemma ReplaceAllFirst(u: string, a: string, b: string)
    requires |a| > 0 && |b| > 0 && |u| > 0
    ensures |ReplaceAll(u, a, b)| > 0
    ensures ReplaceAll(u, a, b)[0] == if StartsWith(u, a) then b[0] else u[0]
  {
  }

  /**
   After substituting `a` by `b`, no occurrence of `a` can begin at an
   untouched first character that did not itself begin an `a`.
   */
  lemma NoStaleStart(s: string, a: string, b: string)
    requires |a| == 3 && |b| == 3
    requires b[0] != a[1] && b[0] != a[2]
    requires |s| > 0 && !StartsWith(s, a)
    ensures !StartsWith([s[0]] + ReplaceAll(s[1..], a, b), a)
  {
    var u := s[1..];
    if |u| > 0 && !StartsWith(u, a) {
      assert ReplaceAll(u, a, b) == [u[0]] + ReplaceAll(u[1..], a, b);
      if |u| > 1 && !StartsWith(u[1..], a) {
        assert ReplaceAll(u[1..], a, b)[0] == u[1];
        assert s[..3] == [s[0], u[0], u[1]];
      }
    }
  }

  /**
   Replace-all leaves no occurrence of the pattern behind, provided the
   replacement cannot combine with its neighbours into a new occurrence.
   */
  lemma {:induction false} ReplaceRemovesAll(s: string, a: string, b: string)
    requires |a| == 3 && |b| == 3 && a != b
    requires b[0] != a[1] && b[0] != a[2] && b[1] != a[0] && b[2] != a[0]
    ensures !Contains(ReplaceAll(s, a, b), a)
    decreases |s|
  {
    if |s| == 0 {
    } else if StartsWith(s, a) {
      var t := ReplaceAll(s[3..], a, b);
      ReplaceRemovesAll(s[3..], a, b);
      var x := b + t;
      assert x[..3] == b;
      assert !StartsWith(x[1..], a) by {
        if |x[1..]| >= 3 { assert x[1..][0] == b[1]; }
      }
      assert !StartsWith(x[2..], a) by {
        if |x[2..]| >= 3 { assert x[2..][0] == b[2]; }
      }
      assert x[2..][1..] == t;
      assert !Contains(x[2..], a);
      assert x[1..][1..] == x[2..];
      assert !Contains(x[1..], a);
      assert ReplaceAll(s, a, b) == x;
    } else {
      var t := ReplaceAll(s[1..], a, b);
      ReplaceRemovesAll(s[1..], a, b);
      NoStaleStart(s, a, b);
      assert ([s[0]] + t)[1..] == t;
    }
  }

  predicate IsDirectorySeparator(c: char) {
    c == '/' || c == '\\'
  }

  predicate IsExtensionStop(c: char) {
    c == '.' || IsDirectorySeparator(c)
  }

  /** The last index below `k` holding a dot or a directory separator, or -1. */
  function LastStop(path: string, k: nat): (i: int)
    requires k <= |path|
    ensures -1 <= i < k
    ensures i >= 0 ==> IsExtensionStop(path[i])
    ensures forall j :: i < j < k ==> !IsExtensionStop(path[j])
  {
    if k == 0 then -1
    else if IsExtensionStop(path[k - 1]) then k - 1
    else LastStop(path, k - 1)
  }

  /**
   The path has an extension: a dot, not in last position, after which no dot
   and no directory separator occurs.
   */
  ghost predicate HasExtensionAt(path: string, i: int) {
    && 0 <= i < |path| - 1
    && path[i] == '.'
    && forall j :: i < j < |path| ==> !IsExtensionStop(path[j])
  }

  /**
   `Path.GetExtension` (Windows separators): the text from the last dot,
   including the dot, provided no directory separator follows it and it is not
   the final character; otherwise the empty string.
   */
  function GetExtension(path: string): (r: string)
    ensures r != "" <==> exists i :: HasExtensionAt(path, i)
    ensures forall i :: HasExtensionAt(path, i) ==> r == path[i..]
    ensures r != "" ==> |r| >= 2 && r[0] == '.' && EndsWith(path, r)
  {
    var i := LastStop(path, |path|);
    if 0 <= i < |path| - 1 && path[i] == '.' then
      assert HasExtensionAt(path, i);
      path[i..]
    else
      assert forall w :: HasExtensionAt(path, w) ==> w <= i && i <= w;
      ""
  }

  function DigitChar(d: nat): (c: char)
    requires d < 10
    ensures IsDigit(c)
  {
    ('0' as int + d) as char
  }

  ghost predicate AllDigits(s: string) {
    forall i :: 0 <= i < |s| ==> IsDigit(s[i])
  }

  /** The number a string of decimal digits denotes. */
  function DecimalValue(s: string): nat
    requires AllDigits(s)
  {
    if |s| == 0 then 0
    else DecimalValue(s[..|s| - 1]) * 10 + (s[|s| - 1] as int - '0' as int)
  }

  /** Decimal rendering of a natural number, without leading zeros. */
  function NatToDecimal(n: nat): (r: string)
    ensures |r| >= 1 && AllDigits(r)
    ensures DecimalValue(r) == n
    ensures |r| > 1 ==> r[0] != '0'
    ensures n < 10 ==> |r| == 1
    ensures n < 100 ==> |r| <= 2
    ensures n < 1000 ==> |r| <= 3
    decreases n
  {
    if n < 10 then [DigitChar(n)]
    else
      var r := NatToDecimal(n / 10) + [DigitChar(n % 10)];
      assert r[..|r| - 1] == NatToDecimal(n / 10);
      r
  }

  /** `int.ToString()` with the invariant negative sign. */
  function IntToString(i: int): (r: string)
    ensures |r| >= 1
    ensures i >= 0 ==> AllDigits(r) && DecimalValue(r) == i
    ensures i < 0 <==> r[0] == '-'
    ensures i < 0 ==> |r| >= 2 && AllDigits(r[1..]) && DecimalValue(r[1..]) == -i
    ensures i >= 0 && |r| > 1 ==> r[0] != '0'
    ensures i < 0 && |r| > 2 ==> r[1] != '0'
  {
    if i < 0 then "-" + NatToDecimal(-i) else NatToDecimal(i)
  }

  lemma {:induction false} LeadingZerosDoNotCount(k: nat, s: string)
    requires AllDigits(s)
    ensures AllDigits(seq(k, _ => '0') + s)
    ensures DecimalValue(seq(k, _ => '0') + s) == DecimalValue(s)
    decreases |s|, k
  {
    var z := seq(k, _ => '0');
    if |s| == 0 {
      assert z + s == z;
      if k > 0 {
        assert z[..k - 1] == seq(k - 1, _ => '0');
        LeadingZerosDoNotCount(k - 1, s);
        assert seq(k - 1, _ => '0') + s == z[..k - 1];
      }
    } else {
      assert (z + s)[..|z + s| - 1] == z + s[..|s| - 1];
      LeadingZerosDoNotCount(k, s[..|s| - 1]);
    }
  }

  /** The `D3` format of a non-negative integer: its decimal digits, zero-padded to width 3. */
  function D3(n: nat): (r: string)
    ensures |r| >= 3 && AllDigits(r)
    ensures DecimalValue(r) == n
    ensures n < 1000 ==> |r| == 3
    ensures |r| > 3 ==> r[0] != '0'
  {
    var d := NatToDecimal(n);
    if |d| >= 3 then d
    else
      LeadingZerosDoNotCount(3 - |d|, d);
      seq(3 - |d|, _ => '0') + d
  }

  lemma D3Injective(m: nat, n: nat)
    requires D3(m) == D3(n)
    ensures m == n
  {
  }
}
