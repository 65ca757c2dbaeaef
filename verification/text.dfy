/** String helpers with the semantics of the .NET calls the C# code makes:
    `string.IsNullOrWhiteSpace`, case-insensitive `Contains` and `Equals`,
    `int.ToString()` and `string.Replace`.

    A C# null string is modelled as the empty string wherever the code only
    ever asks whether it is null-or-blank. Case-insensitive comparison folds
    ASCII letters only (see README).
 */
module Text {

  /** `char.IsWhiteSpace`: the Unicode space separators, line and paragraph
      separators, and the control characters U+0009 to U+000D and U+0085. */
  predicate IsWhiteSpace(c: char)
  {
    || ('\t' <= c <= '\r')
    || c == ' ' || c == '\U{85}' || c == '\U{A0}' || c == '\U{1680}'
    || ('\U{2000}' <= c <= '\U{200A}')
    || c == '\U{2028}' || c == '\U{2029}' || c == '\U{202F}' || c == '\U{205F}' || c == '\U{3000}'
  }

  /** `string.IsNullOrWhiteSpace` (null is the empty string here). */
  predicate IsBlank(s: string)
  {
    forall i :: 0 <= i < |s| ==> IsWhiteSpace(s[i])
  }

  /** Lower-cases an ASCII letter and leaves every other character alone. */
  function ToLower(c: char): char
  {
    if 'A' <= c <= 'Z' then (c as int + 32) as char else c
  }

  function Lower(s: string): string
  {
    seq(|s|, i requires 0 <= i < |s| => ToLower(s[i]))
  }

  /** `a.Equals(b, StringComparison.OrdinalIgnoreCase)`. */
  predicate EqualsIgnoreCase(a: string, b: string)
  {
    Lower(a) == Lower(b)
  }

  predicate IsPrefix(p: string, s: string)
  {
    |p| <= |s| && s[..|p|] == p
  }

  /** `s.Contains(needle)` with ordinal comparison: `needle` occurs somewhere in `s`. */
  predicate Contains(s: string, needle: string)
    decreases |s|
  {
    IsPrefix(needle, s) || (|s| > 0 && Contains(s[1..], needle))
  }

  /** `s.Contains(needle, ...IgnoreCase)`. */
  predicate ContainsIgnoreCase(s: string, needle: string)
  {
    Contains(Lower(s), Lower(needle))
  }

  /** `needle` sits in `s` starting at index `i`. */
  predicate OccursAt(s: string, needle: string, i: int)
  {
    0 <= i <= |s| - |needle| && s[i..i + |needle|] == needle
  }

  /** `needle` occurs in `s` exactly when some slice of `s` equals it. */
  lemma {:induction false} ContainsIffSlice(s: string, needle: string)
    ensures Contains(s, needle) <==> exists i :: OccursAt(s, needle, i)
    decreases |s|
  {
    if IsPrefix(needle, s) {
      assert OccursAt(s, needle, 0);
    } else if |s| == 0 {
      assert |needle| > 0;
    } else {
      ContainsIffSlice(s[1..], needle);
      if Contains(s[1..], needle) {
        var i :| OccursAt(s[1..], needle, i);
        assert s[i + 1..i + 1 + |needle|] == s[1..][i..i + |needle|];
        assert OccursAt(s, needle, i + 1);
      }
      if exists i :: OccursAt(s, needle, i) {
        var i :| OccursAt(s, needle, i);
        assert i > 0 by {
          assert s[0..|needle|] == s[..|needle|];
        }
        assert s[1..][i - 1..i - 1 + |needle|] == s[i..i + |needle|];
        assert OccursAt(s[1..], needle, i - 1);
      }
    }
  }

  /** Every string contains itself and the empty string. */
  lemma ContainsSelfAndEmpty(s: string)
    ensures Contains(s, s)
    ensures Contains(s, "")
  {
    assert IsPrefix(s, s);
    assert IsPrefix("", s);
  }

  /** `needle` occurs somewhere in `s`, stated without recursion. */
  predicate Mentions(s: string, needle: string)
  {
    exists i :: 0 <= i <= |s| && OccursAt(s, needle, i)
  }

  /** A string mentions every piece it is built from. */
  lemma MentionsMiddle(a: string, b: string, c: string)
    ensures Mentions(a + b + c, b)
  {
    assert (a + b + c)[|a|..|a| + |b|] == b;
    assert OccursAt(a + b + c, b, |a|);
  }

  /** `Contains` and `Mentions` agree. */
  lemma ContainsIffMentions(s: string, needle: string)
    ensures Contains(s, needle) <==> Mentions(s, needle)
  {
    ContainsIffSlice(s, needle);
  }

  /** A needle as long as the haystack occurs in it only when the two are equal. */
  lemma ContainsSameLength(s: string, needle: string)
    requires |needle| == |s|
    ensures Contains(s, needle) <==> s == needle
  {
    ContainsIffSlice(s, needle);
    if Contains(s, needle) {
      var i :| OccursAt(s, needle, i);
      assert i == 0 && s[0..|s|] == s;
    } else {
      assert IsPrefix(s, s);
    }
  }

  /** Case folding keeps length, so equal-ignoring-case strings have equal length. */
  lemma LowerLength(s: string)
    ensures |Lower(s)| == |s|
  {
  }

  // ---------------------------------------------------------------------
  // int.ToString()

  function DigitChar(d: nat): char
    requires d < 10
  {
    ('0' as int + d) as char
  }

  /** The decimal digits of a natural number, most significant first, no leading zeros. */
  function NatString(n: nat): string
  {
    if n < 10 then [DigitChar(n)] else NatString(n / 10) + [DigitChar(n % 10)]
  }

  /** `int.ToString()` under the invariant culture: an optional minus sign, then the digits. */
  function IntString(n: int): string
  {
    if n < 0 then "-" + NatString(-n) else NatString(n)
  }

  /** A natural number has at most three digits exactly when it is below 1000. */
  lemma {:induction false} NatStringShort(n: nat)
    ensures |NatString(n)| < 4 <==> n < 1000
  {
    if n >= 10 {
      assert |NatString(n)| == |NatString(n / 10)| + 1;
      if n >= 100 {
        assert |NatString(n / 10)| == |NatString(n / 100)| + 1 by {
          assert n / 10 / 10 == n / 100;
        }
        if n >= 1000 {
          assert |NatString(n / 100)| == |NatString(n / 1000)| + 1 by {
            assert n / 100 / 10 == n / 1000;
          }
          assert |NatString(n / 1000)| >= 1;
        } else {
          assert n / 100 < 10;
        }
      } else {
        assert n / 10 < 10;
      }
    }
  }

  /** The rendering of an int is shorter than four characters exactly when
      it lies strictly between -100 and 1000. */
  lemma IntStringShort(n: int)
    ensures |IntString(n)| < 4 <==> -100 < n < 1000
  {
    if n < 0 {
      NatStringShort(-n);
      if -n >= 100 {
        assert |NatString(-n)| >= 3 by {
          assert |NatString(-n)| == |NatString(-n / 10)| + 1;
          assert -n / 10 >= 10;
          assert |NatString(-n / 10)| == |NatString(-n / 10 / 10)| + 1;
        }
      } else {
        assert |NatString(-n)| <= 2 by {
          if -n >= 10 {
            assert -n / 10 < 10;
          }
        }
      }
    } else {
      NatStringShort(n);
    }
  }

  // ---------------------------------------------------------------------
  // string.Replace(oldValue, newValue)

  /** `s.Replace(pat, rep)`: every non-overlapping occurrence of `pat`, scanning
      from the left, is replaced by `rep`. .NET rejects an empty `pat`. */
  function Replace(s: string, pat: string, rep: string): string
    requires |pat| > 0
    decreases |s|
  {
    if |s| < |pat| then s
    else if s[..|pat|] == pat then rep + Replace(s[|pat|..], pat, rep)
    else [s[0]] + Replace(s[1..], pat, rep)
  }

  /** A string that does not contain the pattern comes back unchanged. */
  lemma {:induction false} ReplaceAbsent(s: string, pat: string, rep: string)
    requires |pat| > 0
    requires !Contains(s, pat)
    ensures Replace(s, pat, rep) == s
    decreases |s|
  {
    if |s| >= |pat| {
      assert !IsPrefix(pat, s);
      ReplaceAbsent(s[1..], pat, rep);
      assert [s[0]] + s[1..] == s;
    }
  }

  /** Replacing a pattern by nothing strips it from the end of a string whose
      other characters never start the pattern. */
  lemma {:induction false} ReplaceDropsSuffix(x: string, pat: string)
    requires |pat| > 0
    requires forall i :: 0 <= i < |x| ==> x[i] != pat[0]
    ensures Replace(x + pat, pat, "") == x
    decreases |x|
  {
    if |x| == 0 {
      assert x + pat == pat;
      assert pat[|pat|..] == "";
    } else {
      assert (x + pat)[0] != pat[0];
      assert (x + pat)[1..] == x[1..] + pat;
      ReplaceDropsSuffix(x[1..], pat);
      assert [x[0]] + x[1..] == x;
    }
  }

  // ---------------------------------------------------------------------
  // Hexadecimal rendering, for Guid.ToString()

  function HexDigit(d: nat): char
    requires d < 16
  {
    if d < 10 then ('0' as int + d) as char else ('a' as int + d - 10) as char
  }

  /** The low `width` hexadecimal digits of `n`, most significant first. */
  function Hex(n: nat, width: nat): (r: string)
    ensures |r| == width
  {
    if width == 0 then "" else Hex(n / 16, width - 1) + [HexDigit(n % 16)]
  }
}
