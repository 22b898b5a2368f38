/**
 * The string operations of .NET that the core relies on: `Trim`,
 * `Replace(" ", "")`, `IndexOf` as a substring test, and the decimal
 * rendering of integers used by `string.Format`.
 */
module Text {

  /**
   * `char.IsWhiteSpace`, the test `string.Trim()` uses: the space, the
   * controls U+0009 to U+000D, U+0085, and the Unicode space and
   * separator characters.
   */
  predicate IsWhiteSpace(c: char) {
    c == ' ' || '\t' <= c <= '\r' || c == '\U{0085}' || c == '\U{00A0}' || c == '\U{1680}' ||
    '\U{2000}' <= c <= '\U{200A}' || c == '\U{2028}' || c == '\U{2029}' || c == '\U{202F}' ||
    c == '\U{205F}' || c == '\U{3000}'
  }

  function TrimStart(s: string): (r: string)
    ensures |r| <= |s| && r == s[|s| - |r|..]
    ensures forall i :: 0 <= i < |s| - |r| ==> IsWhiteSpace(s[i])
    ensures |r| > 0 ==> !IsWhiteSpace(r[0])
  {
    if |s| > 0 && IsWhiteSpace(s[0]) then TrimStart(s[1..]) else s
  }

  function TrimEnd(s: string): (r: string)
    ensures |r| <= |s| && r == s[..|r|]
    ensures forall i :: |r| <= i < |s| ==> IsWhiteSpace(s[i])
    ensures |r| > 0 ==> !IsWhiteSpace(r[|r| - 1])
  {
    if |s| > 0 && IsWhiteSpace(s[|s| - 1]) then TrimEnd(s[..|s| - 1]) else s
  }

  /**
   * `s.Trim()`: `s` is the result with only white space added at either
   * end, and the result neither starts nor ends with white space.
   */
  function Trim(s: string): (r: string)
    ensures |r| > 0 ==> !IsWhiteSpace(r[0]) && !IsWhiteSpace(r[|r| - 1])
    ensures exists k :: TrimmedAt(s, r, k)
  {
    var t := TrimStart(s);
    var r := TrimEnd(t);
    TrimStartThenEnd(s);
    assert |r| > 0 ==> r[0] == t[0];
    r
  }

  lemma TrimStartThenEnd(s: string)
    ensures TrimmedAt(s, TrimEnd(TrimStart(s)), |s| - |TrimStart(s)|)
  {
    TrimmedInfix(s);
    TrimmedTail(s);
  }

  /** Trimming both ends leaves the infix that starts where the leading white space ends. */
  lemma TrimmedInfix(s: string)
    ensures var t := TrimStart(s); var r := TrimEnd(t); var k := |s| - |t|;
      0 <= k && k + |r| <= |s| && s[k..k + |r|] == r
  {
    var t := TrimStart(s);
    var r := TrimEnd(t);
    var k := |s| - |t|;
    assert t == s[k..] && r == t[..|r|];
  }

  /** What trimming both ends drops after the infix is white space. */
  lemma TrimmedTail(s: string)
    ensures var t := TrimStart(s); var r := TrimEnd(t); var k := |s| - |t|;
      forall i :: k + |r| <= i < |s| ==> IsWhiteSpace(s[i])
  {
    var t := TrimStart(s);
    var r := TrimEnd(t);
    var k := |s| - |t|;
    forall i | k + |r| <= i < |s| ensures IsWhiteSpace(s[i]) {
      assert s[i] == t[i - k];
    }
  }

  /** `r` sits in `s` at index `k`, and every character of `s` outside it is white space. */
  predicate TrimmedAt(s: string, r: string, k: int) {
    0 <= k && k + |r| <= |s| && s[k..k + |r|] == r &&
    (forall i :: 0 <= i < k ==> IsWhiteSpace(s[i])) &&
    (forall i :: k + |r| <= i < |s| ==> IsWhiteSpace(s[i]))
  }

  /** `s.Replace(" ", string.Empty)`: every character but the spaces, each as often as in `s`. */
  function RemoveSpaces(s: string): (r: string)
    ensures ' ' !in r
    ensures |s| == 1 ==> r == (if s[0] == ' ' then "" else s)
  {
    if |s| == 0 then ""
    else (if s[0] == ' ' then "" else [s[0]]) + RemoveSpaces(s[1..])
  }

  /** Removing spaces keeps every other character as often as it occurs. */
  lemma {:induction false} RemoveSpacesCounts(s: string)
    ensures multiset(RemoveSpaces(s)) == multiset(s)[' ' := 0]
  {
    if |s| > 0 {
      RemoveSpacesCounts(s[1..]);
      assert s == [s[0]] + s[1..];
    }
  }

  /** Removing spaces works piece by piece, so the kept characters stay in their order. */
  lemma {:induction false} RemoveSpacesAppend(a: string, b: string)
    ensures RemoveSpaces(a + b) == RemoveSpaces(a) + RemoveSpaces(b)
  {
    if |a| > 0 {
      assert (a + b)[1..] == a[1..] + b;
      RemoveSpacesAppend(a[1..], b);
    } else {
      assert a + b == b;
    }
  }

  /** Removing spaces keeps a first and a last character that are not spaces. */
  lemma RemoveSpacesKeepsEnds(s: string)
    requires |s| > 0
    ensures s[0] != ' ' ==> |RemoveSpaces(s)| > 0 && RemoveSpaces(s)[0] == s[0]
    ensures s[|s| - 1] != ' ' ==>
      |RemoveSpaces(s)| > 0 && RemoveSpaces(s)[|RemoveSpaces(s)| - 1] == s[|s| - 1]
  {
    var n := |s| - 1;
    assert [s[0]] + s[1..] == s && s[..n] + [s[n]] == s;
    RemoveSpacesAppend([s[0]], s[1..]);
    RemoveSpacesAppend(s[..n], [s[n]]);
  }

  /** A string without spaces is left as it is. */
  lemma {:induction false} RemoveSpacesIdle(s: string)
    requires ' ' !in s
    ensures RemoveSpaces(s) == s
  {
    if |s| > 0 {
      assert ' ' !in s[1..] by {
        forall i | 0 <= i < |s[1..]| ensures s[1..][i] != ' ' {
          assert s[1..][i] == s[i + 1];
        }
      }
      RemoveSpacesIdle(s[1..]);
      assert s == [s[0]] + s[1..];
    }
  }

  /** Trimming empties exactly a blank text, and a text without white space is its own trimmed and space-free form. */
  lemma TrimExtremes(s: string)
    ensures |Trim(s)| == 0 <==> forall i :: 0 <= i < |s| ==> IsWhiteSpace(s[i])
    ensures (forall i :: 0 <= i < |s| ==> !IsWhiteSpace(s[i])) ==> Trim(s) == s && RemoveSpaces(s) == s
  {
    var r := Trim(s);
    var k :| TrimmedAt(s, r, k);
    if |r| > 0 {
      assert s[k] == r[0];
    }
    if forall i :: 0 <= i < |s| ==> !IsWhiteSpace(s[i]) {
      assert IsWhiteSpace(' ');
      RemoveSpacesIdle(s);
    }
  }

  /** A text trimmed, then without spaces: no white space at either end, and empty exactly for a blank text. */
  lemma TrimThenRemoveSpaces(s: string)
    ensures var name := RemoveSpaces(Trim(s));
      (|name| > 0 ==> !IsWhiteSpace(name[0]) && !IsWhiteSpace(name[|name| - 1])) &&
      (|name| == 0 <==> forall i :: 0 <= i < |s| ==> IsWhiteSpace(s[i])) &&
      ((forall i :: 0 <= i < |s| ==> !IsWhiteSpace(s[i])) ==> name == s)
  {
    var trimmed := Trim(s);
    TrimExtremes(s);
    if |trimmed| > 0 {
      assert IsWhiteSpace(' ');
      assert trimmed[0] != ' ' && trimmed[|trimmed| - 1] != ' ';
      RemoveSpacesKeepsEnds(trimmed);
    }
  }

  /** `needle` occurs in `haystack` starting at index `i`. */
  predicate OccursAt(haystack: string, needle: string, i: int) {
    0 <= i && i + |needle| <= |haystack| && haystack[i..i + |needle|] == needle
  }

  /** `haystack.IndexOf(needle) >= 0`, compared ordinally. */
  predicate Contains(haystack: string, needle: string) {
    exists i | 0 <= i <= |haystack| :: OccursAt(haystack, needle, i)
  }

  lemma ContainsInConcat(a: string, b: string, c: string)
    ensures Contains(a + b + c, b)
  {
    assert OccursAt(a + b + c, b, |a|) by {
      assert (a + b + c)[|a|..|a| + |b|] == b;
    }
  }

  /** A substring of a substring is a substring. */
  lemma ContainsTransitive(a: string, b: string, c: string)
    requires Contains(a, b) && Contains(b, c)
    ensures Contains(a, c)
  {
    var i :| 0 <= i <= |a| && OccursAt(a, b, i);
    var j :| 0 <= j <= |b| && OccursAt(b, c, j);
    forall k | 0 <= k < |c| ensures a[i + j + k] == c[k] {
      assert a[i + j + k] == a[i..i + |b|][j + k] == b[j..j + |c|][k];
    }
    assert a[i + j..i + j + |c|] == c;
    assert OccursAt(a, c, i + j);
  }

  predicate IsDigit(c: char) {
    '0' <= c <= '9'
  }

  function DigitChar(d: nat): (c: char)
    requires d < 10
    ensures IsDigit(c)
  {
    (('0' as int) + d) as char
  }

  function DigitValue(c: char): (d: nat)
    requires IsDigit(c)
    ensures d < 10 && DigitChar(d) == c
  {
    c as int - '0' as int
  }

  predicate AllDigits(s: string) {
    forall i :: 0 <= i < |s| ==> IsDigit(s[i])
  }

  /** `n.ToString()` for a non-negative integer: decimal digits, no leading zero. */
  function NatToString(n: nat): (s: string)
    ensures |s| > 0 && AllDigits(s)
    ensures s[0] == '0' <==> n == 0
    ensures n == 0 ==> s == "0"
  {
    if n < 10 then [DigitChar(n)] else NatToString(n / 10) + [DigitChar(n % 10)]
  }

  /** The value of a string of decimal digits. */
  function ParseDecimal(s: string): nat
    requires AllDigits(s)
  {
    if |s| == 0 then 0 else ParseDecimal(s[..|s| - 1]) * 10 + DigitValue(s[|s| - 1])
  }

  lemma {:induction false} ParseNatToString(n: nat)
    ensures ParseDecimal(NatToString(n)) == n
  {
    var s := NatToString(n);
    if n >= 10 {
      assert s[..|s| - 1] == NatToString(n / 10);
      ParseNatToString(n / 10);
    }
  }

  /** Different numbers render differently. */
  lemma NatToStringInjective(a: nat, b: nat)
    requires a != b
    ensures NatToString(a) != NatToString(b)
  {
    ParseNatToString(a);
    ParseNatToString(b);
  }

  /** `n.ToString()` for any integer, with a leading minus sign when negative. */
  function IntToString(n: int): (s: string)
    ensures |s| > 0 && '.' !in s
    ensures n >= 0 ==> s == NatToString(n)
    ensures n < 0 ==> s[0] == '-' && s[1..] == NatToString(-n)
  {
    if n < 0 then "-" + NatToString(-n) else NatToString(n)
  }

  /** Different integers render differently. */
  lemma IntToStringInjective(a: int, b: int)
    requires a != b
    ensures IntToString(a) != IntToString(b)
  {
    if a < 0 && b < 0 {
      NatToStringInjective(-a, -b);
      PrefixedDiffer("-", NatToString(-a), NatToString(-b));
    } else if a >= 0 && b >= 0 {
      NatToStringInjective(a, b);
    } else if a < 0 {
      assert IsDigit(IntToString(b)[0]);
    } else {
      assert IsDigit(IntToString(a)[0]);
    }
  }

  /** Equal prefixes followed by different rest are different strings. */
  lemma PrefixedDiffer(prefix: string, a: string, b: string)
    requires a != b
    ensures prefix + a != prefix + b
  {
    assert (prefix + a)[|prefix|..] == a;
    assert (prefix + b)[|prefix|..] == b;
  }
}
