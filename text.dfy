/** String helpers the pages rely on: JavaScript's `trim`, decimal rendering of
    numbers, `padStart`, and `replace` with a string pattern. */
module Text {
  import opened Wrappers

  /** The characters JavaScript's `String.prototype.trim` removes: the
      WhiteSpace and LineTerminator code points of ECMAScript. */
  predicate IsSpace(c: char) {
    c == '\t' || c == '\n' || c == '\U{B}' || c == '\U{C}' || c == '\r' || c == ' '
    || c == '\U{A0}' || c == '\U{1680}' || ('\U{2000}' <= c <= '\U{200A}')
    || c == '\U{2028}' || c == '\U{2029}' || c == '\U{202F}' || c == '\U{205F}'
    || c == '\U{3000}' || c == '\U{FEFF}'
  }

  predicate IsBlank(s: string) {
    forall i :: 0 <= i < |s| ==> IsSpace(s[i])
  }

  function TrimStart(s: string): (r: string)
    ensures |r| <= |s|
    ensures r == [] || !IsSpace(r[0])
    ensures r == [] <==> IsBlank(s)
  {
    if s != [] && IsSpace(s[0]) then TrimStart(s[1..]) else s
  }

  function TrimEnd(s: string): (r: string)
    ensures |r| <= |s|
    ensures r == [] || !IsSpace(r[|r| - 1])
    ensures r != [] ==> r[0] == s[0]
    ensures r == [] <==> IsBlank(s)
  {
    if s != [] && IsSpace(s[|s| - 1]) then TrimEnd(s[..|s| - 1]) else s
  }

  /** `s.trim()`: a piece of `s` with no white space at either end, empty
      exactly when `s` is blank. */
  function Trim(s: string): (r: string)
    ensures |r| <= |s|
    ensures r == [] <==> IsBlank(s)
    ensures r == [] || (!IsSpace(r[0]) && !IsSpace(r[|r| - 1]))
  {
    TrimEnd(TrimStart(s))
  }

  /** White space after the text is what `trimEnd` drops. */
  lemma {:induction false} TrimEndBlankSuffix(s: string, t: string)
    requires IsBlank(t)
    ensures TrimEnd(s + t) == TrimEnd(s)
  {
    if t != [] {
      var u := t[..|t| - 1];
      assert (s + t)[|s + t| - 1] == t[|t| - 1];
      assert (s + t)[..|s + t| - 1] == s + u;
      assert IsBlank(u) && IsSpace(t[|t| - 1]);
      assert TrimEnd(s + t) == TrimEnd(s + u);
      TrimEndBlankSuffix(s, u);
    } else {
      assert s + t == s;
    }
  }

  // ---------------------------------------------------------------------
  // `.length`: UTF-16 code units

  /** The UTF-16 code units of one character: a character outside the Basic
      Multilingual Plane is stored as a surrogate pair, every other one as a
      single unit. */
  function CodeUnits(c: char): (n: nat)
    ensures n == 1 || n == 2
  {
    if c as int > 0xFFFF then 2 else 1
  }

  /** `s.length` in JavaScript, which counts UTF-16 code units rather than
      characters: between one and two units per character. */
  function Utf16Length(s: string): (n: nat)
    ensures |s| <= n <= 2 * |s|
  {
    if s == [] then 0 else CodeUnits(s[0]) + Utf16Length(s[1..])
  }

  /** Text inside the Basic Multilingual Plane is as long in code units as
      in characters. */
  lemma {:induction false} Utf16LengthBmp(s: string)
    requires forall i :: 0 <= i < |s| ==> s[i] as int <= 0xFFFF
    ensures Utf16Length(s) == |s|
  {
    if s != [] {
      Utf16LengthBmp(s[1..]);
    }
  }

  /** Text made only of characters beyond the Basic Multilingual Plane (most
      emoji) counts two code units per character. */
  lemma {:induction false} Utf16LengthAstral(s: string)
    requires forall i :: 0 <= i < |s| ==> s[i] as int > 0xFFFF
    ensures Utf16Length(s) == 2 * |s|
  {
    if s != [] {
      Utf16LengthAstral(s[1..]);
    }
  }

  // ---------------------------------------------------------------------
  // Decimal rendering (`n.toString()`) and its inverse

  predicate IsDigit(c: char) {
    '0' <= c <= '9'
  }

  predicate AllDigits(s: string) {
    forall i :: 0 <= i < |s| ==> IsDigit(s[i])
  }

  function DigitChar(d: nat): (c: char)
    requires d < 10
    ensures IsDigit(c) && c as int - '0' as int == d
  {
    ('0' as int + d) as char
  }

  /** `n.toString()` for a non-negative integer. */
  function NatToString(n: nat): (s: string)
    ensures |s| >= 1 && AllDigits(s)
    ensures |s| > 1 ==> s[0] != '0'
    ensures n < 10 <==> |s| == 1
  {
    if n < 10 then [DigitChar(n)] else NatToString(n / 10) + [DigitChar(n % 10)]
  }

  /** The number a string of decimal digits denotes. */
  function DigitsValue(s: string): nat
    requires AllDigits(s)
  {
    if s == [] then 0 else DigitsValue(s[..|s| - 1]) * 10 + (s[|s| - 1] as int - '0' as int)
  }

  lemma {:induction false} NatToStringRoundTrip(n: nat)
    ensures DigitsValue(NatToString(n)) == n
  {
    if n >= 10 {
      var s := NatToString(n);
      assert s[..|s| - 1] == NatToString(n / 10);
      NatToStringRoundTrip(n / 10);
    }
  }

  function Pow10(k: nat): nat {
    if k == 0 then 1 else 10 * Pow10(k - 1)
  }

  /** A number below `10^k` has at most `k` digits. */
  lemma {:induction false} NatToStringLength(n: nat, k: nat)
    requires 1 <= k && n < Pow10(k)
    ensures |NatToString(n)| <= k
  {
    if n >= 10 {
      assert k >= 2;
      assert n / 10 < Pow10(k - 1);
      NatToStringLength(n / 10, k - 1);
    }
  }

  /** A leading '0' does not change the value of a digit string. */
  lemma {:induction false} LeadingZeroValue(s: string)
    requires AllDigits(s)
    ensures AllDigits("0" + s) && DigitsValue("0" + s) == DigitsValue(s)
  {
    if s != [] {
      assert ("0" + s)[..|"0" + s| - 1] == "0" + s[..|s| - 1];
      LeadingZeroValue(s[..|s| - 1]);
    }
  }

  function Repeat(c: char, n: nat): (r: string)
    ensures |r| == n && forall i :: 0 <= i < n ==> r[i] == c
  {
    if n == 0 then [] else [c] + Repeat(c, n - 1)
  }

  /** `s.padStart(width, c)`: never shortens `s`, keeps it as the suffix. */
  function PadStart(s: string, width: nat, c: char): (r: string)
    ensures |r| == if |s| >= width then |s| else width
    ensures r[|r| - |s|..] == s
    ensures forall i :: 0 <= i < |r| - |s| ==> r[i] == c
  {
    if |s| >= width then s else Repeat(c, width - |s|) + s
  }

  /** Zeros in front of a digit string do not change its value. */
  lemma {:induction false} LeadingZerosValue(k: nat, s: string)
    requires AllDigits(s)
    ensures AllDigits(Repeat('0', k) + s) && DigitsValue(Repeat('0', k) + s) == DigitsValue(s)
  {
    if k > 0 {
      LeadingZerosValue(k - 1, s);
      var t := Repeat('0', k - 1) + s;
      assert Repeat('0', k) == "0" + Repeat('0', k - 1);
      assert Repeat('0', k) + s == "0" + t;
      LeadingZeroValue(t);
    } else {
      assert Repeat('0', k) + s == s;
    }
  }

  /** Padding a number's digits with '0' keeps its value. */
  lemma ZeroPaddingValue(s: string, width: nat)
    requires AllDigits(s)
    ensures AllDigits(PadStart(s, width, '0'))
    ensures DigitsValue(PadStart(s, width, '0')) == DigitsValue(s)
  {
    if |s| < width {
      LeadingZerosValue(width - |s|, s);
    }
  }

  // ---------------------------------------------------------------------
  // `s.replace(pattern, replacement)` with a string pattern

  predicate OccursAt(s: string, pat: string, k: nat) {
    k + |pat| <= |s| && s[k..k + |pat|] == pat
  }

  /** `s.indexOf(pat)`, with None for -1. */
  function IndexOf(s: string, pat: string): (r: Option<nat>)
    ensures r.Some? ==> OccursAt(s, pat, r.value)
    ensures r.Some? ==> forall j :: 0 <= j < r.value ==> !OccursAt(s, pat, j)
    ensures r.None? ==> forall j :: 0 <= j <= |s| ==> !OccursAt(s, pat, j)
  {
    if |pat| > |s| then None
    else if s[..|pat|] == pat then Some(0)
    else
      match IndexOf(s[1..], pat)
      case None =>
        assert forall j :: 1 <= j <= |s| ==> (OccursAt(s, pat, j) <==> OccursAt(s[1..], pat, j - 1));
        None
      case Some(k) =>
        assert forall j :: 1 <= j <= k ==> (OccursAt(s, pat, j) <==> OccursAt(s[1..], pat, j - 1));
        assert s[k + 1..k + 1 + |pat|] == s[1..][k..k + |pat|];
        Some(k + 1)
  }

  /** An occurrence starts with the pattern's first character. */
  lemma OccurrenceStartsWithHead(s: string, pat: string, k: nat)
    requires |pat| > 0
    ensures OccursAt(s, pat, k) ==> s[k] == pat[0]
  {
    if OccursAt(s, pat, k) {
      assert s[k..k + |pat|][0] == s[k];
    }
  }

  /** JavaScript's `replace` with a string pattern: only the first occurrence is replaced. */
  function ReplaceFirst(s: string, pat: string, rep: string): string {
    match IndexOf(s, pat)
    case None => s
    case Some(k) => s[..k] + rep + s[k + |pat|..]
  }

  lemma ReplaceFirstAt(prefix: string, pat: string, rep: string, suffix: string)
    requires forall j :: 0 <= j < |prefix| ==> !OccursAt(prefix + pat + suffix, pat, j)
    ensures ReplaceFirst(prefix + pat + suffix, pat, rep) == prefix + rep + suffix
  {
    var s := prefix + pat + suffix;
    assert OccursAt(s, pat, |prefix|) by {
      assert s[|prefix|..|prefix| + |pat|] == pat;
    }
    var k := IndexOf(s, pat).value;
    assert k == |prefix|;
    assert s[..k] == prefix && s[k + |pat|..] == suffix;
  }

  /** The second piece of a four-part concatenation. */
  lemma SliceOfSecond<T>(a: seq<T>, b: seq<T>, c: seq<T>, d: seq<T>)
    ensures (a + b + c + d)[|a|..|a| + |b|] == b
  {
    assert a + b + c + d == a + (b + (c + d));
  }

  /** The text after the last '.', i.e. `name.split('.').pop()`; the whole
      name when it has no '.'. */
  function AfterLastDot(name: string): (r: string)
    ensures |r| <= |name| && '.' !in r
    ensures '.' !in name ==> r == name
  {
    if name == [] then []
    else if name[|name| - 1] == '.' then []
    else AfterLastDot(name[..|name| - 1]) + [name[|name| - 1]]
  }

  /** The text after the last '.' of `x + "." + e` is `e` when `e` has no '.'. */
  lemma {:induction false} AfterLastDotAppend(x: string, e: string)
    requires '.' !in e
    ensures AfterLastDot(x + "." + e) == e
  {
    var s := x + "." + e;
    if e == [] {
      assert s[|s| - 1] == '.';
    } else {
      var e' := e[..|e| - 1];
      var c := e[|e| - 1];
      assert c != '.' by {
        assert c in e;
      }
      assert s == (x + "." + e') + [c];
      assert s[|s| - 1] == c && s[..|s| - 1] == x + "." + e';
      assert AfterLastDot(s) == AfterLastDot(x + "." + e') + [c];
      AfterLastDotAppend(x, e');
      assert e == e' + [c];
    }
  }

  // ---------------------------------------------------------------------
  // What `trim` removes

  /** Where `trimStart` cuts: a blank prefix goes, the rest of `s` stays. */
  lemma {:induction false} TrimStartCut(s: string) returns (i: nat)
    ensures i <= |s| && TrimStart(s) == s[i..] && IsBlank(s[..i])
  {
    if s != [] && IsSpace(s[0]) {
      var t := s[1..];
      var m := TrimStartCut(t);
      i := m + 1;
      assert t[m..] == s[i..];
      forall x | 0 <= x < i
        ensures IsSpace(s[..i][x])
      {
        if x > 0 {
          assert s[..i][x] == t[..m][x - 1];
        }
      }
    } else {
      i := 0;
    }
  }

  /** Where `trimEnd` cuts: a blank suffix goes, the rest of `s` stays. */
  lemma {:induction false} TrimEndCut(s: string) returns (j: nat)
    ensures j <= |s| && TrimEnd(s) == s[..j] && IsBlank(s[j..])
  {
    if s != [] && IsSpace(s[|s| - 1]) {
      var u := s[..|s| - 1];
      j := TrimEndCut(u);
      assert u[..j] == s[..j];
      forall x | 0 <= x < |s| - j
        ensures IsSpace(s[j..][x])
      {
        if x < |u| - j {
          assert s[j..][x] == u[j..][x];
        }
      }
    } else {
      j := |s|;
    }
  }

  /** `s.trim()` is `s` with its leading and trailing white space removed and
      nothing else: a blank prefix and a blank suffix are cut off, and what
      remains neither starts nor ends with white space. */
  lemma TrimSpec(s: string)
    ensures exists i, j :: 0 <= i <= j <= |s| && Trim(s) == s[i..j] && IsBlank(s[..i]) && IsBlank(s[j..])
    ensures Trim(s) == [] || (!IsSpace(Trim(s)[0]) && !IsSpace(Trim(s)[|Trim(s)| - 1]))
  {
    var i := TrimStartCut(s);
    var t := s[i..];
    var k := TrimEndCut(t);
    assert t[..k] == s[i..i + k];
    assert t[k..] == s[i + k..];
  }
}
