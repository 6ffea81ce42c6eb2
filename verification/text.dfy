/**
 * The handful of `fmt`/`strings` operations the dumper relies on, written out
 * over `string` (a sequence of runes): indentation, decimal and hexadecimal
 * number formatting, splitting on a separator, and trimming.
 */
module Text {

  /** Width of one indentation level (`indentWidth`). */
  const IndentWidth: nat := 2

  function Spaces(n: nat): (r: string)
    ensures |r| == n
    ensures forall i :: 0 <= i < n ==> r[i] == ' '
  {
    if n == 0 then "" else Spaces(n - 1) + " "
  }

  /** The prefix `indentPrint` writes before its text at a given depth. */
  function Indent(depth: nat): (r: string)
    ensures |r| == IndentWidth * depth
    ensures forall i :: 0 <= i < |r| ==> r[i] == ' '
  {
    Spaces(IndentWidth * depth)
  }

  // ---------------------------------------------------------------------
  // Numbers
  // ---------------------------------------------------------------------

  /** Lower-case digit of a value below 16, as `fmt` prints it. */
  function DigitChar(d: nat): char
    requires d < 16
  {
    if d < 10 then ('0' as int + d) as char else ('a' as int + d - 10) as char
  }

  /** Inverse of DigitChar on its range. */
  function DigitValue(c: char): nat
  {
    if '0' <= c <= '9' then (c - '0') as nat
    else if 'a' <= c <= 'f' then (c - 'a') as nat + 10
    else 0
  }

  predicate IsBase(base: nat)
  {
    base == 10 || base == 16
  }

  predicate IsDigitOf(c: char, base: nat)
    requires IsBase(base)
  {
    '0' <= c <= '9' || (base == 16 && 'a' <= c <= 'f')
  }

  predicate AllDigits(s: string, base: nat)
    requires IsBase(base)
  {
    forall i :: 0 <= i < |s| ==> IsDigitOf(s[i], base)
  }

  lemma DigitCharValue(d: nat, base: nat)
    requires IsBase(base) && d < base
    ensures IsDigitOf(DigitChar(d), base)
    ensures DigitValue(DigitChar(d)) == d
  {
  }

  /** The shortest digit string of `n` in `base` (no leading zeros). */
  function Digits(n: nat, base: nat): (r: string)
    requires IsBase(base)
    ensures |r| >= 1
    ensures AllDigits(r, base)
    decreases n
  {
    DigitCharValue(n % base, base);
    if n < base then [DigitChar(n)] else Digits(n / base, base) + [DigitChar(n % base)]
  }

  /** The number a digit string denotes (most significant digit first). */
  function ParseDigits(s: string, base: nat): nat
    requires IsBase(base)
    decreases |s|
  {
    if |s| == 0 then 0 else ParseDigits(s[..|s| - 1], base) * base + DigitValue(s[|s| - 1])
  }

  lemma {:induction false} DigitsRoundTrip(n: nat, base: nat)
    requires IsBase(base)
    ensures ParseDigits(Digits(n, base), base) == n
    decreases n
  {
    DigitCharValue(n % base, base);
    if n >= base {
      var s := Digits(n, base);
      assert s[..|s| - 1] == Digits(n / base, base);
      DigitsRoundTrip(n / base, base);
    }
  }

  /** `fmt.Sprint` of an integer: optional minus sign, then decimal digits. */
  function Decimal(i: int): (r: string)
    ensures |r| >= 1
  {
    if i < 0 then "-" + Digits(-i, 10) else Digits(i, 10)
  }

  function ParseDecimal(s: string): int
  {
    if |s| > 0 && s[0] == '-' then -(ParseDigits(s[1..], 10) as int) else ParseDigits(s, 10)
  }

  lemma DecimalRoundTrip(i: int)
    ensures ParseDecimal(Decimal(i)) == i
  {
    if i < 0 {
      assert Decimal(i)[1..] == Digits(-i, 10);
      DigitsRoundTrip(-i, 10);
    } else {
      assert IsDigitOf(Decimal(i)[0], 10);
      DigitsRoundTrip(i, 10);
    }
  }

  /** `fmt.Sprintf("%0<width>x", n)`: lower-case hex, zero-padded to at least `width` digits. */
  function HexPadded(n: nat, width: nat): (r: string)
    ensures |r| >= width
    ensures |Digits(n, 16)| <= width ==> |r| == width
    ensures AllDigits(r, 16)
  {
    var d := Digits(n, 16);
    var z := Zeros(width - |d|);
    var r := z + d;
    assert forall i :: 0 <= i < |r| ==> IsDigitOf(r[i], 16) by {
      forall i | 0 <= i < |r| ensures IsDigitOf(r[i], 16) {
        if i >= |z| {
          assert r[i] == d[i - |z|];
        }
      }
    }
    r
  }

  function Zeros(n: int): (r: string)
    ensures |r| == if n < 0 then 0 else n
    ensures forall i :: 0 <= i < |r| ==> r[i] == '0'
    decreases n
  {
    if n <= 0 then "" else Zeros(n - 1) + "0"
  }

  lemma {:induction false} ParseZeros(n: int)
    ensures ParseDigits(Zeros(n), 16) == 0
    decreases n
  {
    if n > 0 {
      assert Zeros(n)[..|Zeros(n)| - 1] == Zeros(n - 1);
      ParseZeros(n - 1);
    }
  }

  lemma {:induction false} ParseLeadingZeros(z: string, s: string)
    requires forall i :: 0 <= i < |z| ==> z[i] == '0'
    ensures ParseDigits(z + s, 16) == ParseDigits(s, 16)
    decreases |s|
  {
    if |s| == 0 {
      assert z + s == z;
      ParseAllZeros(z);
    } else {
      assert (z + s)[..|z + s| - 1] == z + s[..|s| - 1];
      ParseLeadingZeros(z, s[..|s| - 1]);
    }
  }

  lemma {:induction false} ParseAllZeros(z: string)
    requires forall i :: 0 <= i < |z| ==> z[i] == '0'
    ensures ParseDigits(z, 16) == 0
    decreases |z|
  {
    if |z| > 0 {
      ParseAllZeros(z[..|z| - 1]);
    }
  }

  /** Zero padding does not change the value a hex string denotes. */
  lemma HexPaddedRoundTrip(n: nat, width: nat)
    ensures ParseDigits(HexPadded(n, width), 16) == n
  {
    var d := Digits(n, 16);
    ParseLeadingZeros(Zeros(width - |d|), d);
    DigitsRoundTrip(n, 16);
  }

  // ---------------------------------------------------------------------
  // Searching, splitting, trimming
  // ---------------------------------------------------------------------

  /** Index of the first `c` in `s`, or -1 (`strings.IndexByte`). */
  function Find(s: string, c: char): (k: int)
    ensures -1 <= k < |s|
    ensures k >= 0 ==> s[k] == c && c !in s[..k]
    ensures k < 0 ==> c !in s
  {
    if |s| == 0 then -1
    else if s[0] == c then 0
    else
      var k := Find(s[1..], c);
      if k < 0 then -1
      else
        assert s[..k + 1] == [s[0]] + s[1..][..k];
        k + 1
  }

  /** `strings.Contains(s, sub)`. */
  predicate ContainsText(s: string, sub: string)
    decreases |s|
  {
    sub <= s || (|s| > 0 && ContainsText(s[1..], sub))
  }

  /** `strings.HasSuffix(s, suffix)`. */
  predicate HasSuffix(s: string, suffix: string)
  {
    |suffix| <= |s| && s[|s| - |suffix|..] == suffix
  }

  /** `strings.Split(s, string(sep))`: the pieces between separators; never empty. */
  function SplitOn(s: string, sep: char): (r: seq<string>)
    ensures |r| >= 1
    decreases |s|
  {
    var k := Find(s, sep);
    if k < 0 then [s] else [s[..k]] + SplitOn(s[k + 1..], sep)
  }

  /** No piece contains the separator. */
  lemma {:induction false} SplitPieces(s: string, sep: char, i: nat)
    requires i < |SplitOn(s, sep)|
    ensures sep !in SplitOn(s, sep)[i]
    decreases |s|
  {
    var k := Find(s, sep);
    if k >= 0 {
      var tail := SplitOn(s[k + 1..], sep);
      assert SplitOn(s, sep) == [s[..k]] + tail;
      if i > 0 {
        assert SplitOn(s, sep)[i] == tail[i - 1];
        SplitPieces(s[k + 1..], sep, i - 1);
      }
    }
  }

  /** `strings.Join(parts, string(sep))`. */
  function JoinWith(parts: seq<string>, sep: char): string
  {
    if |parts| == 0 then ""
    else if |parts| == 1 then parts[0]
    else parts[0] + [sep] + JoinWith(parts[1..], sep)
  }

  /** Splitting loses nothing: joining the pieces restores the input. */
  lemma {:induction false} SplitJoin(s: string, sep: char)
    ensures JoinWith(SplitOn(s, sep), sep) == s
    decreases |s|
  {
    var k := Find(s, sep);
    if k >= 0 {
      var rest := s[k + 1..];
      var tail := SplitOn(rest, sep);
      var parts := SplitOn(s, sep);
      assert parts == [s[..k]] + tail;
      assert parts[1..] == tail;
      assert JoinWith(parts, sep) == s[..k] + [sep] + JoinWith(tail, sep);
      SplitJoin(rest, sep);
      Reassemble(s, k);
    }
  }

  /** Cutting a sequence around one position and gluing it back changes nothing. */
  lemma Reassemble<T>(s: seq<T>, k: nat)
    requires k < |s|
    ensures s[..k] + [s[k]] + s[k + 1..] == s
  {
  }

  /** `strings.TrimRight(s, cutset)`: drop trailing runes that are in the cut set. */
  function TrimRightCutset(s: string, cut: set<char>): (r: string)
    ensures r <= s
    ensures |r| > 0 ==> r[|r| - 1] !in cut
    ensures forall i :: |r| <= i < |s| ==> s[i] in cut
    decreases |s|
  {
    if |s| > 0 && s[|s| - 1] in cut then TrimRightCutset(s[..|s| - 1], cut) else s
  }

  /** `unicode.IsSpace`, which `strings.TrimSpace` uses. */
  predicate IsSpace(c: char)
  {
    c == '\t' || c == '\n' || c == '\U{0B}' || c == '\U{0C}' || c == '\r' || c == ' '
    || c == '\U{85}' || c == '\U{A0}' || c == '\U{1680}'
    || ('\U{2000}' <= c <= '\U{200A}')
    || c == '\U{2028}' || c == '\U{2029}' || c == '\U{202F}' || c == '\U{205F}' || c == '\U{3000}'
  }

  predicate AllSpace(s: string)
  {
    forall i :: 0 <= i < |s| ==> IsSpace(s[i])
  }

  /** The length of the leading run of white space. */
  function LeadSpace(s: string): (i: nat)
    ensures i <= |s| && AllSpace(s[..i])
    ensures i < |s| ==> !IsSpace(s[i])
    decreases |s|
  {
    if |s| > 0 && IsSpace(s[0]) then
      var i := 1 + LeadSpace(s[1..]);
      assert s[..i] == [s[0]] + s[1..][..i - 1];
      i
    else 0
  }

  /** Where the trailing run of white space after position `i` begins. */
  function TrailEnd(s: string, i: nat): (j: nat)
    requires i <= |s|
    ensures i <= j <= |s| && AllSpace(s[j..])
    ensures j > i ==> !IsSpace(s[j - 1])
    decreases |s|
  {
    if |s| > i && IsSpace(s[|s| - 1]) then
      var j := TrailEnd(s[..|s| - 1], i);
      assert s[j..] == s[..|s| - 1][j..] + [s[|s| - 1]];
      j
    else |s|
  }

  /** `strings.TrimSpace`: the text between leading and trailing white space. */
  function TrimSpace(s: string): (r: string)
    ensures |r| > 0 ==> !IsSpace(r[0]) && !IsSpace(r[|r| - 1])
    ensures r == "" <==> AllSpace(s)
  {
    var i := LeadSpace(s);
    var j := TrailEnd(s, i);
    SpaceAround(s, i, j, s[i..j]);
    s[i..j]
  }

  /** The trimmed text is the part of `s` between its leading and its trailing white space. */
  lemma TrimSpaceIsSlice(s: string)
    ensures exists i, j :: 0 <= i <= j <= |s| && TrimSpace(s) == s[i..j] && AllSpace(s[..i]) && AllSpace(s[j..])
  {
    var i := LeadSpace(s);
    SpaceAround(s, i, TrailEnd(s, i), TrimSpace(s));
  }

  /** Text with white space before and after it, and none at its own start. */
  lemma SpaceAround(s: string, i: nat, j: nat, r: string)
    requires i <= j <= |s| && r == s[i..j] && AllSpace(s[..i]) && AllSpace(s[j..])
    requires |r| > 0 ==> !IsSpace(r[0])
    ensures exists i, j :: 0 <= i <= j <= |s| && r == s[i..j] && AllSpace(s[..i]) && AllSpace(s[j..])
    ensures r == "" <==> AllSpace(s)
  {
    if r == "" {
      forall k | 0 <= k < |s|
        ensures IsSpace(s[k])
      {
        if k < i { assert s[k] == s[..i][k]; } else { assert s[k] == s[j..][k - j]; }
      }
    } else {
      assert s[i] == r[0];
    }
  }
}
