/**
 * How the dumper renders a Go string: control characters are escaped first
 * (`escapeControl`), then the escaped text is cut to the configured number of
 * runes with a trailing ellipsis, and the result is put in double quotes.
 */
module Escape {

  const Esc: char := '\U{1B}'
  const VerticalTab: char := '\U{0B}'
  const FormFeed: char := '\U{0C}'

  /** The horizontal ellipsis appended to a cut string. */
  const Ellipsis: char := '\U{2026}'

  /** The six characters the replacer rewrites. */
  predicate IsControl(c: char)
  {
    c == '\n' || c == '\t' || c == '\r' || c == VerticalTab || c == FormFeed || c == Esc
  }

  /** The replacement of one character: a two- or four-character escape for a control character. */
  function EscapeChar(c: char): (r: string)
    ensures !IsControl(c) ==> r == [c]
    ensures IsControl(c) ==> |r| >= 2 && r[0] == '\\'
    ensures forall i :: 0 <= i < |r| ==> !IsControl(r[i])
  {
    if c == '\n' then "\\n"
    else if c == '\t' then "\\t"
    else if c == '\r' then "\\r"
    else if c == VerticalTab then "\\v"
    else if c == FormFeed then "\\f"
    else if c == Esc then "\\x1b"
    else [c]
  }

  /** `escapeControl`: every character replaced independently. */
  function EscapeControl(s: string): (r: string)
    ensures forall i :: 0 <= i < |r| ==> !IsControl(r[i])
    ensures (forall i :: 0 <= i < |s| ==> !IsControl(s[i])) ==> r == s
    ensures |r| >= |s|
    decreases |s|
  {
    if |s| == 0 then ""
    else
      var r := EscapeChar(s[0]) + EscapeControl(s[1..]);
      assert forall i :: 0 <= i < |r| ==> !IsControl(r[i]) by {
        forall i | 0 <= i < |r| ensures !IsControl(r[i]) {
          if i >= |EscapeChar(s[0])| {
            assert r[i] == EscapeControl(s[1..])[i - |EscapeChar(s[0])|];
          }
        }
      }
      r
  }

  /** Escaping distributes over concatenation: each character is replaced on its own. */
  lemma {:induction false} EscapeConcat(a: string, b: string)
    ensures EscapeControl(a + b) == EscapeControl(a) + EscapeControl(b)
    decreases |a|
  {
    if |a| > 0 {
      var c := EscapeChar(a[0]);
      assert (a + b)[0] == a[0] && (a + b)[1..] == a[1..] + b;
      assert EscapeControl(a + b) == c + EscapeControl(a[1..] + b);
      EscapeConcat(a[1..], b);
      assert c + (EscapeControl(a[1..]) + EscapeControl(b)) == (c + EscapeControl(a[1..])) + EscapeControl(b);
    } else {
      assert a + b == b;
    }
  }

  /** Reads the escapes back; any other character stands for itself. */
  function Unescape(t: string): string
    decreases |t|
  {
    if |t| == 0 then ""
    else if t[0] == '\\' && |t| >= 2 && t[1] == 'n' then "\n" + Unescape(t[2..])
    else if t[0] == '\\' && |t| >= 2 && t[1] == 't' then "\t" + Unescape(t[2..])
    else if t[0] == '\\' && |t| >= 2 && t[1] == 'r' then "\r" + Unescape(t[2..])
    else if t[0] == '\\' && |t| >= 2 && t[1] == 'v' then [VerticalTab] + Unescape(t[2..])
    else if t[0] == '\\' && |t| >= 2 && t[1] == 'f' then [FormFeed] + Unescape(t[2..])
    else if t[0] == '\\' && |t| >= 4 && t[1..4] == "x1b" then [Esc] + Unescape(t[4..])
    else [t[0]] + Unescape(t[1..])
  }

  /** Reading back the replacement of one character, followed by anything. */
  lemma UnescapeChar(c: char, rest: string)
    requires c != '\\'
    ensures Unescape(EscapeChar(c) + rest) == [c] + Unescape(rest)
  {
    var t := EscapeChar(c) + rest;
    if IsControl(c) {
      if c == Esc {
        assert t[1..4] == "x1b" && t[4..] == rest;
      } else {
        assert t[2..] == rest;
      }
    } else {
      assert t[1..] == rest;
    }
  }

  /**
   * Escaping loses no information on text without backslashes. (With a
   * backslash it may: a newline and the two characters `\n` escape alike.)
   */
  lemma {:induction false} UnescapeRoundTrip(s: string)
    requires '\\' !in s
    ensures Unescape(EscapeControl(s)) == s
    decreases |s|
  {
    if |s| > 0 {
      assert s[0] in s;
      assert '\\' !in s[1..] by {
        forall c | c in s[1..] ensures c != '\\' {
          assert c in s;
        }
      }
      UnescapeChar(s[0], EscapeControl(s[1..]));
      UnescapeRoundTrip(s[1..]);
      assert s == [s[0]] + s[1..];
    }
  }

  /**
   * Cuts a text to `max` runes plus an ellipsis when it is longer than `max`
   * (`utf8.RuneCountInString` and `[]rune` slicing).
   */
  function Clip(t: string, max: nat): (r: string)
    ensures |t| <= max ==> r == t
    ensures |t| > max ==> |r| == max + 1 && r[..max] == t[..max] && r[max] == Ellipsis
  {
    if |t| > max then t[..max] + [Ellipsis] else t
  }

  /** The text the string case of the renderer writes (colour codes aside). */
  function QuotedString(s: string, maxStringLen: nat): (r: string)
    ensures |r| >= 2 && r[0] == '"' && r[|r| - 1] == '"'
    ensures |r| <= maxStringLen + 3
    ensures |EscapeControl(s)| <= maxStringLen ==> r[1..|r| - 1] == EscapeControl(s)
    ensures |EscapeControl(s)| > maxStringLen ==>
              r[|r| - 2] == Ellipsis && r[1..|r| - 2] == EscapeControl(s)[..maxStringLen]
  {
    "\"" + Clip(EscapeControl(s), maxStringLen) + "\""
  }
}
