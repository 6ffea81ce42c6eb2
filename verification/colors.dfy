/**
 * The two plain colorizers: one leaves the text alone, the other wraps it in
 * an ANSI colour code and the reset sequence. The renderer itself is modelled
 * with the first (colour codes carry no structure of the dump).
 */
module Colors {

  const Reset: string := "\U{1B}[0m"
  const Gray: string := "\U{1B}[90m"
  const Yellow: string := "\U{1B}[33m"
  const Lime: string := "\U{1B}[1;38;5;113m"
  const Cyan: string := "\U{1B}[38;5;38m"
  const Note: string := "\U{1B}[38;5;38m"
  const Ref: string := "\U{1B}[38;5;247m"
  const Meta: string := "\U{1B}[38;5;170m"
  const DefaultColor: string := "\U{1B}[38;5;208m"

  /** `colorizeUnstyled`: the text without any colour. */
  function ColorizeUnstyled(code: string, s: string): (r: string)
    ensures r == s
  {
    s
  }

  /** `colorizeANSI`: the code, the text, then the reset sequence. */
  function ColorizeANSI(code: string, s: string): (r: string)
    ensures |r| == |code| + |s| + |Reset|
    ensures r[..|code|] == code && r[|r| - |Reset|..] == Reset
  {
    code + s + Reset
  }

  /** Removes a leading colour code and a trailing reset, if both are there. */
  function StripColor(code: string, t: string): string
  {
    if |code| + |Reset| <= |t| && t[..|code|] == code && t[|t| - |Reset|..] == Reset
    then t[|code|..|t| - |Reset|]
    else t
  }

  /** ANSI colouring loses nothing: stripping it gives exactly the unstyled text. */
  lemma StripANSI(code: string, s: string)
    ensures StripColor(code, ColorizeANSI(code, s)) == ColorizeUnstyled(code, s)
  {
    var r := ColorizeANSI(code, s);
    assert r[|code|..|r| - |Reset|] == s;
  }
}
