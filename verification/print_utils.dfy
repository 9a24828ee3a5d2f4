/** Terminal colouring: the four ECMA-48 "select graphic rendition" sequences
    (section 8.3.117 of ECMA-48) that wrap a string in a colour and reset it
    afterwards. A colour is named by its string value, as the `Color` enum's
    members are; any other name falls through to the uncoloured string. */
module PrintUtils {
  import opened Common

  /** The escape character, U+001B. */
  const ESC: char := 27 as char

  /** `ESC [ <parameter> m`. */
  function Sgr(parameter: string): string {
    [ESC, '['] + parameter + "m"
  }

  const RESET: string := Sgr("0")
  const CYAN: string := Sgr("36")
  const YELLOW: string := Sgr("33")
  const GREEN: string := Sgr("32")
  const RED: string := Sgr("31")

  /** The values of the `Color` enum. */
  const COLOR_RED: string := "red"
  const COLOR_CYAN: string := "cyan"
  const COLOR_GREEN: string := "green"
  const COLOR_YELLOW: string := "yellow"

  /** The escape sequence a colour name selects, if it names one. */
  function Code(color: string): (r: Option<string>)
    ensures r.Some? <==> color in {COLOR_RED, COLOR_CYAN, COLOR_GREEN, COLOR_YELLOW}
    ensures r.Some? ==> |r.value| == 5 && r.value[..2] == [ESC, '['] && r.value[4] == 'm'
    ensures r.Some? ==> '0' <= r.value[2] <= '9' && '0' <= r.value[3] <= '9'
  {
    if color == COLOR_RED then Some(RED)
    else if color == COLOR_CYAN then Some(CYAN)
    else if color == COLOR_GREEN then Some(GREEN)
    else if color == COLOR_YELLOW then Some(YELLOW)
    else None
  }

  /** The four colour codes are pairwise different and none is the reset. */
  lemma CodesDistinct()
    ensures |{RED, CYAN, GREEN, YELLOW, RESET}| == 5
    ensures |RESET| == 4
  {
    assert RED[2..4] == "31" && CYAN[2..4] == "36" && GREEN[2..4] == "32" && YELLOW[2..4] == "33";
    assert |RESET| == 4 && |RED| == 5;
  }

  /** `colorize`: the colour's code, the string, then the reset; an unknown
      colour leaves the string as it is. */
  function Colorize(s: string, color: string): (r: string)
    ensures Code(color).None? ==> r == s
    ensures Code(color).Some? ==>
      && |r| == |s| + 9
      && r[..5] == Code(color).value
      && r[5..|s| + 5] == s
      && r[|s| + 5..] == RESET
  {
    var suffix := s + RESET;
    if color == COLOR_RED then RED + suffix
    else if color == COLOR_CYAN then CYAN + suffix
    else if color == COLOR_GREEN then GREEN + suffix
    else if color == COLOR_YELLOW then YELLOW + suffix
    else s
  }

  /** The colour a coloured string was wrapped in: it must start with one of
      the four codes and end with the reset. */
  function ColorOf(r: string): (c: Option<string>)
    ensures c.Some? ==> Code(c.value).Some? && |r| >= 9
  {
    if |r| < 9 || r[|r| - 4..] != RESET then None
    else if r[..5] == RED then Some(COLOR_RED)
    else if r[..5] == CYAN then Some(COLOR_CYAN)
    else if r[..5] == GREEN then Some(COLOR_GREEN)
    else if r[..5] == YELLOW then Some(COLOR_YELLOW)
    else None
  }

  /** Strips the colour code and the reset from a coloured string. */
  function Uncolorize(r: string): string {
    if ColorOf(r).Some? then r[5..|r| - 4] else r
  }

  /** Colouring is reversible: the colour and the text can both be read back
      from the result. */
  lemma ColorizeRoundTrip(s: string, color: string)
    requires Code(color).Some?
    ensures ColorOf(Colorize(s, color)) == Some(color)
    ensures Uncolorize(Colorize(s, color)) == s
  {
    var r := Colorize(s, color);
    CodesDistinct();
    assert r[|r| - 4..] == RESET;
  }

  /** `colorizeMeetRequirement`: green when the requirement is met, red when
      it is not. */
  function ColorizeMeetRequirement(s: string, isSatisfied: bool): (r: string)
    ensures ColorOf(r) == Some(if isSatisfied then COLOR_GREEN else COLOR_RED)
    ensures Uncolorize(r) == s
    ensures |r| == |s| + 9
  {
    var color := if isSatisfied then COLOR_GREEN else COLOR_RED;
    ColorizeRoundTrip(s, color);
    Colorize(s, color)
  }
}
