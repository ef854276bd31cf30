/**
 * The display styles of the countdown. The panel stores the chosen style as
 * a string; the settings menu stores one of four names, and the renderer's
 * switch maps a stored name back to a style, taking anything it does not
 * recognise as the digital display.
 */
module CountdownStyle {
  datatype Display = Digital | Circle | Minimal | Neon

  /** The string the settings menu stores for each style. */
  function StyleName(d: Display): string {
    match d
    case Digital => "digital"
    case Circle => "circle"
    case Minimal => "minimal"
    case Neon => "neon"
  }

  /**
   * The renderer's choice for a stored style name. A display other than the
   * digital one is chosen only for exactly its own name.
   */
  function RenderStyle(style: string): (d: Display)
    ensures d != Digital ==> style == StyleName(d)
  {
    if style == "circle" then Circle
    else if style == "minimal" then Minimal
    else if style == "neon" then Neon
    else Digital
  }

  /** Every name the menu stores is rendered as the style it was chosen for. */
  lemma RenderChosenStyle(d: Display)
    ensures RenderStyle(StyleName(d)) == d
  {
  }

  /** A name the menu never stores is rendered as the digital display. */
  lemma UnrecognisedIsDigital(style: string)
    requires forall d: Display :: style != StyleName(d)
    ensures RenderStyle(style) == Digital
  {
    assert style != StyleName(Circle);
    assert style != StyleName(Minimal);
    assert style != StyleName(Neon);
  }

  /** Different styles are stored under different names. */
  lemma StyleNamesDistinct(d: Display, e: Display)
    ensures StyleName(d) == StyleName(e) ==> d == e
  {
    RenderChosenStyle(d);
    RenderChosenStyle(e);
  }
}
