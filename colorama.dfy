/** The terminal escape codes the formatter uses, as colorama names them.
    Each code is an abstract token: two tokens are equal exactly when they
    are the same attribute of the same colorama class (`Back.RED` and
    `Fore.RED` are different codes), which is what the distinct ANSI strings
    behind them guarantee. Their byte values are not modelled. */
module Colorama {

  /** The attributes of colorama's `Back` class: background colours. */
  datatype Back =
    | BLACK | RED | GREEN | YELLOW | BLUE | MAGENTA | CYAN | WHITE
    | RESET
    | LIGHTBLACK_EX | LIGHTRED_EX | LIGHTGREEN_EX | LIGHTYELLOW_EX
    | LIGHTBLUE_EX | LIGHTMAGENTA_EX | LIGHTCYAN_EX | LIGHTWHITE_EX

  /** The attributes of colorama's `Fore` class: foreground colours. */
  datatype Fore =
    | BLACK | RED | GREEN | YELLOW | BLUE | MAGENTA | CYAN | WHITE
    | RESET
    | LIGHTBLACK_EX | LIGHTRED_EX | LIGHTGREEN_EX | LIGHTYELLOW_EX
    | LIGHTBLUE_EX | LIGHTMAGENTA_EX | LIGHTCYAN_EX | LIGHTWHITE_EX

  /** The attributes of colorama's `Style` class. */
  datatype Style = BRIGHT | DIM | NORMAL | RESET_ALL

  /** Any one colorama escape code. */
  datatype Token =
    | BackCode(back: Back)
    | ForeCode(fore: Fore)
    | StyleCode(style: Style)

  /** Every background colour colorama defines. */
  const AllBacks: set<Back> := {
    Back.BLACK, Back.RED, Back.GREEN, Back.YELLOW, Back.BLUE, Back.MAGENTA,
    Back.CYAN, Back.WHITE, Back.RESET,
    Back.LIGHTBLACK_EX, Back.LIGHTRED_EX, Back.LIGHTGREEN_EX, Back.LIGHTYELLOW_EX,
    Back.LIGHTBLUE_EX, Back.LIGHTMAGENTA_EX, Back.LIGHTCYAN_EX, Back.LIGHTWHITE_EX
  }

  /** The eight standard ANSI background colours (the others are the reset
      and the light variants). */
  const StandardBacks: set<Back> := {
    Back.BLACK, Back.RED, Back.GREEN, Back.YELLOW, Back.BLUE, Back.MAGENTA,
    Back.CYAN, Back.WHITE
  }

  /** `AllBacks` really lists every background. */
  lemma AllBacksComplete(b: Back)
    ensures b in AllBacks
  {
    match b
    case BLACK =>
    case RED =>
    case GREEN =>
    case YELLOW =>
    case BLUE =>
    case MAGENTA =>
    case CYAN =>
    case WHITE =>
    case RESET =>
    case LIGHTBLACK_EX =>
    case LIGHTRED_EX =>
    case LIGHTGREEN_EX =>
    case LIGHTYELLOW_EX =>
    case LIGHTBLUE_EX =>
    case LIGHTMAGENTA_EX =>
    case LIGHTCYAN_EX =>
    case LIGHTWHITE_EX =>
  }
}
