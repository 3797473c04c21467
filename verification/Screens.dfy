/** What a terminal shows after the output of the logo printer. */
module Screens {
  import opened LogoText

  /** One cell: empty, or column `column` of a logo line or of a module line. */
  datatype Ink = Blank | Art(chars: text, column: nat) | Info(chars: text, column: nat)

  /** What is written to the standard output. */
  datatype Token = PutArt(chars: text) | PutInfo(chars: text) | PutSpaces(count: nat) | PutFeeds(count: nat)
                 | Forward(count: nat)  // \e[nC
                 | FarRight(back: nat)  // \e[9999999C \e[nD
                 | FirstColumn          // \e[G
                 | EraseLine            // \e[K
                 | EraseBelow           // \e[J
                 | Home                 // \e[H
                 | ResetColor           // \e[m

  /**
    A terminal that is high enough not to scroll and does not wrap lines.
    `art` lists the logo lines written so far; `plain` says that the colours were
    reset after the last text.
   */
  datatype Screen = Screen(columns: nat, wcwidth: int -> int, row: nat, column: nat,
                           cells: (nat, nat) -> Ink, art: seq<text>, plain: bool)

  /** The visible columns of a text. */
  function Visible(s: Screen, chars: text): nat { Columns(Strip(chars), s.wcwidth) }

  /** The cells after `n` columns of the cursor's row are filled by `ink`, from the cursor on. */
  function Filled(s: Screen, n: nat, ink: nat -> Ink): (nat, nat) -> Ink {
    (r: nat, c: nat) => if r == s.row && s.column <= c < s.column + n then ink(c - s.column) else s.cells(r, c)
  }

  /** The cursor moves right by `n`; a text without a line feed stays on its row. */
  function Write(s: Screen, n: nat, ink: nat -> Ink): Screen {
    s.(cells := Filled(s, n, ink), column := s.column + n)
  }

  /** The effect of one token; the parameter 0 of a cursor movement counts as 1. */
  function Put(s: Screen, x: Token): (t: Screen)
    ensures t.columns == s.columns && t.wcwidth == s.wcwidth
  {
    match x
    case PutArt(chars) =>
      Write(s, Visible(s, chars), (c: nat) => Art(chars, c)).(art := s.art + [chars], plain := false)
    case PutInfo(chars) => Write(s, Visible(s, chars), (c: nat) => Info(chars, c)).(plain := false)
    case PutSpaces(n) => Write(s, n, (c: nat) => Blank)
    case PutFeeds(n) => if n == 0 then s else s.(row := s.row + n, column := 0)
    case Forward(n) =>
      var c := s.column + (if n == 0 then 1 else n);
      s.(column := if c < s.columns then c else if s.columns == 0 then 0 else s.columns - 1)
    case FarRight(back) =>
      var last := if s.columns == 0 then 0 else s.columns - 1;
      var n := if back == 0 then 1 else back;
      s.(column := if n <= last then last - n else 0)
    case FirstColumn => s.(column := 0)
    case EraseLine =>
      s.(cells := (r: nat, c: nat) => if r == s.row && c >= s.column then Blank else s.cells(r, c))
    case EraseBelow =>
      s.(cells := (r: nat, c: nat) => if r > s.row || (r == s.row && c >= s.column) then Blank else s.cells(r, c))
    case Home => s.(row := 0, column := 0)
    case ResetColor => s.(plain := true)
  }
}
