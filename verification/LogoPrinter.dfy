/** Printing a logo beside the modules, over any number of `--watch` rounds. */
module LogoPrinter {
  import opened LogoText
  import opened LogoLines
  import opened Screens

  /** The line cache and the fields of the instance that printing reads and updates. */
  datatype State = State(lines: seq<CachedLine>, nextLine: nat, rightOffset: nat, position: Position,
                         width: nat, height: nat, keysHeight: nat)

  // ---- the printing functions ----------------------------------------------------------------

  /** The state after `ffLogoPrintLine`. */
  function Advance(s: State): State {
    s.(nextLine := if s.nextLine < |s.lines| then s.nextLine + 1 else s.nextLine, keysHeight := s.keysHeight + 1)
  }

  /** A cached line, and the way from its end to the modules. */
  function PutLine(s: State, line: CachedLine, t: Screen): Screen {
    if s.position == Right then Put(Put(Put(t, FarRight(s.rightOffset)), PutArt(line.chars)), FirstColumn)
    else Put(Put(t, PutArt(line.chars)), PutSpaces(if line.width < s.width then s.width - line.width else 0))
  }

  /** `ffLogoPrintLine`; `watch` is a positive `dynamicInterval`. */
  function PrintLine(s: State, watch: bool, t: Screen): Screen {
    var u := if s.lines != [] then
               if s.nextLine < |s.lines| then PutLine(s, s.lines[s.nextLine], t)
               else if s.position == Left then Put(t, PutSpaces(s.width))
               else t
             else if s.width > 0 then Put(t, Forward(s.width))
             else t;
    if watch && s.position == Left then Put(u, EraseLine) else u
  }

  /** A module line: the logo, the content, a line feed. */
  function PrintModule(s: State, watch: bool, info: text, t: Screen): Screen {
    Put(Put(PrintLine(s, watch, t), PutInfo(info)), PutFeeds(1))
  }

  function AdvanceBy(s: State, n: nat): State {
    if n == 0 then s else Advance(AdvanceBy(s, n - 1))
  }

  function PrintModules(s: State, watch: bool, infos: seq<text>, t: Screen): Screen {
    if infos == [] then t
    else
      var n := |infos| - 1;
      PrintModule(AdvanceBy(s, n), watch, infos[n], PrintModules(s, watch, infos[..n], t))
  }

  /** The cached lines `from..upto`, each on a row of its own. */
  function PutRest(s: State, from: nat, upto: nat, t: Screen): Screen
    requires from <= upto <= |s.lines|
    decreases upto - from
  {
    if from == upto then t
    else
      var u := PutRest(s, from, upto - 1, t);
      var v := if s.position == Right then Put(u, FarRight(s.rightOffset)) else u;
      Put(Put(v, PutArt(s.lines[upto - 1].chars)), PutFeeds(1))
  }

  predicate Cached(s: State) { s.lines != [] && (s.position == Left || s.position == Right) }

  function Cleared(s: State): State { s.(lines := [], nextLine := 0, rightOffset := 0) }

  /** `ffLogoPrintRemaining`. */
  function PrintRemaining(s: State, pipe: bool, t: Screen): Screen {
    if Cached(s) then
      var u := if s.nextLine <= |s.lines| then PutRest(s, s.nextLine, |s.lines|, t) else t;
      if pipe then u else Put(u, ResetColor)
    else
      Put(t, PutFeeds(if s.keysHeight <= s.height then s.height - s.keysHeight + 1 else 0))
  }

  function RemainingState(s: State): State {
    var u := s.(keysHeight := s.height + 1);
    if Cached(s) then Cleared(u) else u
  }

  /** One round: the modules and the rest of the logo. */
  function Round(s: State, watch: bool, pipe: bool, infos: seq<text>, t: Screen): Screen {
    PrintRemaining(AdvanceBy(s, |infos|), pipe, PrintModules(s, watch, infos, t))
  }

  /** The end of a watch round: the rest of the screen is erased and the cursor goes home. */
  function EndRound(t: Screen): Screen { Put(Put(t, EraseBelow), Home) }

  function RoundState(s: State, n: nat): State { RemainingState(AdvanceBy(s, n)).(keysHeight := 0) }

  /** The watch loop over `rounds`; every round draws its module lines. */
  function Watch(s: State, pipe: bool, rounds: seq<seq<text>>, t: Screen): Screen {
    if rounds == [] then t
    else
      var n := |rounds| - 1;
      EndRound(Round(WatchState(s, rounds[..n]), true, pipe, rounds[n], Watch(s, pipe, rounds[..n], t)))
  }

  function WatchState(s: State, rounds: seq<seq<text>>): State {
    if rounds == [] then s
    else RoundState(WatchState(s, rounds[..|rounds| - 1]), |rounds[|rounds| - 1]|)
  }
}
