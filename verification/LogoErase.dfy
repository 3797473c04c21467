/** What the rounds of the printer leave behind of earlier rounds. */
module LogoErase {
  import opened CArithmetic
  import opened LogoText
  import opened LogoLines
  import opened Screens
  import opened LogoPrinter
  import opened LogoRounds

  ghost predicate BlankFrom(t: Screen, r: nat, from: nat) {
    forall c: nat | c >= from :: t.cells(r, c) == Blank
  }

  /** Row `r` shows no module text. */
  ghost predicate NoInfo(t: Screen, r: nat) {
    forall c: nat :: !t.cells(r, c).Info?
  }

  /** Nothing is left of what was right of the module lines. */
  ghost predicate RightErased(t: Screen, s: State, infos: seq<text>) {
    forall i: nat | i < |infos| :: BlankFrom(t, i, InfoColumn(s, i, t.wcwidth) + Visible(t, infos[i]))
  }

  // ---- one round ------------------------------------------------------------------------------

  /** In watch mode the row is cleared right of the logo before the module is printed. */
  lemma ModuleErases(s: State, info: text, t: Screen)
    requires AtRowStart(s, t) && s.position == Left
    ensures var u := PrintModule(s, true, info, t);
            BlankFrom(u, t.row, InfoColumn(s, s.nextLine, t.wcwidth) + Visible(t, info))
  {
    hide Columns, Strip, LineDone;
    var v := PrintLine(s, true, t);
    LineErases(s, t);
    LineColumn(s, t);
  }

  lemma LineErases(s: State, t: Screen)
    requires s.position == Left
    ensures var u := PrintLine(s, true, t); BlankFrom(u, u.row, u.column)
  {
    hide Columns, Strip, PutLine;
  }

  lemma LineColumn(s: State, t: Screen)
    requires AtRowStart(s, t)
    ensures var u := PrintLine(s, true, t);
            SameTerminal(t, u) && u.row == t.row && u.column == InfoColumn(s, s.nextLine, t.wcwidth)
  {
    hide Columns, Strip, Put, PrintLine, ArtAt, SameArea, SameRow, InfoColumn;
    LineAdvances(s, true, 0, t);
  }

  lemma {:induction false} ModulesErase(s: State, infos: seq<text>, t: Screen)
    requires AtRowStart(s, t) && t.row == 0 && s.nextLine == 0 && s.position == Left
    ensures RightErased(PrintModules(s, true, infos, t), s, infos)
    decreases |infos|
  {
    hide PrintModule, AdvanceBy, Columns, Strip, Texts, ArtShown, InfoShown, AllBeside, BlankFrom, SameRow, InfoAt;
    if infos != [] {
      var k := |infos| - 1;
      var v, u := PrintModules(s, true, infos[..k], t), PrintModules(s, true, infos, t);
      var at := ArtColumn(s, t.columns);
      ModulesErase(s, infos[..k], t);
      ModulesPrinted(s, true, infos[..k], at, t);
      AdvanceByCloses(s, k);
      ModuleErases(AdvanceBy(s, k), infos[k], v);
      ModuleLine(AdvanceBy(s, k), true, infos[k], at, v);
      forall i: nat | i < |infos| ensures BlankFrom(u, i, InfoColumn(s, i, u.wcwidth) + Visible(u, infos[i])) {
        if i < k {
          assert infos[..k][i] == infos[i];
          BlankStays(v, u, i, InfoColumn(s, i, u.wcwidth) + Visible(u, infos[i]));
        }
      }
    }
  }

  lemma BlankStays(t: Screen, u: Screen, r: nat, from: nat)
    requires BlankFrom(t, r, from) && SameRow(t, u, r)
    ensures BlankFrom(u, r, from)
  {
  }

  /** The rest of the logo is printed below the modules. */
  lemma RestKeeps(s: State, pipe: bool, infos: seq<text>, t: Screen)
    requires AtRoundStart(s, t) && (Cached(s) || s.lines == [])
    ensures var v, u := PrintModules(s, true, infos, t), Round(s, true, pipe, infos, t);
            SameTerminal(v, u) && forall r: nat | r < |infos| :: SameRow(v, u, r)
  {
    hide PrintModules, PutRest, AdvanceBy, Columns, Strip, Texts, ArtShown, InfoShown, AllBeside, ArtAt;
    ModulesPrinted(s, true, infos, ArtColumn(s, t.columns), t);
    AdvanceByCloses(s, |infos|);
    var v := PrintModules(s, true, infos, t);
    var a := AdvanceBy(s, |infos|);
    if Cached(s) {
      RestPrinted(a, a.nextLine, |a.lines|, v);
      var w := PutRest(a, a.nextLine, |a.lines|, v);
      ResetKeeps(s, 0, infos, w);
      forall r: nat | r < |infos| ensures SameRow(v, Round(s, true, pipe, infos, t), r) {
        assert SameRow(v, w, r) && SameRow(w, Put(w, ResetColor), r);
      }
    }
  }

  /** Where a round ends. */
  lemma RoundRow(s: State, pipe: bool, infos: seq<text>, t: Screen)
    requires AtRoundStart(s, t) && (Cached(s) || s.lines == [])
    ensures var u := Round(s, true, pipe, infos, t);
            SameTerminal(t, u) && u.row == Max(|infos|, s.height + 1) && u.column == 0
  {
    hide Round, Columns, Strip, Texts, ArtShown, InfoShown, AllBeside;
    if Cached(s) {
      FirstRound(s, true, pipe, infos, t);
    } else {
      LaterRound(s, true, pipe, infos, 0, t);
    }
  }

  /** After a round everything below it is blank, and on the left everything right of its module lines. */
  lemma RoundErases(s: State, pipe: bool, infos: seq<text>, t: Screen)
    requires AtRoundStart(s, t) && (Cached(s) || s.lines == [])
    ensures var u := EndRound(Round(s, true, pipe, infos, t));
            && SameTerminal(t, u)
            && (forall r: nat | r >= Max(|infos|, s.height + 1) :: BlankFrom(u, r, 0))
            && (s.position == Left ==> RightErased(u, s, infos))
  {
    hide Round, PrintModules, Columns, Strip, InfoColumn;
    RoundRow(s, pipe, infos, t);
    RestKeeps(s, pipe, infos, t);
    var v, w := PrintModules(s, true, infos, t), Round(s, true, pipe, infos, t);
    var u := EndRound(w);
    if s.position == Left {
      ModulesErase(s, infos, t);
      forall i: nat | i < |infos| ensures BlankFrom(u, i, InfoColumn(s, i, u.wcwidth) + Visible(u, infos[i])) {
        BlankStays(v, w, i, InfoColumn(s, i, u.wcwidth) + Visible(u, infos[i]));
      }
    }
  }

  /** A round with the cache cleared leaves the rows between its last module line and the end of the logo alone. */
  lemma RoundLeaves(s: State, pipe: bool, infos: seq<text>, r: nat, t: Screen)
    requires AtRoundStart(s, t) && s.lines == [] && |infos| <= r <= s.height
    ensures SameRow(t, EndRound(Round(s, true, pipe, infos, t)), r)
  {
    hide PrintModules, Columns, Strip, Texts, ArtShown, InfoShown, AllBeside, AdvanceBy;
    RoundRow(s, pipe, infos, t);
    ModulesPrinted(s, true, infos, 0, t);
    AdvanceByCloses(s, |infos|);
    assert SameRow(t, PrintModules(s, true, infos, t), r);
  }

  /** In colour mode a round that prints the rest of the logo ends with the colours reset. */
  lemma RoundResets(s: State, watch: bool, pipe: bool, infos: seq<text>, t: Screen)
    requires AtRoundStart(s, t) && Cached(s) && !pipe
    ensures Round(s, watch, pipe, infos, t).plain
  {
    hide PrintModules, PutRest, AdvanceBy, Columns, Strip;
    AdvanceByCloses(s, |infos|);
  }

  // ---- all rounds -----------------------------------------------------------------------------

  /** The last round starts as every round does. */
  lemma LastRound(s: State, pipe: bool, rounds: seq<seq<text>>, t: Screen)
    requires AtRoundStart(s, t) && Cached(s) && rounds != []
    ensures var front := rounds[..|rounds| - 1];
            var a, v := WatchState(s, front), Watch(s, pipe, front, t);
            && AtRoundStart(a, v) && SameTerminal(t, v) && (Cached(a) || a.lines == [])
            && (|rounds| > 1 ==> a.lines == []) && a.height == s.height && a.position == s.position
            && Watch(s, pipe, rounds, t) == EndRound(Round(a, true, pipe, rounds[|rounds| - 1], v))
  {
    hide Laid, Round, EndRound, RoundState;
    var front := rounds[..|rounds| - 1];
    if |rounds| > 1 {
      WatchShows(s, pipe, front, t);
    } else {
      assert front == [];
    }
  }

  /**
    What the last round leaves on the screen besides the logo and its own module
    lines: nothing below the larger of its module lines and the logo, and nothing
    right of its module lines if the logo is on the left.
   */
  lemma WatchErases(s: State, pipe: bool, rounds: seq<seq<text>>, t: Screen)
    requires AtRoundStart(s, t) && Cached(s) && rounds != []
    ensures var u, last := Watch(s, pipe, rounds, t), rounds[|rounds| - 1];
            && (forall r: nat | r >= Max(|last|, s.height + 1) :: BlankFrom(u, r, 0))
            && (s.position == Left ==> RightErased(u, WatchState(s, rounds[..|rounds| - 1]), last))
  {
    hide AtRoundStart, Round, EndRound, Watch, WatchState, BlankFrom, RightErased;
    var front := rounds[..|rounds| - 1];
    LastRound(s, pipe, rounds, t);
    RoundErases(WatchState(s, front), pipe, rounds[|rounds| - 1], Watch(s, pipe, front, t));
  }

  /**
    A module line of the round before that the last round has no line for: it is
    erased if it was below the logo, and stays on the screen if it was beside it.
   */
  lemma StaleLine(s: State, pipe: bool, rounds: seq<seq<text>>, r: nat, t: Screen)
    requires AtRoundStart(s, t) && Cached(s) && |rounds| >= 2
    requires |rounds[|rounds| - 1]| <= r < |rounds[|rounds| - 2]|
    ensures var u, line := Watch(s, pipe, rounds, t), rounds[|rounds| - 2][r];
            && (r > s.height ==> BlankFrom(u, r, 0))
            && (r <= s.height ==> InfoAt(u, r, InfoColumn(WatchState(s, rounds[..|rounds| - 2]), r, t.wcwidth), line))
  {
    hide AtRoundStart, Round, EndRound, Watch, WatchState, BlankFrom, RightErased, InfoColumn, ArtShown;
    var front := rounds[..|rounds| - 1];
    assert front[..|front| - 1] == rounds[..|rounds| - 2];
    var a, v := WatchState(s, front), Watch(s, pipe, front, t);
    LastRound(s, pipe, rounds, t);
    WatchErases(s, pipe, rounds, t);
    if r <= s.height {
      WatchShows(s, pipe, front, t);
      RoundLeaves(a, pipe, rounds[|rounds| - 1], r, v);
      var b := WatchState(s, front[..|front| - 1]);
      InfoOfRow(v, b, front[|front| - 1], r);
      SameWidths(s, pipe, rounds, t);
      InfoStays(v, Watch(s, pipe, rounds, t), r, InfoColumn(b, r, t.wcwidth), front[|front| - 1][r]);
    }
  }

  lemma InfoOfRow(t: Screen, s: State, infos: seq<text>, r: nat)
    requires InfoShown(t, s, infos) && r < |infos|
    ensures InfoAt(t, r, InfoColumn(s, r, t.wcwidth), infos[r])
  {
  }

  /** Module text that is visible is seen. */
  lemma InfoIsSeen(t: Screen, r: nat, from: nat, info: text)
    requires InfoAt(t, r, from, info) && Visible(t, info) > 0
    ensures !NoInfo(t, r)
  {
    hide Columns, Strip;
    var c: nat := 0;
    assert t.cells(r, from + c) == Info(info, c);
  }

  lemma InfoStays(t: Screen, u: Screen, r: nat, from: nat, info: text)
    requires InfoAt(t, r, from, info) && u.wcwidth == t.wcwidth && SameRow(t, u, r)
    ensures InfoAt(u, r, from, info)
  {
    hide Columns, Strip;
  }

  /**
    When shorter output replaces longer output completely: if and only if the
    last round has at least as many module lines as the one before, or covers all
    rows of the logo.  Otherwise lines of the round before stay beside the logo.
   */
  lemma NoStaleLineIff(s: State, pipe: bool, rounds: seq<seq<text>>, t: Screen)
    requires AtRoundStart(s, t) && Cached(s) && |rounds| >= 2
    requires forall line <- rounds[|rounds| - 2] :: Visible(t, line) > 0
    ensures var u, last, before := Watch(s, pipe, rounds, t), rounds[|rounds| - 1], rounds[|rounds| - 2];
            (forall r: nat | |last| <= r < |before| :: NoInfo(u, r)) <==> |before| <= |last| || |last| > s.height
  {
    hide AtRoundStart, Watch, WatchState, InfoColumn, Columns, Strip;
    var u, last, before := Watch(s, pipe, rounds, t), rounds[|rounds| - 1], rounds[|rounds| - 2];
    forall r: nat | |last| <= r < |before| && |last| > s.height ensures NoInfo(u, r) {
      StaleLine(s, pipe, rounds, r, t);
    }
    if |last| < |before| && |last| <= s.height {
      var r := |last|;
      StaleLine(s, pipe, rounds, r, t);
      SameWidths(s, pipe, rounds, t);
      assert Visible(t, before[r]) > 0;
      assert Visible(u, before[r]) == Visible(t, before[r]);
      InfoIsSeen(u, r, InfoColumn(WatchState(s, rounds[..|rounds| - 2]), r, t.wcwidth), before[r]);
    }
  }

  lemma SameWidths(s: State, pipe: bool, rounds: seq<seq<text>>, t: Screen)
    requires AtRoundStart(s, t) && Cached(s) && rounds != []
    ensures Watch(s, pipe, rounds, t).wcwidth == t.wcwidth
  {
    hide AtRoundStart, Watch, WatchState;
    WatchShows(s, pipe, rounds, t);
  }
}
