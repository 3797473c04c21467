/** From the text of a logo to the screen: every watch round shows the whole logo beside the modules. */
module LogoWatch {
  import opened CArithmetic
  import opened LogoText
  import opened LogoLines
  import opened LogoSteps
  import opened LogoColumns
  import opened Screens
  import opened LogoPrinter
  import opened LogoRounds
  import opened LogoInstance

  /** A logo as the distribution ships them: in UTF-8, with proper sequences, placeholders and colours. */
  predicate Proper(j: Job, data: text) {
    WellFormed(data, j.replace) && SgrColors(j.options) && WholeCharacters(data, j.wcwidth)
  }

  function BuiltState(b: Layout): State { State(b.lines, 0, b.rightOffset, b.position, b.width, b.height, 0) }

  /** A build leaves a cache that the rounds can start from. */
  lemma BuildIsLaid(j: Job, data: text, columns: nat)
    requires Proper(j, data) && Build(j, data, columns).position != Top
    ensures Laid(BuiltState(Build(j, data, columns)), j.wcwidth) && Cached(BuiltState(Build(j, data, columns)))
  {
    hide Build, Columns, Strip, WellFormed, SgrColors, WholeCharacters;
    var b := Build(j, data, columns);
    Shape(j, data, columns);
    var w := Resolved(j, data, columns);
    VisibleWithinRecorded(j, data, columns);
    forall i: nat | i < |b.lines| ensures Columns(Strip(b.lines[i].chars), j.wcwidth) <= b.lines[i].width {
      assert b.lines[i] in b.lines;
    }
  }

  /**
    Where the logo goes.  `w` is the configured width or the width of the widest
    line, whichever is larger, and the right padding.  An automatic position is
    the left if the width of the terminal is unknown or leaves 32 columns beside
    the logo, and the top otherwise.
   */
  lemma Resolved(j: Job, data: text, columns: nat) returns (w: nat)
    ensures var o, b := j.options, Build(j, data, columns);
            && w >= o.width + o.paddingRight
            && (forall line <- b.lines :: w >= line.width + o.paddingRight)
            && (w == o.width + o.paddingRight || exists line <- b.lines :: w == line.width + o.paddingRight)
            && (b.position == Left <==>
                  o.position == Left || (o.position == Auto && (columns == 0 || w + 32 <= columns)))
            && (b.position == Top <==> o.position == Top || (o.position == Auto && 0 < columns < w + 32))
            && (b.position == Right <==> o.position == Right)
            && b.width == (if b.position == Left then w else 0)
            && (w > 0 ==> b.rightOffset == w - 1)
  {
    hide MaxWidth, TextRows, Blanks;
    var o, b, rows := j.options, Build(j, data, columns), TextRows(j, data);
    w := MaxWidth(rows, o.width) + o.paddingRight;
    NoneWider(rows, o.width);
    WidestOf(rows, o.width);
    assert b.lines[o.paddingTop..o.paddingTop + |rows|] == rows;
    forall line | line in b.lines ensures w >= line.width + o.paddingRight {
      assert line in rows || line == CachedLine([], 0);
    }
    if w != o.width + o.paddingRight {
      var i: nat :| i < |rows| && rows[i].width + o.paddingRight == w;
      assert rows[i] in rows;
      assert rows[i] in b.lines;
    }
  }

  /** With simple sequences only, or with the cache cleared, modules start exactly right of the logo. */
  lemma ModulesStartAtWidth(j: Job, data: text, columns: nat, s: State, i: nat)
    requires Proper(j, data) && s.width == Build(j, data, columns).width
    requires s.lines == [] || (s.lines == Build(j, data, columns).lines && SimpleSequences(data))
    ensures InfoColumn(s, i, j.wcwidth) == s.width
  {
    hide Build, Columns, Strip, WellFormed, SgrColors, WholeCharacters, SimpleSequences;
    RecordedWidthIsVisibleIff(j, data, columns);
    if i < |s.lines| {
      assert s.lines[i] in s.lines;
    }
  }

  lemma InfoAtWidth(j: Job, data: text, columns: nat, s: State, infos: seq<text>, t: Screen)
    requires Proper(j, data) && s.width == Build(j, data, columns).width && t.wcwidth == j.wcwidth
    requires s.lines == [] || (s.lines == Build(j, data, columns).lines && SimpleSequences(data))
    requires InfoShown(t, s, infos)
    ensures forall i: nat | i < |infos| :: InfoAt(t, i, s.width, infos[i])
  {
    hide Build, Proper, InfoColumn, InfoAt, SimpleSequences;
    forall i: nat | i < |infos| ensures InfoAt(t, i, s.width, infos[i]) {
      ModulesStartAtWidth(j, data, columns, s, i);
    }
  }

  /**
    Loading a logo and running any number of watch rounds.  Afterwards every line
    of the logo was printed exactly once, in order; the logo on the left is on the
    screen line by line, with the module lines of the last round beside it.  They
    start exactly right of the logo from the second round on, and in the first
    one if the logo has simple sequences only.
   */
  method ShowLogo(instance: Instance, data: text, replace: bool, rounds: seq<seq<text>>)
    requires instance.watch && rounds != [] && instance.keysHeight == 0
    requires instance.wcwidth == instance.screen.wcwidth && instance.screen.row == 0 && instance.screen.column == 0
    requires Proper(Job(instance.options, replace, instance.wcwidth), data)
    requires var b := Build(Job(instance.options, replace, instance.wcwidth), data, instance.columns);
             b.position != Top && b.width < instance.screen.columns
    modifies instance
    ensures var b := Build(Job(old(instance.options), replace, instance.wcwidth), data, instance.columns);
            var screen, last := instance.screen, rounds[|rounds| - 1];
            && screen.art == old(instance.screen.art) + Texts(b.lines)
            && (b.position == Left ==> ArtShown(screen, 0, b.lines, |b.lines|))
            && var s := BuiltState(b);
            && var at := ArtColumn(s, screen.columns);
            && (RoundsBeside(s, at, rounds, screen.wcwidth) ==> ArtShown(screen, at, b.lines, |b.lines|))
            && InfoShown(screen, WatchState(BuiltState(b), rounds[..|rounds| - 1]), last)
            && (|rounds| > 1 || SimpleSequences(data) ==>
                  forall i: nat | i < |last| :: InfoAt(screen, i, b.width, last[i]))
            && screen.row == 0 && screen.column == 0
            && instance.lines == [] && instance.keysHeight == 0
  {
    hide Build, Proper, Laid, Watch, WatchState, ArtShown, InfoShown, Texts, SimpleSequences, InfoAt, RoundsBeside,
         ArtColumn;
    ghost var j := Job(instance.options, replace, instance.wcwidth);
    ghost var b := Build(j, data, instance.columns);
    ghost var t := instance.screen;
    BuildIsLaid(j, data, instance.columns);
    instance.PrintChars(data, replace);
    WatchShows(BuiltState(b), instance.options.pipe, rounds, t);
    LeftIsBeside(BuiltState(b), rounds, t);
    instance.Run(rounds, true);
    LastRoundState(BuiltState(b), instance.options.pipe, rounds, t);
    ghost var s := WatchState(BuiltState(b), rounds[..|rounds| - 1]);
    if |rounds| > 1 || SimpleSequences(data) {
      InfoAtWidth(j, data, instance.columns, s, rounds[|rounds| - 1], instance.screen);
    }
  }

  /** What the last round starts with. */
  lemma LastRoundState(s: State, pipe: bool, rounds: seq<seq<text>>, t: Screen)
    requires AtRoundStart(s, t) && Cached(s) && rounds != []
    ensures var last := WatchState(s, rounds[..|rounds| - 1]);
            && last.width == s.width && (if |rounds| == 1 then last.lines == s.lines else last.lines == [])
    ensures Watch(s, pipe, rounds, t).wcwidth == t.wcwidth
  {
    hide Laid, Round, EndRound, RoundState;
    var front := rounds[..|rounds| - 1];
    WatchShows(s, pipe, rounds, t);
    if |rounds| > 1 {
      WatchShows(s, pipe, front, t);
    } else {
      assert front == [];
    }
  }

  /** Module lines beside a logo on the left never run into it. */
  lemma LeftIsBeside(s: State, rounds: seq<seq<text>>, t: Screen)
    ensures s.position == Left ==>
              ArtColumn(s, t.columns) == 0 && RoundsBeside(s, ArtColumn(s, t.columns), rounds, t.wcwidth)
  {
    hide Columns, Strip;
  }

  /** A logo on the right, on a terminal that is wide enough, keeps clear of its right padding. */
  lemma RightLogoFits(j: Job, data: text, columns: nat, screenColumns: nat)
    requires Build(j, data, columns).position == Right
    requires Build(j, data, columns).rightOffset < screenColumns && screenColumns >= 2
    ensures var b := Build(j, data, columns);
            var at := ArtColumn(BuiltState(b), screenColumns);
            && (b.rightOffset > 0 ==> at == screenColumns - 1 - b.rightOffset)
            && forall line <- b.lines :: at + line.width + j.options.paddingRight <= screenColumns
  {
    hide Build;
    Shape(j, data, columns);
    var b := Build(j, data, columns);
    forall line | line in b.lines
      ensures ArtColumn(BuiltState(b), screenColumns) + line.width + j.options.paddingRight <= screenColumns
    {
      var i: nat :| i < |b.lines| && b.lines[i] == line;
    }
  }

  /**
    Loading a logo and printing the modules once, without watch.  With
    `printRemaining` every line of the logo is printed exactly once, in order,
    and the cursor ends `max(k, logoHeight + 1)` rows down; without it the logo
    ends with the modules.  On the left, and on the right if no module line runs
    into it, the printed lines are on the screen with the module lines beside them.
   */
  method ShowLogoOnce(instance: Instance, data: text, replace: bool, infos: seq<text>, printRemaining: bool)
    requires !instance.watch && instance.keysHeight == 0
    requires instance.wcwidth == instance.screen.wcwidth && instance.screen.row == 0 && instance.screen.column == 0
    requires Proper(Job(instance.options, replace, instance.wcwidth), data)
    requires var b := Build(Job(instance.options, replace, instance.wcwidth), data, instance.columns);
             b.position != Top && b.width < instance.screen.columns
    modifies instance
    ensures var b := Build(Job(old(instance.options), replace, instance.wcwidth), data, instance.columns);
            var screen, s := instance.screen, BuiltState(b);
            var at := ArtColumn(s, screen.columns);
            var n := if printRemaining then |b.lines| else Min(|infos|, |b.lines|);
            && screen.art == old(instance.screen.art) + Texts(b.lines)[..n]
            && (b.position == Left || AllBeside(s, at, infos, screen.wcwidth) ==> ArtShown(screen, at, b.lines, n))
            && InfoShown(screen, s, infos)
            && (SimpleSequences(data) ==> forall i: nat | i < |infos| :: InfoAt(screen, i, b.width, infos[i]))
            && screen.row == (if printRemaining then Max(|infos|, b.height + 1) else |infos|) && screen.column == 0
  {
    hide Build, Proper, Laid, PrintModules, AdvanceBy, PrintRemaining, Round, RemainingState, ArtShown, InfoShown,
        Texts,
         SimpleSequences, InfoAt, AllBeside, ArtColumn;
    ghost var j := Job(instance.options, replace, instance.wcwidth);
    ghost var b := Build(j, data, instance.columns);
    ghost var t := instance.screen;
    ghost var s := BuiltState(b);
    BuildIsLaid(j, data, instance.columns);
    instance.PrintChars(data, replace);
    FirstRound(s, false, instance.options.pipe, infos, t);
    ModulesPrinted(s, false, infos, ArtColumn(s, t.columns), t);
    LeftIsBesideOnce(s, infos, t);
    instance.Run([infos], printRemaining);
    assert Texts(b.lines)[..|b.lines|] == Texts(b.lines);
    if SimpleSequences(data) {
      InfoAtWidth(j, data, instance.columns, s, infos, instance.screen);
    }
  }

  lemma LeftIsBesideOnce(s: State, infos: seq<text>, t: Screen)
    ensures s.position == Left ==> AllBeside(s, ArtColumn(s, t.columns), infos, t.wcwidth)
  {
    hide Columns, Strip;
  }

  // ---- a logo on top ------------------------------------------------------------------------------

  /** Below a logo on top, the modules start in the first column. */
  lemma {:induction false} ModulesBelow(s: State, infos: seq<text>, t: Screen)
    requires s.lines == [] && s.nextLine == 0 && s.width == 0 && t.column == 0
    ensures var u := PrintModules(s, false, infos, t);
            && SameTerminal(t, u) && u.row == t.row + |infos| && u.column == 0 && u.art == t.art
            && (forall i: nat | i < |infos| :: InfoAt(u, t.row + i, 0, infos[i]))
            && (forall r: nat | r < t.row :: SameRow(t, u, r))
    decreases |infos|
  {
    hide PrintModule, AdvanceBy, Columns, Strip, InfoAt;
    if infos != [] {
      var k := |infos| - 1;
      var v := PrintModules(s, false, infos[..k], t);
      var u := PrintModules(s, false, infos, t);
      ModulesBelow(s, infos[..k], t);
      AdvanceByCloses(s, k);
      ModuleBelow(AdvanceBy(s, k), infos[k], v);
      forall i: nat | i < |infos| ensures InfoAt(u, t.row + i, 0, infos[i]) {
        if i < k {
          assert infos[..k][i] == infos[i];
          InfoStays(v, u, t.row + i, infos[i]);
        }
      }
      forall r: nat | r < t.row ensures SameRow(t, u, r) {
        assert SameRow(t, v, r) && SameRow(v, u, r);
      }
    }
  }

  /** The same, with what `ffLogoPrintRemaining` adds when nothing is cached. */
  lemma RoundBelow(s: State, pipe: bool, infos: seq<text>, t: Screen)
    requires s.lines == [] && s.nextLine == 0 && s.width == 0 && s.height == 0 && s.keysHeight == 0 && t.column == 0
    ensures var u := Round(s, false, pipe, infos, t);
            && SameTerminal(t, u) && u.row == t.row + Max(|infos|, 1) && u.column == 0 && u.art == t.art
            && (forall i: nat | i < |infos| :: InfoAt(u, t.row + i, 0, infos[i]))
            && (forall r: nat | r < t.row :: SameRow(t, u, r))
  {
    hide PrintModules, AdvanceBy, Columns, Strip, InfoAt;
    ModulesBelow(s, infos, t);
    AdvanceByCloses(s, |infos|);
    var v := PrintModules(s, false, infos, t);
    var u := Round(s, false, pipe, infos, t);
    forall i: nat | i < |infos| ensures InfoAt(u, t.row + i, 0, infos[i]) {
      InfoStays(v, u, t.row + i, infos[i]);
    }
    forall r: nat | r < t.row ensures SameRow(t, u, r) {
      assert SameRow(t, v, r);
    }
  }

  lemma ModuleBelow(s: State, info: text, t: Screen)
    requires s.lines == [] && s.width == 0 && t.column == 0
    ensures var u := PrintModule(s, false, info, t);
            && SameTerminal(t, u) && u.row == t.row + 1 && u.column == 0 && u.art == t.art
            && InfoAt(u, t.row, 0, info) && forall r: nat | r != t.row :: SameRow(t, u, r)
  {
    hide Columns, Strip;
  }

  lemma InfoStays(t: Screen, u: Screen, r: nat, info: text)
    requires InfoAt(t, r, 0, info) && SameTerminal(t, u) && SameRow(t, u, r)
    ensures InfoAt(u, r, 0, info)
  {
    hide Columns, Strip;
  }

  lemma ArtStays(t: Screen, u: Screen, r: nat, chars: text)
    requires ArtAt(t, r, 0, chars) && SameTerminal(t, u) && SameRow(t, u, r)
    ensures ArtAt(u, r, 0, chars)
  {
    hide Columns, Strip;
  }

  /** What `ffLogoPrintChars` prints of a logo on top: every line on a row of its own, and the padding below. */
  lemma TopShown(s: State, paddingBottom: nat, t: Screen)
    requires s.position == Top && t.column == 0
    ensures var u := Put(PutRest(s, 0, |s.lines|, t), PutFeeds(paddingBottom));
            && SameTerminal(t, u) && u.row == t.row + |s.lines| + paddingBottom && u.column == 0
            && u.art == t.art + Texts(s.lines)
            && (forall i: nat | i < |s.lines| :: ArtAt(u, t.row + i, 0, s.lines[i].chars))
            && (forall r: nat | r < t.row || r >= t.row + |s.lines| :: SameRow(t, u, r))
  {
    hide Columns, Strip, PutRest, Texts;
    RestPrinted(s, 0, |s.lines|, t);
    LeftColumn(s, t.columns);
    assert Texts(s.lines)[0..|s.lines|] == Texts(s.lines);
    var v := PutRest(s, 0, |s.lines|, t);
    var u := Put(v, PutFeeds(paddingBottom));
    forall i: nat | i < |s.lines| ensures ArtAt(u, t.row + i, 0, s.lines[i].chars) {
      assert ArtAt(v, t.row + (i - 0), 0, s.lines[i].chars);
      ArtStays(v, u, t.row + i, s.lines[i].chars);
    }
    forall r: nat | r < t.row || r >= t.row + |s.lines| ensures SameRow(t, u, r) {
      assert SameRow(t, v, r);
    }
  }

  /**
    Loading a logo that goes on top and printing the modules once.  The logo is
    shown line by line from the row of the cursor on, every line printed exactly
    once and in order; the modules follow below the bottom padding.
   */
  method ShowLogoOnTop(instance: Instance, data: text, replace: bool, infos: seq<text>, printRemaining: bool)
    requires !instance.watch && instance.keysHeight == 0 && instance.screen.column == 0
    requires Build(Job(instance.options, replace, instance.wcwidth), data, instance.columns).position == Top
    modifies instance
    ensures var lines := Build(Job(old(instance.options), replace, instance.wcwidth), data, instance.columns).lines;
            var screen, top := instance.screen, old(instance.screen.row);
            var below := top + |lines| + old(instance.options.paddingBottom);
            && screen.art == old(instance.screen.art) + Texts(lines)
            && (forall i: nat | i < |lines| :: ArtAt(screen, top + i, 0, lines[i].chars))
            && (forall i: nat | i < |infos| :: InfoAt(screen, below + i, 0, infos[i]))
            && (forall r: nat | r < top :: SameRow(old(instance.screen), screen, r))
            && screen.row == below + (if printRemaining then Max(|infos|, 1) else |infos|) && screen.column == 0
            && instance.options == old(instance.options).(position := Top)
  {
    hide Build, PrintModules, Round, AdvanceBy, Texts, ArtAt, InfoAt, SameRow, PutRest, Put, RemainingState;
    ghost var t, paddingBottom := instance.screen, instance.options.paddingBottom;
    ghost var b := Build(Job(instance.options, replace, instance.wcwidth), data, instance.columns);
    TopShown(State(b.lines, 0, b.rightOffset, b.position, b.width, b.height, 0), paddingBottom, t);
    instance.PrintChars(data, replace);
    ghost var s, v := instance.Snapshot(), instance.screen;
    ModulesBelow(s, infos, v);
    RoundBelow(s, instance.options.pipe, infos, v);
    instance.Run([infos], printRemaining);
    StillOnTop(b.lines, t.row, t, v, instance.screen);
  }

  /** What is above the cursor stays as it is. */
  lemma StillOnTop(lines: seq<CachedLine>, top: nat, t: Screen, v: Screen, u: Screen)
    requires SameTerminal(v, u) && v.row >= top + |lines| && t.row == top
    requires forall i: nat | i < |lines| :: ArtAt(v, top + i, 0, lines[i].chars)
    requires forall r: nat | r < top || r >= top + |lines| :: SameRow(t, v, r)
    requires forall r: nat | r < v.row :: SameRow(v, u, r)
    ensures forall i: nat | i < |lines| :: ArtAt(u, top + i, 0, lines[i].chars)
    ensures forall r: nat | r < top :: SameRow(t, u, r)
  {
    hide ArtAt;
    forall i: nat | i < |lines| ensures ArtAt(u, top + i, 0, lines[i].chars) {
      ArtStays(v, u, top + i, lines[i].chars);
    }
    forall r: nat | r < top ensures SameRow(t, u, r) {
      assert SameRow(t, v, r) && SameRow(v, u, r);
    }
  }
}
