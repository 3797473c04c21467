/** What stays true on the screen over all rounds of the printer. */
module LogoRounds {
  import opened CArithmetic
  import opened LogoText
  import opened LogoLines
  import opened Screens
  import opened LogoPrinter

  /** The texts of the lines, in order. */
  function Texts(lines: seq<CachedLine>): (r: seq<text>)
    ensures |r| == |lines| && forall i: nat | i < |r| :: r[i] == lines[i].chars
  {
    if lines == [] then [] else Texts(lines[..|lines| - 1]) + [lines[|lines| - 1].chars]
  }

  /** Row `r` shows all visible columns of the logo line `chars`, from column `at` on. */
  ghost predicate ArtAt(t: Screen, r: nat, at: nat, chars: text) {
    forall c: nat | c < Visible(t, chars) :: t.cells(r, at + c) == Art(chars, c)
  }

  ghost predicate InfoAt(t: Screen, r: nat, from: nat, info: text) {
    forall c: nat | c < Visible(t, info) :: t.cells(r, from + c) == Info(info, c)
  }

  /** Row `r` is unchanged where the logo is: left of the modules, or from column `at` on. */
  ghost predicate SameArea(t: Screen, u: Screen, r: nat, s: State, at: nat) {
    forall c: nat | (if s.position == Left then c < s.width else at <= c) :: u.cells(r, c) == t.cells(r, c)
  }

  /** The column at which the lines of the logo are written. */
  function ArtColumn(s: State, columns: nat): nat {
    var last := if columns == 0 then 0 else columns - 1;
    var back := if s.rightOffset == 0 then 1 else s.rightOffset;
    if s.position != Right || back > last then 0 else last - back
  }

  /** A module line leaves the logo alone: always beside one on the left, and if it ends before one on the right. */
  predicate Beside(s: State, at: nat, info: text, wcwidth: int -> int) {
    s.position == Left || Columns(Strip(info), wcwidth) <= at
  }

  predicate AllBeside(s: State, at: nat, infos: seq<text>, wcwidth: int -> int) {
    forall i: nat | i < |infos| :: Beside(s, at, infos[i], wcwidth)
  }

  ghost predicate SameRow(t: Screen, u: Screen, r: nat) {
    forall c: nat :: u.cells(r, c) == t.cells(r, c)
  }

  /**
    What a build leaves behind: a line takes no more columns than its width, a
    logo on the left is at least as wide as its lines, and a logo elsewhere has
    no width.  Once the cache is cleared, only the width is left.
   */
  ghost predicate Laid(s: State, wcwidth: int -> int) {
    && (s.lines != [] ==> Cached(s) && |s.lines| == s.height + 1)
    && (s.position != Left ==> s.width == 0)
    && forall i: nat | i < |s.lines| ::
         && Columns(Strip(s.lines[i].chars), wcwidth) <= s.lines[i].width
         && (s.position == Left ==> s.lines[i].width <= s.width)
  }

  /**
    Where the modules start beside line `i`: after the columns that the line
    takes and the padding to the width of the logo, and otherwise right of the logo.
   */
  function InfoColumn(s: State, i: nat, wcwidth: int -> int): nat {
    if s.position == Left && i < |s.lines| && s.lines[i].width <= s.width then
      Columns(Strip(s.lines[i].chars), wcwidth) + (s.width - s.lines[i].width)
    else s.width
  }

  /** At the start of a row of a terminal that has room beside the logo. */
  ghost predicate AtRowStart(s: State, t: Screen) {
    Laid(s, t.wcwidth) && t.column == 0 && s.width < t.columns
  }

  ghost predicate SameTerminal(t: Screen, u: Screen) { u.columns == t.columns && u.wcwidth == t.wcwidth }

  // ---- one line ------------------------------------------------------------------------------

  /**
    What `ffLogoPrintLine` does to the screen: the cursor is where the modules
    start, a cached line is written from the column of the logo on, only this row
    changes, and with a cleared cache nothing changes where the logo is.
   */
  ghost predicate LineDone(s: State, at: nat, t: Screen, u: Screen) {
    && SameTerminal(t, u) && u.row == t.row && u.column == InfoColumn(s, s.nextLine, t.wcwidth)
    && u.art == t.art + (if s.nextLine < |s.lines| then [s.lines[s.nextLine].chars] else [])
    && (forall r: nat | r != t.row :: SameRow(t, u, r))
    && (s.nextLine < |s.lines| ==> ArtAt(u, t.row, ArtColumn(s, t.columns), s.lines[s.nextLine].chars))
    && (s.lines == [] ==> SameArea(t, u, t.row, s, at))
  }

  /** A logo line written where the cursor is. */
  lemma ArtWritten(chars: text, t: Screen)
    ensures var u := Put(t, PutArt(chars));
            && SameTerminal(t, u) && u.row == t.row && u.column == t.column + Visible(t, chars)
            && u.art == t.art + [chars] && ArtAt(u, t.row, t.column, chars)
            && forall r: nat | r != t.row :: SameRow(t, u, r)
  {
    hide Columns, Strip;
  }

  /** Spaces after a logo line that starts in the first column leave it alone. */
  lemma SpacesKeep(chars: text, n: nat, t: Screen)
    requires Visible(t, chars) <= t.column && ArtAt(t, t.row, 0, chars)
    ensures var u := Put(t, PutSpaces(n));
            && SameTerminal(t, u) && u.row == t.row && u.column == t.column + n && u.art == t.art
            && ArtAt(u, t.row, 0, chars) && forall r: nat | r != t.row :: SameRow(t, u, r)
  {
    hide Columns, Strip;
  }

  lemma SameRows(t: Screen, u: Screen, v: Screen)
    requires u.row == t.row && (forall r: nat | r != t.row :: SameRow(t, u, r))
    requires forall r: nat | r != u.row :: SameRow(u, v, r)
    ensures forall r: nat | r != t.row :: SameRow(t, v, r)
  {
    forall r: nat | r != t.row ensures SameRow(t, v, r) {
      assert SameRow(t, u, r) && SameRow(u, v, r);
    }
  }

  lemma CachedLineDone(s: State, at: nat, t: Screen)
    requires AtRowStart(s, t) && s.nextLine < |s.lines|
    ensures LineDone(s, at, t, PutLine(s, s.lines[s.nextLine], t))
  {
    hide Columns, Strip, Put, ArtAt, SameRow, SameArea, ArtColumn;
    var line := s.lines[s.nextLine];
    if s.position == Right {
      var u := Put(t, FarRight(s.rightOffset));
      FarRightMoves(s, t);
      ArtWritten(line.chars, u);
      var v := Put(u, PutArt(line.chars));
      FirstColumnMoves(line.chars, ArtColumn(s, t.columns), v);
      SameRows(t, u, v);
      SameRows(t, v, Put(v, FirstColumn));
    } else {
      var u := Put(t, PutArt(line.chars));
      var n := if line.width < s.width then s.width - line.width else 0;
      ArtWritten(line.chars, t);
      SpacesKeep(line.chars, n, u);
      SameRows(t, u, Put(u, PutSpaces(n)));
      LeftColumn(s, t.columns);
    }
  }

  lemma FarRightMoves(s: State, t: Screen)
    requires s.position == Right
    ensures var u := Put(t, FarRight(s.rightOffset));
            && u == t.(column := ArtColumn(s, t.columns)) && forall r: nat :: SameRow(t, u, r)
  {
  }

  lemma FirstColumnMoves(chars: text, at: nat, t: Screen)
    requires ArtAt(t, t.row, at, chars)
    ensures var u := Put(t, FirstColumn);
            u == t.(column := 0) && ArtAt(u, t.row, at, chars) && forall r: nat :: SameRow(t, u, r)
  {
    hide Columns, Strip;
  }

  lemma LeftColumn(s: State, columns: nat)
    requires s.position != Right
    ensures ArtColumn(s, columns) == 0
  {
  }

  lemma SpacesDone(s: State, at: nat, t: Screen)
    requires AtRowStart(s, t) && s.nextLine >= |s.lines| && s.lines != []
    ensures LineDone(s, at, t, if s.position == Left then Put(t, PutSpaces(s.width)) else t)
  {
    hide Columns, Strip;
    assert t.art + [] == t.art;
  }

  lemma MoveDone(s: State, at: nat, t: Screen)
    requires AtRowStart(s, t) && s.lines == []
    ensures LineDone(s, at, t, if s.width > 0 then Put(t, Forward(s.width)) else t)
  {
    hide Columns, Strip;
    assert t.art + [] == t.art;
  }

  lemma EraseDone(s: State, at: nat, t: Screen, u: Screen)
    requires Laid(s, t.wcwidth) && s.position == Left && LineDone(s, at, t, u)
    ensures LineDone(s, at, t, Put(u, EraseLine))
  {
    hide Columns, Strip;
    var v := Put(u, EraseLine);
    forall r: nat | r != t.row ensures SameRow(t, v, r) {
      assert SameRow(t, u, r);
    }
  }

  /**
    `ffLogoPrintLine` advances to `InfoColumn`.  That is exactly `logoWidth`
    columns past the last line, for a cleared cache and for a logo on the right;
    for a cached line on the left it is if and only if the line's recorded width
    is the number of columns that it takes.
   */
  lemma LineAdvances(s: State, watch: bool, at: nat, t: Screen)
    requires AtRowStart(s, t)
    ensures var u := PrintLine(s, watch, t);
            && LineDone(s, at, t, u)
            && (u.column == s.width <==>
                  (s.position == Left && s.nextLine < |s.lines| ==>
                     Columns(Strip(s.lines[s.nextLine].chars), t.wcwidth) == s.lines[s.nextLine].width))
  {
    hide Columns, Strip, Put, PutLine, ArtAt, SameArea, SameRow, ArtColumn;
    if s.nextLine < |s.lines| {
      CachedLineDone(s, at, t);
    } else if s.lines != [] {
      SpacesDone(s, at, t);
    } else {
      MoveDone(s, at, t);
    }
    if watch && s.position == Left {
      EraseDone(s, at, t, PrintLine(s, false, t));
    }
  }

  /** A module line starts beside the logo and ends at the start of the next row. */
  lemma ModuleLine(s: State, watch: bool, info: text, at: nat, t: Screen)
    requires AtRowStart(s, t) && (s.lines != [] ==> at == ArtColumn(s, t.columns))
    ensures var u := PrintModule(s, watch, info, t);
            && SameTerminal(t, u) && u.row == t.row + 1 && u.column == 0
            && u.art == t.art + (if s.nextLine < |s.lines| then [s.lines[s.nextLine].chars] else [])
            && (forall r: nat | r != t.row :: SameRow(t, u, r))
            && (s.nextLine < |s.lines| && Beside(s, at, info, t.wcwidth) ==>
                  ArtAt(u, t.row, at, s.lines[s.nextLine].chars))
            && (s.lines == [] && Beside(s, at, info, t.wcwidth) ==> SameArea(t, u, t.row, s, at))
            && InfoAt(u, t.row, InfoColumn(s, s.nextLine, t.wcwidth), info)
  {
    hide Columns, Strip, PrintLine;
    LineAdvances(s, watch, at, t);
    var v := PrintLine(s, watch, t);
    forall r: nat | r != t.row ensures SameRow(t, PrintModule(s, watch, info, t), r) {
      assert SameRow(t, v, r);
    }
  }

  // ---- the modules of a round ------------------------------------------------------------------

  lemma {:induction false} AdvanceByCloses(s: State, n: nat)
    requires s.nextLine <= |s.lines|
    ensures AdvanceBy(s, n) == s.(nextLine := Min(s.nextLine + n, |s.lines|), keysHeight := s.keysHeight + n)
  {
    if n > 0 {
      AdvanceByCloses(s, n - 1);
    }
  }

  /** The first `n` rows show the first `n` lines of the logo, from column `at` on. */
  ghost predicate ArtShown(t: Screen, at: nat, lines: seq<CachedLine>, n: nat)
    requires n <= |lines|
  {
    forall i: nat | i < n :: ArtAt(t, i, at, lines[i].chars)
  }

  /** Row `i` shows module line `i` beside the logo that round `s` starts with. */
  ghost predicate InfoShown(t: Screen, s: State, infos: seq<text>) {
    forall i: nat | i < |infos| :: InfoAt(t, i, InfoColumn(s, i, t.wcwidth), infos[i])
  }

  lemma {:induction false} ModulesPrinted(s: State, watch: bool, infos: seq<text>, at: nat, t: Screen)
    requires AtRowStart(s, t) && t.row == 0 && s.nextLine == 0
    requires s.lines != [] ==> at == ArtColumn(s, t.columns)
    ensures var u := PrintModules(s, watch, infos, t);
            var n := Min(|infos|, |s.lines|);
            && SameTerminal(t, u) && u.row == |infos| && u.column == 0
            && u.art == t.art + Texts(s.lines)[..n]
            && (AllBeside(s, at, infos, t.wcwidth) ==> ArtShown(u, at, s.lines, n))
            && InfoShown(u, s, infos)
            && (forall r: nat | r >= |infos| :: SameRow(t, u, r))
            && (s.lines == [] && AllBeside(s, at, infos, t.wcwidth) ==> forall r: nat :: SameArea(t, u, r, s, at))
    decreases |infos|
  {
    hide PrintModule, AdvanceBy, Columns, Strip, Texts;
    if infos != [] {
      var k := |infos| - 1;
      var v := PrintModules(s, watch, infos[..k], t);
      var a := AdvanceBy(s, k);
      ModulesPrinted(s, watch, infos[..k], at, t);
      AdvanceByCloses(s, k);
      ModuleLine(a, watch, infos[k], at, v);
      OneMoreRow(s, infos, at, t, v, PrintModules(s, watch, infos, t));
    }
  }

  /** The step from `k` rows to one more. */
  lemma OneMoreRow(s: State, infos: seq<text>, at: nat, t: Screen, v: Screen, u: Screen)
    requires infos != []
    requires var k := |infos| - 1;
             var n := Min(k, |s.lines|);
             && SameTerminal(t, v) && SameTerminal(v, u) && v.row == k
             && v.art == t.art + Texts(s.lines)[..n]
             && (AllBeside(s, at, infos[..k], t.wcwidth) ==> ArtShown(v, at, s.lines, n))
             && InfoShown(v, s, infos[..k])
             && (forall r: nat | r >= k :: SameRow(t, v, r))
             && (s.lines == [] && AllBeside(s, at, infos[..k], t.wcwidth) ==> forall r: nat :: SameArea(t, v, r, s, at))
             && u.art == v.art + (if n < |s.lines| then [s.lines[n].chars] else [])
             && (forall r: nat | r != k :: SameRow(v, u, r))
             && (n < |s.lines| && Beside(s, at, infos[k], t.wcwidth) ==> ArtAt(u, k, at, s.lines[n].chars))
             && (s.lines == [] && Beside(s, at, infos[k], t.wcwidth) ==> SameArea(v, u, k, s, at))
             && InfoAt(u, k, InfoColumn(s, k, u.wcwidth), infos[k])
    ensures var n := Min(|infos|, |s.lines|);
            && u.art == t.art + Texts(s.lines)[..n]
            && (AllBeside(s, at, infos, t.wcwidth) ==> ArtShown(u, at, s.lines, n))
            && InfoShown(u, s, infos)
            && (forall r: nat | r >= |infos| :: SameRow(t, u, r))
            && (s.lines == [] && AllBeside(s, at, infos, t.wcwidth) ==> forall r: nat :: SameArea(t, u, r, s, at))
  {
    hide Columns, Strip, Texts;
    var k := |infos| - 1;
    forall i: nat | i < |infos| ensures InfoAt(u, i, InfoColumn(s, i, u.wcwidth), infos[i]) {
      if i < k {
        assert infos[..k][i] == infos[i];
        assert SameRow(v, u, i);
      }
    }
    forall r: nat | r >= |infos| ensures SameRow(t, u, r) {
      assert SameRow(t, v, r) && SameRow(v, u, r);
    }
    if AllBeside(s, at, infos, t.wcwidth) {
      BesideFront(s, at, infos, t.wcwidth);
      forall i: nat | i < Min(|infos|, |s.lines|) ensures ArtAt(u, i, at, s.lines[i].chars) {
        if i < k {
          assert SameRow(v, u, i) && ArtAt(v, i, at, s.lines[i].chars);
        }
      }
      if s.lines == [] {
        forall r: nat ensures SameArea(t, u, r, s, at) {
          assert SameArea(t, v, r, s, at);
          if r != k {
            assert SameRow(v, u, r);
          }
        }
      }
    }
  }

  lemma BesideFront(s: State, at: nat, infos: seq<text>, wcwidth: int -> int)
    requires infos != [] && AllBeside(s, at, infos, wcwidth)
    ensures AllBeside(s, at, infos[..|infos| - 1], wcwidth) && Beside(s, at, infos[|infos| - 1], wcwidth)
  {
    hide Beside;
    var front := infos[..|infos| - 1];
    forall i: nat | i < |front| ensures Beside(s, at, front[i], wcwidth) {
      assert front[i] == infos[i];
    }
  }

  // ---- the rest of the logo --------------------------------------------------------------------

  /** The cached lines `from..upto`, each on a row of its own, from the column of the logo on. */
  lemma {:induction false} RestPrinted(s: State, from: nat, upto: nat, t: Screen)
    requires from <= upto <= |s.lines| && t.column == 0
    ensures var u := PutRest(s, from, upto, t);
            && SameTerminal(t, u) && u.row == t.row + (upto - from) && u.column == 0
            && u.art == t.art + Texts(s.lines)[from..upto]
            && (forall r: nat | r < t.row || r >= u.row :: SameRow(t, u, r))
            && (forall i: nat | from <= i < upto ::
                  ArtAt(u, t.row + (i - from), ArtColumn(s, t.columns), s.lines[i].chars))
    decreases upto - from
  {
    hide Columns, Strip, Texts, ArtAt, ArtColumn;
    if from < upto {
      var v := PutRest(s, from, upto - 1, t);
      RestPrinted(s, from, upto - 1, t);
      LineOfItsOwn(s, upto - 1, v);
      SameColumn(s, t, v);
      OneMoreLine(s, from, upto, ArtColumn(s, t.columns), t, v, PutRest(s, from, upto, t));
    }
  }

  lemma SameColumn(s: State, t: Screen, u: Screen)
    requires SameTerminal(t, u)
    ensures ArtColumn(s, u.columns) == ArtColumn(s, t.columns)
  {
  }

  lemma LineOfItsOwn(s: State, i: nat, t: Screen)
    requires i < |s.lines| && t.column == 0
    ensures var v := if s.position == Right then Put(t, FarRight(s.rightOffset)) else t;
            var u := Put(Put(v, PutArt(s.lines[i].chars)), PutFeeds(1));
            && SameTerminal(t, u) && u.row == t.row + 1 && u.column == 0 && u.art == t.art + [s.lines[i].chars]
            && (forall r: nat | r != t.row :: SameRow(t, u, r))
            && ArtAt(u, t.row, ArtColumn(s, t.columns), s.lines[i].chars)
  {
    hide Columns, Strip;
  }

  lemma OneMoreLine(s: State, from: nat, upto: nat, at: nat, t: Screen, v: Screen, u: Screen)
    requires from < upto <= |s.lines| && SameTerminal(v, u)
    requires var k: nat := upto - 1;
             && v.row == t.row + (k - from) && u.row == v.row + 1
             && v.art == t.art + Texts(s.lines)[from..k]
             && (forall r: nat | r < t.row || r >= v.row :: SameRow(t, v, r))
             && (forall i: nat | from <= i < k :: ArtAt(v, t.row + (i - from), at, s.lines[i].chars))
             && u.art == v.art + [s.lines[k].chars]
             && (forall r: nat | r != v.row :: SameRow(v, u, r))
             && ArtAt(u, v.row, at, s.lines[k].chars)
    ensures u.art == t.art + Texts(s.lines)[from..upto]
    ensures forall r: nat | r < t.row || r >= u.row :: SameRow(t, u, r)
    ensures forall i: nat | from <= i < upto :: ArtAt(u, t.row + (i - from), at, s.lines[i].chars)
  {
    hide Columns, Strip, Texts;
    forall r: nat | r < t.row || r >= u.row ensures SameRow(t, u, r) {
      assert SameRow(t, v, r) && SameRow(v, u, r);
    }
    forall i: nat | from <= i < upto ensures ArtAt(u, t.row + (i - from), at, s.lines[i].chars) {
      if i < upto - 1 {
        assert SameRow(v, u, t.row + (i - from)) && ArtAt(v, t.row + (i - from), at, s.lines[i].chars);
      }
    }
  }

  // ---- one round -------------------------------------------------------------------------------

  /** At the start of a round: the cache is full or cleared, and the cursor is in the top left corner. */
  ghost predicate AtRoundStart(s: State, t: Screen) {
    AtRowStart(s, t) && t.row == 0 && s.nextLine == 0 && s.keysHeight == 0
  }

  /**
    The first round, with the logo in the cache: every cached line is printed
    once, in order and on its own row, whether there are more module lines or
    more logo lines; afterwards the cursor is `max(k, logoHeight + 1)` rows down.
   */
  lemma FirstRound(s: State, watch: bool, pipe: bool, infos: seq<text>, t: Screen)
    requires AtRoundStart(s, t) && Cached(s)
    ensures var u := Round(s, watch, pipe, infos, t);
            && SameTerminal(t, u) && u.row == Max(|infos|, s.height + 1) && u.column == 0
            && u.art == t.art + Texts(s.lines)
            && (AllBeside(s, ArtColumn(s, t.columns), infos, t.wcwidth) ==>
                  ArtShown(u, ArtColumn(s, t.columns), s.lines, |s.lines|))
            && InfoShown(u, s, infos)
  {
    hide PrintModules, PutRest, AdvanceBy, Columns, Strip, Texts, ArtShown, InfoShown, AllBeside, Put;
    var v := PrintModules(s, watch, infos, t);
    var at := ArtColumn(s, t.columns);
    ModulesPrinted(s, watch, infos, at, t);
    AdvanceByCloses(s, |infos|);
    var n := Min(|infos|, |s.lines|);
    var a := AdvanceBy(s, |infos|);
    var u := PutRest(a, n, |a.lines|, v);
    assert Texts(s.lines)[..|s.lines|] == Texts(s.lines);
    if |infos| < |s.lines| {
      RestPrinted(a, n, |a.lines|, v);
      assert Texts(s.lines) == Texts(s.lines)[..n] + Texts(s.lines)[n..];
      assert t.art + Texts(s.lines)[..n] + Texts(s.lines)[n..] == t.art + Texts(s.lines);
      AllShown(s, infos, at, v, u);
    } else {
      assert PutRest(a, n, |a.lines|, v) == v by { NothingLeft(a, n, v); }
    }
    ResetKeeps(s, at, infos, u);
  }

  /** Resetting the colours changes no cell. */
  lemma ResetKeeps(s: State, at: nat, infos: seq<text>, t: Screen)
    ensures var u := Put(t, ResetColor);
            && SameTerminal(t, u) && u.row == t.row && u.column == t.column && u.art == t.art
            && (forall r: nat :: SameRow(t, u, r))
            && (ArtShown(t, at, s.lines, |s.lines|) ==> ArtShown(u, at, s.lines, |s.lines|))
            && (InfoShown(t, s, infos) ==> InfoShown(u, s, infos))
  {
    hide Columns, Strip;
    var u := Put(t, ResetColor);
    if ArtShown(t, at, s.lines, |s.lines|) {
      forall i: nat | i < |s.lines| ensures ArtAt(u, i, at, s.lines[i].chars) {
        assert ArtAt(t, i, at, s.lines[i].chars);
      }
    }
    if InfoShown(t, s, infos) {
      forall i: nat | i < |infos| ensures InfoAt(u, i, InfoColumn(s, i, u.wcwidth), infos[i]) {
        assert InfoAt(t, i, InfoColumn(s, i, t.wcwidth), infos[i]);
      }
    }
  }

  lemma NothingLeft(s: State, n: nat, t: Screen)
    requires n == |s.lines|
    ensures PutRest(s, n, |s.lines|, t) == t
  {
  }

  lemma AllShown(s: State, infos: seq<text>, at: nat, v: Screen, u: Screen)
    requires |infos| < |s.lines| && SameTerminal(v, u)
    requires AllBeside(s, at, infos, v.wcwidth) ==> ArtShown(v, at, s.lines, |infos|)
    requires InfoShown(v, s, infos)
    requires forall r: nat | r < |infos| :: SameRow(v, u, r)
    requires forall i: nat | |infos| <= i < |s.lines| :: ArtAt(u, i, at, s.lines[i].chars)
    ensures AllBeside(s, at, infos, v.wcwidth) ==> ArtShown(u, at, s.lines, |s.lines|)
    ensures InfoShown(u, s, infos)
  {
    hide Columns, Strip;
    forall i: nat | i < |infos| ensures InfoAt(u, i, InfoColumn(s, i, u.wcwidth), infos[i]) {
      assert SameRow(v, u, i);
    }
    if AllBeside(s, at, infos, v.wcwidth) {
      forall i: nat | i < |s.lines| ensures ArtAt(u, i, at, s.lines[i].chars) {
        if i < |infos| {
          assert SameRow(v, u, i) && ArtAt(v, i, at, s.lines[i].chars);
        }
      }
    }
  }

  /**
    A later round, with the cache cleared: the cursor ends as many rows down as
    after a first round with the same number of module lines, no logo line is
    printed, and no cell of the logo changes if the module lines leave it alone.
   */
  lemma LaterRound(s: State, watch: bool, pipe: bool, infos: seq<text>, at: nat, t: Screen)
    requires AtRoundStart(s, t) && s.lines == []
    ensures var u := Round(s, watch, pipe, infos, t);
            && SameTerminal(t, u) && u.row == Max(|infos|, s.height + 1) && u.column == 0
            && u.art == t.art
            && (AllBeside(s, at, infos, t.wcwidth) ==> forall r: nat :: SameArea(t, u, r, s, at))
            && InfoShown(u, s, infos)
  {
    hide PrintModules, AdvanceBy, Columns, Strip, AllBeside;
    ModulesPrinted(s, watch, infos, at, t);
    AdvanceByCloses(s, |infos|);
    assert t.art + [] == t.art;
    var v := PrintModules(s, watch, infos, t);
    var u := Round(s, watch, pipe, infos, t);
    SameInfo(s, infos, v, u);
    if AllBeside(s, at, infos, t.wcwidth) {
      forall r: nat ensures SameArea(t, u, r, s, at) {
        assert SameArea(t, v, r, s, at);
      }
    }
  }

  lemma SameInfo(s: State, infos: seq<text>, v: Screen, u: Screen)
    requires InfoShown(v, s, infos) && v.wcwidth == u.wcwidth && v.cells == u.cells
    ensures InfoShown(u, s, infos)
  {
    hide Columns, Strip;
    forall i: nat | i < |infos| ensures InfoAt(u, i, InfoColumn(s, i, u.wcwidth), infos[i]) {
      assert InfoAt(v, i, InfoColumn(s, i, v.wcwidth), infos[i]);
    }
  }

  /** `keysHeight` is `logoHeight + 1` after the rest of the logo, and the cache is cleared. */
  lemma AfterRemaining(s: State, n: nat)
    requires s.nextLine <= |s.lines|
    ensures var r := RemainingState(AdvanceBy(s, n));
            && r.keysHeight == s.height + 1 && r.height == s.height && r.width == s.width && r.position == s.position
            && (Cached(s) ==> r.lines == [] && r.nextLine == 0)
            && (!Cached(s) ==> r.lines == s.lines)
  {
    hide AdvanceBy;
    AdvanceByCloses(s, n);
  }

  // ---- all rounds ------------------------------------------------------------------------------

  /** Clearing below the rows of a round takes nothing of it away. */
  lemma EndKeeps(s: State, last: State, shown: bool, at: nat, infos: seq<text>, t: Screen)
    requires |s.lines| <= s.height + 1
    requires t.row == Max(|infos|, s.height + 1) && t.column == 0
    requires shown ==> ArtShown(t, at, s.lines, |s.lines|)
    requires InfoShown(t, last, infos)
    ensures var u := EndRound(t);
            && SameTerminal(t, u) && u.row == 0 && u.column == 0 && u.art == t.art
            && (shown ==> ArtShown(u, at, s.lines, |s.lines|))
            && InfoShown(u, last, infos)
  {
    hide Columns, Strip;
    var u := EndRound(t);
    forall i: nat | i < |infos| ensures InfoAt(u, i, InfoColumn(last, i, u.wcwidth), infos[i]) {
      assert InfoAt(t, i, InfoColumn(last, i, t.wcwidth), infos[i]);
    }
    if shown {
      forall i: nat | i < |s.lines| ensures ArtAt(u, i, at, s.lines[i].chars) {
        assert ArtAt(t, i, at, s.lines[i].chars);
      }
    }
  }

  lemma WithinLogo(s: State, at: nat, t: Screen)
    requires Laid(s, t.wcwidth) && (s.position == Left ==> at == 0)
    ensures s.position == Left ==> forall i: nat | i < |s.lines| :: at + Visible(t, s.lines[i].chars) <= s.width
  {
    hide Columns, Strip;
  }

  lemma StillShown(s: State, a: State, at: nat, t: Screen, u: Screen)
    requires ArtShown(t, at, s.lines, |s.lines|) && a.position == s.position && a.width == s.width
    requires SameTerminal(t, u) && forall r: nat :: SameArea(t, u, r, a, at)
    requires s.position == Left ==> forall i: nat | i < |s.lines| :: at + Visible(t, s.lines[i].chars) <= s.width
    ensures ArtShown(u, at, s.lines, |s.lines|)
  {
    forall i: nat | i < |s.lines| ensures ArtAt(u, i, at, s.lines[i].chars) {
      assert ArtAt(t, i, at, s.lines[i].chars) && SameArea(t, u, i, a, at);
    }
  }

  /** What the next round starts with. */
  lemma AfterRound(s: State, n: nat)
    requires s.nextLine <= |s.lines| && (Cached(s) || s.lines == [])
    ensures var r := RoundState(s, n);
            && r.lines == [] && r.nextLine == 0 && r.keysHeight == 0
            && r.position == s.position && r.width == s.width && r.height == s.height
  {
    hide AdvanceBy;
    AdvanceByCloses(s, n);
  }

  /** The module lines of all rounds leave the logo alone. */
  predicate RoundsBeside(s: State, at: nat, rounds: seq<seq<text>>, wcwidth: int -> int) {
    forall r: nat | r < |rounds| :: AllBeside(s, at, rounds[r], wcwidth)
  }

  lemma RoundsFront(s: State, at: nat, rounds: seq<seq<text>>, wcwidth: int -> int)
    requires rounds != []
    ensures RoundsBeside(s, at, rounds, wcwidth) ==>
              && RoundsBeside(s, at, rounds[..|rounds| - 1], wcwidth)
              && AllBeside(s, at, rounds[|rounds| - 1], wcwidth)
  {
    hide AllBeside;
    var front := rounds[..|rounds| - 1];
    if RoundsBeside(s, at, rounds, wcwidth) {
      forall r: nat | r < |front| ensures AllBeside(s, at, front[r], wcwidth) {
        assert front[r] == rounds[r];
      }
    }
  }

  /**
    The module lines of the last round are on the screen and, unless a module line
    ran into it, all of the logo; the cursor is back at its top.
   */
  ghost predicate Showing(s: State, t: Screen, u: Screen, beside: bool, last: State, infos: seq<text>) {
    && u.row == 0 && u.column == 0 && u.art == t.art + Texts(s.lines)
    && (beside ==> ArtShown(u, ArtColumn(s, t.columns), s.lines, |s.lines|))
    && InfoShown(u, last, infos)
  }

  lemma {:induction false} WatchShows(s: State, pipe: bool, rounds: seq<seq<text>>, t: Screen)
    requires AtRoundStart(s, t) && Cached(s) && rounds != []
    ensures Showing(s, t, Watch(s, pipe, rounds, t), RoundsBeside(s, ArtColumn(s, t.columns), rounds, t.wcwidth),
                    WatchState(s, rounds[..|rounds| - 1]), rounds[|rounds| - 1])
    ensures AtRoundStart(WatchState(s, rounds), Watch(s, pipe, rounds, t)) && WatchState(s, rounds).lines == []
    ensures SameTerminal(t, Watch(s, pipe, rounds, t))
    ensures WatchState(s, rounds).width == s.width && WatchState(s, rounds).position == s.position
    ensures WatchState(s, rounds).height == s.height
    decreases |rounds|
  {
    hide Round, EndRound, RoundState, Columns, Strip, Texts, ArtShown, InfoShown, AllBeside, RoundsBeside;
    var n := |rounds| - 1;
    var last := rounds[n];
    var at := ArtColumn(s, t.columns);
    var beside := RoundsBeside(s, at, rounds, t.wcwidth);
    RoundsFront(s, at, rounds, t.wcwidth);
    if n == 0 {
      assert rounds[..n] == [];
      FirstRound(s, true, pipe, last, t);
      EndKeeps(s, s, beside, at, last, Round(s, true, pipe, last, t));
      AfterRound(s, |last|);
    } else {
      var a := WatchState(s, rounds[..n]);
      var v := Watch(s, pipe, rounds[..n], t);
      WatchShows(s, pipe, rounds[..n], t);
      LaterRound(a, true, pipe, last, at, v);
      var u := Round(a, true, pipe, last, v);
      if beside {
        SameBeside(s, a, at, last, t.wcwidth);
        WithinLogo(s, at, v);
        StillShown(s, a, at, v, u);
      }
      EndKeeps(s, a, beside, at, last, u);
      AfterRound(a, |last|);
    }
  }

  lemma SameBeside(s: State, a: State, at: nat, infos: seq<text>, wcwidth: int -> int)
    requires AllBeside(s, at, infos, wcwidth) && a.position == s.position
    ensures AllBeside(a, at, infos, wcwidth)
  {
    hide Columns, Strip;
    forall i: nat | i < |infos| ensures Beside(a, at, infos[i], wcwidth) {
      assert Beside(s, at, infos[i], wcwidth);
    }
  }

  /**
    The rows agree: round `r` ends `max(k, logoHeight + 1)` rows down, where `k`
    is the number of its module lines, whether it prints the cached logo or
    moves the cursor past it.
   */
  lemma RowsAgree(s: State, pipe: bool, rounds: seq<seq<text>>, r: nat, t: Screen)
    requires AtRoundStart(s, t) && Cached(s) && r < |rounds|
    ensures var before := Watch(s, pipe, rounds[..r], t);
            var u := Round(WatchState(s, rounds[..r]), true, pipe, rounds[r], before);
            && before.row == 0 && before.column == 0
            && u.row == Max(|rounds[r]|, s.height + 1) && u.column == 0
  {
    hide Round, EndRound, RoundState, Columns, Strip, Texts, ArtShown, InfoShown;
    if r == 0 {
      assert rounds[..r] == [];
      FirstRound(s, true, pipe, rounds[r], t);
    } else {
      WatchShows(s, pipe, rounds[..r], t);
      LaterRound(WatchState(s, rounds[..r]), true, pipe, rounds[r], 0, Watch(s, pipe, rounds[..r], t));
    }
  }
}
