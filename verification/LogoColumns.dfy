/**
  The recorded width of a cached line: the number of columns that its characters
  take, and one more for each byte of a control sequence that the parser reads as
  a character.
 */
module LogoColumns {
  import opened CArithmetic
  import opened Wrappers
  import opened LogoText
  import opened LogoLines
  import opened LogoSteps
  import opened LogoSequences
  import opened LogoLayout

  lemma {:induction false} SkipAscii(rest: text, n: nat, wcwidth: int -> int)
    requires WholeCharacters(rest, wcwidth) && n <= |rest| && forall i: nat | i < n :: rest[i] < 0x80
    ensures WholeCharacters(rest[n..], wcwidth)
    decreases n
  {
    if n == 0 {
      assert rest[0..] == rest;
    } else {
      assert CharLenWidth(rest, wcwidth).bytes == 1;
      SkipAscii(rest[1..], n - 1, wcwidth);
      assert rest[1..][n - 1..] == rest[n..];
    }
  }

  lemma {:induction false} AsciiColumns(s: text, wcwidth: int -> int)
    requires forall i: nat | i < |s| :: 0 < s[i] < 0x80
    ensures WholeCharacters(s, wcwidth) && Columns(s, wcwidth) == |s|
    decreases |s|
  {
    if s != [] {
      assert CharLenWidth(s, wcwidth) == Glyph(1, 1);
      AsciiColumns(s[1..], wcwidth);
    }
  }

  /** Exactly the bytes of the first character. */
  lemma FirstCharacter(rest: text, wcwidth: int -> int)
    requires rest != [] && WholeCharacters(rest, wcwidth)
    ensures var g := CharLenWidth(rest, wcwidth);
            var s := rest[..g.bytes];
            && WholeCharacters(s, wcwidth) && Columns(s, wcwidth) == g.width
            && WholeCharacters(rest[g.bytes..], wcwidth)
  {
    hide CharLenWidth;
    var g := CharLenWidth(rest, wcwidth);
    var s := rest[..g.bytes];
    FirstGlyph(rest, wcwidth);
    assert s[g.bytes..] == [];
    assert Columns([], wcwidth) == 0;
    assert WholeCharacters([], wcwidth);
  }

  lemma FirstGlyph(rest: text, wcwidth: int -> int)
    requires At(rest, 0) != NUL
    ensures var g := CharLenWidth(rest, wcwidth); CharLenWidth(rest[..g.bytes], wcwidth) == g
  {
    hide Announced;
    var n := CharLenWidth(rest, wcwidth).bytes;
    var s := rest[..n];
    assert s[0] == rest[0];
    if n > 1 {
      assert forall i: nat | i < n :: At(s, i) == At(rest, i);
      assert Complete(s);
      CodePointAppend(s, rest[n..]);
      assert s + rest[n..] == rest;
    } else if rest[0] >= 0x80 && Announced(rest[0]) > 1 {
      assert !Continuation(At(s, 1));
      assert !Complete(s);
    }
  }

  /** Whole characters that take `width` columns. */
  predicate Takes(s: text, width: nat, wcwidth: int -> int) {
    WholeCharacters(s, wcwidth) && Columns(s, wcwidth) == width
  }

  lemma TakesAppend(a: text, b: text, v: nat, w: nat, wcwidth: int -> int)
    requires Takes(a, v, wcwidth) && Takes(b, w, wcwidth)
    ensures Takes(a + b, v + w, wcwidth)
  {
    hide WholeCharacters, Columns;
    ColumnsAppend(a, b, wcwidth);
  }

  lemma SpacesTake(n: nat, wcwidth: int -> int)
    ensures Takes(Repeat(SPACE, n), n, wcwidth)
  {
    AsciiColumns(Repeat(SPACE, n), wcwidth);
  }

  // ---- columns that are counted too many ------------------------------------------------------

  /** The columns that the row at the start of `rest` counts for bytes of control sequences. */
  function Surplus(rest: text, replace: bool): nat
    decreases |rest|
  {
    if AtLineEnd(rest) then 0
    else if CsiLength(rest) > 0 then |Collapse(Tail(rest), replace)| + Surplus(rest[CsiLength(rest)..], replace)
    else if replace && rest[0] == DOLLAR && |rest| > 1 then Surplus(rest[DollarLength(rest[1])..], replace)
    else Surplus(rest[1..], replace)
  }

  /** Every control sequence has digits and semicolons alone before its final byte. */
  predicate SimpleSequences(rest: text)
    decreases |rest|
  {
    if rest == [] then true
    else if CsiLength(rest) > 0 then
      HeadLength(rest) == CsiLength(rest) && SimpleSequences(rest[CsiLength(rest)..])
    else SimpleSequences(rest[1..])
  }

  /** The text from the next line end on. */
  function LineEnd(rest: text): (r: text)
    ensures |r| <= |rest| && AtLineEnd(r)
  {
    if AtLineEnd(rest) then rest else LineEnd(rest[1..])
  }

  /** The text from the start of each row on. */
  function RowStarts(rest: text): (r: seq<text>)
    ensures r != []
    decreases |rest|
  {
    var end := LineEnd(rest);
    [rest] + (if AtBreak(end) then RowStarts(AfterBreak(end)) else [])
  }

  /** Bytes of a row that begin neither a sequence nor a placeholder count nothing extra. */
  lemma {:induction false} SkipBytes(rest: text, replace: bool, n: nat)
    requires n <= |rest|
    requires forall i: nat | i < n :: rest[i] >= 0x20 && rest[i] != ESC && (replace ==> rest[i] != DOLLAR)
    ensures Surplus(rest, replace) == Surplus(rest[n..], replace)
    ensures SimpleSequences(rest) == SimpleSequences(rest[n..])
    ensures LineEnd(rest) == LineEnd(rest[n..])
    decreases n
  {
    hide CsiLength;
    if n == 0 {
      assert rest[0..] == rest;
    } else {
      SkipBytes(rest[1..], replace, n - 1);
      assert rest[1..][n - 1..] == rest[n..];
    }
  }

  /** One byte that is no line end. */
  lemma SkipByte(rest: text, replace: bool)
    requires !AtLineEnd(rest) && rest[0] != ESC && (replace ==> rest[0] != DOLLAR)
    ensures Surplus(rest, replace) == Surplus(rest[1..], replace)
    ensures SimpleSequences(rest) == SimpleSequences(rest[1..])
    ensures LineEnd(rest) == LineEnd(rest[1..])
  {
    hide CsiLength;
  }

  lemma SkipDollar(rest: text)
    requires At(rest, 0) == DOLLAR && ProperDollar(At(rest, 1))
    ensures var n := DollarLength(At(rest, 1));
            && n <= |rest|
            && Surplus(rest, true) == Surplus(rest[n..], true)
            && SimpleSequences(rest) == SimpleSequences(rest[n..])
            && LineEnd(rest) == LineEnd(rest[n..])
  {
    hide CsiLength;
    assert SimpleSequences(rest) == SimpleSequences(rest[1..]);
    if |rest| > 1 {
      assert rest[1..][1..] == rest[2..];
    } else {
      assert rest[1..] == [];
    }
  }

  lemma SkipSequence(rest: text, replace: bool)
    requires CsiLength(rest) > 0
    ensures var n := CsiLength(rest);
            && Surplus(rest, replace) == |Collapse(Tail(rest), replace)| + Surplus(rest[n..], replace)
            && (SimpleSequences(rest) <==> Collapse(Tail(rest), replace) == [] && SimpleSequences(rest[n..]))
            && LineEnd(rest) == LineEnd(rest[n..])
  {
    hide BodyLength;
    HeadOfSequence(rest);
    BodyBytes(rest[2..], false);
    assert !AtLineEnd(rest);
    forall i: nat | 1 <= i < CsiLength(rest) ensures rest[i] >= 0x20 {
      assert i >= 2 ==> rest[i] == rest[2..][i - 2];
    }
    LineEndInside(rest, CsiLength(rest));
    assert Collapse(Tail(rest), replace) == [] <==> Tail(rest) == [];
  }

  lemma {:induction false} LineEndInside(rest: text, n: nat)
    requires n <= |rest| && forall i: nat | i < n :: rest[i] >= 0x20 || rest[i] == ESC
    ensures LineEnd(rest) == LineEnd(rest[n..])
    decreases n
  {
    if n == 0 {
      assert rest[0..] == rest;
    } else {
      LineEndInside(rest[1..], n - 1);
      assert rest[1..][n - 1..] == rest[n..];
    }
  }

  // ---- one step -------------------------------------------------------------------------------

  /**
    A step from `rest` adds characters as wide as it says, except for `extra`
    columns, and these are what the row counts too many here.
   */
  ghost predicate StepCounts(p: Piece, extra: nat, rest: text, j: Job) {
    && extra <= p.width && Takes(Strip(p.chars), p.width - extra, j.wcwidth)
    && p.used <= |rest| && WholeCharacters(rest[p.used..], j.wcwidth)
    && Surplus(rest, j.replace) == extra + Surplus(rest[p.used..], j.replace)
    && (SimpleSequences(rest) <==> extra == 0 && SimpleSequences(rest[p.used..]))
    && LineEnd(rest) == LineEnd(rest[p.used..])
  }

  lemma TabCounts(j: Job, rest: text)
    requires At(rest, 0) == TAB && WholeCharacters(rest, j.wcwidth)
    ensures StepCounts(Piece(1, Repeat(SPACE, 4), 4, None), 0, rest, j)
  {
    hide WholeCharacters, Columns, Strip, Repeat, Surplus, SimpleSequences, LineEnd;
    SpacesAreShown(4);
    SpacesTake(4, j.wcwidth);
    SkipAscii(rest, 1, j.wcwidth);
    SkipByte(rest, j.replace);
  }

  lemma SequenceCounts(j: Job, rest: text)
    requires CsiLength(rest) > 0 && WellFormed(rest, j.replace) && WholeCharacters(rest, j.wcwidth)
    ensures StepCounts(SequenceStep(j, rest), |Collapse(Tail(rest), j.replace)|, rest, j)
  {
    hide WholeCharacters, Columns, Strip, WellFormed, Silent, Surplus, SimpleSequences, LineEnd, BodyLength, Collapse,
         GoodPiece, Shown, HeadLength;
    SequenceIsGood(j, rest);
    SilentParts(SequenceStep(j, rest).chars);
    AsciiColumns([], j.wcwidth);
    SkipSequence(rest, j.replace);
    var n := CsiLength(rest);
    BodyBytes(rest[2..], false);
    forall i: nat | i < n ensures rest[i] < 0x80 {
      assert i >= 2 ==> rest[i] == rest[2..][i - 2];
    }
    SkipAscii(rest, n, j.wcwidth);
  }

  lemma DollarCounts(j: Job, rest: text)
    requires j.replace && At(rest, 0) == DOLLAR && WellFormed(rest, true) && SgrColors(j.options)
    requires WholeCharacters(rest, j.wcwidth)
    ensures StepCounts(DollarPiece(j, rest), 0, rest, j)
  {
    hide WholeCharacters, Columns, Strip, DollarPiece, GoodPiece, SgrColors, WellFormed, Surplus, SimpleSequences,
        LineEnd;
    DollarIsGood(j, rest);
    DollarSkips(rest);
    AsciiColumns([], j.wcwidth);
    AsciiColumns([DOLLAR], j.wcwidth);
    SkipAscii(rest, DollarLength(At(rest, 1)), j.wcwidth);
    SkipDollar(rest);
  }

  lemma CharCounts(j: Job, rest: text)
    requires !AtLineEnd(rest) && rest[0] != ESC && WellFormed(rest, j.replace) && (j.replace ==> rest[0] != DOLLAR)
    requires WholeCharacters(rest, j.wcwidth)
    ensures StepCounts(CharPiece(rest, 0, [], 0, j.wcwidth), 0, rest, j)
  {
    hide WholeCharacters, Columns, Strip, CharLenWidth, WellFormed, GoodPiece, Surplus, SimpleSequences, LineEnd;
    CharIsGood(j, rest);
    assert rest[0..] == rest;
    var n := CharLenWidth(rest, j.wcwidth).bytes;
    assert [] + rest[0..0 + n] == rest[..n];
    FirstCharacter(rest, j.wcwidth);
    SkipByte(rest, j.replace);
    forall i: nat | i < n - 1 ensures rest[1..][i] >= 0x80 {
      assert Continuation(rest[i + 1]);
    }
    SkipBytes(rest[1..], j.replace, n - 1);
    assert rest[1..][n - 1..] == rest[n..];
  }

  /** The columns that a step counts too many. */
  function Extra(j: Job, rest: text): nat {
    if CsiLength(rest) > 0 then |Collapse(Tail(rest), j.replace)| else 0
  }

  lemma NextCounts(j: Job, rest: text)
    requires !AtLineEnd(rest) && WellFormed(rest, j.replace) && SgrColors(j.options)
    requires WholeCharacters(rest, j.wcwidth)
    ensures StepCounts(NextStep(j, rest), Extra(j, rest), rest, j)
  {
    hide StepCounts, SequenceStep, SequencePiece, DollarPiece, CharPiece, WholeCharacters, WellFormed, BodyLength,
        Collapse;
    if rest[0] == TAB {
      TabCounts(j, rest);
    } else if rest[0] == ESC {
      EscapeIsSequence(rest, j.replace);
      SequenceCounts(j, rest);
    } else if j.replace && rest[0] == DOLLAR {
      DollarCounts(j, rest);
    } else {
      CharCounts(j, rest);
    }
  }

  // ---- one line -------------------------------------------------------------------------------

  /** The characters on the pen's line take its width, except for `extra` columns. */
  predicate PenCounts(pen: Pen, extra: nat, wcwidth: int -> int) {
    extra <= pen.width && Takes(Strip(pen.line), pen.width - extra, wcwidth)
  }

  lemma {:induction false} RowCounts(j: Job, rest: text, pen: Pen, extra: nat)
    requires WellFormed(rest, j.replace) && SgrColors(j.options) && WholeCharacters(rest, j.wcwidth)
    requires GoodPen(pen) && PenCounts(pen, extra, j.wcwidth)
    ensures var row := ScanRow(j, rest, pen);
            && PenCounts(row.pen, extra + Surplus(rest, j.replace), j.wcwidth)
            && WholeCharacters(row.rest, j.wcwidth) && row.rest == LineEnd(rest)
            && (SimpleSequences(rest) <==> Surplus(rest, j.replace) == 0 && SimpleSequences(row.rest))
    decreases |rest|
  {
    hide WellFormed, SgrColors, GoodPen, NextStep, Extend, Shown, Silent, Strip, WholeCharacters, Takes, ScanRow, Extra,
         Surplus, SimpleSequences, LineEnd;
    if AtLineEnd(rest) {
      RowEnds(j, rest, pen);
      EndCounts(rest, j.replace);
    } else {
      var p := NextStep(j, rest);
      var e := Extra(j, rest);
      StepIsGood(j, rest, pen);
      NextCounts(j, rest);
      ExtendIsGood(pen, p);
      ExtendWidth(pen, p);
      TakesAppend(Strip(pen.line), Strip(p.chars), pen.width - extra, p.width - e, j.wcwidth);
      RowCounts(j, rest[p.used..], Extend(pen, p), extra + e);
    }
  }

  lemma EndCounts(rest: text, replace: bool)
    requires AtLineEnd(rest)
    ensures Surplus(rest, replace) == 0 && LineEnd(rest) == rest
  {
  }

  /** The recorded width of a line, against what its characters take and what its row counts too many. */
  ghost predicate LineCounts(line: CachedLine, start: text, j: Job) {
    line.width == Columns(Strip(line.chars), j.wcwidth) + Surplus(start, j.replace)
  }

  /** The lines of the rows from `rest` on. */
  ghost predicate RowsCount(lines: seq<CachedLine>, rest: text, j: Job) {
    && |lines| == |RowStarts(rest)|
    && (forall i: nat | i < |lines| :: LineCounts(lines[i], RowStarts(rest)[i], j))
    && (SimpleSequences(rest) <==>
          forall line <- lines :: Columns(Strip(line.chars), j.wcwidth) == line.width)
  }

  lemma {:induction false} RowsAreCounted(j: Job, rest: text, carry: text)
    requires WellFormed(rest, j.replace) && SgrColors(j.options) && WholeCharacters(rest, j.wcwidth) && Silent(carry)
    ensures RowsCount(Rows(j, rest, carry), rest, j)
    decreases |rest|
  {
    hide WellFormed, SgrColors, Shown, Silent, StartPen, ScanRow, Stored, Strip, WholeCharacters, Takes, Repeat,
         Surplus, SimpleSequences, LineEnd, RowStarts, RowsCount;
    var o := j.options;
    var start := StartPen(o, carry);
    var row := ScanRow(j, rest, start);
    StartIsGood(o, carry);
    SpacesTake(Indent(o), j.wcwidth);
    RowIsGood(j, rest, start);
    RowCounts(j, rest, start, 0);
    var line := Stored(o, row.pen.line, row.pen.width);
    assert LineCounts(line, rest, j) by {
      StoredCounts(o, row.pen.line, row.pen.width, Surplus(rest, j.replace), j.wcwidth);
    }
    if AtBreak(row.rest) {
      BreakIsProper(row.rest, j.replace);
      BreakIsWhole(row.rest, j.wcwidth);
      RowsAreCounted(j, AfterBreak(row.rest), row.pen.carry);
      MoreRows(j, rest, row.rest, line, Rows(j, AfterBreak(row.rest), row.pen.carry));
    } else {
      NoTerminator(row.rest, j.replace);
      LastRow(j, rest, row.rest, line);
      assert [line] + [] == [line];
    }
  }

  lemma NoTerminator(rest: text, replace: bool)
    requires WellFormed(rest, replace)
    ensures NUL !in rest
  {
  }

  lemma MoreRows(j: Job, rest: text, end: text, line: CachedLine, lines: seq<CachedLine>)
    requires end == LineEnd(rest) && AtBreak(end) && LineCounts(line, rest, j) && RowsCount(lines, AfterBreak(end), j)
    requires SimpleSequences(rest) <==> Surplus(rest, j.replace) == 0 && SimpleSequences(end)
    ensures RowsCount([line] + lines, rest, j)
  {
    hide Surplus, LineEnd, Columns, Strip;
    BreakIsSimple(end);
    var all := [line] + lines;
    assert RowStarts(rest) == [rest] + RowStarts(AfterBreak(end));
    forall i: nat | i < |all| ensures LineCounts(all[i], RowStarts(rest)[i], j) {
      if i > 0 {
        assert all[i] == lines[i - 1];
      }
    }
    assert forall l :: l in all <==> l == line || l in lines;
  }

  lemma BreakIsSimple(end: text)
    requires AtBreak(end)
    ensures SimpleSequences(end) == SimpleSequences(AfterBreak(end))
  {
    hide CsiLength;
    if end[0] == CR {
      assert end[1..][1..] == end[2..];
    }
  }

  lemma LastRow(j: Job, rest: text, end: text, line: CachedLine)
    requires end == LineEnd(rest) && !AtBreak(end) && LineCounts(line, rest, j) && NUL !in end
    requires SimpleSequences(rest) <==> Surplus(rest, j.replace) == 0 && SimpleSequences(end)
    ensures RowsCount([line], rest, j)
  {
    hide Surplus, LineEnd, Columns, Strip;
    assert end == [];
    assert SimpleSequences([]);
    assert [rest] + [] == [rest];
  }

  lemma StoredCounts(o: Options, chars: text, width: nat, extra: nat, wcwidth: int -> int)
    requires Shown(chars) && extra <= width && Takes(Strip(chars), width - extra, wcwidth)
    ensures var line := Stored(o, chars, width); line.width == Columns(Strip(line.chars), wcwidth) + extra
  {
    hide Shown, Strip;
    StoredIsShown(o, chars, width);
  }

  lemma BreakIsWhole(rest: text, wcwidth: int -> int)
    requires AtBreak(rest) && WholeCharacters(rest, wcwidth)
    ensures WholeCharacters(AfterBreak(rest), wcwidth)
  {
    hide WholeCharacters;
    SkipAscii(rest, if rest[0] == CR then 2 else 1, wcwidth);
  }

  // ---- the whole text -------------------------------------------------------------------------

  /**
    What the widths of a build mean, for every well-formed logo in UTF-8.  The
    line of each row is as wide as its characters, escaped dollars, tabs and
    padding included, plus one column for each byte of a control sequence after
    the first that is no digit and no semicolon.
   */
  lemma RecordedWidth(j: Job, data: text, columns: nat)
    requires WellFormed(data, j.replace) && SgrColors(j.options) && WholeCharacters(data, j.wcwidth)
    requires data != []
    ensures var b, starts, top := Build(j, data, columns), RowStarts(data), j.options.paddingTop;
            && top + |starts| <= |b.lines|
            && (forall i: nat | i < |starts| :: LineCounts(b.lines[top + i], starts[i], j))
            && (forall i: nat | i < |b.lines| && !(top <= i < top + |starts|) :: b.lines[i] == CachedLine([], 0))
  {
    hide WellFormed, SgrColors, Silent, Strip, Rows, FirstCarry, MaxWidth, WholeCharacters, RowStarts, LineCounts;
    FirstByte(data, j.replace);
    FirstCarryIsSilent(j);
    RowsAreCounted(j, data, FirstCarry(j));
    var rows, b, top := TextRows(j, data), Build(j, data, columns), j.options.paddingTop;
    forall i: nat | i < |rows| ensures LineCounts(b.lines[top + i], RowStarts(data)[i], j) {
      assert b.lines[top + i] == rows[i];
    }
  }

  lemma FirstByte(data: text, replace: bool)
    requires WellFormed(data, replace) && data != []
    ensures At(data, 0) != NUL
  {
  }

  /**
    The recorded widths are the visible ones exactly when no control sequence has
    anything but digits and semicolons before its final byte.
   */
  lemma RecordedWidthIsVisibleIff(j: Job, data: text, columns: nat)
    requires WellFormed(data, j.replace) && SgrColors(j.options) && WholeCharacters(data, j.wcwidth)
    ensures SimpleSequences(data) <==>
            forall line <- Build(j, data, columns).lines :: Columns(Strip(line.chars), j.wcwidth) == line.width
  {
    hide WellFormed, SgrColors, Silent, Rows, FirstCarry, MaxWidth, WholeCharacters, RowStarts, LineCounts,
        SimpleSequences;
    assert Columns(Strip([]), j.wcwidth) == 0;
    var b, rows := Build(j, data, columns), TextRows(j, data);
    if data == [] {
      EmptyIsSimple();
      forall line | line in b.lines ensures line == CachedLine([], 0) {
      }
    } else {
      FirstByte(data, j.replace);
      FirstCarryIsSilent(j);
      RowsAreCounted(j, data, FirstCarry(j));
      assert forall line :: line in b.lines <==> line in rows || (line == CachedLine([], 0) && line in b.lines);
      assert forall line <- rows :: line in b.lines;
    }
  }

  lemma EmptyIsSimple()
    ensures SimpleSequences([])
  {
  }

  /** No line takes more columns than its recorded width. */
  lemma VisibleWithinRecorded(j: Job, data: text, columns: nat)
    requires WellFormed(data, j.replace) && SgrColors(j.options) && WholeCharacters(data, j.wcwidth)
    ensures forall line <- Build(j, data, columns).lines :: Columns(Strip(line.chars), j.wcwidth) <= line.width
  {
    hide WellFormed, SgrColors, WholeCharacters, RowStarts, Build, Surplus;
    var b := Build(j, data, columns);
    assert Columns(Strip([]), j.wcwidth) == 0;
    forall line | line in b.lines ensures Columns(Strip(line.chars), j.wcwidth) <= line.width {
      var i: nat :| i < |b.lines| && b.lines[i] == line;
      if data == [] {
        EmptyBuild(j, columns);
      } else {
        RecordedWidth(j, data, columns);
        var k := i - j.options.paddingTop;
        if 0 <= k < |RowStarts(data)| {
          assert LineCounts(b.lines[j.options.paddingTop + k], RowStarts(data)[k], j);
        }
      }
    }
  }

  lemma EmptyBuild(j: Job, columns: nat)
    ensures forall line <- Build(j, [], columns).lines :: line == CachedLine([], 0)
  {
    hide MaxWidth;
  }

  // ---- a sequence that is counted -------------------------------------------------------------

  /** ESC `[?25l` hides the cursor; one visible letter follows. */
  const HIDDEN_CURSOR: text := [ESC, BRACKET, 63, 50, 53, 108, 65]

  lemma HiddenCursorParts()
    ensures CsiLength(HIDDEN_CURSOR) == 6 && HeadLength(HIDDEN_CURSOR) == 3
    ensures Tail(HIDDEN_CURSOR) == [50, 53, 108] && HIDDEN_CURSOR[6..] == [65]
  {
    var s := HIDDEN_CURSOR;
    assert s[2..][1..] == s[3..] && s[2..][1..][1..] == s[4..] && s[4..][1..] == s[5..];
    assert BodyLength(s[5..], false) == 1;
    assert BodyLength(s[4..], false) == 2;
    assert BodyLength(s[3..], false) == 3;
    assert BodyLength(s[2..], false) == 4;
    assert !IsParameter(s[2]);
  }

  lemma HiddenCursorIsProper(replace: bool, wcwidth: int -> int)
    ensures WellFormed(HIDDEN_CURSOR, replace) && WholeCharacters(HIDDEN_CURSOR, wcwidth)
    ensures Surplus(HIDDEN_CURSOR, replace) == 3 && RowStarts(HIDDEN_CURSOR) == [HIDDEN_CURSOR]
  {
    hide CsiLength, HeadLength, WellFormed, WholeCharacters, Surplus, RowStarts, Collapse;
    HiddenCursorParts();
    AsciiColumns(HIDDEN_CURSOR, wcwidth);
    HiddenCursorDollars();
    CollapsePlain(Tail(HIDDEN_CURSOR), replace);
    SequenceThenLetter(HIDDEN_CURSOR, replace);
  }

  /** A sequence and a letter after it. */
  lemma SequenceThenLetter(s: text, replace: bool)
    requires CsiLength(s) > 0 && s[CsiLength(s)..] == [65] && NUL !in s && ProperDollars(s)
    ensures WellFormed(s, replace) && Surplus(s, replace) == |Collapse(Tail(s), replace)| && RowStarts(s) == [s]
  {
    hide CsiLength, HeadLength, Collapse, ProperDollars, Surplus, LineEnd;
    LetterRow(replace);
    SkipSequence(s, replace);
  }

  lemma LetterRow(replace: bool)
    ensures Closed([65]) && ProperDollars([65]) && Surplus([65], replace) == 0 && LineEnd([65]) == []
  {
    var e := [65 as byte][1..];
    assert e == [];
    assert Closed(e) && ProperDollars(e) && Surplus(e, replace) == 0 && LineEnd(e) == e;
  }

  lemma HiddenCursorDollars()
    ensures ProperDollars(HIDDEN_CURSOR)
  {
    hide BodyLength;
    var s := HIDDEN_CURSOR;
    HiddenCursorParts();
    LetterRow(true);
    assert s[3..][1..] == s[4..] && s[4..][1..] == s[5..] && s[5..][1..] == [65];
    assert ProperDollars(s[5..]);
    assert ProperDollars(s[4..]);
    assert ProperDollars(s[3..]);
  }

  /** The line with that sequence and one letter is recorded three columns wider than it is. */
  lemma HiddenCursorIsCounted(j: Job, columns: nat)
    requires SgrColors(j.options)
    ensures var b, top := Build(j, HIDDEN_CURSOR, columns), j.options.paddingTop;
            top < |b.lines| && b.lines[top].width == Columns(Strip(b.lines[top].chars), j.wcwidth) + 3
  {
    hide WellFormed, WholeCharacters, Surplus, RowStarts, Build, SgrColors, Strip, Columns;
    HiddenCursorIsProper(j.replace, j.wcwidth);
    RecordedWidth(j, HIDDEN_CURSOR, columns);
    var top := j.options.paddingTop;
    assert LineCounts(Build(j, HIDDEN_CURSOR, columns).lines[top + 0], RowStarts(HIDDEN_CURSOR)[0], j);
  }
}
