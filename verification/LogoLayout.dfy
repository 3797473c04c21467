/** The layout of a logo does not depend on whether colours are printed. */
module LogoLayout {
  import opened LogoText
  import opened LogoLines
  import opened LogoSteps
  import opened LogoSequences

  // ---- one line -----------------------------------------------------------------------------

  predicate GoodPen(pen: Pen) { Shown(pen.line) && Silent(pen.carry) }

  /** Two pens that differ in control sequences alone. */
  predicate PensAlike(a: Pen, b: Pen) { a.width == b.width && Strip(a.line) == Strip(b.line) }

  lemma ExtendIsGood(pen: Pen, p: Piece)
    requires GoodPen(pen) && Shown(p.chars) && (p.carry.Some? ==> Silent(p.carry.value))
    ensures GoodPen(Extend(pen, p)) && Strip(Extend(pen, p).line) == Strip(pen.line) + Strip(p.chars)
  {
    hide Shown, Silent, Strip;
    ShownAppend(pen.line, p.chars);
  }

  lemma {:induction false} RowIsGood(j: Job, rest: text, pen: Pen)
    requires WellFormed(rest, j.replace) && SgrColors(j.options) && GoodPen(pen)
    ensures GoodPen(ScanRow(j, rest, pen).pen) && WellFormed(ScanRow(j, rest, pen).rest, j.replace)
    decreases |rest|
  {
    hide WellFormed, SgrColors, GoodPen, NextStep, Extend, Shown, Silent, ScanRow;
    if AtLineEnd(rest) {
      RowEnds(j, rest, pen);
    } else {
      var p := NextStep(j, rest);
      StepIsGood(j, rest, pen);
      ExtendIsGood(pen, p);
      RowIsGood(j, rest[p.used..], Extend(pen, p));
    }
  }

  lemma {:induction false} RowAlike(j: Job, k: Job, rest: text, a: Pen, b: Pen)
    requires SameButPipe(j, k) && WellFormed(rest, j.replace) && SgrColors(j.options)
    requires GoodPen(a) && GoodPen(b) && PensAlike(a, b)
    ensures var r := ScanRow(j, rest, a);
            var s := ScanRow(k, rest, b);
            PensAlike(r.pen, s.pen) && r.rest == s.rest
    decreases |rest|
  {
    hide WellFormed, SgrColors, GoodPen, NextStep, Extend, Shown, Silent, Strip, ScanRow;
    if AtLineEnd(rest) {
      RowEnds(j, rest, a);
      RowEnds(k, rest, b);
    } else {
      var p := NextStep(j, rest);
      var q := NextStep(k, rest);
      StepIsGood(j, rest, a);
      SgrIgnoresPipe(j, k);
      StepIsGood(k, rest, b);
      StepsAlike(j, k, rest);
      ExtendIsGood(a, p);
      ExtendIsGood(b, q);
      ExtendWidth(a, p);
      ExtendWidth(b, q);
      RowAlike(j, k, rest[p.used..], Extend(a, p), Extend(b, q));
    }
  }

  lemma ExtendWidth(pen: Pen, p: Piece)
    ensures Extend(pen, p).width == pen.width + p.width
  {
  }

  lemma StartIsGood(o: Options, carry: text)
    requires Silent(carry)
    ensures GoodPen(StartPen(o, carry)) && StartPen(o, carry).width == Indent(o)
    ensures Strip(StartPen(o, carry).line) == Repeat(SPACE, Indent(o))
  {
    hide Shown, Strip, Repeat;
    SequencesOfTheProgram();
    PlainIsShown([]);
    SilentParts(BOLD);
    SilentParts(carry);
    var bold := if !o.pipe && o.brightColor then BOLD else [];
    var color := if KeepsCarry(o) then carry else [];
    var spaces := Repeat(SPACE, Indent(o));
    SpacesAreShown(Indent(o));
    ShownAppend(bold, color);
    ShownAppend(bold + color, spaces);
  }

  // ---- the whole text -----------------------------------------------------------------------

  /** Two lines that differ in control sequences alone. */
  predicate LinesAlike(a: seq<CachedLine>, b: seq<CachedLine>) {
    |a| == |b| && forall i: nat | i < |a| :: a[i].width == b[i].width && Strip(a[i].chars) == Strip(b[i].chars)
  }

  lemma StoredIsShown(o: Options, chars: text, width: nat)
    requires Shown(chars)
    ensures Shown(Stored(o, chars, width).chars)
    ensures Strip(Stored(o, chars, width).chars) == if width == 0 then [] else Strip(chars)
  {
    hide Shown, Strip;
    SequencesOfTheProgram();
    SilentParts(RESET);
    PlainIsShown([]);
    ShownAppend(chars, RESET);
    assert Strip(chars) + [] == Strip(chars);
  }

  lemma {:induction false} RowsAreShown(j: Job, rest: text, carry: text)
    requires WellFormed(rest, j.replace) && SgrColors(j.options) && Silent(carry)
    ensures forall line <- Rows(j, rest, carry) :: Shown(line.chars)
    decreases |rest|
  {
    hide WellFormed, SgrColors, Shown, Silent, StartPen, ScanRow, Stored;
    var o := j.options;
    var row := ScanRow(j, rest, StartPen(o, carry));
    StartIsGood(o, carry);
    RowIsGood(j, rest, StartPen(o, carry));
    StoredIsShown(o, row.pen.line, row.pen.width);
    if AtBreak(row.rest) {
      BreakIsProper(row.rest, j.replace);
      RowsAreShown(j, AfterBreak(row.rest), row.pen.carry);
    }
  }

  lemma BreakIsProper(rest: text, replace: bool)
    requires AtBreak(rest) && WellFormed(rest, replace)
    ensures WellFormed(AfterBreak(rest), replace)
  {
    SkipPlain(rest, replace, if rest[0] == CR then 2 else 1);
  }

  /** The first lines of both parsers: alike, ending at the same place, with silent colours carried on. */
  lemma FirstRowAlike(j: Job, k: Job, rest: text, carry: text, other: text)
    requires SameButPipe(j, k) && WellFormed(rest, j.replace) && SgrColors(j.options)
    requires Silent(carry) && Silent(other)
    ensures var r := ScanRow(j, rest, StartPen(j.options, carry));
            var s := ScanRow(k, rest, StartPen(k.options, other));
            && GoodPen(r.pen) && GoodPen(s.pen) && PensAlike(r.pen, s.pen)
            && r.rest == s.rest && WellFormed(r.rest, j.replace)
  {
    hide WellFormed, SgrColors, Shown, Silent, StartPen, ScanRow, Strip;
    var a := StartPen(j.options, carry);
    var b := StartPen(k.options, other);
    StartIsGood(j.options, carry);
    StartIsGood(k.options, other);
    SgrIgnoresPipe(j, k);
    RowIsGood(j, rest, a);
    RowIsGood(k, rest, b);
    RowAlike(j, k, rest, a, b);
  }

  lemma StoredAlike(o: Options, p: Options, a: Pen, b: Pen)
    requires Shown(a.line) && Shown(b.line) && PensAlike(a, b)
    ensures Stored(o, a.line, a.width).width == Stored(p, b.line, b.width).width
    ensures Strip(Stored(o, a.line, a.width).chars) == Strip(Stored(p, b.line, b.width).chars)
  {
    hide Shown, Strip;
    StoredIsShown(o, a.line, a.width);
    StoredIsShown(p, b.line, b.width);
  }

  lemma {:induction false} RowsAlike(j: Job, k: Job, rest: text, carry: text, other: text)
    requires SameButPipe(j, k) && WellFormed(rest, j.replace) && SgrColors(j.options)
    requires Silent(carry) && Silent(other)
    ensures LinesAlike(Rows(j, rest, carry), Rows(k, rest, other))
    decreases |rest|
  {
    hide WellFormed, SgrColors, Shown, Silent, StartPen, ScanRow, Stored, Strip, PensAlike, AtBreak, AfterBreak;
    var row := ScanRow(j, rest, StartPen(j.options, carry));
    var sow := ScanRow(k, rest, StartPen(k.options, other));
    FirstRowAlike(j, k, rest, carry, other);
    StoredAlike(j.options, k.options, row.pen, sow.pen);
    if AtBreak(row.rest) {
      BreakIsProper(row.rest, j.replace);
      RowsAlike(j, k, AfterBreak(row.rest), row.pen.carry, sow.pen.carry);
    }
  }

  lemma FirstCarryIsSilent(j: Job)
    requires SgrColors(j.options)
    ensures Silent(FirstCarry(j))
  {
    hide Silent, Sgr;
    SgrIsSilent(j.options, 0);
    EmptyIsSilent();
  }

  lemma EmptyIsSilent()
    ensures Silent([])
  {
  }

  lemma {:induction false} MaxWidthAlike(a: seq<CachedLine>, b: seq<CachedLine>, least: nat)
    requires LinesAlike(a, b)
    ensures MaxWidth(a, least) == MaxWidth(b, least)
    decreases |a|
  {
    hide Strip;
    if a != [] {
      MaxWidthAlike(a[..|a| - 1], b[..|b| - 1], least);
    }
  }

  lemma TextRowsAlike(j: Job, k: Job, data: text)
    requires SameButPipe(j, k) && WellFormed(data, j.replace) && SgrColors(j.options)
    ensures LinesAlike(TextRows(j, data), TextRows(k, data))
  {
    hide WellFormed, SgrColors, Silent, Strip, Rows, FirstCarry;
    if At(data, 0) != NUL {
      SgrIgnoresPipe(j, k);
      FirstCarryIsSilent(j);
      FirstCarryIsSilent(k);
      RowsAlike(j, k, data, FirstCarry(j), FirstCarry(k));
    }
  }

  /**
    The layout is independent of the colour mode: with and without `pipe`, a
    well-formed logo gives the same number of lines and the same widths,
    position, height and offset, and the lines are equal once control sequences,
    carried colours included, are taken out.
   */
  lemma LayoutIgnoresPipe(j: Job, k: Job, data: text, columns: nat)
    requires SameButPipe(j, k) && WellFormed(data, j.replace) && SgrColors(j.options)
    ensures var a := Build(j, data, columns);
            var b := Build(k, data, columns);
            && LinesAlike(a.lines, b.lines)
            && a.position == b.position && a.height == b.height && a.width == b.width
            && a.rightOffset == b.rightOffset
  {
    hide WellFormed, SgrColors, TextRows, Strip, MaxWidth;
    TextRowsAlike(j, k, data);
    MaxWidthAlike(TextRows(j, data), TextRows(k, data), j.options.width);
  }

  /** A cached line of a well-formed logo holds no line feed and no unfinished sequence. */
  lemma CachedLinesAreShown(j: Job, data: text, columns: nat)
    requires WellFormed(data, j.replace) && SgrColors(j.options)
    ensures forall line <- Build(j, data, columns).lines :: Shown(line.chars)
  {
    hide WellFormed, SgrColors, Silent, Shown, Rows, FirstCarry, MaxWidth;
    assert Shown([]) by { PlainIsShown([]); }
    if At(data, 0) != NUL {
      FirstCarryIsSilent(j);
      RowsAreShown(j, data, FirstCarry(j));
    }
  }
}
