/** The colours of the cached lines: what a placeholder prints, and what every line begins and ends with. */
module LogoColors {
  import opened Wrappers
  import opened LogoText
  import opened LogoLines
  import opened LogoSteps
  import opened LogoSequences
  import opened LogoLayout
  import opened LogoColumns
  import opened LogoPictures

  // ---- one placeholder, one sequence --------------------------------------------------------------

  /**
    In colour mode `$1` to `$9` add ESC `[`, the first to the ninth colour and
    `m` to the line, without width.  Unless the logo is made by chafa, that
    sequence is also what the next line is to begin with.
   */
  lemma PlaceholderPrints(j: Job, rest: text, pen: Pen, i: nat)
    requires j.replace && !j.options.pipe && i < 9 && |rest| >= 2 && rest[0] == 36 && rest[1] == 49 + i
    ensures var sgr := [27, 91] + j.options.colors[i] + [109];
            ScanRow(j, rest, pen)
            == ScanRow(j, rest[2..], Pen(pen.line + sgr, pen.width, if j.options.chafa then pen.carry else sgr))
  {
    hide ScanRow;
    OneStep(j, rest, pen);
  }

  /** A sequence of digits and semicolons that selects colours. */
  predicate IsSgr(s: text) {
    && |s| >= 3 && s[|s| - 1] == 109
    && forall k: nat | 2 <= k < |s| - 1 :: 48 <= s[k] <= 57 || s[k] == 59
  }

  /** Such a sequence in the text is copied, and carried to the next line in the same way, in every mode. */
  lemma SequencePrints(j: Job, rest: text, pen: Pen)
    requires CsiLength(rest) > 0 && IsSgr(rest[..CsiLength(rest)])
    ensures var n := CsiLength(rest);
            ScanRow(j, rest, pen)
            == ScanRow(j, rest[n..],
                       Pen(pen.line + rest[..n], pen.width, if j.options.chafa then pen.carry else rest[..n]))
  {
    hide ScanRow, BodyLength;
    HeadIsRead(j, rest, pen);
    SgrHead(rest);
  }

  /** The parser reads exactly those sequences as carried colours. */
  lemma SgrHead(rest: text)
    requires CsiLength(rest) > 0
    ensures AtSequence(rest)
    ensures IsSgr(rest[..CsiLength(rest)]) <==>
            HeadLength(rest) == CsiLength(rest) && rest[HeadLength(rest) - 1] == LETTER_M
    ensures rest[HeadLength(rest) - 1] == LETTER_M ==> HeadLength(rest) == CsiLength(rest)
  {
    hide BodyLength;
    HeadOfSequence(rest);
    var n := CsiLength(rest);
    var s := rest[..n];
  }

  lemma {:induction false} ParametersEndAt(rest: text, i: nat, n: nat)
    requires i <= n <= |rest| && (n < |rest| ==> !IsParameter(rest[n]))
    requires forall k: nat | i <= k < n :: 48 <= rest[k] <= 57 || rest[k] == 59
    ensures ParametersEnd(rest, i) == n
    decreases n - i
  {
    if i < n {
      ParametersEndAt(rest, i + 1, n);
    }
  }

  /**
    Digits and semicolons after ESC `[` that no ASCII byte ends: these bytes are
    left out of the line, but all of them except one count as columns, together
    with the character that follows.
   */
  lemma BrokenSequenceCounts(j: Job, rest: text, pen: Pen, n: nat)
    requires 2 <= n < |rest| && rest[0] == 27 && rest[1] == 91 && rest[n] >= 0x80
    requires forall k: nat | 2 <= k < n :: 48 <= rest[k] <= 57 || rest[k] == 59
    ensures var g := CharLenWidth(rest[n..], j.wcwidth);
            && n + g.bytes <= |rest|
            && ScanRow(j, rest, pen)
               == ScanRow(j, rest[n + g.bytes..],
                          Pen(pen.line + rest[n..n + g.bytes], pen.width + (n - 1) + g.width, pen.carry))
  {
    hide ScanRow, CharLenWidth;
    ParametersEndAt(rest, 2, n);
    OneStep(j, rest, pen);
    var g := CharLenWidth(rest[n..], j.wcwidth);
    assert [] + rest[n..n + g.bytes] == rest[n..n + g.bytes];
  }

  // ---- the colour at the end of a row -------------------------------------------------------------

  /** What the bytes at the start of `rest` make of the colour so far. */
  function NewColor(j: Job, rest: text, color: text): text
    requires rest != []
  {
    if j.options.chafa then color
    else if CsiLength(rest) > 0 then
      if IsSgr(rest[..CsiLength(rest)]) then rest[..CsiLength(rest)] else color
    else if AtPlaceholder(rest, j.replace) && !j.options.pipe then [27, 91] + j.options.colors[rest[1] - 49] + [109]
    else color
  }

  /** The last colour that the row selects, or the one it was entered with. */
  function LastColor(j: Job, rest: text, color: text): text
    decreases |rest|
  {
    if AtLineEnd(rest) then color
    else LastColor(j, rest[Taken(rest, j.replace)..], NewColor(j, rest, color))
  }

  lemma {:induction false} ColorBytes(j: Job, rest: text, color: text, n: nat)
    requires n <= |rest| && forall i: nat | i < n :: rest[i] >= 0x80
    ensures LastColor(j, rest, color) == LastColor(j, rest[n..], color)
    decreases n
  {
    hide LastColor;
    if n == 0 {
      assert rest[0..] == rest;
    } else {
      ColorByte(j, rest, color);
      ColorBytes(j, rest[1..], color, n - 1);
      assert rest[1..][n - 1..] == rest[n..];
    }
  }

  lemma ColorByte(j: Job, rest: text, color: text)
    requires !AtLineEnd(rest) && rest[0] != ESC && (j.replace ==> rest[0] != DOLLAR)
    ensures LastColor(j, rest, color) == LastColor(j, rest[1..], color)
  {
    hide BodyLength;
  }

  function Carried(p: Piece, color: text): text { if p.carry.Some? then p.carry.value else color }

  /** A step carries what its bytes make of the colour. */
  ghost predicate StepColors(j: Job, p: Piece, rest: text, color: text) {
    p.used <= |rest| && LastColor(j, rest, color) == LastColor(j, rest[p.used..], Carried(p, color))
  }

  lemma SequenceColors(j: Job, rest: text, color: text)
    requires CsiLength(rest) > 0
    ensures StepColors(j, SequenceStep(j, rest), rest, color)
  {
    hide BodyLength, HeadLength, Collapse, IsSgr;
    SgrHead(rest);
    HeadOfSequence(rest);
    CarryOfSequence(j, rest);
  }

  lemma CarryOfSequence(j: Job, rest: text)
    requires CsiLength(rest) > 0
    ensures AtSequence(rest)
    ensures var h := HeadLength(rest);
            SequencePiece(j, rest).carry
            == if !j.options.chafa && rest[h - 1] == LETTER_M then Some(rest[..h]) else None
  {
    hide BodyLength, ParametersEnd;
    HeadOfSequence(rest);
  }

  lemma DollarColors(j: Job, rest: text, color: text)
    requires j.replace && At(rest, 0) == DOLLAR && ProperDollar(At(rest, 1))
    ensures StepColors(j, DollarPiece(j, rest), rest, color)
  {
    hide BodyLength;
  }

  lemma CharColors(j: Job, rest: text, color: text)
    requires !AtLineEnd(rest) && rest[0] != ESC && (j.replace ==> rest[0] != DOLLAR)
    ensures StepColors(j, CharPiece(rest, 0, [], 0, j.wcwidth), rest, color)
  {
    hide CharLenWidth, LastColor;
    assert rest[0..] == rest;
    var n := CharLenWidth(rest, j.wcwidth).bytes;
    forall i: nat | i < n - 1 ensures rest[1..][i] >= 0x80 {
      assert Continuation(rest[i + 1]);
    }
    ColorByte(j, rest, color);
    ColorBytes(j, rest[1..], color, n - 1);
    assert rest[1..][n - 1..] == rest[n..];
  }

  lemma NextColors(j: Job, rest: text, color: text)
    requires !AtLineEnd(rest) && WellFormed(rest, j.replace)
    ensures StepColors(j, NextStep(j, rest), rest, color)
  {
    hide StepColors, SequenceStep, SequencePiece, DollarPiece, CharPiece, WellFormed, BodyLength;
    if rest[0] == TAB {
      TabColors(j, rest, color);
    } else if rest[0] == ESC {
      EscapeIsSequence(rest, j.replace);
      SequenceColors(j, rest, color);
    } else if j.replace && rest[0] == DOLLAR {
      DollarSkips(rest);
      DollarColors(j, rest, color);
    } else {
      CharColors(j, rest, color);
    }
  }

  lemma TabColors(j: Job, rest: text, color: text)
    requires At(rest, 0) == TAB
    ensures StepColors(j, Piece(1, Repeat(SPACE, 4), 4, None), rest, color)
  {
    hide LastColor;
    ColorByte(j, rest, color);
  }

  lemma {:induction false} RowColors(j: Job, rest: text, pen: Pen)
    requires WellFormed(rest, j.replace) && SgrColors(j.options)
    ensures ScanRow(j, rest, pen).pen.carry == LastColor(j, rest, pen.carry)
    decreases |rest|
  {
    hide WellFormed, SgrColors, NextStep, ScanRow, Shown, Silent, LastColor;
    if AtLineEnd(rest) {
      RowEnds(j, rest, pen);
      assert LastColor(j, rest, pen.carry) == pen.carry by { ColorAtEnd(j, rest, pen.carry); }
    } else {
      var p := NextStep(j, rest);
      StepIsGood(j, rest, pen);
      NextColors(j, rest, pen.carry);
      RowColors(j, rest[p.used..], Extend(pen, p));
    }
  }

  lemma ColorAtEnd(j: Job, rest: text, color: text)
    requires AtLineEnd(rest)
    ensures LastColor(j, rest, color) == color
  {
  }

  // ---- the lines ----------------------------------------------------------------------------------

  /** The colour that row `i` begins with: that of the first row, or the last one of the row before. */
  function ColorOf(j: Job, rest: text, color: text, i: nat): text
    requires i < |RowStarts(rest)|
  {
    if i == 0 then color else LastColor(j, RowStarts(rest)[i - 1], ColorOf(j, rest, color, i - 1))
  }

  lemma {:induction false} ColorOfNext(j: Job, rest: text, color: text, i: nat)
    requires AtBreak(LineEnd(rest)) && i < |RowStarts(AfterBreak(LineEnd(rest)))|
    ensures i + 1 < |RowStarts(rest)|
    ensures ColorOf(j, rest, color, i + 1) == ColorOf(j, AfterBreak(LineEnd(rest)), LastColor(j, rest, color), i)
  {
    hide LastColor, LineEnd, AfterBreak;
    if i > 0 {
      ColorOfNext(j, rest, color, i - 1);
    } else {
      assert ColorOf(j, rest, color, 0) == color;
    }
  }

  /**
    A line that is not empty begins with bold if bright colours are printed, the
    colour unless the logo is made by chafa, and the left padding unless the logo
    is on the right, and ends with a reset if colours are printed.
   */
  predicate Framed(line: CachedLine, o: Options, color: text) {
    if line.width == 0 then line.chars == []
    else
      var front := (if o.brightColor && !o.pipe then [27, 91, 49, 109] else []) + (if o.chafa then [] else color)
                   + Repeat(32, if o.position == Right then 0 else o.paddingLeft);
      var back := if o.pipe then [] else [27, 91, 109];
      && |front| + |back| <= |line.chars|
      && line.chars[..|front|] == front && line.chars[|line.chars| - |back|..] == back
  }

  /** A row only adds to its line. */
  lemma {:induction false} RowAdds(j: Job, rest: text, pen: Pen)
    ensures pen.line <= ScanRow(j, rest, pen).pen.line
    decreases |rest|
  {
    hide ScanRow, NextPiece;
    if AtLineEnd(rest) {
      RowEnds(j, rest, pen);
    } else {
      var p := NextPiece(j, rest);
      OneStep(j, rest, pen);
      RowAdds(j, rest[p.used..], Extend(pen, p));
      PrefixOfSum(pen.line, p.chars, ScanRow(j, rest, pen).pen.line);
    }
  }

  lemma PrefixOfSum(a: text, b: text, s: text)
    requires a + b <= s
    ensures a <= s
  {
    assert a + b == s[..|a + b|];
    assert a == (a + b)[..|a|] == s[..|a|];
  }

  lemma StoredIsFramed(o: Options, carry: text, chars: text, width: nat)
    requires StartPen(o, carry).line <= chars
    ensures Framed(Stored(o, chars, width), o, carry)
  {
    hide Repeat;
    var front := StartPen(o, carry).line;
    assert front == chars[..|front|];
    if width > 0 && !o.pipe {
      assert (chars + RESET)[..|front|] == front;
      assert (chars + RESET)[|chars|..] == RESET;
    }
  }

  ghost predicate AllFramed(j: Job, lines: seq<CachedLine>, rest: text, color: text) {
    && |lines| == |RowStarts(rest)|
    && forall i: nat | i < |lines| :: Framed(lines[i], j.options, ColorOf(j, rest, color, i))
  }

  lemma {:induction false} RowsAreFramed(j: Job, rest: text, carry: text)
    requires WellFormed(rest, j.replace) && SgrColors(j.options) && Silent(carry)
    ensures AllFramed(j, Rows(j, rest, carry), rest, carry)
    decreases |rest|
  {
    hide WellFormed, SgrColors, Silent, Shown, StartPen, ScanRow, Stored, LastColor, Framed, LineEnd, AfterBreak;
    var start := StartPen(j.options, carry);
    var row := ScanRow(j, rest, start);
    StartIsGood(j.options, carry);
    RowIsGood(j, rest, start);
    RowDraws(j, rest, start);
    StartCarry(j.options, carry);
    RowColors(j, rest, start);
    RowAdds(j, rest, start);
    StoredIsFramed(j.options, carry, row.pen.line, row.pen.width);
    if AtBreak(row.rest) {
      BreakIsProper(row.rest, j.replace);
      var more := Rows(j, AfterBreak(row.rest), row.pen.carry);
      RowsAreFramed(j, AfterBreak(row.rest), row.pen.carry);
      forall i: nat | i < |more| ensures Framed(more[i], j.options, ColorOf(j, rest, carry, i + 1)) {
        ColorOfNext(j, rest, carry, i);
      }
    }
  }

  lemma StartCarry(o: Options, carry: text)
    ensures StartPen(o, carry).carry == carry
  {
  }

  /**
    The colours of the cache.  In colour mode with placeholders the first line
    begins with the first colour and otherwise with none, and every other line
    with the last colour of the line before; bold, padding and the reset at the
    end are in their places.
   */
  lemma LinesAreFramed(j: Job, data: text, columns: nat)
    requires WellFormed(data, j.replace) && SgrColors(j.options) && data != []
    ensures var lines, top := Build(j, data, columns).lines, j.options.paddingTop;
            var first := if j.options.chafa || j.options.pipe || !j.replace then []
                         else [27, 91] + j.options.colors[0] + [109];
            && top + |RowStarts(data)| <= |lines|
            && AllFramed(j, lines[top..top + |RowStarts(data)|], data, first)
  {
    hide WellFormed, SgrColors, Silent, Rows, MaxWidth, RowStarts, Framed, ColorOf;
    FirstByte(data, j.replace);
    FirstCarryIsSilent(j);
    RowsAreFramed(j, data, FirstCarry(j));
    var b, rows, top := Build(j, data, columns), TextRows(j, data), j.options.paddingTop;
    assert b.lines[top..top + |rows|] == rows;
  }
}
