/** What the cached lines show: the text of the logo, row by row. */
module LogoPictures {
  import opened Wrappers
  import opened LogoText
  import opened LogoLines
  import opened LogoSteps
  import opened LogoSequences
  import opened LogoLayout
  import opened LogoColumns

  /** `$1` to `$9`. */
  predicate AtPlaceholder(rest: text, replace: bool) {
    replace && At(rest, 0) == DOLLAR && 49 <= At(rest, 1) <= 57
  }

  /** `$$`. */
  predicate AtEscapedDollar(rest: text, replace: bool) {
    replace && At(rest, 0) == DOLLAR && At(rest, 1) == DOLLAR
  }

  /** The bytes that belong together at the start of a text. */
  function Taken(rest: text, replace: bool): (n: nat)
    requires rest != []
    ensures 0 < n <= |rest|
  {
    if CsiLength(rest) > 0 then CsiLength(rest)
    else if AtPlaceholder(rest, replace) || AtEscapedDollar(rest, replace) then 2
    else 1
  }

  /** What they show: nothing for a sequence or a placeholder, a dollar for two, four spaces for a tab. */
  function Seen(rest: text, replace: bool): text
    requires rest != []
  {
    if CsiLength(rest) > 0 || AtPlaceholder(rest, replace) then []
    else if rest[0] == 9 then [32, 32, 32, 32]
    else [rest[0]]
  }

  /** What is to be seen of a text, line by line.  Lines end at LF or CR LF. */
  function PictureLines(rest: text, replace: bool): (r: seq<text>)
    ensures r != []
    decreases |rest|
  {
    if rest == [] then [[]]
    else if rest[0] == 10 then [[]] + PictureLines(rest[1..], replace)
    else if rest[0] == 13 && At(rest, 1) == 10 then [[]] + PictureLines(rest[2..], replace)
    else
      var more := PictureLines(rest[Taken(rest, replace)..], replace);
      [Seen(rest, replace) + more[0]] + more[1..]
  }

  /** The picture of the row that `rest` begins with. */
  function Picture(rest: text, replace: bool): text
    decreases |rest|
  {
    if AtLineEnd(rest) then []
    else Seen(rest, replace) + Picture(rest[Taken(rest, replace)..], replace)
  }

  // ---- one step -------------------------------------------------------------------------------

  /** Bytes that begin nothing are shown as they are. */
  lemma {:induction false} PictureBytes(rest: text, replace: bool, n: nat)
    requires n <= |rest| && forall i: nat | i < n :: rest[i] >= 0x80
    ensures Picture(rest, replace) == rest[..n] + Picture(rest[n..], replace)
    decreases n
  {
    hide CsiLength, Picture;
    if n == 0 {
      assert rest[0..] == rest && rest[..0] == [];
    } else {
      PictureBytes(rest[1..], replace, n - 1);
      PictureByte(rest, replace);
      FirstOf(rest, n, Picture(rest[n..], replace));
    }
  }

  lemma FirstOf(rest: text, n: nat, more: text)
    requires 0 < n <= |rest|
    ensures rest[1..][n - 1..] == rest[n..]
    ensures [rest[0]] + (rest[1..][..n - 1] + more) == rest[..n] + more
  {
    assert [rest[0]] + rest[1..][..n - 1] == rest[..n];
  }

  /** A step adds what is to be seen of the bytes it takes, and takes no line end. */
  ghost predicate StepDraws(p: Piece, rest: text, replace: bool) {
    && p.used <= |rest|
    && Picture(rest, replace) == Strip(p.chars) + Picture(rest[p.used..], replace)
    && LineEnd(rest) == LineEnd(rest[p.used..])
  }

  lemma TabDraws(rest: text, replace: bool)
    requires At(rest, 0) == TAB
    ensures StepDraws(Piece(1, Repeat(SPACE, 4), 4, None), rest, replace)
  {
    hide BodyLength, Repeat, Strip, LineEnd;
    SpacesAreShown(4);
    assert Repeat(SPACE, 4) == [32, 32, 32, 32];
    SkipByte(rest, replace);
    assert Picture(rest, replace) == [32, 32, 32, 32] + Picture(rest[1..], replace);
  }

  lemma SequenceDraws(j: Job, rest: text)
    requires CsiLength(rest) > 0 && WellFormed(rest, j.replace)
    ensures StepDraws(SequenceStep(j, rest), rest, j.replace)
  {
    hide WellFormed, BodyLength, Silent, Shown, GoodPiece, Strip, Collapse, HeadLength, LineEnd;
    SequenceIsGood(j, rest);
    SilentParts(SequenceStep(j, rest).chars);
    SkipSequence(rest, j.replace);
    assert !AtLineEnd(rest);
    assert [] + Picture(rest[CsiLength(rest)..], j.replace) == Picture(rest[CsiLength(rest)..], j.replace);
  }

  lemma DollarDraws(j: Job, rest: text)
    requires j.replace && At(rest, 0) == DOLLAR && WellFormed(rest, true) && SgrColors(j.options)
    ensures StepDraws(DollarPiece(j, rest), rest, true)
  {
    hide WellFormed, SgrColors, GoodPiece, DollarPiece, Strip, CsiLength, LineEnd, Picture;
    DollarIsGood(j, rest);
    DollarSkips(rest);
    SkipDollar(rest);
    PictureDollar(rest);
  }

  lemma PictureDollar(rest: text)
    requires At(rest, 0) == DOLLAR && ProperDollar(At(rest, 1))
    ensures var c := At(rest, 1);
            && DollarLength(c) <= |rest|
            && Picture(rest, true)
               == (if DIGIT_1 <= c <= DIGIT_9 then [] else [DOLLAR]) + Picture(rest[DollarLength(c)..], true)
  {
    hide BodyLength;
  }

  lemma CharDraws(j: Job, rest: text)
    requires !AtLineEnd(rest) && rest[0] != ESC && rest[0] != TAB && WellFormed(rest, j.replace)
    requires j.replace ==> rest[0] != DOLLAR
    ensures StepDraws(CharPiece(rest, 0, [], 0, j.wcwidth), rest, j.replace)
  {
    hide CharLenWidth, WellFormed, GoodPiece, LineEnd, Picture, Strip, Surplus, SimpleSequences, Shown;
    CharIsGood(j, rest);
    assert rest[0..] == rest;
    var n := CharLenWidth(rest, j.wcwidth).bytes;
    assert [] + rest[0..0 + n] == rest[..n];
    SkipByte(rest, j.replace);
    forall i: nat | i < n - 1 ensures rest[1..][i] >= 0x80 {
      assert Continuation(rest[i + 1]);
    }
    SkipBytes(rest[1..], j.replace, n - 1);
    PictureBytes(rest[1..], j.replace, n - 1);
    PictureByte(rest, j.replace);
    FirstOf(rest, n, Picture(rest[n..], j.replace));
  }

  lemma PictureByte(rest: text, replace: bool)
    requires !AtLineEnd(rest) && rest[0] != ESC && rest[0] != TAB && (replace ==> rest[0] != DOLLAR)
    ensures Picture(rest, replace) == [rest[0]] + Picture(rest[1..], replace)
  {
    hide BodyLength;
  }

  lemma NextDraws(j: Job, rest: text)
    requires !AtLineEnd(rest) && WellFormed(rest, j.replace) && SgrColors(j.options)
    ensures StepDraws(NextStep(j, rest), rest, j.replace)
  {
    hide StepDraws, SequenceStep, SequencePiece, DollarPiece, CharPiece, WellFormed, BodyLength, SgrColors;
    if rest[0] == TAB {
      TabDraws(rest, j.replace);
    } else if rest[0] == ESC {
      EscapeIsSequence(rest, j.replace);
      SequenceDraws(j, rest);
    } else if j.replace && rest[0] == DOLLAR {
      DollarDraws(j, rest);
    } else {
      CharDraws(j, rest);
    }
  }

  // ---- one row --------------------------------------------------------------------------------

  lemma {:induction false} RowDraws(j: Job, rest: text, pen: Pen)
    requires WellFormed(rest, j.replace) && SgrColors(j.options) && GoodPen(pen)
    ensures var row := ScanRow(j, rest, pen);
            Strip(row.pen.line) == Strip(pen.line) + Picture(rest, j.replace) && row.rest == LineEnd(rest)
    decreases |rest|
  {
    hide WellFormed, SgrColors, GoodPen, NextStep, Extend, Shown, Silent, Strip, ScanRow, LineEnd, Picture;
    if AtLineEnd(rest) {
      RowEnds(j, rest, pen);
      NothingDrawn(rest, j.replace);
    } else {
      var p := NextStep(j, rest);
      StepIsGood(j, rest, pen);
      NextDraws(j, rest);
      ExtendIsGood(pen, p);
      RowDraws(j, rest[p.used..], Extend(pen, p));
      Regroup(Strip(pen.line), Strip(p.chars), Picture(rest[p.used..], j.replace));
    }
  }

  lemma NothingDrawn(rest: text, replace: bool)
    requires AtLineEnd(rest)
    ensures Picture(rest, replace) == [] && LineEnd(rest) == rest
  {
  }

  lemma Regroup(a: text, b: text, c: text)
    ensures (a + b) + c == a + (b + c)
  {
  }

  // ---- the lines of a text ----------------------------------------------------------------------

  /** The first picture line, and the others. */
  lemma {:induction false} FirstPicture(rest: text, replace: bool)
    requires NUL !in rest
    ensures var end := LineEnd(rest);
            PictureLines(rest, replace)
            == [Picture(rest, replace)] + (if AtBreak(end) then PictureLines(AfterBreak(end), replace) else [])
    decreases |rest|
  {
    hide CsiLength, Taken, Seen;
    if rest != [] && !AtBreak(rest) {
      assert rest[0] in rest;
      var n := Taken(rest, replace);
      TakenInLine(rest, replace);
      FirstPicture(rest[n..], replace);
    }
  }

  lemma TakenInLine(rest: text, replace: bool)
    requires rest != [] && !AtLineEnd(rest)
    ensures LineEnd(rest) == LineEnd(rest[Taken(rest, replace)..])
  {
    hide BodyLength;
    if CsiLength(rest) > 0 {
      SkipSequence(rest, replace);
    } else if AtPlaceholder(rest, replace) || AtEscapedDollar(rest, replace) {
      SkipDollar(rest);
    }
  }

  /** A cached line shows the picture of its row after the left padding, and nothing if it has no width. */
  ghost predicate LineDraws(line: CachedLine, picture: text, o: Options) {
    Strip(line.chars)
    == if line.width == 0 then []
       else Repeat(32, if o.position == Right then 0 else o.paddingLeft) + picture
  }

  ghost predicate LinesDraw(lines: seq<CachedLine>, pictures: seq<text>, o: Options) {
    |lines| == |pictures| && forall i: nat | i < |lines| :: LineDraws(lines[i], pictures[i], o)
  }

  lemma {:induction false} RowsDraw(j: Job, rest: text, carry: text)
    requires WellFormed(rest, j.replace) && SgrColors(j.options) && Silent(carry)
    ensures LinesDraw(Rows(j, rest, carry), PictureLines(rest, j.replace), j.options)
    decreases |rest|
  {
    hide WellFormed, SgrColors, Shown, Silent, StartPen, ScanRow, Stored, PictureLines, Picture, LineEnd, LineDraws,
         LinesDraw, AtBreak, AfterBreak;
    var o := j.options;
    var row := ScanRow(j, rest, StartPen(o, carry));
    var line := Stored(o, row.pen.line, row.pen.width);
    FirstRowDraws(j, rest, carry);
    NoTerminator(rest, j.replace);
    FirstPicture(rest, j.replace);
    if AtBreak(row.rest) {
      BreakIsProper(row.rest, j.replace);
      RowsDraw(j, AfterBreak(row.rest), row.pen.carry);
      MoreDrawn(line, Picture(rest, j.replace), Rows(j, AfterBreak(row.rest), row.pen.carry),
                PictureLines(AfterBreak(row.rest), j.replace), o);
    } else {
      NoneDrawn(o);
      MoreDrawn(line, Picture(rest, j.replace), [], [], o);
    }
  }

  lemma FirstRowDraws(j: Job, rest: text, carry: text)
    requires WellFormed(rest, j.replace) && SgrColors(j.options) && Silent(carry)
    ensures var row := ScanRow(j, rest, StartPen(j.options, carry));
            && LineDraws(Stored(j.options, row.pen.line, row.pen.width), Picture(rest, j.replace), j.options)
            && Silent(row.pen.carry) && WellFormed(row.rest, j.replace) && row.rest == LineEnd(rest)
  {
    hide WellFormed, SgrColors, Shown, Silent, StartPen, ScanRow, Stored, Picture, LineEnd, LineDraws;
    var start := StartPen(j.options, carry);
    var row := ScanRow(j, rest, start);
    StartIsGood(j.options, carry);
    RowIsGood(j, rest, start);
    RowDraws(j, rest, start);
    StoredDraws(j.options, row.pen.line, row.pen.width, Picture(rest, j.replace));
  }

  lemma MoreDrawn(line: CachedLine, picture: text, lines: seq<CachedLine>, pictures: seq<text>, o: Options)
    requires LineDraws(line, picture, o) && LinesDraw(lines, pictures, o)
    ensures LinesDraw([line] + lines, [picture] + pictures, o)
  {
    hide LineDraws;
  }

  lemma NoneDrawn(o: Options)
    ensures LinesDraw([], [], o)
  {
  }

  lemma StoredDraws(o: Options, chars: text, width: nat, picture: text)
    requires Shown(chars) && Strip(chars) == Repeat(SPACE, Indent(o)) + picture
    ensures LineDraws(Stored(o, chars, width), picture, o)
  {
    hide Shown, Strip, Repeat;
    StoredIsShown(o, chars, width);
  }

  /**
    The content of the cache.  The lines of a well-formed logo are `paddingTop`
    empty lines, one line for each line of the text, showing exactly that line
    after the left padding, and empty lines up to `logoHeight + 1`.  The height
    is the number of line ends, or the configured one if that is larger.
   */
  lemma LinesArePictures(j: Job, data: text, columns: nat)
    requires WellFormed(data, j.replace) && SgrColors(j.options) && data != []
    ensures var o, b, pictures := j.options, Build(j, data, columns), PictureLines(data, j.replace);
            && b.height == o.paddingTop
                           + (if !o.chafa && o.height > |pictures| - 1 then o.height else |pictures| - 1)
            && |b.lines| == b.height + 1
            && LinesDraw(b.lines[o.paddingTop..o.paddingTop + |pictures|], pictures, o)
            && (forall i: nat | i < |b.lines| && !(o.paddingTop <= i < o.paddingTop + |pictures|) ::
                  b.lines[i] == CachedLine([], 0))
  {
    hide WellFormed, SgrColors, Silent, Rows, FirstCarry, MaxWidth, PictureLines, LineDraws;
    FirstByte(data, j.replace);
    FirstCarryIsSilent(j);
    RowsDraw(j, data, FirstCarry(j));
    var b, rows, top := Build(j, data, columns), TextRows(j, data), j.options.paddingTop;
    assert b.lines[top..top + |rows|] == rows;
  }
}
