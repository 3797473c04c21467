/** The parser of ASCII-art logos: from the text of a logo to lines with recorded widths. */
module LogoLines {
  import opened CArithmetic
  import opened Wrappers
  import opened LogoText

  const MAX_COLORS := 9
  const AUTO_MIN_INFO_WIDTH := 32
  const BOLD: text := [ESC, BRACKET, DIGIT_1, LETTER_M]
  const RESET: text := [ESC, BRACKET, LETTER_M]

  datatype Position = Left | Top | Right | Auto

  type colors = c: seq<text> | |c| == MAX_COLORS witness [[], [], [], [], [], [], [], [], []]

  datatype Options = Options(width: nat, height: nat, paddingTop: nat, paddingLeft: nat, paddingRight: nat,
                             paddingBottom: nat, position: Position, chafa: bool, colors: colors,
                             pipe: bool, brightColor: bool)

  /** A call of the parser: the settings it reads and `doColorReplacement`; `wcwidth` is `mk_wcwidth`. */
  datatype Job = Job(options: Options, replace: bool, wcwidth: int -> int)

  datatype CachedLine = CachedLine(chars: text, width: nat)

  // ---- one step of the inner loop ----------------------------------------------------------

  /** What one step consumes and what it adds to the line; `carry` is the colour for the lines below. */
  datatype Piece = Piece(used: nat, chars: text, width: nat, carry: Option<text>)

  predicate KeepsCarry(o: Options) { !o.chafa }

  /** `"\e[%sm"`. */
  function Sgr(color: text): text { [ESC, BRACKET] + color + [LETTER_M] }

  predicate IsParameter(b: byte) { DIGIT_0 <= b <= DIGIT_9 || b == SEMICOLON }

  /** The first index from `i` on that holds no digit and no semicolon. */
  function ParametersEnd(rest: text, i: nat): (n: nat)
    requires i <= |rest|
    ensures i <= n <= |rest|
    ensures forall k: nat | i <= k < n :: IsParameter(rest[k])
    ensures n < |rest| ==> !IsParameter(rest[n])
    decreases |rest| - i
  {
    if i < |rest| && IsParameter(rest[i]) then ParametersEnd(rest, i + 1) else i
  }

  predicate AtBreak(rest: text) { At(rest, 0) == LF || (At(rest, 0) == CR && At(rest, 1) == LF) }

  predicate AtLineEnd(rest: text) { At(rest, 0) == NUL || AtBreak(rest) }

  predicate AtSequence(rest: text) { At(rest, 0) == ESC && At(rest, 1) == BRACKET }

  /** The character `skip` bytes ahead, whose width is added to `width`. */
  function CharPiece(rest: text, skip: nat, before: text, width: nat, wcwidth: int -> int): (p: Piece)
    requires skip <= |rest|
    ensures p.used <= |rest|
    ensures At(rest, skip) != NUL ==> p.used > skip
    ensures p.carry.None?
  {
    var g := CharLenWidth(rest[skip..], wcwidth);
    Piece(skip + g.bytes, before + rest[skip..skip + g.bytes], width + g.width, None)
  }

  /**
    A control sequence: copied, without width, when an ASCII byte follows the
    parameters.  Otherwise its bytes are dropped but all of them except one
    are counted, and the character that follows is added.
   */
  function SequencePiece(j: Job, rest: text): (p: Piece)
    requires AtSequence(rest)
    ensures 1 <= p.used <= |rest|
  {
    var n := ParametersEnd(rest, 2);
    if At(rest, n) < 0x80 then
      var s := if n < |rest| then rest[..n + 1] else rest;
      Piece(|s|, s, 0, if KeepsCarry(j.options) && s[|s| - 1] == LETTER_M then Some(s) else None)
    else
      CharPiece(rest, n, [], n - 1, j.wcwidth)
  }

  /** A `$`: an escaped or trailing dollar, a colour, or a dollar with the character after it. */
  function DollarPiece(j: Job, rest: text): (p: Piece)
    requires At(rest, 0) == DOLLAR
    ensures 1 <= p.used <= |rest|
  {
    var c := At(rest, 1);
    if c == DOLLAR then Piece(2, [DOLLAR], 1, None)
    else if c == NUL || c == LF || c == CR then Piece(1, [DOLLAR], 1, None)
    else if j.options.pipe then Piece(2, [], 0, None)
    else if DIGIT_1 <= c <= DIGIT_9 then
      var s := Sgr(j.options.colors[c - DIGIT_1]);
      Piece(2, s, 0, if KeepsCarry(j.options) then Some(s) else None)
    else CharPiece(rest, 1, [DOLLAR], 1, j.wcwidth)
  }

  function NextPiece(j: Job, rest: text): (p: Piece)
    requires At(rest, 0) != NUL
    ensures 1 <= p.used <= |rest|
  {
    if rest[0] == TAB then Piece(1, Repeat(SPACE, 4), 4, None)
    else if AtSequence(rest) then SequencePiece(j, rest)
    else if j.replace && rest[0] == DOLLAR then DollarPiece(j, rest)
    else CharPiece(rest, 0, [], 0, j.wcwidth)
  }

  // ---- one line ------------------------------------------------------------------------------

  /** The line so far, its width, and the colour that the next line starts with. */
  datatype Pen = Pen(line: text, width: nat, carry: text)

  datatype Row = Row(pen: Pen, rest: text)

  function Indent(o: Options): nat { if o.position == Right then 0 else o.paddingLeft }

  /** The pen at the start of a line: bold, the carried colour, the left padding. */
  function StartPen(o: Options, carry: text): Pen {
    Pen((if !o.pipe && o.brightColor then BOLD else []) + (if KeepsCarry(o) then carry else [])
        + Repeat(SPACE, Indent(o)),
        Indent(o), carry)
  }

  function Extend(pen: Pen, p: Piece): Pen {
    Pen(pen.line + p.chars, pen.width + p.width, if p.carry.Some? then p.carry.value else pen.carry)
  }

  /** The inner loop: everything up to the end of the line. */
  function ScanRow(j: Job, rest: text, pen: Pen): (r: Row)
    ensures |r.rest| <= |rest| && AtLineEnd(r.rest)
    decreases |rest|
  {
    if AtLineEnd(rest) then Row(pen, rest)
    else
      var p := NextPiece(j, rest);
      ScanRow(j, rest[p.used..], Extend(pen, p))
  }

  lemma RowEnds(j: Job, rest: text, pen: Pen)
    requires AtLineEnd(rest)
    ensures ScanRow(j, rest, pen) == Row(pen, rest)
  {
  }

  lemma OneStep(j: Job, rest: text, pen: Pen)
    requires !AtLineEnd(rest)
    ensures var p := NextPiece(j, rest); ScanRow(j, rest, pen) == ScanRow(j, rest[p.used..], Extend(pen, p))
  {
    hide NextPiece, Extend;
  }

  // ---- the whole text ------------------------------------------------------------------------

  /** The line that is stored: nothing for a line without width, and a reset at the end in colour mode. */
  function Stored(o: Options, chars: text, width: nat): CachedLine {
    CachedLine(if width == 0 then [] else if o.pipe then chars else chars + RESET, width)
  }

  function AfterBreak(rest: text): (r: text)
    requires AtBreak(rest)
    ensures |r| < |rest|
  {
    if rest[0] == CR then rest[2..] else rest[1..]
  }

  /** The outer loop: one line up to every break, and one after the last. */
  function Rows(j: Job, rest: text, carry: text): (r: seq<CachedLine>)
    ensures r != []
    decreases |rest|
  {
    var row := ScanRow(j, rest, StartPen(j.options, carry));
    [Stored(j.options, row.pen.line, row.pen.width)]
    + (if AtBreak(row.rest) then Rows(j, AfterBreak(row.rest), row.pen.carry) else [])
  }

  function FirstCarry(j: Job): text {
    if KeepsCarry(j.options) && j.replace && !j.options.pipe then Sgr(j.options.colors[0]) else []
  }

  function TextRows(j: Job, data: text): seq<CachedLine> {
    if At(data, 0) == NUL then [] else Rows(j, data, FirstCarry(j))
  }

  /** The largest of `least` and the widths. */
  function MaxWidth(lines: seq<CachedLine>, least: nat): nat {
    if lines == [] then least
    else
      var w := lines[|lines| - 1].width;
      var m := MaxWidth(lines[..|lines| - 1], least);
      if w > m then w else m
  }

  function Blanks(n: nat): (r: seq<CachedLine>)
    ensures |r| == n && forall i: nat | i < n :: r[i] == CachedLine([], 0)
  {
    if n == 0 then [] else Blanks(n - 1) + [CachedLine([], 0)]
  }

  /** `ffLogoSelectPosition`. */
  function SelectPosition(configured: Position, columns: nat, width: nat): Position {
    if configured != Auto then configured
    else if columns == 0 then Left
    else if width <= columns && columns - width >= AUTO_MIN_INFO_WIDTH then Left
    else Top
  }

  /** The cache and the two state fields that a build leaves behind. */
  datatype Layout = Layout(lines: seq<CachedLine>, position: Position, height: nat, width: nat, rightOffset: nat)

  /** The rows below the padding: one per break, or the configured height if that is more. */
  function ParsedHeight(o: Options, rows: seq<CachedLine>): nat {
    var breaks := if rows == [] then 0 else |rows| - 1;
    if !o.chafa && o.height > breaks then o.height else breaks
  }

  /** `uint32_t` subtraction of 1. */
  function Before32(x: nat): nat { if x == 0 then 0xFFFF_FFFF else x - 1 }

  /** What `logoLineCacheBuild` leaves behind on a terminal of `columns` columns. */
  function Build(j: Job, data: text, columns: nat): Layout {
    var o := j.options;
    var rows := TextRows(j, data);
    var width := MaxWidth(rows, o.width) + o.paddingRight;
    var position := SelectPosition(o.position, columns, width);
    var height := o.paddingTop + ParsedHeight(o, rows);
    Layout(Blanks(o.paddingTop) + rows + Blanks(height + 1 - o.paddingTop - |rows|),
           position, height, if position == Left then width else 0, Before32(width))
  }

  // ---- the shape -----------------------------------------------------------------------------

  /** No row is wider than the maximum. */
  lemma {:induction false} NoneWider(lines: seq<CachedLine>, least: nat)
    ensures MaxWidth(lines, least) >= least
    ensures forall i: nat | i < |lines| :: lines[i].width <= MaxWidth(lines, least)
    decreases |lines|
  {
    if lines != [] {
      NoneWider(lines[..|lines| - 1], least);
    }
  }

  /**
    The shape of the cache: exactly `logoHeight + 1` lines, for any text, padding
    and configured height.  None is wider than the logo when that is on the left,
    and none reaches into the right padding when it is on the right.
   */
  lemma Shape(j: Job, data: text, columns: nat)
    ensures var b := Build(j, data, columns);
            && |b.lines| == b.height + 1
            && b.height >= j.options.paddingTop
            && (b.position == Left ==> forall i: nat | i < |b.lines| :: b.lines[i].width <= b.width)
            && (b.position != Left ==> b.width == 0)
            && (forall i: nat | i < |b.lines| :: b.lines[i].width + j.options.paddingRight <= b.rightOffset + 1)
  {
    NoneWider(TextRows(j, data), j.options.width);
  }

  lemma {:induction false} WidestOf(lines: seq<CachedLine>, least: nat)
    ensures MaxWidth(lines, least) == least
            || exists i: nat :: i < |lines| && lines[i].width == MaxWidth(lines, least)
    decreases |lines|
  {
    if lines != [] {
      WidestOf(lines[..|lines| - 1], least);
    }
  }
}
