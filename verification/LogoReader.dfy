/** The loops of the parser over one line of logo text. */
module LogoReader {
  import opened Wrappers
  import opened LogoText
  import opened LogoLines

  /** The loop over the parameters of a control sequence. */
  method SkipParameters(data: text) returns (n: nat)
    requires |data| >= 2
    ensures n == ParametersEnd(data, 2)
  {
    n := 2;
    while n < |data| && IsParameter(data[n])
      invariant 2 <= n <= |data|
      invariant ParametersEnd(data, 2) == ParametersEnd(data, n)
    {
      n := n + 1;
    }
  }

  /** The loop that copies the bytes of a character. */
  method CopyCharacter(data: text, bytes: nat) returns (chars: text)
    requires bytes <= |data| && forall i: nat | i < bytes :: data[i] != NUL
    ensures chars == data[..bytes]
  {
    chars := [];
    var i := 0;
    while i < bytes
      invariant 0 <= i <= bytes
      invariant chars == data[..i]
    {
      if data[i] == NUL {
        break;
      }
      chars := chars + [data[i]];
      i := i + 1;
    }
  }

  /** The end of a step: a character `skip` bytes ahead, after `before`. */
  method ReadCharacter(data: text, skip: nat, before: text, width: nat, wcwidth: int -> int) returns (p: Piece)
    requires At(data, skip) != NUL
    ensures p == CharPiece(data, skip, before, width, wcwidth)
  {
    var g := CharLenWidth(data[skip..], wcwidth);
    forall i: nat | i < g.bytes ensures data[skip..][i] != NUL {
      assert i > 0 ==> Continuation(data[skip..][i]);
    }
    var chars := CopyCharacter(data[skip..], g.bytes);
    assert data[skip..][..g.bytes] == data[skip..skip + g.bytes];
    p := Piece(skip + g.bytes, before + chars, width + g.width, None);
  }

  /** One step of the inner loop. */
  method ReadPiece(j: Job, data: text) returns (p: Piece)
    requires At(data, 0) != NUL
    ensures p == NextPiece(j, data)
  {
    hide CharPiece, Sgr, ParametersEnd;
    if data[0] == TAB {
      return Piece(1, Repeat(SPACE, 4), 4, None);
    }
    var skip, before, width := 0, [], 0;
    if AtSequence(data) {
      var n := SkipParameters(data);
      if At(data, n) < 0x80 {
        var sequence := if n < |data| then data[..n + 1] else data;
        return Piece(|sequence|, sequence, 0,
                     if KeepsCarry(j.options) && sequence[|sequence| - 1] == LETTER_M then Some(sequence) else None);
      }
      skip, width := n, n - 1;
    }
    if j.replace && At(data, skip) == DOLLAR {
      var c := At(data, skip + 1);
      if c == DOLLAR || c == NUL || c == LF || c == CR {
        return Piece(if c == DOLLAR then 2 else 1, [DOLLAR], 1, None);
      }
      if j.options.pipe {
        return Piece(2, [], 0, None);
      }
      if DIGIT_1 <= c <= DIGIT_9 {
        var color := Sgr(j.options.colors[c - DIGIT_1]);
        return Piece(2, color, 0, if KeepsCarry(j.options) then Some(color) else None);
      }
      skip, before, width := skip + 1, [DOLLAR], 1;
    }
    p := ReadCharacter(data, skip, before, width, j.wcwidth);
  }

  /** The inner loop: one line, and the text after it. */
  method ReadRow(j: Job, data: text, carry: text) returns (line: text, width: nat, newCarry: text, rest: text)
    ensures Row(Pen(line, width, newCarry), rest) == ScanRow(j, data, StartPen(j.options, carry))
    ensures |rest| <= |data| && AtLineEnd(rest)
  {
    hide NextPiece, ScanRow;
    ghost var start := StartPen(j.options, carry);
    line, width := [], 0;
    if !j.options.pipe && j.options.brightColor {
      line := line + BOLD;
    }
    if KeepsCarry(j.options) && |carry| > 0 {
      line := line + carry;
    }
    if j.options.position != Right && j.options.paddingLeft > 0 {
      line := line + Repeat(SPACE, j.options.paddingLeft);
      width := width + j.options.paddingLeft;
    }
    newCarry, rest := carry, data;
    assert Pen(line, width, newCarry) == start;
    while !AtLineEnd(rest)
      invariant |rest| <= |data|
      invariant ScanRow(j, rest, Pen(line, width, newCarry)) == ScanRow(j, data, start)
      decreases |rest|
    {
      OneStep(j, rest, Pen(line, width, newCarry));
      var p := ReadPiece(j, rest);
      line := line + p.chars;
      width := width + p.width;
      if p.carry.Some? {
        newCarry := p.carry.value;
      }
      rest := rest[p.used..];
    }
    RowEnds(j, rest, Pen(line, width, newCarry));
  }
}
