/**
  Well-formed logos, and the steps in which the parser takes them apart.  A step
  is a whole control sequence or one pass of the parser's inner loop.
 */
module LogoSteps {
  import opened CArithmetic
  import opened Wrappers
  import opened LogoText
  import opened LogoLines

  // ---- well-formed logos ----------------------------------------------------------------------

  /** What may follow a `$`. */
  predicate ProperDollar(c: byte) { c == DOLLAR || c == NUL || c == LF || c == CR || DIGIT_1 <= c <= DIGIT_9 }

  /** The bytes that a `$` before `c` takes. */
  function DollarLength(c: byte): nat { if c == NUL || c == LF || c == CR then 1 else 2 }

  /** What the parser takes for the start of a control sequence, one byte after the digits and semicolons included. */
  function HeadLength(rest: text): (n: nat)
    requires AtSequence(rest)
    ensures 2 <= n <= |rest|
  {
    var m := ParametersEnd(rest, 2);
    if m < |rest| then m + 1 else m
  }

  /** Every `$` that the parser reads as the start of a placeholder is one. */
  predicate ProperDollars(rest: text)
    decreases |rest|
  {
    if rest == [] then true
    else if AtSequence(rest) then ProperDollars(rest[HeadLength(rest)..])
    else if rest[0] == DOLLAR then ProperDollar(At(rest, 1)) && ProperDollars(rest[DollarLength(At(rest, 1))..])
    else ProperDollars(rest[1..])
  }

  /** A C string in which ESC only begins control sequences and, if colours are replaced, every `$` is proper. */
  predicate WellFormed(rest: text, replace: bool) {
    Closed(rest) && NUL !in rest && (replace ==> ProperDollars(rest))
  }

  /** Every colour is a string of parameter bytes. */
  predicate SgrColors(o: Options) {
    forall c <- o.colors, b <- c :: 0x30 <= b <= 0x3F
  }

  /** Complete control sequences and bytes of one line. */
  predicate Shown(s: text) { Closed(s) && LF !in s }

  /** Shown, and nothing is left when the control sequences are taken out. */
  predicate Silent(s: text) { Shown(s) && Strip(s) == [] }

  lemma ShownAppend(a: text, b: text)
    requires Shown(a) && Shown(b)
    ensures Shown(a + b) && Strip(a + b) == Strip(a) + Strip(b)
  {
    hide Closed, Strip;
    StripAppend(a, b);
  }

  lemma PlainIsShown(s: text)
    requires ESC !in s && LF !in s
    ensures Shown(s) && Strip(s) == s
  {
    PlainIsClosed(s);
  }

  lemma SequenceIsSilent(s: text)
    requires s != [] && CsiLength(s) == |s|
    ensures Silent(s)
  {
    hide Closed, Strip, CsiLength;
    OneSequence(s);
    SequenceBytes(s);
  }

  /** A control sequence holds no line feed. */
  lemma SequenceBytes(s: text)
    requires s != [] && CsiLength(s) == |s|
    ensures LF !in s
  {
    hide BodyLength;
    BodyBytes(s[2..], false);
    forall k: nat | k < |s| ensures s[k] != LF {
      assert k >= 2 ==> s[k] == s[2..][k - 2];
    }
  }

  lemma {:induction false} BodyBytes(s: text, intermediate: bool)
    ensures forall k: nat | k < BodyLength(s, intermediate) :: 0x20 <= s[k] <= 0x7E
    decreases |s|
  {
    if s != [] && BodyLength(s, intermediate) > 1 {
      BodyBytes(s[1..], IsIntermediateByte(s[0]));
    }
  }

  lemma SgrLength(color: text)
    requires forall k: nat | k < |color| :: IsParameterByte(color[k])
    ensures Sgr(color) != [] && CsiLength(Sgr(color)) == |Sgr(color)|
  {
    var s := Sgr(color);
    assert forall k: nat | 2 <= k < |s| - 1 :: s[k] == color[k - 2];
    assert s[|s| - 1..] == [LETTER_M];
    SequenceLength(s, |s| - 1);
  }

  lemma SgrIsSilent(o: Options, k: nat)
    requires SgrColors(o) && k < MAX_COLORS
    ensures Silent(Sgr(o.colors[k]))
  {
    hide Silent, Sgr, CsiLength;
    var c := o.colors[k];
    forall i: nat | i < |c| ensures IsParameterByte(c[i]) {
      assert c in o.colors && c[i] in c;
    }
    SgrLength(c);
    SequenceIsSilent(Sgr(c));
  }

  lemma SpacesAreShown(n: nat)
    ensures Shown(Repeat(SPACE, n)) && Strip(Repeat(SPACE, n)) == Repeat(SPACE, n)
  {
    PlainIsShown(Repeat(SPACE, n));
  }

  lemma SequencesOfTheProgram()
    ensures Silent(BOLD) && Silent(RESET)
  {
    hide Silent, CsiLength;
    SgrLength([DIGIT_1]);
    SgrLength([]);
    assert Sgr([DIGIT_1]) == BOLD && Sgr([]) == RESET;
    SequenceIsSilent(BOLD);
    SequenceIsSilent(RESET);
  }

  /** Bytes that begin neither a sequence nor a placeholder can be skipped one by one. */
  lemma {:induction false} SkipPlain(rest: text, replace: bool, n: nat)
    requires WellFormed(rest, replace) && n <= |rest|
    requires forall i: nat | i < n :: rest[i] != ESC && (replace ==> rest[i] != DOLLAR)
    ensures WellFormed(rest[n..], replace)
    decreases n
  {
    hide CsiLength;
    if n == 0 {
      assert rest[0..] == rest;
    } else {
      SkipPlain(rest[1..], replace, n - 1);
      assert rest[1..][n - 1..] == rest[n..];
    }
  }

  // ---- one step -----------------------------------------------------------------------------

  /** A step adds complete sequences and bytes of this line, carries a silent colour, and ends at a proper place. */
  predicate GoodPiece(p: Piece, rest: text, replace: bool) {
    && Shown(p.chars) && (p.carry.Some? ==> Silent(p.carry.value))
    && p.used <= |rest| && WellFormed(rest[p.used..], replace)
  }

  /** Two steps that differ in control sequences alone. */
  predicate Alike(p: Piece, q: Piece) {
    p.used == q.used && p.width == q.width && Strip(p.chars) == Strip(q.chars)
  }

  lemma CharIsGood(j: Job, rest: text)
    requires rest != [] && rest[0] != ESC && rest[0] != LF && WellFormed(rest, j.replace)
    requires j.replace ==> rest[0] != DOLLAR
    ensures GoodPiece(CharPiece(rest, 0, [], 0, j.wcwidth), rest, j.replace)
    ensures var s := CharPiece(rest, 0, [], 0, j.wcwidth).chars; Strip(s) == s
  {
    hide CharLenWidth, WellFormed;
    assert rest[0..] == rest;
    var n := CharLenWidth(rest, j.wcwidth).bytes;
    var s := rest[..n];
    assert [] + rest[0..0 + n] == s;
    forall i: nat | i < n ensures rest[i] != ESC && rest[i] != LF && (j.replace ==> rest[i] != DOLLAR) {
      assert i > 0 ==> Continuation(rest[i]);
    }
    PlainIsShown(s);
    SkipPlain(rest, j.replace, n);
  }

  lemma DollarIsGood(j: Job, rest: text)
    requires j.replace && At(rest, 0) == DOLLAR && WellFormed(rest, true) && SgrColors(j.options)
    ensures GoodPiece(DollarPiece(j, rest), rest, true)
    ensures var c := At(rest, 1);
            var p := DollarPiece(j, rest);
            && p.used == DollarLength(c)
            && (if DIGIT_1 <= c <= DIGIT_9 then Strip(p.chars) == [] && p.width == 0
                else Strip(p.chars) == [DOLLAR] && p.width == 1)
  {
    hide Silent, Shown, Strip, Sgr, WellFormed;
    DollarSkips(rest);
    PlainIsShown([DOLLAR]);
    PlainIsShown([]);
    var c := At(rest, 1);
    if DIGIT_1 <= c <= DIGIT_9 {
      SgrIsSilent(j.options, c - DIGIT_1);
      SilentParts(Sgr(j.options.colors[c - DIGIT_1]));
    }
  }

  lemma DollarSkips(rest: text)
    requires At(rest, 0) == DOLLAR && WellFormed(rest, true)
    ensures ProperDollar(At(rest, 1))
    ensures DollarLength(At(rest, 1)) <= |rest| && WellFormed(rest[DollarLength(At(rest, 1))..], true)
  {
    hide CsiLength;
    assert Closed(rest[1..]);
    if |rest| > 1 {
      assert rest[1..][1..] == rest[2..];
      assert rest[1] in rest;
    }
  }

  lemma SilentParts(s: text)
    requires Silent(s)
    ensures Shown(s) && Strip(s) == []
  {
  }

  lemma TabIsGood(rest: text, replace: bool)
    requires rest != [] && rest[0] == TAB && WellFormed(rest, replace)
    ensures GoodPiece(Piece(1, Repeat(SPACE, 4), 4, None), rest, replace)
  {
    SpacesAreShown(4);
  }

  /** Two parsers that differ only in whether they print colours. */
  ghost predicate SameButPipe(j: Job, k: Job) {
    j.replace == k.replace && j.wcwidth == k.wcwidth && k.options == j.options.(pipe := k.options.pipe)
  }
}
