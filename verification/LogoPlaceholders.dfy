/** The exact condition under which colours leave the layout alone: every `$` is proper. */
module LogoPlaceholders {
  import opened CArithmetic
  import opened Wrappers
  import opened LogoText
  import opened LogoLines
  import opened LogoSteps
  import opened LogoSequences
  import opened LogoLayout

  // ---- first bytes of characters ----------------------------------------------------------------

  /** How many bytes of `s` begin a character of several bytes; control sequences hold none. */
  function Leads(s: text): nat
    decreases |s|
  {
    if s == [] then 0 else (if s[0] >= 0xC0 then 1 else 0) + Leads(s[1..])
  }

  lemma {:induction false} LeadsAppend(a: text, b: text)
    ensures Leads(a + b) == Leads(a) + Leads(b)
    decreases |a|
  {
    if a == [] {
      assert a + b == b;
    } else {
      assert (a + b)[0] == a[0];
      LeadsAppend(a[1..], b);
      assert (a + b)[1..] == a[1..] + b;
    }
  }

  lemma {:induction false} NoLeads(s: text)
    requires forall i: nat | i < |s| :: s[i] < 0xC0
    ensures Leads(s) == 0
    decreases |s|
  {
    if s != [] {
      NoLeads(s[1..]);
    }
  }

  lemma {:induction false} StripKeepsLeads(s: text)
    ensures Leads(Strip(s)) == Leads(s)
    decreases |s|
  {
    hide CsiLength;
    if s != [] {
      var n := CsiLength(s);
      if n > 0 {
        StripKeepsLeads(s[n..]);
        SequenceHasNone(s);
        LeadsAppend(s[..n], s[n..]);
        assert s[..n] + s[n..] == s;
      } else {
        StripKeepsLeads(s[1..]);
        LeadsAppend([s[0]], Strip(s[1..]));
        LeadsAppend([s[0]], s[1..]);
        assert [s[0]] + s[1..] == s;
      }
    }
  }

  lemma SequenceHasNone(s: text)
    requires CsiLength(s) > 0
    ensures Leads(s[..CsiLength(s)]) == 0
  {
    hide BodyLength;
    BodyBytes(s[2..], false);
    forall i: nat | i < CsiLength(s) ensures s[i] < 0xC0 {
      assert i >= 2 ==> s[i] == s[2..][i - 2];
    }
    NoLeads(s[..CsiLength(s)]);
  }

  // ---- the two parsers side by side -------------------------------------------------------------

  /** The parser `j` is in pipe mode, `k` in colour mode, and both replace placeholders. */
  ghost predicate Modes(j: Job, k: Job) {
    SameButPipe(j, k) && j.options.pipe && !k.options.pipe && j.replace && SgrColors(j.options)
  }

  /**
    Before an improper dollar both lines have the same width and as many first
    bytes; from then on colour mode is ahead in the one or, with the same number
    of first bytes, in the other.
   */
  predicate Ahead(a: Pen, b: Pen, improper: bool) {
    && Leads(a.carry) == 0 && Leads(b.carry) == 0
    && (if improper then
          b.width > 0 && (Leads(b.line) > Leads(a.line) || (Leads(b.line) == Leads(a.line) && b.width > a.width))
        else Leads(b.line) == Leads(a.line) && b.width == a.width)
  }

  /** A step that both modes take alike. */
  predicate StepsTogether(p: Piece, q: Piece) {
    && p.used == q.used && p.width == q.width && Leads(p.chars) == Leads(q.chars)
    && (p.carry.Some? ==> Leads(p.carry.value) == 0) && (q.carry.Some? ==> Leads(q.carry.value) == 0)
  }

  lemma TogetherKeepsAhead(a: Pen, b: Pen, p: Piece, q: Piece, improper: bool)
    requires Ahead(a, b, improper) && StepsTogether(p, q)
    ensures Ahead(Extend(a, p), Extend(b, q), improper)
  {
    hide Leads;
    LeadsAppend(a.line, p.chars);
    LeadsAppend(b.line, q.chars);
  }

  lemma SequenceTogether(j: Job, k: Job, rest: text)
    requires SameButPipe(j, k) && AtSequence(rest)
    ensures StepsTogether(SequencePiece(j, rest), SequencePiece(k, rest))
  {
    hide Leads;
    SequenceIgnoresPipe(j, k, rest);
    var p := SequencePiece(j, rest);
    if p.carry.Some? {
      var s := p.carry.value;
      forall i: nat | i < |s| ensures s[i] < 0xC0 {
        if 2 <= i < |s| - 1 {
          assert IsParameter(rest[i]);
        }
      }
      NoLeads(s);
    }
  }

  lemma ProperTogether(j: Job, k: Job, rest: text)
    requires Modes(j, k) && At(rest, 0) == DOLLAR && ProperDollar(At(rest, 1))
    ensures StepsTogether(DollarPiece(j, rest), DollarPiece(k, rest))
    ensures DollarPiece(j, rest).used == DollarLength(At(rest, 1))
  {
    hide Sgr;
    var c := At(rest, 1);
    if DIGIT_1 <= c <= DIGIT_9 {
      SgrHasNone(k, c - DIGIT_1);
    }
  }

  lemma SgrHasNone(j: Job, i: nat)
    requires SgrColors(j.options) && i < MAX_COLORS
    ensures Leads(Sgr(j.options.colors[i])) == 0
  {
    hide Leads;
    var c := j.options.colors[i];
    var s := Sgr(c);
    forall x: nat | x < |s| ensures s[x] < 0xC0 {
      if 2 <= x < |s| - 1 {
        assert c in j.options.colors && c[x - 2] in c;
      }
    }
    NoLeads(s);
  }

  /** Bytes that cannot begin anything are skipped by the reading of dollars. */
  lemma {:induction false} SkipHigh(rest: text, n: nat)
    requires n <= |rest| && forall i: nat | i < n :: rest[i] >= 0x80
    ensures ProperDollars(rest) == ProperDollars(rest[n..])
    decreases n
  {
    if n == 0 {
      assert rest[0..] == rest;
    } else {
      SkipHigh(rest[1..], n - 1);
      assert rest[1..][n - 1..] == rest[n..];
    }
  }

  /** The character `skip` bytes ahead, for the reading of dollars. */
  lemma SkipCharacter(rest: text, skip: nat, before: text, width: nat, wcwidth: int -> int)
    requires skip < |rest| && NUL !in rest
    ensures var p := CharPiece(rest, skip, before, width, wcwidth);
            && skip < p.used && ProperDollars(rest[skip + 1..]) == ProperDollars(rest[p.used..])
  {
    hide CharLenWidth, ProperDollars;
    var here, more := rest[skip..], rest[skip + 1..];
    var g := CharLenWidth(here, wcwidth);
    assert here[0] in rest;
    forall i: nat | i < g.bytes - 1 ensures more[i] >= 0x80 {
      assert more[i] == here[i + 1] && Continuation(here[i + 1]);
    }
    SkipHigh(more, g.bytes - 1);
    DropTwice(rest, skip + 1, g.bytes - 1);
  }

  lemma DropTwice(s: text, m: nat, n: nat)
    requires m + n <= |s|
    ensures s[m..][n..] == s[m + n..]
  {
  }

  /** A step of the two parsers that reads no improper dollar. */
  lemma StepTogether(j: Job, k: Job, rest: text)
    requires Modes(j, k) && rest != [] && NUL !in rest
    requires !AtSequence(rest) && rest[0] == DOLLAR ==> ProperDollar(At(rest, 1))
    ensures StepsTogether(NextPiece(j, rest), NextPiece(k, rest))
    ensures ProperDollars(rest) == ProperDollars(rest[NextPiece(j, rest).used..])
  {
    hide StepsTogether, ProperDollars, CharPiece, SequencePiece, DollarPiece, ProperDollar, DollarLength, SgrColors;
    assert rest[0] in rest;
    if AtSequence(rest) {
      SequenceTogether(j, k, rest);
      SequenceDollars(j, rest);
    } else if rest[0] == DOLLAR {
      ProperTogether(j, k, rest);
      DollarRead(rest);
    } else {
      PlainTogether(j, k, rest);
    }
  }

  lemma DollarRead(rest: text)
    requires At(rest, 0) == DOLLAR && ProperDollar(At(rest, 1))
    ensures DollarLength(At(rest, 1)) <= |rest|
    ensures ProperDollars(rest) == ProperDollars(rest[DollarLength(At(rest, 1))..])
  {
  }

  lemma PlainTogether(j: Job, k: Job, rest: text)
    requires SameButPipe(j, k) && rest != [] && NUL !in rest && !AtSequence(rest) && rest[0] != DOLLAR
    ensures NextPiece(j, rest) == NextPiece(k, rest) && StepsTogether(NextPiece(j, rest), NextPiece(k, rest))
    ensures ProperDollars(rest) == ProperDollars(rest[NextPiece(j, rest).used..])
  {
    hide Leads, CharPiece;
    assert rest[0] in rest;
    if rest[0] != TAB {
      SkipCharacter(rest, 0, [], 0, j.wcwidth);
    }
  }

  lemma SequenceDollars(j: Job, rest: text)
    requires AtSequence(rest) && NUL !in rest
    ensures ProperDollars(rest) == ProperDollars(rest[SequencePiece(j, rest).used..])
  {
    hide CharPiece;
    var m := ParametersEnd(rest, 2);
    if m < |rest| && rest[m] >= 0x80 {
      SkipCharacter(rest, m, [], m - 1, j.wcwidth);
    }
  }

  lemma UsedTogether(p: Piece, q: Piece)
    requires StepsTogether(p, q)
    ensures p.used == q.used
  {
  }

  // ---- an improper dollar -----------------------------------------------------------------------

  /** Bytes in the middle of a character are read one by one. */
  lemma {:induction false} StrayBytes(j: Job, rest: text, n: nat, pen: Pen)
    requires n <= |rest| && forall i: nat | i < n :: Continuation(rest[i])
    ensures ScanRow(j, rest, pen) == ScanRow(j, rest[n..], Pen(pen.line + rest[..n], pen.width + n, pen.carry))
    decreases n
  {
    hide ScanRow, NextPiece;
    if n == 0 {
      assert rest[0..] == rest && pen.line + rest[..0] == pen.line;
    } else {
      StrayByte(j, rest);
      OneStep(j, rest, pen);
      var next := Pen(pen.line + [rest[0]], pen.width + 1, pen.carry);
      StrayBytes(j, rest[1..], n - 1, next);
      assert rest[1..][n - 1..] == rest[n..];
      assert next.line + rest[1..][..n - 1] == pen.line + rest[..n];
    }
  }

  lemma StrayByte(j: Job, rest: text)
    requires rest != [] && Continuation(rest[0])
    ensures !AtLineEnd(rest) && NextPiece(j, rest) == Piece(1, [rest[0]], 1, None)
  {
    assert rest[0..] == rest;
    assert CharLenWidth(rest, j.wcwidth) == Glyph(1, 1);
  }

  /** Where both parsers are again at the same place after an improper dollar. */
  lemma Improper(j: Job, k: Job, rest: text, a: Pen, b: Pen, improper: bool)
    returns (n: nat, c: Pen, d: Pen)
    requires Modes(j, k) && NUL !in rest && At(rest, 0) == DOLLAR && !ProperDollar(At(rest, 1))
    requires Ahead(a, b, improper)
    ensures 2 <= n <= |rest| && Ahead(c, d, true)
    ensures ScanRow(j, rest, a) == ScanRow(j, rest[n..], c) && ScanRow(k, rest, b) == ScanRow(k, rest[n..], d)
  {
    hide Leads, ScanRow, CharLenWidth;
    var g := CharLenWidth(rest[1..], k.wcwidth);
    assert rest[1..][0] == rest[1] && rest[1] in rest;
    n := 1 + g.bytes;
    var q := CharPiece(rest, 1, [DOLLAR], 1, k.wcwidth);
    d := Extend(b, q);
    PipeSkips(j, rest, a);
    ColourPrints(k, rest, b);
    var stray := rest[2..][..n - 2];
    c := Pen(a.line + stray, a.width + (n - 2), a.carry);
    forall i: nat | i < n - 2 ensures Continuation(stray[i]) {
      assert stray[i] == rest[1..][i + 1] && Continuation(rest[1..][i + 1]);
    }
    assert forall i: nat | i < n - 2 :: rest[2..][i] == stray[i];
    StrayBytes(j, rest[2..], n - 2, Pen(a.line, a.width, a.carry));
    assert rest[2..][n - 2..] == rest[n..];
    ImproperAhead(rest, a, b, n, g.width, stray, improper);
  }

  lemma PipeSkips(j: Job, rest: text, a: Pen)
    requires j.options.pipe && j.replace && |rest| >= 2 && rest[0] == DOLLAR && !ProperDollar(rest[1])
    ensures ScanRow(j, rest, a) == ScanRow(j, rest[2..], a)
  {
    assert NextPiece(j, rest) == Piece(2, [], 0, None);
    assert a.line + [] == a.line;
  }

  lemma ColourPrints(k: Job, rest: text, b: Pen)
    requires !k.options.pipe && k.replace && |rest| >= 2 && rest[0] == DOLLAR && !ProperDollar(rest[1])
    ensures var q := CharPiece(rest, 1, [DOLLAR], 1, k.wcwidth);
            ScanRow(k, rest, b) == ScanRow(k, rest[q.used..], Extend(b, q))
  {
    hide CharPiece;
    assert NextPiece(k, rest) == CharPiece(rest, 1, [DOLLAR], 1, k.wcwidth);
  }

  lemma ImproperAhead(rest: text, a: Pen, b: Pen, n: nat, width: nat, stray: text, improper: bool)
    requires 2 <= n <= |rest| && stray == rest[2..][..n - 2] && Ahead(a, b, improper)
    requires forall i: nat | i < |stray| :: Continuation(stray[i])
    requires if n == 2 then width == 1 else rest[1] >= 0xC0
    ensures Ahead(Pen(a.line + stray, a.width + (n - 2), a.carry),
                  Pen(b.line + ([DOLLAR] + rest[1..1 + (n - 1)]), b.width + (1 + width), b.carry), true)
  {
    hide Leads;
    var printed := [DOLLAR] + rest[1..1 + (n - 1)];
    assert printed == [DOLLAR, rest[1]] + stray;
    NoLeads(stray);
    LeadsAppend(a.line, stray);
    LeadsAppend(b.line, printed);
    LeadsAppend([DOLLAR, rest[1]], stray);
    TwoBytes(rest[1]);
  }

  lemma TwoBytes(c: byte)
    ensures Leads([DOLLAR, c]) == if c >= 0xC0 then 1 else 0
  {
    assert [DOLLAR, c][1..] == [c];
    assert [c][1..] == [];
    assert Leads([c]) == if c >= 0xC0 then 1 else 0;
  }

  // ---- lines ------------------------------------------------------------------------------------

  /** Both parsers end a row at the same place; after an improper dollar in it, colour mode is ahead. */
  lemma {:induction false} RowAhead(j: Job, k: Job, rest: text, a: Pen, b: Pen, before: bool) returns (improper: bool)
    requires Modes(j, k) && NUL !in rest && Ahead(a, b, before)
    ensures ScanRow(j, rest, a).rest == ScanRow(k, rest, b).rest
    ensures Ahead(ScanRow(j, rest, a).pen, ScanRow(k, rest, b).pen, improper) && (before ==> improper)
    ensures ProperDollars(rest) || improper || !ProperDollars(ScanRow(j, rest, a).rest)
    ensures NUL !in ScanRow(j, rest, a).rest
    decreases |rest|
  {
    hide Modes, Ahead, ScanRow, NextPiece, Extend, ProperDollars, StepsTogether;
    if AtLineEnd(rest) {
      RowEnds(j, rest, a);
      RowEnds(k, rest, b);
      improper := before;
    } else if At(rest, 0) == DOLLAR && !ProperDollar(At(rest, 1)) {
      var n, c, d := Improper(j, k, rest, a, b, before);
      improper := RowAhead(j, k, rest[n..], c, d, true);
    } else {
      StepTogether(j, k, rest);
      var p, q := NextPiece(j, rest), NextPiece(k, rest);
      UsedTogether(p, q);
      OneStep(j, rest, a);
      OneStep(k, rest, b);
      TogetherKeepsAhead(a, b, p, q, before);
      improper := RowAhead(j, k, rest[p.used..], Extend(a, p), Extend(b, q), before);
    }
  }

  /** A row with an improper dollar is stored differently in the two modes. */
  lemma StoredDiffers(o: Options, p: Options, a: Pen, b: Pen)
    requires Ahead(a, b, true)
    ensures var x, y := Stored(o, a.line, a.width), Stored(p, b.line, b.width);
            x.width != y.width || Strip(x.chars) != Strip(y.chars)
  {
    hide Leads, Strip;
    NoLeads(RESET);
    LeadsAppend(a.line, RESET);
    LeadsAppend(b.line, RESET);
    StripKeepsLeads(Stored(o, a.line, a.width).chars);
    StripKeepsLeads(Stored(p, b.line, b.width).chars);
  }

  lemma StartsTogether(o: Options, p: Options, carry: text, other: text)
    requires p == o.(pipe := p.pipe) && Leads(carry) == 0 && Leads(other) == 0
    ensures Ahead(StartPen(o, carry), StartPen(p, other), false)
  {
    StartHasNone(o, carry);
    StartHasNone(p, other);
  }

  lemma StartHasNone(o: Options, carry: text)
    requires Leads(carry) == 0
    ensures Leads(StartPen(o, carry).line) == 0
  {
    hide Leads, Repeat;
    NoLeads([]);
    NoLeads(BOLD);
    var bold := if !o.pipe && o.brightColor then BOLD else [];
    var color := if KeepsCarry(o) then carry else [];
    var spaces := Repeat(SPACE, Indent(o));
    NoLeads(spaces);
    LeadsAppend(bold, color);
    LeadsAppend(bold + color, spaces);
  }

  /** Some row is stored differently if some dollar is improper. */
  lemma {:induction false} RowsDiffer(j: Job, k: Job, rest: text, carry: text, other: text) returns (i: nat)
    requires Modes(j, k) && NUL !in rest && !ProperDollars(rest) && Leads(carry) == 0 && Leads(other) == 0
    ensures var x, y := Rows(j, rest, carry), Rows(k, rest, other);
            i < |x| && i < |y| && (x[i].width != y[i].width || Strip(x[i].chars) != Strip(y[i].chars))
    decreases |rest|
  {
    hide StartPen, ScanRow, Stored, Strip, Leads, ProperDollars, AtBreak, AfterBreak;
    var a, b := StartPen(j.options, carry), StartPen(k.options, other);
    StartsTogether(j.options, k.options, carry, other);
    var improper := RowAhead(j, k, rest, a, b, false);
    var r, s := ScanRow(j, rest, a), ScanRow(k, rest, b);
    i := 0;
    if improper {
      StoredDiffers(j.options, k.options, r.pen, s.pen);
    } else {
      BreakIsRead(r.rest);
      i := RowsDiffer(j, k, AfterBreak(r.rest), r.pen.carry, s.pen.carry);
      i := i + 1;
    }
  }

  lemma BreakIsRead(rest: text)
    requires AtLineEnd(rest) && NUL !in rest && !ProperDollars(rest)
    ensures AtBreak(rest) && NUL !in AfterBreak(rest) && !ProperDollars(AfterBreak(rest))
  {
    if rest != [] {
      assert rest[0] in rest;
      if rest[0] == CR {
        assert rest[1..][1..] == rest[2..];
      }
    }
  }

  // ---- the whole text -----------------------------------------------------------------------------

  lemma LinesDiffer(j: Job, k: Job, data: text, columns: nat)
    requires Modes(j, k) && NUL !in data && !ProperDollars(data)
    ensures !LinesAlike(Build(j, data, columns).lines, Build(k, data, columns).lines)
  {
    hide Rows, FirstCarry, Strip, Leads, MaxWidth;
    assert data != [];
    assert data[0] in data;
    CarryHasNone(j);
    CarryHasNone(k);
    var i := RowsDiffer(j, k, data, FirstCarry(j), FirstCarry(k));
    var top := j.options.paddingTop;
    assert Build(j, data, columns).lines[top + i] == TextRows(j, data)[i];
    assert Build(k, data, columns).lines[top + i] == TextRows(k, data)[i];
  }

  lemma CarryHasNone(j: Job)
    requires SgrColors(j.options)
    ensures Leads(FirstCarry(j)) == 0
  {
    hide Sgr;
    SgrHasNone(j, 0);
  }

  /**
    The exact condition for a logo whose ESC bytes all begin control sequences:
    pipe mode and colour mode give alike lines if and only if colours are not
    replaced or every `$` is proper.  One direction holds for all texts.
   */
  lemma LinesAlikeIff(j: Job, k: Job, data: text, columns: nat)
    requires SameButPipe(j, k) && j.options.pipe && !k.options.pipe && SgrColors(j.options)
    requires Closed(data) && NUL !in data
    ensures LinesAlike(Build(j, data, columns).lines, Build(k, data, columns).lines)
            <==> (j.replace ==> ProperDollars(data))
  {
    hide Build, LinesAlike, Closed, ProperDollars, SgrColors;
    if j.replace ==> ProperDollars(data) {
      LayoutIgnoresPipe(j, k, data, columns);
    } else {
      LinesDiffer(j, k, data, columns);
    }
  }

  /** A placeholder that does not exist: `$x` is printed in colour mode and dropped in pipe mode. */
  lemma UnknownPlaceholder(j: Job, k: Job, columns: nat)
    requires SameButPipe(j, k) && j.options.pipe && !k.options.pipe && j.replace && SgrColors(j.options)
    ensures !LinesAlike(Build(j, [DOLLAR, 120], columns).lines, Build(k, [DOLLAR, 120], columns).lines)
  {
    hide Build, LinesAlike;
    LinesDiffer(j, k, [DOLLAR, 120], columns);
  }
}
