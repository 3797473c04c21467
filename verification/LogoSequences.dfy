/** How the parser reads control sequences whose bytes it does not all take for one. */
module LogoSequences {
  import opened CArithmetic
  import opened Wrappers
  import opened LogoText
  import opened LogoLines
  import opened LogoSteps

  // ---- a control sequence ---------------------------------------------------------------------

  /**
    What the parser makes of the bytes of a sequence that it no longer takes for
    one: they are copied, each counted as one column, but an escaped dollar
    becomes a single one.
   */
  function Collapse(t: text, replace: bool): text
    decreases |t|
  {
    if t == [] then []
    else if replace && t[0] == DOLLAR && |t| > 1 then [DOLLAR] + Collapse(t[2..], replace)
    else [t[0]] + Collapse(t[1..], replace)
  }

  /** Without placeholders to replace, every byte is copied. */
  lemma {:induction false} CollapsePlain(t: text, replace: bool)
    requires replace ==> DOLLAR !in t
    ensures Collapse(t, replace) == t
    decreases |t|
  {
    if t != [] {
      CollapsePlain(t[1..], replace);
    }
  }

  lemma {:induction false} BodyFromParameters(rest: text, i: nat, n: nat)
    requires i < n <= |rest| && BodyLength(rest[i..], false) == n - i
    ensures var m := ParametersEnd(rest, i); m < n && BodyLength(rest[m..], false) == n - m
    decreases |rest| - i
  {
    if IsParameter(rest[i]) {
      assert rest[i..][1..] == rest[i + 1..];
      BodyFromParameters(rest, i + 1, n);
    }
  }

  /** Where the parser's view of a sequence ends, and how the sequence goes on. */
  lemma HeadOfSequence(rest: text)
    requires CsiLength(rest) > 0
    ensures AtSequence(rest)
    ensures var h, n := HeadLength(rest), CsiLength(rest);
            && h - 1 == ParametersEnd(rest, 2) && 3 <= h <= n && 0x20 <= rest[h - 1] <= 0x7E
            && BodyLength(rest[h - 1..], false) == n - h + 1
            && (h == n <==> IsFinalByte(rest[h - 1]))
            && (h < n ==> BodyLength(rest[h..], IsIntermediateByte(rest[h - 1])) == n - h)
  {
    BodyFromParameters(rest, 2, CsiLength(rest));
    var m := ParametersEnd(rest, 2);
    assert rest[m..][1..] == rest[m + 1..];
  }

  /** The bytes of the sequence at the start of `rest` that the parser reads as characters. */
  function Tail(rest: text): text
    requires CsiLength(rest) > 0
  {
    HeadOfSequence(rest);
    rest[HeadLength(rest)..CsiLength(rest)]
  }

  /** A byte that is printed as it stands. */
  lemma PlainStep(j: Job, rest: text, pen: Pen)
    requires rest != [] && 0x20 <= rest[0] <= 0x7E && (j.replace ==> rest[0] != DOLLAR)
    ensures ScanRow(j, rest, pen) == ScanRow(j, rest[1..], Pen(pen.line + [rest[0]], pen.width + 1, pen.carry))
  {
    assert rest[0..] == rest;
    assert CharLenWidth(rest, j.wcwidth) == Glyph(1, 1);
    assert NextPiece(j, rest) == Piece(1, [rest[0]], 1, None);
  }

  /** An escaped dollar. */
  lemma EscapedStep(j: Job, rest: text, pen: Pen)
    requires |rest| > 1 && rest[0] == rest[1] == DOLLAR && j.replace
    ensures ScanRow(j, rest, pen) == ScanRow(j, rest[2..], Pen(pen.line + [DOLLAR], pen.width + 1, pen.carry))
  {
    assert NextPiece(j, rest) == Piece(2, [DOLLAR], 1, None);
  }

  /** The body of a sequence, read as characters. */
  ghost predicate TailRead(j: Job, rest: text, intermediate: bool, n: nat, pen: Pen)
    requires n <= |rest|
  {
    var c := Collapse(rest[..n], j.replace);
    && ScanRow(j, rest, pen) == ScanRow(j, rest[n..], Pen(pen.line + c, pen.width + |c|, pen.carry))
    && 0 < |c| && BodyLength(c, intermediate) == |c|
    && (j.replace ==> ProperDollars(rest[n..]))
  }

  lemma {:induction false} TailIsRead(j: Job, rest: text, intermediate: bool, pen: Pen)
    requires BodyLength(rest, intermediate) > 0 && (j.replace ==> ProperDollars(rest))
    ensures TailRead(j, rest, intermediate, BodyLength(rest, intermediate), pen)
    decreases |rest|
  {
    hide ScanRow, Collapse, ProperDollars, BodyLength, TailRead;
    var n := BodyLength(rest, intermediate);
    var b := rest[0];
    BodyFirst(rest, intermediate);
    if j.replace && b == DOLLAR {
      EscapedInside(rest, intermediate);
      var next := Pen(pen.line + [DOLLAR], pen.width + 1, pen.carry);
      EscapedStep(j, rest, pen);
      TailIsRead(j, rest[2..], true, next);
      EscapedTail(j, rest, intermediate, n, pen, next);
    } else {
      var next := Pen(pen.line + [b], pen.width + 1, pen.carry);
      PlainStep(j, rest, pen);
      PlainDollars(rest, j.replace);
      if n > 1 {
        TailIsRead(j, rest[1..], IsIntermediateByte(b), next);
        PlainTail(j, rest, intermediate, n, pen, next);
      } else {
        LastOfTail(j, rest, intermediate, pen, next);
      }
    }
  }

  /** Inside a sequence the only proper dollar is an escaped one. */
  lemma EscapedInside(rest: text, intermediate: bool)
    requires BodyLength(rest, intermediate) > 0 && rest[0] == DOLLAR && ProperDollars(rest)
    ensures |rest| > 2 && rest[1] == DOLLAR && ProperDollars(rest[2..])
    ensures BodyLength(rest, intermediate) == 2 + BodyLength(rest[2..], true) && BodyLength(rest[2..], true) > 0
  {
    assert rest[1..][1..] == rest[2..];
    assert BodyLength(rest[1..], true) > 0;
  }

  lemma PlainDollars(rest: text, replace: bool)
    requires rest != [] && 0x20 <= rest[0] <= 0x7E && (replace ==> ProperDollars(rest) && rest[0] != DOLLAR)
    ensures replace ==> ProperDollars(rest[1..])
  {
  }

  lemma EscapedTail(j: Job, rest: text, intermediate: bool, n: nat, pen: Pen, next: Pen)
    requires j.replace && 2 < n <= |rest| && rest[0] == rest[1] == DOLLAR
    requires next == Pen(pen.line + [DOLLAR], pen.width + 1, pen.carry)
    requires ScanRow(j, rest, pen) == ScanRow(j, rest[2..], next)
    requires TailRead(j, rest[2..], true, n - 2, next)
    ensures TailRead(j, rest, intermediate, n, pen)
  {
    hide ScanRow, ProperDollars, Collapse, BodyLength;
    var c := Collapse(rest[2..][..n - 2], true);
    CollapseEscaped(rest, n);
    BodyCons(DOLLAR, c, intermediate);
    assert rest[2..][n - 2..] == rest[n..];
    assert next.line + c == pen.line + ([DOLLAR] + c);
  }

  lemma CollapseEscaped(rest: text, n: nat)
    requires 2 < n <= |rest| && rest[0] == DOLLAR
    ensures Collapse(rest[..n], true) == [DOLLAR] + Collapse(rest[2..][..n - 2], true)
  {
    assert rest[..n][2..] == rest[2..][..n - 2];
  }

  lemma CollapseByte(rest: text, n: nat, replace: bool)
    requires 0 < n <= |rest| && (replace ==> rest[0] != DOLLAR)
    ensures Collapse(rest[..n], replace) == [rest[0]] + Collapse(rest[1..][..n - 1], replace)
  {
    assert rest[..n][1..] == rest[1..][..n - 1];
  }

  /** One byte before a body. */
  lemma BodyCons(b: byte, c: text, intermediate: bool)
    requires IsIntermediateByte(b) || (IsParameterByte(b) && !intermediate)
    requires c != [] && BodyLength(c, IsIntermediateByte(b)) == |c|
    ensures BodyLength([b] + c, intermediate) == 1 + |c|
  {
    assert ([b] + c)[1..] == c;
  }

  lemma PlainTail(j: Job, rest: text, intermediate: bool, n: nat, pen: Pen, next: Pen)
    requires 1 < n <= |rest| && (j.replace ==> rest[0] != DOLLAR)
    requires IsIntermediateByte(rest[0]) || (IsParameterByte(rest[0]) && !intermediate)
    requires next == Pen(pen.line + [rest[0]], pen.width + 1, pen.carry)
    requires ScanRow(j, rest, pen) == ScanRow(j, rest[1..], next)
    requires TailRead(j, rest[1..], IsIntermediateByte(rest[0]), n - 1, next)
    ensures TailRead(j, rest, intermediate, n, pen)
  {
    hide ScanRow, ProperDollars, Collapse, BodyLength, IsParameterByte, IsIntermediateByte;
    var c := Collapse(rest[1..][..n - 1], j.replace);
    CollapseByte(rest, n, j.replace);
    BodyCons(rest[0], c, intermediate);
    assert rest[1..][n - 1..] == rest[n..];
    assert next.line + c == pen.line + ([rest[0]] + c);
  }

  lemma LastOfTail(j: Job, rest: text, intermediate: bool, pen: Pen, next: Pen)
    requires BodyLength(rest, intermediate) == 1 && (j.replace ==> rest[0] != DOLLAR && ProperDollars(rest[1..]))
    requires next == Pen(pen.line + [rest[0]], pen.width + 1, pen.carry)
    requires ScanRow(j, rest, pen) == ScanRow(j, rest[1..], next)
    ensures TailRead(j, rest, intermediate, 1, pen)
  {
    hide ScanRow, ProperDollars, Collapse, BodyLength;
    BodyFirst(rest, intermediate);
    assert rest[..1] == [rest[0]];
    assert Collapse(rest[..1], j.replace) == [rest[0]] by { CollapsePlain(rest[..1], j.replace); }
  }

  lemma BodyFirst(s: text, intermediate: bool)
    requires BodyLength(s, intermediate) > 0
    ensures BodyLength(s, intermediate) == 1 <==> IsFinalByte(s[0])
    ensures IsFinalByte(s[0]) ==> BodyLength([s[0]], intermediate) == 1
    ensures IsFinalByte(s[0]) || IsIntermediateByte(s[0]) || (IsParameterByte(s[0]) && !intermediate)
    ensures !IsFinalByte(s[0]) ==>
              BodyLength(s[1..], IsIntermediateByte(s[0])) == BodyLength(s, intermediate) - 1 > 0
  {
  }

  /** A whole sequence as one step. */
  function SequenceStep(j: Job, rest: text): Piece
    requires CsiLength(rest) > 0
  {
    HeadOfSequence(rest);
    var c := Collapse(Tail(rest), j.replace);
    Piece(CsiLength(rest), rest[..HeadLength(rest)] + c, |c|, SequencePiece(j, rest).carry)
  }

  /** The sequence step has the effect of the passes over the sequence's head and over its tail. */
  lemma SequenceIsRead(j: Job, rest: text, pen: Pen)
    requires CsiLength(rest) > 0 && WellFormed(rest, j.replace)
    ensures ScanRow(j, rest, pen) == ScanRow(j, rest[CsiLength(rest)..], Extend(pen, SequenceStep(j, rest)))
    ensures WellFormed(rest[CsiLength(rest)..], j.replace)
    ensures CsiLength(SequenceStep(j, rest).chars) == |SequenceStep(j, rest).chars|
    ensures SequenceStep(j, rest).used == CsiLength(rest)
  {
    hide ScanRow, Collapse, ProperDollars, BodyLength, Closed, CsiLength, WellFormed, SequencePiece;
    HeadOfSequence(rest);
    var h, n := HeadLength(rest), CsiLength(rest);
    var p := SequencePiece(j, rest);
    var after := Extend(pen, p);
    HeadIsRead(j, rest, pen);
    RestIsFormed(rest, j.replace);
    if h < n {
      TailIsRead(j, rest[h..], IsIntermediateByte(rest[h - 1]), after);
      assert rest[h..][..n - h] == Tail(rest) && rest[h..][n - h..] == rest[n..];
      var c := Collapse(Tail(rest), j.replace);
      assert after.line + c == pen.line + (rest[..h] + c);
    } else {
      assert Tail(rest) == [];
      assert Collapse([], j.replace) == [] by { CollapsePlain([], j.replace); }
      assert rest[..h] + [] == rest[..h];
    }
    StepIsSequence(j, rest);
    assert WellFormed(rest[n..], j.replace) by { Formed(rest[n..], j.replace); }
  }

  lemma Formed(rest: text, replace: bool)
    requires Closed(rest) && NUL !in rest && (replace ==> ProperDollars(rest))
    ensures WellFormed(rest, replace)
  {
  }

  lemma HeadIsRead(j: Job, rest: text, pen: Pen)
    requires CsiLength(rest) > 0
    ensures AtSequence(rest)
    ensures var h := HeadLength(rest);
            && SequencePiece(j, rest).used == h && SequencePiece(j, rest).chars == rest[..h]
            && SequencePiece(j, rest).width == 0
            && ScanRow(j, rest, pen) == ScanRow(j, rest[h..], Extend(pen, SequencePiece(j, rest)))
  {
    hide BodyLength, ParametersEnd;
    HeadOfSequence(rest);
    assert NextPiece(j, rest) == SequencePiece(j, rest);
  }

  lemma RestIsFormed(rest: text, replace: bool)
    requires CsiLength(rest) > 0 && WellFormed(rest, replace)
    ensures Closed(rest[CsiLength(rest)..]) && NUL !in rest[CsiLength(rest)..]
    ensures AtSequence(rest) && (replace ==> ProperDollars(rest[HeadLength(rest)..]))
  {
    hide CsiLength;
  }

  lemma TailCollapsed(j: Job, rest: text, intermediate: bool)
    requires BodyLength(rest, intermediate) > 0 && (j.replace ==> ProperDollars(rest))
    ensures var c := Collapse(rest[..BodyLength(rest, intermediate)], j.replace);
            c != [] && BodyLength(c, intermediate) == |c|
  {
    hide ScanRow, ProperDollars, Collapse, BodyLength;
    TailIsRead(j, rest, intermediate, Pen([], 0, []));
  }

  /** A collapsed tail, with the byte before it, is still the body of a sequence. */
  lemma TailIsBody(j: Job, rest: text)
    requires CsiLength(rest) > 0 && WellFormed(rest, j.replace)
    ensures var t := [rest[HeadLength(rest) - 1]] + Collapse(Tail(rest), j.replace);
            BodyLength(t, false) == |t|
  {
    hide ProperDollars, Closed, Collapse, BodyLength, CsiLength, WellFormed, HeadLength, Tail,
         IsFinalByte, IsParameterByte, IsIntermediateByte;
    HeadOfSequence(rest);
    RestIsFormed(rest, j.replace);
    TailSlice(rest);
    var h, n := HeadLength(rest), CsiLength(rest);
    if h < n {
      BodyFirst(rest[h - 1..], false);
      TailCollapsed(j, rest[h..], IsIntermediateByte(rest[h - 1]));
      BodyCons(rest[h - 1], Collapse(Tail(rest), j.replace), false);
    } else {
      FinalAlone(rest[h - 1], j.replace);
    }
  }

  lemma TailSlice(rest: text)
    requires CsiLength(rest) > 0 && HeadLength(rest) <= CsiLength(rest)
    ensures Tail(rest) == rest[HeadLength(rest)..][..CsiLength(rest) - HeadLength(rest)]
  {
  }

  lemma FinalAlone(b: byte, replace: bool)
    requires IsFinalByte(b)
    ensures var t := [b] + Collapse([], replace); BodyLength(t, false) == |t|
  {
  }

  lemma StepIsSequence(j: Job, rest: text)
    requires CsiLength(rest) > 0 && WellFormed(rest, j.replace)
    ensures CsiLength(SequenceStep(j, rest).chars) == |SequenceStep(j, rest).chars|
  {
    hide ScanRow, WellFormed, Collapse, BodyLength, CsiLength;
    HeadOfSequence(rest);
    TailIsBody(j, rest);
    var h := HeadLength(rest);
    var c := Collapse(Tail(rest), j.replace);
    var s := rest[..h] + c;
    assert s[h - 1..] == [rest[h - 1]] + c;
    forall k: nat | 2 <= k < h - 1 ensures IsParameterByte(s[k]) {
      assert s[k] == rest[k] && IsParameter(rest[k]);
    }
    SequenceLength(s, h - 1);
  }

  lemma SequenceIsGood(j: Job, rest: text)
    requires CsiLength(rest) > 0 && WellFormed(rest, j.replace)
    ensures GoodPiece(SequenceStep(j, rest), rest, j.replace)
    ensures Silent(SequenceStep(j, rest).chars)
  {
    hide Silent, Shown, ScanRow, Collapse, WellFormed, BodyLength;
    HeadOfSequence(rest);
    SequenceIsRead(j, rest, Pen([], 0, []));
    var chars := SequenceStep(j, rest).chars;
    SequenceIsSilent(chars);
    SilentParts(chars);
    CarriedIsWhole(j, rest);
  }

  /** A carried colour is a whole sequence. */
  lemma CarriedIsWhole(j: Job, rest: text)
    requires CsiLength(rest) > 0
    ensures var carry := SequencePiece(j, rest).carry;
            carry.Some? ==> carry.value == SequenceStep(j, rest).chars
  {
    hide BodyLength, ParametersEnd;
    HeadOfSequence(rest);
    if SequencePiece(j, rest).carry.Some? {
      assert IsFinalByte(rest[HeadLength(rest) - 1]);
      assert Tail(rest) == [];
      CollapsePlain([], j.replace);
      assert rest[..HeadLength(rest)] + [] == rest[..HeadLength(rest)];
    }
  }

  // ---- all steps ------------------------------------------------------------------------------

  /** A whole control sequence, or one pass of the inner loop. */
  function NextStep(j: Job, rest: text): Piece
    requires At(rest, 0) != NUL
  {
    if CsiLength(rest) > 0 then SequenceStep(j, rest) else NextPiece(j, rest)
  }

  /** Steps are what the inner loop does, and they lead from one proper place to the next. */
  lemma StepIsGood(j: Job, rest: text, pen: Pen)
    requires !AtLineEnd(rest) && WellFormed(rest, j.replace) && SgrColors(j.options)
    ensures var p := NextStep(j, rest);
            && GoodPiece(p, rest, j.replace) && 0 < p.used
            && ScanRow(j, rest, pen) == ScanRow(j, rest[p.used..], Extend(pen, p))
  {
    hide GoodPiece, DollarPiece, CharPiece, WellFormed, ProperDollars, BodyLength, SequencePiece, SequenceStep, Extend;
    if rest[0] == ESC {
      EscapeIsSequence(rest, j.replace);
      SequenceIsGood(j, rest);
      SequenceIsRead(j, rest, pen);
    } else if rest[0] == TAB {
      TabIsGood(rest, j.replace);
    } else if j.replace && rest[0] == DOLLAR {
      DollarIsGood(j, rest);
    } else {
      CharIsGood(j, rest);
    }
  }

  lemma EscapeIsSequence(rest: text, replace: bool)
    requires rest != [] && rest[0] == ESC && WellFormed(rest, replace)
    ensures CsiLength(rest) > 0
  {
    hide CsiLength;
  }

  /** Both colour modes take the same step, up to control sequences. */
  lemma StepsAlike(j: Job, k: Job, rest: text)
    requires SameButPipe(j, k) && !AtLineEnd(rest) && WellFormed(rest, j.replace) && SgrColors(j.options)
    ensures Alike(NextStep(j, rest), NextStep(k, rest))
  {
    hide DollarPiece, CharPiece, WellFormed, BodyLength, SequencePiece, Strip, Collapse;
    if rest[0] == ESC {
      EscapeIsSequence(rest, j.replace);
      assert SequencePiece(j, rest) == SequencePiece(k, rest) by { SequenceIgnoresPipe(j, k, rest); }
    } else if j.replace && rest[0] == DOLLAR {
      SgrIgnoresPipe(j, k);
      DollarIsGood(j, rest);
      DollarIsGood(k, rest);
    }
  }

  lemma SequenceIgnoresPipe(j: Job, k: Job, rest: text)
    requires SameButPipe(j, k) && AtSequence(rest)
    ensures SequencePiece(j, rest) == SequencePiece(k, rest)
  {
  }

  lemma SgrIgnoresPipe(j: Job, k: Job)
    requires SameButPipe(j, k) && SgrColors(j.options)
    ensures SgrColors(k.options)
  {
  }
}
