/** The bytes of a logo line as a terminal reads them: control sequences and UTF-8 characters. */
module LogoText {
  import opened CArithmetic

  type text = seq<byte>

  const NUL: byte := 0
  const TAB: byte := 9
  const LF: byte := 10
  const CR: byte := 13
  const ESC: byte := 27
  const SPACE: byte := 32
  const DOLLAR: byte := 36
  const DIGIT_0: byte := 48
  const DIGIT_1: byte := 49
  const DIGIT_9: byte := 57
  const SEMICOLON: byte := 59
  const BRACKET: byte := 91
  const LETTER_M: byte := 109

  /** `s[i]` of a C string: the terminator past the end. */
  function At(s: text, i: nat): byte { if i < |s| then s[i] else NUL }

  function Repeat(b: byte, n: nat): (r: text)
    ensures |r| == n && forall i: nat | i < n :: r[i] == b
  {
    if n == 0 then [] else [b] + Repeat(b, n - 1)
  }

  // ---- control sequences ------------------------------------------------------------------

  predicate IsParameterByte(b: byte) { 0x30 <= b <= 0x3F }

  predicate IsIntermediateByte(b: byte) { 0x20 <= b <= 0x2F }

  predicate IsFinalByte(b: byte) { 0x40 <= b <= 0x7E }

  /**
    The length of the rest of a control sequence: parameter bytes, unless an
    intermediate byte came before, then intermediate bytes, then the final byte;
    0 if that is not what `s` begins with.
   */
  function BodyLength(s: text, intermediate: bool): (n: nat)
    ensures n <= |s|
    ensures n > 0 ==> IsFinalByte(s[n - 1])
  {
    if s == [] then 0
    else if IsFinalByte(s[0]) then 1
    else if IsIntermediateByte(s[0]) || (IsParameterByte(s[0]) && !intermediate) then
      var n := BodyLength(s[1..], IsIntermediateByte(s[0]));
      if n > 0 then n + 1 else 0
    else 0
  }

  /** The length of the control sequence `s` begins with, by section 5.4 of ECMA-48; 0 if there is none. */
  function CsiLength(s: text): (n: nat)
    ensures n <= |s|
    ensures n > 0 ==> n >= 3 && s[0] == ESC && s[1] == BRACKET
  {
    if |s| < 2 || s[0] != ESC || s[1] != BRACKET || BodyLength(s[2..], false) == 0 then 0
    else 2 + BodyLength(s[2..], false)
  }

  /** What is left when every control sequence is taken out. */
  function Strip(s: text): text
    decreases |s|
  {
    if s == [] then []
    else if CsiLength(s) > 0 then Strip(s[CsiLength(s)..])
    else [s[0]] + Strip(s[1..])
  }

  /** Every ESC begins a complete control sequence. */
  predicate Closed(s: text)
    decreases |s|
  {
    if s == [] then true
    else if s[0] == ESC then CsiLength(s) > 0 && Closed(s[CsiLength(s)..])
    else Closed(s[1..])
  }

  /** Nothing but complete control sequences. */
  predicate Invisible(s: text) { Closed(s) && Strip(s) == [] }

  lemma {:induction false} BodyAppend(a: text, b: text, intermediate: bool)
    requires BodyLength(a, intermediate) > 0
    ensures BodyLength(a + b, intermediate) == BodyLength(a, intermediate)
    decreases |a|
  {
    assert (a + b)[0] == a[0];
    if !IsFinalByte(a[0]) {
      BodyAppend(a[1..], b, IsIntermediateByte(a[0]));
      assert (a + b)[1..] == a[1..] + b;
    }
  }

  lemma CsiAppend(a: text, b: text)
    requires CsiLength(a) > 0
    ensures CsiLength(a + b) == CsiLength(a)
  {
    hide BodyLength;
    BodyAppend(a[2..], b, false);
    assert (a + b)[2..] == a[2..] + b;
  }

  /** Taking sequences out respects concatenation after a text that does not end inside one. */
  lemma {:induction false} StripAppend(a: text, b: text)
    requires Closed(a)
    ensures Strip(a + b) == Strip(a) + Strip(b)
    ensures Closed(b) ==> Closed(a + b)
    decreases |a|
  {
    hide CsiLength;
    if a == [] {
      assert a + b == b;
    } else if a[0] == ESC {
      StripAppend(a[CsiLength(a)..], b);
      StripSequence(a, b);
    } else {
      StripAppend(a[1..], b);
      StripByte(a, b);
    }
  }

  lemma StripSequence(a: text, b: text)
    requires CsiLength(a) > 0
    ensures Strip(a + b) == Strip(a[CsiLength(a)..] + b)
    ensures Closed(a + b) == Closed(a[CsiLength(a)..] + b)
  {
    hide CsiLength;
    CsiAppend(a, b);
    assert (a + b)[CsiLength(a)..] == a[CsiLength(a)..] + b;
  }

  lemma StripByte(a: text, b: text)
    requires a != [] && a[0] != ESC
    ensures Strip(a + b) == [a[0]] + Strip(a[1..] + b)
    ensures Closed(a + b) == Closed(a[1..] + b)
  {
    hide CsiLength;
    assert (a + b)[1..] == a[1..] + b;
    assert (a + b)[0] == a[0];
  }

  lemma {:induction false} PlainIsClosed(s: text)
    requires ESC !in s
    ensures Closed(s) && Strip(s) == s
    decreases |s|
  {
    hide CsiLength;
    if s != [] {
      PlainIsClosed(s[1..]);
    }
  }

  lemma OneSequence(s: text)
    requires s != [] && CsiLength(s) == |s|
    ensures Invisible(s)
  {
    hide CsiLength;
    var e := s[CsiLength(s)..];
    assert e == [];
    assert Closed(e) && Strip(e) == [];
  }

  /** Parameter bytes before a body make a longer body. */
  lemma {:induction false} BodyAfterParameters(p: text, t: text)
    requires (forall k: nat | k < |p| :: IsParameterByte(p[k])) && BodyLength(t, false) > 0
    ensures BodyLength(p + t, false) == |p| + BodyLength(t, false)
    decreases |p|
  {
    if p == [] {
      assert p + t == t;
    } else {
      assert (p + t)[0] == p[0];
      BodyAfterParameters(p[1..], t);
      assert (p + t)[1..] == p[1..] + t;
    }
  }

  /** ESC, `[`, parameter bytes up to `m` and a body make one control sequence. */
  lemma SequenceLength(s: text, m: nat)
    requires 2 <= m < |s| && s[0] == ESC && s[1] == BRACKET
    requires (forall k: nat | 2 <= k < m :: IsParameterByte(s[k])) && BodyLength(s[m..], false) == |s| - m
    ensures CsiLength(s) == |s|
  {
    hide BodyLength, IsParameterByte;
    assert forall k: nat | k < m - 2 :: s[2..m][k] == s[k + 2];
    BodyAfterParameters(s[2..m], s[m..]);
    assert s[2..m] + s[m..] == s[2..];
  }

  // ---- characters -------------------------------------------------------------------------

  datatype Glyph = Glyph(bytes: nat, width: nat)

  /** The number of bytes that a first byte announces; 1 for a byte that begins no character. */
  function Announced(first: byte): (n: nat)
    ensures 1 <= n <= 4
  {
    if 0xC0 <= first <= 0xDF then 2
    else if 0xE0 <= first <= 0xEF then 3
    else if 0xF0 <= first <= 0xF7 then 4
    else 1
  }

  predicate Continuation(b: byte) { 0x80 <= b <= 0xBF }

  /** The announced continuation bytes all follow. */
  predicate Complete(s: text) {
    forall i: nat | 1 <= i < Announced(At(s, 0)) :: Continuation(At(s, i))
  }

  /** The code point of a complete character. */
  function CodePoint(s: text): int
    requires s != []
  {
    var n := Announced(s[0]);
    if n == 1 then s[0]
    else if n == 2 then (s[0] - 0xC0) * 64 + (At(s, 1) - 0x80)
    else if n == 3 then ((s[0] - 0xE0) * 64 + (At(s, 1) - 0x80)) * 64 + (At(s, 2) - 0x80)
    else (((s[0] - 0xF0) * 64 + (At(s, 1) - 0x80)) * 64 + (At(s, 2) - 0x80)) * 64 + (At(s, 3) - 0x80)
  }

  /** `ffUtf8CharLenWidth`; `wcwidth` stands for `mk_wcwidth`. */
  function CharLenWidth(s: text, wcwidth: int -> int): (g: Glyph)
    ensures g.bytes <= |s|
    ensures g.bytes == 0 <==> At(s, 0) == NUL
    ensures g.bytes > 1 ==> s[0] >= 0xC0
    ensures forall i: nat | 1 <= i < g.bytes :: Continuation(s[i])
    ensures g.bytes == 1 ==> g.width == 1
  {
    if At(s, 0) == NUL then Glyph(0, 0)
    else if s[0] < 0x80 || Announced(s[0]) == 1 || !Complete(s) then Glyph(1, 1)
    else
      var n := Announced(s[0]);
      assert Continuation(At(s, n - 1));
      var w := wcwidth(CodePoint(s));
      Glyph(n, if w < 0 then 0 else w % 256)
  }

  /** `s` is a run of whole characters, without NUL. */
  predicate WholeCharacters(s: text, wcwidth: int -> int)
    decreases |s|
  {
    if s == [] then true
    else
      var n := CharLenWidth(s, wcwidth).bytes;
      n > 0 && (s[0] < 0x80 || n > 1) && WholeCharacters(s[n..], wcwidth)
  }

  /** The columns that the characters of `s` take. */
  function Columns(s: text, wcwidth: int -> int): nat
    decreases |s|
  {
    if s == [] || s[0] == NUL then 0
    else
      var g := CharLenWidth(s, wcwidth);
      g.width + Columns(s[g.bytes..], wcwidth)
  }

  lemma GlyphAppend(a: text, b: text, wcwidth: int -> int)
    requires a != [] && a[0] != NUL && (a[0] < 0x80 || CharLenWidth(a, wcwidth).bytes > 1)
    ensures CharLenWidth(a + b, wcwidth) == CharLenWidth(a, wcwidth)
  {
    hide Announced;
    assert (a + b)[0] == a[0];
    if a[0] >= 0x80 {
      var n := Announced(a[0]);
      assert forall i: nat | i < |a| :: At(a + b, i) == At(a, i);
      assert |a| >= n;
      assert Complete(a + b);
      CodePointAppend(a, b);
    }
  }

  lemma CodePointAppend(a: text, b: text)
    requires a != [] && |a| >= Announced(a[0])
    ensures CodePoint(a + b) == CodePoint(a)
  {
    assert forall i: nat | i < |a| :: At(a + b, i) == At(a, i);
  }

  /** Widths add up over whole characters. */
  lemma {:induction false} ColumnsAppend(a: text, b: text, wcwidth: int -> int)
    requires WholeCharacters(a, wcwidth)
    ensures Columns(a + b, wcwidth) == Columns(a, wcwidth) + Columns(b, wcwidth)
    ensures WholeCharacters(b, wcwidth) ==> WholeCharacters(a + b, wcwidth)
    decreases |a|
  {
    hide CharLenWidth;
    if a == [] {
      assert a + b == b;
    } else {
      var n := CharLenWidth(a, wcwidth).bytes;
      GlyphAppend(a, b, wcwidth);
      ColumnsAppend(a[n..], b, wcwidth);
      assert (a + b)[n..] == a[n..] + b;
      assert (a + b)[0] == a[0];
    }
  }

  /** The UTF-8 form of a code point. */
  function Encode(cp: nat): (s: text)
    requires cp < 0x20_0000
    ensures 1 <= |s| <= 4
  {
    if cp < 0x80 then [cp]
    else if cp < 0x800 then [0xC0 + cp / 64, 0x80 + cp % 64]
    else if cp < 0x1_0000 then [0xE0 + cp / 4096, 0x80 + cp / 64 % 64, 0x80 + cp % 64]
    else [0xF0 + cp / 26_2144, 0x80 + cp / 4096 % 64, 0x80 + cp / 64 % 64, 0x80 + cp % 64]
  }

  /** Decoding inverts encoding, whatever follows: all bytes are taken, with the width of the code point. */
  lemma DecodesEncoded(cp: nat, rest: text, wcwidth: int -> int)
    requires 0 < cp < 0x20_0000
    ensures var g := CharLenWidth(Encode(cp) + rest, wcwidth);
            && g.bytes == |Encode(cp)|
            && (if cp < 0x80 then g.width == 1
                else g.width == if wcwidth(cp) < 0 then 0 else wcwidth(cp) % 256)
  {
    hide Encode, CodePoint, Announced;
    var e := Encode(cp);
    EncodedBytes(cp);
    if cp < 0x80 {
      assert (e + rest)[0] == e[0];
    } else {
      EncodedCodePoint(cp);
      assert forall i: nat | i < |e| :: At(e + rest, i) == At(e, i);
      assert Complete(e + rest);
      CodePointAppend(e, rest);
    }
  }

  /** The first byte announces the length, continuation bytes follow. */
  lemma EncodedBytes(cp: nat)
    requires 0 < cp < 0x20_0000
    ensures var e := Encode(cp);
            && (cp < 0x80 <==> e[0] < 0x80) && (cp < 0x80 <==> |e| == 1) && e[0] != NUL
            && Announced(e[0]) == |e|
            && forall i: nat | 1 <= i < |e| :: Continuation(e[i])
  {
    if cp >= 0x1_0000 {
      assert cp / 26_2144 < 8;
    } else if cp >= 0x800 {
      assert cp / 4096 < 16;
    }
  }

  lemma EncodedCodePoint(cp: nat)
    requires 0 < cp < 0x20_0000
    ensures CodePoint(Encode(cp)) == cp
  {
    hide Announced, Continuation;
    EncodedBytes(cp);
    SixBitDigits(cp);
  }

  lemma SixBitDigits(cp: nat)
    ensures cp == cp / 64 * 64 + cp % 64
    ensures cp == (cp / 4096 * 64 + cp / 64 % 64) * 64 + cp % 64
    ensures cp == ((cp / 26_2144 * 64 + cp / 4096 % 64) * 64 + cp / 64 % 64) * 64 + cp % 64
  {
    assert cp / 64 / 64 == cp / 4096;
    assert cp / 4096 / 64 == cp / 26_2144;
    assert cp / 64 == cp / 4096 * 64 + cp / 64 % 64;
    assert cp / 4096 == cp / 26_2144 * 64 + cp / 4096 % 64;
  }
}
