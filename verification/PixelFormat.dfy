/** `expand_palette`: row-wise unpacking of 1-, 2- and 4-bit pixels. */
module PixelFormat {
  import opened CArithmetic

  datatype Format = Pal1 | Pal2 | Pal4 | Pal8 | Gray1 | Gray2 | Gray4 | Gray8 | OtherFormat

  datatype Status = ExpandOk | ExpandBadArgument

  /** Bits per pixel of the packed formats. */
  function Bpp(f: Format): nat {
    match f
    case Pal1 => 1
    case Gray1 => 1
    case Pal2 => 2
    case Gray2 => 2
    case Pal4 => 4
    case Gray4 => 4
    case _ => 8
  }

  predicate Packed(bpp: nat) { bpp == 1 || bpp == 2 || bpp == 4 }

  /** Pixels per byte. */
  function PerByte(bpp: nat): nat
    requires Packed(bpp)
  {
    if bpp == 1 then 8 else if bpp == 2 then 4 else 2
  }

  /** The byte of a row that holds pixel `x`. */
  function ByteOf(x: nat, bpp: nat): nat
    requires Packed(bpp)
  {
    if bpp == 1 then x / 8 else if bpp == 2 then x / 4 else x / 2
  }

  /** The place of pixel `x` in its byte, counted from the most significant end. */
  function FieldOf(x: nat, bpp: nat): (i: nat)
    requires Packed(bpp)
    ensures i < PerByte(bpp)
  {
    if bpp == 1 then x % 8 else if bpp == 2 then x % 4 else x % 2
  }

  /** Bytes per row: the row is padded to a whole byte. */
  function Stride(width: nat, bpp: nat): nat
    requires Packed(bpp)
  {
    ByteOf(width + PerByte(bpp) - 1, bpp)
  }

  /** `b >> k`. */
  function ShiftRight(b: byte, k: nat): byte
    requires k < 8
  {
    if k == 0 then b else if k == 1 then b / 2 else if k == 2 then b / 4 else if k == 3 then b / 8
    else if k == 4 then b / 16 else if k == 5 then b / 32 else if k == 6 then b / 64 else b / 128
  }

  /** `b & ((1 << bpp) - 1)`. */
  function LowBits(b: byte, bpp: nat): byte
    requires Packed(bpp)
  {
    if bpp == 1 then b % 2 else if bpp == 2 then b % 4 else b % 16
  }

  /** Pixel `i` of a byte. */
  function Field(b: byte, i: nat, bpp: nat): byte
    requires Packed(bpp) && i < PerByte(bpp)
  {
    LowBits(ShiftRight(b, 8 - (i + 1) * bpp), bpp)
  }

  /** `count` cells of `dst` from `d` on hold the first pixels of byte `b`; the others are as in `before`. */
  ghost predicate Unpacks(dst: seq<byte>, before: seq<byte>, d: nat, b: byte, count: nat, bpp: nat)
    requires Packed(bpp) && count <= PerByte(bpp)
  {
    && |dst| == |before| && d + count <= |dst|
    && (forall i: nat | i < count :: dst[d + i] == Field(b, i, bpp))
    && dst[..d] == before[..d] && dst[d + count..] == before[d + count..]
  }

  /** The loop over the pixels of a full byte. */
  method ExpandByte(dst: array<byte>, d: nat, b: byte, bpp: nat)
    requires Packed(bpp) && d + PerByte(bpp) <= dst.Length
    modifies dst
    ensures Unpacks(dst[..], old(dst[..]), d, b, PerByte(bpp), bpp)
  {
    var i := 0;
    while i < 8 / bpp
      invariant 0 <= i <= PerByte(bpp) == 8 / bpp
      invariant forall j: nat | j < i :: dst[d + j] == Field(b, j, bpp)
      invariant dst[..d] == old(dst[..d]) && dst[d + i..] == old(dst[d + i..])
    {
      assert (8 / bpp - 1 - i) * bpp == 8 - (i + 1) * bpp;
      dst[d + i] := LowBits(ShiftRight(b, (8 / bpp - 1 - i) * bpp), bpp);
      i := i + 1;
    }
  }

  /** The loop over the pixels of the last, partial byte of a row. */
  method ExpandPartial(dst: array<byte>, d: nat, b: byte, count: nat, bpp: nat)
    requires Packed(bpp) && count <= PerByte(bpp) && d + count <= dst.Length
    modifies dst
    ensures Unpacks(dst[..], old(dst[..]), d, b, count, bpp)
  {
    var i := 0;
    while i < count
      invariant 0 <= i <= count
      invariant forall j: nat | j < i :: dst[d + j] == Field(b, j, bpp)
      invariant dst[..d] == old(dst[..d]) && dst[d + i..] == old(dst[d + i..])
    {
      dst[d + i] := LowBits(ShiftRight(b, 8 - (i + 1) * bpp), bpp);
      i := i + 1;
    }
  }

  /** Row `y` starts at `d` in `dst` and at `s` in `src`, and its first `n` pixels are unpacked. */
  ghost predicate RowUnpacked(dst: seq<byte>, src: seq<byte>, d: nat, s: nat, n: nat, bpp: nat)
    requires Packed(bpp)
  {
    && d + n <= |dst|
    && forall x: nat | x < n ::
         && s + ByteOf(x, bpp) < |src|
         && dst[d + x] == Field(src[s + ByteOf(x, bpp)], FieldOf(x, bpp), bpp)
  }

  lemma PlaceOf(k: nat, i: nat, bpp: nat)
    requires Packed(bpp) && i < PerByte(bpp)
    ensures ByteOf(k * PerByte(bpp) + i, bpp) == k && FieldOf(k * PerByte(bpp) + i, bpp) == i
  {
    if bpp == 1 {
    } else if bpp == 2 {
    } else {
    }
  }

  lemma RowExtends(dst: seq<byte>, before: seq<byte>, src: seq<byte>, d: nat, s: nat, n: nat, k: nat, count: nat,
                   bpp: nat)
    requires Packed(bpp) && n == k * PerByte(bpp) && count <= PerByte(bpp) && s + k < |src|
    requires RowUnpacked(before, src, d, s, n, bpp)
    requires Unpacks(dst, before, d + n, src[s + k], count, bpp)
    ensures RowUnpacked(dst, src, d, s, n + count, bpp)
  {
    hide Field;
    forall x: nat | x < n + count
      ensures s + ByteOf(x, bpp) < |src| && dst[d + x] == Field(src[s + ByteOf(x, bpp)], FieldOf(x, bpp), bpp)
    {
      if x < n {
        assert dst[..d + n][d + x] == before[..d + n][d + x];
        assert before[d + x] == Field(src[s + ByteOf(x, bpp)], FieldOf(x, bpp), bpp);
      } else {
        var i: nat := x - n;
        PlaceOf(k, i, bpp);
        assert dst[(d + n) + i] == Field(src[s + k], i, bpp);
      }
    }
  }

  /** How the source divides a row: full bytes, a rest, and the padded length. */
  lemma RowArithmetic(width: nat, bpp: nat)
    requires Packed(bpp)
    ensures var full := width * bpp / 8;
            && full * 8 / bpp == full * PerByte(bpp) <= width < full * PerByte(bpp) + PerByte(bpp)
            && Stride(width, bpp) == full + if width > full * PerByte(bpp) then 1 else 0
  {
    if bpp == 1 {
    } else if bpp == 2 {
    } else {
    }
  }

  /** The full bytes of one row. */
  method ExpandFullBytes(dst: array<byte>, src: array<byte>, d: nat, s: nat, full: nat, bpp: nat)
    requires Packed(bpp) && dst != src
    requires d + full * PerByte(bpp) <= dst.Length && s + full <= src.Length
    modifies dst
    ensures RowUnpacked(dst[..], src[..], d, s, full * PerByte(bpp), bpp)
    ensures dst[..d] == old(dst[..d]) && dst[d + full * PerByte(bpp)..] == old(dst[d + full * PerByte(bpp)..])
  {
    hide Field, PerByte, ByteOf, FieldOf, Packed;
    var x: nat, n: nat := 0, 0;
    while x < full
      invariant x <= full && n == x * PerByte(bpp) && d + n <= dst.Length
      invariant RowUnpacked(dst[..], src[..], d, s, n, bpp)
      invariant dst[..d] == old(dst[..d]) && dst[d + n..] == old(dst[d + n..])
    {
      NextByte(x, full, PerByte(bpp));
      ghost var before := dst[..];
      ExpandByte(dst, d + n, src[s + x], bpp);
      RowExtends(dst[..], before, src[..], d, s, n, x, PerByte(bpp), bpp);
      assert dst[..d] == dst[..d + n][..d];
      assert dst[d + n + PerByte(bpp)..] == before[d + n..][PerByte(bpp)..];
      x, n := x + 1, n + PerByte(bpp);
    }
  }

  lemma NextByte(x: nat, full: nat, k: nat)
    requires x < full
    ensures x * k + k == (x + 1) * k <= full * k
  {
    MulMonotone(x + 1, full, k);
  }

  /** One row. */
  method ExpandRow(dst: array<byte>, src: array<byte>, d: nat, s: nat, width: nat, bpp: nat) returns (read: nat)
    requires Packed(bpp) && dst != src
    requires d + width <= dst.Length && s + Stride(width, bpp) <= src.Length
    modifies dst
    ensures read == Stride(width, bpp)
    ensures RowUnpacked(dst[..], src[..], d, s, width, bpp)
    ensures dst[..d] == old(dst[..d]) && dst[d + width..] == old(dst[d + width..])
  {
    hide Field, Stride;
    RowArithmetic(width, bpp);
    var x := width * bpp / 8;
    ExpandFullBytes(dst, src, d, s, x, bpp);
    read := x;
    var full := x * 8 / bpp;
    var rest := width - full;
    if rest > 0 {
      ghost var before := dst[..];
      ExpandPartial(dst, d + full, src[s + read], rest, bpp);
      RowExtends(dst[..], before, src[..], d, s, full, x, rest, bpp);
      assert dst[..d] == dst[..d + full][..d];
      assert dst[d + width..] == before[d + full..][rest..];
      read := read + 1;
    }
  }

  // ---- the whole image ----------------------------------------------------------------------

  /** The first `rows` rows are unpacked. */
  ghost predicate ImageUnpacked(dst: seq<byte>, src: seq<byte>, width: nat, rows: nat, bpp: nat)
    requires Packed(bpp)
  {
    forall y: nat | y < rows :: RowUnpacked(dst, src, y * width, y * Stride(width, bpp), width, bpp)
  }

  /** `expand_palette`: it reads exactly `Stride` bytes per row and writes exactly `width * height` bytes. */
  method ExpandPalette(dst: array<byte>, src: array<byte>, width: nat, height: nat, pixelformat: Format)
    returns (status: Status)
    requires dst != src && dst.Length == width * height
    requires pixelformat == Pal1 || pixelformat == Gray1 ==> src.Length == height * ((width + 7) / 8)
    requires pixelformat == Pal2 || pixelformat == Gray2 ==> src.Length == height * ((width + 3) / 4)
    requires pixelformat == Pal4 || pixelformat == Gray4 ==> src.Length == height * ((width + 1) / 2)
    requires pixelformat == Pal8 || pixelformat == Gray8 ==> src.Length == width * height
    modifies dst
    ensures status == ExpandBadArgument <==> pixelformat == OtherFormat
    ensures status == ExpandBadArgument ==> dst[..] == old(dst[..])
    ensures pixelformat == Pal8 || pixelformat == Gray8 ==> dst[..] == src[..]
    ensures pixelformat == Pal1 || pixelformat == Gray1 ==> ImageUnpacked(dst[..], src[..], width, height, 1)
    ensures pixelformat == Pal2 || pixelformat == Gray2 ==> ImageUnpacked(dst[..], src[..], width, height, 2)
    ensures pixelformat == Pal4 || pixelformat == Gray4 ==> ImageUnpacked(dst[..], src[..], width, height, 4)
  {
    if pixelformat == OtherFormat {
      return ExpandBadArgument;
    }
    status := ExpandOk;
    var bpp := Bpp(pixelformat);
    if bpp == 8 {
      CopyPixels(dst, src);
      return;
    }
    hide RowUnpacked, Stride;
    var d: nat, s: nat, y := 0, 0, 0;
    while y < height
      invariant 0 <= y <= height && d == y * width && s == y * Stride(width, bpp)
      invariant ImageUnpacked(dst[..], src[..], width, y, bpp)
    {
      NextByte(y, height, width);
      NextByte(y, height, Stride(width, bpp));
      ghost var before := dst[..];
      var read := ExpandRow(dst, src, d, s, width, bpp);
      RowsKept(dst[..], before, src[..], width, y, bpp);
      d, s, y := d + width, s + read, y + 1;
    }
  }

  /** The loop of the one-byte formats. */
  method CopyPixels(dst: array<byte>, src: array<byte>)
    requires dst != src && dst.Length == src.Length
    modifies dst
    ensures dst[..] == src[..]
  {
    var i := 0;
    while i < dst.Length
      invariant 0 <= i <= dst.Length
      invariant dst[..i] == src[..i]
    {
      dst[i] := src[i];
      i := i + 1;
    }
  }

  /** Writing row `y` leaves the rows above it unpacked. */
  lemma RowsKept(dst: seq<byte>, before: seq<byte>, src: seq<byte>, width: nat, y: nat, bpp: nat)
    requires Packed(bpp) && |dst| == |before| && y * width <= |dst| && dst[..y * width] == before[..y * width]
    requires ImageUnpacked(before, src, width, y, bpp)
    requires RowUnpacked(dst, src, y * width, y * Stride(width, bpp), width, bpp)
    ensures ImageUnpacked(dst, src, width, y + 1, bpp)
  {
    hide RowUnpacked, Stride;
    forall r: nat | r < y + 1
      ensures RowUnpacked(dst, src, r * width, r * Stride(width, bpp), width, bpp)
    {
      if r < y {
        NextByte(r, y, width);
        RowKept(dst, before, src, r * width, r * Stride(width, bpp), width, y * width, bpp);
      }
    }
  }

  lemma RowKept(dst: seq<byte>, before: seq<byte>, src: seq<byte>, d: nat, s: nat, n: nat, kept: nat, bpp: nat)
    requires Packed(bpp) && d + n <= kept <= |dst| && |dst| == |before| && dst[..kept] == before[..kept]
    requires RowUnpacked(before, src, d, s, n, bpp)
    ensures RowUnpacked(dst, src, d, s, n, bpp)
  {
    hide Field, ByteOf, FieldOf;
    forall x: nat | x < n
      ensures s + ByteOf(x, bpp) < |src| && dst[d + x] == Field(src[s + ByteOf(x, bpp)], FieldOf(x, bpp), bpp)
    {
      assert dst[..kept][d + x] == before[..kept][d + x];
    }
  }

  // ---- packing, and the round trip ------------------------------------------------------------

  /** Pixel values that fit in `bpp` bits. */
  predicate Fits(p: int, bpp: nat)
    requires Packed(bpp)
  {
    0 <= p < if bpp == 1 then 2 else if bpp == 2 then 4 else 16
  }

  /** Pixel `i` of a row, or the padding value 0. */
  function PixelOr0(row: seq<nat>, i: nat, bpp: nat): (p: nat)
    requires Packed(bpp) && forall p <- row :: Fits(p, bpp)
    ensures Fits(p, bpp)
  {
    if i < |row| then row[i] else 0
  }

  /** The byte that packs the pixels of `row` from `x` on, most significant first. */
  function PackByte(row: seq<nat>, x: nat, bpp: nat): (b: byte)
    requires Packed(bpp) && forall p <- row :: Fits(p, bpp)
  {
    if bpp == 4 then PixelOr0(row, x, bpp) * 16 + PixelOr0(row, x + 1, bpp)
    else if bpp == 2 then
      PixelOr0(row, x, bpp) * 64 + PixelOr0(row, x + 1, bpp) * 16 + PixelOr0(row, x + 2, bpp) * 4
          + PixelOr0(row, x + 3, bpp)
    else
      PixelOr0(row, x, bpp) * 128 + PixelOr0(row, x + 1, bpp) * 64 + PixelOr0(row, x + 2, bpp) * 32
          + PixelOr0(row, x + 3, bpp) * 16
      + PixelOr0(row, x + 4, bpp) * 8 + PixelOr0(row, x + 5, bpp) * 4 + PixelOr0(row, x + 6, bpp) * 2
          + PixelOr0(row, x + 7, bpp)
  }

  /** The first `n` bytes of a packed row. */
  function PackRow(row: seq<nat>, n: nat, bpp: nat): (r: seq<byte>)
    requires Packed(bpp) && forall p <- row :: Fits(p, bpp)
    ensures |r| == n
    ensures forall k :: 0 <= k < n ==> r[k] == PackByte(row, k * PerByte(bpp), bpp)
  {
    seq(n, k requires 0 <= k < n => PackByte(row, k * PerByte(bpp), bpp))
  }

  /** The rows of an image, each padded to a whole byte, one after the other. */
  ghost function Pack(rows: seq<seq<nat>>, width: nat, bpp: nat): (r: seq<byte>)
    requires Packed(bpp) && WellSized(rows, width, bpp)
    ensures |r| == |rows| * Stride(width, bpp)
  {
    if rows == [] then [] else
    var front, last := rows[..|rows| - 1], rows[|rows| - 1];
    assert forall row <- front :: row in rows;
    assert last in rows;
    assert |front| * Stride(width, bpp) + Stride(width, bpp) == |rows| * Stride(width, bpp);
    Pack(front, width, bpp) + PackRow(last, Stride(width, bpp), bpp)
  }

  ghost predicate RowOk(row: seq<nat>, width: nat, bpp: nat)
    requires Packed(bpp)
  {
    |row| == width && forall p <- row :: Fits(p, bpp)
  }

  ghost predicate WellSized(rows: seq<seq<nat>>, width: nat, bpp: nat)
    requires Packed(bpp)
  {
    forall row <- rows :: RowOk(row, width, bpp)
  }

  /** Dividing by a weight drops the lower fields. */
  lemma UpperFields(q: nat, d: nat, r: nat)
    requires r < d
    ensures (q * d + r) / d == q
  {
    var v := (q * d + r) / d;
    assert v * d <= q * d + r < v * d + d;
    assert (q + 1) * d == q * d + d && (v + 1) * d == v * d + d;
    CancelFactor(v, q + 1, d);
    CancelFactor(q, v + 1, d);
  }

  lemma FieldOfNibbles(a: nat, b: nat, i: nat)
    requires a < 16 && b < 16 && i < 2
    ensures Field(a * 16 + b, i, 4) == if i == 0 then a else b
  {
  }

  lemma FieldOfPairs(a: nat, b: nat, c: nat, d: nat, i: nat)
    requires a < 4 && b < 4 && c < 4 && d < 4 && i < 4
    ensures Field(a * 64 + b * 16 + c * 4 + d, i, 2)
            == if i == 0 then a else if i == 1 then b else if i == 2 then c else d
  {
    hide Field;
    var v: byte := a * 64 + b * 16 + c * 4 + d;
    if i == 0 {
      PairField(v, i, 0, a, b * 16 + c * 4 + d);
    } else if i == 1 {
      PairField(v, i, a, b, c * 4 + d);
    } else if i == 2 {
      PairField(v, i, a * 4 + b, c, d);
    } else {
      PairField(v, i, a * 16 + b * 4 + c, d, 0);
    }
  }

  /** The weight of pair `i` of a byte, from the most significant end. */
  function PairWeight(i: nat): nat
    requires i < 4
  {
    if i == 0 then 64 else if i == 1 then 16 else if i == 2 then 4 else 1
  }

  lemma PairField(v: byte, i: nat, upper: nat, p: nat, lower: nat)
    requires i < 4 && p < 4 && lower < PairWeight(i) && v as int == (upper * 4 + p) * PairWeight(i) + lower
    ensures Field(v, i, 2) as int == p
  {
    UpperFields(upper * 4 + p, PairWeight(i), lower);
    assert ShiftRight(v, 8 - (i + 1) * 2) as int == v / PairWeight(i) by { ShiftPair(v, i); }
  }

  lemma ShiftPair(v: byte, i: nat)
    requires i < 4
    ensures ShiftRight(v, 8 - (i + 1) * 2) as int == v / PairWeight(i)
  {
  }

  /** The weight of bit `i` of a byte, from the most significant end. */
  function BitWeight(i: nat): nat
    requires i < 8
  {
    if i == 0 then 128 else if i == 1 then 64 else if i == 2 then 32 else if i == 3 then 16
    else if i == 4 then 8 else if i == 5 then 4 else if i == 6 then 2 else 1
  }

  lemma BitField(v: byte, i: nat, upper: nat, p: nat, lower: nat)
    requires i < 8 && p < 2 && lower < BitWeight(i) && v as int == (upper * 2 + p) * BitWeight(i) + lower
    ensures Field(v, i, 1) as int == p
  {
    hide BitWeight, Field;
    UpperFields(upper * 2 + p, BitWeight(i), lower);
    ShiftBit(v, i);
    OddOf(upper, p);
  }

  lemma ShiftBit(v: byte, i: nat)
    requires i < 8
    ensures Field(v, i, 1) as int == v / BitWeight(i) % 2
  {
  }

  lemma OddOf(upper: nat, p: nat)
    requires p < 2
    ensures (upper * 2 + p) % 2 == p
  {
  }

  lemma FieldOfBits(a: nat, b: nat, c: nat, d: nat, e: nat, f: nat, g: nat, h: nat, i: nat)
    requires a < 2 && b < 2 && c < 2 && d < 2 && e < 2 && f < 2 && g < 2 && h < 2 && i < 8
    ensures Field(a * 128 + b * 64 + c * 32 + d * 16 + e * 8 + f * 4 + g * 2 + h, i, 1)
            == if i == 0 then a else if i == 1 then b else if i == 2 then c else if i == 3 then d
               else if i == 4 then e else if i == 5 then f else if i == 6 then g else h
  {
    hide Field;
    var v: byte := a * 128 + b * 64 + c * 32 + d * 16 + e * 8 + f * 4 + g * 2 + h;
    if i == 0 {
      BitField(v, i, 0, a, v - a * 128);
    } else if i == 1 {
      BitField(v, i, a, b, v - a * 128 - b * 64);
    } else if i == 2 {
      BitField(v, i, a * 2 + b, c, d * 16 + e * 8 + f * 4 + g * 2 + h);
    } else if i == 3 {
      BitField(v, i, a * 4 + b * 2 + c, d, e * 8 + f * 4 + g * 2 + h);
    } else if i == 4 {
      BitField(v, i, a * 8 + b * 4 + c * 2 + d, e, f * 4 + g * 2 + h);
    } else if i == 5 {
      BitField(v, i, a * 16 + b * 8 + c * 4 + d * 2 + e, f, g * 2 + h);
    } else if i == 6 {
      BitField(v, i, a * 32 + b * 16 + c * 8 + d * 4 + e * 2 + f, g, h);
    } else {
      BitField(v, i, a * 64 + b * 32 + c * 16 + d * 8 + e * 4 + f * 2 + g, h, 0);
    }
  }

  /** Unpacking a packed byte gives its pixels back, padding included. */
  lemma FieldOfPackByte(row: seq<nat>, x: nat, bpp: nat, i: nat)
    requires Packed(bpp) && (forall p <- row :: Fits(p, bpp)) && i < PerByte(bpp)
    ensures Field(PackByte(row, x, bpp), i, bpp) as int == PixelOr0(row, x + i, bpp)
  {
    hide Field, PixelOr0;
    if bpp == 4 {
      FieldOfNibbles(PixelOr0(row, x, bpp), PixelOr0(row, x + 1, bpp), i);
    } else if bpp == 2 {
      FieldOfPairs(PixelOr0(row, x, bpp), PixelOr0(row, x + 1, bpp), PixelOr0(row, x + 2, bpp),
                   PixelOr0(row, x + 3, bpp), i);
    } else {
      FieldOfBits(PixelOr0(row, x, bpp), PixelOr0(row, x + 1, bpp), PixelOr0(row, x + 2, bpp),
                  PixelOr0(row, x + 3, bpp), PixelOr0(row, x + 4, bpp), PixelOr0(row, x + 5, bpp),
                  PixelOr0(row, x + 6, bpp), PixelOr0(row, x + 7, bpp), i);
    }
  }

  /** The most significant bits of a byte are its first pixel and the least significant ones its last. */
  lemma FirstAndLastPixel(b: byte)
    ensures Field(b, 0, 1) as int == b / 128 && Field(b, 7, 1) as int == b % 2
    ensures Field(b, 0, 2) as int == b / 64 && Field(b, 3, 2) as int == b % 4
    ensures Field(b, 0, 4) as int == b / 16 && Field(b, 1, 4) as int == b % 16
  {
  }

  /** Byte `k` of packed row `y`. */
  lemma {:induction false} PackAt(rows: seq<seq<nat>>, width: nat, bpp: nat, y: nat, k: nat)
    requires Packed(bpp) && WellSized(rows, width, bpp) && y < |rows| && k < Stride(width, bpp)
    ensures rows[y] in rows
    ensures y * Stride(width, bpp) + k < |Pack(rows, width, bpp)|
    ensures Pack(rows, width, bpp)[y * Stride(width, bpp) + k] == PackByte(rows[y], k * PerByte(bpp), bpp)
  {
    hide PackByte, Stride, PerByte, Pack, PackRow, RowOk;
    assert rows[y] in rows;
    var n := |rows| - 1;
    var stride := Stride(width, bpp);
    PackSnoc(rows, width, bpp);
    NextByte(y, |rows|, stride);
    NextByte(n, |rows|, stride);
    if y < n {
      NextByte(y, n, stride);
      PackAt(rows[..n], width, bpp, y, k);
    } else {
      PackedByte(rows[n], stride, bpp, k);
    }
  }

  lemma PackedByte(row: seq<nat>, n: nat, bpp: nat, k: nat)
    requires Packed(bpp) && (forall p <- row :: Fits(p, bpp)) && k < n
    ensures PackRow(row, n, bpp)[k] == PackByte(row, k * PerByte(bpp), bpp)
  {
    hide PackByte;
  }

  /** The last row comes after the others. */
  lemma PackSnoc(rows: seq<seq<nat>>, width: nat, bpp: nat)
    requires Packed(bpp) && WellSized(rows, width, bpp) && rows != []
    ensures var front, last := rows[..|rows| - 1], rows[|rows| - 1];
            && WellSized(front, width, bpp) && (forall p <- last :: Fits(p, bpp))
            && Pack(rows, width, bpp) == Pack(front, width, bpp) + PackRow(last, Stride(width, bpp), bpp)
  {
    hide PackByte, Stride, PerByte, PackRow;
    var front, last := rows[..|rows| - 1], rows[|rows| - 1];
    assert forall row <- front :: row in rows;
    assert last in rows;
  }

  /** Pixel `x` lies in a byte of its row. */
  lemma ByteInRow(x: nat, width: nat, bpp: nat)
    requires Packed(bpp) && x < width
    ensures ByteOf(x, bpp) < Stride(width, bpp)
    ensures ByteOf(x, bpp) * PerByte(bpp) + FieldOf(x, bpp) == x
  {
    if bpp == 1 {
    } else if bpp == 2 {
    } else {
    }
  }

  /**
    Unpacking inverts packing: for every image of any width and height, the
    output of `ExpandPalette` on its packing is the image, pixel by pixel,
    partial last bytes included.
   */
  lemma UnpackInvertsPack(dst: seq<byte>, rows: seq<seq<nat>>, width: nat, bpp: nat, y: nat, x: nat)
    requires Packed(bpp) && WellSized(rows, width, bpp)
    requires ImageUnpacked(dst, Pack(rows, width, bpp), width, |rows|, bpp)
    requires y < |rows| && x < width
    ensures rows[y] in rows && y * width + x < |dst|
    ensures dst[y * width + x] as int == rows[y][x]
  {
    hide Field, PackByte, Stride, PerByte, ByteOf, FieldOf, Pack;
    var src := Pack(rows, width, bpp);
    assert rows[y] in rows;
    assert RowUnpacked(dst, src, y * width, y * Stride(width, bpp), width, bpp);
    ByteInRow(x, width, bpp);
    PackAt(rows, width, bpp, y, ByteOf(x, bpp));
    FieldOfPackByte(rows[y], ByteOf(x, bpp) * PerByte(bpp), bpp, FieldOf(x, bpp));
  }
}
