/** Three-plane colours and the flat byte buffers that hold them. */
module Colors {
  import opened CArithmetic

  /** Bytes per pixel; every caller in `dither.c` passes 3. */
  const DEPTH := 3

  datatype Color = Color(c0: byte, c1: byte, c2: byte)

  function Plane(c: Color, n: nat): byte
    requires n < DEPTH
  {
    if n == 0 then c.c0 else if n == 1 then c.c1 else c.c2
  }

  function SetPlane(c: Color, n: nat, v: byte): (r: Color)
    requires n < DEPTH
    ensures forall k: nat | k < DEPTH :: Plane(r, k) == if k == n then v else Plane(c, k)
  {
    if n == 0 then c.(c0 := v) else if n == 1 then c.(c1 := v) else c.(c2 := v)
  }

  /** The colour stored at pixel (or palette entry) `pos` of a flat buffer. */
  function PixelAt(data: seq<byte>, pos: nat): Color
    requires DEPTH * pos + 2 < |data|
  {
    Color(data[DEPTH * pos], data[DEPTH * pos + 1], data[DEPTH * pos + 2])
  }

  // ---- the 15-bit bucket of a colour -------------------------------------

  const BUCKETS := 0x8000

  function Hash(p: Color): (h: nat)
    ensures h < BUCKETS
  {
    p.c0 / 8 * 1024 + p.c1 / 8 * 32 + p.c2 / 8
  }

  /** The colour that `computeHistogram` rebuilds from a bucket number. */
  function Decode(h: nat): Color
    requires h < BUCKETS
  {
    Color(h / 1024 % 32 * 8, h / 32 % 32 * 8, h % 32 * 8)
  }

  function Floor8(v: byte): byte { v / 8 * 8 }

  /** Decoding inverts `Hash` up to the three low bits of each component. */
  lemma DecodeHash(p: Color)
    ensures Decode(Hash(p)) == Color(Floor8(p.c0), Floor8(p.c1), Floor8(p.c2))
  {
    hide Hash;
    var a, b, c := p.c0 / 8, p.c1 / 8, p.c2 / 8;
    HashFields(p);
    FieldsOf(a, b, c);
  }

  lemma HashFields(p: Color)
    ensures Hash(p) == p.c0 / 8 * 1024 + p.c1 / 8 * 32 + p.c2 / 8
  {
  }

  /** The three five-bit fields of a number. */
  lemma FieldsOf(a: nat, b: nat, c: nat)
    requires a < 32 && b < 32 && c < 32
    ensures var h := a * 1024 + b * 32 + c; h / 1024 % 32 == a && h / 32 % 32 == b && h % 32 == c
  {
    var h := a * 1024 + b * 32 + c;
    assert h / 32 == a * 32 + b;
    assert h / 1024 == a;
  }

  lemma HashDecode(h: nat)
    requires h < BUCKETS
    ensures Hash(Decode(h)) == h
  {
    assert h / 1024 % 32 == h / 1024;
    assert h / 32 == h / 1024 * 32 + h / 32 % 32;
  }

  /** Two colours share a bucket exactly when they agree above the low three bits. */
  lemma SameBucket(p: Color, q: Color)
    ensures Hash(p) == Hash(q) <==>
            p.c0 / 8 == q.c0 / 8 && p.c1 / 8 == q.c1 / 8 && p.c2 / 8 == q.c2 / 8
  {
    DecodeHash(p);
    DecodeHash(q);
  }

  /** Distinct buckets decode to distinct colours. */
  lemma DecodeInjective(h: nat, k: nat)
    requires h < BUCKETS && k < BUCKETS && Decode(h) == Decode(k)
    ensures h == k
  {
    HashDecode(h);
    HashDecode(k);
  }

  /** `1 << k`. */
  function Power2(k: nat): (w: nat)
    ensures w > 0
  {
    if k == 0 then 1 else 2 * Power2(k - 1)
  }

  /** `a | b`, bit by bit. */
  function BitOr(a: nat, b: nat): nat
    decreases a + b
  {
    if a == 0 && b == 0 then 0
    else 2 * BitOr(a / 2, b / 2) + (if a % 2 == 1 || b % 2 == 1 then 1 else 0)
  }

  lemma {:induction false} OrZero(b: nat)
    ensures BitOr(0, b) == b
  {
    if b > 0 {
      OrZero(b / 2);
    }
  }

  /** Fields that do not overlap are added by the bitwise or. */
  lemma {:induction false} OrOfFields(low: nat, high: nat, k: nat)
    requires low < Power2(k)
    ensures BitOr(low, high * Power2(k)) == low + high * Power2(k)
    decreases k
  {
    if k == 0 {
      OrZero(high);
    } else {
      var b := high * Power2(k - 1);
      assert high * Power2(k) == 2 * b;
      OrOfFields(low / 2, high, k - 1);
      if low > 0 || b > 0 {
        assert BitOr(low, 2 * b) == 2 * BitOr(low / 2, b) + low % 2;
      }
    }
  }

  lemma FieldWeights()
    ensures Power2(0) == 1 && Power2(5) == 32 && Power2(10) == 1024
  {
    assert Power2(3) == 8;
    assert Power2(6) == 64;
    assert Power2(9) == 512;
  }

  /** `computeHash`, which shifts each component's top five bits into place. */
  method ComputeHash(pixel: Color) returns (hash: nat)
    ensures hash == Hash(pixel)
  {
    hide BitOr, Power2;
    hash := 0;
    var n := 0;
    FieldWeights();
    while n < DEPTH
      invariant 0 <= n <= DEPTH
      invariant n == 0 ==> hash == 0
      invariant n == 1 ==> hash == pixel.c2 / 8
      invariant n == 2 ==> hash == pixel.c1 / 8 * 32 + pixel.c2 / 8
      invariant n == 3 ==> hash == Hash(pixel)
    {
      OrOfFields(hash, Plane(pixel, DEPTH - 1 - n) / 8, n * 5);
      hash := BitOr(hash, Plane(pixel, DEPTH - 1 - n) / 8 * Power2(n * 5));
      n := n + 1;
    }
  }
}
