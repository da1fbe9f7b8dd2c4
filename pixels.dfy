/** Packed pixels as QImage hands them out (0x..RRGGBB), and the rounding and
    clamping the colour engine applies before a channel is written back. */
module Pixels {

  /** A value a single 8-bit colour channel can hold. */
  predicate IsChannel(c: int) {
    0 <= c <= 255
  }

  /** `(p >> 16) & 0xFF`. For a positive divisor Dafny's division floors, as
      Python's right shift does, and the remainder is the low byte, so this
      agrees with the source for every integer p. */
  function Red(p: int): (c: int)
    ensures IsChannel(c)
  {
    (p / 0x1_0000) % 0x100
  }

  /** `(p >> 8) & 0xFF` */
  function Green(p: int): (c: int)
    ensures IsChannel(c)
  {
    (p / 0x100) % 0x100
  }

  /** `p & 0xFF` */
  function Blue(p: int): (c: int)
    ensures IsChannel(c)
  {
    p % 0x100
  }

  /** `(r << 16) | (g << 8) | b`; the three byte fields do not overlap, so the
      bitwise or is the sum (see ShiftOrIsSum). */
  function Pack(r: int, g: int, b: int): (p: int)
    requires IsChannel(r) && IsChannel(g) && IsChannel(b)
    ensures 0 <= p < 0x100_0000
  {
    r * 0x1_0000 + g * 0x100 + b
  }

  /** The shift-and-or packing of the source equals Pack's arithmetic on 32 bits.
      Nothing else uses it: it documents why Pack may be written as a sum. */
  lemma ShiftOrIsSum(r: bv32, g: bv32, b: bv32)
    requires r < 256 && g < 256 && b < 256
    ensures (r << 16) | (g << 8) | b == r * 0x1_0000 + g * 0x100 + b
  {
  }

  /** Unpacking a packed pixel gives back its three channels. */
  lemma {:induction false} UnpackPack(r: int, g: int, b: int)
    requires IsChannel(r) && IsChannel(g) && IsChannel(b)
    ensures Red(Pack(r, g, b)) == r
    ensures Green(Pack(r, g, b)) == g
    ensures Blue(Pack(r, g, b)) == b
  {
    var p := Pack(r, g, b);
    DivAdd(r, g * 0x100 + b, 0x1_0000);
    assert p / 0x1_0000 == r;
    DivAdd(r * 0x100 + g, b, 0x100);
    assert p == (r * 0x100 + g) * 0x100 + b;
    assert p / 0x100 == r * 0x100 + g;
    ModAdd(r, g, 0x100);
    ModAdd(r * 0x100 + g, b, 0x100);
  }

  /** Packing the channels of a pixel without alpha gives back the pixel. */
  lemma {:induction false} PackUnpack(p: int)
    requires 0 <= p < 0x100_0000
    ensures Pack(Red(p), Green(p), Blue(p)) == p
  {
    var hi, rest := p / 0x1_0000, p % 0x1_0000;
    var g, b := rest / 0x100, rest % 0x100;
    assert p == (hi * 0x100 + g) * 0x100 + b;
    DivAdd(hi * 0x100 + g, b, 0x100);
    ModAdd(hi, g, 0x100);
    assert Red(p) == hi && Green(p) == g && Blue(p) == b;
  }

  /** Division of q * d + rest by d, for a remainder below d. */
  lemma DivAdd(q: int, rest: int, d: int)
    requires d > 0 && 0 <= rest < d
    ensures (q * d + rest) / d == q && (q * d + rest) % d == rest
  {
    var n := q * d + rest;
    var q', r' := n / d, n % d;
    assert n == q' * d + r';
    assert (q - q') * d == r' - rest;
    if q > q' {
      MulMono(q - q', d);
    } else if q < q' {
      MulMono(q' - q, d);
    }
  }

  lemma MulMono(k: int, d: int)
    requires k >= 1 && d > 0
    ensures k * d >= d
  {
  }

  lemma ModAdd(q: int, rest: int, d: int)
    requires d > 0 && 0 <= rest < d
    ensures (q * d + rest) % d == rest
  {
    DivAdd(q, rest, d);
  }

  /** Python's round() on a float: the nearest integer, ties to the even one. */
  function Round(x: real): (n: int)
    ensures -0.5 <= n as real - x <= 0.5
    ensures (n as real - x == 0.5 || x - n as real == 0.5) ==> n % 2 == 0
  {
    var f := x.Floor;
    var frac := x - f as real;
    if frac < 0.5 then f
    else if frac > 0.5 then f + 1
    else if f % 2 == 0 then f
    else f + 1
  }

  /** A value that is already an integer rounds to itself. */
  lemma RoundOfInteger(n: int)
    ensures Round(n as real) == n
  {
  }

  function Min(a: int, b: int): int {
    if a <= b then a else b
  }

  function Max(a: int, b: int): int {
    if a >= b then a else b
  }

  /** `max(0, min(255, n))`: the channel value nearest to n. */
  function Clamp(n: int): (c: int)
    ensures IsChannel(c)
    ensures IsChannel(n) ==> c == n
    ensures n < 0 ==> c == 0
    ensures n > 255 ==> c == 255
  {
    Max(0, Min(255, n))
  }

  /** `max(0, min(255, round(v)))`, applied to every channel before it is written. */
  function ClampRound(v: real): (c: int)
    ensures IsChannel(c)
    ensures 0.0 <= v <= 255.0 ==> c == Round(v)
  {
    Clamp(Round(v))
  }
}
