/**
 What the CRC engine computes, for every width, type, polynomial, initial value,
 final XOR and choice of reflections, stated through the bit-serial register.
 */
module CrcModel {
  import opened Words
  import opened Division

  /** CRC::Parameters<CRCType, CRCWidth>; CRCType is a word of `digits` bits. */
  datatype Parameters = Parameters(digits: nat, width: nat, polynomial: Word, initialValue: Word, finalXOR: Word,
                                   reflectInput: bool, reflectOutput: bool) {
    /** The static_assert of the source: the type holds the width, and has at least CHAR_BIT digits. */
    predicate Valid() {
      && 1 <= width <= digits
      && 8 <= digits
      && |polynomial| == |initialValue| == |finalXOR| == digits
    }

    predicate ReflectsAtEnd() { reflectInput != reflectOutput }
  }

  /** BIT_MASK: the low `width` bits of a type of `digits` bits. */
  function BitMask(width: nat, digits: nat): (w: Word)
    requires width <= digits
    ensures |w| == digits
  {
    Ones(width) + Zeros(digits - width)
  }

  /** No bit of `v` lies above the width. */
  predicate InMask(v: Word, width: nat)
    requires width <= |v|
  {
    v[width..] == Zeros(|v| - width)
  }

  lemma {:induction false} AndMask(v: Word, width: nat)
    requires width <= |v|
    ensures And(v, BitMask(width, |v|)) == v[..width] + Zeros(|v| - width)
    ensures And(v, BitMask(width, |v|))[..width] == v[..width]
    ensures InMask(And(v, BitMask(width, |v|)), width)
    ensures InMask(v, width) <==> And(v, BitMask(width, |v|)) == v
  {
    var m := And(v, BitMask(width, |v|));
    assert m == v[..width] + Zeros(|v| - width);
    assert v == v[..width] + v[width..];
    assert m[width..] == Zeros(|v| - width);
  }

  // ---------------------------------------------------------------- streams

  /** The order in which the bits of the bytes enter the register. */
  function Stream(data: seq<Byte>, lowestFirst: bool): (bits: Word)
    ensures |bits| == 8 * |data|
  {
    if data == [] then []
    else
      var n := |data| - 1;
      Stream(data[..n], lowestFirst) + Entering(data[n], lowestFirst)
  }

  /** The bits of one byte in stream order. */
  function Entering(b: Byte, lowestFirst: bool): (bits: Word)
    ensures |bits| == 8
  {
    if lowestFirst then b else Rev(b)
  }

  lemma {:induction false} StreamSnoc(data: seq<Byte>, init: seq<Byte>, last: Byte, lowestFirst: bool)
    requires data == init + [last]
    ensures Stream(data, lowestFirst) == Stream(init, lowestFirst) + Entering(last, lowestFirst)
  {
    assert data[..|init|] == init;
  }

  lemma {:induction false} StreamConcat(a: seq<Byte>, b: seq<Byte>, lowestFirst: bool)
    ensures Stream(a + b, lowestFirst) == Stream(a, lowestFirst) + Stream(b, lowestFirst)
    decreases |b|
  {
    if b == [] {
      assert a + b == a;
    } else {
      var c, last := b[..|b| - 1], b[|b| - 1];
      StreamConcat(a, c, lowestFirst);
      var s, t, x := Stream(a, lowestFirst), Stream(c, lowestFirst), Entering(last, lowestFirst);
      assert Stream(a + b, lowestFirst) == (s + t) + x by {
        assert a + b == (a + c) + [last];
        StreamSnoc(a + b, a + c, last, lowestFirst);
      }
      assert Stream(b, lowestFirst) == t + x;
      assert (s + t) + x == s + (t + x);
    }
  }

  /** Bit i of byte k sits at stream position 8k + i, or 8k + 7 - i when the highest bit goes first. */
  lemma {:induction false} StreamAt(data: seq<Byte>, lowestFirst: bool, k: nat, i: nat)
    requires k < |data| && i < 8
    ensures 8 * k + 7 < |Stream(data, lowestFirst)|
    ensures Stream(data, lowestFirst)[8 * k + (if lowestFirst then i else 7 - i)] == data[k][i]
    decreases |data|
  {
    var n := |data| - 1;
    if k < n {
      StreamAt(data[..n], lowestFirst, k, i);
    }
  }

  lemma {:induction false} StreamInjective(a: seq<Byte>, b: seq<Byte>, lowestFirst: bool)
    requires Stream(a, lowestFirst) == Stream(b, lowestFirst)
    ensures a == b
  {
    assert |a| == |b|;
    forall k | 0 <= k < |a| ensures a[k] == b[k] {
      forall i | 0 <= i < 8 ensures a[k][i] == b[k][i] {
        StreamAt(a, lowestFirst, k, i);
        StreamAt(b, lowestFirst, k, i);
      }
    }
  }

  /** The data as a polynomial: the last byte holds the lowest coefficients. */
  function DataPolynomial(data: seq<Byte>): (m: Word)
    ensures |m| == 8 * |data|
  {
    if data == [] then [] else data[|data| - 1] + DataPolynomial(data[..|data| - 1])
  }

  function ReverseEach(data: seq<Byte>): (r: seq<Byte>)
    ensures |r| == |data|
    ensures forall i {:trigger r[i]} :: 0 <= i < |data| ==> r[i] == Rev(data[i])
  {
    seq(|data|, i requires 0 <= i < |data| => Rev(data[i]))
  }

  lemma {:induction false} StreamIsPolynomial(data: seq<Byte>)
    ensures Rev(Stream(data, false)) == DataPolynomial(data)
    ensures Stream(data, true) == Stream(ReverseEach(data), false)
    decreases |data|
  {
    if data == [] {
    } else {
      var n := |data| - 1;
      StreamIsPolynomial(data[..n]);
      RevConcat(Stream(data[..n], false), Rev(data[n]));
      RevConcat(data[n], []);
      assert ReverseEach(data)[..n] == ReverseEach(data[..n]);
    }
  }

  // ---------------------------------------------------------------- the register

  /**
   CalculateRemainder on words of the C type. Without input reflection only the low `width`
   bits are ever observed and only they are specified. With it, the type's bits read backwards
   are a register of `digits` bits whose divisor is the polynomial scaled to the top.
   */
  function Remainder(p: Parameters, data: seq<Byte>, r: Word): (w: Word)
    requires p.Valid() && |r| == p.digits
    ensures |w| == p.digits
  {
    if p.reflectInput then Rev(Divide(ScaledPolynomial(p), Rev(r), Stream(data, true)))
    else Divide(p.polynomial[..p.width], r[..p.width], Stream(data, false)) + Zeros(p.digits - p.width)
  }

  function ScaledPolynomial(p: Parameters): (w: Word)
    requires p.Valid()
    ensures |w| == p.digits
  {
    Zeros(p.digits - p.width) + p.polynomial[..p.width]
  }

  /** `value` with its low n bits reversed and the others cleared. */
  function Reflected(value: Word, n: nat): (w: Word)
    requires n <= |value|
    ensures |w| == |value|
  {
    Rev(value[..n]) + Zeros(|value| - n)
  }

  /** The low bits read backwards when `reflect` is set: the value Reflect leaves in the low bits. */
  function Turn(v: Word, reflect: bool): (w: Word)
    ensures |w| == |v|
  {
    if reflect then Rev(v) else v
  }

  /** Finalize. */
  function Finalized(p: Parameters, r: Word): (w: Word)
    requires p.Valid() && |r| == p.digits
    ensures |w| == p.digits
  {
    Xor(Turn(r[..p.width], p.ReflectsAtEnd()), p.finalXOR[..p.width]) + Zeros(p.digits - p.width)
  }

  /** UndoFinalize. Without reflection the final XOR's bits above the width come back. */
  function Unfinalized(p: Parameters, crc: Word): (w: Word)
    requires p.Valid() && |crc| == p.digits
    ensures |w| == p.digits
  {
    var low := Xor(crc[..p.width], p.finalXOR[..p.width]);
    if p.ReflectsAtEnd() then Rev(low) + Zeros(p.digits - p.width)
    else low + p.finalXOR[p.width..]
  }

  /** CRC::Calculate. */
  function Checksum(p: Parameters, data: seq<Byte>): (w: Word)
    requires p.Valid()
    ensures |w| == p.digits
  {
    Finalized(p, Remainder(p, data, p.initialValue))
  }

  /** CRC::Calculate continuing from an earlier CRC. */
  function Continued(p: Parameters, data: seq<Byte>, crc: Word): (w: Word)
    requires p.Valid() && |crc| == p.digits
    ensures |w| == p.digits
  {
    Finalized(p, Remainder(p, data, Unfinalized(p, crc)))
  }

  // ---------------------------------------------------------------- the register of exactly `width` bits

  /** The start value as the register of `width` bits sees it. */
  function Start(p: Parameters, r: Word): (w: Word)
    requires p.Valid() && |r| == p.digits
    ensures |w| == p.width
  {
    Turn(r[..p.width], p.reflectInput)
  }

  lemma {:induction false} RevPad(r: Word, width: nat)
    requires width <= |r| && InMask(r, width)
    ensures Rev(r) == Zeros(|r| - width) + Rev(r[..width])
  {
    assert r == r[..width] + Zeros(|r| - width);
    RevConcat(r[..width], Zeros(|r| - width));
    RevZeros(|r| - width);
  }

  lemma {:induction false} ReflectedRegister(poly: Word, r: Word, bits: Word)
    requires 0 < |poly| <= |r| && InMask(r, |poly|)
    ensures Rev(Divide(Zeros(|r| - |poly|) + poly, Rev(r), bits))
         == Rev(Divide(poly, Rev(r[..|poly|]), bits)) + Zeros(|r| - |poly|)
  {
    var k := |r| - |poly|;
    RevPad(r, |poly|);
    DivideEmbed(poly, Rev(r[..|poly|]), bits, k);
    RevConcat(Zeros(k), Divide(poly, Rev(r[..|poly|]), bits));
    RevZeros(k);
  }

  /**
   Both kinds of input are one register of `width` bits: reflecting the input reads each byte
   lowest bit first and keeps the register backwards.
   */
  lemma {:induction false} RemainderIsRegister(p: Parameters, data: seq<Byte>, r: Word)
    requires p.Valid() && |r| == p.digits
    requires p.reflectInput ==> InMask(r, p.width)
    ensures Remainder(p, data, r)[..p.width]
         == Turn(Divide(p.polynomial[..p.width], Start(p, r), Stream(data, p.reflectInput)), p.reflectInput)
    ensures InMask(Remainder(p, data, r), p.width)
  {
    if p.reflectInput {
      ReflectedRegister(p.polynomial[..p.width], r, Stream(data, true));
    }
  }

  /** Only the low bits of a start value matter to an unreflected remainder. */
  lemma {:induction false} RemainderLow(p: Parameters, data: seq<Byte>, r: Word, s: Word)
    requires p.Valid() && !p.reflectInput && |r| == |s| == p.digits && r[..p.width] == s[..p.width]
    ensures Remainder(p, data, r) == Remainder(p, data, s)
  {
  }
}
