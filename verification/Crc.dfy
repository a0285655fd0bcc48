/**
 The CRC engine as the source runs it: loops over bytes and bits on words of the C type,
 a 256-entry table filled once, and the four Calculate entry points.
 */
module Crc {
  import opened Words
  import opened Division
  import opened CrcModel
  
  // ---------------------------------------------------------------- the bit-by-bit engine

  /** Reflect: the low bits of the value read backwards. */
  method Reflect(value: Word, numBits: nat) returns (reversedValue: Word)
    requires numBits <= |value|
    ensures reversedValue == Reflected(value, numBits)
  {
    var n := |value|;
    var v := value;
    reversedValue := Zeros(n);
    var one := Cast([true], n);
    var i := 0;
    while i < numBits
      invariant i <= numBits
      invariant v == Shr(value, i)
      invariant reversedValue == Reflected(value, i)
    {
      ghost var before := reversedValue;
      reversedValue := Or(Shl(reversedValue, 1), And(v, one));
      ReflectStep(value, i);
      v := Shr(v, 1);
      i := i + 1;
    }
  }

  function Or(a: Word, b: Word): (w: Word)
    requires |a| == |b|
    ensures |w| == |a|
    ensures forall i {:trigger w[i]} :: 0 <= i < |w| ==> w[i] == (a[i] || b[i])
  {
    seq(|a|, i requires 0 <= i < |a| => a[i] || b[i])
  }

  lemma {:induction false} ReflectStep(value: Word, i: nat)
    requires i < |value|
    ensures Or(Shl(Reflected(value, i), 1), And(Shr(value, i), Cast([true], |value|))) == Reflected(value, i + 1)
    ensures Shr(Shr(value, i), 1) == Shr(value, i + 1)
  {
    var n := |value|;
    var lhs, rhs := Or(Shl(Reflected(value, i), 1), And(Shr(value, i), Cast([true], n))), Reflected(value, i + 1);
    forall k | 0 <= k < n ensures lhs[k] == rhs[k] {
    }
  }

  /** Eight steps of the reflected loop on a remainder into which the byte has been XORed. */
  method ReflectedByte(p: Parameters, polynomial: Word, r: Word, b: Byte) returns (remainder: Word)
    requires p.Valid() && |r| == p.digits && polynomial == Reflected(p.polynomial, p.width)
    ensures |remainder| == p.digits
    ensures Rev(remainder) == Divide(ScaledPolynomial(p), Rev(r), b)
  {
    remainder := Xor(r, Cast(b, p.digits));
    ghost var start := Rev(remainder);
    var i := 0;
    while i < 8
      invariant i <= 8 && |remainder| == p.digits
      invariant Rev(remainder) == Divide(ScaledPolynomial(p), start, Zeros(i))
    {
      ReflectedStep(p, remainder);
      FeedOneMore(ScaledPolynomial(p), start, i);
      remainder := if remainder[0] then Xor(Shr(remainder, 1), polynomial) else Shr(remainder, 1);
      i := i + 1;
    }
    LoadReflected(r, b);
    Preload(ScaledPolynomial(p), Rev(r), b);
  }

  lemma {:induction false} FeedOneMore(q: Word, r: Word, i: nat)
    requires |q| == |r| > 0
    ensures Divide(q, r, Zeros(i + 1)) == Feed(q, Divide(q, r, Zeros(i)), false)
  {
    assert Zeros(i + 1)[..i] == Zeros(i);
  }

  lemma {:induction false} ReflectedStep(p: Parameters, r: Word)
    requires p.Valid() && |r| == p.digits
    ensures Rev(if r[0] then Xor(Shr(r, 1), Reflected(p.polynomial, p.width)) else Shr(r, 1))
         == Feed(ScaledPolynomial(p), Rev(r), false)
  {
    var n := |r|;
    var q := Reflected(p.polynomial, p.width);
    assert Rev(Shr(r, 1)) == [false] + Rev(r)[..n - 1];
    RevXor(Shr(r, 1), q);
    RevConcat(Rev(p.polynomial[..p.width]), Zeros(n - p.width));
    RevConcat(p.polynomial[..p.width], []);
    RevZeros(n - p.width);
  }

  lemma {:induction false} LoadReflected(r: Word, b: Byte)
    requires |r| >= 8
    ensures Rev(Xor(r, Cast(b, |r|))) == Xor(Rev(r), Load(b, |r|))
  {
    RevXor(r, Cast(b, |r|));
    RevConcat(b, Zeros(|r| - 8));
    RevZeros(|r| - 8);
  }

  /**
   Eight steps of an unreflected loop that tests bit `top - 1` of a word that may carry
   leftovers above it: the low `top` bits are the register.
   */
  method UnreflectedByte(poly: Word, top: nat, r: Word, b: Word) returns (remainder: Word)
    requires 8 <= top <= |r| && |poly| == |r| == |b|
    requires InMask(b, top) && b[..top - 8] == Zeros(top - 8)
    ensures |remainder| == |r|
    ensures remainder[..top] == Divide(poly[..top], r[..top], Rev(b[top - 8..top]))
  {
    remainder := Xor(r, b);
    ghost var start := remainder[..top];
    var i := 0;
    while i < 8
      invariant i <= 8 && |remainder| == |r|
      invariant remainder[..top] == Divide(poly[..top], start, Zeros(i))
    {
      UnreflectedStep(poly, top, remainder);
      FeedOneMore(poly[..top], start, i);
      remainder := if remainder[top - 1] then Xor(Shl(remainder, 1), poly) else Shl(remainder, 1);
      i := i + 1;
    }
    LoadUnreflected(r, b, top);
    Preload(poly[..top], r[..top], Rev(b[top - 8..top]));
  }

  lemma {:induction false} UnreflectedStep(poly: Word, top: nat, r: Word)
    requires 0 < top <= |r| == |poly|
    ensures (if r[top - 1] then Xor(Shl(r, 1), poly) else Shl(r, 1))[..top] == Feed(poly[..top], r[..top], false)
  {
    assert Shl(r, 1)[..top] == [false] + r[..top][..top - 1];
    assert Xor(Shl(r, 1), poly)[..top] == Xor(Shl(r, 1)[..top], poly[..top]);
  }

  lemma {:induction false} LoadUnreflected(r: Word, b: Word, top: nat)
    requires 8 <= top <= |r| == |b|
    requires b[..top - 8] == Zeros(top - 8)
    ensures Xor(r, b)[..top] == Xor(r[..top], Load(Rev(b[top - 8..top]), top))
  {
    RevConcat(b[top - 8..top], []);
    assert b[..top] == b[..top - 8] + b[top - 8..top];
    assert Xor(r, b)[..top] == Xor(r[..top], b[..top]);
  }

  /** CalculateRemainder, bit by bit. Bits above the width of an unreflected remainder are leftovers. */
  method CalculateRemainder(data: seq<Byte>, p: Parameters, start: Word) returns (remainder: Word)
    requires p.Valid() && |start| == p.digits
    ensures |remainder| == p.digits
    ensures remainder[..p.width] == Remainder(p, data, start)[..p.width]
    ensures p.reflectInput ==> remainder == Remainder(p, data, start)
  {
    remainder := start;
    var k := 0;
    if p.reflectInput {
      var polynomial := Reflect(p.polynomial, p.width);
      assert data[..0] == [];
      while k < |data|
        invariant k <= |data| && |remainder| == p.digits
        invariant Rev(remainder) == Divide(ScaledPolynomial(p), Rev(start), Stream(data[..k], true))
      {
        StreamPrefix(data, k, true);
        DivideConcat(ScaledPolynomial(p), Rev(start), Stream(data[..k], true), data[k]);
        remainder := ReflectedByte(p, polynomial, remainder, data[k]);
        k := k + 1;
      }
      assert data[..k] == data;
      RevConcat(remainder, []);
    } else if p.width >= 8 {
      assert data[..0] == [];
      while k < |data|
        invariant k <= |data| && |remainder| == p.digits
        invariant remainder[..p.width] == Divide(p.polynomial[..p.width], start[..p.width], Stream(data[..k], false))
      {
        StreamPrefix(data, k, false);
        DivideConcat(p.polynomial[..p.width], start[..p.width], Stream(data[..k], false), Rev(data[k]));
        ByteAtTop(data[k], p.digits, p.width);
        remainder := UnreflectedByte(p.polynomial, p.width, remainder, Shl(Cast(data[k], p.digits), p.width - 8));
        k := k + 1;
      }
      assert data[..k] == data;
    } else {
      var shift := 8 - p.width;
      var polynomial := Shl(p.polynomial, shift);
      remainder := Shl(remainder, shift);
      ghost var r0 := remainder[..8];
      assert data[..0] == [];
      while k < |data|
        invariant k <= |data| && |remainder| == p.digits
        invariant remainder[..8] == Divide(polynomial[..8], r0, Stream(data[..k], false))
      {
        StreamPrefix(data, k, false);
        DivideConcat(polynomial[..8], r0, Stream(data[..k], false), Rev(data[k]));
        ByteAtTop(data[k], p.digits, 8);
        remainder := UnreflectedByte(polynomial, 8, remainder, Cast(data[k], p.digits));
        k := k + 1;
      }
      assert data[..k] == data;
      NarrowRegister(p, start, Stream(data, false));
      assert Shr(remainder, shift)[..p.width] == remainder[..8][shift..];
      remainder := Shr(remainder, shift);
    }
  }

  lemma {:induction false} StreamPrefix(data: seq<Byte>, k: nat, lowestFirst: bool)
    requires k < |data|
    ensures Stream(data[..k + 1], lowestFirst) == Stream(data[..k], lowestFirst) + Entering(data[k], lowestFirst)
  {
    assert data[..k + 1] == data[..k] + [data[k]];
    StreamSnoc(data[..k + 1], data[..k], data[k], lowestFirst);
  }

  /** A byte shifted to the top of a register of `top` bits. */
  lemma {:induction false} ByteAtTop(b: Byte, digits: nat, top: nat)
    requires 8 <= top <= digits
    ensures var w := Shl(Cast(b, digits), top - 8);
            InMask(w, top) && w[..top - 8] == Zeros(top - 8) && w[top - 8..top] == b
    ensures Shl(Cast(b, digits), 0) == Cast(b, digits)
  {
    var w := Shl(Cast(b, digits), top - 8);
    assert w == Zeros(top - 8) + b + Zeros(digits - top);
  }

  /** Below eight bits the register sits at the top of a byte, scaled by a power of x. */
  lemma {:induction false} NarrowRegister(p: Parameters, start: Word, bits: Word)
    requires p.Valid() && p.width < 8 && |start| == p.digits
    ensures Divide(Shl(p.polynomial, 8 - p.width)[..8], Shl(start, 8 - p.width)[..8], bits)
         == Zeros(8 - p.width) + Divide(p.polynomial[..p.width], start[..p.width], bits)
  {
    var s := 8 - p.width;
    assert Shl(p.polynomial, s)[..8] == Zeros(s) + p.polynomial[..p.width];
    assert Shl(start, s)[..8] == Zeros(s) + start[..p.width];
    DivideEmbed(p.polynomial[..p.width], start[..p.width], bits, s);
  }

  /** Finalize. */
  method Finalize(p: Parameters, r: Word) returns (crc: Word)
    requires p.Valid() && |r| == p.digits
    ensures crc == Finalized(p, r)
  {
    var remainder := r;
    if p.ReflectsAtEnd() {
      remainder := Reflect(remainder, p.width);
    }
    crc := And(Xor(remainder, p.finalXOR), BitMask(p.width, p.digits));
    AndMask(Xor(remainder, p.finalXOR), p.width);
    assert remainder[..p.width] == Turn(r[..p.width], p.ReflectsAtEnd());
    assert Xor(remainder, p.finalXOR)[..p.width] == Xor(remainder[..p.width], p.finalXOR[..p.width]);
  }

  /** UndoFinalize. */
  method UndoFinalize(p: Parameters, value: Word) returns (remainder: Word)
    requires p.Valid() && |value| == p.digits
    ensures remainder == Unfinalized(p, value)
  {
    var crc := Xor(And(value, BitMask(p.width, p.digits)), p.finalXOR);
    AndMask(value, p.width);
    MaskedXor(value, p.finalXOR, p.width);
    if p.ReflectsAtEnd() {
      crc := Reflect(crc, p.width);
    }
    return crc;
  }

  lemma {:induction false} MaskedXor(value: Word, x: Word, width: nat)
    requires |value| == |x| && width <= |x|
    ensures var w := Xor(And(value, BitMask(width, |value|)), x);
            w == Xor(value[..width], x[..width]) + x[width..] && w[..width] == Xor(value[..width], x[..width])
  {
    var w := Xor(And(value, BitMask(width, |value|)), x);
    assert w[..width] == Xor(value[..width], x[..width]);
    assert w[width..] == x[width..];
    assert w == w[..width] + w[width..];
  }

  lemma {:induction false} FinalizedLow(p: Parameters, r: Word, s: Word)
    requires p.Valid() && |r| == |s| == p.digits && r[..p.width] == s[..p.width]
    ensures Finalized(p, r) == Finalized(p, s)
  {
  }

  method Calculate(data: seq<Byte>, p: Parameters) returns (crc: Word)
    requires p.Valid()
    ensures crc == Checksum(p, data)
  {
    var remainder := CalculateRemainder(data, p, p.initialValue);
    crc := Finalize(p, remainder);
    FinalizedLow(p, remainder, Remainder(p, data, p.initialValue));
  }

  method CalculateFrom(data: seq<Byte>, p: Parameters, previous: Word) returns (crc: Word)
    requires p.Valid() && |previous| == p.digits
    ensures crc == Continued(p, data, previous)
  {
    var start := UndoFinalize(p, previous);
    var remainder := CalculateRemainder(data, p, start);
    crc := Finalize(p, remainder);
    FinalizedLow(p, remainder, Remainder(p, data, start));
  }
}
