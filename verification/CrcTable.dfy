/**
 The table-driven engine: CRC::Table and the two Calculate overloads that use it.
 */
module CrcTable {
  import opened Words
  import opened Division
  import opened CrcModel
  import Crc

  /** What InitTable stores for a byte: the masked remainder of that byte alone, moved back up for narrow CRCs. */
  function Entry(p: Parameters, b: Byte): (w: Word)
    requires p.Valid()
    ensures |w| == p.digits
  {
    var crc := And(Remainder(p, [b], Zeros(p.digits)), BitMask(p.width, p.digits));
    if !p.reflectInput && p.width < 8 then Shl(crc, 8 - p.width) else crc
  }

  lemma {:induction false} StreamOfOne(b: Byte, lowestFirst: bool)
    ensures Stream([b], lowestFirst) == Entering(b, lowestFirst)
  {
    StreamSnoc([b], [], b, lowestFirst);
  }

  lemma {:induction false} EntryReflected(p: Parameters, b: Byte)
    requires p.Valid() && p.reflectInput
    ensures Rev(Entry(p, b)) == Divide(ScaledPolynomial(p), Zeros(p.digits), b)
  {
    var zero := Zeros(p.digits);
    StreamOfOne(b, true);
    assert InMask(zero, p.width);
    RemainderIsRegister(p, [b], zero);
    AndMask(Remainder(p, [b], zero), p.width);
    RevZeros(p.digits);
    RevConcat(Divide(ScaledPolynomial(p), zero, b), []);
  }

  lemma {:induction false} EntryWide(p: Parameters, b: Byte)
    requires p.Valid() && !p.reflectInput && p.width >= 8
    ensures Entry(p, b)[..p.width] == Divide(p.polynomial[..p.width], Zeros(p.width), Rev(b))
  {
    var zero := Zeros(p.digits);
    StreamOfOne(b, false);
    AndMask(Remainder(p, [b], zero), p.width);
    assert zero[..p.width] == Zeros(p.width);
  }

  lemma {:induction false} EntryNarrow(p: Parameters, b: Byte)
    requires p.Valid() && !p.reflectInput && p.width < 8
    ensures Entry(p, b)[..8] == Divide(Shl(p.polynomial, 8 - p.width)[..8], Zeros(8), Rev(b))
  {
    var zero, s := Zeros(p.digits), 8 - p.width;
    StreamOfOne(b, false);
    AndMask(Remainder(p, [b], zero), p.width);
    assert zero[..p.width] == Zeros(p.width);
    assert Shl(zero, s)[..8] == Zeros(8);
    Crc.NarrowRegister(p, zero, Rev(b));
    assert Entry(p, b)[..8] == Zeros(s) + Remainder(p, [b], zero)[..p.width];
  }

  lemma {:induction false} StepReflected(p: Parameters, r: Word, b: Byte)
    requires p.Valid() && p.reflectInput && |r| == p.digits
    ensures Rev(Xor(Shr(r, 8), Entry(p, Xor(r[..8], b)))) == Divide(ScaledPolynomial(p), Rev(r), b)
  {
    var e := Xor(r[..8], b);
    ByteAtATime(ScaledPolynomial(p), Rev(r), b);
    assert Rev(Rev(r)[p.digits - 8..]) == r[..8];
    EntryReflected(p, e);
    RevXor(Shr(r, 8), Entry(p, e));
    assert Rev(Shr(r, 8)) == Shl(Rev(r), 8);
  }

  lemma {:induction false} StepWide(p: Parameters, r: Word, b: Byte)
    requires p.Valid() && !p.reflectInput && p.width >= 8 && |r| == p.digits
    ensures Xor(Shl(r, 8), Entry(p, Xor(r[p.width - 8..p.width], b)))[..p.width]
         == Divide(p.polynomial[..p.width], r[..p.width], Rev(b))
  {
    var n := p.width;
    var top := r[n - 8..n];
    ByteAtATime(p.polynomial[..n], r[..n], Rev(b));
    assert r[..n][n - 8..] == top;
    RevXor(top, b);
    EntryWide(p, Xor(top, b));
    assert Shl(r, 8)[..n] == Shl(r[..n], 8);
    LowOfXor(Shl(r, 8), Entry(p, Xor(top, b)), n);
  }

  lemma {:induction false} LowOfXor(a: Word, b: Word, n: nat)
    requires |a| == |b| && n <= |a|
    ensures Xor(a, b)[..n] == Xor(a[..n], b[..n])
  {
  }

  lemma {:induction false} StepNarrow(p: Parameters, r: Word, b: Byte)
    requires p.Valid() && !p.reflectInput && p.width < 8 && |r| == p.digits
    ensures Entry(p, Xor(r[..8], b))[..8] == Divide(Shl(p.polynomial, 8 - p.width)[..8], r[..8], Rev(b))
  {
    var q := Shl(p.polynomial, 8 - p.width)[..8];
    ByteAtATime(q, r[..8], Rev(b));
    assert r[..8][8 - 8..] == r[..8];
    RevXor(r[..8], b);
    EntryNarrow(p, Xor(r[..8], b));
    assert Shl(r[..8], 8) == Zeros(8);
    XorZeros(Entry(p, Xor(r[..8], b))[..8]);
  }

  lemma {:induction false} DivideByte(q: Word, r0: Word, data: seq<Byte>, k: nat, lowestFirst: bool)
    requires |q| == |r0| > 0 && k < |data|
    ensures Divide(q, r0, Stream(data[..k + 1], lowestFirst))
         == Divide(q, Divide(q, r0, Stream(data[..k], lowestFirst)), Entering(data[k], lowestFirst))
  {
    Crc.StreamPrefix(data, k, lowestFirst);
    DivideConcat(q, r0, Stream(data[..k], lowestFirst), Entering(data[k], lowestFirst));
  }

  /** One iteration of each of the three table loops, with the index as the source computes it. */
  lemma {:induction false} AdvanceReflected(p: Parameters, r0: Word, data: seq<Byte>, k: nat, r: Word)
    requires p.Valid() && p.reflectInput && |r| == |r0| == p.digits && k < |data|
    requires Rev(r) == Divide(ScaledPolynomial(p), r0, Stream(data[..k], true))
    ensures Rev(Xor(Shr(r, 8), Entry(p, Cast(Xor(r, Cast(data[k], p.digits)), 8))))
         == Divide(ScaledPolynomial(p), r0, Stream(data[..k + 1], true))
  {
    DivideByte(ScaledPolynomial(p), r0, data, k, true);
    LowByte(r, data[k]);
    StepReflected(p, r, data[k]);
  }

  lemma {:induction false} AdvanceWide(p: Parameters, r0: Word, data: seq<Byte>, k: nat, r: Word)
    requires p.Valid() && !p.reflectInput && p.width >= 8 && |r| == p.digits && |r0| == p.width && k < |data|
    requires r[..p.width] == Divide(p.polynomial[..p.width], r0, Stream(data[..k], false))
    ensures Xor(Shl(r, 8), Entry(p, Cast(Xor(Shr(r, p.width - 8), Cast(data[k], p.digits)), 8)))[..p.width]
         == Divide(p.polynomial[..p.width], r0, Stream(data[..k + 1], false))
  {
    DivideByte(p.polynomial[..p.width], r0, data, k, false);
    assert Cast(Xor(Shr(r, p.width - 8), Cast(data[k], p.digits)), 8) == Xor(r[p.width - 8..p.width], data[k]) by {
      LowByte(Shr(r, p.width - 8), data[k]);
      assert Shr(r, p.width - 8)[..8] == r[p.width - 8..p.width];
    }
    StepWide(p, r, data[k]);
  }

  lemma {:induction false} AdvanceNarrow(p: Parameters, r0: Word, data: seq<Byte>, k: nat, r: Word)
    requires p.Valid() && !p.reflectInput && p.width < 8 && |r| == p.digits && |r0| == 8 && k < |data|
    requires r[..8] == Divide(Shl(p.polynomial, 8 - p.width)[..8], r0, Stream(data[..k], false))
    ensures Entry(p, Cast(Xor(r, Cast(data[k], p.digits)), 8))[..8]
         == Divide(Shl(p.polynomial, 8 - p.width)[..8], r0, Stream(data[..k + 1], false))
  {
    DivideByte(Shl(p.polynomial, 8 - p.width)[..8], r0, data, k, false);
    LowByte(r, data[k]);
    StepNarrow(p, r, data[k]);
  }

  /** The body of InitTable's loop. */
  method RemainderOfByte(p: Parameters, b: Byte) returns (crc: Word)
    requires p.Valid()
    ensures crc == Entry(p, b)
  {
    crc := Crc.CalculateRemainder([b], p, Zeros(p.digits));
    MaskedEqual(crc, Remainder(p, [b], Zeros(p.digits)), p.width);
    crc := And(crc, BitMask(p.width, p.digits));
    if !p.reflectInput && p.width < 8 {
      crc := Shl(crc, 8 - p.width);
    }
  }

  /** The loop counter as the unsigned char it is. */
  method ToByte(n: nat) returns (b: Byte)
    requires n < 256
    ensures ToNat(b) == n && forall c: Byte :: ToNat(c) == n ==> c == b
  {
    b := ByteOf(n);
    assert Pow2(4) == 16;
    ToFromNat(n, 8);
    forall c: Byte | ToNat(c) == n ensures c == b {
      ByteToNat(c);
    }
  }

  /** CRC::Table<CRCType, CRCWidth>. */
  class Table {
    const parameters: Parameters
    const table: array<Word>

    ghost predicate Valid()
      reads table
    {
      parameters.Valid() && table.Length == 256 && FilledBelow(256)
    }

    ghost predicate FilledBelow(n: nat)
      requires parameters.Valid() && n <= table.Length
      reads table
    {
      forall b: Byte :: ToNat(b) < n ==> table[ToNat(b)] == Entry(parameters, b)
    }

    constructor (parameters: Parameters)
      requires parameters.Valid()
      ensures Valid() && fresh(table) && this.parameters == parameters
    {
      this.parameters := parameters;
      table := new Word[256](_ => []);
      new;
      InitTable();
    }

    /** Runs the bit-by-bit engine once for each byte; the counter is an unsigned char that wraps to 0. */
    method InitTable()
      requires parameters.Valid() && table.Length == 256
      modifies table
      ensures Valid()
    {
      var n := 0;
      var again := true;
      while again
        invariant 0 <= n < 256 && (again || n == 0)
        invariant FilledBelow(if again then n else 256)
        decreases if again then 256 - n else 0
      {
        StoreEntry(n);
        n := (n + 1) % 256;
        again := n != 0;
      }
    }

    method StoreEntry(n: nat)
      requires parameters.Valid() && n < 256 == table.Length && FilledBelow(n)
      modifies table
      ensures FilledBelow(n + 1)
    {
      var b := ToByte(n);
      var entry := RemainderOfByte(parameters, b);
      table[n] := entry;
    }

    /** operator[]: the index is an unsigned char. */
    method At(index: Byte) returns (w: Word)
      requires Valid()
      ensures w == Entry(parameters, index)
    {
      ByteToNat(index);
      w := table[ToNat(index)];
    }

    method ReflectedLoop(data: seq<Byte>, start: Word) returns (remainder: Word)
      requires Valid() && parameters.reflectInput && |start| == parameters.digits
      ensures remainder == Remainder(parameters, data, start)
    {
      var p := parameters;
      remainder := start;
      var k := 0;
      assert data[..0] == [];
      while k < |data|
        invariant k <= |data| && |remainder| == p.digits
        invariant Rev(remainder) == Divide(ScaledPolynomial(p), Rev(start), Stream(data[..k], true))
      {
        AdvanceReflected(p, Rev(start), data, k, remainder);
        var entry := At(Cast(Xor(remainder, Cast(data[k], p.digits)), 8));
        remainder := Xor(Shr(remainder, 8), entry);
        k := k + 1;
      }
      assert data[..k] == data;
      RevConcat(remainder, []);
    }

    method WideLoop(data: seq<Byte>, start: Word) returns (remainder: Word)
      requires Valid() && !parameters.reflectInput && parameters.width >= 8 && |start| == parameters.digits
      ensures |remainder| == parameters.digits
      ensures remainder[..parameters.width] == Remainder(parameters, data, start)[..parameters.width]
    {
      var p := parameters;
      remainder := start;
      ghost var poly, r0 := p.polynomial[..p.width], start[..p.width];
      var shift := p.width - 8;
      var k := 0;
      assert data[..0] == [];
      while k < |data|
        invariant k <= |data| && |remainder| == p.digits
        invariant remainder[..p.width] == Divide(poly, r0, Stream(data[..k], false))
      {
        AdvanceWide(p, r0, data, k, remainder);
        var entry := At(Cast(Xor(Shr(remainder, shift), Cast(data[k], p.digits)), 8));
        remainder := Xor(Shl(remainder, 8), entry);
        k := k + 1;
      }
      assert data[..k] == data;
    }

    method NarrowLoop(data: seq<Byte>, start: Word) returns (remainder: Word)
      requires Valid() && !parameters.reflectInput && parameters.width < 8 && |start| == parameters.digits
      ensures |remainder| == parameters.digits
      ensures remainder[..parameters.width] == Remainder(parameters, data, start)[..parameters.width]
    {
      var p := parameters;
      var shift := 8 - p.width;
      remainder := Shl(start, shift);
      ghost var poly, r0 := Shl(p.polynomial, shift)[..8], remainder[..8];
      var k := 0;
      assert data[..0] == [];
      while k < |data|
        invariant k <= |data| && |remainder| == p.digits
        invariant remainder[..8] == Divide(poly, r0, Stream(data[..k], false))
      {
        AdvanceNarrow(p, r0, data, k, remainder);
        remainder := At(Cast(Xor(remainder, Cast(data[k], p.digits)), 8));
        k := k + 1;
      }
      assert data[..k] == data;
      Crc.NarrowRegister(p, start, Stream(data, false));
      assert Shr(remainder, shift)[..p.width] == remainder[..8][shift..];
      remainder := Shr(remainder, shift);
    }

    /** CalculateRemainder through the table. */
    method CalculateRemainder(data: seq<Byte>, start: Word) returns (remainder: Word)
      requires Valid() && |start| == parameters.digits
      ensures |remainder| == parameters.digits
      ensures remainder[..parameters.width] == Remainder(parameters, data, start)[..parameters.width]
      ensures parameters.reflectInput ==> remainder == Remainder(parameters, data, start)
    {
      if parameters.reflectInput {
        remainder := ReflectedLoop(data, start);
      } else if parameters.width >= 8 {
        remainder := WideLoop(data, start);
      } else {
        remainder := NarrowLoop(data, start);
      }
    }

    method Calculate(data: seq<Byte>) returns (crc: Word)
      requires Valid()
      ensures crc == Checksum(parameters, data)
    {
      var remainder := CalculateRemainder(data, parameters.initialValue);
      crc := Crc.Finalize(parameters, remainder);
      Crc.FinalizedLow(parameters, remainder, Remainder(parameters, data, parameters.initialValue));
    }

    method CalculateFrom(data: seq<Byte>, previous: Word) returns (crc: Word)
      requires Valid() && |previous| == parameters.digits
      ensures crc == Continued(parameters, data, previous)
    {
      var start := Crc.UndoFinalize(parameters, previous);
      var remainder := CalculateRemainder(data, start);
      crc := Crc.Finalize(parameters, remainder);
      Crc.FinalizedLow(parameters, remainder, Remainder(parameters, data, start));
    }
  }

  lemma {:induction false} MaskedEqual(a: Word, b: Word, width: nat)
    requires width <= |a| == |b| && a[..width] == b[..width]
    ensures And(a, BitMask(width, |a|)) == And(b, BitMask(width, |b|))
  {
    AndMask(a, width);
    AndMask(b, width);
  }

  lemma {:induction false} LowByte(r: Word, b: Byte)
    requires |r| >= 8
    ensures Cast(Xor(r, Cast(b, |r|)), 8) == Xor(r[..8], b)
  {
    assert Cast(b, |r|)[..8] == b;
    LowOfXor(r, Cast(b, |r|), 8);
    assert |r| == 8 ==> r[..8] == r && Xor(r, Cast(b, |r|)) + Zeros(0) == Xor(r, Cast(b, |r|));
  }
}
