/**
 The laws of the CRC engine, for all data and all parameter sets.
 */
module CrcTheorems {
  import opened Words
  import opened Division
  import opened Polynomials
  import opened CrcModel

  // ---------------------------------------------------------------- the remainder

  /** data * x^W + r * x^(8n), as the register reads data and start value. */
  function DividendOf(p: Parameters, data: seq<Byte>, r: Word): (m: Word)
    requires p.Valid() && |r| == p.digits
    ensures |m| == p.width + 8 * |data|
  {
    Xor(Zeros(p.width) + DataPolynomial(if p.reflectInput then ReverseEach(data) else data),
        Zeros(8 * |data|) + Start(p, r))
  }

  /** The generator x^W + polynomial. */
  function Generator(p: Parameters): (g: Word)
    requires p.Valid()
    ensures |g| == p.width + 1 && g[p.width]
  {
    p.polynomial[..p.width] + [true]
  }

  /** The engine's remainder is the remainder of polynomial division, and no other word is. */
  lemma {:induction false} RemainderIsPolynomialRemainder(p: Parameters, data: seq<Byte>, r: Word, w: Word)
    requires p.Valid() && |r| == p.digits
    requires p.reflectInput ==> InMask(r, p.width)
    ensures IsRemainder(DividendOf(p, data, r), Generator(p), w)
       <==> w == Turn(Remainder(p, data, r)[..p.width], p.reflectInput)
  {
    var bits := Stream(data, p.reflectInput);
    StreamIsPolynomial(data);
    StreamIsPolynomial(ReverseEach(data));
    assert DividendOf(p, data, r) == Dividend(Start(p, r), bits);
    var rem := Divide(p.polynomial[..p.width], Start(p, r), bits);
    DivideIsRemainder(p.polynomial[..p.width], Start(p, r), bits);
    RemainderIsRegister(p, data, r);
    RevConcat(rem, []);
    assert rem == Turn(Remainder(p, data, r)[..p.width], p.reflectInput);
    if IsRemainder(DividendOf(p, data, r), Generator(p), w) {
      RemainderUnique(DividendOf(p, data, r), Generator(p), w, rem);
    }
  }

  // ---------------------------------------------------------------- reflection

  lemma {:induction false} ReflectedInvolution(v: Word, n: nat)
    requires n <= |v|
    ensures InMask(Reflected(v, n), n)
    ensures Reflected(Reflected(v, n), n) == v[..n] + Zeros(|v| - n)
    ensures Reflected(Reflected(v, n), n) == v <==> InMask(v, n)
  {
    RevConcat(v[..n], []);
    assert Reflected(v, n)[..n] == Rev(v[..n]);
    assert Reflected(v, n)[n..] == Zeros(|v| - n);
    assert v == v[..n] + v[n..];
    assert (v[..n] + Zeros(|v| - n))[n..] == Zeros(|v| - n);
  }

  /** The reflected algorithm is the mirror image of the unreflected one. */
  lemma {:induction false} ReflectedIsMirror(p: Parameters, data: seq<Byte>, r: Word)
    requires p.Valid() && |r| == p.digits && p.reflectInput && InMask(r, p.width)
    ensures Remainder(p, data, r)
         == Reflected(Remainder(p.(reflectInput := false), ReverseEach(data), Reflected(r, p.width)), p.width)
  {
    var u := p.(reflectInput := false);
    RemainderIsRegister(p, data, r);
    StreamIsPolynomial(data);
    assert Reflected(r, p.width)[..p.width] == Rev(r[..p.width]);
    var d := Divide(p.polynomial[..p.width], Rev(r[..p.width]), Stream(data, true));
    assert Remainder(u, ReverseEach(data), Reflected(r, p.width))[..p.width] == d;
    var w := Remainder(p, data, r);
    assert w == w[..p.width] + w[p.width..];
  }

  // ---------------------------------------------------------------- finalisation

  lemma {:induction false} XorTwice(a: Word, b: Word)
    requires |a| == |b|
    ensures Xor(Xor(a, b), b) == a
  {
  }

  lemma {:induction false} TurnTwice(v: Word, w: Word, reflect: bool)
    requires |v| == |w|
    ensures Turn(Turn(v, reflect), reflect) == v
    ensures Turn(Xor(v, w), reflect) == Xor(Turn(v, reflect), Turn(w, reflect))
  {
    if reflect {
      RevConcat(v, []);
      RevXor(v, w);
    }
  }

  /** The bits above the width that UndoFinalize leaves behind. */
  function ReturnedHigh(p: Parameters): (w: Word)
    requires p.Valid()
    ensures |w| == p.digits - p.width
  {
    if p.ReflectsAtEnd() then Zeros(p.digits - p.width) else p.finalXOR[p.width..]
  }

  /**
   The documentation promises that UndoFinalize after Finalize returns the original value.
   It does so exactly when the bits above the width are those that come back.
   */
  lemma {:induction false} UndoAfterFinalize(p: Parameters, r: Word)
    requires p.Valid() && |r| == p.digits
    ensures Unfinalized(p, Finalized(p, r)) == r[..p.width] + ReturnedHigh(p)
    ensures Unfinalized(p, Finalized(p, r)) == r
       <==> r[p.width..] == ReturnedHigh(p)
  {
    var n := p.width;
    var low, x := r[..n], p.finalXOR[..n];
    assert Finalized(p, r)[..n] == Xor(Turn(low, p.ReflectsAtEnd()), x);
    XorTwice(Turn(low, p.ReflectsAtEnd()), x);
    TurnTwice(low, low, p.ReflectsAtEnd());
    var u := Unfinalized(p, Finalized(p, r));
    assert u[..n] == low;
    assert u[n..] == ReturnedHigh(p);
    assert r == low + r[n..];
    assert u == u[..n] + u[n..];
  }

  /** The other way round it holds exactly for values within the mask. */
  lemma {:induction false} FinalizeAfterUndo(p: Parameters, crc: Word)
    requires p.Valid() && |crc| == p.digits
    ensures Finalized(p, Unfinalized(p, crc))[..p.width] == crc[..p.width]
    ensures Finalized(p, Unfinalized(p, crc)) == crc <==> InMask(crc, p.width)
  {
    var n := p.width;
    var x := p.finalXOR[..n];
    var low := Xor(crc[..n], x);
    var u := Unfinalized(p, crc);
    assert u[..n] == Turn(low, p.ReflectsAtEnd());
    TurnTwice(low, low, p.ReflectsAtEnd());
    XorTwice(crc[..n], x);
    var f := Finalized(p, u);
    assert f[..n] == crc[..n];
    assert f[n..] == Zeros(p.digits - n);
    assert f == f[..n] + f[n..] && crc == crc[..n] + crc[n..];
  }

  // ---------------------------------------------------------------- the checksum

  /** Of the remainder w, read the way the output is to be read: XORed, and nothing above the width. */
  function ReadOut(p: Parameters, w: Word): (crc: Word)
    requires p.Valid() && |w| == p.width
    ensures |crc| == p.digits
  {
    Xor(if p.reflectOutput then Rev(w) else w, p.finalXOR[..p.width]) + Zeros(p.digits - p.width)
  }

  lemma {:induction false} ReadOutInjective(p: Parameters, v: Word, w: Word)
    requires p.Valid() && |v| == |w| == p.width
    ensures ReadOut(p, v) == ReadOut(p, w) <==> v == w
  {
    var x, y := if p.reflectOutput then Rev(v) else v, if p.reflectOutput then Rev(w) else w;
    if ReadOut(p, v) == ReadOut(p, w) {
      assert ReadOut(p, v)[..p.width] == ReadOut(p, w)[..p.width];
      XorTwice(x, p.finalXOR[..p.width]);
      XorTwice(y, p.finalXOR[..p.width]);
      RevConcat(v, []);
      RevConcat(w, []);
    }
  }

  /**
   A checksum is the remainder of the data as a polynomial, reversed if and only if the output is
   to be reflected, whatever the input is, and XORed: for no other word does the engine read that out.
   */
  lemma {:induction false} ChecksumIsPolynomialRemainder(p: Parameters, data: seq<Byte>, w: Word)
    requires p.Valid() && |w| == p.width
    requires p.reflectInput ==> InMask(p.initialValue, p.width)
    ensures IsRemainder(DividendOf(p, data, p.initialValue), Generator(p), w)
       <==> Checksum(p, data) == Xor(if p.reflectOutput then Rev(w) else w, p.finalXOR[..p.width])
                                 + Zeros(p.digits - p.width)
  {
    RemainderIsPolynomialRemainder(p, data, p.initialValue, w);
    ReadOutTells(p, Remainder(p, data, p.initialValue), w);
  }

  lemma {:induction false} ReadOutTells(p: Parameters, r: Word, w: Word)
    requires p.Valid() && |r| == p.digits && |w| == p.width
    ensures w == Turn(r[..p.width], p.reflectInput) <==> Finalized(p, r) == ReadOut(p, w)
  {
    var v := Turn(r[..p.width], p.reflectInput);
    RevConcat(r[..p.width], []);
    assert Finalized(p, r) == ReadOut(p, v);
    ReadOutInjective(p, v, w);
  }

  // ---------------------------------------------------------------- appending

  /** What an engine with input reflection needs of its constants. */
  predicate ConstantsInMask(p: Parameters)
    requires p.Valid()
  {
    p.reflectInput ==> InMask(p.initialValue, p.width) && (p.reflectOutput ==> InMask(p.finalXOR, p.width))
  }

  lemma {:induction false} RemainderConcat(p: Parameters, a: seq<Byte>, b: seq<Byte>, r: Word)
    requires p.Valid() && |r| == p.digits
    ensures Remainder(p, a + b, r) == Remainder(p, b, Remainder(p, a, r))
  {
    StreamConcat(a, b, p.reflectInput);
    if p.reflectInput {
      DivideConcat(ScaledPolynomial(p), Rev(r), Stream(a, true), Stream(b, true));
      RevConcat(Divide(ScaledPolynomial(p), Rev(r), Stream(a, true)), []);
    } else {
      DivideConcat(p.polynomial[..p.width], r[..p.width], Stream(a, false), Stream(b, false));
      assert Remainder(p, a, r)[..p.width] == Divide(p.polynomial[..p.width], r[..p.width], Stream(a, false));
    }
  }

  /** Continuing from a finalised remainder is continuing from the remainder. */
  lemma {:induction false} ContinueFinalized(p: Parameters, b: seq<Byte>, r: Word)
    requires p.Valid() && |r| == p.digits && ConstantsInMask(p)
    requires p.reflectInput ==> InMask(r, p.width)
    ensures Continued(p, b, Finalized(p, r)) == Finalized(p, Remainder(p, b, r))
  {
    UndoAfterFinalize(p, r);
    var u := Unfinalized(p, Finalized(p, r));
    if p.reflectInput {
      assert u == r;
    } else {
      RemainderLow(p, b, u, r);
    }
  }

  /** A checksum continued over more data is the checksum of the two put together. */
  lemma {:induction false} AppendToChecksum(p: Parameters, a: seq<Byte>, b: seq<Byte>)
    requires p.Valid() && ConstantsInMask(p)
    ensures Continued(p, b, Checksum(p, a)) == Checksum(p, a + b)
  {
    if p.reflectInput {
      RemainderIsRegister(p, a, p.initialValue);
    }
    ContinueFinalized(p, b, Remainder(p, a, p.initialValue));
    RemainderConcat(p, a, b, p.initialValue);
  }

  /** The same for a value that is itself a continuation, whatever value that started from. */
  lemma {:induction false} AppendToContinued(p: Parameters, a: seq<Byte>, b: seq<Byte>, crc: Word)
    requires p.Valid() && ConstantsInMask(p) && |crc| == p.digits
    ensures Continued(p, b, Continued(p, a, crc)) == Continued(p, a + b, crc)
  {
    var r := Unfinalized(p, crc);
    if p.reflectInput {
      assert InMask(r, p.width);
      RemainderIsRegister(p, a, r);
    }
    ContinueFinalized(p, b, Remainder(p, a, r));
    RemainderConcat(p, a, b, r);
  }

  /** Two start values of the reflected engine differ, after any data, by the register run on their difference. */
  lemma {:induction false} ReflectedDifference(p: Parameters, data: seq<Byte>, r: Word, s: Word)
    requires p.Valid() && p.reflectInput && |r| == |s| == p.digits
    ensures Xor(Remainder(p, data, r), Remainder(p, data, s))
         == Rev(Divide(ScaledPolynomial(p), Rev(Xor(r, s)), Zeros(8 * |data|)))
  {
    var q, bits := ScaledPolynomial(p), Stream(data, true);
    XorZeros(bits);
    RevXor(r, s);
    DivideLinear(q, Rev(r), Rev(s), bits, bits);
    RevXor(Divide(q, Rev(r), bits), Divide(q, Rev(s), bits));
  }

  lemma {:induction false} FinalizedInjective(p: Parameters, r: Word, s: Word)
    requires p.Valid() && |r| == |s| == p.digits
    ensures Finalized(p, r) == Finalized(p, s) <==> r[..p.width] == s[..p.width]
  {
    if Finalized(p, r) == Finalized(p, s) {
      UndoAfterFinalize(p, r);
      UndoAfterFinalize(p, s);
      var u := Unfinalized(p, Finalized(p, r));
      assert r[..p.width] == u[..p.width] == s[..p.width];
    }
  }
}
