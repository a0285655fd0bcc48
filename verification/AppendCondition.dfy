/**
 Exactly which constants allow multi-part checksums, for every width.
 */
module AppendCondition {
  import opened Words
  import opened Division
  import opened Polynomials
  import opened CrcModel
  import opened CrcTheorems

  function Bit(v: Word, i: nat): bool {
    i < |v| && v[i]
  }

  // ---------------------------------------------------------------- what zero bytes make of a start value

  /** The register after m zero bytes: by linearity, what becomes of a difference of two start values. */
  function Drifted(p: Parameters, z: Word, m: nat): (w: Word)
    requires p.Valid() && |z| == p.digits
    ensures |w| == p.digits
  {
    Rev(Divide(ScaledPolynomial(p), Rev(z), Zeros(8 * m)))
  }

  lemma {:induction false} DriftedNext(p: Parameters, z: Word, m: nat)
    requires p.Valid() && |z| == p.digits
    ensures Drifted(p, z, m + 1) == Drifted(p, Drifted(p, z, m), 1)
    ensures Drifted(p, z, 0) == z
  {
    var q := ScaledPolynomial(p);
    assert Zeros(8 * (m + 1)) == Zeros(8 * m) + Zeros(8 * 1);
    DivideConcat(q, Rev(z), Zeros(8 * m), Zeros(8 * 1));
    RevConcat(Divide(q, Rev(z), Zeros(8 * m)), []);
    RevConcat(z, []);
  }

  lemma {:induction false} DriftedXor(p: Parameters, a: Word, b: Word, m: nat)
    requires p.Valid() && |a| == |b| == p.digits
    ensures Drifted(p, Xor(a, b), m) == Xor(Drifted(p, a, m), Drifted(p, b, m))
  {
    var q, zeros := ScaledPolynomial(p), Zeros(8 * m);
    RevXor(a, b);
    XorZeros(zeros);
    DivideLinear(q, Rev(a), Rev(b), zeros, zeros);
    RevXor(Divide(q, Rev(a), zeros), Divide(q, Rev(b), zeros));
  }

  /** The coordinates below those of the divisor only move up. */
  lemma {:induction false} DivideBelow(k: nat, poly: Word, y: Word, bits: Word)
    requires |poly| > 0 && |y| == k + |poly|
    ensures Divide(Zeros(k) + poly, y, bits)[..k] == (Zeros(|bits|) + y)[..k]
    decreases |bits|
  {
    if bits == [] {
    } else {
      var n, q := |bits| - 1, Zeros(k) + poly;
      var r := Divide(q, y, bits[..n]);
      DivideBelow(k, poly, y, bits[..n]);
      FeedBelow(k, poly, r, bits[n]);
      ShiftBelow(r[..k], y, n, k);
    }
  }

  lemma {:induction false} FeedBelow(k: nat, poly: Word, r: Word, b: bool)
    requires |poly| > 0 && |r| == k + |poly|
    ensures Feed(Zeros(k) + poly, r, b)[..k] == ([false] + r[..k])[..k]
  {
  }

  lemma {:induction false} ShiftBelow(low: Word, y: Word, n: nat, k: nat)
    requires k <= |y| && low == (Zeros(n) + y)[..k]
    ensures ([false] + low)[..k] == (Zeros(n + 1) + y)[..k]
  {
  }

  /** Above the width a remainder is the start value moved down by eight bits a byte, whatever the data. */
  lemma {:induction false} HighBitsMove(p: Parameters, bits: Word, r: Word, i: nat)
    requires p.Valid() && |r| == p.digits && p.width <= i < p.digits
    ensures Rev(Divide(ScaledPolynomial(p), Rev(r), bits))[i] == Bit(r, i + |bits|)
  {
    var k, n := p.digits - p.width, p.digits;
    var d := Divide(ScaledPolynomial(p), Rev(r), bits);
    DivideBelow(k, p.polynomial[..p.width], Rev(r), bits);
    assert d[n - 1 - i] == d[..k][n - 1 - i] == (Zeros(|bits|) + Rev(r))[n - 1 - i];
  }

  /** Bytes below bit eight are shifted out without a trace when they are zero. */
  lemma {:induction false} DriftedShift(p: Parameters, z: Word)
    requires p.Valid() && |z| == p.digits && z[..8] == Zeros(8)
    ensures Drifted(p, z, 1) == Shr(z, 8)
  {
    var y := Rev(z);
    forall i | |z| - 8 <= i < |z| ensures !y[i] {
      assert z[..8][|z| - 1 - i] == Zeros(8)[|z| - 1 - i];
    }
    DivideShifts(ScaledPolynomial(p), y, 8);
    assert Rev(Shl(y, 8)) == Shr(z, 8);
  }

  // ---------------------------------------------------------------- slices of eight bits

  /** The bits above the width, moved down by 8 j. */
  function Above(v: Word, width: nat, j: nat): (w: Word)
    ensures |w| == |v|
    ensures forall i {:trigger w[i]} :: 0 <= i < |v| ==> w[i] == (width <= i && Bit(v, i + 8 * j))
  {
    seq(|v|, i requires 0 <= i < |v| => width <= i && Bit(v, i + 8 * j))
  }

  /** Of those the lowest eight: the ones that the next byte brings into the register. */
  function Slice(v: Word, width: nat, j: nat): (w: Word)
    ensures |w| == |v|
    ensures forall i {:trigger w[i]} :: 0 <= i < |v| ==> w[i] == (width <= i < width + 8 && Bit(v, i + 8 * j))
  {
    seq(|v|, i requires 0 <= i < |v| => width <= i < width + 8 && Bit(v, i + 8 * j))
  }

  /** One zero byte brings a slice into the register and leaves nothing of it there. */
  predicate Vanishes(p: Parameters, slice: Word)
    requires p.Valid() && |slice| == p.digits
  {
    Drifted(p, slice, 1)[..p.width] == Zeros(p.width)
  }

  /** That is so exactly when the generator, scaled like the register, divides the slice. */
  lemma {:induction false} VanishesIsDivisibility(p: Parameters, v: Word, j: nat)
    requires p.Valid() && |v| == p.digits
    ensures var s := Slice(v, p.width, j);
            Vanishes(p, s) <==> IsRemainder(Dividend(Rev(s), Zeros(8)), ScaledPolynomial(p) + [true], Zeros(p.digits))
  {
    var s, q, w := Slice(v, p.width, j), ScaledPolynomial(p), p.width;
    var d := Divide(q, Rev(s), Zeros(8));
    forall i | w <= i < p.digits ensures !Rev(d)[i] {
      HighBitsMove(p, Zeros(8), s, i);
    }
    ZeroByHalves(Rev(d), w);
    RevConcat(d, []);
    RevZeros(p.digits);
    assert Zeros(8 * 1) == Zeros(8);
    DivideIsRemainder(q, Rev(s), Zeros(8));
    if IsRemainder(Dividend(Rev(s), Zeros(8)), q + [true], Zeros(p.digits)) {
      RemainderUnique(Dividend(Rev(s), Zeros(8)), q + [true], Zeros(p.digits), d);
    }
  }

  lemma {:induction false} ZeroByHalves(v: Word, w: nat)
    requires w <= |v| && forall i :: w <= i < |v| ==> !v[i]
    ensures v[..w] == Zeros(w) <==> v == Zeros(|v|)
  {
    if v[..w] == Zeros(w) {
      forall i | 0 <= i < w ensures !v[i] {
        assert v[..w][i] == Zeros(w)[i];
      }
    }
  }

  lemma {:induction false} VanishesXor(p: Parameters, a: Word, b: Word)
    requires p.Valid() && |a| == |b| == p.digits && Vanishes(p, a)
    ensures Vanishes(p, Xor(a, b)) <==> Vanishes(p, b)
  {
    DriftedXor(p, a, b, 1);
    var x, y := Drifted(p, a, 1), Drifted(p, b, 1);
    assert Xor(x, y)[..p.width] == Xor(x[..p.width], y[..p.width]);
    XorZeros(y[..p.width]);
  }

  /** The low bits after one zero byte are those of the lowest slice. */
  lemma {:induction false} SliceDecides(p: Parameters, v: Word, j: nat)
    requires p.Valid() && |v| == p.digits
    ensures Drifted(p, Above(v, p.width, j), 1)[..p.width] == Drifted(p, Slice(v, p.width, j), 1)[..p.width]
  {
    var w, above, slice := p.width, Above(v, p.width, j), Slice(v, p.width, j);
    var rest := Xor(above, slice);
    assert above == Xor(slice, rest);
    assert rest[..8] == Zeros(8);
    DriftedShift(p, rest);
    DriftedXor(p, slice, rest, 1);
    assert Shr(rest, 8)[..w] == Zeros(w);
    var x, y := Drifted(p, slice, 1), Drifted(p, rest, 1);
    assert Xor(x, y)[..w] == Xor(x[..w], y[..w]);
    XorZeros(x[..w]);
  }

  // ---------------------------------------------------------------- differences that never show

  /** No number of zero bytes brings anything of z into the low bits. */
  ghost predicate NeverShows(p: Parameters, z: Word)
    requires p.Valid() && |z| == p.digits
  {
    forall m: nat :: Drifted(p, z, m)[..p.width] == Zeros(p.width)
  }

  ghost predicate SlicesVanish(p: Parameters, v: Word)
    requires p.Valid() && |v| == p.digits
  {
    forall j: nat :: Vanishes(p, Slice(v, p.width, j))
  }

  /** Beyond the type's bits the slices are empty, so the condition is a check of finitely many bytes. */
  lemma {:induction false} SlicesVanishFinitely(p: Parameters, v: Word)
    requires p.Valid() && |v| == p.digits
    ensures SlicesVanish(p, v) <==> forall j: nat :: 8 * j < p.digits ==> Vanishes(p, Slice(v, p.width, j))
  {
    if forall j: nat :: 8 * j < p.digits ==> Vanishes(p, Slice(v, p.width, j)) {
      forall j: nat ensures Vanishes(p, Slice(v, p.width, j)) {
        if 8 * j >= p.digits {
          assert Slice(v, p.width, j) == Zeros(p.digits);
          ZeroVanishes(p);
        }
      }
    }
  }

  lemma {:induction false} ZeroVanishes(p: Parameters)
    requires p.Valid()
    ensures Vanishes(p, Zeros(p.digits))
  {
    DriftedShift(p, Zeros(p.digits));
    assert Shr(Zeros(p.digits), 8) == Zeros(p.digits);
  }

  /** After m bytes the difference is its own high part moved down, if nothing shows in the low bits. */
  lemma {:induction false} DriftedIsAbove(p: Parameters, z: Word, m: nat)
    requires p.Valid() && |z| == p.digits && Drifted(p, z, m)[..p.width] == Zeros(p.width)
    ensures Drifted(p, z, m) == Above(z, p.width, m)
  {
    var d := Drifted(p, z, m);
    forall i | 0 <= i < p.digits ensures d[i] == Above(z, p.width, m)[i] {
      if i < p.width {
        assert d[..p.width][i] == Zeros(p.width)[i];
      } else {
        HighBitsMove(p, Zeros(8 * m), z, i);
      }
    }
  }

  lemma {:induction false} NextShows(p: Parameters, z: Word, m: nat)
    requires p.Valid() && |z| == p.digits && Drifted(p, z, m)[..p.width] == Zeros(p.width)
    ensures Drifted(p, z, m + 1)[..p.width] == Zeros(p.width) <==> Vanishes(p, Slice(z, p.width, m))
  {
    DriftedIsAbove(p, z, m);
    DriftedNext(p, z, m);
    SliceDecides(p, z, m);
  }

  lemma {:induction false} NothingShows(p: Parameters, z: Word, m: nat)
    requires p.Valid() && |z| == p.digits && z[..p.width] == Zeros(p.width) && SlicesVanish(p, z)
    ensures Drifted(p, z, m)[..p.width] == Zeros(p.width)
    decreases m
  {
    if m == 0 {
      DriftedNext(p, z, 0);
    } else {
      NothingShows(p, z, m - 1);
      NextShows(p, z, m - 1);
    }
  }

  /** A difference above the width never shows exactly when each of its slices vanishes. */
  lemma {:induction false} NeverShowsExactly(p: Parameters, z: Word)
    requires p.Valid() && |z| == p.digits && z[..p.width] == Zeros(p.width)
    ensures NeverShows(p, z) <==> SlicesVanish(p, z)
  {
    if SlicesVanish(p, z) {
      forall m: nat ensures Drifted(p, z, m)[..p.width] == Zeros(p.width) {
        NothingShows(p, z, m);
      }
    }
    if NeverShows(p, z) {
      forall j: nat ensures Vanishes(p, Slice(z, p.width, j)) {
        NextShows(p, z, j);
      }
    }
  }

  // ---------------------------------------------------------------- appending

  /** The word whose high bits UndoFinalize leaves behind. */
  function Returned(p: Parameters): (w: Word)
    requires p.Valid()
    ensures |w| == p.digits
  {
    Zeros(p.width) + ReturnedHigh(p)
  }

  /** What the round trip through a CRC changes in the remainder of k bytes. */
  function Lost(p: Parameters, k: nat): (w: Word)
    requires p.Valid()
    ensures |w| == p.digits
  {
    Xor(Above(p.initialValue, p.width, k), Returned(p))
  }

  lemma {:induction false} RemainderAbove(p: Parameters, a: seq<Byte>, r: Word, i: nat)
    requires p.Valid() && p.reflectInput && |r| == p.digits && p.width <= i < p.digits
    ensures Remainder(p, a, r)[i] == Bit(r, i + 8 * |a|)
  {
    HighBitsMove(p, Stream(a, true), r, i);
  }

  lemma {:induction false} LostIsDifference(p: Parameters, a: seq<Byte>)
    requires p.Valid() && p.reflectInput
    ensures var r := Remainder(p, a, p.initialValue);
            Xor(r, Unfinalized(p, Finalized(p, r))) == Lost(p, |a|)
  {
    var r := Remainder(p, a, p.initialValue);
    UndoAfterFinalize(p, r);
    forall i | p.width <= i < p.digits ensures r[i] == Bit(p.initialValue, i + 8 * |a|) {
      RemainderAbove(p, a, p.initialValue, i);
    }
    LostBits(p, r, |a|);
  }

  lemma {:induction false} LostBits(p: Parameters, r: Word, k: nat)
    requires p.Valid() && |r| == p.digits
    requires forall i :: p.width <= i < p.digits ==> r[i] == Bit(p.initialValue, i + 8 * k)
    ensures Xor(r, r[..p.width] + ReturnedHigh(p)) == Lost(p, k)
  {
    var u, above := r[..p.width] + ReturnedHigh(p), Above(p.initialValue, p.width, k);
    forall i | 0 <= i < p.digits ensures Xor(r, u)[i] == Lost(p, k)[i] {
      assert i < p.width ==> !above[i] && u[i] == r[i];
    }
  }

  lemma {:induction false} LostHasNoLowBits(p: Parameters, k: nat)
    requires p.Valid()
    ensures Lost(p, k)[..p.width] == Zeros(p.width)
  {
  }

  lemma {:induction false} LostSlice(p: Parameters, k: nat, j: nat)
    requires p.Valid()
    ensures Slice(Lost(p, k), p.width, j) == Xor(Slice(p.initialValue, p.width, j + k), Slice(Returned(p), p.width, j))
  {
    var x, y := Slice(p.initialValue, p.width, j + k), Slice(Returned(p), p.width, j);
    forall i | 0 <= i < p.digits ensures Slice(Lost(p, k), p.width, j)[i] == Xor(x, y)[i] {
      if p.width <= i {
        LostBit(p, k, j, i);
      }
    }
  }

  lemma {:induction false} LostBit(p: Parameters, k: nat, j: nat, i: nat)
    requires p.Valid() && p.width <= i < p.digits
    ensures Bit(Lost(p, k), i + 8 * j) == (Bit(p.initialValue, i + 8 * (j + k)) != Bit(Returned(p), i + 8 * j))
  {
    var e := i + 8 * j;
    assert e + 8 * k == i + 8 * (j + k);
    if e < p.digits {
      assert Above(p.initialValue, p.width, k)[e] == Bit(p.initialValue, e + 8 * k);
    }
  }

  /** One continuation is right exactly when what was lost does not show after its bytes. */
  lemma {:induction false} AppendOnce(p: Parameters, a: seq<Byte>, b: seq<Byte>)
    requires p.Valid() && p.reflectInput
    ensures Continued(p, b, Checksum(p, a)) == Checksum(p, a + b)
       <==> Drifted(p, Lost(p, |a|), |b|)[..p.width] == Zeros(p.width)
  {
    var r := Remainder(p, a, p.initialValue);
    var u := Unfinalized(p, Finalized(p, r));
    RemainderConcat(p, a, b, p.initialValue);
    FinalizedInjective(p, Remainder(p, b, u), Remainder(p, b, r));
    ReflectedDifference(p, b, r, u);
    LostIsDifference(p, a);
    EqualLowBits(Remainder(p, b, r), Remainder(p, b, u), p.width);
  }

  lemma {:induction false} EqualLowBits(x: Word, y: Word, w: nat)
    requires |x| == |y| && w <= |x|
    ensures Xor(x, y)[..w] == Zeros(w) <==> x[..w] == y[..w]
  {
    assert Xor(x, y)[..w] == Xor(x[..w], y[..w]);
    XorZeros(x[..w]);
    if Xor(x[..w], y[..w]) == Zeros(w) {
      XorCancel(x[..w], y[..w]);
    }
  }

  /** What input reflection needs of the constants, for any width. */
  ghost predicate ConstantsVanish(p: Parameters)
    requires p.Valid()
  {
    p.reflectInput ==> SlicesVanish(p, p.initialValue) && SlicesVanish(p, Returned(p))
  }

  lemma {:induction false} LostVanishes(p: Parameters, k: nat)
    requires p.Valid() && SlicesVanish(p, p.initialValue) && SlicesVanish(p, Returned(p))
    ensures NeverShows(p, Lost(p, k))
  {
    forall j: nat ensures Vanishes(p, Slice(Lost(p, k), p.width, j)) {
      LostSlice(p, k, j);
      VanishesXor(p, Slice(p.initialValue, p.width, j + k), Slice(Returned(p), p.width, j));
    }
    LostHasNoLowBits(p, k);
    NeverShowsExactly(p, Lost(p, k));
  }

  /** Long data leave nothing of the initial value, none leave all of it. */
  lemma {:induction false} LostTells(p: Parameters)
    requires p.Valid() && NeverShows(p, Lost(p, 0)) && NeverShows(p, Lost(p, p.digits))
    ensures SlicesVanish(p, p.initialValue) && SlicesVanish(p, Returned(p))
  {
    LostHasNoLowBits(p, 0);
    LostHasNoLowBits(p, p.digits);
    NeverShowsExactly(p, Lost(p, 0));
    NeverShowsExactly(p, Lost(p, p.digits));
    forall j: nat ensures Vanishes(p, Slice(Returned(p), p.width, j))
      && Vanishes(p, Slice(p.initialValue, p.width, j)) {
      assert Vanishes(p, Slice(Lost(p, p.digits), p.width, j)) && Vanishes(p, Slice(Lost(p, 0), p.width, j));
      SlicesTell(p, j);
    }
  }

  lemma {:induction false} SlicesTell(p: Parameters, j: nat)
    requires p.Valid() && Vanishes(p, Slice(Lost(p, p.digits), p.width, j))
             && Vanishes(p, Slice(Lost(p, 0), p.width, j))
    ensures Vanishes(p, Slice(Returned(p), p.width, j)) && Vanishes(p, Slice(p.initialValue, p.width, j))
  {
    LostSlice(p, p.digits, j);
    LostSlice(p, 0, j);
    assert Slice(p.initialValue, p.width, j + p.digits) == Zeros(p.digits);
    PairTells(p, Slice(p.initialValue, p.width, j), Slice(Returned(p), p.width, j));
  }

  lemma {:induction false} PairTells(p: Parameters, x: Word, y: Word)
    requires p.Valid() && |x| == |y| == p.digits
    requires Vanishes(p, Xor(Zeros(p.digits), y)) && Vanishes(p, Xor(x, y))
    ensures Vanishes(p, x) && Vanishes(p, y)
  {
    ZeroVanishes(p);
    VanishesXor(p, Zeros(p.digits), y);
    XorCommute(x, y);
    VanishesXor(p, y, x);
  }

  function ZeroBytes(m: nat): (b: seq<Byte>)
    ensures |b| == m
  {
    seq(m, _ => Zeros(8))
  }

  ghost predicate AppendsAlways(p: Parameters)
    requires p.Valid()
  {
    forall a, b :: Continued(p, b, Checksum(p, a)) == Checksum(p, a + b)
  }

  lemma {:induction false} LostNeverShows(p: Parameters, k: nat)
    requires p.Valid() && p.reflectInput && AppendsAlways(p)
    ensures NeverShows(p, Lost(p, k))
  {
    forall m: nat ensures Drifted(p, Lost(p, k), m)[..p.width] == Zeros(p.width) {
      AppendOnce(p, ZeroBytes(k), ZeroBytes(m));
    }
  }

  /**
   Multi-part checksums are right for all data exactly when, with input reflection, the generator
   divides every eight-bit slice of the constants' bits above the width.
   */
  lemma {:induction false} AppendExactly(p: Parameters)
    requires p.Valid()
    ensures AppendsAlways(p) <==> ConstantsVanish(p)
  {
    if p.reflectInput {
      if ConstantsVanish(p) {
        forall a, b ensures Continued(p, b, Checksum(p, a)) == Checksum(p, a + b) {
          LostVanishes(p, |a|);
          AppendOnce(p, a, b);
        }
      }
      if AppendsAlways(p) {
        LostNeverShows(p, 0);
        LostNeverShows(p, p.digits);
        LostTells(p);
      }
    } else {
      forall a, b ensures Continued(p, b, Checksum(p, a)) == Checksum(p, a + b) {
        AppendToChecksum(p, a, b);
      }
    }
  }

  // ---------------------------------------------------------------- from eight bits on

  lemma {:induction false} WideSliceVanishes(p: Parameters, s: Word)
    requires p.Valid() && p.width >= 8 && |s| == p.digits
    requires forall i :: 0 <= i < |s| && !(p.width <= i < p.width + 8) ==> !s[i]
    ensures Vanishes(p, s) <==> s == Zeros(p.digits)
  {
    var w := p.width;
    assert s[..8] == Zeros(8);
    DriftedShift(p, s);
    if Vanishes(p, s) {
      forall i | 0 <= i < |s| ensures !s[i] {
        if w <= i < w + 8 {
          assert Shr(s, 8)[..w][i - 8] == Zeros(w)[i - 8];
        }
      }
    }
    if s == Zeros(p.digits) {
      ZeroVanishes(p);
    }
  }

  lemma {:induction false} WideSlicesVanish(p: Parameters, v: Word)
    requires p.Valid() && p.width >= 8 && |v| == p.digits
    ensures SlicesVanish(p, v) <==> InMask(v, p.width)
  {
    var w := p.width;
    if SlicesVanish(p, v) {
      forall i | w <= i < p.digits ensures !v[i] {
        var j := (i - w) / 8;
        WideSliceVanishes(p, Slice(v, w, j));
        assert !Slice(v, w, j)[i - 8 * j];
      }
    }
    if InMask(v, w) {
      forall i | w <= i < p.digits ensures !v[i] {
        assert v[w..][i - w] == Zeros(p.digits - w)[i - w];
      }
      forall j: nat ensures Vanishes(p, Slice(v, w, j)) {
        assert Slice(v, w, j) == Zeros(p.digits);
        WideSliceVanishes(p, Slice(v, w, j));
      }
    }
  }

  /** From a width of eight bits on, that is: exactly when those constants have no bits above the width. */
  lemma {:induction false} AppendExactlyInMask(p: Parameters)
    requires p.Valid() && p.width >= 8
    ensures AppendsAlways(p) <==> ConstantsInMask(p)
  {
    AppendExactly(p);
    WideSlicesVanish(p, p.initialValue);
    WideSlicesVanish(p, Returned(p));
    ReturnedInMask(p);
  }

  lemma {:induction false} ReturnedInMask(p: Parameters)
    requires p.Valid()
    ensures p.reflectInput ==> (InMask(Returned(p), p.width) <==> p.reflectOutput ==> InMask(p.finalXOR, p.width))
  {
    assert Returned(p)[p.width..] == ReturnedHigh(p);
  }
}
