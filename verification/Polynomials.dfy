/**
 Polynomials over GF(2), and the sense in which the shift register computes a remainder.
 */
module Polynomials {
  import opened Words
  import opened Division

  function Times(c: bool, b: Word): (w: Word)
    ensures |w| == |b|
  {
    if c then b else Zeros(|b|)
  }

  /** The product of two polynomials, by shift and add. */
  function Mul(a: Word, b: Word): (c: Word)
    requires b != []
    ensures |c| == |a| + |b| - 1
  {
    if a == [] then Zeros(|b| - 1)
    else Xor(Times(a[0], b) + Zeros(|a| - 1), [false] + Mul(a[1..], b))
  }

  /** `rem` is what is left of `m` after subtracting a multiple of `g`, and has lower degree than `g`. */
  ghost predicate IsRemainder(m: Word, g: Word, rem: Word) {
    && |rem| + 1 == |g|
    && exists q :: IsQuotient(m, g, rem, q)
  }

  ghost predicate IsQuotient(m: Word, g: Word, rem: Word, q: Word) {
    && |rem| + 1 == |g|
    && |m| == |q| + |rem|
    && m == Xor(Mul(q, g), rem + Zeros(|q|))
  }

  // ---------------------------------------------------------------- existence

  /** The polynomial stream * x^|r| + r * x^|stream|. */
  function Dividend(r: Word, bits: Word): (m: Word)
    ensures |m| == |r| + |bits|
  {
    Xor(Zeros(|r|) + Rev(bits), Zeros(|bits|) + r)
  }

  function Quotient(p: Word, r: Word, bits: Word): (q: Word)
    requires |p| == |r| > 0
    ensures |q| == |bits|
  {
    if bits == [] then []
    else
      var n := |bits| - 1;
      [Divide(p, r, bits[..n])[|r| - 1] != bits[n]] + Quotient(p, r, bits[..n])
  }

  lemma {:induction false} DividendSnoc(r: Word, e: Word, b: bool)
    ensures Dividend(r, e + [b]) == Xor([false] + Dividend(r, e), Zeros(|r|) + [b] + Zeros(|e|))
  {
    assert Rev(e + [b]) == [b] + Rev(e);
    assert Zeros(|e| + 1) + r == [false] + (Zeros(|e|) + r);
    assert Zeros(|r|) + ([b] + Rev(e)) == Xor([false] + (Zeros(|r|) + Rev(e)), Zeros(|r|) + [b] + Zeros(|e|)) by {
      var lhs, rhs := Zeros(|r|) + ([b] + Rev(e)), [false] + (Zeros(|r|) + Rev(e));
      assert forall i :: 0 <= i <= |r| ==> !rhs[i];
    }
  }

  /** x*R + b*x^W differs from the next register by the divisor or by nothing. */
  lemma {:induction false} FeedIsDivisionStep(p: Word, r: Word, b: bool)
    requires |p| == |r| > 0
    ensures Xor([false] + r, Zeros(|r|) + [b]) == Xor(Times(r[|r| - 1] != b, p + [true]), Feed(p, r, b) + [false])
  {
    var n := |r|;
    var shifted := [false] + r[..n - 1];
    assert [false] + r == shifted + [r[n - 1]];
    assert Xor([false] + r, Zeros(n) + [b]) == shifted + [r[n - 1] != b] by {
      XorZeros(shifted);
      XorLast(shifted, r[n - 1], Zeros(n), b);
    }
    if r[n - 1] != b {
      XorLast(p, true, Xor(shifted, p), false);
      assert Xor(p, Xor(shifted, p)) == shifted;
    } else {
      XorZeros(shifted);
      assert Zeros(n + 1) == Zeros(n) + [false];
      XorLast(Zeros(n), false, shifted, false);
    }
  }

  lemma {:induction false} XorLast(a: Word, b: bool, c: Word, d: bool)
    requires |a| == |c|
    ensures Xor(a + [b], c + [d]) == Xor(a, c) + [b != d]
  {
  }

  lemma {:induction false} XorPad(a: Word, b: Word, n: nat)
    requires |a| == |b|
    ensures Xor(a + Zeros(n), b + Zeros(n)) == Xor(a, b) + Zeros(n)
    ensures Xor([false] + a, [false] + b) == [false] + Xor(a, b)
  {
  }

  lemma {:induction false} XorSwap(a: Word, b: Word, c: Word, d: Word, e: Word)
    requires |a| == |b| == |c| == |d| == |e|
    requires Xor(b, c) == Xor(d, e)
    ensures Xor(Xor(a, b), c) == Xor(Xor(d, a), e)
  {
    XorAssoc(a, b, c);
    assert Xor(d, a) == Xor(a, d);
    XorAssoc(a, d, e);
  }

  /** The register ends as a remainder of the dividend by x^W + p, whatever it started as. */
  lemma {:induction false} DivideIsRemainder(p: Word, r: Word, bits: Word)
    requires |p| == |r| > 0
    ensures IsQuotient(Dividend(r, bits), p + [true], Divide(p, r, bits), Quotient(p, r, bits))
    ensures IsRemainder(Dividend(r, bits), p + [true], Divide(p, r, bits))
    decreases |bits|
  {
    if bits == [] {
      assert Dividend(r, []) == Xor(Mul([], p + [true]), r + Zeros(0));
      assert IsQuotient(Dividend(r, bits), p + [true], Divide(p, r, bits), Quotient(p, r, bits));
    } else {
      var n := |bits| - 1;
      DivideIsRemainder(p, r, bits[..n]);
      assert bits == bits[..n] + [bits[n]];
      DivideUnfold(p, r, bits[..n], bits[n]);
      DividendSnoc(r, bits[..n], bits[n]);
      QuotientSnoc(p, Dividend(r, bits[..n]), Quotient(p, r, bits[..n]), Divide(p, r, bits[..n]), bits[n]);
    }
  }

  lemma {:induction false} DivideUnfold(p: Word, r: Word, e: Word, b: bool)
    requires |p| == |r| > 0
    ensures Divide(p, r, e + [b]) == Feed(p, Divide(p, r, e), b)
    ensures Quotient(p, r, e + [b]) == [Divide(p, r, e)[|r| - 1] != b] + Quotient(p, r, e)
  {
    assert (e + [b])[..|e|] == e;
  }

  lemma {:induction false} QuotientSnoc(p: Word, m: Word, q: Word, r: Word, b: bool)
    requires |p| == |r| > 0
    requires IsQuotient(m, p + [true], r, q)
    ensures IsQuotient(Xor([false] + m, Zeros(|r|) + [b] + Zeros(|q|)), p + [true], Feed(p, r, b),
                       [r[|r| - 1] != b] + q)
  {
    var n, g, f := |q|, p + [true], r[|r| - 1] != b;
    var a := [false] + Mul(q, g);
    var x := [false] + (r + Zeros(n));
    var y := Zeros(|r|) + [b] + Zeros(n);
    var z := Times(f, g) + Zeros(n);
    var w := Feed(p, r, b) + Zeros(n + 1);
    assert [false] + m == Xor(a, x) by { XorPad(Mul(q, g), r + Zeros(n), 0); }
    QuotientPadding(p, r, b, n);
    XorSwap(a, x, y, z, w);
    assert Mul([f] + q, g) == Xor(z, a) by { assert ([f] + q)[1..] == q; }
  }

  lemma {:induction false} QuotientPadding(p: Word, r: Word, b: bool, n: nat)
    requires |p| == |r| > 0
    ensures Xor([false] + (r + Zeros(n)), Zeros(|r|) + [b] + Zeros(n))
         == Xor(Times(r[|r| - 1] != b, p + [true]) + Zeros(n), Feed(p, r, b) + Zeros(n + 1))
  {
    FeedIsDivisionStep(p, r, b);
    XorPad([false] + r, Zeros(|r|) + [b], n);
    XorPad(Times(r[|r| - 1] != b, p + [true]), Feed(p, r, b) + [false], n);
    assert [false] + (r + Zeros(n)) == ([false] + r) + Zeros(n);
    assert Feed(p, r, b) + [false] + Zeros(n) == Feed(p, r, b) + Zeros(n + 1);
  }

  // ---------------------------------------------------------------- uniqueness

  lemma {:induction false} MulSnoc(a: Word, c: bool, b: Word)
    requires b != []
    ensures Mul(a + [c], b) == Xor(Mul(a, b) + [false], Zeros(|a|) + Times(c, b))
    decreases |a|
  {
    if a == [] {
      MulBit(c, b);
    } else {
      var n := |a|;
      var first, last := Times(a[0], b), Times(c, b);
      MulSnoc(a[1..], c, b);
      assert (a + [c])[1..] == a[1..] + [c];
      assert Mul(a + [c], b) == Xor(first + Zeros(n), [false] + Mul(a[1..] + [c], b));
      assert first + Zeros(n) == first + Zeros(n - 1) + [false];
      MulSnocStep(first + Zeros(n - 1), Mul(a[1..], b), Zeros(n - 1) + last);
      assert [false] + (Zeros(n - 1) + last) == Zeros(n) + last;
    }
  }

  lemma {:induction false} MulBit(c: bool, b: Word)
    requires b != []
    ensures Mul([] + [c], b) == Xor(Mul([], b) + [false], Zeros(0) + Times(c, b))
  {
    var last := Times(c, b);
    assert [c][1..] == [] && [] + [c] == [c];
    assert [false] + Zeros(|b| - 1) == Zeros(|b|) == Zeros(|b| - 1) + [false];
    assert last + Zeros(0) == last == Zeros(0) + last;
    XorZeros(last);
  }

  lemma {:induction false} MulSnocStep(x: Word, y: Word, z: Word)
    requires |x| == |y| + 1 == |z|
    ensures Xor(x + [false], [false] + Xor(y + [false], z)) == Xor(Xor(x, [false] + y) + [false], [false] + z)
  {
    assert [false] + (y + [false]) == ([false] + y) + [false];
    XorPad(y + [false], z, 0);
    XorAssoc(x + [false], ([false] + y) + [false], [false] + z);
    assert Xor(x, [false] + y) + [false] == Xor(x + [false], ([false] + y) + [false]);
  }

  /** A multiple of a monic divisor of lower degree than the divisor is zero. */
  lemma {:induction false} SmallMultipleIsZero(q: Word, p: Word, rem: Word)
    requires |rem| == |p|
    requires Mul(q, p + [true]) == rem + Zeros(|q|)
    ensures q == Zeros(|q|) && rem == Zeros(|rem|)
    decreases |q|
  {
    if q == [] {
      assert rem == rem + Zeros(0) == Zeros(|p|);
    } else {
      var n := |q| - 1;
      var q', g := q[..n], p + [true];
      assert q == q' + [q[n]];
      MulSnoc(q', q[n], g);
      var top := n + |p|;
      assert Mul(q, g)[top] == q[n];
      assert (rem + Zeros(|q|))[top] == false;
      assert Zeros(n) + Zeros(|g|) == Zeros(|q| + |p|);
      XorZeros(Mul(q', g) + [false]);
      assert Mul(q, g) == Mul(q', g) + [false];
      assert rem + Zeros(|q|) == rem + Zeros(n) + [false];
      assert Mul(q', g) == Mul(q, g)[..top] == rem + Zeros(n);
      SmallMultipleIsZero(q', p, rem);
      assert q == Zeros(n) + [false] == Zeros(|q|);
    }
  }

  lemma {:induction false} MulDistributes(a: Word, b: Word, g: Word)
    requires |a| == |b| && g != []
    ensures Mul(Xor(a, b), g) == Xor(Mul(a, g), Mul(b, g))
    decreases |a|
  {
    if a == [] {
      XorZeros(Zeros(|g| - 1));
      assert b == [] && Xor(a, b) == [];
    } else {
      var n := |a| - 1;
      MulDistributes(a[1..], b[1..], g);
      assert Xor(a, b)[1..] == Xor(a[1..], b[1..]);
      var x, y, z := Times(a[0], g) + Zeros(n), Times(b[0], g) + Zeros(n), Times(a[0] != b[0], g) + Zeros(n);
      assert z == Xor(x, y) by { XorZeros(x); XorZeros(y); assert Zeros(|g|) + Zeros(n) == Zeros(|x|); }
      XorPad(Mul(a[1..], g), Mul(b[1..], g), 0);
      XorInterchange(x, [false] + Mul(a[1..], g), y, [false] + Mul(b[1..], g));
    }
  }

  /** There is only one remainder. */
  lemma {:induction false} RemainderUnique(m: Word, g: Word, rem: Word, rem': Word)
    requires g != [] && g[|g| - 1]
    requires IsRemainder(m, g, rem) && IsRemainder(m, g, rem')
    ensures rem == rem'
  {
    var q :| IsQuotient(m, g, rem, q);
    var q' :| IsQuotient(m, g, rem', q');
    var n, p := |q|, g[..|g| - 1];
    assert g == p + [true] && |q'| == n;
    var a, b, c, d := Mul(q, g), rem + Zeros(n), Mul(q', g), rem' + Zeros(n);
    MulDistributes(q, q', g);
    XorInterchange(a, b, c, d);
    XorZeros(m);
    XorCancel(Xor(a, c), Xor(b, d));
    XorPad(rem, rem', n);
    SmallMultipleIsZero(Xor(q, q'), p, Xor(rem, rem'));
    XorCancel(rem, rem');
  }
}
