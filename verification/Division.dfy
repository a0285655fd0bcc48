/**
 The reference algorithm: a shift register that divides a stream of bits by the
 polynomial x^|p| + p, most significant bit first.
 */
module Division {
  import opened Words

  /** One step of the register `r` on stream bit `b`. */
  function Feed(p: Word, r: Word, b: bool): (w: Word)
    requires |p| == |r| > 0
    ensures |w| == |r|
  {
    var shifted := [false] + r[..|r| - 1];
    if r[|r| - 1] != b then Xor(shifted, p) else shifted
  }

  /** The register after the whole stream. */
  function Divide(p: Word, r: Word, bits: Word): (w: Word)
    requires |p| == |r| > 0
    ensures |w| == |r|
  {
    if bits == [] then r
    else Feed(p, Divide(p, r, bits[..|bits| - 1]), bits[|bits| - 1])
  }

  lemma {:induction false} DivideConcat(p: Word, r: Word, a: Word, b: Word)
    requires |p| == |r| > 0
    ensures Divide(p, r, a + b) == Divide(p, Divide(p, r, a), b)
    decreases |b|
  {
    if b == [] {
      assert a + b == a;
    } else {
      var n := |b| - 1;
      assert (a + b)[..|a + b| - 1] == a + b[..n];
      DivideConcat(p, r, a, b[..n]);
    }
  }

  lemma {:induction false} DivideOne(p: Word, r: Word, b: bool)
    requires |p| == |r| > 0
    ensures Divide(p, r, [b]) == Feed(p, r, b)
  {
    assert Divide(p, r, [b][..0]) == r;
  }

  lemma {:induction false} DivideCons(p: Word, r: Word, bits: Word, b: bool, rest: Word)
    requires |p| == |r| > 0 && bits == [b] + rest
    ensures Divide(p, r, bits) == Divide(p, Feed(p, r, b), rest)
  {
    DivideConcat(p, r, [b], rest);
    DivideOne(p, r, b);
  }

  lemma {:induction false} DivideFront(p: Word, r: Word, bits: Word)
    requires |p| == |r| > 0 && bits != []
    ensures Divide(p, r, bits) == Divide(p, Feed(p, r, bits[0]), bits[1..])
  {
    assert [bits[0]] + bits[1..] == bits;
    DivideCons(p, r, bits, bits[0], bits[1..]);
  }

  // ---------------------------------------------------------------- linearity

  lemma {:induction false} FeedLinear(p: Word, r: Word, s: Word, a: bool, b: bool)
    requires |p| == |r| == |s| > 0
    ensures Feed(p, Xor(r, s), a != b) == Xor(Feed(p, r, a), Feed(p, s, b))
  {
    var n := |r| - 1;
    var x, y := [false] + r[..n], [false] + s[..n];
    assert [false] + Xor(r, s)[..n] == Xor(x, y);
    var f, g := r[n] != a, s[n] != b;
    if f && g {
      XorInterchange(x, y, p, p);
      XorZeros(p);
      XorZeros(Xor(x, y));
    } else if f {
      XorCommute(x, y);
      XorAssoc(y, x, p);
      XorCommute(y, Xor(x, p));
    } else if g {
      XorAssoc(x, y, p);
    }
  }

  /** The register is a GF(2)-linear function of its start value and the stream together. */
  lemma {:induction false} DivideLinear(p: Word, r: Word, s: Word, d: Word, e: Word)
    requires |p| == |r| == |s| > 0 && |d| == |e|
    ensures Divide(p, Xor(r, s), Xor(d, e)) == Xor(Divide(p, r, d), Divide(p, s, e))
    decreases |d|
  {
    if d == [] {
      assert e == [] && Xor(d, e) == [];
    } else {
      var n := |d| - 1;
      DivideLinear(p, r, s, d[..n], e[..n]);
      assert Xor(d, e)[..n] == Xor(d[..n], e[..n]);
      FeedLinear(p, Divide(p, r, d[..n]), Divide(p, s, e[..n]), d[n], e[n]);
    }
  }

  // ---------------------------------------------------------------- loading bits early

  /** The stream `d` placed in the top bits of a register of n bits, its first bit highest. */
  function Load(d: Word, n: nat): (w: Word)
    requires |d| <= n
    ensures |w| == n
  {
    Zeros(n - |d|) + Rev(d)
  }

  lemma {:induction false} FeedShiftsLow(p: Word, r: Word, y: Word)
    requires |p| == |r| == |y| > 0 && !y[|y| - 1]
    ensures Feed(p, Xor(r, y), false) == Xor(Feed(p, r, false), Shl(y, 1))
  {
    FeedLinear(p, r, y, false, false);
    assert Feed(p, y, false) == Shl(y, 1);
  }

  lemma {:induction false} LoadSplit(d: Word, n: nat)
    requires 0 < |d| <= n
    ensures Load(d, n) == Xor(Load([d[0]], n), Shr(Load(d[1..], n), 1))
    ensures Shl(Shr(Load(d[1..], n), 1), 1) == Load(d[1..], n)
    ensures !Shr(Load(d[1..], n), 1)[n - 1]
  {
    var later := Load(d[1..], n);
    assert Rev(d) == Rev(d[1..]) + [d[0]];
    assert Shr(later, 1) == Zeros(n - |d|) + Rev(d[1..]) + [false];
    assert Load([d[0]], n) == Zeros(n - |d|) + Zeros(|d| - 1) + [d[0]];
    assert !later[0];
    assert Shl(Shr(later, 1), 1) == [false] + later[1..];
  }

  lemma {:induction false} FeedPreload(p: Word, r: Word, b: bool)
    requires |p| == |r| > 0
    ensures Feed(p, r, b) == Feed(p, Xor(r, Load([b], |p|)), false)
  {
    var n := |p|;
    var x := Xor(r, Load([b], n));
    assert x[n - 1] == (r[n - 1] != b);
    assert x[..n - 1] == r[..n - 1];
  }

  lemma {:induction false} FeedZero(p: Word, r: Word, k: nat)
    requires |p| == |r| > 0 && k > 0
    ensures Divide(p, r, Zeros(k)) == Divide(p, Feed(p, r, false), Zeros(k - 1))
  {
    DivideFront(p, r, Zeros(k));
    assert Zeros(k)[1..] == Zeros(k - 1);
  }

  /**
   Up to |p| stream bits may be XORed into the top of the register first and the
   steps then run on zero bits: what the byte loops of the source do eight at a time.
   */
  lemma {:induction false} Preload(p: Word, r: Word, d: Word)
    requires |p| == |r| > 0 && |d| <= |p|
    ensures Divide(p, r, d) == Divide(p, Xor(r, Load(d, |p|)), Zeros(|d|))
    decreases |d|
  {
    var n := |p|;
    if d == [] {
      assert Load(d, n) == Zeros(n);
      XorZeros(r);
    } else {
      var x := Xor(r, Load([d[0]], n));
      var y := Shr(Load(d[1..], n), 1);
      assert Divide(p, r, d) == Divide(p, Feed(p, x, false), d[1..]) by {
        DivideFront(p, r, d);
        FeedPreload(p, r, d[0]);
      }
      Preload(p, Feed(p, x, false), d[1..]);
      assert Xor(r, Load(d, n)) == Xor(x, y)
             && Xor(Feed(p, x, false), Load(d[1..], n)) == Feed(p, Xor(x, y), false) by {
        LoadSplit(d, n);
        FeedShiftsLow(p, x, y);
        XorAssoc(r, Load([d[0]], n), y);
      }
      FeedZero(p, Xor(x, y), |d|);
    }
  }

  /** Zero bits shift a register whose top |bits| bits are clear. */
  lemma {:induction false} DivideShifts(p: Word, y: Word, k: nat)
    requires |p| == |y| > 0 && k <= |y|
    requires forall i :: |y| - k <= i < |y| ==> !y[i]
    ensures Divide(p, y, Zeros(k)) == Shl(y, k)
    decreases k
  {
    if k == 0 {
      assert Shl(y, 0) == y;
    } else {
      DivideShifts(p, y, k - 1);
      assert Zeros(k)[..k - 1] == Zeros(k - 1);
      assert Shl(Shl(y, k - 1), 1) == Shl(y, k);
      assert !Shl(y, k - 1)[|y| - 1];
    }
  }

  /** A start value of zero and a stream is that stream loaded and then shifted out. */
  lemma {:induction false} DivideFromZero(p: Word, d: Word)
    requires |d| <= |p| && |p| > 0
    ensures Divide(p, Zeros(|p|), d) == Divide(p, Load(d, |p|), Zeros(|d|))
  {
    Preload(p, Zeros(|p|), d);
    XorZeros(Load(d, |p|));
  }

  lemma {:induction false} SplitTopByte(r: Word, d: Word)
    requires |r| >= 8 && |d| == 8
    ensures Xor(r, Load(d, |r|)) == Xor(r[..|r| - 8] + Zeros(8), Load(Xor(Rev(r[|r| - 8..]), d), |r|))
  {
    var n := |r|;
    var top := r[n - 8..];
    RevXor(Rev(top), d);
    RevConcat(top, []);
    assert Rev(Xor(Rev(top), d)) == Xor(top, Rev(d));
    assert r == r[..n - 8] + top;
  }

  /** The table method in one equation: eight steps are a shift and the entry of the top byte. */
  lemma {:induction false} ByteAtATime(p: Word, r: Word, d: Word)
    requires |p| == |r| >= 8 && |d| == 8
    ensures |Rev(r[|r| - 8..])| == 8
    ensures Divide(p, r, d) == Xor(Shl(r, 8), Divide(p, Zeros(|p|), Xor(Rev(r[|r| - 8..]), d)))
  {
    var n := |p|;
    var low := r[..n - 8] + Zeros(8);
    var e := Xor(Rev(r[n - 8..]), d);
    Preload(p, r, d);
    SplitTopByte(r, d);
    XorZeros(Zeros(8));
    DivideLinear(p, low, Load(e, n), Zeros(8), Zeros(8));
    DivideShifts(p, low, 8);
    assert Shl(low, 8) == Shl(r, 8);
    DivideFromZero(p, e);
  }

  // ---------------------------------------------------------------- scaling by x^k

  /** Multiplying divisor and register by x^k multiplies the remainder by x^k. */
  lemma {:induction false} DivideEmbed(p: Word, r: Word, bits: Word, k: nat)
    requires |p| == |r| > 0
    ensures Divide(Zeros(k) + p, Zeros(k) + r, bits) == Zeros(k) + Divide(p, r, bits)
    decreases |bits|
  {
    if bits == [] {
    } else {
      var n := |bits| - 1;
      DivideEmbed(p, r, bits[..n], k);
      FeedEmbed(p, Divide(p, r, bits[..n]), bits[n], k);
    }
  }

  lemma {:induction false} FeedEmbed(p: Word, r: Word, b: bool, k: nat)
    requires |p| == |r| > 0
    ensures Feed(Zeros(k) + p, Zeros(k) + r, b) == Zeros(k) + Feed(p, r, b)
  {
    var t, n := Zeros(k) + r, |r| - 1;
    var shifted := [false] + r[..n];
    assert t[k + n] == r[n];
    assert t[..k + n] == Zeros(k) + r[..n];
    assert [false] + (Zeros(k) + r[..n]) == Zeros(k) + shifted;
    if r[n] != b {
      XorBelow(Zeros(k), shifted, p);
    }
  }

  lemma {:induction false} XorBelow(z: Word, a: Word, b: Word)
    requires |a| == |b| && z == Zeros(|z|)
    ensures Xor(z + a, z + b) == z + Xor(a, b)
  {
  }

  // ---------------------------------------------------------------- bijectivity

  /** A step loses nothing exactly when the divisor has a constant term. */
  lemma {:induction false} FeedInjective(p: Word, r: Word, s: Word, b: bool)
    requires |p| == |r| == |s| > 0 && p[0]
    requires Feed(p, r, b) == Feed(p, s, b)
    ensures r == s
  {
    var n := |r| - 1;
    var f, g := Feed(p, r, b), Feed(p, s, b);
    assert f[0] == (r[n] != b) && g[0] == (s[n] != b);
    forall i | 0 <= i < n ensures r[i] == s[i] {
      assert f[i + 1] == g[i + 1];
    }
  }

  lemma {:induction false} FeedNotInjective(p: Word)
    requires |p| > 0 && !p[0]
    ensures p[1..] + [true] != Zeros(|p|)
    ensures Feed(p, p[1..] + [true], false) == Feed(p, Zeros(|p|), false) == Zeros(|p|)
  {
    assert (p[1..] + [true])[|p| - 1] != Zeros(|p|)[|p| - 1];
    assert [false] + (p[1..] + [true])[..|p| - 1] == p;
    XorZeros(p);
  }

  lemma {:induction false} DivideInjective(p: Word, r: Word, s: Word, bits: Word)
    requires |p| == |r| == |s| > 0 && p[0]
    requires Divide(p, r, bits) == Divide(p, s, bits)
    ensures r == s
    decreases |bits|
  {
    if bits == [] {
    } else {
      var n := |bits| - 1;
      FeedInjective(p, Divide(p, r, bits[..n]), Divide(p, s, bits[..n]), bits[n]);
      DivideInjective(p, r, s, bits[..n]);
    }
  }

  lemma {:induction false} DivideZeros(p: Word, k: nat)
    requires |p| > 0
    ensures Divide(p, Zeros(|p|), Zeros(k)) == Zeros(|p|)
  {
    if k == 0 {
    } else {
      DivideZeros(p, k - 1);
      assert Zeros(k)[..k - 1] == Zeros(k - 1);
      assert [false] + Zeros(|p|)[..|p| - 1] == Zeros(|p|);
    }
  }

  lemma {:induction false} LoadZero(d: Word, n: nat)
    requires |d| <= n && Load(d, n) == Zeros(n)
    ensures d == Zeros(|d|)
  {
    forall i | 0 <= i < |d| ensures !d[i] {
      assert Load(d, n)[n - 1 - i] == d[i];
    }
  }

  /** A non-zero stream no longer than the divisor never leaves the zero register at zero. */
  lemma {:induction false} ShortStreamDetected(p: Word, d: Word)
    requires |p| > 0 && p[0] && |d| <= |p|
    requires Divide(p, Zeros(|p|), d) == Zeros(|p|)
    ensures d == Zeros(|d|)
  {
    var n := |p|;
    DivideFromZero(p, d);
    DivideZeros(p, |d|);
    DivideInjective(p, Load(d, n), Zeros(n), Zeros(|d|));
    LoadZero(d, n);
  }
}
