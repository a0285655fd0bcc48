/**
 Machine words and GF(2) polynomials share one representation: a sequence of bits in
 which index k is bit k of the word and the coefficient of x^k of the polynomial.
 The length of the sequence is the width of the C type.
 */
module Words {

  type Word = seq<bool>

  const CHAR_BIT: nat := 8

  /** An `unsigned char`. */
  type Byte = w: Word | |w| == 8 witness [false, false, false, false, false, false, false, false]

  function Zeros(n: nat): (w: Word)
    ensures |w| == n
    ensures forall i :: 0 <= i < n ==> !w[i]
  {
    seq(n, _ => false)
  }

  function Ones(n: nat): (w: Word)
    ensures |w| == n
    ensures forall i :: 0 <= i < n ==> w[i]
  {
    seq(n, _ => true)
  }

  function Xor(a: Word, b: Word): (w: Word)
    requires |a| == |b|
    ensures |w| == |a|
    ensures forall i {:trigger w[i]} :: 0 <= i < |w| ==> w[i] == (a[i] != b[i])
  {
    seq(|a|, i requires 0 <= i < |a| => a[i] != b[i])
  }

  function And(a: Word, b: Word): (w: Word)
    requires |a| == |b|
    ensures |w| == |a|
    ensures forall i {:trigger w[i]} :: 0 <= i < |w| ==> w[i] == (a[i] && b[i])
  {
    seq(|a|, i requires 0 <= i < |a| => a[i] && b[i])
  }

  /** `a << k`, the bits that leave the type being lost. */
  function Shl(a: Word, k: nat): (w: Word)
    requires k <= |a|
    ensures |w| == |a|
  {
    Zeros(k) + a[..|a| - k]
  }

  /** `a >> k`, unsigned. */
  function Shr(a: Word, k: nat): (w: Word)
    requires k <= |a|
    ensures |w| == |a|
  {
    a[k..] + Zeros(k)
  }

  /** Conversion of an unsigned value to a type of n bits: zero extension or truncation. */
  function Cast(a: Word, n: nat): (w: Word)
    ensures |w| == n
  {
    if |a| <= n then a + Zeros(n - |a|) else a[..n]
  }

  /** The word read backwards. */
  function Rev(a: Word): (w: Word)
    ensures |w| == |a|
    ensures forall i {:trigger w[i]} :: 0 <= i < |a| ==> w[i] == a[|a| - 1 - i]
  {
    seq(|a|, i requires 0 <= i < |a| => a[|a| - 1 - i])
  }

  function FromNat(v: nat, n: nat): (w: Word)
    ensures |w| == n
  {
    if n == 0 then [] else [v % 2 == 1] + FromNat(v / 2, n - 1)
  }

  /** The byte with the given value. */
  function ByteOf(v: nat): Byte {
    FromNat(v, CHAR_BIT)
  }

  function ToNat(w: Word): nat
  {
    if w == [] then 0 else (if w[0] then 1 else 0) + 2 * ToNat(w[1..])
  }

  function Pow2(n: nat): (p: nat)
    ensures p > 0
  {
    if n == 0 then 1 else 2 * Pow2(n - 1)
  }

  lemma {:induction false} FromToNat(w: Word)
    ensures ToNat(w) < Pow2(|w|)
    ensures FromNat(ToNat(w), |w|) == w
  {
    if w == [] {
    } else {
      FromToNat(w[1..]);
      assert ToNat(w) / 2 == ToNat(w[1..]);
      assert w == [w[0]] + w[1..];
    }
  }

  lemma {:induction false} ToFromNat(v: nat, n: nat)
    requires v < Pow2(n)
    ensures ToNat(FromNat(v, n)) == v
  {
    if n == 0 {
    } else {
      ToFromNat(v / 2, n - 1);
      assert FromNat(v, n)[1..] == FromNat(v / 2, n - 1);
    }
  }

  lemma {:induction false} ByteToNat(b: Byte)
    ensures ToNat(b) < 256 && ByteOf(ToNat(b)) == b
  {
    FromToNat(b);
    assert Pow2(4) == 16;
  }

  lemma {:induction false} XorZeros(a: Word)
    ensures Xor(a, Zeros(|a|)) == a && Xor(Zeros(|a|), a) == a && Xor(a, a) == Zeros(|a|)
  {
  }

  lemma {:induction false} XorCancel(a: Word, b: Word)
    requires |a| == |b|
    ensures Xor(Xor(a, b), b) == a
    ensures Xor(a, b) == Zeros(|a|) ==> a == b
  {
    assert forall i :: 0 <= i < |a| ==> Zeros(|a|)[i] == false;
    if Xor(a, b) == Zeros(|a|) {
      forall i | 0 <= i < |a| ensures a[i] == b[i] {
        assert Xor(a, b)[i] == Zeros(|a|)[i];
      }
    }
  }

  lemma {:induction false} XorAssoc(a: Word, b: Word, c: Word)
    requires |a| == |b| == |c|
    ensures Xor(Xor(a, b), c) == Xor(a, Xor(b, c))
  {
  }

  lemma {:induction false} XorCommute(a: Word, b: Word)
    requires |a| == |b|
    ensures Xor(a, b) == Xor(b, a)
  {
  }

  lemma {:induction false} XorInterchange(a: Word, b: Word, c: Word, d: Word)
    requires |a| == |b| == |c| == |d|
    ensures Xor(Xor(a, b), Xor(c, d)) == Xor(Xor(a, c), Xor(b, d))
  {
  }

  lemma {:induction false} RevXor(a: Word, b: Word)
    requires |a| == |b|
    ensures Rev(Xor(a, b)) == Xor(Rev(a), Rev(b))
  {
  }

  lemma {:induction false} RevConcat(a: Word, b: Word)
    ensures Rev(a + b) == Rev(b) + Rev(a)
    ensures Rev(Rev(a)) == a
  {
  }

  lemma {:induction false} RevZeros(n: nat)
    ensures Rev(Zeros(n)) == Zeros(n)
  {
  }
}
