/**
 Which corruptions a checksum is certain to notice.
 */
module BurstErrors {
  import opened Words
  import opened Division
  import opened CrcModel
  import opened CrcTheorems

  /** The two inputs agree, bit for bit in stream order, outside the window [lo, lo + k). */
  predicate DifferOnlyWithin(p: Parameters, a: seq<Byte>, b: seq<Byte>, lo: nat, k: nat) {
    && |a| == |b|
    && lo + k <= 8 * |a|
    && var s, t := Stream(a, p.reflectInput), Stream(b, p.reflectInput);
       s[..lo] == t[..lo] && s[lo + k..] == t[lo + k..]
  }

  /** Every change confined to as many consecutive bits as the CRC is wide alters the CRC. */
  ghost predicate DetectsBursts(p: Parameters)
    requires p.Valid()
  {
    forall a: seq<Byte>, b: seq<Byte>, lo: nat, k: nat :: DifferOnlyWithin(p, a, b, lo, k) && k <= p.width && a != b ==>
      Checksum(p, a) != Checksum(p, b)
  }

  lemma {:induction false} ScaledDifference(poly: Word, r: Word, s: Word, t: Word, k: nat)
    requires |poly| > 0 && |r| == k + |poly| && |s| == |t|
    ensures Xor(Divide(Zeros(k) + poly, r, s), Divide(Zeros(k) + poly, r, t))
         == Zeros(k) + Divide(poly, Zeros(|poly|), Xor(s, t))
  {
    XorZeros(r);
    DivideLinear(Zeros(k) + poly, r, r, s, t);
    assert Zeros(k) + Zeros(|poly|) == Zeros(|r|);
    DivideEmbed(poly, Zeros(|poly|), Xor(s, t), k);
  }

  /** The difference of two remainders is what the register makes of the difference of the streams. */
  lemma {:induction false} RemainderDifference(p: Parameters, a: seq<Byte>, b: seq<Byte>, r: Word)
    requires p.Valid() && |r| == p.digits && |a| == |b|
    ensures Turn(Xor(Remainder(p, a, r)[..p.width], Remainder(p, b, r)[..p.width]), p.reflectInput)
         == Divide(p.polynomial[..p.width], Zeros(p.width), Xor(Stream(a, p.reflectInput), Stream(b, p.reflectInput)))
  {
    var s, t := Stream(a, p.reflectInput), Stream(b, p.reflectInput);
    var poly, n, k := p.polynomial[..p.width], p.width, p.digits - p.width;
    if p.reflectInput {
      var q := ScaledPolynomial(p);
      ScaledDifference(poly, Rev(r), s, t, k);
      LowOfReversed(Divide(q, Rev(r), s), Divide(q, Rev(r), t), Divide(poly, Zeros(n), Xor(s, t)), n);
    } else {
      XorZeros(r[..n]);
      DivideLinear(poly, r[..n], r[..n], s, t);
    }
  }

  lemma {:induction false} LowOfReversed(x: Word, y: Word, d: Word, n: nat)
    requires |x| == |y| && |d| == n <= |x| && Xor(x, y) == Zeros(|x| - n) + d
    ensures Rev(Xor(Rev(x)[..n], Rev(y)[..n])) == d
  {
    forall i | 0 <= i < n ensures Rev(Xor(Rev(x)[..n], Rev(y)[..n]))[i] == d[i] {
      assert Xor(x, y)[|x| - n + i] == d[i];
    }
  }

  lemma {:induction false} ChecksumsDifferByRegister(p: Parameters, a: seq<Byte>, b: seq<Byte>)
    requires p.Valid() && |a| == |b|
    ensures Checksum(p, a) == Checksum(p, b) <==>
            Divide(p.polynomial[..p.width], Zeros(p.width), Xor(Stream(a, p.reflectInput), Stream(b, p.reflectInput)))
              == Zeros(p.width)
  {
    var x, y := Remainder(p, a, p.initialValue), Remainder(p, b, p.initialValue);
    FinalizedInjective(p, x, y);
    RemainderDifference(p, a, b, p.initialValue);
    var z := Xor(x[..p.width], y[..p.width]);
    XorZeros(x[..p.width]);
    if z == Zeros(p.width) {
      XorCancel(x[..p.width], y[..p.width]);
      RevZeros(p.width);
    }
    RevConcat(z, []);
    RevZeros(p.width);
  }

  /** A stream that is zero outside a window reaches zero exactly when the window does. */
  lemma {:induction false} WindowDecides(poly: Word, d: Word, lo: nat, k: nat)
    requires |poly| > 0 && poly[0] && lo + k <= |d|
    requires d[..lo] == Zeros(lo) && d[lo + k..] == Zeros(|d| - lo - k)
    requires Divide(poly, Zeros(|poly|), d) == Zeros(|poly|)
    ensures Divide(poly, Zeros(|poly|), d[lo..lo + k]) == Zeros(|poly|)
  {
    var zero, mid, last := Zeros(|poly|), d[lo..lo + k], |d| - lo - k;
    assert d == Zeros(lo) + mid + Zeros(last);
    DivideConcat(poly, zero, Zeros(lo) + mid, Zeros(last));
    DivideConcat(poly, zero, Zeros(lo), mid);
    DivideZeros(poly, lo);
    DivideZeros(poly, last);
    DivideInjective(poly, Divide(poly, zero, mid), zero, Zeros(last));
  }

  lemma {:induction false} OnlyZeroWindowVanishes(poly: Word, d: Word, lo: nat, k: nat)
    requires |poly| > 0 && poly[0] && lo + k <= |d| && k <= |poly|
    requires d[..lo] == Zeros(lo) && d[lo + k..] == Zeros(|d| - lo - k)
    requires Divide(poly, Zeros(|poly|), d) == Zeros(|poly|)
    ensures d == Zeros(|d|)
  {
    WindowDecides(poly, d, lo, k);
    ShortStreamDetected(poly, d[lo..lo + k]);
    ZeroOutsideWindow(d, lo, k);
  }

  /** With a constant term in the polynomial, a burst that leaves the checksum alone is no change at all. */
  lemma {:induction false} BurstDetected(p: Parameters, a: seq<Byte>, b: seq<Byte>, lo: nat, k: nat)
    requires p.Valid() && p.polynomial[0] && k <= p.width
    requires DifferOnlyWithin(p, a, b, lo, k) && Checksum(p, a) == Checksum(p, b)
    ensures a == b
  {
    var s, t := Stream(a, p.reflectInput), Stream(b, p.reflectInput);
    ChecksumsDifferByRegister(p, a, b);
    WindowOfXor(s, t, lo, k);
    OnlyZeroWindowVanishes(p.polynomial[..p.width], Xor(s, t), lo, k);
    XorCancel(s, t);
    StreamInjective(a, b, p.reflectInput);
  }

  lemma {:induction false} WindowOfXor(s: Word, t: Word, lo: nat, k: nat)
    requires |s| == |t| && lo + k <= |s|
    requires s[..lo] == t[..lo] && s[lo + k..] == t[lo + k..]
    ensures Xor(s, t)[..lo] == Zeros(lo) && Xor(s, t)[lo + k..] == Zeros(|s| - lo - k)
  {
    assert Xor(s, t)[..lo] == Xor(s[..lo], t[..lo]);
    assert Xor(s, t)[lo + k..] == Xor(s[lo + k..], t[lo + k..]);
    XorZeros(s[..lo]);
    XorZeros(s[lo + k..]);
  }

  lemma {:induction false} ZeroOutsideWindow(d: Word, lo: nat, k: nat)
    requires lo + k <= |d|
    requires d[..lo] == Zeros(lo) && d[lo + k..] == Zeros(|d| - lo - k) && d[lo..lo + k] == Zeros(k)
    ensures d == Zeros(|d|)
  {
    assert d == d[..lo] + d[lo..lo + k] + d[lo + k..];
  }

  // ---------------------------------------------------------------- the converse

  /** The data whose stream is the given bits. */
  function DataOf(bits: Word, lowestFirst: bool): (data: seq<Byte>)
    requires |bits| % 8 == 0
    ensures |data| == |bits| / 8
  {
    if bits == [] then []
    else
      var n := |bits| - 8;
      DataOf(bits[..n], lowestFirst) + [if lowestFirst then bits[n..] else Rev(bits[n..])]
  }

  lemma {:induction false} DataOfSnoc(bits: Word, last: Byte, lowestFirst: bool)
    requires |bits| % 8 == 0
    ensures DataOf(bits + last, lowestFirst) == DataOf(bits, lowestFirst) + [if lowestFirst then last else Rev(last)]
  {
    assert (bits + last)[..|bits|] == bits && (bits + last)[|bits|..] == last;
  }

  lemma {:induction false} StreamOfData(bits: Word, lowestFirst: bool)
    requires |bits| % 8 == 0
    ensures Stream(DataOf(bits, lowestFirst), lowestFirst) == bits
    decreases |bits|
  {
    if bits == [] {
    } else {
      var n := |bits| - 8;
      var init, last := bits[..n], bits[n..];
      assert bits == init + last;
      StreamOfData(init, lowestFirst);
      DataOfSnoc(init, last, lowestFirst);
      RevConcat(last, []);
      StreamSnoc(DataOf(bits, lowestFirst), DataOf(init, lowestFirst),
                 if lowestFirst then last else Rev(last), lowestFirst);
    }
  }

  /** The burst that a polynomial without constant term overlooks: the generator divided by x. */
  function BlindSpot(poly: Word): (d: Word)
    requires poly != []
    ensures |d| == |poly|
  {
    Rev(poly[1..] + [true])
  }

  lemma {:induction false} BlindSpotVanishes(poly: Word)
    requires poly != [] && !poly[0]
    ensures Divide(poly, Zeros(|poly|), BlindSpot(poly)) == Zeros(|poly|)
    ensures BlindSpot(poly)[0]
  {
    var n, load := |poly|, poly[1..] + [true];
    DivideFromZero(poly, BlindSpot(poly));
    RevConcat(load, []);
    assert Load(BlindSpot(poly), n) == load;
    FeedZero(poly, load, n);
    FeedNotInjective(poly);
    DivideZeros(poly, n - 1);
  }

  /** How many bits fill the last byte. */
  function Padding(n: nat): (k: nat)
    ensures (k + n) % 8 == 0
  {
    (8 - n % 8) % 8
  }

  /** Two streams on whose difference the register ends at zero are two data with one checksum. */
  lemma {:induction false} BurstMissed(p: Parameters, lo: nat, s: Word, t: Word)
    requires p.Valid() && |s| == |t| == lo + p.width && |s| % 8 == 0
    requires s != t && s[..lo] == t[..lo]
    requires Divide(p.polynomial[..p.width], Zeros(p.width), Xor(s, t)) == Zeros(p.width)
    ensures var a, b := DataOf(s, p.reflectInput), DataOf(t, p.reflectInput);
            DifferOnlyWithin(p, a, b, lo, p.width) && a != b && Checksum(p, a) == Checksum(p, b)
  {
    var a, b := DataOf(s, p.reflectInput), DataOf(t, p.reflectInput);
    StreamOfData(s, p.reflectInput);
    StreamOfData(t, p.reflectInput);
    StreamsDiffer(p, a, b, s, t, lo);
    ChecksumsEqual(p, a, b, s, t);
  }

  lemma {:induction false} ChecksumsEqual(p: Parameters, a: seq<Byte>, b: seq<Byte>, s: Word, t: Word)
    requires p.Valid() && |a| == |b| && Stream(a, p.reflectInput) == s && t == Stream(b, p.reflectInput)
    requires Divide(p.polynomial[..p.width], Zeros(p.width), Xor(s, t)) == Zeros(p.width)
    ensures Checksum(p, a) == Checksum(p, b)
  {
    ChecksumsDifferByRegister(p, a, b);
  }

  lemma {:induction false} StreamsDiffer(p: Parameters, a: seq<Byte>, b: seq<Byte>, s: Word, t: Word, lo: nat)
    requires p.Valid() && Stream(a, p.reflectInput) == s != t == Stream(b, p.reflectInput)
    requires |s| == |t| == lo + p.width && s[..lo] == t[..lo]
    ensures DifferOnlyWithin(p, a, b, lo, p.width) && a != b
  {
    assert s[lo + p.width..] == [] == t[lo + p.width..];
  }

  /** Leading zeros leave a register of zero alone, so data may be padded in front. */
  lemma {:induction false} PaddingVanishes(poly: Word, d: Word, lo: nat)
    requires poly != [] && |d| == |poly|
    ensures Divide(poly, Zeros(|poly|), Xor(Zeros(lo) + d, Zeros(lo + |d|))) == Divide(poly, Zeros(|poly|), d)
  {
    XorZeros(Zeros(lo) + d);
    DivideConcat(poly, Zeros(|poly|), Zeros(lo), d);
    DivideZeros(poly, lo);
  }

  lemma {:induction false} PaddedDiffers(d: Word, lo: nat)
    requires d != [] && d[0]
    ensures var s, t := Zeros(lo) + d, Zeros(lo + |d|); s != t && s[..lo] == t[..lo]
  {
    var s, t := Zeros(lo) + d, Zeros(lo + |d|);
    assert s[lo] && !t[lo];
    assert s[..lo] == Zeros(lo) && t[..lo] == Zeros(lo);
  }

  lemma {:induction false} NotDetected(p: Parameters, a: seq<Byte>, b: seq<Byte>, lo: nat)
    requires p.Valid() && DifferOnlyWithin(p, a, b, lo, p.width) && a != b && Checksum(p, a) == Checksum(p, b)
    ensures !DetectsBursts(p)
  {
  }

  lemma {:induction false} BlindSpotStreams(poly: Word, lo: nat, s: Word, t: Word)
    requires poly != [] && !poly[0]
    requires s == Zeros(lo) + BlindSpot(poly) && t == Zeros(lo + |poly|)
    ensures s != t && s[..lo] == t[..lo] && Divide(poly, Zeros(|poly|), Xor(s, t)) == Zeros(|poly|)
  {
    BlindSpotVanishes(poly);
    PaddedDiffers(BlindSpot(poly), lo);
    PaddingVanishes(poly, BlindSpot(poly), lo);
  }

  /** Without a constant term some change of exactly that many bits goes unnoticed. */
  lemma {:induction false} BlindSpotMissed(p: Parameters)
    requires p.Valid() && !p.polynomial[0]
    ensures !DetectsBursts(p)
  {
    var lo, poly := Padding(p.width), p.polynomial[..p.width];
    var s, t := Zeros(lo) + BlindSpot(poly), Zeros(lo + p.width);
    BlindSpotStreams(poly, lo, s, t);
    BurstMissed(p, lo, s, t);
    NotDetected(p, DataOf(s, p.reflectInput), DataOf(t, p.reflectInput), lo);
  }

  /** All bursts as wide as the CRC are detected exactly when the polynomial's low bit is set. */
  lemma {:induction false} BurstsDetectedExactlyWithConstantTerm(p: Parameters)
    requires p.Valid()
    ensures DetectsBursts(p) <==> p.polynomial[0]
  {
    if p.polynomial[0] {
      forall a: seq<Byte>, b: seq<Byte>, lo: nat, k: nat
        | DifferOnlyWithin(p, a, b, lo, k) && k <= p.width && Checksum(p, a) == Checksum(p, b)
        ensures a == b
      {
        BurstDetected(p, a, b, lo, k);
      }
    } else {
      BlindSpotMissed(p);
    }
  }
}
