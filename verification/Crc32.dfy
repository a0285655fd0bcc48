/**
 The one parameter set that the file checksum uses.
 */
module Crc32 {
  import opened Words
  import opened CrcModel
  import opened CrcTheorems
  import opened Polynomials

  const CRC_WIDTH: nat := 32

  /** The exponents of the generator below 32. */
  predicate IsExponent(i: nat) {
    || i == 0 || i == 1 || i == 2 || i == 4 || i == 5 || i == 7 || i == 8 || i == 10 || i == 11 || i == 12
    || i == 16 || i == 22 || i == 23 || i == 26
  }

  function Crc32Polynomial(): (w: Word)
    ensures |w| == CRC_WIDTH
    ensures forall i {:trigger w[i]} :: 0 <= i < CRC_WIDTH ==> (w[i] <==> IsExponent(i))
  {
    seq(CRC_WIDTH, i requires 0 <= i < CRC_WIDTH => IsExponent(i))
  }

  /** CRC_32(), the CRC of section 8 of RFC 1952. */
  const CRC_32: Parameters :=
    Parameters(CRC_WIDTH, CRC_WIDTH, Crc32Polynomial(), Ones(CRC_WIDTH), Ones(CRC_WIDTH), true, true)

  function Bit(b: bool): nat {
    if b then 1 else 0
  }

  lemma {:induction false} ToNatOfNibble(w: Word, k: nat)
    requires k + 4 <= |w|
    ensures ToNat(w[k..])
            == Bit(w[k]) + 2 * Bit(w[k + 1]) + 4 * Bit(w[k + 2]) + 8 * Bit(w[k + 3]) + 16 * ToNat(w[k + 4..])
  {
    ToNatOfBit(w, k);
    ToNatOfBit(w, k + 1);
    ToNatOfBit(w, k + 2);
    ToNatOfBit(w, k + 3);
  }

  lemma {:induction false} ToNatOfBit(w: Word, k: nat)
    requires k < |w|
    ensures ToNat(w[k..]) == Bit(w[k]) + 2 * ToNat(w[k + 1..])
  {
    assert w[k..][1..] == w[k + 1..];
  }

  /** The value of a byte of a word by its bits. */
  function ByteAt(w: Word, k: nat): nat
    requires k + 8 <= |w|
  {
    Bit(w[k]) + 2 * Bit(w[k + 1]) + 4 * Bit(w[k + 2]) + 8 * Bit(w[k + 3])
    + 16 * (Bit(w[k + 4]) + 2 * Bit(w[k + 5]) + 4 * Bit(w[k + 6]) + 8 * Bit(w[k + 7]))
  }

  lemma {:induction false} ToNatOfByte(w: Word, k: nat)
    requires k + 8 <= |w|
    ensures ToNat(w[k..]) == ByteAt(w, k) + 256 * ToNat(w[k + 8..])
  {
    ToNatOfNibble(w, k);
    ToNatOfNibble(w, k + 4);
  }

  lemma {:induction false} ToNatOfWord(w: Word)
    requires |w| == 32
    ensures ToNat(w) == ByteAt(w, 0) + 0x100 * ByteAt(w, 8) + 0x1_0000 * ByteAt(w, 16) + 0x100_0000 * ByteAt(w, 24)
  {
    ToNatOfByte(w, 0);
    ToNatOfByte(w, 8);
    ToNatOfByte(w, 16);
    ToNatOfByte(w, 24);
    assert w[0..] == w && w[32..] == [];
  }

  lemma {:induction false} OnesByte(k: nat)
    requires k + 8 <= 32
    ensures ByteAt(Ones(32), k) == 0xFF
  {
  }

  lemma {:induction false} LowBytes(w: Word)
    requires |w| == 32 && forall i :: 0 <= i < 16 ==> (w[i] <==> IsExponent(i))
    ensures ByteAt(w, 0) == 0xB7 && ByteAt(w, 8) == 0x1D
  {
  }

  lemma {:induction false} HighBytes(w: Word)
    requires |w| == 32 && forall i :: 16 <= i < 32 ==> (w[i] <==> IsExponent(i))
    ensures ByteAt(w, 16) == 0xC1 && ByteAt(w, 24) == 0x04
  {
  }

  lemma {:induction false} PolynomialInHex()
    ensures ToNat(Crc32Polynomial()) == 0x04C1_1DB7
  {
    var w := Crc32Polynomial();
    ToNatOfWord(w);
    LowBytes(w);
    HighBytes(w);
  }

  lemma {:induction false} OnesInHex()
    ensures ToNat(Ones(32)) == 0xFFFF_FFFF
  {
    ToNatOfWord(Ones(32));
    OnesByte(0);
    OnesByte(8);
    OnesByte(16);
    OnesByte(24);
  }

  /** All the constants, with the words in the source's hexadecimal. */
  lemma {:induction false} Crc32InHex()
    ensures ToNat(CRC_32.polynomial) == 0x04C1_1DB7
    ensures ToNat(CRC_32.initialValue) == ToNat(CRC_32.finalXOR) == 0xFFFF_FFFF
    ensures CRC_32.reflectInput && CRC_32.reflectOutput && CRC_32.digits == CRC_32.width == 32
  {
    PolynomialInHex();
    OnesInHex();
  }

  // ---------------------------------------------------------------- what a CRC-32 is

  /** The data with each byte's bits reversed, times x^32, plus ones in front. */
  function Crc32Dividend(data: seq<Byte>): (m: Word)
    ensures |m| == 32 + 8 * |data|
  {
    Xor(Zeros(32) + DataPolynomial(ReverseEach(data)), Zeros(8 * |data|) + Ones(32))
  }

  lemma {:induction false} DividendOfCrc32(data: seq<Byte>)
    ensures CRC_32.Valid() && DividendOf(CRC_32, data, CRC_32.initialValue) == Crc32Dividend(data)
    ensures Generator(CRC_32) == Crc32Polynomial() + [true]
    ensures InMask(CRC_32.initialValue, 32)
  {
    assert Ones(32)[..32] == Ones(32) == Rev(Ones(32));
    assert Crc32Polynomial()[..32] == Crc32Polynomial();
    assert Ones(32)[32..] == Zeros(0);
  }

  /** The CRC-32 of any data is the complement of the reversed remainder by the generator, and of no other word. */
  lemma {:induction false} Crc32IsComplementedRemainder(data: seq<Byte>, w: Word)
    requires |w| == 32
    ensures CRC_32.Valid()
    ensures IsRemainder(Crc32Dividend(data), Crc32Polynomial() + [true], w)
       <==> forall i :: 0 <= i < 32 ==> Checksum(CRC_32, data)[i] == !w[31 - i]
  {
    DividendOfCrc32(data);
    ChecksumIsPolynomialRemainder(CRC_32, data, w);
    Complement(Checksum(CRC_32, data), w);
    assert CRC_32.finalXOR[..32] == Ones(32);
  }

  lemma {:induction false} Complement(crc: Word, w: Word)
    requires |crc| == |w| == 32
    ensures crc == Xor(Rev(w), Ones(32)) + Zeros(0) <==> forall i :: 0 <= i < 32 ==> crc[i] == !w[31 - i]
  {
    var x := Xor(Rev(w), Ones(32));
    assert x + Zeros(0) == x;
    assert forall i :: 0 <= i < 32 ==> x[i] == !w[31 - i];
  }
}
