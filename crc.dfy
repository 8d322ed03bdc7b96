/**
  The bit-serial CRC-8 of the SHT2x family: generator 0x131, initial value 0,
  no reflection, no final XOR. The accumulator is a `uint8_t`; the shift and
  the XOR with the 16-bit polynomial happen after integer promotion and are
  truncated back to 8 bits on assignment.
 */
module Crc {
  import opened Sht2xConstants

  /** Integer promotion of a byte (only the low 16 bits matter here). */
  function Promote(b: bv8): bv16 { b as bv16 }

  /** Assignment of a promoted value back into a `uint8_t`. */
  function TruncateToByte(w: bv16): bv8 { (w & 0xFF) as bv8 }

  /**
    One bit of the division on the 8-bit accumulator, as a reference: shift
    left and XOR in the low byte 0x31 of the polynomial times the bit that
    was shifted out of position 7. `PromotedBitStep` is the step as the
    source writes it.
   */
  function CrcBitStep(crc: bv8): bv8
  {
    (crc << 1) ^ (0x31 * (crc >> 7))
  }

  /**
    The bit step as the source writes it: the promoted accumulator is shifted,
    XORed with the full 0x131 when bit 7 was set, and truncated to 8 bits on
    assignment. It agrees with the effective step on every byte.
   */
  function PromotedBitStep(crc: bv8): (r: bv8)
    ensures r == CrcBitStep(crc)
  {
    if crc & 0x80 != 0 then TruncateToByte((Promote(crc) << 1) ^ POLYNOMIAL)
    else TruncateToByte(Promote(crc) << 1)
  }

  /** `k` bit steps applied in a row. */
  function ShiftBits(crc: bv8, k: nat): bv8
  {
    if k == 0 then crc else CrcBitStep(ShiftBits(crc, k - 1))
  }

  /** The bit count of the inner loop of `CRC_Checksum`. */
  const BITS_PER_BYTE: nat := 8

  /** Folding one data byte into the accumulator: XOR in, then eight bit steps. */
  function CrcByte(crc: bv8, b: bv8): bv8
  {
    ShiftBits(crc ^ b, BITS_PER_BYTE)
  }

  /** The CRC-8 of a byte sequence, starting from 0 and folding left to right. */
  function Crc8(data: seq<bv8>): bv8
  {
    if data == [] then 0 else CrcByte(Crc8(data[..|data| - 1]), data[|data| - 1])
  }

  /**
    `CRC_Checksum`: computes the CRC over the first `noOfBytes` bytes of
    `data` and returns 0 when it equals `checksum` and 1 when it does not
    (so a nonzero result means mismatch).
   */
  method CrcChecksum(data: array<bv8>, noOfBytes: bv8, checksum: bv8) returns (mismatch: bv8)
    requires noOfBytes as int <= data.Length
    ensures mismatch == 0 <==> Crc8(data[..noOfBytes]) == checksum
    ensures mismatch == 1 <==> Crc8(data[..noOfBytes]) != checksum
  {
    var crc: bv8 := 0;
    var byteCtr: nat := 0;
    while byteCtr < noOfBytes as int
      invariant byteCtr <= noOfBytes as int
      invariant crc == Crc8(data[..byteCtr])
    {
      assert data[..byteCtr + 1][..byteCtr] == data[..byteCtr];
      crc := crc ^ data[byteCtr];
      ghost var start := crc;
      var bit: nat := BITS_PER_BYTE;
      while bit > 0
        invariant bit <= BITS_PER_BYTE
        invariant crc == ShiftBits(start, BITS_PER_BYTE - bit)
      {
        crc := PromotedBitStep(crc);
        bit := bit - 1;
      }
      byteCtr := byteCtr + 1;
    }
    mismatch := if crc != checksum then 1 else 0;
  }

  // ---------------------------------------------------------------------
  // Properties of the bit step
  // ---------------------------------------------------------------------

  /**
    The 9th bit of the polynomial cancels the bit shifted out of position 7,
    so the promoted value always fits in a byte and the truncation on
    assignment never discards a set bit.
   */
  lemma PromotedStepFits(crc: bv8)
    ensures crc & 0x80 != 0 ==> (Promote(crc) << 1) ^ POLYNOMIAL < 0x100
    ensures crc & 0x80 == 0 ==> Promote(crc) << 1 < 0x100
  {
  }

  /** The bit step by cases on bit 7: shift and XOR with 0x31 when it is set, shift only otherwise. */
  lemma CrcBitStepCases(crc: bv8)
    ensures crc & 0x80 != 0 ==> CrcBitStep(crc) == (crc << 1) ^ 0x31
    ensures crc & 0x80 == 0 ==> CrcBitStep(crc) == crc << 1
  {
  }

  /** The bit step in integer terms: doubling modulo 256, then XOR with 0x31 if bit 7 was set. */
  lemma CrcBitStepArithmetic(crc: bv8)
    ensures crc as int >= 128 ==> CrcBitStep(crc) == (((crc as int * 2) % 256) as bv8) ^ 0x31
    ensures crc as int < 128 ==> CrcBitStep(crc) == ((crc as int * 2) % 256) as bv8
  {
    TopBitIsHighHalf(crc);
    ShiftIsDoubling(crc);
    ByteIntRoundTrip(crc << 1);
    CrcBitStepCases(crc);
  }

  lemma TopBitIsHighHalf(crc: bv8)
    ensures crc & 0x80 != 0 <==> crc as int >= 128
  {
  }

  lemma ShiftIsDoubling(crc: bv8)
    ensures (crc << 1) as int == (crc as int * 2) % 256
  {
  }

  lemma ByteIntRoundTrip(b: bv8)
    ensures (b as int) as bv8 == b
  {
  }

  /** The bit step is linear over GF(2). */
  lemma CrcBitStepXor(a: bv8, b: bv8)
    ensures CrcBitStep(a ^ b) == CrcBitStep(a) ^ CrcBitStep(b)
  {
  }

  /** The bit step maps nonzero accumulators to nonzero accumulators. */
  lemma CrcBitStepNonzero(crc: bv8)
    ensures crc != 0 <==> CrcBitStep(crc) != 0
  {
  }

  lemma {:induction false} ShiftBitsXor(a: bv8, b: bv8, k: nat)
    ensures ShiftBits(a ^ b, k) == ShiftBits(a, k) ^ ShiftBits(b, k)
  {
    if k > 0 {
      ShiftBitsXor(a, b, k - 1);
      CrcBitStepXor(ShiftBits(a, k - 1), ShiftBits(b, k - 1));
    }
  }

  lemma {:induction false} ShiftBitsNonzero(crc: bv8, k: nat)
    ensures crc != 0 <==> ShiftBits(crc, k) != 0
  {
    if k > 0 {
      ShiftBitsNonzero(crc, k - 1);
      CrcBitStepNonzero(ShiftBits(crc, k - 1));
    }
  }

  // ---------------------------------------------------------------------
  // Properties of the CRC over a sequence
  // ---------------------------------------------------------------------

  function Zeros(n: nat): seq<bv8>
  {
    seq(n, _ => 0)
  }

  /** A run of zero bytes leaves the accumulator at 0. */
  lemma {:induction false} Crc8Zeros(n: nat)
    ensures Crc8(Zeros(n)) == 0
  {
    if n > 0 {
      assert Zeros(n)[..n - 1] == Zeros(n - 1);
      Crc8Zeros(n - 1);
      ShiftBitsNonzero(0, BITS_PER_BYTE);
    }
  }

  /** Appending the computed CRC to the data makes the CRC of the whole zero. */
  lemma Crc8AppendChecksum(data: seq<bv8>)
    ensures Crc8(data + [Crc8(data)]) == 0
  {
    var s := data + [Crc8(data)];
    assert s[..|s| - 1] == data;
    ShiftBitsNonzero(0, BITS_PER_BYTE);
  }

  /** Two different bytes stay different after one bit step. */
  lemma CrcBitStepInjective(u: bv8, v: bv8)
    ensures u != v <==> CrcBitStep(u) != CrcBitStep(v)
  {
    CrcBitStepXor(u, v);
    CrcBitStepNonzero(u ^ v);
  }

  lemma {:induction false} ShiftBitsInjective(u: bv8, v: bv8, k: nat)
    ensures u != v <==> ShiftBits(u, k) != ShiftBits(v, k)
  {
    if k > 0 {
      ShiftBitsInjective(u, v, k - 1);
      CrcBitStepInjective(ShiftBits(u, k - 1), ShiftBits(v, k - 1));
    }
  }

  /** Folding in a byte keeps different accumulators different, and different bytes give different accumulators. */
  lemma CrcByteInjective(c: bv8, b: bv8, c': bv8, b': bv8)
    ensures c ^ b != c' ^ b' <==> CrcByte(c, b) != CrcByte(c', b')
  {
    ShiftBitsInjective(c ^ b, c' ^ b', BITS_PER_BYTE);
  }

  lemma XorDistinct(c: bv8, x: bv8, e: bv8)
    ensures e != 0 <==> c ^ x != c ^ (x ^ e)
  {
  }

  /**
    Once the byte at position `i` is corrupted by `e`, the CRC of every
    longer prefix differs from the uncorrupted one.
   */
  lemma {:induction false} Crc8PrefixDiffers(data: seq<bv8>, i: nat, e: bv8, n: nat)
    requires i < n <= |data| && e != 0
    ensures Crc8(data[i := data[i] ^ e][..n]) != Crc8(data[..n])
  {
    var bad := data[i := data[i] ^ e];
    assert bad[..n][..n - 1] == bad[..n - 1];
    assert data[..n][..n - 1] == data[..n - 1];
    if n == i + 1 {
      assert bad[..i] == data[..i];
      XorDistinct(Crc8(data[..i]), data[i], e);
      CrcByteInjective(Crc8(data[..i]), data[i] ^ e, Crc8(data[..i]), data[i]);
    } else {
      Crc8PrefixDiffers(data, i, e, n - 1);
      CrcByteInjective(Crc8(bad[..n - 1]), data[n - 1], Crc8(data[..n - 1]), data[n - 1]);
    }
  }

  /**
    Any corruption confined to one data byte (in particular any single-bit
    error) changes the CRC.
   */
  lemma Crc8DetectsByteError(data: seq<bv8>, i: nat, e: bv8)
    requires i < |data| && e != 0
    ensures Crc8(data[i := data[i] ^ e]) != Crc8(data)
  {
    Crc8PrefixDiffers(data, i, e, |data|);
    assert data[..|data|] == data;
    assert data[i := data[i] ^ e][..|data|] == data[i := data[i] ^ e];
  }

  /**
    Corrupting one bit of the data or of the received checksum of a message
    whose checksum was correct makes the comparison of `CRC_Checksum` fail.
   */
  lemma SingleBitErrorsDetected(data: seq<bv8>, checksum: bv8, i: nat, bit: nat)
    requires Crc8(data) == checksum && i < |data| && bit < 8
    ensures Crc8(data[i := data[i] ^ (1 << bit)]) != checksum
    ensures Crc8(data) != checksum ^ (1 << bit)
  {
    assert (1 as bv8 << bit) != 0;
    Crc8DetectsByteError(data, i, 1 << bit);
  }

  /**
    Flipping one bit of the received checksum of any message, including an
    empty one, makes the comparison of `CRC_Checksum` fail.
   */
  lemma ChecksumBitErrorDetected(data: seq<bv8>, checksum: bv8, bit: nat)
    requires Crc8(data) == checksum && bit < 8
    ensures Crc8(data) != checksum ^ (1 << bit)
  {
    assert (1 as bv8 << bit) != 0;
  }

  /** Check values of the SHT2x checksum. */
  lemma Crc8CheckValues()
    ensures Crc8([0xDC]) == 0x79
    ensures Crc8([0x68, 0x3A]) == 0x7C
    ensures Crc8([0x4E, 0x85]) == 0x6B
  {
    assert [0x68, 0x3A][..1] == [0x68];
    assert Crc8([0x68]) == CrcByte(0, 0x68);
    assert [0x4E, 0x85][..1] == [0x4E];
    assert Crc8([0x4E]) == CrcByte(0, 0x4E);
  }
}
