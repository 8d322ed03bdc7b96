/**
  Placement of the electronic identification code. `getSerialNumber` reads
  8 bytes from the first memory location (four serial bytes, each followed
  by its CRC) and 6 bytes from the second (two serial bytes, a CRC, two
  serial bytes, a CRC), drops the CRC bytes and stores the eight serial bytes
  in a fixed order into an 8-byte buffer.
 */
module SerialNumber {

  const FIRST_READ_LENGTH: nat := 8
  const SECOND_READ_LENGTH: nat := 6

  /** The buffer slot that receives each serial byte, in arrival order. */
  const PLACEMENT: seq<nat> := [5, 4, 3, 2, 1, 0, 7, 6]

  /** Positions, within the two reads, of the CRC bytes that are discarded. */
  predicate IsFirstCrcPosition(i: nat) { i == 1 || i == 3 || i == 5 || i == 7 }
  predicate IsSecondCrcPosition(i: nat) { i == 2 || i == 5 }

  /** The eight serial bytes in the order they arrive on the bus. */
  function DataBytes(first: seq<bv8>, second: seq<bv8>): seq<bv8>
    requires |first| == FIRST_READ_LENGTH && |second| == SECOND_READ_LENGTH
  {
    [first[0], first[2], first[4], first[6], second[0], second[1], second[3], second[4]]
  }

  /** The bytes of a read from position `from` on that are not at a CRC position, in their order. */
  function NonCrcBytes(s: seq<bv8>, isCrc: nat -> bool, from: nat): seq<bv8>
    decreases |s| - from
  {
    if from >= |s| then []
    else (if isCrc(from) then [] else [s[from]]) + NonCrcBytes(s, isCrc, from + 1)
  }

  lemma FirstNonCrcBytes(first: seq<bv8>)
    requires |first| == FIRST_READ_LENGTH
    ensures NonCrcBytes(first, IsFirstCrcPosition, 0) == [first[0], first[2], first[4], first[6]]
  {
    assert NonCrcBytes(first, IsFirstCrcPosition, 8) == [];
    assert NonCrcBytes(first, IsFirstCrcPosition, 7) == [];
    assert NonCrcBytes(first, IsFirstCrcPosition, 6) == [first[6]];
    assert NonCrcBytes(first, IsFirstCrcPosition, 5) == [first[6]];
    assert NonCrcBytes(first, IsFirstCrcPosition, 4) == [first[4], first[6]];
    assert NonCrcBytes(first, IsFirstCrcPosition, 3) == [first[4], first[6]];
    assert NonCrcBytes(first, IsFirstCrcPosition, 2) == [first[2], first[4], first[6]];
    assert NonCrcBytes(first, IsFirstCrcPosition, 1) == [first[2], first[4], first[6]];
    assert NonCrcBytes(first, IsFirstCrcPosition, 0) == [first[0], first[2], first[4], first[6]];
  }

  lemma SecondNonCrcBytes(second: seq<bv8>)
    requires |second| == SECOND_READ_LENGTH
    ensures NonCrcBytes(second, IsSecondCrcPosition, 0) == [second[0], second[1], second[3], second[4]]
  {
    assert NonCrcBytes(second, IsSecondCrcPosition, 6) == [];
    assert NonCrcBytes(second, IsSecondCrcPosition, 5) == [];
    assert NonCrcBytes(second, IsSecondCrcPosition, 4) == [second[4]];
    assert NonCrcBytes(second, IsSecondCrcPosition, 3) == [second[3], second[4]];
    assert NonCrcBytes(second, IsSecondCrcPosition, 2) == [second[3], second[4]];
    assert NonCrcBytes(second, IsSecondCrcPosition, 1) == [second[1], second[3], second[4]];
    assert NonCrcBytes(second, IsSecondCrcPosition, 0) == [second[0], second[1], second[3], second[4]];
  }

  /**
    The serial bytes are exactly the bytes of the two reads that are not CRC
    bytes, in arrival order: nothing else is kept and nothing is reordered
    before placement.
   */
  lemma DataBytesAreNonCrcBytes(first: seq<bv8>, second: seq<bv8>)
    requires |first| == FIRST_READ_LENGTH && |second| == SECOND_READ_LENGTH
    ensures DataBytes(first, second) ==
      NonCrcBytes(first, IsFirstCrcPosition, 0) + NonCrcBytes(second, IsSecondCrcPosition, 0)
  {
    FirstNonCrcBytes(first);
    SecondNonCrcBytes(second);
  }

  /**
    The filled `serialNumber[8]` buffer: slot `PLACEMENT[k]` holds the k-th
    serial byte to arrive.
   */
  function SerialNumberLayout(first: seq<bv8>, second: seq<bv8>): (sn: seq<bv8>)
    requires |first| == FIRST_READ_LENGTH && |second| == SECOND_READ_LENGTH
    ensures |sn| == 8
    ensures forall k :: 0 <= k < 8 ==> sn[PLACEMENT[k]] == DataBytes(first, second)[k]
  {
    [second[1], second[0], first[6], first[4], first[2], first[0], second[4], second[3]]
  }

  /** Every slot 0..7 of the buffer is written by exactly one serial byte. */
  lemma PlacementIsPermutation()
    ensures |PLACEMENT| == 8
    ensures forall k :: 0 <= k < 8 ==> PLACEMENT[k] < 8
    ensures forall k, l :: 0 <= k < l < 8 ==> PLACEMENT[k] != PLACEMENT[l]
    ensures forall i :: 0 <= i < 8 ==> i in PLACEMENT
  {
  }

  /** The CRC bytes of either read have no influence on the serial number. */
  lemma CrcBytesIgnored(first: seq<bv8>, second: seq<bv8>, first': seq<bv8>, second': seq<bv8>)
    requires |first| == |first'| == FIRST_READ_LENGTH && |second| == |second'| == SECOND_READ_LENGTH
    requires forall i :: 0 <= i < FIRST_READ_LENGTH && !IsFirstCrcPosition(i) ==> first[i] == first'[i]
    requires forall i :: 0 <= i < SECOND_READ_LENGTH && !IsSecondCrcPosition(i) ==> second[i] == second'[i]
    ensures SerialNumberLayout(first, second) == SerialNumberLayout(first', second')
  {
    assert first[0] == first'[0] && first[2] == first'[2] && first[4] == first'[4] && first[6] == first'[6];
    assert second[0] == second'[0] && second[1] == second'[1] && second[3] == second'[3] && second[4] == second'[4];
  }

  /** Conversely, every serial byte of the two reads shows up in the buffer. */
  lemma DataBytesDetermineLayout(first: seq<bv8>, second: seq<bv8>, first': seq<bv8>, second': seq<bv8>)
    requires |first| == |first'| == FIRST_READ_LENGTH && |second| == |second'| == SECOND_READ_LENGTH
    requires SerialNumberLayout(first, second) == SerialNumberLayout(first', second')
    ensures forall i :: 0 <= i < FIRST_READ_LENGTH && !IsFirstCrcPosition(i) ==> first[i] == first'[i]
    ensures forall i :: 0 <= i < SECOND_READ_LENGTH && !IsSecondCrcPosition(i) ==> second[i] == second'[i]
  {
    var sn, sn' := SerialNumberLayout(first, second), SerialNumberLayout(first', second');
    assert sn[5] == sn'[5] && sn[4] == sn'[4] && sn[3] == sn'[3] && sn[2] == sn'[2];
    assert sn[1] == sn'[1] && sn[0] == sn'[0] && sn[7] == sn'[7] && sn[6] == sn'[6];
  }
}
