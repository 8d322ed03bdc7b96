/**
  The SHT21 driver class: reset, the hold-master read primitive
  `readSensor_hm`, the humidity and temperature requests and the serial
  number. The driver has no state of its own; every method acts on the
  board (bus and clock) it is given, and its postcondition states the new
  event log and what is left of the board's scripted answers in terms of
  a specification function.
 */
module Sht21Driver {
  import opened Sht2xConstants
  import opened Crc
  import opened StatusBits
  import opened SerialNumber
  import opened Platform

  /** Bytes requested for a measurement: MSB, LSB, checksum. */
  const MEASUREMENT_LENGTH: nat := 3
  /** Wait between two polls of `Wire.available()`. */
  const POLL_DELAY_MS: nat := 10
  /** The poll loop gives up once its counter exceeds this. */
  const POLL_LIMIT: nat := 10
  /** Settling time after a soft reset. */
  const RESET_DELAY_MS: nat := 15

  // ---------------------------------------------------------------------
  // Raw word assembly
  // ---------------------------------------------------------------------

  /** The 16-bit word assembled from two received bytes, the MSB as its high byte. */
  function RawWord(msb: bv8, lsb: bv8): bv16
  {
    (msb as bv16 << 8) + lsb as bv16
  }

  /** The MSB lands in the high byte of the word and the LSB in the low byte. */
  lemma RawWordBytes(msb: bv8, lsb: bv8)
    ensures RawWord(msb, lsb) >> 8 == msb as bv16
    ensures RawWord(msb, lsb) & 0xFF == lsb as bv16
  {
  }

  /** As a number, the word is `msb * 256 + lsb`, which is below 65536. */
  lemma RawWordValue(msb: bv8, lsb: bv8)
    ensures RawWord(msb, lsb) as int == msb as int * 256 + lsb as int
    ensures RawWord(msb, lsb) as int < 0x1_0000
  {
    AddIsOr(msb, lsb);
    OrAsInt(msb, lsb);
  }

  lemma AddIsOr(msb: bv8, lsb: bv8)
    ensures (msb as bv16 << 8) + lsb as bv16 == (msb as bv16 << 8) | lsb as bv16
  {
  }

  lemma OrAsInt(msb: bv8, lsb: bv8)
    ensures ((msb as bv16 << 8) | lsb as bv16) as int == msb as int * 256 + lsb as int
  {
  }

  function HighByte(w: bv16): bv8 { (w >> 8) as bv8 }
  function LowByte(w: bv16): bv8 { (w & 0xFF) as bv8 }

  /** Assembling and splitting a word are inverse to each other. */
  lemma RawWordRoundTrip(msb: bv8, lsb: bv8, w: bv16)
    ensures HighByte(RawWord(msb, lsb)) == msb && LowByte(RawWord(msb, lsb)) == lsb
    ensures RawWord(HighByte(w), LowByte(w)) == w
  {
    assert (w >> 8) < 0x100 && (w & 0xFF) < 0x100;
    assert ((w >> 8) as bv8) as bv16 == w >> 8;
    assert ((w & 0xFF) as bv8) as bv16 == w & 0xFF;
    assert ((w >> 8) << 8) + (w & 0xFF) == w;
  }

  // ---------------------------------------------------------------------
  // Specification of readSensor_hm
  // ---------------------------------------------------------------------

  /**
    The index of the first poll, from `i` on, at which at least three bytes
    are available, or `POLL_LIMIT + 1` when none of polls `i..POLL_LIMIT` is.
   */
  function FirstReady(counts: seq<nat>, i: nat): (k: nat)
    requires i <= POLL_LIMIT + 1
    ensures i <= k <= POLL_LIMIT + 1
    ensures forall j :: i <= j < k ==> AnswerAt(counts, j) < MEASUREMENT_LENGTH
    ensures k <= POLL_LIMIT ==> AnswerAt(counts, k) >= MEASUREMENT_LENGTH
    decreases POLL_LIMIT + 1 - i
  {
    if i == POLL_LIMIT + 1 then i
    else if AnswerAt(counts, i) >= MEASUREMENT_LENGTH then i
    else FirstReady(counts, i + 1)
  }

  /** The poll at which the data is ready is the first one that reports three bytes. */
  lemma FirstReadyIsFirst(counts: seq<nat>, n: nat)
    requires n <= POLL_LIMIT + 1
    requires forall j :: 0 <= j < n ==> AnswerAt(counts, j) < MEASUREMENT_LENGTH
    requires n <= POLL_LIMIT ==> AnswerAt(counts, n) >= MEASUREMENT_LENGTH
    ensures FirstReady(counts, 0) == n
  {
  }

  /** Trigger a measurement, wait the conversion time, ask for three bytes. */
  function CommandEvents(command: bv8): (es: seq<Event>)
    requires IsMeasurementCommand(command)
  {
    [BeginTransmission(I2C_ADD), Write(command), EndTransmission,
     Delay(ConversionDelay(command)), RequestFrom(I2C_ADD, MEASUREMENT_LENGTH)]
  }

  /** `k` waits of the poll loop. */
  function PollWaits(k: nat): seq<Event>
  {
    seq(k, _ => Delay(POLL_DELAY_MS))
  }

  lemma PollWaitsGrow(k: nat)
    ensures PollWaits(k) + [Delay(POLL_DELAY_MS)] == PollWaits(k + 1)
  {
  }

  /** The soft-reset sequence of `reset()`. */
  function ResetEvents(): (es: seq<Event>)
  {
    [BeginTransmission(I2C_ADD), Write(SOFT_RESET), EndTransmission, Delay(RESET_DELAY_MS)]
  }

  /** The observable outcome of one call of `readSensor_hm`. */
  datatype ReadOutcome = ReadOutcome(
    result: bv16,        // the returned raw value or sentinel
    events: seq<Event>,  // the actions on the board, in order
    polls: nat,          // the answers of Wire.available() consumed
    bytesRead: nat)      // the bytes consumed by Wire.read()

  /**
    The part of `readSensor_hm` after the poll loop, against received bytes
    `incoming`: read MSB, LSB and checksum; 1 after a reset when the checksum
    does not match, the big-endian word otherwise.
   */
  function MeasurementReception(incoming: seq<bv8>): ReadOutcome
  {
    var msb := ByteAt(incoming, 0);
    var lsb := ByteAt(incoming, 1);
    var checksum := ByteAt(incoming, 2);
    var readEvents := [Read(msb), Read(lsb), Read(checksum)];
    if Crc8([msb, lsb]) != checksum then
      ReadOutcome(1, readEvents + ResetEvents(), 0, MEASUREMENT_LENGTH)
    else
      ReadOutcome(RawWord(msb, lsb), readEvents, 0, MEASUREMENT_LENGTH)
  }

  /**
    What `readSensor_hm(command)` does against a board whose next answers of
    `Wire.available()` are `counts` and whose next received bytes are
    `incoming`: 0 after `POLL_LIMIT + 1` waits without data, otherwise the
    outcome of `MeasurementReception` after the waits.
   */
  function ReadSensorOutcome(command: bv8, counts: seq<nat>, incoming: seq<bv8>): (o: ReadOutcome)
    requires IsMeasurementCommand(command)
  {
    var k := FirstReady(counts, 0);
    var prefix := CommandEvents(command) + PollWaits(k);
    if k > POLL_LIMIT then
      ReadOutcome(0, prefix, k, 0)
    else
      var r := MeasurementReception(incoming);
      ReadOutcome(r.result, prefix + r.events, k + 1, r.bytesRead)
  }

  /** Number of occurrences of `e` in `es`. */
  function Count(es: seq<Event>, e: Event): nat
  {
    if es == [] then 0 else Count(es[..|es| - 1], e) + (if es[|es| - 1] == e then 1 else 0)
  }

  lemma {:induction false} CountAppend(a: seq<Event>, b: seq<Event>, e: Event)
    ensures Count(a + b, e) == Count(a, e) + Count(b, e)
  {
    if b != [] {
      var n := |b| - 1;
      assert (a + b)[..|a + b| - 1] == a + b[..n];
      CountAppend(a, b[..n], e);
    } else {
      assert a + b == a;
    }
  }

  lemma {:induction false} CountPollWaits(k: nat)
    ensures Count(PollWaits(k), Delay(POLL_DELAY_MS)) == k
  {
    if k > 0 {
      assert PollWaits(k)[..k - 1] == PollWaits(k - 1);
      CountPollWaits(k - 1);
    }
  }

  lemma CountAbsent(es: seq<Event>, e: Event)
    requires forall i :: 0 <= i < |es| ==> es[i] != e
    ensures Count(es, e) == 0
  {
    if es != [] {
      CountAbsent(es[..|es| - 1], e);
    }
  }

  /** Every read first sends the command, waits the conversion time, then requests three bytes. */
  lemma ReadStartsWithCommand(command: bv8, counts: seq<nat>, incoming: seq<bv8>)
    requires IsMeasurementCommand(command)
    ensures var o := ReadSensorOutcome(command, counts, incoming);
      |o.events| >= 5 &&
      o.events[..5] == [BeginTransmission(I2C_ADD), Write(command), EndTransmission,
                        Delay(ConversionDelay(command)), RequestFrom(I2C_ADD, MEASUREMENT_LENGTH)]
  {
  }

  /**
    The poll loop waits 10 ms once per unsuccessful poll and never more than
    `POLL_LIMIT + 1` (= 11) times.
   */
  lemma PollWaitsBounded(command: bv8, counts: seq<nat>, incoming: seq<bv8>)
    requires IsMeasurementCommand(command)
    ensures var o := ReadSensorOutcome(command, counts, incoming);
      Count(o.events, Delay(POLL_DELAY_MS)) == FirstReady(counts, 0) <= POLL_LIMIT + 1
  {
    var o := ReadSensorOutcome(command, counts, incoming);
    var k := FirstReady(counts, 0);
    var cmd := CommandEvents(command);
    CountAbsent(cmd, Delay(POLL_DELAY_MS));
    CountPollWaits(k);
    CountAppend(cmd, PollWaits(k), Delay(POLL_DELAY_MS));
    if k <= POLL_LIMIT {
      ReceptionHasNoPollWaits(incoming);
      CountAppend(cmd + PollWaits(k), MeasurementReception(incoming).events, Delay(POLL_DELAY_MS));
    }
  }

  lemma ReceptionHasNoPollWaits(incoming: seq<bv8>)
    ensures Count(MeasurementReception(incoming).events, Delay(POLL_DELAY_MS)) == 0
  {
    var msb, lsb, checksum := ByteAt(incoming, 0), ByteAt(incoming, 1), ByteAt(incoming, 2);
    var readEvents := [Read(msb), Read(lsb), Read(checksum)];
    CountAbsent(readEvents, Delay(POLL_DELAY_MS));
    CountAbsent(ResetEvents(), Delay(POLL_DELAY_MS));
    CountAppend(readEvents, ResetEvents(), Delay(POLL_DELAY_MS));
  }

  /** Sending the command and waiting read nothing. */
  lemma NoReadsBeforeData(command: bv8, k: nat)
    requires IsMeasurementCommand(command)
    ensures forall i :: 0 <= i < |CommandEvents(command) + PollWaits(k)| ==> !(CommandEvents(command) + PollWaits(k))[i].Read?
  {
    var es := CommandEvents(command) + PollWaits(k);
    forall i | 0 <= i < |es|
      ensures !es[i].Read?
    {
      if i >= |CommandEvents(command)| {
        assert es[i] == PollWaits(k)[i - |CommandEvents(command)|];
      }
    }
  }

  /**
    Time-out: when none of the 11 polls sees three bytes, the result is 0,
    exactly 11 waits of 10 ms follow the request and nothing is read.
    Conversely, when no byte is read, the read timed out.
   */
  lemma ReadTimeout(command: bv8, counts: seq<nat>, incoming: seq<bv8>)
    requires IsMeasurementCommand(command)
    ensures var o := ReadSensorOutcome(command, counts, incoming);
      (forall j :: 0 <= j <= POLL_LIMIT ==> AnswerAt(counts, j) < MEASUREMENT_LENGTH) <==>
      (forall i :: 0 <= i < |o.events| ==> !o.events[i].Read?)
    ensures var o := ReadSensorOutcome(command, counts, incoming);
      (forall j :: 0 <= j <= POLL_LIMIT ==> AnswerAt(counts, j) < MEASUREMENT_LENGTH) ==>
      o.result == 0 && o.events == CommandEvents(command) + PollWaits(POLL_LIMIT + 1) &&
      o.polls == POLL_LIMIT + 1 && o.bytesRead == 0
  {
    var o := ReadSensorOutcome(command, counts, incoming);
    var k := FirstReady(counts, 0);
    if forall j :: 0 <= j <= POLL_LIMIT ==> AnswerAt(counts, j) < MEASUREMENT_LENGTH {
      FirstReadyIsFirst(counts, POLL_LIMIT + 1);
      NoReadsBeforeData(command, POLL_LIMIT + 1);
    } else {
      assert k <= POLL_LIMIT;
      assert o.events[|CommandEvents(command)| + k].Read?;
    }
  }

  /** A matching checksum yields the word assembled MSB first, and no reset is sent. */
  lemma ReadValid(command: bv8, counts: seq<nat>, incoming: seq<bv8>)
    requires IsMeasurementCommand(command)
    requires FirstReady(counts, 0) <= POLL_LIMIT
    requires Crc8([ByteAt(incoming, 0), ByteAt(incoming, 1)]) == ByteAt(incoming, 2)
    ensures var o := ReadSensorOutcome(command, counts, incoming);
      o.result as int == ByteAt(incoming, 0) as int * 256 + ByteAt(incoming, 1) as int &&
      o.result >> 8 == ByteAt(incoming, 0) as bv16 && o.result & 0xFF == ByteAt(incoming, 1) as bv16 &&
      Write(SOFT_RESET) !in o.events && o.bytesRead == MEASUREMENT_LENGTH
  {
    RawWordBytes(ByteAt(incoming, 0), ByteAt(incoming, 1));
    RawWordValue(ByteAt(incoming, 0), ByteAt(incoming, 1));
  }

  /**
    A checksum mismatch yields the sentinel 1, and the event log ends with
    the soft-reset sequence: 0xFE written to 0x40, then a 15 ms delay.
   */
  lemma ReadChecksumMismatch(command: bv8, counts: seq<nat>, incoming: seq<bv8>)
    requires IsMeasurementCommand(command)
    requires FirstReady(counts, 0) <= POLL_LIMIT
    requires Crc8([ByteAt(incoming, 0), ByteAt(incoming, 1)]) != ByteAt(incoming, 2)
    ensures var o := ReadSensorOutcome(command, counts, incoming);
      o.result == 1 && |o.events| >= 4 && o.events[|o.events| - 4..] == ResetEvents() &&
      o.events[|o.events| - 3] == Write(SOFT_RESET) && o.events[|o.events| - 1] == Delay(RESET_DELAY_MS)
  {
  }

  /**
    The error sentinels are valid raw values too: a correctly checksummed
    reading of 0x0000 is indistinguishable from a time-out, and one of 0x0001
    from a checksum failure.
   */
  lemma SentinelsAreAmbiguous(command: bv8)
    requires IsMeasurementCommand(command)
    ensures ReadSensorOutcome(command, [3], [0x00, 0x00, 0x00]).result == 0
    ensures ReadSensorOutcome(command, [], []).result == 0
    ensures ReadSensorOutcome(command, [3], [0x00, 0x01, 0x31]).result == 1
    ensures ReadSensorOutcome(command, [3], [0x00, 0x01, 0x00]).result == 1
  {
    FirstReadyIsFirst([3], 0);
    FirstReadyIsFirst([], POLL_LIMIT + 1);
    assert [0x00 as bv8, 0x00][..1] == [0x00];
    assert [0x00 as bv8, 0x01][..1] == [0x00];
    assert [0x00 as bv8][..0] == [];
    ShiftBitsNonzero(0, BITS_PER_BYTE);
    assert ShiftBits(1, 4) == 0x10;
    assert ShiftBits(1, 8) == 0x31;
    assert Crc8([0x00]) == 0x00;
  }

  // ---------------------------------------------------------------------
  // Specification of getSerialNumber
  // ---------------------------------------------------------------------

  /** Reading each byte of `bytes` in turn. */
  function Reads(bytes: seq<bv8>): seq<Event>
  {
    seq(|bytes|, i requires 0 <= i < |bytes| => Read(bytes[i]))
  }

  lemma ReadsEmpty(log: seq<Event>, bytes: seq<bv8>)
    ensures log + Reads(bytes[..0]) == log
  {
    assert Reads(bytes[..0]) == [];
  }

  /** One more `Wire.read()` extends the logged reads by the next scripted byte. */
  lemma ReadStep(log: seq<Event>, before: seq<Event>, incoming: seq<bv8>, start: nat, j: nat)
    requires start <= j < |incoming|
    requires log == before + Reads(incoming[start..j])
    ensures ByteAt(incoming[j..], 0) == incoming[j]
    ensures Drop(incoming[j..], 1) == incoming[j + 1..]
    ensures log + [Read(incoming[j])] == before + Reads(incoming[start..j + 1])
  {
    assert Reads(incoming[start..j]) + [Read(incoming[j])] == Reads(incoming[start..j + 1]);
  }

  /**
    A group of reads continues the logged reads: the log before it, followed
    by the reads of `incoming[j..k]`, is the log of the reads of `incoming[start..k]`.
   */
  lemma ReadsGroup(before: seq<Event>, incoming: seq<bv8>, j: nat, k: nat)
    requires j <= k <= |incoming|
    ensures incoming[j..][..k - j] == incoming[j..k] && incoming[j..][k - j..] == incoming[k..]
    ensures before + Reads(incoming[..j]) + Reads(incoming[j..k]) == before + Reads(incoming[..k])
  {
    assert incoming[..j] + incoming[j..k] == incoming[..k];
    assert Reads(incoming[..j]) + Reads(incoming[j..k]) == Reads(incoming[..k]);
  }

  /** Point the sensor at a memory location of its identification code and request `length` bytes from it. */
  function LocationRequest(high: bv8, low: bv8, length: nat): seq<Event>
  {
    [BeginTransmission(I2C_ADD), Write(high), Write(low), EndTransmission, RequestFrom(I2C_ADD, length)]
  }

  /** The first memory location (0xFA 0x0F) and its 8 bytes, then the second (0xFC 0xC9) and its 6. */
  function SerialNumberEvents(first: seq<bv8>, second: seq<bv8>): seq<Event>
  {
    LocationRequest(0xFA, 0x0F, FIRST_READ_LENGTH) + Reads(first) +
    LocationRequest(0xFC, 0xC9, SECOND_READ_LENGTH) + Reads(second)
  }

  lemma SerialNumberEventsSplit(log: seq<Event>, first: seq<bv8>, second: seq<bv8>)
    ensures log + SerialNumberEvents(first, second) ==
      log + LocationRequest(0xFA, 0x0F, FIRST_READ_LENGTH) + Reads(first) +
      LocationRequest(0xFC, 0xC9, SECOND_READ_LENGTH) + Reads(second)
  {
  }

  // ---------------------------------------------------------------------
  // The driver
  // ---------------------------------------------------------------------

  class Sht21 {
    /** The bus and clock, passed in instead of the global `Wire` object. */
    const board: Board

    constructor (board: Board)
      ensures this.board == board
    {
      this.board := board;
    }

    /** `reset()`: write the soft-reset command, then wait 15 ms. */
    method Reset()
      modifies board
      ensures board.log == old(board.log) + ResetEvents()
      ensures board.availableCounts == old(board.availableCounts) && board.incoming == old(board.incoming)
    {
      board.BeginTransmission(I2C_ADD);
      board.Write(SOFT_RESET);
      board.EndTransmission();
      board.Delay(RESET_DELAY_MS);
    }

    /** Send the measurement command, wait its conversion time and request the three bytes. */
    method SendCommand(command: bv8)
      requires IsMeasurementCommand(command)
      modifies board
      ensures board.log == old(board.log) + CommandEvents(command)
      ensures board.availableCounts == old(board.availableCounts) && board.incoming == old(board.incoming)
    {
      var d := ConversionDelay(command);

      board.BeginTransmission(I2C_ADD);
      board.Write(command);
      board.EndTransmission();
      board.Delay(d);
      board.RequestFrom(I2C_ADD, MEASUREMENT_LENGTH);
    }

    /** `readSensor_hm(command)`, proved equal to `ReadSensorOutcome`. */
    method ReadSensorHm(command: bv8) returns (raw: bv16)
      requires IsMeasurementCommand(command)
      modifies board
      ensures raw == ReadSensorOutcome(command, old(board.availableCounts), old(board.incoming)).result
      ensures board.log == old(board.log) + ReadSensorOutcome(command, old(board.availableCounts), old(board.incoming)).events
      ensures board.availableCounts == Drop(old(board.availableCounts), ReadSensorOutcome(command, old(board.availableCounts), old(board.incoming)).polls)
      ensures board.incoming == Drop(old(board.incoming), ReadSensorOutcome(command, old(board.availableCounts), old(board.incoming)).bytesRead)
    {
      ghost var counts, incoming, log := board.availableCounts, board.incoming, board.log;
      SendCommand(command);
      var ready := WaitForMeasurement();
      if !ready {
        return 0;
      }
      AppendAssoc(log + CommandEvents(command), PollWaits(FirstReady(counts, 0)), MeasurementReception(incoming).events);
      AppendAssoc(log, CommandEvents(command), PollWaits(FirstReady(counts, 0)) + MeasurementReception(incoming).events);
      AppendAssoc(CommandEvents(command), PollWaits(FirstReady(counts, 0)), MeasurementReception(incoming).events);
      DropDrop(incoming, 0, MEASUREMENT_LENGTH);
      raw := ReadMeasurement();
    }

    /**
      The poll loop of `readSensor_hm`: while fewer than three bytes are
      available, wait 10 ms and count; `ready` is false when the count passes
      `POLL_LIMIT`, where the source returns 0.
     */
    method WaitForMeasurement() returns (ready: bool)
      modifies board
      ensures var k := FirstReady(old(board.availableCounts), 0);
        ready == (k <= POLL_LIMIT) &&
        board.log == old(board.log) + PollWaits(k) &&
        board.availableCounts == Drop(old(board.availableCounts), if ready then k + 1 else k)
      ensures board.incoming == old(board.incoming)
    {
      ghost var counts, log := board.availableCounts, board.log;
      var n: nat := 0;
      var available := board.Available();
      while available < MEASUREMENT_LENGTH
        invariant n <= POLL_LIMIT
        invariant available == AnswerAt(counts, n)
        invariant forall j :: 0 <= j < n ==> AnswerAt(counts, j) < MEASUREMENT_LENGTH
        invariant board.log == log + PollWaits(n)
        invariant board.availableCounts == Drop(counts, n + 1)
        invariant board.incoming == old(board.incoming)
        decreases POLL_LIMIT + 1 - n
      {
        PollWait(log, n);
        n := n + 1;
        if n > POLL_LIMIT {
          FirstReadyIsFirst(counts, n);
          return false;
        }
        AnswerAtDrop(counts, n, 0);
        DropDrop(counts, n, 1);
        available := board.Available();
      }
      FirstReadyIsFirst(counts, n);
      return true;
    }

    /** One wait of the poll loop: `delay(10)`, one more 10 ms wait in the log. */
    method PollWait(ghost log: seq<Event>, ghost n: nat)
      requires board.log == log + PollWaits(n)
      modifies board
      ensures board.log == log + PollWaits(n + 1)
      ensures board.availableCounts == old(board.availableCounts) && board.incoming == old(board.incoming)
    {
      board.Delay(POLL_DELAY_MS);
      PollWaitsGrow(n);
    }

    /** Reads the MSB and the LSB into `data`, then the checksum, in that order. */
    method ReadMeasurementBytes(data: array<bv8>) returns (checksum: bv8)
      requires data.Length == 2
      modifies board, data
      ensures var incoming := old(board.incoming);
        data[0] == ByteAt(incoming, 0) && data[1] == ByteAt(incoming, 1) && checksum == ByteAt(incoming, 2)
      ensures board.log == old(board.log) + [Read(data[0]), Read(data[1]), Read(checksum)]
      ensures board.incoming == Drop(old(board.incoming), MEASUREMENT_LENGTH)
      ensures board.availableCounts == old(board.availableCounts)
    {
      ghost var incoming := board.incoming;
      data[0] := board.Read();
      data[1] := board.Read();
      checksum := board.Read();
      ByteAtDrop(incoming, 1, 0);
      ByteAtDrop(incoming, 2, 0);
      DropDrop(incoming, 1, 1);
      DropDrop(incoming, 2, 1);
    }

    /** The reads, checksum test and reset of `readSensor_hm`, proved equal to `MeasurementReception`. */
    method ReadMeasurement() returns (raw: bv16)
      modifies board
      ensures raw == MeasurementReception(old(board.incoming)).result
      ensures board.log == old(board.log) + MeasurementReception(old(board.incoming)).events
      ensures board.incoming == Drop(old(board.incoming), MEASUREMENT_LENGTH)
      ensures board.availableCounts == old(board.availableCounts)
    {
      ghost var incoming, log := board.incoming, board.log;
      var data := new bv8[2];
      var checksum := ReadMeasurementBytes(data);
      ghost var readEvents := [Read(data[0]), Read(data[1]), Read(checksum)];

      var result: bv16 := data[0] as bv16 << 8;
      result := result + data[1] as bv16;
      assert result == RawWord(data[0], data[1]);
      assert data[..2] == [data[0], data[1]];

      var mismatch := CrcChecksum(data, 2, checksum);
      if mismatch != 0 {
        Reset();
        AppendAssoc(log, readEvents, ResetEvents());
        return 1;
      }
      return result;
    }

    /**
      `getHumidity()`: a measurement with command 0xF5 (the no-hold-master
      code, although the source's comment speaks of hold master). Returns the
      masked code that the floating-point formula is applied to.
     */
    method GetHumidity() returns (code: bv16)
      modifies board
      ensures var o := ReadSensorOutcome(TRIGGER_RH_MEASUREMENT_NHM, old(board.availableCounts), old(board.incoming));
        code == MaskStatusBits(o.result) && board.log == old(board.log) + o.events &&
        board.availableCounts == Drop(old(board.availableCounts), o.polls) &&
        board.incoming == Drop(old(board.incoming), o.bytesRead)
    {
      var result := ReadSensorHm(TRIGGER_RH_MEASUREMENT_NHM);
      code := MaskStatusBits(result);
    }

    /** `getTemperature()`: as `GetHumidity`, with command 0xF3. */
    method GetTemperature() returns (code: bv16)
      modifies board
      ensures var o := ReadSensorOutcome(TRIGGER_T_MEASUREMENT_NHM, old(board.availableCounts), old(board.incoming));
        code == MaskStatusBits(o.result) && board.log == old(board.log) + o.events &&
        board.availableCounts == Drop(old(board.availableCounts), o.polls) &&
        board.incoming == Drop(old(board.incoming), o.bytesRead)
    {
      var result := ReadSensorHm(TRIGGER_T_MEASUREMENT_NHM);
      code := MaskStatusBits(result);
    }

    /** Point the sensor at a memory location of the identification code and request `length` bytes. */
    method RequestLocation(high: bv8, low: bv8, length: nat)
      modifies board
      ensures board.log == old(board.log) + LocationRequest(high, low, length)
      ensures board.incoming == old(board.incoming) && board.availableCounts == old(board.availableCounts)
    {
      board.BeginTransmission(I2C_ADD);
      board.Write(high);
      board.Write(low);
      board.EndTransmission();
      board.RequestFrom(I2C_ADD, length);
    }

    /** One serial byte stored into `serialNumber[slot]`, then the CRC byte that covers it, unused. */
    method ReadSerialPair(serialNumber: array<bv8>, slot: nat)
      requires slot < serialNumber.Length && |board.incoming| >= 2
      modifies board, serialNumber
      ensures serialNumber[slot] == old(board.incoming)[0]
      ensures forall i :: 0 <= i < serialNumber.Length && i != slot ==> serialNumber[i] == old(serialNumber[i])
      ensures board.log == old(board.log) + Reads(old(board.incoming)[..2])
      ensures board.incoming == old(board.incoming)[2..]
      ensures board.availableCounts == old(board.availableCounts)
    {
      ghost var incoming, before := board.incoming, board.log;
      ReadsEmpty(before, incoming);
      ReadStep(board.log, before, incoming, 0, 0);
      serialNumber[slot] := board.Read();
      ReadStep(board.log, before, incoming, 0, 1);
      var _ := board.Read();
      assert incoming[0..2] == incoming[..2];
    }

    /** Two serial bytes stored into `serialNumber[first]` and `serialNumber[second]`, then their CRC, unused. */
    method ReadSerialTriple(serialNumber: array<bv8>, first: nat, second: nat)
      requires first < serialNumber.Length && second < serialNumber.Length && first != second
      requires |board.incoming| >= 3
      modifies board, serialNumber
      ensures serialNumber[first] == old(board.incoming)[0] && serialNumber[second] == old(board.incoming)[1]
      ensures forall i :: 0 <= i < serialNumber.Length && i != first && i != second ==> serialNumber[i] == old(serialNumber[i])
      ensures board.log == old(board.log) + Reads(old(board.incoming)[..3])
      ensures board.incoming == old(board.incoming)[3..]
      ensures board.availableCounts == old(board.availableCounts)
    {
      ghost var incoming, before := board.incoming, board.log;
      ReadsEmpty(before, incoming);
      ReadStep(board.log, before, incoming, 0, 0);
      serialNumber[first] := board.Read();
      ReadStep(board.log, before, incoming, 0, 1);
      serialNumber[second] := board.Read();
      ReadStep(board.log, before, incoming, 0, 2);
      var _ := board.Read();
      assert incoming[0..3] == incoming[..3];
    }

    /** The 8 bytes of memory location 1: SNB_3, SNB_2, SNB_1, SNB_0, each followed by its unused CRC. */
    method ReadFirstLocation(serialNumber: array<bv8>)
      requires serialNumber.Length == 8 && |board.incoming| >= FIRST_READ_LENGTH
      modifies board, serialNumber
      ensures var incoming := old(board.incoming);
        serialNumber[5] == incoming[0] && serialNumber[4] == incoming[2] &&
        serialNumber[3] == incoming[4] && serialNumber[2] == incoming[6]
      ensures serialNumber[0] == old(serialNumber[0]) && serialNumber[1] == old(serialNumber[1])
      ensures serialNumber[6] == old(serialNumber[6]) && serialNumber[7] == old(serialNumber[7])
      ensures board.log == old(board.log) + Reads(old(board.incoming)[..FIRST_READ_LENGTH])
      ensures board.incoming == old(board.incoming)[FIRST_READ_LENGTH..]
      ensures board.availableCounts == old(board.availableCounts)
    {
      ghost var incoming, before := board.incoming, board.log;
      ReadsEmpty(before, incoming);
      ReadSerialPair(serialNumber, 5);
      ReadsGroup(before, incoming, 0, 2);
      ReadSerialPair(serialNumber, 4);
      ReadsGroup(before, incoming, 2, 4);
      ReadSerialPair(serialNumber, 3);
      ReadsGroup(before, incoming, 4, 6);
      ReadSerialPair(serialNumber, 2);
      ReadsGroup(before, incoming, 6, 8);
      assert incoming[0..8] == incoming[..8];
    }

    /** The 6 bytes of memory location 2: SNC_1, SNC_0, their CRC, SNA_1, SNA_0, their CRC. */
    method ReadSecondLocation(serialNumber: array<bv8>)
      requires serialNumber.Length == 8 && |board.incoming| >= SECOND_READ_LENGTH
      modifies board, serialNumber
      ensures var incoming := old(board.incoming);
        serialNumber[1] == incoming[0] && serialNumber[0] == incoming[1] &&
        serialNumber[7] == incoming[3] && serialNumber[6] == incoming[4]
      ensures forall i :: 2 <= i < 6 ==> serialNumber[i] == old(serialNumber[i])
      ensures board.log == old(board.log) + Reads(old(board.incoming)[..SECOND_READ_LENGTH])
      ensures board.incoming == old(board.incoming)[SECOND_READ_LENGTH..]
      ensures board.availableCounts == old(board.availableCounts)
    {
      ghost var incoming, before := board.incoming, board.log;
      ReadsEmpty(before, incoming);
      ReadSerialTriple(serialNumber, 1, 0);
      ReadsGroup(before, incoming, 0, 3);
      ReadSerialTriple(serialNumber, 7, 6);
      ReadsGroup(before, incoming, 3, 6);
      assert incoming[0..6] == incoming[..6];
    }

    /**
      `getSerialNumber(returnSn)`: two memory reads, the serial bytes stored
      into `serialNumber[8]` as they arrive, and one slot returned. The
      source busy-waits until all 8 (then 6) bytes are available, so the
      model requires the 14 bytes to be there.
     */
    method GetSerialNumber(returnSn: bv8) returns (b: bv8)
      requires returnSn < 8
      requires |board.incoming| >= FIRST_READ_LENGTH + SECOND_READ_LENGTH
      modifies board
      ensures var first, second := old(board.incoming)[..8], old(board.incoming)[8..14];
        b == SerialNumberLayout(first, second)[returnSn] &&
        board.log == old(board.log) + SerialNumberEvents(first, second) &&
        board.incoming == old(board.incoming)[14..] &&
        board.availableCounts == old(board.availableCounts)
    {
      ghost var incoming, log := board.incoming, board.log;
      var serialNumber := new bv8[8];

      RequestLocation(0xFA, 0x0F, FIRST_READ_LENGTH);
      ReadFirstLocation(serialNumber);
      RequestLocation(0xFC, 0xC9, SECOND_READ_LENGTH);
      ReadSecondLocation(serialNumber);

      assert incoming[8..][..6] == incoming[8..14];
      assert incoming[8..][6..] == incoming[14..];
      SerialNumberEventsSplit(log, incoming[..8], incoming[8..14]);
      assert serialNumber[..] == SerialNumberLayout(incoming[..8], incoming[8..14]);
      return serialNumber[returnSn];
    }
  }
}
