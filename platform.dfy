/**
  What the driver sees of the board: the Wire (I2C) bus and the millisecond
  `delay`. Nothing is transmitted and no time passes; every action the driver
  takes is appended to an event log, and the answers the hardware would give
  are scripted inputs: the successive results of `Wire.available()` and the
  bytes that `Wire.read()` will deliver.
 */
module Platform {

  /** One action of the driver on the bus or the clock. */
  datatype Event =
    | BeginTransmission(address: bv8)
    | Write(value: bv8)
    | EndTransmission
    | RequestFrom(address: bv8, quantity: nat)
    | Read(value: bv8)
    | Delay(ms: nat)

  /** The i-th answer of `Wire.available()`; once the script is exhausted nothing more arrives. */
  function AnswerAt(counts: seq<nat>, i: nat): nat
  {
    if i < |counts| then counts[i] else 0
  }

  /**
    The i-th byte delivered by `Wire.read()`; reading past the received bytes
    gives -1, which the driver stores in a `uint8_t` as 0xFF.
   */
  function ByteAt(incoming: seq<bv8>, i: nat): bv8
  {
    if i < |incoming| then incoming[i] else 0xFF
  }

  /** What is left of a script after `n` items were consumed. */
  function Drop<T>(s: seq<T>, n: nat): seq<T>
  {
    if n <= |s| then s[n..] else []
  }

  lemma {:induction false} DropDrop<T>(s: seq<T>, m: nat, n: nat)
    ensures Drop(Drop(s, m), n) == Drop(s, m + n)
  {
    if m <= |s| && n <= |s| - m {
      assert s[m..][n..] == s[m + n..];
    }
  }

  lemma AppendAssoc<T>(a: seq<T>, b: seq<T>, c: seq<T>)
    ensures (a + b) + c == a + (b + c)
  {
  }

  lemma AnswerAtDrop(counts: seq<nat>, m: nat, i: nat)
    ensures AnswerAt(Drop(counts, m), i) == AnswerAt(counts, m + i)
  {
  }

  lemma ByteAtDrop(incoming: seq<bv8>, m: nat, i: nat)
    ensures ByteAt(Drop(incoming, m), i) == ByteAt(incoming, m + i)
  {
  }

  /** The Wire bus and the delay function, with their event log and scripted answers. */
  class Board {
    var log: seq<Event>
    var availableCounts: seq<nat>
    var incoming: seq<bv8>

    constructor (availableCounts: seq<nat>, incoming: seq<bv8>)
      ensures log == [] && this.availableCounts == availableCounts && this.incoming == incoming
    {
      log := [];
      this.availableCounts := availableCounts;
      this.incoming := incoming;
    }

    method BeginTransmission(address: bv8)
      modifies this
      ensures log == old(log) + [Event.BeginTransmission(address)]
      ensures availableCounts == old(availableCounts) && incoming == old(incoming)
    {
      log := log + [Event.BeginTransmission(address)];
    }

    method Write(value: bv8)
      modifies this
      ensures log == old(log) + [Event.Write(value)]
      ensures availableCounts == old(availableCounts) && incoming == old(incoming)
    {
      log := log + [Event.Write(value)];
    }

    method EndTransmission()
      modifies this
      ensures log == old(log) + [Event.EndTransmission]
      ensures availableCounts == old(availableCounts) && incoming == old(incoming)
    {
      log := log + [Event.EndTransmission];
    }

    method RequestFrom(address: bv8, quantity: nat)
      modifies this
      ensures log == old(log) + [Event.RequestFrom(address, quantity)]
      ensures availableCounts == old(availableCounts) && incoming == old(incoming)
    {
      log := log + [Event.RequestFrom(address, quantity)];
    }

    /** `Wire.available()`: a query, so it does not enter the log. */
    method Available() returns (count: nat)
      modifies this
      ensures count == AnswerAt(old(availableCounts), 0)
      ensures availableCounts == Drop(old(availableCounts), 1)
      ensures log == old(log) && incoming == old(incoming)
    {
      count := AnswerAt(availableCounts, 0);
      availableCounts := Drop(availableCounts, 1);
    }

    method Read() returns (value: bv8)
      modifies this
      ensures value == ByteAt(old(incoming), 0)
      ensures incoming == Drop(old(incoming), 1)
      ensures log == old(log) + [Event.Read(value)]
      ensures availableCounts == old(availableCounts)
    {
      value := ByteAt(incoming, 0);
      incoming := Drop(incoming, 1);
      log := log + [Event.Read(value)];
    }

    method Delay(ms: nat)
      modifies this
      ensures log == old(log) + [Event.Delay(ms)]
      ensures availableCounts == old(availableCounts) && incoming == old(incoming)
    {
      log := log + [Event.Delay(ms)];
    }
  }
}
