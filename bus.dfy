/** The 1-Wire bus as a trace of the library calls and bit slots the sketch
    issues. The OneWire library (search, reset_search, skip, reset, write)
    is not part of this model: each call is one event, and the result of a
    search is an input. */
module Bus {
  import opened Bits

  datatype Event =
    | Search                  // ibutton.search(addr)
    | ResetSearch             // ibutton.reset_search()
    | Skip                    // ibutton.skip(): Skip ROM
    | Reset                   // ibutton.reset(): reset pulse
    | Write(b: bv8)           // ibutton.write(b): a library byte write
    | TimeSlot(longLow: bool) // one bit of writeByte: line held low for 60 us (true) or released at once (false)

  /** An 8-byte ROM identifier: family code, six serial bytes, CRC. */
  type RomId = s: seq<bv8> | |s| == 8 witness [0, 0, 0, 0, 0, 0, 0, 0]

  /** What one call of ibutton.search reports. */
  datatype SearchResult = NoDevice | Device(id: RomId)

  /** The time slots writeByte produces for a list of bits, one per bit. */
  function Slots(bs: seq<bool>): seq<Event>
  {
    if bs == [] then [] else [TimeSlot(bs[0])] + Slots(bs[1..])
  }

  /** writeByte(d): eight slots, bit (d >> i) & 1 in slot i; a 1 bit is the long pulse. */
  function ByteSlots(d: bv8): seq<Event>
  {
    Slots(ByteBits(d))
  }

  /** writeByte applied to each byte of a buffer in order. */
  function BufferSlots(bytes: seq<bv8>): seq<Event>
  {
    if bytes == [] then [] else ByteSlots(bytes[0]) + BufferSlots(bytes[1..])
  }

  /** The RW1990 preparation that write_iButton sends before the data. */
  const Prologue: seq<Event> := [Skip, Reset, Write(0x33), Skip, Reset, Write(0xD5)]

  /** The programming sequence of write_iButton after a successful search. */
  function ProgramSequence(code: seq<bv8>): seq<Event>
  {
    Prologue + BufferSlots(code) + [Reset]
  }

  /** The bits a fob receives from a trace: those of its time slots, in order. */
  function Received(ev: seq<Event>): seq<bool>
  {
    if ev == [] then [] else (if ev[0].TimeSlot? then [ev[0].longLow] else []) + Received(ev[1..])
  }

  /** Groups received bits into bytes, least significant bit first. */
  function Assemble(bits: seq<bool>): seq<bv8>
  {
    if |bits| < 8 then []
    else
      Pow2Eight();
      [BitsValue(bits[..8]) as bv8] + Assemble(bits[8..])
  }

  lemma Pow2Eight()
    ensures Pow2(8) == 256
  {
    assert Pow2(4) == 16;
  }

  lemma {:induction false} ReceivedAppend(a: seq<Event>, b: seq<Event>)
    ensures Received(a + b) == Received(a) + Received(b)
  {
    if a == [] {
      assert a + b == b;
    } else {
      assert (a + b)[0] == a[0];
      assert (a + b)[1..] == a[1..] + b;
      ReceivedAppend(a[1..], b);
    }
  }

  lemma {:induction false} ReceivedNoSlots(ev: seq<Event>)
    requires forall k :: 0 <= k < |ev| ==> !ev[k].TimeSlot?
    ensures Received(ev) == []
  {
    if ev != [] {
      ReceivedNoSlots(ev[1..]);
    }
  }

  lemma {:induction false} ReceivedSlots(bs: seq<bool>)
    ensures Received(Slots(bs)) == bs
  {
    if bs != [] {
      ReceivedAppend([TimeSlot(bs[0])], Slots(bs[1..]));
      ReceivedSlots(bs[1..]);
    }
  }

  /** The bits of one writeByte assemble back into the byte. */
  lemma AssembleByte(d: bv8, rest: seq<bool>)
    ensures Assemble(ByteBits(d) + rest) == [d] + Assemble(rest)
  {
    var bits := ByteBits(d) + rest;
    ByteBitsValue(d);
    assert bits[..8] == ByteBits(d);
    assert bits[8..] == rest;
  }

  lemma {:induction false} BufferSlotsDeliver(bytes: seq<bv8>)
    ensures Assemble(Received(BufferSlots(bytes))) == bytes
  {
    if bytes != [] {
      ReceivedAppend(ByteSlots(bytes[0]), BufferSlots(bytes[1..]));
      ReceivedSlots(ByteBits(bytes[0]));
      BufferSlotsDeliver(bytes[1..]);
      AssembleByte(bytes[0], Received(BufferSlots(bytes[1..])));
    }
  }

  /** A fob listening to the programming sequence receives exactly the code. */
  lemma ProgramSequenceDelivers(code: seq<bv8>)
    ensures Assemble(Received(ProgramSequence(code))) == code
  {
    ReceivedAppend(Prologue, BufferSlots(code));
    ReceivedAppend(Prologue + BufferSlots(code), [Reset]);
    ReceivedNoSlots(Prologue);
    ReceivedNoSlots([Reset]);
    assert Received(ProgramSequence(code)) == Received(BufferSlots(code));
    BufferSlotsDeliver(code);
  }

  lemma {:induction false} SlotsAt(bs: seq<bool>, i: nat)
    requires i < |bs|
    ensures |Slots(bs)| == |bs| && Slots(bs)[i] == TimeSlot(bs[i])
  {
    if i > 0 {
      SlotsAt(bs[1..], i - 1);
    } else if |bs| > 1 {
      SlotsAt(bs[1..], 0);
    }
  }

  lemma {:induction false} SlotsLength(bs: seq<bool>)
    ensures |Slots(bs)| == |bs|
  {
    if bs != [] {
      SlotsLength(bs[1..]);
    }
  }

  lemma {:induction false} BufferSlotsLength(bytes: seq<bv8>)
    ensures |BufferSlots(bytes)| == 8 * |bytes|
  {
    if bytes != [] {
      SlotsLength(ByteBits(bytes[0]));
      BufferSlotsLength(bytes[1..]);
    }
  }

  lemma {:induction false} BufferSlotsAt(bytes: seq<bv8>, x: nat, i: nat)
    requires x < |bytes| && i < 8
    ensures |BufferSlots(bytes)| == 8 * |bytes|
    ensures BufferSlots(bytes)[8 * x + i] == TimeSlot((bytes[x] >> i) & 1 == 1)
  {
    BufferSlotsLength(bytes);
    var head := ByteSlots(bytes[0]);
    var tail := BufferSlots(bytes[1..]);
    SlotsLength(ByteBits(bytes[0]));
    assert BufferSlots(bytes) == head + tail;
    if x == 0 {
      SlotsAt(ByteBits(bytes[0]), i);
      ByteBitsAt(bytes[0], i);
      assert (head + tail)[i] == head[i];
    } else {
      BufferSlotsAt(bytes[1..], x - 1, i);
      assert (head + tail)[8 * x + i] == tail[8 * (x - 1) + i];
    }
  }

  /** The exact call order of write_iButton: the prologue, then the bits of
      code[0..7] byte by byte and LSB first, then a final reset. */
  lemma ProgramSequenceLayout(code: RomId, x: nat, i: nat)
    requires x < 8 && i < 8
    ensures |ProgramSequence(code)| == 6 + 64 + 1
    ensures ProgramSequence(code)[..6] == [Skip, Reset, Write(0x33), Skip, Reset, Write(0xD5)]
    ensures ProgramSequence(code)[6 + 8 * x + i] == TimeSlot((code[x] >> i) & 1 == 1)
    ensures ProgramSequence(code)[70] == Reset
  {
    BufferSlotsAt(code, x, i);
  }

  lemma {:induction false} SlotsAppend(bs: seq<bool>, b: bool)
    ensures Slots(bs + [b]) == Slots(bs) + [TimeSlot(b)]
  {
    if bs != [] {
      assert (bs + [b])[1..] == bs[1..] + [b];
      SlotsAppend(bs[1..], b);
    }
  }

  lemma {:induction false} BufferSlotsAppend(bytes: seq<bv8>, b: bv8)
    ensures BufferSlots(bytes + [b]) == BufferSlots(bytes) + ByteSlots(b)
  {
    if bytes == [] {
      assert BufferSlots([b]) == ByteSlots(b) + BufferSlots([]);
    } else {
      assert (bytes + [b])[1..] == bytes[1..] + [b];
      BufferSlotsAppend(bytes[1..], b);
    }
  }

  /** The bus activity of write_iButton: nothing at all for an empty slot; a
      failed search and its reset_search; or the search, the programming
      sequence for code and a final reset_search. */
  function WriteTrace(full: bool, found: SearchResult, code: seq<bv8>): (ev: seq<Event>)
    ensures !full ==> ev == []
    ensures full && found.NoDevice? ==> ev == [Search, ResetSearch]
    ensures full && found.Device? ==> |ev| == 2 + |ProgramSequence(code)| && ev[0] == Search && ev[|ev| - 1] == ResetSearch
  {
    if !full then []
    else if found.NoDevice? then [Search, ResetSearch]
    else [Search] + ProgramSequence(code) + [ResetSearch]
  }

  /** n polls of the search in the wait-for-device loop, each followed by
      reset_search. */
  function Polls(n: nat): (ev: seq<Event>)
    ensures |ev| == 2 * n
    ensures forall i :: 0 <= i < n ==> ev[2 * i] == Search && ev[2 * i + 1] == ResetSearch
  {
    if n == 0 then [] else Polls(n - 1) + [Search, ResetSearch]
  }

  /** What the fob receives from a successful write_iButton is exactly code:
      the search and reset_search around the sequence carry no bits. */
  lemma WriteTraceDelivers(code: seq<bv8>, id: RomId)
    ensures Assemble(Received(WriteTrace(true, Device(id), code))) == code
  {
    ReceivedAppend([Search], ProgramSequence(code));
    ReceivedAppend([Search] + ProgramSequence(code), [ResetSearch]);
    ReceivedNoSlots([Search]);
    ReceivedNoSlots([ResetSearch]);
    assert Received(WriteTrace(true, Device(id), code)) == Received(ProgramSequence(code));
    ProgramSequenceDelivers(code);
  }

  /** One step of writeByte's loop: with d the data shifted right k times,
      the slot for d & 1 is the slot of bit k, and d >> 1 is the data shifted
      k + 1 times. */
  lemma WriteByteStep(data: bv8, k: nat, d: bv8)
    requires k < 8 && d == data >> k
    ensures Slots(ByteBits(data)[..k + 1]) == Slots(ByteBits(data)[..k]) + [TimeSlot(d & 1 == 1)]
    ensures d >> 1 == data >> (k + 1)
  {
    ByteBitsAt(data, k);
    SlotsAppend(ByteBits(data)[..k], (d & 1) == 1);
    assert ByteBits(data)[..k + 1] == ByteBits(data)[..k] + [ByteBits(data)[k]];
    ShiftCompose(data, k);
  }
}
