/** The sketch's routines (src/main.cpp) on its mutable state: the EEPROM
    and code[] are arrays written byte by byte, the globals are fields. Each
    method is proved to leave exactly the state the corresponding function
    of Sketch describes. The serial receive buffer (rx) and the input still
    to arrive are fields; the 1-Wire line is the trace bus, to which the
    library calls and writeByte's time slots are appended. */
module Firmware {
  import opened Bits
  import opened Hex
  import opened Crc
  import opened SlotStore
  import opened Bus
  import opened Session
  import opened Sketch
  import SerialHex

  class Cloner {
    const eeprom: array<bv8>   // EEPROM.read / EEPROM.write
    const code: array<bv8>     // code[8]
    var activeMemSlot: SlotIndex
    var advancedMode: bool
    var serialChoice: int      // serial_choice
    var readPressed: bool      // read_pressed
    var writePressed: bool     // write_pressed
    var rx: seq<bv8>           // the serial receive buffer
    var arriving: seq<Burst>   // input that will arrive, one burst per wait
    var bus: seq<Event>        // the 1-Wire trace

    ghost predicate Valid()
      reads this
    {
      eeprom.Length == EepromSize && code.Length == 8 && eeprom != code && -1 <= serialChoice <= 9
    }

    /** The whole state as a value. */
    ghost function Snapshot(): (st: State)
      requires Valid()
      reads this, eeprom, code
      ensures Wf(st)
    {
      State(eeprom[..], code[..], activeMemSlot, advancedMode, serialChoice,
            readPressed, writePressed, SerialIn(rx, arriving), bus)
    }

    /** Power-on with the EEPROM holding stored: the globals have their
        initial values, nothing has been received or sent. */
    constructor (stored: seq<bv8>)
      requires |stored| == EepromSize
      ensures Valid() && fresh(eeprom) && fresh(code)
      ensures Snapshot() == PowerOn(stored)
    {
      eeprom := new bv8[EepromSize](i requires 0 <= i < EepromSize => stored[i]);
      code := new bv8[8](_ => 0);
      activeMemSlot := 0;
      advancedMode := false;
      serialChoice := -1;
      readPressed := false;
      writePressed := false;
      rx := [];
      arriving := [];
      bus := [];
      new;
      assert eeprom[..] == stored;
      assert code[..] == Zeros(8);
    }

    /** bad_form(): clear_serial(), then resetFunc() restarts the program. */
    method Restart()
      requires Valid()
      modifies this`activeMemSlot, this`advancedMode, this`serialChoice, this`readPressed, this`writePressed, this`rx, code
      ensures Valid() && Snapshot() == Rebooted(old(Snapshot()))
    {
      rx := [];
      for x := 0 to 8
        modifies code
        invariant forall i :: 0 <= i < x ==> code[i] == 0
      {
        code[x] := 0;
      }
      activeMemSlot := 0;
      advancedMode := false;
      serialChoice := -1;
      readPressed := false;
      writePressed := false;
      assert code[..] == Zeros(8);
    }

    /** Bytes arriving on the serial line while loop() runs: the UART
        appends them to the receive buffer. */
    method Receive(b: Burst)
      requires Valid()
      modifies this`rx
      ensures Valid() && Snapshot() == Arrived(old(Snapshot()), b)
    {
      rx := rx + b;
    }

    /** A wait for serial input: at once when bytes are waiting, otherwise
        until the next burst arrives. */
    method AwaitInput() returns (waiting: bool)
      requires Valid()
      modifies this`rx, this`arriving
      ensures Valid() && SerialIn(rx, arriving) == Await(old(SerialIn(rx, arriving)))
      ensures waiting == (rx != [])
    {
      if rx == [] && arriving != [] {
        rx := arriving[0];
        arriving := arriving[1..];
      }
      waiting := rx != [];
    }

    /** slot_is_full(): the OR of the eight identifier bytes is nonzero. */
    method SlotIsFull(memSlot: SlotIndex) returns (full: bool)
      requires Valid()
      ensures full == Full(eeprom[..], memSlot)
    {
      var base := Base(memSlot);
      var result: bv8 := 0;
      for x := 0 to 8
        invariant result == 0 <==> forall a :: base <= a < base + x ==> eeprom[a] == 0
      {
        result := result | eeprom[x + base];
      }
      full := result != 0;
      assert forall i :: 0 <= i < 8 ==> Id(eeprom[..], memSlot)[i] == eeprom[base + i];
      if full {
        assert exists a :: base <= a < base + 8 && eeprom[a] != 0;
        ghost var a :| base <= a < base + 8 && eeprom[a] != 0;
        assert Id(eeprom[..], memSlot)[a - base] != 0;
      }
    }

    /** update_slot(). */
    method UpdateSlot(selector: seq<bool>)
      requires Valid() && |selector| == 4
      modifies this`activeMemSlot, code
      ensures Valid() && Snapshot() == Reselected(old(Snapshot()), selector)
    {
      if advancedMode {
        return;
      }
      var slot: bv8 := 0;
      for x := 0 to 4
        modifies {}
        invariant slot as int == BitsValue(selector[..x])
      {
        SelectorStep(selector, x, slot);
        slot := slot | ((if selector[x] then 1 else 0) << x);
      }
      assert selector[..4] == selector;
      assert slot as int == SelectorSlot(selector);
      activeMemSlot := slot as int;
      LoadCode();
    }

    /** The reload loop of update_slot: code[] gets the identifier of the
        active slot. */
    method LoadCode()
      requires Valid()
      modifies code
      ensures code[..] == Id(eeprom[..], activeMemSlot)
    {
      var base := Base(activeMemSlot);
      for x := 0 to 8
        invariant forall i :: 0 <= i < x ==> code[i] == eeprom[base + i]
      {
        code[x] := eeprom[x + base];
      }
      assert code[..] == Id(eeprom[..], activeMemSlot);
    }

    /** set_active_mem_slot(c): a hexadecimal digit selects that slot. */
    method SetActiveMemSlot(c: int) returns (changed: bool)
      requires Valid()
      modifies this`activeMemSlot
      ensures changed == IsHexDigit(c)
      ensures changed ==> activeMemSlot == HexDigitValue(c)
      ensures !changed ==> activeMemSlot == old(activeMemSlot)
    {
      if HexDigitValue(c) != -1 {
        activeMemSlot := HexDigitValue(c);
        return true;
      }
      return false;
    }

    /** write_content_to_mem_slot(memSlot, result, |result|). The branch for
        six values is guarded by "&& false" and never runs, so six values,
        like every arity other than 7 and 8, write nothing. */
    method WriteContentToMemSlot(memSlot: SlotIndex, result: seq<int>)
      requires Valid()
      modifies eeprom
      ensures eeprom[..] == WithContent(old(eeprom[..]), memSlot, result)
    {
      ghost var e0 := eeprom[..];
      var base := Base(memSlot);
      if |result| == 7 || |result| == 8 {
        var start: seq<bv8> := [];
        for x := 0 to |result|
          modifies eeprom
          invariant |start| == x && forall i :: 0 <= i < x ==> start[i] == Truncate(result[i])
          invariant forall a :: 0 <= a < EepromSize ==>
            eeprom[a] == if base <= a < base + x then start[a - base] else e0[a]
        {
          var b := Truncate(result[x]);
          eeprom[x + base] := b;
          start := start + [b];
        }
        forall i | 0 <= i < |result|
          ensures start[i] == Bytes(result)[i]
        {
          BytesAt(result, i);
        }
        assert start == Bytes(result);
        if |result| == 7 {
          eeprom[7 + base] := Crc8(start);
        }
        OverwriteExt(e0, base, ContentBytes(result), eeprom[..]);
      } else {
        assert ContentBytes(result) == [];
        assert e0 == Overwrite(e0, base, []);
      }
    }

    /** The name loop of edit_slot: name position x takes the next received
        byte (CR and LF stored as 0), or 0 once the buffer is empty. */
    method WriteName(memSlot: SlotIndex)
      requires Valid()
      modifies eeprom, this`rx
      ensures eeprom[..] == WithName(old(eeprom[..]), memSlot, old(rx))
      ensures rx == if |old(rx)| <= 8 then [] else old(rx)[8..]
    {
      ghost var e0 := eeprom[..];
      ghost var avail := rx;
      var base := Base(memSlot) + NameOffset;
      for x := 0 to 8
        modifies eeprom, this`rx
        invariant rx == if x <= |avail| then avail[x..] else []
        invariant forall a :: 0 <= a < EepromSize ==>
          eeprom[a] == if base <= a < base + x then (if a - base < |avail| then NameByte(avail[a - base]) else 0) else e0[a]
      {
        if rx == [] {
          eeprom[x + base] := 0;
        } else {
          var c := rx[0];
          rx := rx[1..];
          eeprom[x + base] := NameByte(c);
        }
      }
      forall x | 0 <= x < 8
        ensures NameField(avail, 8)[x] == if x < |avail| then NameByte(avail[x]) else 0
      {
        NameFieldAt(avail, 8, x);
      }
      OverwriteExt(e0, base, NameField(avail, 8), eeprom[..]);
    }

    /** The clear of a slot (Clear, the two-button hold): 16 zero bytes. */
    method ClearSlot(memSlot: SlotIndex)
      requires Valid()
      modifies eeprom
      ensures eeprom[..] == Cleared(old(eeprom[..]), memSlot)
    {
      ghost var e0 := eeprom[..];
      var base := Base(memSlot);
      for x := 0 to RecordLen
        modifies eeprom
        invariant forall a :: 0 <= a < EepromSize ==>
          eeprom[a] == if base <= a < base + x then 0 else e0[a]
      {
        eeprom[x + base] := 0;
      }
      OverwriteExt(e0, base, Zeros(RecordLen), eeprom[..]);
    }

    /** The wipe of the 'M' dialogue: every slot cleared in turn. */
    method WipeAllSlots()
      requires Valid()
      modifies eeprom
      ensures eeprom[..] == Wiped(old(eeprom[..]))
    {
      ghost var e0 := eeprom[..];
      assert e0 == WipedBelow(e0, 0);
      for memSlot := 0 to SlotCount
        invariant eeprom[..] == WipedBelow(e0, memSlot)
      {
        WipeStep(e0, memSlot);
        ClearSlot(memSlot);
      }
    }

    /** The input half of edit_slot for arraySize values: wait for input,
        then its while loop, whose body runs at most once because it ends by
        clearing the receive buffer. Restarted reports that bad_form() was
        reached; its clear_serial() has been done, the restart itself is the
        caller's. */
    method EditInput(memSlot: SlotIndex, arraySize: nat) returns (o: Outcome)
      requires Valid()
      modifies this`rx, this`arriving, eeprom
      ensures Valid()
      ensures EditResult(o, eeprom[..], SerialIn(rx, arriving)) == EditSpec(old(eeprom[..]), memSlot, arraySize, old(SerialIn(rx, arriving)))
    {
      ghost var spec := EditSpec(eeprom[..], memSlot, arraySize, SerialIn(rx, arriving));
      ghost var e0 := eeprom[..];
      var waiting := AwaitInput();
      if !waiting {
        return Stalled;
      }
      ghost var s1 := SerialIn(rx, arriving);
      o := Returned;
      while rx != []
        invariant Valid()
        invariant rx != [] ==> rx == s1.rx && arriving == s1.arriving && eeprom[..] == e0
        invariant rx == [] ==> spec == EditResult(Returned, eeprom[..], SerialIn(rx, arriving))
        decreases |rx|
      {
        var parsed := SerialHex.ParseHex(rx, arraySize);
        if parsed.BadForm? {
          rx := [];
          return Restarted;
        }
        ghost var named := if parsed.Cancelled? then ClearRx(s1) else SerialIn(parsed.rest, s1.arriving);
        if parsed.Cancelled? {
          rx := [];
        } else {
          rx := parsed.rest;
          WriteContentToMemSlot(memSlot, parsed.values);
        }
        assert spec == NameStep(eeprom[..], memSlot, named);
        assert SerialIn(rx, arriving) == named;
        var waiting := AwaitInput();
        if !waiting {
          return Stalled;
        }
        WriteName(memSlot);
        rx := [];
      }
    }

    /** edit_slot(memSlot, numberOfBytes). */
    method EditSlot(memSlot: SlotIndex, numberOfBytes: nat, selector: seq<bool>) returns (o: Outcome)
      requires Valid() && |selector| == 4
      modifies this`activeMemSlot, this`advancedMode, this`serialChoice, this`readPressed, this`writePressed,
        this`rx, this`arriving, eeprom, code
      ensures Valid() && Step(Snapshot(), o) == EditSlotStep(old(Snapshot()), memSlot, numberOfBytes, selector)
    {
      ghost var st0 := Snapshot();
      UpdateSlot(selector);
      ghost var u := Snapshot();
      var arraySize: nat := 7;
      if advancedMode {
        arraySize := numberOfBytes;
      }
      ghost var spec := EditSpec(u.eeprom, memSlot, arraySize, u.serial);
      ghost var after := State(spec.eeprom, u.code, u.slot, u.advanced, u.choice, u.readPressed, u.writePressed, spec.serial, u.bus);
      assert after == u.(eeprom := spec.eeprom, serial := spec.serial);
      assert EditSlotStep(st0, memSlot, numberOfBytes, selector)
        == if spec.outcome == Restarted then Step(Rebooted(after), Restarted) else Step(after, spec.outcome);
      o := EditInput(memSlot, arraySize);
      assert Snapshot() == after;
      if o == Restarted {
        Restart();
      }
    }

    /** writeByte(data): eight time slots, least significant bit first. */
    method WriteByte(data: bv8)
      modifies this`bus
      ensures bus == old(bus) + ByteSlots(data)
    {
      var d := data;
      for dataBit := 0 to 8
        invariant d == data >> dataBit
        invariant bus == old(bus) + Slots(ByteBits(data)[..dataBit])
      {
        WriteByteStep(data, dataBit, d);
        bus := bus + [TimeSlot(d & 1 == 1)];
        d := d >> 1;
      }
      assert ByteBits(data)[..8] == ByteBits(data);
    }

    /** The store loop of read_iButton: the identifier found goes to the
        active slot and to code[]. */
    method StoreId(id: RomId)
      requires Valid()
      modifies eeprom, code
      ensures eeprom[..] == WithId(old(eeprom[..]), activeMemSlot, id) && code[..] == id
    {
      ghost var e0 := eeprom[..];
      var base := Base(activeMemSlot);
      for i := 0 to 8
        invariant forall a :: 0 <= a < EepromSize ==>
          eeprom[a] == if base <= a < base + i then id[a - base] else e0[a]
        invariant forall j :: 0 <= j < i ==> code[j] == id[j]
      {
        eeprom[i + base] := id[i];
        code[i] := id[i];
      }
      OverwriteExt(e0, base, id, eeprom[..]);
      assert code[..] == id;
    }

    /** read_iButton(): found is what ibutton.search reports. */
    method ReadIButton(selector: seq<bool>, found: SearchResult) returns (ok: bool)
      requires Valid() && |selector| == 4
      modifies this`activeMemSlot, this`bus, eeprom, code
      ensures Valid() && (Snapshot(), ok) == ReadStep(old(Snapshot()), selector, found)
    {
      UpdateSlot(selector);
      ghost var u := Snapshot();
      bus := bus + [Search, ResetSearch];
      if found.NoDevice? {
        return false;
      }
      StoreId(found.id);
      ghost var target := State(WithId(u.eeprom, u.slot, found.id), found.id, u.slot, u.advanced, u.choice,
                                u.readPressed, u.writePressed, u.serial, u.bus + [Search, ResetSearch]);
      assert Snapshot() == target;
      ok := true;
    }

    /** The data loop of write_iButton: writeByte for each byte of code[]. */
    method SendCode()
      requires Valid()
      modifies this`bus
      ensures bus == old(bus) + BufferSlots(code[..])
    {
      for x := 0 to 8
        invariant bus == old(bus) + BufferSlots(code[..x])
      {
        BufferSlotsAppend(code[..x], code[x]);
        assert code[..x + 1] == code[..x] + [code[x]];
        WriteByte(code[x]);
      }
      assert code[..8] == code[..];
    }

    /** The full-slot branch of write_iButton: search, then the RW1990
        preparation, the eight data bytes, a reset and reset_search. */
    method ProgramFob(found: SearchResult) returns (ok: bool)
      requires Valid()
      modifies this`bus
      ensures ok == found.Device? && bus == old(bus) + WriteTrace(true, found, code[..])
    {
      if found.NoDevice? {
        bus := bus + [Search, ResetSearch];
        return false;
      }
      bus := bus + [Search];
      bus := bus + [Skip, Reset, Write(0x33), Skip, Reset, Write(0xD5)];
      SendCode();
      bus := bus + [Reset];
      bus := bus + [ResetSearch];
      return true;
    }

    /** write_iButton(): found is what ibutton.search reports. */
    method WriteIButton(selector: seq<bool>, found: SearchResult) returns (ok: bool)
      requires Valid() && |selector| == 4
      modifies this`activeMemSlot, this`bus, code
      ensures Valid() && (Snapshot(), ok) == WriteStep(old(Snapshot()), selector, found)
    {
      UpdateSlot(selector);
      ghost var u := Snapshot();
      var full := SlotIsFull(activeMemSlot);
      ok := false;
      if full {
        ok := ProgramFob(found);
      } else {
        assert bus == u.bus + WriteTrace(full, found, u.code);
      }
      ghost var target := State(u.eeprom, u.code, u.slot, u.advanced, u.choice, u.readPressed, u.writePressed,
                                u.serial, u.bus + WriteTrace(full, found, u.code));
      assert Snapshot() == target;
    }

    /** detect_iButton(). */
    method DetectIButton(found: SearchResult) returns (ok: bool)
      modifies this`bus
      ensures ok == found.Device? && bus == old(bus) + [Search, ResetSearch]
    {
      bus := bus + [Search];
      bus := bus + [ResetSearch];
      ok := found.Device?;
    }

    /** The wait for a device ('|'): the search fails misses times, each
        failure followed by reset_search, then succeeds. */
    method WaitForIButton(misses: nat)
      modifies this`bus
      ensures bus == old(bus) + Polls(misses + 1)
    {
      var failed := 0;
      while failed < misses
        invariant failed <= misses && bus == old(bus) + Polls(failed)
      {
        bus := bus + [Search, ResetSearch];
        failed := failed + 1;
      }
      bus := bus + [Search, ResetSearch];
    }

    /** The confirmation of the wipe: "IPE", compared byte by byte as it
        arrives; a wrong byte clears the receive buffer. */
    method ConfirmWipe() returns (action: SelectAction)
      requires Valid()
      modifies this`rx, this`arriving
      ensures Valid() && SelectResult(action, SerialIn(rx, arriving)) == ConfirmSpec(old(SerialIn(rx, arriving)), 0)
    {
      for x := 0 to 3
        invariant ConfirmSpec(SerialIn(rx, arriving), x) == ConfirmSpec(old(SerialIn(rx, arriving)), 0)
      {
        var waiting := AwaitInput();
        if !waiting {
          return SelectStalled;
        }
        var b := rx[0];
        rx := rx[1..];
        if b != WipeKey[x] {
          rx := [];
          return WipeRefused;
        }
      }
      return WipeConfirmed;
    }

    /** The 'W' branch of the 'M' command: the confirmation, then the wipe
        of all slots if it succeeded. */
    method WipeDialogue() returns (action: SelectAction)
      requires Valid()
      modifies this`rx, this`arriving, eeprom
      ensures Valid() && SelectResult(action, SerialIn(rx, arriving)) == ConfirmSpec(old(SerialIn(rx, arriving)), 0)
      ensures eeprom[..] == if action == WipeConfirmed then Wiped(old(eeprom[..])) else old(eeprom[..])
    {
      action := ConfirmWipe();
      if action == WipeConfirmed {
        WipeAllSlots();
      }
    }

    /** The while(true) loop of the 'M' command. */
    method MemorySelect() returns (action: SelectAction)
      requires Valid()
      modifies this`rx, this`arriving, this`activeMemSlot, eeprom
      ensures Valid() && SelectResult(action, SerialIn(rx, arriving)) == SelectSpec(old(SerialIn(rx, arriving)))
      ensures activeMemSlot == if action.Chose? then action.slot else old(activeMemSlot)
      ensures eeprom[..] == if action == WipeConfirmed then Wiped(old(eeprom[..])) else old(eeprom[..])
    {
      while true
        invariant Valid() && SelectSpec(SerialIn(rx, arriving)) == SelectSpec(old(SerialIn(rx, arriving)))
        invariant eeprom[..] == old(eeprom[..]) && activeMemSlot == old(activeMemSlot)
        decreases |arriving|, |rx|
      {
        var waiting := AwaitInput();
        if !waiting {
          return SelectStalled;
        }
        var ch := ToUpper(rx[0] as int);
        rx := rx[1..];
        if ch == 'X' as int {
          return Exit;
        }
        if ch == 'L' as int {
          continue;
        }
        if ch == 'W' as int {
          action := WipeDialogue();
          return;
        }
        var changed := SetActiveMemSlot(ch);
        if changed {
          return Chose(activeMemSlot);
        }
        rx := [];
        return Refused;
      }
    }

    /** The 'M' command in advanced mode, on the whole state. */
    method MemoryCommand() returns (action: SelectAction)
      requires Valid()
      modifies this`rx, this`arriving, this`activeMemSlot, eeprom
      ensures Valid() && (Snapshot(), action) == SelectStep(old(Snapshot()))
    {
      ghost var st0 := Snapshot();
      action := MemorySelect();
      ghost var sel := SelectSpec(st0.serial);
      assert Snapshot() == State(eeprom[..], st0.code, activeMemSlot, st0.advanced, st0.choice,
        st0.readPressed, st0.writePressed, sel.serial, st0.bus);
    }

    /** serial_parser(): one byte is taken from the receive buffer; it
        selects a command only while serial_choice is -1. */
    method SerialParser()
      requires Valid()
      modifies this`rx, this`serialChoice
      ensures Valid()
      ensures old(rx) == [] ==> rx == old(rx) && serialChoice == old(serialChoice)
      ensures old(rx) != [] ==> (rx == old(rx)[1..] &&
        serialChoice == if old(serialChoice) == -1 then CommandChoice(ToUpper(old(rx)[0] as int)) else old(serialChoice))
    {
      if rx != [] {
        var currChar := rx[0];
        rx := rx[1..];
        if serialChoice == -1 {
          serialChoice := CommandChoice(ToUpper(currChar as int));
        }
      }
    }

    /** function_caller(): selector is what the slot lines read, found what a
        search reports and misses how often the wait's search fails. */
    method FunctionCaller(selector: seq<bool>, found: SearchResult, misses: nat) returns (o: Outcome)
      requires Valid() && |selector| == 4
      modifies this, eeprom, code
      ensures Valid() && Step(Snapshot(), o) == CallerStep(old(Snapshot()), selector, found, misses)
    {
      o := Returned;
      var c := serialChoice;
      if c == 0 {
        UpdateSlot(selector);
      } else if c == 1 {
        var n := if advancedMode then 8 else 7;
        o := EditSlot(activeMemSlot, n, selector);
        if o != Returned {
          return;
        }
      } else if c == 2 {
        UpdateSlot(selector);
        ClearSlot(activeMemSlot);
      } else if c == 4 {
        var _ := ReadIButton(selector, found);
      } else if c == 5 {
        var _ := WriteIButton(selector, found);
      } else if c == 6 {
        var _ := DetectIButton(found);
      } else if c == 7 {
        WaitForIButton(misses);
      } else if c == 8 {
        advancedMode := !advancedMode;
        UpdateSlot(selector);
      } else if c == 9 && advancedMode {
        var action := MemoryCommand();
        if action == SelectStalled {
          return Stalled;
        }
        if action == WipeRefused {
          return;
        }
      }
      serialChoice := -1;
    }

    /** The three rounds of a two-button hold: read_pressed and
        write_pressed are sampled again each round, and the hold ends at the
        first round in which a button is released. */
    method HoldBoth(samples: seq<Buttons>) returns (held: bool)
      requires |samples| == 4 && BothHeld(samples[0])
      modifies this`readPressed, this`writePressed
      ensures held <==> forall i :: 0 <= i < 4 ==> BothHeld(samples[i])
      ensures held ==> readPressed && writePressed
      ensures !held ==> readPressed == samples[FirstRelease(samples)].read && writePressed == samples[FirstRelease(samples)].write
    {
      readPressed := samples[0].read;
      writePressed := samples[0].write;
      for x := 0 to 3
        invariant readPressed && writePressed
        invariant forall i :: 0 <= i <= x ==> BothHeld(samples[i])
        invariant readPressed == samples[x].read && writePressed == samples[x].write
      {
        readPressed := samples[x + 1].read;
        writePressed := samples[x + 1].write;
        if !readPressed || !writePressed {
          return false;
        }
      }
      return true;
    }

    /** The button branch of loop(): samples are the readings (the first,
        then one per round of a two-button hold). */
    method PollButtons(selector: seq<bool>, samples: seq<Buttons>, found: SearchResult)
      requires Valid() && |selector| == 4 && |samples| == 4
      modifies this`activeMemSlot, this`readPressed, this`writePressed, this`bus, eeprom, code
      ensures Valid() && Snapshot() == ButtonsStep(old(Snapshot()), selector, samples, found)
    {
      ghost var st0 := Snapshot();
      readPressed := samples[0].read;
      writePressed := samples[0].write;
      ghost var st1 := Snapshot();
      assert st1 == st0.(readPressed := samples[0].read, writePressed := samples[0].write);
      if readPressed && writePressed {
        var held := HoldBoth(samples);
        if !held {
          return;
        }
        ClearSlot(activeMemSlot);
        assert Snapshot() == st1.(eeprom := Cleared(st0.eeprom, st0.slot));
      }
      if readPressed {
        var _ := ReadIButton(selector, found);
      } else if writePressed {
        var _ := WriteIButton(selector, found);
      }
    }

    /** loop(): serial input first, the buttons otherwise. */
    method Loop(selector: seq<bool>, samples: seq<Buttons>, found: SearchResult, misses: nat) returns (o: Outcome)
      requires Valid() && |selector| == 4 && |samples| == 4
      modifies this, eeprom, code
      ensures Valid() && Step(Snapshot(), o) == LoopStep(old(Snapshot()), selector, samples, found, misses)
    {
      if rx != [] {
        SerialParser();
        o := FunctionCaller(selector, found, misses);
        return;
      }
      PollButtons(selector, samples, found);
      o := Returned;
    }
  }
}
