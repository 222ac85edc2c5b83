/** The sketch as a state machine over values. State holds the globals of
    main.cpp (code[], activeMemSlot, advancedMode, serial_choice,
    read_pressed, write_pressed), the EEPROM image, the serial input and the
    1-Wire trace; each routine is a function from the state before to the
    state after. The methods of Firmware.Cloner are proved to produce exactly
    these states. The lemmas at the end state the promises of the source
    about them. */
module Sketch {
  import opened Bits
  import opened Hex
  import opened SlotStore
  import opened Bus
  import opened Session
  import SerialHex

  datatype State = State(
    eeprom: seq<bv8>,   // the EEPROM image
    code: seq<bv8>,     // code[8]
    slot: SlotIndex,    // activeMemSlot
    advanced: bool,     // advancedMode
    choice: int,        // serial_choice
    readPressed: bool,  // read_pressed
    writePressed: bool, // write_pressed
    serial: SerialIn,   // the receive buffer and the input still to come
    bus: seq<Event>)    // what the sketch has done on the 1-Wire line

  predicate Wf(st: State)
  {
    |st.eeprom| == EepromSize && |st.code| == 8 && -1 <= st.choice <= 9
  }

  /** A state and how the routine that produced it ended. */
  datatype Step = Step(st: State, outcome: Outcome)

  /** The state at power-on with the EEPROM holding stored: every global
      has its initial value, and nothing has been received or sent. */
  function PowerOn(stored: seq<bv8>): (r: State)
    requires |stored| == EepromSize
    ensures Wf(r)
  {
    State(stored, Zeros(8), 0, false, -1, false, false, SerialIn([], []), [])
  }

  /** The state after bad_form(): the receive buffer is cleared and
      resetFunc() starts the program afresh, so every global gets its
      initial value; the EEPROM is kept. */
  function Rebooted(st: State): (r: State)
    requires Wf(st)
    ensures Wf(r) && r.eeprom == st.eeprom && r.bus == st.bus && r.serial.arriving == st.serial.arriving
    ensures r.slot == 0 && !r.advanced && r.choice == -1 && r.serial.rx == [] && r.code == Zeros(8)
    ensures !r.readPressed && !r.writePressed
  {
    st.(code := Zeros(8), slot := 0, advanced := false, choice := -1,
        readPressed := false, writePressed := false, serial := ClearRx(st.serial))
  }

  lemma Pow2Four()
    ensures Pow2(4) == 16
  {
  }

  /** The slot the four selector lines give, line x having weight 2^x. */
  function SelectorSlot(selector: seq<bool>): (s: SlotIndex)
    requires |selector| == 4
    ensures s == BitsValue(selector)
  {
    Pow2Four();
    BitsValue(selector)
  }

  /** update_slot(): nothing in advanced mode; otherwise the selected slot
      becomes active and its identifier is loaded into code[]. */
  function Reselected(st: State, selector: seq<bool>): (r: State)
    requires Wf(st) && |selector| == 4
    ensures Wf(r)
  {
    if st.advanced then st
    else
      var s := SelectorSlot(selector);
      st.(slot := s, code := Id(st.eeprom, s))
  }

  /** read_iButton(): reselect, search; on success the identifier found is
      stored in the active slot and in code[]. */
  function ReadStep(st: State, selector: seq<bool>, found: SearchResult): (r: (State, bool))
    requires Wf(st) && |selector| == 4
    ensures Wf(r.0)
  {
    var u := Reselected(st, selector);
    var u1 := u.(bus := u.bus + [Search, ResetSearch]);
    match found
    case NoDevice => (u1, false)
    case Device(id) => (u1.(eeprom := WithId(u.eeprom, u.slot, id), code := id), true)
  }

  /** write_iButton(): reselect; for a full slot, search and, when a fob
      answers, program code[] into it. */
  function WriteStep(st: State, selector: seq<bool>, found: SearchResult): (r: (State, bool))
    requires Wf(st) && |selector| == 4
    ensures Wf(r.0)
  {
    var u := Reselected(st, selector);
    var full := Full(u.eeprom, u.slot);
    (u.(bus := u.bus + WriteTrace(full, found, u.code)), full && found.Device?)
  }

  /** edit_slot(memSlot, numberOfBytes): reselect, then edit memSlot with
      numberOfBytes values in advanced mode and 7 in normal mode; a
      malformed code restarts the program. */
  function EditSlotStep(st: State, memSlot: SlotIndex, numberOfBytes: nat, selector: seq<bool>): (r: Step)
    requires Wf(st) && |selector| == 4
    ensures Wf(r.st)
  {
    var u := Reselected(st, selector);
    var size := if u.advanced then numberOfBytes else 7;
    var e := EditSpec(u.eeprom, memSlot, size, u.serial);
    EditFrame(u.eeprom, memSlot, size, u.serial, 0);
    var after := u.(eeprom := e.eeprom, serial := e.serial);
    if e.outcome == Restarted then Step(Rebooted(after), Restarted) else Step(after, e.outcome)
  }

  /** Edit as function_caller calls it: the slot to edit is the one active
      before edit_slot's own update_slot(); advanced mode asks for 8 values. */
  function EditStep(st: State, selector: seq<bool>): (r: Step)
    requires Wf(st) && |selector| == 4
    ensures Wf(r.st)
  {
    EditSlotStep(st, st.slot, if st.advanced then 8 else 7, selector)
  }

  /** The 'M' dialogue in advanced mode. */
  function SelectStep(st: State): (r: (State, SelectAction))
    requires Wf(st)
    ensures Wf(r.0)
  {
    var sel := SelectSpec(st.serial);
    var st1 := st.(serial := sel.serial);
    match sel.action
    case Chose(d) => (st1.(slot := d), sel.action)
    case WipeConfirmed => (st1.(eeprom := Wiped(st.eeprom)), sel.action)
    case _ => (st1, sel.action)
  }

  /** The reset of serial_choice at the end of function_caller. */
  function Finish(st: State): Step
  {
    Step(st.(choice := -1), Returned)
  }

  /** function_caller(): the routine serial_choice names, then serial_choice
      back to -1, except when the routine restarted the program, when it
      never returns, or when the wipe confirmation failed (its return skips
      the reset). */
  function CallerStep(st: State, selector: seq<bool>, found: SearchResult, misses: nat): (r: Step)
    requires Wf(st) && |selector| == 4
    ensures Wf(r.st)
  {
    var c := st.choice;
    if c == 0 then Finish(Reselected(st, selector))                   // Show
    else if c == 1 then                                               // Edit
      var e := EditStep(st, selector);
      if e.outcome == Returned then Finish(e.st) else e
    else if c == 2 then                                               // Clear
      var u := Reselected(st, selector);
      ClearEffect(u.eeprom, u.slot, 0);
      Finish(u.(eeprom := Cleared(u.eeprom, u.slot)))
    else if c == 3 then Finish(st)                                    // Dump
    else if c == 4 then Finish(ReadStep(st, selector, found).0)       // Read
    else if c == 5 then Finish(WriteStep(st, selector, found).0)      // Write
    else if c == 6 then Finish(st.(bus := st.bus + [Search, ResetSearch]))  // List
    else if c == 7 then Finish(st.(bus := st.bus + Polls(misses + 1)))      // wait '|'
    else if c == 8 then Finish(Reselected(st.(advanced := !st.advanced), selector)) // Advanced
    else if c == 9 then                                               // Memory select
      if !st.advanced then Finish(st)
      else
        var (s, a) := SelectStep(st);
        WipeEffect(st.eeprom, 0, 0);
        if a == SelectStalled then Step(s, Stalled)
        else if a == WipeRefused then Step(s, Returned)
        else Finish(s)
    else Finish(st)
  }

  /** The round (1..3) of the three-round hold in which a button was seen
      released. */
  function FirstRelease(samples: seq<Buttons>): (k: nat)
    requires |samples| == 4 && exists i :: 1 <= i < 4 && !BothHeld(samples[i])
    ensures 1 <= k < 4 && !BothHeld(samples[k])
    ensures forall i :: 1 <= i < k ==> BothHeld(samples[i])
  {
    if !BothHeld(samples[1]) then 1 else if !BothHeld(samples[2]) then 2 else 3
  }

  /** The button branch of loop(): samples[0] is the first reading and
      samples[i] the reading in round i of a two-button hold. */
  function ButtonsStep(st: State, selector: seq<bool>, samples: seq<Buttons>, found: SearchResult): (r: State)
    requires Wf(st) && |selector| == 4 && |samples| == 4
    ensures Wf(r)
  {
    var st1 := st.(readPressed := samples[0].read, writePressed := samples[0].write);
    match ButtonStep(samples)
    case Idle => st1
    case ComboReleased =>
      var k := FirstRelease(samples);
      st1.(readPressed := samples[k].read, writePressed := samples[k].write)
    case ClearThenRead =>
      ClearEffect(st.eeprom, st.slot, 0);
      ReadStep(st1.(eeprom := Cleared(st.eeprom, st.slot)), selector, found).0
    case ReadFob => ReadStep(st1, selector, found).0
    case WriteFob => WriteStep(st1, selector, found).0
  }

  /** One pass of loop(). With bytes in the receive buffer: serial_parser
      takes one (it selects a command only when serial_choice is -1), then
      function_caller. Otherwise the buttons. */
  function LoopStep(st: State, selector: seq<bool>, samples: seq<Buttons>, found: SearchResult, misses: nat): (r: Step)
    requires Wf(st) && |selector| == 4 && |samples| == 4
    ensures Wf(r.st)
  {
    if st.serial.rx != [] then
      var c := st.serial.rx[0];
      var parsed := st.(serial := SerialIn(st.serial.rx[1..], st.serial.arriving),
                        choice := if st.choice == -1 then CommandChoice(ToUpper(c as int)) else st.choice);
      CallerStep(parsed, selector, found, misses)
    else
      Step(ButtonsStep(st, selector, samples, found), Returned)
  }

  /** Bytes reaching the serial line while loop() runs: the UART appends
      them to the receive buffer, where the next pass of loop() sees them. */
  function Arrived(st: State, b: Burst): (r: State)
    requires Wf(st)
    ensures Wf(r) && r.serial.rx == st.serial.rx + b && r.serial.arriving == st.serial.arriving
    ensures r.(serial := st.serial) == st
  {
    st.(serial := SerialIn(st.serial.rx + b, st.serial.arriving))
  }

  // ---- properties ----

  /** A restart is a power-on over the same EEPROM; only the trace of the
      bus and the input still to come, which lie outside the program, are
      kept. */
  lemma RebootedIsPowerOn(st: State)
    requires Wf(st)
    ensures Rebooted(st) == PowerOn(st.eeprom).(serial := SerialIn([], st.serial.arriving), bus := st.bus)
  {
  }

  /** Bytes that arrive while loop() idles are taken by its next pass: the
      first of them selects the command, which function_caller runs at once;
      the buttons are not read. */
  lemma IdleInputRunsCommand(st: State, b: Burst, selector: seq<bool>, samples: seq<Buttons>, found: SearchResult, misses: nat)
    requires Wf(st) && |selector| == 4 && |samples| == 4 && st.serial.rx == [] && st.choice == -1
    ensures LoopStep(Arrived(st, b), selector, samples, found, misses)
      == CallerStep(st.(serial := SerialIn(b[1..], st.serial.arriving),
                        choice := CommandChoice(ToUpper(b[0] as int))), selector, found, misses)
  {
    assert Arrived(st, b).serial.rx == b;
  }

  /** update_slot in advanced mode changes nothing; in normal mode the
      active slot is the selector value (0..15) and code[] is that slot's
      identifier; nothing else changes either way. */
  lemma ReselectedEffect(st: State, selector: seq<bool>)
    requires Wf(st) && |selector| == 4
    ensures st.advanced ==> Reselected(st, selector) == st
    ensures !st.advanced ==> (Reselected(st, selector).slot == BitsValue(selector) < 16
      && Reselected(st, selector).code == Id(st.eeprom, BitsValue(selector)))
    ensures Reselected(st, selector).(slot := st.slot, code := st.code) == st
  {
  }

  /** read_iButton: a failed search changes no EEPROM byte and reports false;
      a successful one stores the identifier found in the active slot and in
      code[], keeping that slot's name and every other address. */
  lemma ReadStepEffect(st: State, selector: seq<bool>, found: SearchResult, a: nat)
    requires Wf(st) && |selector| == 4 && a < EepromSize
    ensures var (r, ok) := ReadStep(st, selector, found);
      && ok == found.Device?
      && r.bus == st.bus + [Search, ResetSearch]
      && (found.NoDevice? ==> r.eeprom == st.eeprom)
      && (found.Device? ==>
            && Id(r.eeprom, r.slot) == found.id && r.code == found.id
            && Name(r.eeprom, r.slot) == Name(st.eeprom, r.slot)
            && (!(Base(r.slot) <= a < Base(r.slot) + 8) ==> r.eeprom[a] == st.eeprom[a]))
  {
    if found.Device? {
      var u := Reselected(st, selector);
      IdWrite(u.eeprom, u.slot, found.id, a);
    }
  }

  /** write_iButton on a slot that is empty after update_slot returns false
      and touches the bus not at all, not even with a search. */
  lemma WriteEmptySlotNoBus(st: State, selector: seq<bool>, found: SearchResult)
    requires Wf(st) && |selector| == 4
    requires !Full(Reselected(st, selector).eeprom, Reselected(st, selector).slot)
    ensures WriteStep(st, selector, found).0.bus == st.bus && !WriteStep(st, selector, found).1
  {
  }

  /** In normal mode write_iButton programs the identifier stored in the
      selected slot: the fob receives exactly those eight bytes. */
  lemma WriteStepProgramsSlot(st: State, selector: seq<bool>, id: RomId)
    requires Wf(st) && |selector| == 4 && !st.advanced
    requires Full(st.eeprom, BitsValue(selector))
    ensures WriteStep(st, selector, Device(id)).1
    ensures WriteStep(st, selector, Device(id)).0.bus
      == st.bus + WriteTrace(true, Device(id), Id(st.eeprom, BitsValue(selector)))
    ensures Assemble(Received(WriteStep(st, selector, Device(id)).0.bus[|st.bus|..]))
      == Id(st.eeprom, BitsValue(selector))
  {
    var code := Id(st.eeprom, BitsValue(selector));
    var u := Reselected(st, selector);
    ReselectedEffect(st, selector);
    assert u.slot == BitsValue(selector) && u.code == code && u.eeprom == st.eeprom && u.bus == st.bus;
    var trace := WriteTrace(true, Device(id), code);
    var r := WriteStep(st, selector, Device(id)).0;
    assert r.bus == st.bus + trace;
    assert r.bus[|st.bus|..] == trace;
    WriteTraceDelivers(code, id);
    assert Assemble(Received(trace)) == code;
  }

  /** In advanced mode update_slot does not reload code[]: write_iButton
      programs whatever code[] held, which after an 'M' selection is the
      identifier of the slot active before, not of the slot now active. */
  lemma WriteStepAdvancedUsesCode(st: State, selector: seq<bool>, found: SearchResult)
    requires Wf(st) && |selector| == 4 && st.advanced
    ensures WriteStep(st, selector, found).0.bus == st.bus + WriteTrace(Full(st.eeprom, st.slot), found, st.code)
  {
  }

  /** Clear (choice 2) zeroes the 16 record bytes of the selected slot and no
      other byte, and the slot reads empty afterwards. */
  lemma ClearCommandEffect(st: State, selector: seq<bool>, found: SearchResult, misses: nat, a: nat)
    requires Wf(st) && |selector| == 4 && st.choice == 2 && a < EepromSize
    ensures var r := CallerStep(st, selector, found, misses).st;
      var s := Reselected(st, selector).slot;
      && r.eeprom[a] == (if Base(s) <= a < Base(s) + RecordLen then 0 else st.eeprom[a])
      && !Full(r.eeprom, s) && r.choice == -1
  {
    var u := Reselected(st, selector);
    ClearEffect(u.eeprom, u.slot, a);
  }

  /** The 'M' wipe: with "IPE" confirmed every slot is emptied; a wrong byte
      writes nothing and returns from function_caller without the reset of
      serial_choice, which stays 9. */
  lemma WipeCommandEffect(st: State, selector: seq<bool>, found: SearchResult, misses: nat, t: SlotIndex)
    requires Wf(st) && |selector| == 4 && st.choice == 9 && st.advanced
    ensures var r := CallerStep(st, selector, found, misses);
      && (SelectSpec(st.serial).action == WipeConfirmed ==> !Full(r.st.eeprom, t) && Name(r.st.eeprom, t) == Zeros(8) && r.st.choice == -1)
      && (SelectSpec(st.serial).action == WipeRefused ==> r.st.eeprom == st.eeprom && r.st.choice == 9 && r.outcome == Returned)
  {
    WipeEffect(st.eeprom, t, 0);
  }

  /** After a refused wipe the next byte received is not read as a command:
      serial_parser drops it and the 'M' dialogue runs again on the bytes
      after it. */
  lemma RefusedWipeSwallowsNextByte(st: State, selector: seq<bool>, samples: seq<Buttons>, found: SearchResult, misses: nat)
    requires Wf(st) && |selector| == 4 && |samples| == 4 && st.choice == 9 && st.serial.rx != []
    ensures LoopStep(st, selector, samples, found, misses)
      == CallerStep(st.(serial := SerialIn(st.serial.rx[1..], st.serial.arriving)), selector, found, misses)
  {
  }

  /** Input on the serial line has priority: the buttons are not read, so
      the result does not depend on them, and read_pressed keeps its value
      unless the program restarts. */
  lemma SerialHasPriority(st: State, selector: seq<bool>, s1: seq<Buttons>, s2: seq<Buttons>, found: SearchResult, misses: nat)
    requires Wf(st) && |selector| == 4 && |s1| == 4 && |s2| == 4 && st.serial.rx != []
    ensures LoopStep(st, selector, s1, found, misses) == LoopStep(st, selector, s2, found, misses)
    ensures LoopStep(st, selector, s1, found, misses).outcome != Restarted ==>
      LoopStep(st, selector, s1, found, misses).st.readPressed == st.readPressed
  {
    var parsed := st.(serial := SerialIn(st.serial.rx[1..], st.serial.arriving),
                      choice := if st.choice == -1 then CommandChoice(ToUpper(st.serial.rx[0] as int)) else st.choice);
    assert LoopStep(st, selector, s1, found, misses) == CallerStep(parsed, selector, found, misses);
    assert LoopStep(st, selector, s2, found, misses) == CallerStep(parsed, selector, found, misses);
    CallerKeepsButtons(parsed, selector, found, misses);
  }

  /** function_caller never changes the button state it does not read;
      only a restart resets it. */
  lemma CallerKeepsButtons(st: State, selector: seq<bool>, found: SearchResult, misses: nat)
    requires Wf(st) && |selector| == 4
    ensures var r := CallerStep(st, selector, found, misses);
      r.outcome != Restarted ==> r.st.readPressed == st.readPressed && r.st.writePressed == st.writePressed
  {
    var c := st.choice;
    if c == 1 {
      var u := Reselected(st, selector);
      assert u.readPressed == st.readPressed && u.writePressed == st.writePressed;
    }
  }

  /** A byte that is no command letter only leaves the buffer. */
  lemma UnknownByteChangesNothing(st: State, selector: seq<bool>, samples: seq<Buttons>, found: SearchResult, misses: nat)
    requires Wf(st) && |selector| == 4 && |samples| == 4 && st.choice == -1 && st.serial.rx != []
    requires CommandChoice(ToUpper(st.serial.rx[0] as int)) == -1
    ensures LoopStep(st, selector, samples, found, misses)
      == Step(st.(serial := SerialIn(st.serial.rx[1..], st.serial.arriving)), Returned)
  {
  }

  /** The two-button clear: it needs both buttons in all four readings;
      then it zeroes the record of the slot that was active before this pass
      (loop() does not call update_slot first) and, read_pressed still being
      true, goes on into read_iButton. A release in any round writes nothing
      and touches no bus. */
  lemma ButtonClear(st: State, selector: seq<bool>, samples: seq<Buttons>, found: SearchResult, misses: nat)
    requires Wf(st) && |selector| == 4 && |samples| == 4 && st.serial.rx == []
    ensures var r := LoopStep(st, selector, samples, found, misses).st;
      && ((forall i :: 0 <= i < 4 ==> BothHeld(samples[i])) ==>
           r == ReadStep(st.(readPressed := true, writePressed := true,
                             eeprom := Cleared(st.eeprom, st.slot)), selector, found).0)
      && (BothHeld(samples[0]) && (exists i :: 1 <= i < 4 && !BothHeld(samples[i])) ==>
           r.eeprom == st.eeprom && r.bus == st.bus && r.code == st.code && r.slot == st.slot)
  {
  }

  /** A completed hold with no fob present leaves the slot that was active
      before the pass empty: the record is cleared exactly once. */
  lemma ButtonClearNoFob(st: State, selector: seq<bool>, samples: seq<Buttons>, misses: nat)
    requires Wf(st) && |selector| == 4 && |samples| == 4 && st.serial.rx == []
    requires forall i :: 0 <= i < 4 ==> BothHeld(samples[i])
    ensures var r := LoopStep(st, selector, samples, NoDevice, misses).st;
      && r.eeprom == Cleared(st.eeprom, st.slot) && !Full(r.eeprom, st.slot)
      && r.bus == st.bus + [Search, ResetSearch]
  {
    ClearEffect(st.eeprom, st.slot, 0);
  }

  /** Turning advanced mode off puts the slot back under the selector lines
      and reloads code[]; turning it on keeps both. */
  lemma ToggleAdvancedEffect(st: State, selector: seq<bool>, found: SearchResult, misses: nat)
    requires Wf(st) && |selector| == 4 && st.choice == 8
    ensures var r := CallerStep(st, selector, found, misses).st;
      && r.advanced == !st.advanced && r.choice == -1 && r.eeprom == st.eeprom
      && (st.advanced ==> r.slot == BitsValue(selector) && r.code == Id(st.eeprom, r.slot))
      && (!st.advanced ==> r.slot == st.slot && r.code == st.code)
  {
  }

  /** Edit writes into the slot active before the command, not the one the
      selector lines give now, and changes no byte outside its record. */
  lemma EditCommandFrame(st: State, selector: seq<bool>, found: SearchResult, misses: nat, a: nat)
    requires Wf(st) && |selector| == 4 && st.choice == 1 && a < EepromSize
    requires !(Base(st.slot) <= a < Base(st.slot) + RecordLen)
    ensures CallerStep(st, selector, found, misses).st.eeprom[a] == st.eeprom[a]
  {
    var u := Reselected(st, selector);
    EditFrame(u.eeprom, st.slot, if st.advanced then 8 else 7, u.serial, a);
  }

  /** A malformed code restarts the program: the globals are back at their
      initial values and the EEPROM is as before. */
  lemma EditBadFormRestarts(st: State, selector: seq<bool>, found: SearchResult, misses: nat)
    requires Wf(st) && |selector| == 4 && st.choice == 1
    requires var u := Reselected(st, selector);
      && Await(u.serial).rx != []
      && SerialHex.ParseSpec(Await(u.serial).rx, if st.advanced then 8 else 7) == SerialHex.BadForm
    ensures var r := CallerStep(st, selector, found, misses);
      && r.outcome == Restarted && r.st.eeprom == st.eeprom
      && r.st.slot == 0 && !r.st.advanced && r.st.choice == -1 && r.st.code == Zeros(8)
  {
  }
}
