/** The console and button behaviour of the sketch as pure functions: the
    serial input as the sketch sees it, serial_parser's command letters
    (main.cpp:117-166), the edit dialogue of edit_slot (main.cpp:463-526),
    the 'M' dialogue of function_caller (main.cpp:811-885) and the button
    arbitration of loop() (main.cpp:924-953). Firmware.Cloner is proved to
    follow them. */
module Session {
  import opened Hex
  import opened Crc
  import opened SlotStore
  import SerialHex
  import Display

  /** A burst of bytes that arrives while the sketch waits for input. */
  type Burst = s: seq<bv8> | |s| > 0 witness [0]

  /** The serial input: the bytes already in the receive buffer, and the
      bursts still to come, one each time the sketch waits on an empty
      buffer. */
  datatype SerialIn = SerialIn(rx: seq<bv8>, arriving: seq<Burst>)

  /** A wait for serial input (wait_for_serial_input and its inline copies):
      it returns at once when bytes are waiting and otherwise takes the next
      burst. An empty rx afterwards means nothing more arrives: the sketch
      waits for ever. */
  function Await(s: SerialIn): (t: SerialIn)
    ensures t.rx == [] <==> s.rx == [] && s.arriving == []
    ensures s.rx != [] ==> t == s
    ensures s.rx == [] && s.arriving != [] ==> t.rx == s.arriving[0] && t.arriving == s.arriving[1..]
  {
    if s.rx != [] || s.arriving == [] then s
    else SerialIn(s.arriving[0], s.arriving[1..])
  }

  /** clear_serial(): the receive buffer is emptied. */
  function ClearRx(s: SerialIn): SerialIn
  {
    SerialIn([], s.arriving)
  }

  /** How a routine of the sketch ends: it returns; bad_form() restarts the
      program; or it waits for serial input that never comes. */
  datatype Outcome = Returned | Restarted | Stalled

  // ---- serial_parser ----

  /** The command letters: serial_choice k is selected by CommandLetters[k]
      (Show, Edit, Clear, Dump, Read, Write, List, wait '|', Advanced, Memory). */
  const CommandLetters: seq<int> :=
    ['S' as int, 'E' as int, 'C' as int, 'D' as int, 'R' as int,
     'W' as int, 'L' as int, '|' as int, 'A' as int, 'M' as int]

  /** The switch of serial_parser on an upper-cased character: the choice it
      selects, or -1 (the default case leaves serial_choice at -1). */
  function CommandChoice(c: int): (k: int)
    ensures -1 <= k <= 9
    ensures 0 <= k ==> CommandLetters[k] == c
    ensures k == -1 <==> forall j :: 0 <= j < 10 ==> CommandLetters[j] != c
  {
    if c == 'S' as int then 0
    else if c == 'E' as int then 1
    else if c == 'C' as int then 2
    else if c == 'D' as int then 3
    else if c == 'R' as int then 4
    else if c == 'W' as int then 5
    else if c == 'L' as int then 6
    else if c == '|' as int then 7
    else if c == 'A' as int then 8
    else if c == 'M' as int then 9
    else -1
  }

  /** Every command letter selects its own choice, typed in either case. */
  lemma CommandLettersSelect(k: nat)
    requires k < 10
    ensures CommandChoice(ToUpper(CommandLetters[k])) == k
    ensures CommandChoice(ToUpper(ToLower(CommandLetters[k]))) == k
  {
  }

  // ---- edit_slot ----

  /** What edit_slot leaves behind: how it ended, the EEPROM image and the
      serial input. */
  datatype EditResult = EditResult(outcome: Outcome, eeprom: seq<bv8>, serial: SerialIn)

  /** The name half of edit_slot: wait for input, store up to eight bytes of
      it as the name, then clear the receive buffer. */
  function NameStep(e: seq<bv8>, memSlot: SlotIndex, s: SerialIn): (r: EditResult)
    requires |e| == EepromSize
  {
    var s1 := Await(s);
    if s1.rx == [] then EditResult(Stalled, e, s1)
    else EditResult(Returned, WithName(e, memSlot, s1.rx), ClearRx(s1))
  }

  /** edit_slot(memSlot, ...) with size the number of values it asks for:
      wait for input, parse it; a malformed item restarts the program, a line
      end keeps the identifier, a good code is written; then the name. The
      body of the source's while loop runs once, since it ends by clearing
      the receive buffer. */
  function EditSpec(e: seq<bv8>, memSlot: SlotIndex, size: nat, s: SerialIn): (r: EditResult)
    requires |e| == EepromSize
  {
    var s1 := Await(s);
    if s1.rx == [] then EditResult(Stalled, e, s1)
    else match SerialHex.ParseSpec(s1.rx, size)
      case BadForm => EditResult(Restarted, e, ClearRx(s1))
      case Cancelled => NameStep(e, memSlot, ClearRx(s1))
      case Parsed(vs, rest) => NameStep(WithContent(e, memSlot, vs), memSlot, SerialIn(rest, s1.arriving))
  }

  lemma NameStepFrame(e: seq<bv8>, memSlot: SlotIndex, s: SerialIn, a: nat)
    requires |e| == EepromSize && a < EepromSize
    ensures |NameStep(e, memSlot, s).eeprom| == EepromSize
    ensures Id(NameStep(e, memSlot, s).eeprom, memSlot) == Id(e, memSlot)
    ensures !(Base(memSlot) <= a < Base(memSlot) + RecordLen) ==> NameStep(e, memSlot, s).eeprom[a] == e[a]
  {
    var s1 := Await(s);
    if s1.rx != [] {
      NameWrite(e, memSlot, s1.rx, 0, a);
    }
  }

  /** An edit changes nothing outside the record of the slot it edits. */
  lemma EditFrame(e: seq<bv8>, memSlot: SlotIndex, size: nat, s: SerialIn, a: nat)
    requires |e| == EepromSize && a < EepromSize
    ensures |EditSpec(e, memSlot, size, s).eeprom| == EepromSize
    ensures !(Base(memSlot) <= a < Base(memSlot) + RecordLen) ==> EditSpec(e, memSlot, size, s).eeprom[a] == e[a]
  {
    var s1 := Await(s);
    if s1.rx != [] {
      var p := SerialHex.ParseSpec(s1.rx, size);
      if p.Cancelled? {
        NameStepFrame(e, memSlot, ClearRx(s1), a);
      } else if p.Parsed? {
        var e1 := WithContent(e, memSlot, p.values);
        OverwriteAt(e, Base(memSlot), ContentBytes(p.values), a);
        NameStepFrame(e1, memSlot, SerialIn(p.rest, s1.arriving), a);
      }
    }
  }

  /** The EEPROM is left alone when the edit restarts the program or no
      input comes. */
  lemma EditNoWrite(e: seq<bv8>, memSlot: SlotIndex, size: nat, s: SerialIn)
    requires |e| == EepromSize
    ensures EditSpec(e, memSlot, size, s).outcome == Restarted ==> EditSpec(e, memSlot, size, s).eeprom == e
    ensures Await(s).rx == [] ==> EditSpec(e, memSlot, size, s).outcome == Stalled && EditSpec(e, memSlot, size, s).eeprom == e
  {
  }

  /** Pressing return instead of typing a code keeps the identifier; the next
      burst becomes the name. */
  lemma EditLineEndKeepsCode(e: seq<bv8>, memSlot: SlotIndex, size: nat, c: bv8, rest: seq<bv8>, name: Burst, later: seq<Burst>)
    requires |e| == EepromSize && size > 0 && (c == 10 || c == 13)
    ensures EditSpec(e, memSlot, size, SerialIn([c] + rest, [name] + later))
      == EditResult(Returned, WithName(e, memSlot, name), SerialIn([], later))
  {
    SerialHex.LineEndCancels([c] + rest, size);
  }

  /** Show's output for a full slot followed by CR LF is parsed as the seven
      shown values, and the CR LF left over becomes the name. */
  lemma EditShownCodeSteps(e: seq<bv8>, memSlot: SlotIndex, later: seq<Burst>)
    requires |e| == EepromSize && Full(e, memSlot)
    ensures EditSpec(e, memSlot, 7, SerialIn(Display.PrintMem(e, 0, 7, memSlot) + [13, 10], later))
      == EditResult(Returned, WithName(WithContent(e, memSlot, Display.Ints(Id(e, memSlot)[..7])), memSlot, [13, 10]), SerialIn([], later))
  {
    var input := Display.PrintMem(e, 0, 7, memSlot) + [13, 10];
    Display.ShowOutputParses(e, memSlot, [13, 10]);
    assert input != [] by {
      assert |input| >= 2;
    }
  }

  /** Typing back the code that Show prints for a full slot, ended by CR LF,
      rewrites the same seven bytes with their CRC, and the CR LF left in
      the buffer is taken as the name, which is blanked. */
  lemma EditShownCodeWithLineEnd(e: seq<bv8>, memSlot: SlotIndex, later: seq<Burst>)
    requires |e| == EepromSize && Full(e, memSlot)
    ensures var r := EditSpec(e, memSlot, 7, SerialIn(Display.PrintMem(e, 0, 7, memSlot) + [13, 10], later));
      && r.outcome == Returned && |r.eeprom| == EepromSize
      && Id(r.eeprom, memSlot)[..7] == Id(e, memSlot)[..7]
      && Id(r.eeprom, memSlot)[7] == Crc8(Id(e, memSlot)[..7])
      && Name(r.eeprom, memSlot) == Zeros(8)
      && r.serial == SerialIn([], later)
  {
    var id7 := Id(e, memSlot)[..7];
    var vs := Display.Ints(id7);
    EditShownCodeSteps(e, memSlot, later);
    var e1 := WithContent(e, memSlot, vs);
    ContentArity7(e, memSlot, vs);
    BytesOfInts(id7);
    var e2 := WithName(e1, memSlot, [13, 10]);
    forall x | 0 <= x < 8
      ensures Name(e2, memSlot)[x] == 0
    {
      NameWrite(e1, memSlot, [13, 10], x, 0);
    }
    NameWrite(e1, memSlot, [13, 10], 0, 0);
    assert Name(e2, memSlot) == Zeros(8);
  }

  lemma BytesOfInts(bs: seq<bv8>)
    ensures Bytes(Display.Ints(bs)) == bs
  {
    forall i | 0 <= i < |bs|
      ensures Bytes(Display.Ints(bs))[i] == bs[i]
    {
      BytesAt(Display.Ints(bs), i);
      assert Display.Ints(bs)[i] == bs[i] as int;
      TruncateByte(bs[i]);
    }
  }

  // ---- the 'M' dialogue of function_caller ----

  /** How the 'M' dialogue ends: 'X' cancels; a hex digit selects that slot;
      any other character is refused (the buffer is cleared); "W" followed by
      "IPE" wipes every slot, a mismatch in "IPE" refuses the wipe (and
      returns from function_caller); or no input comes. */
  datatype SelectAction = Exit | Chose(slot: SlotIndex) | Refused | WipeConfirmed | WipeRefused | SelectStalled

  datatype SelectResult = SelectResult(action: SelectAction, serial: SerialIn)

  /** The confirmation key of the wipe. */
  const WipeKey: seq<bv8> := [0x49, 0x50, 0x45] // 'I', 'P', 'E'

  /** The confirmation loop from key position k on: each key byte is awaited
      and compared as received (no case folding). */
  function ConfirmSpec(s: SerialIn, k: nat): (r: SelectResult)
    requires k <= 3
    ensures r.action in {WipeConfirmed, WipeRefused, SelectStalled}
    decreases 3 - k
  {
    if k == 3 then SelectResult(WipeConfirmed, s)
    else
      var s1 := Await(s);
      if s1.rx == [] then SelectResult(SelectStalled, s1)
      else if s1.rx[0] != WipeKey[k] then SelectResult(WipeRefused, ClearRx(s1))
      else ConfirmSpec(SerialIn(s1.rx[1..], s1.arriving), k + 1)
  }

  /** The while(true) loop of case 9: 'L' lists the slots and reads again. */
  function SelectSpec(s: SerialIn): (r: SelectResult)
    decreases |s.arriving|, |s.rx|
  {
    var s1 := Await(s);
    if s1.rx == [] then SelectResult(SelectStalled, s1)
    else
      var ch := ToUpper(s1.rx[0] as int);
      var rest := SerialIn(s1.rx[1..], s1.arriving);
      if ch == 'X' as int then SelectResult(Exit, rest)
      else if ch == 'L' as int then SelectSpec(rest)
      else if ch == 'W' as int then ConfirmSpec(rest, 0)
      else if IsHexDigit(ch) then SelectResult(Chose(HexDigitValue(ch)), rest)
      else SelectResult(Refused, ClearRx(rest))
  }

  /** "WIPE" typed in one go wipes, whatever follows. */
  lemma SelectWipeTyped(rest: seq<bv8>, later: seq<Burst>)
    ensures SelectSpec(SerialIn([0x57, 0x49, 0x50, 0x45] + rest, later)) == SelectResult(WipeConfirmed, SerialIn(rest, later))
  {
    var s := SerialIn([0x57, 0x49, 0x50, 0x45] + rest, later);
    assert s.rx[1..] == [0x49, 0x50, 0x45] + rest;
    assert ([0x49, 0x50, 0x45] + rest)[1..] == [0x50, 0x45] + rest;
    assert ([0x50, 0x45] + rest)[1..] == [0x45] + rest;
    assert ([0x45] + rest)[1..] == rest;
  }

  /** A wrong byte where key byte k is expected refuses the wipe and clears
      the receive buffer; nothing else is read. */
  lemma ConfirmMismatch(c: bv8, rest: seq<bv8>, later: seq<Burst>, k: nat)
    requires k < 3 && c != WipeKey[k]
    ensures ConfirmSpec(SerialIn([c] + rest, later), k) == SelectResult(WipeRefused, SerialIn([], later))
  {
  }

  /** The wipe happens only if every key byte matched: a confirmed wipe
      implies the three awaited bytes were 'I', 'P', 'E'. */
  lemma {:induction false} ConfirmNeedsKey(s: SerialIn, k: nat)
    requires k < 3 && ConfirmSpec(s, k).action == WipeConfirmed
    ensures Await(s).rx != [] && Await(s).rx[0] == WipeKey[k]
    ensures k < 2 ==> ConfirmSpec(SerialIn(Await(s).rx[1..], Await(s).arriving), k + 1).action == WipeConfirmed
  {
  }

  /** A hex digit, in either case, selects that slot and leaves the rest of
      the buffer. */
  lemma SelectDigit(c: bv8, rest: seq<bv8>, later: seq<Burst>)
    requires IsHexDigit(ToUpper(c as int))
    ensures SelectSpec(SerialIn([c] + rest, later)) == SelectResult(Chose(HexDigitValue(ToUpper(c as int))), SerialIn(rest, later))
  {
    assert ([c] + rest)[1..] == rest;
  }

  /** 'L' only lists: the dialogue goes on with the next byte. */
  lemma SelectListContinues(c: bv8, rest: seq<bv8>, later: seq<Burst>)
    requires ToUpper(c as int) == 'L' as int
    ensures SelectSpec(SerialIn([c] + rest, later)) == SelectSpec(SerialIn(rest, later))
  {
    assert ([c] + rest)[1..] == rest;
  }

  // ---- loop(): the buttons ----

  /** One reading of the two buttons (true = pressed, the pin reads LOW). */
  datatype Buttons = Buttons(read: bool, write: bool)

  predicate BothHeld(b: Buttons)
  {
    b.read && b.write
  }

  /** What loop() does with an empty receive buffer. */
  datatype ButtonAction = Idle | ReadFob | WriteFob | ComboReleased | ClearThenRead

  /** The button branch of loop() over its readings: the first one, then one
      per round of the three-round hold. A completed hold clears the slot and,
      the read button still being held, goes on to read a fob; a release
      during the hold returns from loop() at once. */
  function ButtonStep(samples: seq<Buttons>): (a: ButtonAction)
    requires |samples| == 4
    ensures a == ClearThenRead <==> forall i :: 0 <= i < 4 ==> BothHeld(samples[i])
    ensures a == ComboReleased <==> BothHeld(samples[0]) && exists i :: 1 <= i < 4 && !BothHeld(samples[i])
    ensures a == ReadFob <==> samples[0].read && !samples[0].write
    ensures a == WriteFob <==> !samples[0].read && samples[0].write
    ensures a == Idle <==> !samples[0].read && !samples[0].write
  {
    if BothHeld(samples[0]) then
      if BothHeld(samples[1]) && BothHeld(samples[2]) && BothHeld(samples[3]) then ClearThenRead
      else ComboReleased
    else if samples[0].read then ReadFob
    else if samples[0].write then WriteFob
    else Idle
  }
}
