# iButton cloner sketch: a verified model

This project models the Arduino sketch `src/main.cpp` of an iButton (Dallas
1-Wire) cloner in Dafny. The sketch keeps up to sixteen 8-byte iButton
identifiers in EEPROM slots, each with an 8-byte name. It reads the
identifier of a fob into the active slot and writes a stored identifier onto
an RW1990 fob. It is driven from a serial console (single-letter commands
and a `0xHH, 0xHH, …` editor) or from two push buttons and four slot-selector
switches.

The model has two layers:

- **Pure specifications**, as modules of functions and lemmas:
  - `Hex`: digit and two-digit conversion.
  - `SerialHex`: the `0xHH` parser's grammar.
  - `Crc`: the Dallas/Maxim CRC-8 that the OneWire library computes.
  - `SlotStore`: the EEPROM images each writing routine leaves.
  - `Bus`: the 1-Wire activity as a trace of library calls and `writeByte` time slots.
  - `Display`: the bytes `print_mem`, `print_mem_name` and the dump print.
  - `Session`: the serial dialogues and button arbitration.
  - `Sketch`: one function per routine over a `State` value.
- **The imperative sketch.** `Firmware.Cloner` is a class. Its fields are the
  sketch's globals: `activeMemSlot`, `advancedMode`, `serial_choice`,
  `read_pressed` and `write_pressed`. It also holds the EEPROM and `code[]` as
  arrays, the serial receive buffer, and the 1-Wire trace. Each method is
  proved to leave exactly the state that the matching `Sketch` or `SlotStore`
  function describes. The properties are proved as lemmas about those
  functions.

Which routine takes which form:

- **`Cloner` methods, with the sketch's loops:**
  - `update_slot`, `set_active_mem_slot`, `slot_is_full`;
  - `write_content_to_mem_slot`, `edit_slot` and its name loop;
  - the clear and the wipe;
  - `read_iButton`, `write_iButton`, `writeByte`, `detect_iButton`, the `|` wait;
  - the 'M' dialogue;
  - `serial_parser`, `function_caller` and `loop()`;
  - `wait_for_serial_input`, and `bad_form()` with its restart.
- **A method of module `SerialHex`:** `serial_parse_hex`, the method
  `SerialHex.ParseHex`. It reads the buffer contents passed to it rather than
  a field.
- **Pure functions:**
  - `hex_digit_val_dec` and `hexstr_to_int` (`Hex`), which have no loops;
  - `print_mem` and `print_mem_name` (`Display`), whose printing loops
    become recursive functions that build the printed bytes;
  - one line of `dump_all_mem_slots_to_serial` (`Display.DumpLine`);
  - `clear_serial`'s draining loop, which is the assignment `rx := []`.

EEPROM layout: slot `s` is based at `s << 5`. Identifier bytes are at offsets
0–7 and name bytes at offsets 8–15. The EEPROM is 1024 bytes (ATmega328P).

Inputs the sketch reads from hardware or libraries are parameters:

- the four selector readings (`selector`, least significant first);
- the button readings of one `loop()` pass (`samples`);
- the outcome of `ibutton.search` (`found`);
- the number of failed searches in the `|` wait (`misses`).

Serial input is the receive buffer (`rx`) plus a list of bursts that arrive
one per wait on an empty buffer inside a dialogue. Bytes that reach the
serial line while `loop()` runs enter through `Cloner.Receive`, which stands
for the UART appending them to the buffer. The next pass of `loop()` then
takes them as a command. A wait with no burst left is the `Stalled`
outcome, because the sketch would wait for ever. `bad_form()`'s `resetFunc()`
is the `Restarted` outcome. It re-initialises the globals and empties the
receive buffer, and it keeps the EEPROM.

## Model

| member | source | states |
|---|---|---|
| Hex.HexDigitValue | src/main.cpp:224-281 | hex_digit_val_dec yields 0–15 exactly for '0'–'9' and upper-case 'A'–'F' (lower case rejected) and -1 for every other character |
| Hex.HexStrToIntSpec | src/main.cpp:283-303 | hexstr_to_int is 16*hi+lo in 0..255 iff the string has length 2 and both characters are hex digits after toupper; otherwise -1 |
| Hex.HexStrToIntOfHexChars | src/main.cpp:283-303 | the two upper-case digits of any byte convert back to that byte |
| Hex.HexStrToIntLowerCase | src/main.cpp:283-303 | lower-case digits are accepted through toupper and give the same byte |
| SerialHex.ParseHex | src/main.cpp:338-395 | serial_parse_hex's two passes (framing, then digit conversion) produce exactly the outcome ParseSpec gives: values and rest of buffer, cancelled by CR/LF, or bad_form |
| SerialHex.ParseSpecWellFormed | src/main.cpp:338-395 | when every item is framed "0x", two characters and ", " between items and all digits are valid, the parse succeeds with those values and consumes 6n-2 bytes |
| SerialHex.ParsedValuesAreBytes | src/main.cpp:386-393 | a successful parse returns exactly n values, each in 0..255 |
| SerialHex.CancelledIff | src/main.cpp:355-363 | the parse is cancelled iff the first unframed item starts with LF (10) or CR (13) |
| SerialHex.LineEndCancels | src/main.cpp:355-360 | input starting with CR or LF cancels the edit |
| SerialHex.EmptyInputIsBadForm | src/main.cpp:355-363 | reading an empty buffer (-1) is neither '0' nor a line end: bad_form |
| Crc.Crc8Residue | src/main.cpp:420-438 | appending the CRC of a 7-byte payload makes the CRC of all 8 bytes 0, the check a reader applies |
| Crc.Crc8AppNoteExample | src/main.cpp:438 | the CRC agrees with the worked example of Maxim Application Note 27 (02 1C B8 01 00 00 00 gives A2) |
| SlotStore.ContentArity7 | src/main.cpp:420-438 | arity 7 stores the payload in identifier bytes 0–6 (the 7th value is kept) and crc8 of them in byte 7 |
| SlotStore.ContentArity8 | src/main.cpp:440-446 | arity 8 stores all eight values verbatim, each truncated to a byte |
| SlotStore.ContentOtherArity | src/main.cpp:400-419 | every other arity, 6 included (its branch is disabled by `&& false`), writes nothing |
| SlotStore.ContentFrame | src/main.cpp:397-448 | writing content changes no byte outside the slot's identifier; the name is kept |
| SlotStore.ContentOtherSlots | src/main.cpp:397-448 | the identifiers and names of other slots are unchanged |
| SlotStore.ContentMakesFull | src/main.cpp:325-336 | a 7- or 8-value write with a non-zero byte leaves the slot full |
| SlotStore.ContentZeroPayloadStaysEmpty | src/main.cpp:420-438 | a zero 7-byte payload gets CRC 0, so the slot stays empty |
| SlotStore.NameWrite | src/main.cpp:514-522 | name byte x is input byte x with CR and LF stored as 0, and 0 beyond the input; later bytes after a CR/LF are still stored; only addresses base+8..base+15 change |
| SlotStore.ClearEffect | src/main.cpp:704-706 | clear zeroes exactly the 16 bytes at the slot base and no other byte; the slot reads empty |
| SlotStore.WipeEffect | src/main.cpp:858-862 | the wipe zeroes the 16 record bytes of every slot and keeps the other EEPROM bytes |
| SlotStore.IdWrite | src/main.cpp:615-618 | storing a found identifier sets the slot's eight identifier bytes and nothing else |
| Bus.ProgramSequenceLayout | src/main.cpp:636-651 | the exact call order: skip, reset, write 0x33, skip, reset, write 0xD5, then bit i of code[x] in slot 6+8x+i, then reset |
| Bus.ProgramSequenceDelivers | src/main.cpp:636-651 | a fob that assembles the time slots LSB first receives exactly code[0..7] |
| Bus.WriteTraceDelivers | src/main.cpp:625-662 | the search and reset_search around the sequence carry no bits: the fob receives exactly code |
| Bus.WriteTrace | src/main.cpp:625-662 | an empty slot gives no bus activity; a failed search gives search and reset_search; a success gives search, the sequence and reset_search |
| Bus.Polls | src/main.cpp:771-779 | the '&#124;' wait is search and reset_search repeated for each failed poll |
| Bits.ByteBitsValue | src/main.cpp:168-184 | the eight bits writeByte emits, LSB first, have the byte's value |
| Display.HexFieldShape | src/main.cpp:531-535 | each print_mem field is "0x" and exactly two upper-case digits (leading zero below 0x10) |
| Display.HexListAt | src/main.cpp:530-537 | field k occupies bytes 6k..6k+3, followed by ", " unless it is the last |
| Display.HexListParses | src/main.cpp:528-541 | what print_mem prints for a full slot parses back, through serial_parse_hex, to the same bytes |
| Display.ShowOutputParses | src/main.cpp:666-686 | the seven bytes Show prints in normal mode, typed back to Edit, parse as the slot's identifier bytes 0–6 |
| Display.ShowOutputParsesAdvanced | src/main.cpp:666-686 | the same for the eight bytes shown in advanced mode |
| Display.PrintMemNameShape | src/main.cpp:543-556 | the name column is eight characters: `<NONAME>` when the first name byte is 0, else the name with each 0 shown as a space |
| Display.WipedDumpLine | src/main.cpp:558-573 | after a wipe every dump line reads `<NONAME> : <EMPTY SLOT>` |
| Session.Await | src/main.cpp:205-212 | a wait returns at once with bytes buffered, otherwise takes the next burst; it stalls when nothing arrives |
| Session.CommandChoice | src/main.cpp:117-166 | serial_parser's switch: choice k only for its command letter, -1 for every other byte |
| Session.CommandLettersSelect | src/main.cpp:117-166 | each command letter selects its choice in upper and lower case |
| Session.NameStepFrame | src/main.cpp:511-524 | the name step changes only the slot's record and never its identifier |
| Session.EditFrame | src/main.cpp:463-526 | the edit dialogue changes no byte outside the edited slot's 16 record bytes |
| Session.EditNoWrite | src/main.cpp:485-526 | a bad_form restart leaves the EEPROM unchanged; with no input the edit stalls without writing |
| Session.EditLineEndKeepsCode | src/main.cpp:488-524 | a bare CR/LF keeps the code and stores the next burst as the name |
| Session.EditShownCodeWithLineEnd | src/main.cpp:463-526 | re-entering the shown code keeps bytes 0–6, recomputes the CRC in byte 7 and, the CR LF being the name input, zeroes the name |
| Session.SelectWipeTyped | src/main.cpp:835-862 | "WIPE" typed in the 'M' dialogue confirms the wipe |
| Session.ConfirmMismatch | src/main.cpp:845-855 | a byte that differs from the key at its position refuses the wipe and clears the buffer |
| Session.ConfirmNeedsKey | src/main.cpp:841-856 | a confirmed wipe received 'I', 'P', 'E' in order, compared as received |
| Session.SelectDigit | src/main.cpp:869-873 | a hex digit (either case) selects that slot |
| Session.SelectListContinues | src/main.cpp:828-833 | 'L' lists and keeps the dialogue going |
| Session.ButtonStep | src/main.cpp:924-949 | the button arbitration: both held for four readings clears then reads; a release aborts; read alone reads; write alone writes; neither idles |
| Sketch.Rebooted | src/main.cpp:214-222 | resetFunc re-initialises the globals (slot 0, normal mode, choice -1, code zero), empties the buffer and keeps the EEPROM |
| Sketch.RebootedIsPowerOn | src/main.cpp:214-222 | a restart is the power-on state over the same EEPROM, keeping only the bus trace and the input still to come |
| Sketch.Arrived | src/main.cpp:915 | bytes arriving while loop() runs are appended to the receive buffer, and nothing else changes |
| Sketch.IdleInputRunsCommand | src/main.cpp:915-918 | bytes arriving while loop() idles are taken by the next pass: the first selects the command, which runs at once |
| Sketch.FirstRelease | src/main.cpp:929-936 | the round in which the two-button hold was first released |
| Sketch.ReselectedEffect | src/main.cpp:305-315 | update_slot changes nothing in advanced mode; otherwise the slot is the selector value (0..15) and code[] its identifier |
| Sketch.ReadStepEffect | src/main.cpp:604-623 | a failed search leaves the EEPROM and returns false; a success stores the found identifier in the slot and code[], keeping the name and other bytes |
| Sketch.WriteEmptySlotNoBus | src/main.cpp:625-662 | an empty slot returns false with no bus event, not even a search |
| Sketch.WriteStepProgramsSlot | src/main.cpp:625-651 | in normal mode write_iButton programs the fob with the selected slot's identifier |
| Sketch.WriteStepAdvancedUsesCode | src/main.cpp:305-306 | in advanced mode code[] is not reloaded, so write_iButton programs what code[] held |
| Sketch.ClearCommandEffect | src/main.cpp:697-711 | 'C' zeroes exactly the selected slot's 16 bytes and resets the choice |
| Sketch.WipeCommandEffect | src/main.cpp:835-862 | a confirmed wipe empties every slot; a refused one writes nothing and keeps serial_choice at 9 |
| Sketch.RefusedWipeSwallowsNextByte | src/main.cpp:854 | with serial_choice left at 9 the next byte is no command: it is taken and 'M' runs again |
| Sketch.SerialHasPriority | src/main.cpp:914-921 | with serial input waiting the buttons are not read, and read_pressed keeps its value |
| Sketch.CallerKeepsButtons | src/main.cpp:664-891 | function_caller never changes read_pressed or write_pressed unless it restarts |
| Sketch.UnknownByteChangesNothing | src/main.cpp:155-162 | a byte that is no command letter only leaves the buffer |
| Sketch.ButtonClear | src/main.cpp:928-945 | a four-reading hold clears the previously active slot and then reads a fob; a release in any round writes nothing |
| Sketch.ButtonClearNoFob | src/main.cpp:928-945 | after the button clear with no fob the slot is empty and the bus saw one search |
| Sketch.ToggleAdvancedEffect | src/main.cpp:788-809 | 'A' flips advanced mode; leaving it reselects from the switches |
| Sketch.EditCommandFrame | src/main.cpp:688-695 | 'E' changes no byte outside the previously active slot's record |
| Sketch.EditBadFormRestarts | src/main.cpp:214-222 | a malformed code restarts the program with the EEPROM unchanged |
| Firmware.Cloner.constructor | src/main.cpp:88-93 | the state is PowerOn of the stored EEPROM: slot 0, normal mode, choice -1, code zero, buttons released, nothing received or sent |
| Firmware.Cloner.Receive | src/main.cpp:915 | bytes arriving on the serial line: the state becomes Arrived of the old state |
| Firmware.Cloner.Restart | src/main.cpp:214-222 | bad_form: the state becomes Rebooted of the state before |
| Firmware.Cloner.AwaitInput | src/main.cpp:205-212 | the wait takes the buffer to Await of it |
| Firmware.Cloner.SlotIsFull | src/main.cpp:325-336 | the OR-accumulator loop returns true iff an identifier byte is non-zero |
| Firmware.Cloner.UpdateSlot | src/main.cpp:305-315 | the bit loop and the reload of code[] give Reselected of the old state |
| Firmware.Cloner.LoadCode | src/main.cpp:312-314 | code[] becomes the active slot's identifier |
| Firmware.Cloner.SetActiveMemSlot | src/main.cpp:317-323 | the slot changes exactly for a hex digit, to its value, and the result says whether it did |
| Firmware.Cloner.WriteContentToMemSlot | src/main.cpp:397-448 | the EEPROM becomes WithContent of the old image |
| Firmware.Cloner.WriteName | src/main.cpp:514-522 | the EEPROM becomes WithName of the old image and the buffer loses the bytes read |
| Firmware.Cloner.ClearSlot | src/main.cpp:704-706 | the EEPROM becomes Cleared of the old image |
| Firmware.Cloner.WipeAllSlots | src/main.cpp:858-862 | the EEPROM becomes Wiped of the old image |
| Firmware.Cloner.EditInput | src/main.cpp:485-526 | the code-and-name loop gives EditSpec's outcome, EEPROM and serial input |
| Firmware.Cloner.EditSlot | src/main.cpp:463-526 | edit_slot gives EditSlotStep of the old state |
| Firmware.Cloner.WriteByte | src/main.cpp:168-184 | the loop appends the eight time slots of the byte, LSB first |
| Firmware.Cloner.StoreId | src/main.cpp:615-618 | the slot's identifier and code[] become the found identifier |
| Firmware.Cloner.ReadIButton | src/main.cpp:604-623 | read_iButton gives ReadStep of the old state |
| Firmware.Cloner.SendCode | src/main.cpp:643-649 | the eight writeByte calls append the slots of code[0..7] |
| Firmware.Cloner.ProgramFob | src/main.cpp:627-651 | the search and programming sequence append WriteTrace for a full slot |
| Firmware.Cloner.WriteIButton | src/main.cpp:625-662 | write_iButton gives WriteStep of the old state |
| Firmware.Cloner.DetectIButton | src/main.cpp:577-602 | the 'L' search reports success and appends search and reset_search |
| Firmware.Cloner.WaitForIButton | src/main.cpp:771-779 | the '&#124;' loop appends the polls |
| Firmware.Cloner.ConfirmWipe | src/main.cpp:841-856 | the key loop gives ConfirmSpec's action and serial input |
| Firmware.Cloner.WipeDialogue | src/main.cpp:835-862 | the wipe happens exactly when the confirmation succeeds |
| Firmware.Cloner.MemorySelect | src/main.cpp:823-885 | the 'M' loop gives SelectSpec's action; the slot changes only on a digit and the EEPROM only on a confirmed wipe |
| Firmware.Cloner.MemoryCommand | src/main.cpp:811-885 | the advanced-mode 'M' command gives SelectStep of the old state |
| Firmware.Cloner.SerialParser | src/main.cpp:117-166 | one byte is taken; the choice is set from it only when it was -1 |
| Firmware.Cloner.FunctionCaller | src/main.cpp:664-891 | function_caller gives CallerStep of the old state, including the skipped reset after a refused wipe |
| Firmware.Cloner.HoldBoth | src/main.cpp:928-936 | the three-round hold succeeds iff both buttons stay pressed; otherwise the flags hold the releasing reading |
| Firmware.Cloner.PollButtons | src/main.cpp:922-952 | the button branch gives ButtonsStep of the old state |
| Firmware.Cloner.Loop | src/main.cpp:914-954 | one pass of loop() gives LoopStep of the old state |

## Left out

- Serial text output is not modelled: `printMenu`, the `S.print` messages and debug prints. The exceptions are `print_mem`, `print_mem_name` and the dump lines, which `Display` renders as bytes.
- LEDs (`blinkPin`), `delay` and `delayMicroseconds` are not modelled. `writeByte` keeps only the order of its bits and, per slot, whether the line is held low for 60 µs.
- A 1 bit in `writeByte` is the long 60 µs low pulse, as the code does. Descriptions of the 1-Wire write slot give a 0 bit the long pulse; the model follows the code and does not claim RW1990 timing.
- The OneWire library (`search`, `reset_search`, `skip`, `reset`, `write`, `crc8`) is not part of this model. Each call is one trace event, and the result of `search` is an input. `crc8` is defined as the CRC-8 of Maxim Application Note 27, which the library implements.
- The `addr` buffer is left out. The identifier found is the `found` input.
- The busy waits on buttons after a read or write (`while(!digitalRead…)`) are left out. The `|` command's search loop is modelled as `misses` failed polls and then a success.
- `setup()` (pin modes, serial start) is left out, as are the electrical meaning of `digitalRead` and the pull-ups. The selector and button readings are boolean inputs. Slot switch 0 and the write button share pin 9 in the source; the model treats them as independent inputs.
- `resetFunc()` (a jump to address 0) is the `Restarted` outcome, not a process restart. The buffer is emptied as `clear_serial` does, and the globals take their initial values.
- A wait for serial input that never ends is the `Stalled` outcome. Input timing is abstracted:
  - bytes arriving during a dialogue come as bursts, one per wait;
  - bytes arriving between passes of `loop()` come through `Cloner.Receive`;
  - the `delay` calls before reads are left out.
- `loop()` calling `printMenu` when the buffer is empty is not modelled, because it only prints.
- Sketch.WriteStepProgramsSlot: states the programmed bytes only in normal mode, because in advanced mode `code[]` holds whatever it held before (Sketch.WriteStepAdvancedUsesCode states that case).
