# RFID door lock — a verified model of the access-control sketch

The repository's Arduino sketch (`src/arduino_code/rfid_door_lock.cpp`)
controls a solenoid door lock via a relay. It watches an MFRC522 card reader and
compares each scanned card UID with three authorised 4-byte UIDs. For an
authorised card it beeps twice with the green LED on, opens the relay for
three seconds and locks again. For any other card it lights the red LED and
beeps three times. Before reading a card, `loop` checks that at least one
second has passed since the last processed read. It compares the current
`millis()` with the time of that read using unsigned 32-bit subtraction.
Because the grant and deny sequences themselves block in `delay` for 3500 ms
and 2500 ms after that time is taken, the gate has always opened by the
next pass of `loop` (`DoorLock.ScanOutlastsDebounce`). A serial command
interface accepts `STATUS`, `RESET` (which re-runs `setup`) and `HELP`.

The model is organised as follows.

- `uid.dfy` (module `Uid`) covers card identification:
  - `compareUID` is a method with the sketch's early-exit byte loop.
  - `isAuthorizedCard` appears twice. `IsAuthorizedAsWritten` is the check as
    the sketch writes it, with the size taken from the scanned card.
    `IsAuthorizedCard` and its specification `AuthorizedSlot` are the
    corrected check that the rest of the model uses (see Findings).
- `clock.dfy` (module `Clock`) covers unsigned 32-bit elapsed time and the
  debounce gate.
- `outputs.dfy` (module `Outputs`) covers the output pins and their logical
  levels. The sketch's effects are kept as a log of events: pin writes,
  delays, and opaque reader and serial events. The log of each actuator
  routine is a specification function, with lemmas that replay the log over
  the pin levels (`Replay`) and count beeps.
- `serial.dfy` (module `SerialCommands`) covers the serial input:
  `readStringUntil('\n')`, `String::trim` and the command dispatch.
- `door_lock.dfy` (module `DoorLock`) holds the class `Sketch`.
  - Its fields are the sketch's globals `systemActive` and `lastReadTime`,
    the map of pin levels `pins`, and the log `trace`.
  - Its methods are `setup`, `loop`, `processRFIDCard`, the grant and deny
    routines, `beep` and `serialEvent`.
  - Each method states its new log as the old log followed by the routine's
    specification log. It states its new pin levels as explicit map updates.
    The lemmas in `Outputs` and `SerialCommands` prove that the two agree.

`millis()`, the answers of `PICC_IsNewCardPresent` and `PICC_ReadCardSerial`,
the UID read, and the characters available on the serial port are
parameters.

## Model

| member | source | states |
|---|---|---|
| Uid.CompareUid | src/arduino_code/rfid_door_lock.cpp:204-211 | returns true exactly when the first `size` bytes of the two arrays agree, and true for `size == 0`; it needs both arrays to hold `size` bytes |
| Uid.CompareFromMeaning | src/arduino_code/rfid_door_lock.cpp:205-210 | the unbounded byte loop (size taken from the scanned UID) yields "same" iff every byte up to the scanned size matches and fits in the other array; it reads past the other array iff all its bytes match and the scanned UID is longer |
| Uid.CompareFromAgrees | src/arduino_code/rfid_door_lock.cpp:204-211 | when the scanned UID is no longer than the authorised array, the unbounded byte loop says "same" exactly when compareUID over the scanned size would return true |
| Uid.CheckFromShortUid | src/arduino_code/rfid_door_lock.cpp:184-202 | for a UID of at most 4 bytes the as-written chain of checks is defined; it rejects iff no remaining authorised UID starts with the UID; otherwise it reports the first one in order that does |
| Uid.ShortUidFirstPrefixMatch | src/arduino_code/rfid_door_lock.cpp:184-202 | isAuthorizedCard as written, on UIDs of at most 4 bytes: true iff some authorised UID's first `uid.size` bytes match; the card reported is the first such one in the order 1, 2, 3 |
| Uid.ShortUidPrefixAccepted | src/arduino_code/rfid_door_lock.cpp:186 | the as-written check takes the empty UID and the 2-byte UID 12 34 for card 1 |
| Uid.SevenByteUidReadsPastEnd | src/arduino_code/rfid_door_lock.cpp:186 | a 7-byte UID whose first four bytes are card 1's makes the as-written check read past `authorizedUID1` |
| Uid.CheckFromLongUid | src/arduino_code/rfid_door_lock.cpp:184-202 | for a UID longer than 4 bytes no remaining check recognises the card; the chain reads past an array iff the UID's first four bytes equal a remaining authorised UID |
| Uid.LongUidNeverRecognized | src/arduino_code/rfid_door_lock.cpp:184-202 | isAuthorizedCard as written never accepts a 7- or 10-byte UID; it reads past an array iff the UID's first four bytes are an authorised UID |
| Uid.SlotFrom | src/arduino_code/rfid_door_lock.cpp:184-202 | the first authorised UID from index `k` on that equals the UID, and none iff no such UID |
| Uid.AuthorizedSlot | src/arduino_code/rfid_door_lock.cpp:44-46 | the card reported is none iff the UID is not one of the three authorised UIDs; otherwise it is 1, 2 or 3, the UID equals that authorised UID, no earlier one matches, and the UID is 4 bytes long |
| Uid.IsAuthorizedCard | src/arduino_code/rfid_door_lock.cpp:184-202 | the corrected check (size guard, then compareUID against cards 1, 2, 3 in turn) reports exactly `AuthorizedSlot`: a card iff the UID is authorised |
| Uid.ShortUidRejected | src/arduino_code/rfid_door_lock.cpp:184-202 | the corrected check rejects every UID shorter than 4 bytes |
| Uid.FourByteUidsAgree | src/arduino_code/rfid_door_lock.cpp:184-202 | on 4-byte UIDs the as-written check and the corrected one give the same verdict |
| Clock.Elapsed | src/arduino_code/rfid_door_lock.cpp:120 | `millis() - lastReadTime` on unsigned longs: adding the result to `since` modulo 2^32 gives `now`; it is `now - since` without wrap-around and `2^32 - since + now` across it |
| Clock.ElapsedAcrossWrap | src/arduino_code/rfid_door_lock.cpp:120 | if `d < 2^32` milliseconds really pass, the unsigned difference is exactly `d`, also when `millis()` wraps in between |
| Clock.DebounceAcrossWrap | src/arduino_code/rfid_door_lock.cpp:120-122 | the debounce gate opens iff at least 1000 ms have really passed since the last read, whether or not the counter wrapped |
| Clock.DebounceShutRightAfterRead | src/arduino_code/rfid_door_lock.cpp:120-122 | for the 999 ms after a processed read the gate stays shut |
| Outputs.BeepEndsLow | src/arduino_code/rfid_door_lock.cpp:295-299 | beep leaves its pin LOW whatever its level before, changes no other pin, and counts as one beep when on the buzzer |
| Outputs.SetupDrivesOutputsLow | src/arduino_code/rfid_door_lock.cpp:77-90 | from any levels, setup's log leaves the relay, both LEDs and the buzzer LOW |
| Outputs.GrantIndicationLevels | src/arduino_code/rfid_door_lock.cpp:237-246 | indicateAccessGranted leaves green HIGH, red LOW and the buzzer LOW, changes nothing else, and beeps twice |
| Outputs.GrantEndsLocked | src/arduino_code/rfid_door_lock.cpp:217-258 | from any levels, grantAccess ends with relay, LEDs and buzzer all LOW, so the door is locked again |
| Outputs.GrantBeepsTwice | src/arduino_code/rfid_door_lock.cpp:237-246 | the grant path beeps exactly twice |
| Outputs.GrantHoldsDoorOpen | src/arduino_code/rfid_door_lock.cpp:217-258 | in grantAccess's log, the relay is HIGH when the 3000 ms unlock delay starts, and the next event writes it LOW |
| Outputs.DenyBeepRoundsLevels | src/arduino_code/rfid_door_lock.cpp:281-284 | after `n` rounds of the deny loop the buzzer is LOW (if `n > 0`) and no other pin changed |
| Outputs.DenyBeepRoundsBeeps | src/arduino_code/rfid_door_lock.cpp:281-284 | `n` rounds of the deny loop beep `n` times |
| Outputs.DenyBeepRoundsLeaveRelay | src/arduino_code/rfid_door_lock.cpp:281-284 | the deny loop never writes the relay |
| Outputs.DenyLeavesRelay | src/arduino_code/rfid_door_lock.cpp:275-289 | indicateAccessDenied ends with both LEDs and the buzzer LOW, and the relay and anything else as before |
| Outputs.DenyNeverWritesRelay | src/arduino_code/rfid_door_lock.cpp:264-289 | the deny path has no write to the relay pin, so the relay keeps whatever level (or absence of one) it had |
| Outputs.DenyBeepsThrice | src/arduino_code/rfid_door_lock.cpp:281-284 | the deny path beeps exactly three times |
| Outputs.BeepDelay | src/arduino_code/rfid_door_lock.cpp:295-299 | beep blocks for exactly its duration |
| Outputs.GrantDelay | src/arduino_code/rfid_door_lock.cpp:217-246 | grantAccess blocks for 2 × 200 + 100 + 3000 = 3500 ms |
| Outputs.DenyBeepRoundsDelay | src/arduino_code/rfid_door_lock.cpp:281-284 | `n` rounds of the deny loop block for `n` × (200 + 300) ms |
| Outputs.DenyDelay | src/arduino_code/rfid_door_lock.cpp:275-289 | indicateAccessDenied blocks for 3 × 500 + 1000 = 2500 ms |
| SerialCommands.TrimStartMeaning | src/arduino_code/rfid_door_lock.cpp:308 | the leading trim keeps the longest suffix that does not start with whitespace, and what it drops is all whitespace |
| SerialCommands.TrimEndMeaning | src/arduino_code/rfid_door_lock.cpp:308 | the trailing trim keeps the longest prefix that does not end with whitespace, and what it drops is all whitespace |
| SerialCommands.TrimSurrounded | src/arduino_code/rfid_door_lock.cpp:308 | trimming whitespace + word + whitespace gives the word, for any word without whitespace at its ends |
| SerialCommands.ReadLine | src/arduino_code/rfid_door_lock.cpp:307 | readStringUntil('\n') returns the characters before the first newline (none in the line) and consumes that newline, or returns the whole buffer when there is none; the buffer always shrinks |
| SerialCommands.ParseIgnoresSurroundingSpace | src/arduino_code/rfid_door_lock.cpp:307-322 | a line means the same command as its text without surrounding whitespace (for example a trailing "\r") |
| SerialCommands.CommandWordsRecognized | src/arduino_code/rfid_door_lock.cpp:310-322 | "STATUS", "RESET" and "HELP" with any surrounding whitespace are recognised as those commands |
| SerialCommands.OtherLinesIgnored | src/arduino_code/rfid_door_lock.cpp:310-322 | lines that are none of the three commands produce no effect at all |
| SerialCommands.CommandLevels | src/arduino_code/rfid_door_lock.cpp:310-322 | RESET drives every output LOW; STATUS, HELP and other lines write no pin |
| SerialCommands.OnlyResetTouchesPins | src/arduino_code/rfid_door_lock.cpp:305-324 | after a sequence of commands, every output is LOW if one was RESET, and all levels are as before otherwise |
| DoorLock.ScanLeavesDoorLocked | src/arduino_code/rfid_door_lock.cpp:138-158 | the levels after a processed scan, read off its log: all LOW after a grant; LEDs and buzzer LOW with the relay untouched after a denial; a locked door stays locked |
| DoorLock.ScanOutlastsDebounce | src/arduino_code/rfid_door_lock.cpp:120-138 | a processed scan blocks at least 2500 ms (3500 ms when granted) after `lastReadTime` is set, more than the 1000 ms debounce window |
| DoorLock.Sketch.constructor | src/arduino_code/rfid_door_lock.cpp:57-58 | the globals start with `systemActive` true and `lastReadTime` 0, with no pin written and nothing done |
| DoorLock.Sketch.DigitalWrite | src/arduino_code/rfid_door_lock.cpp:82 | digitalWrite sets the pin's level and logs the write |
| DoorLock.Sketch.Beep | src/arduino_code/rfid_door_lock.cpp:295-299 | logs HIGH, the delay and LOW on the pin, and leaves that pin LOW |
| DoorLock.Sketch.Setup | src/arduino_code/rfid_door_lock.cpp:64-107 | logs reader initialisation, the 4 ms delay and the four LOW writes in order, and leaves every output LOW |
| DoorLock.Sketch.IndicateAccessGranted | src/arduino_code/rfid_door_lock.cpp:237-246 | logs its sequence; green HIGH, red and buzzer LOW, other pins unchanged |
| DoorLock.Sketch.UnlockDoor | src/arduino_code/rfid_door_lock.cpp:248-252 | writes the relay HIGH |
| DoorLock.Sketch.LockDoor | src/arduino_code/rfid_door_lock.cpp:254-258 | writes the relay and the green LED LOW |
| DoorLock.Sketch.GrantAccess | src/arduino_code/rfid_door_lock.cpp:217-235 | logs indication, unlock, the 3000 ms hold and lock; ends with every output LOW |
| DoorLock.Sketch.DenyBeeps | src/arduino_code/rfid_door_lock.cpp:281-284 | the three-round loop logs three beep-and-pause rounds and leaves the buzzer LOW |
| DoorLock.Sketch.IndicateAccessDenied | src/arduino_code/rfid_door_lock.cpp:275-289 | logs the deny sequence; both LEDs and the buzzer end LOW, the relay and any other pin are unchanged |
| DoorLock.Sketch.DenyAccess | src/arduino_code/rfid_door_lock.cpp:264-273 | the same effect as indicateAccessDenied |
| DoorLock.Sketch.ProcessRfidCard | src/arduino_code/rfid_door_lock.cpp:148-158 | the card is `AuthorizedSlot(uid)`; grant log and all outputs LOW for an authorised card, deny log and LEDs and buzzer LOW otherwise |
| DoorLock.Sketch.Loop | src/arduino_code/rfid_door_lock.cpp:113-142 | one outcome per early return, each iff its guard; a scan is processed iff the system is active, the debounce passed, a card is present and its read succeeds; only then is `lastReadTime` set to the time read, and the grant or deny log and the halt are appended; every early return changes nothing; a locked door stays locked |
| DoorLock.Sketch.Dispatch | src/arduino_code/rfid_door_lock.cpp:310-322 | STATUS and HELP log their report, RESET runs setup (all outputs LOW), other lines do nothing |
| DoorLock.Sketch.SerialEvent | src/arduino_code/rfid_door_lock.cpp:305-324 | the loop over available lines logs the effects of the lines' commands in order; the pins end all LOW if a line was RESET and are unchanged otherwise; it never changes `lastReadTime` or `systemActive` (they are outside its frame) |

## Left out

- `src/generate_diagrams.py` is left out entirely: it only places plotting shapes at fixed coordinates and saves images.
- Serial text output is not modelled. This covers the banners, `displayCardInfo`'s hex and decimal UID printing, the "Card N Recognized" lines, `displayHelp` and the STATUS text. STATUS and HELP appear in the log only as the events `StatusShown` and `HelpShown`.
- The MFRC522 and SPI library is not part of this model. `PCD_Init` and `PICC_HaltA` are opaque log events. `PCD_DumpVersionToSerial` and `SPI.begin` are left out. `PICC_IsNewCardPresent`, `PICC_ReadCardSerial` and the UID read are inputs of `DoorLock.Sketch.Loop`.
- The UID is the first `uid.size` bytes of the reader's 10-byte buffer. The bytes beyond the size are not modelled.
- `pinMode`, `Serial.begin(9600)` and the electrical behaviour of the relay, solenoid, LEDs and buzzer are not modelled. Only the logical level last written to each pin is kept.
- Real time is not modelled. `delay(ms)` is a log event carrying its duration. `loop` reads `millis()` twice (debounce test and new `lastReadTime`), and both readings are parameters of `DoorLock.Sketch.Loop`.
- `DoorLock.Sketch.SerialEvent`: the whole content of the serial buffer is given at the start. Characters that arrive while the loop runs, and the one-second `readStringUntil` timeout, are not modelled.
- `SerialCommands.Trim`: the Arduino core's `String::trim` is not part of this model. It is modelled as removing the characters C's `isspace` accepts in the "C" locale, at both ends.
- `DoorLock.Sketch.ProcessRfidCard` and `DoorLock.Sketch.Loop` use the corrected check. UIDs of 0 to 3 bytes are therefore denied, whereas the sketch accepts any prefix of an authorised UID, the empty one included (see Findings). The MFRC522 reports only 4-, 7- and 10-byte UIDs, so the corrected check follows the card UIDs the reader can deliver.
- Calling `loop` over and over is not modelled as a run of the class. Properties across calls follow from `DoorLock.Sketch.Loop`'s contract together with `Clock.DebounceShutRightAfterRead`.
- No class invariant ties `pins` to a replay of `trace`. Each method states both, and the `Outputs` lemmas show that replaying a routine's log gives the levels its method states.
- `systemActive` is never written by the sketch. Here no method has it in its frame, so `loop`'s inactive branch is unreachable after construction.

## Findings

| source | as written | input that shows it | evidently intended | confidence | as-written member | corrected member |
|---|---|---|---|---|---|---|
| src/arduino_code/rfid_door_lock.cpp:186-196,204-211 | `compareUID(uid.uidByte, authorizedUIDk, uid.size)` loops to the scanned card's UID size (4, 7 or 10 bytes) over 4-byte arrays | a 7-byte UID whose first four bytes are 12 34 56 78 reads `authorizedUID1[4..6]`, past the end of the array (undefined behaviour) | a card is authorised exactly when its UID has the length of the authorised UIDs and equals one of them | medium, not executed | Uid.SevenByteUidReadsPastEnd | Uid.IsAuthorizedCard |
| src/arduino_code/rfid_door_lock.cpp:186,205 | the same call compares only the scanned card's `uid.size` bytes, so a UID shorter than 4 bytes is compared only on its own length | the empty UID, and the 2-byte UID 12 34, are taken for card 1 | a card is authorised only when its whole UID equals an authorised UID; shorter UIDs are rejected | low, not executed | Uid.ShortUidPrefixAccepted | Uid.IsAuthorizedCard |
