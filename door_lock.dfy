/**
 * The sketch's global state and its procedures. `millis()`, the card
 * reader's answers and the serial input are parameters; `digitalWrite`,
 * `delay` and the reader and serial side effects are appended to a log, and
 * the pin levels are kept in a map. Each method states both; the lemmas of
 * `Outputs` show that replaying a routine's log gives the levels it states.
 */
module DoorLock {
  import opened Uid
  import opened Clock
  import opened Outputs
  import opened SerialCommands

  /** How one pass of loop ended. */
  datatype ScanOutcome =
    | Inactive                   // systemActive is false
    | TooSoon                    // inside the debounce window
    | NoCard                     // PICC_IsNewCardPresent said no
    | ReadFailed                 // PICC_ReadCardSerial failed
    | Scanned(card: Option<nat>) // processed: the authorised card number, or None when denied

  /** What processRFIDCard does for a card recognised as `card` (None: unauthorised). */
  function ScanEvents(card: Option<nat>): seq<Event>
  {
    if card.Some? then GrantEvents() else DenyEvents()
  }

  /** Concatenation regrouped; stated once so the serial loop's proof stays small. */
  lemma ConcatAssoc<T>(a: seq<T>, b: seq<T>, c: seq<T>)
    ensures (a + b) + c == a + (b + c)
  {
  }

  /**
   * A processed scan blocks in `delay` for at least 2500 ms after
   * `lastReadTime` was set, longer than the debounce window: when loop next
   * runs, the gate compares against a read at least that long ago.
   */
  lemma ScanOutlastsDebounce(card: Option<nat>)
    ensures TotalDelay(ScanEvents(card)) >= 2500 > DebounceDelay
    ensures card.Some? ==> TotalDelay(ScanEvents(card)) == 3500
  {
    if card.Some? {
      GrantDelay();
    } else {
      DenyDelay();
    }
  }

  /**
   * The levels a processed scan leaves, read off its log: every output LOW
   * after a grant, and after a denial both LEDs and the buzzer LOW with the
   * relay untouched. Whatever the card, a door that was locked stays locked.
   */
  lemma ScanLeavesDoorLocked(levels: Levels, card: Option<nat>)
    ensures Replay(levels, ScanEvents(card) + [CardHalted]) ==
      if card.Some? then AllLow else levels[LedGreen := Low][Buzzer := Low][LedRed := Low]
    ensures Relay in levels && levels[Relay] == Low ==>
      Relay in Replay(levels, ScanEvents(card) + [CardHalted]) &&
      Replay(levels, ScanEvents(card) + [CardHalted])[Relay] == Low
  {
    ReplayThenOther(levels, ScanEvents(card), CardHalted);
    if card.Some? {
      GrantEndsLocked(levels);
      assert AllLow[Relay] == Low;
    } else {
      DenyLeavesRelay(levels);
    }
  }

  class Sketch {
    var systemActive: bool
    var lastReadTime: Word32
    /** Level last written to each output pin. */
    var pins: Levels
    /** Everything the sketch has done to the outside world, in order. */
    var trace: seq<Event>

    /** The globals as initialised before setup runs. */
    constructor ()
      ensures systemActive && lastReadTime == 0
      ensures pins == map[] && trace == []
    {
      systemActive := true;
      lastReadTime := 0;
      pins := map[];
      trace := [];
    }

    /** digitalWrite. */
    method DigitalWrite(pin: Pin, level: Level)
      modifies this`pins, this`trace
      ensures trace == old(trace) + [Write(pin, level)]
      ensures pins == old(pins)[pin := level]
    {
      pins := pins[pin := level];
      trace := trace + [Write(pin, level)];
    }

    /** An event that writes no pin: a delay, a reader call, a serial report. */
    method Record(e: Event)
      requires !e.Write?
      modifies this`trace
      ensures trace == old(trace) + [e]
    {
      trace := trace + [e];
    }

    /** beep. */
    method Beep(pin: Pin, duration: nat)
      modifies this`pins, this`trace
      ensures trace == old(trace) + BeepEvents(pin, duration)
      ensures pins == old(pins)[pin := Low]
    {
      DigitalWrite(pin, High);
      Record(Delay(duration));
      DigitalWrite(pin, Low);
      assert trace == old(trace) + ([Write(pin, High)] + [Delay(duration)] + [Write(pin, Low)]);
    }

    /** setup: reader initialisation and the output pins driven LOW. */
    method Setup()
      modifies this`pins, this`trace
      ensures trace == old(trace) + SetupEvents()
      ensures pins == AllLow
    {
      Record(ReaderInit);
      Record(Delay(ReaderSettle));
      DigitalWrite(Relay, Low);
      DigitalWrite(LedGreen, Low);
      DigitalWrite(LedRed, Low);
      DigitalWrite(Buzzer, Low);
      assert trace == old(trace) + SetupEvents();
      WrittenLowIsAllLow(pins);
    }

    /** indicateAccessGranted. */
    method IndicateAccessGranted()
      modifies this`pins, this`trace
      ensures trace == old(trace) + GrantIndicationEvents()
      ensures pins == old(pins)[LedGreen := High][LedRed := Low][Buzzer := Low]
    {
      DigitalWrite(LedGreen, High);
      DigitalWrite(LedRed, Low);
      Beep(Buzzer, BuzzerBeep);
      Record(Delay(GrantBeepGap));
      Beep(Buzzer, BuzzerBeep);
      assert trace == old(trace) + GrantIndicationEvents();
    }

    /** unlockDoor. */
    method UnlockDoor()
      modifies this`pins, this`trace
      ensures trace == old(trace) + UnlockEvents()
      ensures pins == old(pins)[Relay := High]
    {
      DigitalWrite(Relay, High);
    }

    /** lockDoor. */
    method LockDoor()
      modifies this`pins, this`trace
      ensures trace == old(trace) + LockEvents()
      ensures pins == old(pins)[Relay := Low][LedGreen := Low]
    {
      DigitalWrite(Relay, Low);
      DigitalWrite(LedGreen, Low);
      assert trace == old(trace) + LockEvents();
    }

    /** grantAccess: ends with every output LOW, the door locked. */
    method GrantAccess()
      modifies this`pins, this`trace
      ensures trace == old(trace) + GrantEvents()
      ensures pins == AllLow
    {
      IndicateAccessGranted();
      UnlockDoor();
      Record(Delay(UnlockDuration));
      LockDoor();
      assert trace == old(trace) + GrantEvents();
      WrittenLowIsAllLow(pins);
    }

    /** The three beeps of indicateAccessDenied, each followed by a pause. */
    method DenyBeeps()
      modifies this`pins, this`trace
      ensures trace == old(trace) + DenyBeepRounds(DenyBeepCount)
      ensures pins == old(pins)[Buzzer := Low]
    {
      for i := 0 to DenyBeepCount
        invariant trace == old(trace) + DenyBeepRounds(i)
        invariant pins == if i == 0 then old(pins) else old(pins)[Buzzer := Low]
      {
        ghost var before := trace;
        Beep(Buzzer, BuzzerBeep);
        Record(Delay(DenyBeepGap));
        assert trace == old(trace) + DenyBeepRounds(i + 1) by {
          assert trace == before + BeepEvents(Buzzer, BuzzerBeep) + [Delay(DenyBeepGap)];
        }
      }
    }

    /** indicateAccessDenied: the relay is never written. */
    method IndicateAccessDenied()
      modifies this`pins, this`trace
      ensures trace == old(trace) + DenyEvents()
      ensures pins == old(pins)[LedGreen := Low][Buzzer := Low][LedRed := Low]
    {
      DigitalWrite(LedRed, High);
      DigitalWrite(LedGreen, Low);
      ghost var start := trace;
      DenyBeeps();
      ghost var afterBeeps := trace;
      Record(Delay(DenyHold));
      DigitalWrite(LedRed, Low);
      assert trace == old(trace) + DenyEvents() by {
        assert trace == afterBeeps + [Delay(DenyHold)] + [Write(LedRed, Low)];
        assert start == old(trace) + [Write(LedRed, High)] + [Write(LedGreen, Low)];
      }
    }

    /** denyAccess. */
    method DenyAccess()
      modifies this`pins, this`trace
      ensures trace == old(trace) + DenyEvents()
      ensures pins == old(pins)[LedGreen := Low][Buzzer := Low][LedRed := Low]
    {
      IndicateAccessDenied();
    }

    /** processRFIDCard: grant for an authorised card, deny otherwise. */
    method ProcessRfidCard(uid: seq<byte>) returns (card: Option<nat>)
      modifies this`pins, this`trace
      ensures card == AuthorizedSlot(uid)
      ensures trace == old(trace) + ScanEvents(card)
      ensures card.Some? ==> pins == AllLow
      ensures card.None? ==> pins == old(pins)[LedGreen := Low][Buzzer := Low][LedRed := Low]
    {
      card := IsAuthorizedCard(uid);
      if card.Some? {
        GrantAccess();
      } else {
        DenyAccess();
      }
    }

    /**
     * One pass of loop. `now` is millis() at the debounce check, `readTime`
     * millis() after the card was read; `cardPresent` and `serialRead` are
     * the answers of PICC_IsNewCardPresent and PICC_ReadCardSerial, and `uid`
     * the UID read.
     */
    method Loop(now: Word32, cardPresent: bool, serialRead: bool, readTime: Word32, uid: seq<byte>)
      returns (outcome: ScanOutcome)
      modifies this`lastReadTime, this`pins, this`trace
      ensures outcome == Inactive <==> !systemActive
      ensures outcome == TooSoon <==> systemActive && !DebouncePassed(now, old(lastReadTime))
      ensures outcome == NoCard <==> systemActive && DebouncePassed(now, old(lastReadTime)) && !cardPresent
      ensures outcome == ReadFailed <==>
        systemActive && DebouncePassed(now, old(lastReadTime)) && cardPresent && !serialRead
      ensures outcome.Scanned? <==>
        systemActive && DebouncePassed(now, old(lastReadTime)) && cardPresent && serialRead
      ensures outcome.Scanned? ==>
        outcome.card == AuthorizedSlot(uid) && lastReadTime == readTime &&
        trace == old(trace) + ScanEvents(outcome.card) + [CardHalted] &&
        pins == if outcome.card.Some? then AllLow else old(pins)[LedGreen := Low][Buzzer := Low][LedRed := Low]
      ensures !outcome.Scanned? ==>
        lastReadTime == old(lastReadTime) && trace == old(trace) && pins == old(pins)
      ensures Relay in old(pins) && old(pins)[Relay] == Low ==> Relay in pins && pins[Relay] == Low
    {
      if !systemActive {
        return Inactive;
      }
      if Elapsed(now, lastReadTime) < DebounceDelay {
        return TooSoon;
      }
      if !cardPresent {
        return NoCard;
      }
      if !serialRead {
        return ReadFailed;
      }
      lastReadTime := readTime;
      var card := ProcessRfidCard(uid);
      Record(CardHalted);
      return Scanned(card);
    }

    /** The body of serialEvent for one trimmed line: STATUS, RESET, HELP, or nothing. */
    method Dispatch(command: Command)
      modifies this`pins, this`trace
      ensures trace == old(trace) + CommandEvents(command)
      ensures pins == if command == Reset then AllLow else old(pins)
    {
      if command == Status {
        Record(StatusShown);
      } else if command == Reset {
        Setup();
      } else if command == Help {
        Record(HelpShown);
      } else {
        assert trace + [] == trace;
      }
    }

    /**
     * serialEvent: every line available is read, trimmed and dispatched;
     * only RESET changes the pins, and nothing changes lastReadTime or
     * systemActive.
     */
    method SerialEvent(input: string)
      modifies this`pins, this`trace
      ensures trace == old(trace) + Responses(Commands(Lines(input)))
      ensures pins == if Reset in Commands(Lines(input)) then AllLow else old(pins)
    {
      var rest := input;
      ghost var handled: seq<Command> := [];
      while rest != []
        invariant Commands(Lines(input)) == handled + Commands(Lines(rest))
        invariant trace == old(trace) + Responses(handled)
        invariant pins == if Reset in handled then AllLow else old(pins)
        decreases |rest|
      {
        var (line, remaining) := ReadLine(rest);
        var command := Parse(line);
        Dispatch(command);
        assert Commands(Lines(input)) == (handled + [command]) + Commands(Lines(remaining)) by {
          CommandsOfBuffer(rest);
          ConcatAssoc(handled, [command], Commands(Lines(remaining)));
        }
        assert trace == old(trace) + Responses(handled + [command]) by {
          ResponsesSnoc(handled, command);
          ConcatAssoc(old(trace), Responses(handled), CommandEvents(command));
        }
        assert Reset in handled + [command] <==> Reset in handled || command == Reset;
        handled := handled + [command];
        rest := remaining;
      }
      assert Commands(Lines(input)) == handled by {
        assert handled + [] == handled;
      }
    }
  }
}
