/**
 * The sketch's outputs: the logical levels written to the relay, buzzer and
 * LED pins, and the log of everything the sketch does to the outside world
 * (pin writes, delays, and opaque reader and serial events).
 */
module Outputs {

  /** The output pins: relay (pin 7), buzzer (6), green LED (5), red LED (4). */
  datatype Pin = Relay | Buzzer | LedGreen | LedRed

  datatype Level = Low | High

  datatype Event =
    | Write(pin: Pin, level: Level)  // digitalWrite
    | Delay(ms: nat)                 // delay
    | ReaderInit                     // PCD_Init on the card reader
    | CardHalted                     // PICC_HaltA on the card reader
    | StatusShown                    // the STATUS report on the serial port
    | HelpShown                      // the HELP text on the serial port

  /** The level last written to each pin; a pin never written is absent. */
  type Levels = map<Pin, Level>

  /** The levels after one event. */
  function Step(levels: Levels, e: Event): Levels
  {
    if e.Write? then levels[e.pin := e.level] else levels
  }

  /** The levels after a sequence of events, in order. */
  function Replay(levels: Levels, events: seq<Event>): Levels
    decreases |events|
  {
    if events == [] then levels
    else Step(Replay(levels, events[..|events| - 1]), events[|events| - 1])
  }

  /** Replaying two logs one after the other is replaying their concatenation. */
  lemma {:induction false} ReplayAppend(levels: Levels, a: seq<Event>, b: seq<Event>)
    ensures Replay(levels, a + b) == Replay(Replay(levels, a), b)
    decreases |b|
  {
    if b == [] {
      assert a + b == a;
    } else {
      var n := |b| - 1;
      assert (a + b)[..|a + b| - 1] == a + b[..n];
      assert (a + b)[|a + b| - 1] == b[n];
      ReplayAppend(levels, a, b[..n]);
    }
  }

  /** The log never writes `p`. */
  predicate LeavesPin(events: seq<Event>, p: Pin)
  {
    forall e :: e in events ==> !(e.Write? && e.pin == p)
  }

  /** A pin the log never writes keeps its level (or stays unwritten). */
  lemma {:induction false} ReplayLeavesPin(levels: Levels, events: seq<Event>, p: Pin)
    requires LeavesPin(events, p)
    ensures p in Replay(levels, events) <==> p in levels
    ensures p in levels ==> Replay(levels, events)[p] == levels[p]
    decreases |events|
  {
    if events != [] {
      var n := |events| - 1;
      assert forall e :: e in events[..n] ==> e in events;
      assert events[n] in events;
      ReplayLeavesPin(levels, events[..n], p);
    }
  }

  /** Appending one pin write updates that pin's level. */
  lemma ReplayThenWrite(levels: Levels, a: seq<Event>, p: Pin, level: Level)
    ensures Replay(levels, a + [Write(p, level)]) == Replay(levels, a)[p := level]
  {
    assert (a + [Write(p, level)])[..|a|] == a;
  }

  /** Appending an event that is not a pin write changes no level. */
  lemma ReplayThenOther(levels: Levels, a: seq<Event>, e: Event)
    requires !e.Write?
    ensures Replay(levels, a + [e]) == Replay(levels, a)
  {
    assert (a + [e])[..|a|] == a;
  }

  /** Milliseconds a log spends in `delay`. */
  function TotalDelay(events: seq<Event>): nat
    decreases |events|
  {
    if events == [] then 0
    else
      var last := events[|events| - 1];
      TotalDelay(events[..|events| - 1]) + (if last.Delay? then last.ms else 0)
  }

  lemma {:induction false} TotalDelayAppend(a: seq<Event>, b: seq<Event>)
    ensures TotalDelay(a + b) == TotalDelay(a) + TotalDelay(b)
    decreases |b|
  {
    if b == [] {
      assert a + b == a;
    } else {
      var n := |b| - 1;
      assert (a + b)[..|a + b| - 1] == a + b[..n];
      assert (a + b)[|a + b| - 1] == b[n];
      TotalDelayAppend(a, b[..n]);
    }
  }

  /** Number of beeps (buzzer switched HIGH) in a log. */
  function Beeps(events: seq<Event>): nat
  {
    multiset(events)[Write(Buzzer, High)]
  }

  // ---------------------------------------------------------------------------
  // Durations (milliseconds) and the actuator sequences of the sketch
  // ---------------------------------------------------------------------------

  const UnlockDuration: nat := 3000
  const BuzzerBeep: nat := 200
  const GrantBeepGap: nat := 100
  const DenyBeepGap: nat := 300
  const DenyHold: nat := 1000
  const ReaderSettle: nat := 4
  const DenyBeepCount: nat := 3

  /** beep: the pin HIGH for `duration`, then LOW. */
  function BeepEvents(pin: Pin, duration: nat): seq<Event>
  {
    [Write(pin, High)] + [Delay(duration)] + [Write(pin, Low)]
  }

  /** setup: reader initialisation, then relay, both LEDs and the buzzer driven LOW. */
  function SetupEvents(): seq<Event>
  {
    [ReaderInit] + [Delay(ReaderSettle)]
      + [Write(Relay, Low)] + [Write(LedGreen, Low)] + [Write(LedRed, Low)] + [Write(Buzzer, Low)]
  }

  /** indicateAccessGranted: green on, red off, two beeps 100 ms apart. */
  function GrantIndicationEvents(): seq<Event>
  {
    [Write(LedGreen, High)] + [Write(LedRed, Low)]
      + BeepEvents(Buzzer, BuzzerBeep) + [Delay(GrantBeepGap)] + BeepEvents(Buzzer, BuzzerBeep)
  }

  /** unlockDoor. */
  function UnlockEvents(): seq<Event>
  {
    [Write(Relay, High)]
  }

  /** lockDoor: relay and green LED off. */
  function LockEvents(): seq<Event>
  {
    [Write(Relay, Low)] + [Write(LedGreen, Low)]
  }

  /** grantAccess: indication, unlock, hold for the unlock duration, lock. */
  function GrantEvents(): seq<Event>
  {
    GrantIndicationEvents() + UnlockEvents() + [Delay(UnlockDuration)] + LockEvents()
  }

  /** The first `n` rounds of the beep loop of indicateAccessDenied. */
  function DenyBeepRounds(n: nat): seq<Event>
  {
    if n == 0 then [] else DenyBeepRounds(n - 1) + BeepEvents(Buzzer, BuzzerBeep) + [Delay(DenyBeepGap)]
  }

  /** indicateAccessDenied (all of denyAccess): red on, green off, three beeps, red off. */
  function DenyEvents(): seq<Event>
  {
    [Write(LedRed, High)] + [Write(LedGreen, Low)]
      + DenyBeepRounds(DenyBeepCount) + [Delay(DenyHold)] + [Write(LedRed, Low)]
  }

  // ---------------------------------------------------------------------------
  // What the sequences do to the pins
  // ---------------------------------------------------------------------------

  /** Every output pin LOW. */
  const AllLow: Levels := map[Relay := Low, Buzzer := Low, LedGreen := Low, LedRed := Low]

  /** Levels that hold LOW for each of the four pins are exactly AllLow. */
  lemma WrittenLowIsAllLow(levels: Levels)
    requires Relay in levels && levels[Relay] == Low
    requires Buzzer in levels && levels[Buzzer] == Low
    requires LedGreen in levels && levels[LedGreen] == Low
    requires LedRed in levels && levels[LedRed] == Low
    ensures levels == AllLow
  {
    forall p: Pin ensures p in levels && p in AllLow && levels[p] == AllLow[p] {
      match p
      case Relay => assert AllLow[Relay] == Low;
      case Buzzer => assert AllLow[Buzzer] == Low;
      case LedGreen => assert AllLow[LedGreen] == Low;
      case LedRed => assert AllLow[LedRed] == Low;
    }
    assert levels.Keys == AllLow.Keys;
  }

  /** A beep leaves its pin LOW, whatever its level before, and touches no other pin. */
  lemma BeepEndsLow(levels: Levels, pin: Pin, duration: nat)
    ensures Replay(levels, BeepEvents(pin, duration)) == levels[pin := Low]
    ensures Beeps(BeepEvents(pin, duration)) == if pin == Buzzer then 1 else 0
  {
    ReplayThenWrite(levels, [Write(pin, High)] + [Delay(duration)], pin, Low);
    ReplayThenOther(levels, [Write(pin, High)], Delay(duration));
    ReplayThenWrite(levels, [], pin, High);
  }

  /** setup drives the relay, both LEDs and the buzzer LOW and changes nothing else. */
  lemma SetupDrivesOutputsLow(levels: Levels)
    ensures Replay(levels, SetupEvents()) == AllLow
  {
    var a := [ReaderInit] + [Delay(ReaderSettle)];
    ReplayThenWrite(levels, a + [Write(Relay, Low)] + [Write(LedGreen, Low)] + [Write(LedRed, Low)], Buzzer, Low);
    ReplayThenWrite(levels, a + [Write(Relay, Low)] + [Write(LedGreen, Low)], LedRed, Low);
    ReplayThenWrite(levels, a + [Write(Relay, Low)], LedGreen, Low);
    ReplayThenWrite(levels, a, Relay, Low);
    ReplayThenOther(levels, [ReaderInit], Delay(ReaderSettle));
    ReplayThenOther(levels, [], ReaderInit);
    WrittenLowIsAllLow(levels[Relay := Low][LedGreen := Low][LedRed := Low][Buzzer := Low]);
  }

  /** indicateAccessGranted leaves the green LED on, the red LED off and the buzzer off. */
  lemma GrantIndicationLevels(levels: Levels)
    ensures Replay(levels, GrantIndicationEvents()) == levels[LedGreen := High][LedRed := Low][Buzzer := Low]
    ensures Beeps(GrantIndicationEvents()) == 2
    ensures !(Relay in levels) ==> Relay !in Replay(levels, GrantIndicationEvents())
  {
    var a := [Write(LedGreen, High)] + [Write(LedRed, Low)];
    var beep := BeepEvents(Buzzer, BuzzerBeep);
    ReplayAppend(levels, a + beep + [Delay(GrantBeepGap)], beep);
    ReplayThenOther(levels, a + beep, Delay(GrantBeepGap));
    ReplayAppend(levels, a, beep);
    ReplayThenWrite(levels, [Write(LedGreen, High)], LedRed, Low);
    ReplayThenWrite(levels, [], LedGreen, High);
    var mid := levels[LedGreen := High][LedRed := Low];
    BeepEndsLow(mid, Buzzer, BuzzerBeep);
    BeepEndsLow(mid[Buzzer := Low], Buzzer, BuzzerBeep);
  }

  /**
   * grantAccess: whatever the levels before, it ends with the relay, both
   * LEDs and the buzzer LOW (the door is locked again) and changes nothing else.
   */
  lemma GrantEndsLocked(levels: Levels)
    ensures Replay(levels, GrantEvents()) == AllLow
  {
    var ind := GrantIndicationEvents();
    GrantIndicationLevels(levels);
    ReplayThenWrite(levels, ind + UnlockEvents() + [Delay(UnlockDuration)] + [Write(Relay, Low)], LedGreen, Low);
    ReplayThenWrite(levels, ind + UnlockEvents() + [Delay(UnlockDuration)], Relay, Low);
    ReplayThenOther(levels, ind + UnlockEvents(), Delay(UnlockDuration));
    ReplayThenWrite(levels, ind, Relay, High);
    assert GrantEvents() == ind + UnlockEvents() + [Delay(UnlockDuration)] + [Write(Relay, Low)] + [Write(LedGreen, Low)];
    WrittenLowIsAllLow(levels[LedGreen := High][LedRed := Low][Buzzer := Low][Relay := High][Relay := Low][LedGreen := Low]);
  }

  /** grantAccess beeps twice. */
  lemma GrantBeepsTwice()
    ensures Beeps(GrantEvents()) == 2
  {
    GrantIndicationLevels(map[]);
  }

  /**
   * grantAccess switches the relay HIGH and keeps it HIGH through the unlock
   * delay, then switches it LOW.
   */
  lemma GrantHoldsDoorOpen(levels: Levels)
    ensures var k := |GrantIndicationEvents()| + 1;
      k + 1 < |GrantEvents()| &&
      GrantEvents()[k] == Delay(UnlockDuration) &&
      Relay in Replay(levels, GrantEvents()[..k]) && Replay(levels, GrantEvents()[..k])[Relay] == High &&
      GrantEvents()[k + 1] == Write(Relay, Low)
  {
    var ind := GrantIndicationEvents();
    var k := |ind| + 1;
    assert GrantEvents()[..k] == ind + [Write(Relay, High)];
    ReplayThenWrite(levels, ind, Relay, High);
  }

  /** Each round of the deny loop beeps once, ends with the buzzer LOW, and writes no other pin. */
  lemma {:induction false} DenyBeepRoundsLevels(levels: Levels, n: nat)
    ensures Replay(levels, DenyBeepRounds(n)) == if n == 0 then levels else levels[Buzzer := Low]
  {
    if n > 0 {
      var prev := DenyBeepRounds(n - 1);
      var beep := BeepEvents(Buzzer, BuzzerBeep);
      DenyBeepRoundsLevels(levels, n - 1);
      ReplayThenOther(levels, prev + beep, Delay(DenyBeepGap));
      ReplayAppend(levels, prev, beep);
      BeepEndsLow(Replay(levels, prev), Buzzer, BuzzerBeep);
    }
  }

  /** The deny loop beeps once per round. */
  lemma {:induction false} DenyBeepRoundsBeeps(n: nat)
    ensures Beeps(DenyBeepRounds(n)) == n
  {
    if n > 0 {
      DenyBeepRoundsBeeps(n - 1);
      assert multiset(BeepEvents(Buzzer, BuzzerBeep) + [Delay(DenyBeepGap)])[Write(Buzzer, High)] == 1;
    }
  }

  /** The deny loop never writes the relay. */
  lemma {:induction false} DenyBeepRoundsLeaveRelay(n: nat)
    ensures LeavesPin(DenyBeepRounds(n), Relay)
  {
    if n > 0 {
      DenyBeepRoundsLeaveRelay(n - 1);
    }
  }

  /**
   * indicateAccessDenied: it never writes the relay, beeps three times and
   * ends with both LEDs and the buzzer LOW, changing nothing else.
   */
  lemma DenyLeavesRelay(levels: Levels)
    ensures Replay(levels, DenyEvents()) == levels[LedGreen := Low][Buzzer := Low][LedRed := Low]
  {
    var a := [Write(LedRed, High)] + [Write(LedGreen, Low)];
    var rounds := DenyBeepRounds(DenyBeepCount);
    ReplayThenWrite(levels, a + rounds + [Delay(DenyHold)], LedRed, Low);
    ReplayThenOther(levels, a + rounds, Delay(DenyHold));
    ReplayAppend(levels, a, rounds);
    ReplayThenWrite(levels, [Write(LedRed, High)], LedGreen, Low);
    ReplayThenWrite(levels, [], LedRed, High);
    DenyBeepRoundsLevels(levels[LedRed := High][LedGreen := Low], DenyBeepCount);
  }

  /** denyAccess never writes the relay, so the relay keeps whatever level it had. */
  lemma DenyNeverWritesRelay(levels: Levels)
    ensures LeavesPin(DenyEvents(), Relay)
    ensures Relay in Replay(levels, DenyEvents()) <==> Relay in levels
    ensures Relay in levels ==> Replay(levels, DenyEvents())[Relay] == levels[Relay]
  {
    DenyBeepRoundsLeaveRelay(DenyBeepCount);
    var rounds := DenyBeepRounds(DenyBeepCount);
    var a := [Write(LedRed, High)] + [Write(LedGreen, Low)];
    var b := [Delay(DenyHold)] + [Write(LedRed, Low)];
    assert DenyEvents() == a + rounds + b;
    forall e | e in DenyEvents() ensures !(e.Write? && e.pin == Relay) {
      if e in rounds {
      } else {
        assert e in a || e in b;
      }
    }
    ReplayLeavesPin(levels, DenyEvents(), Relay);
  }

  /** denyAccess beeps three times. */
  lemma DenyBeepsThrice()
    ensures Beeps(DenyEvents()) == DenyBeepCount
  {
    DenyBeepRoundsBeeps(DenyBeepCount);
  }

  // ---------------------------------------------------------------------------
  // Time spent in delay
  // ---------------------------------------------------------------------------

  /** The delay of a single event. */
  lemma TotalDelayOne(e: Event)
    ensures TotalDelay([e]) == if e.Delay? then e.ms else 0
  {
    assert [e][..0] == [];
  }

  lemma BeepDelay(pin: Pin, duration: nat)
    ensures TotalDelay(BeepEvents(pin, duration)) == duration
  {
    TotalDelayAppend([Write(pin, High)], [Delay(duration)]);
    TotalDelayAppend([Write(pin, High)] + [Delay(duration)], [Write(pin, Low)]);
    TotalDelayOne(Write(pin, High));
    TotalDelayOne(Delay(duration));
    TotalDelayOne(Write(pin, Low));
  }

  /** grantAccess blocks for two beeps, the 100 ms gap and the unlock duration: 3500 ms. */
  lemma GrantDelay()
    ensures TotalDelay(GrantEvents()) == 2 * BuzzerBeep + GrantBeepGap + UnlockDuration
  {
    var pre := [Write(LedGreen, High)] + [Write(LedRed, Low)];
    var beep := BeepEvents(Buzzer, BuzzerBeep);
    var ind := GrantIndicationEvents();
    BeepDelay(Buzzer, BuzzerBeep);
    TotalDelayAppend([Write(LedGreen, High)], [Write(LedRed, Low)]);
    TotalDelayOne(Write(LedGreen, High));
    TotalDelayOne(Write(LedRed, Low));
    TotalDelayAppend(pre, beep);
    TotalDelayAppend(pre + beep, [Delay(GrantBeepGap)]);
    TotalDelayOne(Delay(GrantBeepGap));
    TotalDelayAppend(pre + beep + [Delay(GrantBeepGap)], beep);
    assert TotalDelay(ind) == 2 * BuzzerBeep + GrantBeepGap;
    TotalDelayAppend(ind, UnlockEvents());
    TotalDelayOne(Write(Relay, High));
    TotalDelayAppend(ind + UnlockEvents(), [Delay(UnlockDuration)]);
    TotalDelayOne(Delay(UnlockDuration));
    TotalDelayAppend(ind + UnlockEvents() + [Delay(UnlockDuration)], LockEvents());
    TotalDelayAppend([Write(Relay, Low)], [Write(LedGreen, Low)]);
    TotalDelayOne(Write(Relay, Low));
    TotalDelayOne(Write(LedGreen, Low));
  }

  /** Each round of the deny loop blocks for one beep and the 300 ms pause. */
  lemma {:induction false} DenyBeepRoundsDelay(n: nat)
    ensures TotalDelay(DenyBeepRounds(n)) == n * (BuzzerBeep + DenyBeepGap)
  {
    if n == 0 {
    } else {
      var beep := BeepEvents(Buzzer, BuzzerBeep);
      DenyBeepRoundsDelay(n - 1);
      BeepDelay(Buzzer, BuzzerBeep);
      TotalDelayAppend(DenyBeepRounds(n - 1), beep);
      TotalDelayAppend(DenyBeepRounds(n - 1) + beep, [Delay(DenyBeepGap)]);
      TotalDelayOne(Delay(DenyBeepGap));
    }
  }

  /** denyAccess blocks for three beeps with their pauses and the final 1000 ms: 2500 ms. */
  lemma DenyDelay()
    ensures TotalDelay(DenyEvents()) == DenyBeepCount * (BuzzerBeep + DenyBeepGap) + DenyHold
  {
    var pre := [Write(LedRed, High)] + [Write(LedGreen, Low)];
    var rounds := DenyBeepRounds(DenyBeepCount);
    DenyBeepRoundsDelay(DenyBeepCount);
    TotalDelayAppend([Write(LedRed, High)], [Write(LedGreen, Low)]);
    TotalDelayOne(Write(LedRed, High));
    TotalDelayOne(Write(LedGreen, Low));
    TotalDelayAppend(pre, rounds);
    TotalDelayAppend(pre + rounds, [Delay(DenyHold)]);
    TotalDelayOne(Delay(DenyHold));
    TotalDelayAppend(pre + rounds + [Delay(DenyHold)], [Write(LedRed, Low)]);
    TotalDelayOne(Write(LedRed, Low));
  }
}
