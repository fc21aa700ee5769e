/**
 * Interleavings of button presses and main-loop passes, and what the
 * firmware does over a whole run of them: how many command sequences the
 * debounce lets through, which port the switch box was last told, when the
 * session start moves and when the status line stays blank.
 */
module KvmRuns {
  import opened KvmSpec

  /** A falling edge on a button, or one pass of the main loop, at a clock value. */
  datatype Event = Press(button: Button, time: int) | LoopPass(time: int)

  function Step(s: State, e: Event): (r: (State, seq<Effect>))
    requires Valid(s)
    ensures Valid(r.0)
  {
    match e
    case Press(b, t) => Handle(s, b, t)
    case LoopPass(t) => Tick(s, t)
  }

  /** The final globals and the whole trace of a run of events, handled one after another. */
  function Run(s: State, events: seq<Event>): (r: (State, seq<Effect>))
    requires Valid(s)
    ensures Valid(r.0)
    decreases |events|
  {
    if events == [] then (s, [])
    else
      var r1 := Step(s, events[0]);
      var r2 := Run(r1.0, events[1..]);
      (r2.0, r1.1 + r2.1)
  }

  /** Running two lists of events in a row is running the first, then the second from where it left off. */
  lemma {:induction false} RunAppend(s: State, a: seq<Event>, b: seq<Event>)
    requires Valid(s)
    ensures var ra := Run(s, a);
      var rb := Run(ra.0, b);
      Run(s, a + b) == (rb.0, ra.1 + rb.1)
    decreases |a|
  {
    if a == [] {
      assert a + b == b;
      assert [] + Run(s, b).1 == Run(s, b).1;
    } else {
      var e, rest := a[0], a[1..];
      assert a + b == [e] + (rest + b);
      var r1 := Step(s, e);
      RunCons(s, e, rest + b);
      RunAppend(r1.0, rest, b);
      var ra := Run(r1.0, rest);
      var rb := Run(ra.0, b);
      assert r1.1 + (ra.1 + rb.1) == (r1.1 + ra.1) + rb.1;
    }
  }

  /** A run is its first event's step followed by the run of the rest. */
  lemma RunCons(s: State, e: Event, rest: seq<Event>)
    requires Valid(s)
    ensures var r1 := Step(s, e);
      var r2 := Run(r1.0, rest);
      Run(s, [e] + rest) == (r2.0, r1.1 + r2.1)
  {
    var events := [e] + rest;
    assert events[0] == e && events[1..] == rest;
  }

  /** A run of one event is that event's step. */
  lemma RunOne(s: State, e: Event)
    requires Valid(s)
    ensures Run(s, [e]) == Step(s, e)
  {
    assert [e][1..] == [];
    assert Step(s, e).1 + [] == Step(s, e).1;
  }

  /** `n` command sequences for the same port, back to back. */
  function Repeat(w: seq<string>, n: nat): seq<string>
    decreases n
  {
    if n == 0 then [] else w + Repeat(w, n - 1)
  }

  /** Every event is a press of `b`. */
  predicate PressesOf(b: Button, events: seq<Event>) {
    forall i :: 0 <= i < |events| ==> events[i].Press? && events[i].button == b
  }

  /** What one event writes to the UART, and how the selected port moves with it. */
  lemma StepWrites(s: State, e: Event)
    requires Valid(s)
    ensures var r := Step(s, e);
      (Writes(r.1) == [] && r.0.selectedKvm == s.selectedKvm) || Writes(r.1) == CommandsFor(r.0.selectedKvm)
  {
    match e
    case Press(b, now) =>
      if now - s.lastPressTime[b] >= DebounceTimeMs {
        AcceptedPressState(s, b, now);
        AcceptedPressEffects(s, b, now);
      } else {
        BouncedPressIgnored(s, b, now);
      }
    case LoopPass(now) =>
  }

  /**
   * Over any run, the switch box is last told the port that the globals
   * (and so the display) hold: the trace's last three writes are the
   * command sequence for the final selected port, and a run that writes
   * nothing leaves the port alone.
   */
  lemma {:induction false} LastCommandsNameSelectedPort(s: State, events: seq<Event>)
    requires Valid(s)
    ensures var r := Run(s, events);
      && (Writes(r.1) == [] ==> r.0.selectedKvm == s.selectedKvm)
      && (Writes(r.1) != [] ==> |Writes(r.1)| >= 3 && Writes(r.1)[|Writes(r.1)| - 3..] == CommandsFor(r.0.selectedKvm))
    decreases |events|
  {
    if events != [] {
      var e, rest := events[0], events[1..];
      assert events == [e] + rest;
      var r1 := Step(s, e);
      var r2 := Run(r1.0, rest);
      RunCons(s, e, rest);
      StepWrites(s, e);
      LastCommandsNameSelectedPort(r1.0, rest);
      WritesAppend(r1.1, r2.1);
      TailOfWrites(Writes(r1.1), Writes(r2.1), r2.0.selectedKvm, r1.0.selectedKvm, s.selectedKvm);
    }
  }

  lemma TailOfWrites(w1: seq<string>, w2: seq<string>, port2: int, port1: int, port0: int)
    requires (w1 == [] && port1 == port0) || w1 == CommandsFor(port1)
    requires w2 == [] ==> port2 == port1
    requires w2 != [] ==> |w2| >= 3 && w2[|w2| - 3..] == CommandsFor(port2)
    ensures w1 + w2 == [] ==> port2 == port0
    ensures w1 + w2 != [] ==> |w1 + w2| >= 3 && (w1 + w2)[|w1 + w2| - 3..] == CommandsFor(port2)
  {
    if w2 != [] {
      assert (w1 + w2)[|w1 + w2| - 3..] == w2[|w2| - 3..];
    } else {
      assert w1 + w2 == w1;
    }
  }

  /** Presses of one button that all fall inside its debounce window change nothing and write nothing. */
  lemma {:induction false} BouncedRunIgnored(s: State, b: Button, events: seq<Event>)
    requires Valid(s) && PressesOf(b, events)
    requires forall i :: 0 <= i < |events| ==> events[i].time - s.lastPressTime[b] < DebounceTimeMs
    ensures Run(s, events) == (s, [])
    decreases |events|
  {
    if events != [] {
      assert events[0].Press? && events[0].button == b;
      BouncedPressIgnored(s, b, events[0].time);
      var r1 := Step(s, events[0]);
      assert r1 == (s, []);
      BouncedRunIgnored(s, b, events[1..]);
      var r2 := Run(r1.0, events[1..]);
      assert r2 == (s, []);
      assert Run(s, events) == (r2.0, r1.1 + r2.1);
      assert r1.1 + r2.1 == [];
    }
  }

  /** A run of one accepted press is that press's acceptance and command sequence. */
  lemma AcceptedRunOne(s: State, b: Button, now: int)
    requires Valid(s) && now - s.lastPressTime[b] >= DebounceTimeMs
    ensures Run(s, [Press(b, now)]).0 == Accept(s, b, now)
    ensures Writes(Run(s, [Press(b, now)]).1) == CommandsFor(PortFor(b))
  {
    RunOne(s, Press(b, now));
    AcceptedHandle(s, b, now);
  }

  /**
   * A burst of presses of one button, all within the debounce window of
   * the first (which is itself accepted), sends exactly one command
   * sequence and leaves the globals as accepting the first press alone left them.
   */
  lemma BurstSendsOneSequence(s: State, b: Button, first: int, rest: seq<Event>)
    requires Valid(s) && first - s.lastPressTime[b] >= DebounceTimeMs
    requires PressesOf(b, rest) && forall i :: 0 <= i < |rest| ==> rest[i].time < first + DebounceTimeMs
    ensures var r := Run(s, [Press(b, first)] + rest);
      && Writes(r.1) == CommandsFor(PortFor(b))
      && r.0 == Accept(s, b, first)
  {
    var s1 := Accept(s, b, first);
    AcceptedRunOne(s, b, first);
    assert s1.lastPressTime[b] == first;
    BouncedRunIgnored(s1, b, rest);
    RunAppend(s, [Press(b, first)], rest);
    assert Run(s, [Press(b, first)]).1 + [] == Run(s, [Press(b, first)]).1;
  }

  /** Each event comes at least the debounce window after the one before it. */
  predicate SpacedApart(events: seq<Event>)
    decreases |events|
  {
    |events| <= 1 || (events[1].time - events[0].time >= DebounceTimeMs && SpacedApart(events[1..]))
  }

  /** Presses of one button spaced at least the debounce window apart are every one accepted. */
  lemma {:induction false} SpacedPressesAllAccepted(s: State, b: Button, events: seq<Event>)
    requires Valid(s) && PressesOf(b, events) && SpacedApart(events)
    requires events != [] ==> events[0].time - s.lastPressTime[b] >= DebounceTimeMs
    ensures Writes(Run(s, events).1) == Repeat(CommandsFor(PortFor(b)), |events|)
    decreases |events|
  {
    if events != [] {
      var e, rest := events[0], events[1..];
      assert events == [e] + rest;
      assert e == Press(b, e.time);
      assert PressesOf(b, rest) by {
        forall i | 0 <= i < |rest| ensures rest[i].Press? && rest[i].button == b {
          assert rest[i] == events[i + 1];
        }
      }
      assert rest != [] ==> rest[0] == events[1];
      var s1 := Accept(s, b, e.time);
      AcceptedHandle(s, b, e.time);
      SpacedPressesAllAccepted(s1, b, rest);
      RunCons(s, e, rest);
      WritesAppend(Handle(s, b, e.time).1, Run(s1, rest).1);
      var w := CommandsFor(PortFor(b));
      assert Repeat(w, |events|) == w + Repeat(w, |rest|);
    }
  }

  /** Repeated presses of the button pressed last, interleaved with loop passes, never move the session start. */
  lemma {:induction false} SessionKeptOnRepeats(s: State, b: Button, events: seq<Event>)
    requires Valid(s) && s.lastButtonPressed == b
    requires forall i :: 0 <= i < |events| ==> events[i].Press? ==> events[i].button == b
    ensures Run(s, events).0.startTime == s.startTime
    ensures Run(s, events).0.lastButtonPressed == b
    decreases |events|
  {
    if events != [] {
      var e := events[0];
      var s1 := Step(s, e).0;
      match e {
        case Press(_, now) =>
          SessionStartOnlyOnSwitch(s, b, now);
          if now - s.lastPressTime[b] >= DebounceTimeMs {
            AcceptedPressState(s, b, now);
          } else {
            BouncedPressIgnored(s, b, now);
          }
        case LoopPass(_) =>
      }
      SessionKeptOnRepeats(s1, b, events[1..]);
    }
  }

  /** Every press in `events` falls inside its button's debounce window as recorded in `s`. */
  predicate OnlyBounces(s: State, events: seq<Event>)
    requires Valid(s)
  {
    forall i :: 0 <= i < |events| && events[i].Press? ==> events[i].time - s.lastPressTime[events[i].button] < DebounceTimeMs
  }

  /**
   * Once the press flag is cleared, it stays cleared until the next
   * accepted press: loop passes and bounced presses keep it cleared, keep
   * the debounce records, write nothing and draw only blank status lines.
   */
  lemma {:induction false} HiddenStatusStaysHidden(s: State, events: seq<Event>)
    requires Valid(s) && !s.buttonPressed && OnlyBounces(s, events)
    ensures var r := Run(s, events);
      && !r.0.buttonPressed
      && r.0.lastPressTime == s.lastPressTime
      && Writes(r.1) == []
      && forall f :: f in Frames(r.1) ==> f.status == ""
    decreases |events|
  {
    if events != [] {
      var e, rest := events[0], events[1..];
      assert events == [e] + rest;
      var r1 := Step(s, e);
      match e {
        case Press(b, t) =>
          assert t - s.lastPressTime[b] < DebounceTimeMs;
          BouncedPressIgnored(s, b, t);
          assert r1 == (s, []);
        case LoopPass(t) =>
          HiddenTick(s, t);
      }
      assert r1.0.lastPressTime == s.lastPressTime && !r1.0.buttonPressed;
      assert OnlyBounces(r1.0, rest) by {
        forall i | 0 <= i < |rest| && rest[i].Press?
          ensures rest[i].time - r1.0.lastPressTime[rest[i].button] < DebounceTimeMs
        {
          assert rest[i] == events[i + 1];
        }
      }
      HiddenStatusStaysHidden(r1.0, rest);
      var r2 := Run(r1.0, rest);
      RunCons(s, e, rest);
      WritesAppend(r1.1, r2.1);
      FramesAppend(r1.1, r2.1);
    }
  }

  /** One loop pass with the press flag cleared keeps it cleared, writes nothing and draws a blank status line. */
  lemma HiddenTick(s: State, now: int)
    requires !s.buttonPressed
    ensures var r := Tick(s, now);
      && !r.0.buttonPressed && Writes(r.1) == [] && |Frames(r.1)| == 1 && Frames(r.1)[0].status == ""
  {
    RefreshStatusRule(s, now - s.startTime, now);
    var f := Refresh(s, now - s.startTime, now).1;
    ShowThenSleep(f, 1);
  }

  /**
   * A worked run with the window in clock units: with button one pressed
   * last, a press of it at `t` is accepted, again 500 later it bounces, and
   * button two two units after that is accepted and, being the other
   * button, restarts the session. From boot (records 0, button one last)
   * any `t` from 1000 on will do.
   */
  lemma WorkedRun(s: State, t: int)
    requires Valid(s) && s.lastButtonPressed == ButtonOne
    requires t - s.lastPressTime[ButtonOne] >= DebounceTimeMs && t + 502 - s.lastPressTime[ButtonTwo] >= DebounceTimeMs
    ensures var r := Run(s, [Press(ButtonOne, t), Press(ButtonOne, t + 500), Press(ButtonTwo, t + 502)]);
      && Writes(r.1) == ["open\r\n", "sw i01\r\n", "close\r\n", "open\r\n", "sw i02\r\n", "close\r\n"]
      && r.0.selectedKvm == 2 && r.0.startTime == t + 502
      && r.0.lastPressTime[ButtonOne] == t && r.0.lastPressTime[ButtonTwo] == t + 502
  {
    var burst := [Press(ButtonOne, t), Press(ButtonOne, t + 500)];
    var last := [Press(ButtonTwo, t + 502)];
    assert [Press(ButtonOne, t), Press(ButtonOne, t + 500), Press(ButtonTwo, t + 502)] == burst + last;
    assert burst == [Press(ButtonOne, t)] + [Press(ButtonOne, t + 500)];
    BurstSendsOneSequence(s, ButtonOne, t, [Press(ButtonOne, t + 500)]);
    var s1 := Accept(s, ButtonOne, t);
    AcceptedRunOne(s1, ButtonTwo, t + 502);
    RunAppend(s, burst, last);
    WritesAppend(Run(s, burst).1, Run(s1, last).1);
    PortOneThenTwo();
  }

  /** Port one's command sequence followed by port two's, spelt out. */
  lemma PortOneThenTwo()
    ensures CommandsFor(1) + CommandsFor(2) ==
      ["open\r\n", "sw i01\r\n", "close\r\n", "open\r\n", "sw i02\r\n", "close\r\n"]
  {
    CommandsForPorts();
  }

  /**
   * The debounce is against the last accepted press, not the last edge: a
   * chain of presses of one button each 600 apart has its first and third
   * accepted, the third being 1200 after the first.
   */
  lemma ChainOfClosePressesAcceptsTwice(s: State, b: Button, t: int)
    requires Valid(s) && t - s.lastPressTime[b] >= DebounceTimeMs
    ensures var r := Run(s, [Press(b, t), Press(b, t + 600), Press(b, t + 1200)]);
      && Writes(r.1) == CommandsFor(PortFor(b)) + CommandsFor(PortFor(b))
      && r.0.lastPressTime[b] == t + 1200
  {
    var burst := [Press(b, t), Press(b, t + 600)];
    var last := [Press(b, t + 1200)];
    assert [Press(b, t), Press(b, t + 600), Press(b, t + 1200)] == burst + last;
    assert burst == [Press(b, t)] + [Press(b, t + 600)];
    BurstSendsOneSequence(s, b, t, [Press(b, t + 600)]);
    var s1 := Accept(s, b, t);
    AcceptedRunOne(s1, b, t + 1200);
    RunAppend(s, burst, last);
    WritesAppend(Run(s, burst).1, Run(s1, last).1);
  }
}
