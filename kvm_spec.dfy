/**
 * The button-press state machine and the serial command sequence of the
 * KVM firmware, as functions over a snapshot of its module globals. Every
 * effect the firmware has on the outside world (a UART write, a sleep, a
 * redrawn display) is one element of an ordered trace.
 *
 * Time is the value of the firmware's clock, `time.time()`, in whatever
 * unit it counts (seconds on the board); `ticks_diff` is plain subtraction.
 */
module KvmSpec {
  import opened Decimal
  import opened Display

  /** The two push buttons, on GPIO 0 and GPIO 1. */
  datatype Button = ButtonOne | ButtonTwo

  /** The debounce window, compared as written against the clock's own unit. */
  const DebounceTimeMs := 1000

  /** The serial commands understood by the switch box. */
  const OpenCommand := "open\r\n"
  const CloseCommand := "close\r\n"

  function SwitchCommand(kvmPort: string): string {
    "sw i0" + kvmPort + "\r\n"
  }

  /** One observable effect: a UART write, a blocking sleep, or a redrawn display. */
  datatype Effect = Write(text: string) | Sleep(seconds: int) | Show(frame: Frame)

  /** The module globals that the handler and the display share. */
  datatype State = State(
    buttonPressed: bool,
    buttonMessage: string,
    buttonPressTime: int,
    selectedKvm: int,
    lastPressTime: map<Button, int>,
    startTime: int,
    lastButtonPressed: Button)

  /** The port a button selects. */
  function PortFor(b: Button): (port: int)
    ensures port == 1 || port == 2
  {
    match b
    case ButtonOne => 1
    case ButtonTwo => 2
  }

  /** The status message a button leaves. */
  function MessageFor(b: Button): string {
    match b
    case ButtonOne => "Button 1 pressed"
    case ButtonTwo => "Button 2 pressed"
  }

  /**
   * What every reachable state satisfies: both buttons have a debounce
   * record, and the selected port is the port of the last accepted button
   * (so it is 1 or 2).
   */
  predicate Valid(s: State) {
    && (forall b: Button :: b in s.lastPressTime)
    && s.selectedKvm == PortFor(s.lastButtonPressed)
  }

  /** The globals at start-up. */
  function Initial(): (s: State)
    ensures Valid(s)
  {
    var lastPressTime := map[ButtonOne := 0, ButtonTwo := 0];
    EveryButtonIn(lastPressTime);
    State(false, "", 0, 1, lastPressTime, 0, ButtonOne)
  }

  lemma EveryButtonIn<V>(m: map<Button, V>)
    requires ButtonOne in m && ButtonTwo in m
    ensures forall b: Button :: b in m
  {
    forall b: Button
      ensures b in m
    {
      match b
      case ButtonOne =>
      case ButtonTwo =>
    }
  }

  /** The main program stamps the start time once the buttons are armed. */
  function Boot(s: State, now: int): (r: State)
    ensures Valid(s) ==> Valid(r)
    ensures r.startTime == now && r.(startTime := s.startTime) == s
  {
    s.(startTime := now)
  }

  // ----- command sequence -----

  /** `openKVM`: write the open command, then sleep one second. */
  function OpenEffects(): seq<Effect> {
    [Write(OpenCommand), Sleep(1)]
  }

  /** `switchKVM`: write the switch command for the port, then sleep two seconds. */
  function SwitchEffects(kvmPort: string): seq<Effect> {
    [Write(SwitchCommand(kvmPort)), Sleep(2)]
  }

  /** `closeKVM`: write the close command, then sleep one second. */
  function CloseEffects(): seq<Effect> {
    [Write(CloseCommand), Sleep(1)]
  }

  /** The three calls the handler makes for the selected port, in order. */
  function Dispatch(port: int): seq<Effect> {
    OpenEffects() + SwitchEffects(IntToString(port)) + CloseEffects()
  }

  /** The three strings written for a port: open, `sw i0<port>`, close. */
  function CommandsFor(port: int): seq<string> {
    [OpenCommand, SwitchCommand(IntToString(port)), CloseCommand]
  }

  /** The strings written to the UART, in order. */
  function Writes(t: seq<Effect>): seq<string>
    decreases |t|
  {
    if t == [] then []
    else (if t[0].Write? then [t[0].text] else []) + Writes(t[1..])
  }

  /** The sleeps, in order. */
  function Delays(t: seq<Effect>): seq<int>
    decreases |t|
  {
    if t == [] then []
    else (if t[0].Sleep? then [t[0].seconds] else []) + Delays(t[1..])
  }

  /** The frames drawn, in order. */
  function Frames(t: seq<Effect>): seq<Frame>
    decreases |t|
  {
    if t == [] then []
    else (if t[0].Show? then [t[0].frame] else []) + Frames(t[1..])
  }

  lemma {:induction false} WritesAppend(a: seq<Effect>, b: seq<Effect>)
    ensures Writes(a + b) == Writes(a) + Writes(b)
    decreases |a|
  {
    if a == [] {
      assert a + b == b;
    } else {
      var c := a + b;
      assert c[0] == a[0] && c[1..] == a[1..] + b;
      WritesAppend(a[1..], b);
    }
  }

  lemma {:induction false} DelaysAppend(a: seq<Effect>, b: seq<Effect>)
    ensures Delays(a + b) == Delays(a) + Delays(b)
    decreases |a|
  {
    if a == [] {
      assert a + b == b;
    } else {
      var c := a + b;
      assert c[0] == a[0] && c[1..] == a[1..] + b;
      DelaysAppend(a[1..], b);
    }
  }

  lemma {:induction false} FramesAppend(a: seq<Effect>, b: seq<Effect>)
    ensures Frames(a + b) == Frames(a) + Frames(b)
    decreases |a|
  {
    if a == [] {
      assert a + b == b;
    } else {
      var c := a + b;
      assert c[0] == a[0] && c[1..] == a[1..] + b;
      FramesAppend(a[1..], b);
    }
  }

  /** The writes, sleeps and frames of two traces in a row are those of each, in a row. */
  lemma ProjectionsAppend(a: seq<Effect>, b: seq<Effect>)
    ensures Writes(a + b) == Writes(a) + Writes(b)
    ensures Delays(a + b) == Delays(a) + Delays(b)
    ensures Frames(a + b) == Frames(a) + Frames(b)
  {
    WritesAppend(a, b);
    DelaysAppend(a, b);
    FramesAppend(a, b);
  }

  /**
   * The command sequence for a port is the ordered triple open, `sw i0<port>`,
   * close, paced by sleeps of 1, 2 and 1 seconds, and draws nothing.
   */
  lemma DispatchSequence(port: int)
    ensures Writes(Dispatch(port)) == CommandsFor(port)
    ensures CommandsFor(port) == ["open\r\n", "sw i0" + IntToString(port) + "\r\n", "close\r\n"]
    ensures Delays(Dispatch(port)) == [1, 2, 1]
    ensures Frames(Dispatch(port)) == []
    ensures Dispatch(port) ==
      [Write(OpenCommand), Sleep(1), Write(SwitchCommand(IntToString(port))), Sleep(2), Write(CloseCommand), Sleep(1)]
  {
    var o, w, c := OpenEffects(), SwitchEffects(IntToString(port)), CloseEffects();
    ProjectionsAppend(o, w);
    ProjectionsAppend(o + w, c);
    WriteThenSleep(OpenCommand, 1);
    WriteThenSleep(SwitchCommand(IntToString(port)), 2);
    WriteThenSleep(CloseCommand, 1);
  }

  /** The projections of a single effect. */
  lemma ProjectionsOfOne(e: Effect)
    ensures Writes([e]) == if e.Write? then [e.text] else []
    ensures Delays([e]) == if e.Sleep? then [e.seconds] else []
    ensures Frames([e]) == if e.Show? then [e.frame] else []
  {
    assert [e][1..] == [];
  }

  lemma WriteThenSleep(text: string, seconds: int)
    ensures Writes([Write(text), Sleep(seconds)]) == [text]
    ensures Delays([Write(text), Sleep(seconds)]) == [seconds]
    ensures Frames([Write(text), Sleep(seconds)]) == []
  {
    assert [Write(text), Sleep(seconds)] == [Write(text)] + [Sleep(seconds)];
    ProjectionsAppend([Write(text)], [Sleep(seconds)]);
    ProjectionsOfOne(Write(text));
    ProjectionsOfOne(Sleep(seconds));
  }

  lemma ShowThenSleep(f: Frame, seconds: int)
    ensures Writes([Show(f), Sleep(seconds)]) == []
    ensures Delays([Show(f), Sleep(seconds)]) == [seconds]
    ensures Frames([Show(f), Sleep(seconds)]) == [f]
  {
    assert [Show(f), Sleep(seconds)] == [Show(f)] + [Sleep(seconds)];
    ProjectionsAppend([Show(f)], [Sleep(seconds)]);
    ProjectionsOfOne(Show(f));
    ProjectionsOfOne(Sleep(seconds));
  }

  /** The switch commands for the two ports are exactly `sw i01` and `sw i02`. */
  lemma SwitchCommandForPorts()
    ensures SwitchCommand(IntToString(1)) == "sw i01\r\n"
    ensures SwitchCommand(IntToString(2)) == "sw i02\r\n"
  {
  }

  /** The command sequences for the two ports, spelt out. */
  lemma CommandsForPorts()
    ensures CommandsFor(1) == ["open\r\n", "sw i01\r\n", "close\r\n"]
    ensures CommandsFor(2) == ["open\r\n", "sw i02\r\n", "close\r\n"]
  {
    SwitchCommandForPorts();
  }

  /** The switch command names the port it was built for, and no other. */
  lemma SwitchCommandInjective(p: int, q: int)
    requires SwitchCommand(IntToString(p)) == SwitchCommand(IntToString(q))
    ensures p == q
  {
    var a, b := SwitchCommand(IntToString(p)), SwitchCommand(IntToString(q));
    assert a[5..|a| - 2] == IntToString(p);
    assert b[5..|b| - 2] == IntToString(q);
    IntToStringInjective(p, q);
  }

  // ----- display refresh -----

  /**
   * `updateDisplay(uptimeSeconds)` at clock value `now`: draws the frame and
   * clears the press flag once the message is no longer shown.
   */
  function Refresh(s: State, uptimeSeconds: int, now: int): (State, Frame) {
    var visible := StatusVisible(s.buttonPressed, s.buttonPressTime, now);
    var frame := Frame(uptimeSeconds, s.selectedKvm,
                       if visible then s.buttonMessage else "");
    (if visible then s else s.(buttonPressed := false), frame)
  }

  /**
   * The status line shows the message exactly when a press is flagged and
   * under five seconds old; otherwise it is blank and the flag is cleared.
   * Nothing else in the state changes.
   */
  lemma RefreshStatusRule(s: State, uptimeSeconds: int, now: int)
    ensures var r := Refresh(s, uptimeSeconds, now);
      && (r.1.status == if s.buttonPressed && now - s.buttonPressTime < DisplayDuration then s.buttonMessage else "")
      && (r.0.buttonPressed <==> s.buttonPressed && now - s.buttonPressTime < DisplayDuration)
      && r.0 == s.(buttonPressed := r.0.buttonPressed)
  {
  }

  /** A refresh draws the uptime, the ring and the selected port. */
  lemma RefreshFrame(s: State, uptimeSeconds: int, now: int)
    ensures var f := Render(Refresh(s, uptimeSeconds, now).1);
      && (uptimeSeconds >= 0 ==> ParseUptime(f.uptime) == Some(uptimeSeconds))
      && (forall p :: p in f.ring <==> 0 <= p.x < RingArea && 0 <= p.y < RingArea && InRing(p.x, p.y))
      && f.portLabel == "KVM Port: " + IntToString(s.selectedKvm)
  {
    if uptimeSeconds >= 0 {
      UptimeMessageRoundTrip(uptimeSeconds);
    }
  }

  /** One pass of the main loop: uptime since the session start, a refresh, a one-second sleep. */
  function Tick(s: State, now: int): (r: (State, seq<Effect>))
    ensures r.0 == s.(buttonPressed := r.0.buttonPressed)
    ensures Writes(r.1) == [] && Delays(r.1) == [1] && |Frames(r.1)| == 1
    ensures Frames(r.1)[0] == Frame(now - s.startTime, s.selectedKvm,
      if s.buttonPressed && now - s.buttonPressTime < DisplayDuration then s.buttonMessage else "")
    ensures r.0.buttonPressed <==> s.buttonPressed && now - s.buttonPressTime < DisplayDuration
  {
    var r := Refresh(s, now - s.startTime, now);
    ShowThenSleep(r.1, 1);
    (r.0, [Show(r.1), Sleep(1)])
  }

  // ----- press handler -----

  /** Whether a press of `b` at `now` falls inside its debounce window. */
  predicate Bounces(s: State, b: Button, now: int)
    requires b in s.lastPressTime
  {
    now - s.lastPressTime[b] < DebounceTimeMs
  }

  /** The global updates of an accepted press, before the display is redrawn. */
  function Accept(s: State, b: Button, now: int): (r: State)
    requires Valid(s)
    ensures Valid(r)
  {
    s.(startTime := if s.lastButtonPressed != b then now else s.startTime,
       buttonMessage := MessageFor(b),
       selectedKvm := PortFor(b),
       lastPressTime := s.lastPressTime[b := now],
       buttonPressed := true,
       buttonPressTime := now,
       lastButtonPressed := b)
  }

  /**
   * `handleButton(pin)` at clock value `now`: a bounced press does nothing;
   * an accepted one updates the globals, redraws the display and sends the
   * command sequence for the newly selected port.
   */
  function Handle(s: State, b: Button, now: int): (r: (State, seq<Effect>))
    requires Valid(s)
    ensures Valid(r.0)
  {
    if Bounces(s, b, now) then (s, [])
    else
      var s1 := Accept(s, b, now);
      var r := Refresh(s1, now - s1.startTime, now);
      (r.0, [Show(r.1)] + Dispatch(r.0.selectedKvm))
  }

  /** A press inside its button's debounce window changes no global and has no effect. */
  lemma BouncedPressIgnored(s: State, b: Button, now: int)
    requires Valid(s)
    ensures now - s.lastPressTime[b] < DebounceTimeMs <==> Handle(s, b, now).1 == []
    ensures now - s.lastPressTime[b] < DebounceTimeMs ==> Handle(s, b, now).0 == s
  {
  }

  /**
   * An accepted press selects the button's port and message, records the
   * press time for that button only, flags the press, remembers the button,
   * and restarts the session only when the other button was pressed last.
   */
  lemma AcceptedPressState(s: State, b: Button, now: int)
    requires Valid(s) && now - s.lastPressTime[b] >= DebounceTimeMs
    ensures var s' := Handle(s, b, now).0;
      && s'.selectedKvm == (if b == ButtonOne then 1 else 2)
      && s'.buttonMessage == (if b == ButtonOne then "Button 1 pressed" else "Button 2 pressed")
      && s'.lastPressTime[b] == now
      && (forall o :: o != b ==> s'.lastPressTime[o] == s.lastPressTime[o])
      && s'.lastPressTime.Keys == s.lastPressTime.Keys
      && s'.buttonPressed && s'.buttonPressTime == now
      && s'.lastButtonPressed == b
      && s'.startTime == (if s.lastButtonPressed != b then now else s.startTime)
  {
  }

  /**
   * An accepted press first redraws the display with its own message, then
   * writes open, `sw i0<port>`, close for its button's port, sleeping 1, 2
   * and 1 seconds after them.
   */
  lemma AcceptedPressEffects(s: State, b: Button, now: int)
    requires Valid(s) && now - s.lastPressTime[b] >= DebounceTimeMs
    ensures var t := Handle(s, b, now).1;
      && Writes(t) == CommandsFor(PortFor(b))
      && Writes(t) == ["open\r\n", if b == ButtonOne then "sw i01\r\n" else "sw i02\r\n", "close\r\n"]
      && Delays(t) == [1, 2, 1]
      && |Frames(t)| == 1 && Frames(t)[0].status == MessageFor(b)
      && Frames(t)[0].port == PortFor(b)
      && Frames(t)[0].uptimeSeconds == (if s.lastButtonPressed != b then 0 else now - s.startTime)
      && t[0].Show?
  {
    var s1 := Accept(s, b, now);
    var r := Refresh(s1, now - s1.startTime, now);
    var f := r.1;
    assert r.0 == s1 && f.status == MessageFor(b);
    var t := Handle(s, b, now).1;
    assert t == [Show(f)] + Dispatch(PortFor(b));
    ProjectionsAppend([Show(f)], Dispatch(PortFor(b)));
    DispatchSequence(PortFor(b));
    SwitchCommandForPorts();
    ProjectionsOfOne(Show(f));
  }

  /**
   * An accepted press leaves the globals exactly as `Accept` sets them (its
   * message is fresh, so the redraw keeps the press flag) and writes its
   * button's command sequence.
   */
  lemma AcceptedHandle(s: State, b: Button, now: int)
    requires Valid(s) && now - s.lastPressTime[b] >= DebounceTimeMs
    ensures Handle(s, b, now).0 == Accept(s, b, now)
    ensures Writes(Handle(s, b, now).1) == CommandsFor(PortFor(b))
  {
    AcceptedPressEffects(s, b, now);
  }

  /** The session start moves only on an accepted press of the button not pressed last. */
  lemma SessionStartOnlyOnSwitch(s: State, b: Button, now: int)
    requires Valid(s)
    ensures Handle(s, b, now).0.startTime != s.startTime ==>
      now - s.lastPressTime[b] >= DebounceTimeMs && s.lastButtonPressed != b && Handle(s, b, now).0.startTime == now
  {
  }

  /**
   * A debounce record never moves backwards, and the pressed button's
   * record moves only forwards by at least the window.
   */
  lemma DebounceRecordMonotone(s: State, b: Button, now: int)
    requires Valid(s)
    ensures forall o: Button :: Handle(s, b, now).0.lastPressTime[o] >= s.lastPressTime[o]
    ensures Handle(s, b, now).0.lastPressTime[b] != s.lastPressTime[b] ==>
      Handle(s, b, now).0.lastPressTime[b] == now >= s.lastPressTime[b] + DebounceTimeMs
  {
  }

  /** In every reachable state the selected port is 1 or 2. */
  lemma SelectedPortInRange(s: State)
    requires Valid(s)
    ensures s.selectedKvm == 1 || s.selectedKvm == 2
  {
  }
}
