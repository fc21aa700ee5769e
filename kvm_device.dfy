/**
 * The firmware itself: its module globals as the fields of one controller
 * object, the OLED's current content as a field, and everything written to
 * the UART, slept or drawn as a trace that the methods append to. Each
 * method does what the corresponding Python function does, step by step,
 * and is proved to agree with the functions of KvmSpec.
 */
module KvmDevice {
  import opened Decimal
  import opened Display
  import opened KvmSpec

  class KvmController {
    var buttonPressed: bool
    var buttonMessage: string
    var buttonPressTime: int
    var selectedKvm: int
    var lastPressTime: map<Button, int>
    var startTime: int
    var lastButtonPressed: Button
    /** What the OLED shows after the last `show()`. */
    var shown: Screen
    /** Every UART write, sleep and redraw so far, in order. */
    var trace: seq<Effect>

    /** The globals as a value. */
    function Snapshot(): State
      reads this`buttonPressed, this`buttonMessage, this`buttonPressTime, this`selectedKvm
      reads this`lastPressTime, this`startTime, this`lastButtonPressed
    {
      State(buttonPressed, buttonMessage, buttonPressTime, selectedKvm, lastPressTime, startTime, lastButtonPressed)
    }

    /** Both buttons have a debounce record and the selected port is that of the last accepted button. */
    predicate Valid()
      reads this`buttonPressed, this`buttonMessage, this`buttonPressTime, this`selectedKvm
      reads this`lastPressTime, this`startTime, this`lastButtonPressed
    {
      KvmSpec.Valid(Snapshot())
    }

    /** The module-level initialisations of the globals; nothing written, nothing drawn yet. */
    constructor()
      ensures Snapshot() == Initial() && Valid()
      ensures trace == [] && shown == Screen("", {}, "", "")
    {
      buttonPressed := false;
      buttonMessage := "";
      buttonPressTime := 0;
      selectedKvm := 1;
      lastPressTime := map[ButtonOne := 0, ButtonTwo := 0];
      startTime := 0;
      lastButtonPressed := ButtonOne;
      shown := Screen("", {}, "", "");
      trace := [];
    }

    /** The main program stamps the session start once the buttons are armed. */
    method Boot(now: int)
      requires Valid()
      modifies this`startTime
      ensures Snapshot() == KvmSpec.Boot(old(Snapshot()), now) && Valid()
    {
      startTime := now;
    }

    /** `openKVM`. */
    method OpenKvm()
      modifies this`trace
      ensures trace == old(trace) + OpenEffects()
    {
      trace := trace + [Write(OpenCommand)];
      trace := trace + [Sleep(1)];
    }

    /** `switchKVM(kvmPort)`. */
    method SwitchKvm(kvmPort: string)
      modifies this`trace
      ensures trace == old(trace) + SwitchEffects(kvmPort)
    {
      trace := trace + [Write(SwitchCommand(kvmPort))];
      trace := trace + [Sleep(2)];
    }

    /** `closeKVM`. */
    method CloseKvm()
      modifies this`trace
      ensures trace == old(trace) + CloseEffects()
    {
      trace := trace + [Write(CloseCommand)];
      trace := trace + [Sleep(1)];
    }

    /**
     * `updateDisplay(uptimeSeconds)` with the clock at `now`: draws the
     * uptime line, the ring, the port label and the status line, and clears
     * the press flag once the message has been shown for five seconds.
     */
    method UpdateDisplay(uptimeSeconds: int, now: int)
      modifies this`buttonPressed, this`shown, this`trace
      ensures Snapshot() == Refresh(old(Snapshot()), uptimeSeconds, now).0
      ensures trace == old(trace) + [Show(Refresh(old(Snapshot()), uptimeSeconds, now).1)]
      ensures shown == Render(Refresh(old(Snapshot()), uptimeSeconds, now).1)
    {
      var uptimeMessage := UptimeMessage(uptimeSeconds);
      var ring := DrawRing();
      var status: string;
      if buttonPressed && now - buttonPressTime < DisplayDuration {
        status := buttonMessage;
      } else {
        status := "";
        buttonPressed := false;
      }
      shown := Screen(uptimeMessage, ring, PortLabel(selectedKvm), status);
      trace := trace + [Show(Frame(uptimeSeconds, selectedKvm, status))];
    }

    /**
     * The global updates of an accepted press: a new session when the
     * other button was pressed last, the button's message and port, and
     * the press recorded.
     */
    method RecordPress(pin: Button, now: int)
      requires Valid()
      modifies this`startTime, this`buttonMessage, this`selectedKvm, this`lastPressTime
      modifies this`buttonPressed, this`buttonPressTime, this`lastButtonPressed
      ensures Snapshot() == Accept(old(Snapshot()), pin, now) && Valid()
    {
      if lastButtonPressed != pin {
        startTime := now;
      }
      match pin {
        case ButtonOne =>
          buttonMessage := "Button 1 pressed";
          selectedKvm := 1;
        case ButtonTwo =>
          buttonMessage := "Button 2 pressed";
          selectedKvm := 2;
      }
      lastPressTime := lastPressTime[pin := now];
      buttonPressed := true;
      buttonPressTime := now;
      lastButtonPressed := pin;
    }

    /**
     * `handleButton(pin)` with the clock at `now`: ignores a press inside
     * its button's debounce window; otherwise records it, redraws the
     * display and sends the command sequence for the newly selected port.
     */
    method HandleButton(pin: Button, now: int)
      requires Valid()
      modifies this
      ensures Valid()
      ensures Snapshot() == Handle(old(Snapshot()), pin, now).0
      ensures trace == old(trace) + Handle(old(Snapshot()), pin, now).1
      ensures now - old(lastPressTime[pin]) < DebounceTimeMs ==> shown == old(shown)
      ensures now - old(lastPressTime[pin]) >= DebounceTimeMs ==>
        shown == Render(Handle(old(Snapshot()), pin, now).1[0].frame)
    {
      ghost var s, t0 := Snapshot(), trace;
      var currentTime := now;
      if currentTime - lastPressTime[pin] < DebounceTimeMs {
        BouncedPressIgnored(s, pin, now);
        return;
      }
      RecordPress(pin, currentTime);
      ghost var s1 := Snapshot();
      ghost var r := Refresh(s1, now - s1.startTime, now);
      ghost var d := Dispatch(r.0.selectedKvm);
      assert Handle(s, pin, now) == (r.0, [Show(r.1)] + d);
      UpdateDisplay(currentTime - startTime, currentTime);
      ghost var t1 := trace;
      OpenKvm();
      SwitchKvm(IntToString(selectedKvm));
      CloseKvm();
      assert trace == t1 + d by {
        AppendThree(t1, OpenEffects(), SwitchEffects(IntToString(r.0.selectedKvm)), CloseEffects());
      }
      AppendAssoc(t0, [Show(r.1)], d);
    }

    /** One pass of the main loop: uptime since the session start, a redraw, a one-second sleep. */
    method MainLoopStep(now: int)
      modifies this`buttonPressed, this`shown, this`trace
      ensures Snapshot() == Tick(old(Snapshot()), now).0
      ensures trace == old(trace) + Tick(old(Snapshot()), now).1
      ensures shown == Render(Tick(old(Snapshot()), now).1[0].frame)
    {
      ghost var s := Snapshot();
      ghost var r := Refresh(s, now - s.startTime, now);
      assert Tick(s, now) == (r.0, [Show(r.1), Sleep(1)]);
      var uptimeSeconds := now - startTime;
      UpdateDisplay(uptimeSeconds, now);
      trace := trace + [Sleep(1)];
      assert trace == old(trace) + [Show(r.1), Sleep(1)];
    }
  }

  /** Concatenation is associative. */
  lemma AppendAssoc<T>(a: seq<T>, b: seq<T>, c: seq<T>)
    ensures a + b + c == a + (b + c)
  {
  }

  /** Appending three pieces one after another is appending them joined. */
  lemma AppendThree<T>(t: seq<T>, a: seq<T>, b: seq<T>, c: seq<T>)
    ensures t + a + b + c == t + (a + b + c)
  {
  }
}
