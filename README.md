# KVM switch button firmware, modelled in Dafny

The firmware runs on a Raspberry Pi Pico. It drives a two-port KVM switch box over a UART. Two push buttons choose the port, and a small OLED shows the uptime of the current session, a decorative ring, the selected port and, for a few seconds after a press, which button was pressed.

This project models the firmware's button-press state machine, the serial command sequence it sends, and the integer logic of the display refresh. It then proves what that logic promises.

- `decimal.dfy` (module `Decimal`) spells integers as `str(n)` and `'{:02d}'` do. It also reads such a spelling back, so the rendering can be shown to lose nothing.
- `display.dfy` (module `Display`) covers what `updateDisplay` computes:
  - the HH:MM:SS split of the uptime, with Python's floor division and modulo, and the `Uptime: HH:MM:SS` line;
  - the annulus test for the ring, and the nested `for x` / `for y` loops that light its pixels, as a method over a set of pixels;
  - the port label;
  - the visibility rule of the status line.
- `kvm_spec.dfy` (module `KvmSpec`) covers the press handler and the main-loop pass as functions over a snapshot of the module globals.
  - Every observable effect is one element of an ordered trace: a UART write, a sleep of so many seconds, or a redrawn frame.
  - `Writes`, `Delays` and `Frames` project the trace onto what went to the UART, how long the firmware slept, and what it drew.
- `kvm_runs.dfy` (module `KvmRuns`) covers runs of presses and main-loop passes, handled one after another. It proves what holds over a whole run.
- `kvm_device.dfy` (module `KvmDevice`) is the firmware itself.
  - Class `KvmController` has one field per module global, a field for what the OLED shows, and the trace.
  - Its methods do step by step what the Python functions do.
  - Each method is proved to agree with the functions of `KvmSpec`.

Time is the value of `time.time()`, passed in as `now`. Three points in the source are modelled as written:

- **The debounce unit.** `DEBOUNCE_TIME_MS = 1000` is compared against `time.time()`, which counts seconds on the board. A button is therefore ignored for 1000 seconds (about 16.7 minutes) after an accepted press, not for one second. The model treats `ticks_diff` as plain subtraction (see "## Left out").
- **Debounce against the last accepted press.** The window is measured from the last accepted press, not from the last edge. A chain of presses of one button each 600 apart has its first and third press accepted (`ChainOfClosePressesAcceptsTwice`). Only presses within the window of the first accepted one are all swallowed (`BurstSendsOneSequence`).
- **Inline dispatch.** There is no queue of pending requests. An accepted press sends open, `sw i0<port>` and close from inside the handler, sleeping 1, 2 and 1 seconds after them. No code handles a failed write: a write that raises (for example on a UART that failed to start and was left as `None`) ends the handler and skips the rest of the sequence. That path is not modelled (see "## Left out").

The ring is drawn only for 0 ≤ x, y < 64. Its leftmost column, x = −1, passes the annulus test but is never drawn (`RingClippedAtLeftEdge`).

## Model

| member | source | states |
|---|---|---|
| Decimal.DecimalDigits | main.py:124 | `str(n)` of a natural number is a non-empty string of digits, one digit exactly below 10, at most two exactly below 100, with a leading `0` only for 0 |
| Decimal.IntToString | main.py:124 | `str(n)`, as also interpolated into the port label, is non-empty; all digits for a non-negative integer, a `-` followed by digits for a negative one |
| Decimal.Format2 | main.py:81 | a `'{:02d}'` field is at least two characters: for a non-negative value all digits, exactly two below 100 (zero-padded); for a negative value a `-` followed by digits |
| Display.UptimeMessage | main.py:81 | the `Uptime: HH:MM:SS` line is at least 16 characters long |
| Decimal.IntToStringRoundTrip | main.py:124 | reading back `str(n)` of any integer, sign included, gives `n` |
| Decimal.DecimalDigitsRoundTrip | main.py:124 | reading back the decimal spelling `str(n)` of a natural number gives `n` |
| Decimal.IntToStringInjective | main.py:124 | different integers get different `str` spellings |
| Decimal.Format2RoundTrip | main.py:81 | reading back a `'{:02d}'` field gives the value it was made from |
| Display.UptimeFields | main.py:81 | no contract of its own: the split `s // 3600`, `s % 3600 // 60`, `s % 60`; its properties are stated by `UptimeFieldsSplit` and `UptimeFieldsUnique` |
| Display.UptimeFieldsSplit | main.py:81 | minutes and seconds of the split lie in 0..59; hours*3600 + minutes*60 + seconds is the uptime; hours are non-negative for a non-negative uptime |
| Display.UptimeFieldsUnique | main.py:81 | the split is the only one with minutes and seconds below 60 |
| Display.UptimeMessageRoundTrip | main.py:81 | the `Uptime: HH:MM:SS` line of a non-negative uptime parses back to exactly that uptime |
| Display.InRing | main.py:86 | no contract of its own: the annulus test `15^2 <= dx^2 + dy^2 <= 17^2` around (16, 33); its properties are stated by `RingBounds`, `RingSymmetric`, `RingClippedAtLeftEdge` and `DrawRing` |
| Display.RingBounds | main.py:84-87 | every pixel passing the annulus test lies within 17 of (16, 33) on both axes and is not the centre |
| Display.RingSymmetric | main.py:86 | the annulus test is symmetric under reflection through both axes and the diagonal through the centre |
| Display.RingClippedAtLeftEdge | main.py:84-87 | (−1, 33) passes the annulus test but is outside the drawn ring; the right, top and bottom extremes are drawn |
| Display.DrawRing | main.py:84-87 | the nested loops light exactly the pixels of the 64x64 area that pass the annulus test, and never the centre |
| Display.PortLabel | main.py:90 | no contract of its own: `KVM Port: ` followed by `str` of the port; `RefreshFrame` states the label a redraw shows |
| Display.StatusVisible | main.py:95 | no contract of its own: the press is flagged and less than 5 old; its properties are stated by `StatusHiddenLater` and `RefreshStatusRule` |
| Display.StatusHiddenLater | main.py:95 | a status message that is hidden at some time is hidden at every later time |
| KvmSpec.PortFor | main.py:112-117 | a button selects port 1 or 2 |
| KvmSpec.MessageFor | main.py:112-117 | no contract of its own: `Button 1 pressed` or `Button 2 pressed`; `AcceptedPressState` states that an accepted press leaves it as the status message |
| KvmSpec.Initial | main.py:29-36 | the initial globals satisfy the state invariant (both buttons have a record; the selected port is that of the last button) |
| KvmSpec.Boot | main.py:173 | stamping the session start keeps the state invariant and changes nothing but the start time |
| KvmSpec.Dispatch | main.py:123-125 | no contract of its own: open, switch and close effects for the port, in that order; `DispatchSequence` states what they write and sleep |
| KvmSpec.DispatchSequence | main.py:60-74 | open/switch/close writes exactly `open\r\n`, `sw i0<port>\r\n`, `close\r\n` in that order, sleeps 1, 2, 1 seconds, and draws nothing |
| KvmSpec.SwitchCommandForPorts | main.py:70-74 | the switch commands for ports 1 and 2 are `sw i01\r\n` and `sw i02\r\n` |
| KvmSpec.CommandsForPorts | main.py:60-74 | the full command sequences for ports 1 and 2, spelt out |
| KvmSpec.SwitchCommandInjective | main.py:73 | a switch command names one port only |
| KvmSpec.Refresh | main.py:76-100 | no contract of its own: the state and frame of one `updateDisplay` call; `RefreshStatusRule` states the status rule and `RefreshFrame` what the frame shows |
| KvmSpec.RefreshStatusRule | main.py:95-99 | the status line shows the message iff a press is flagged and less than 5 old; otherwise it is blank and the flag is cleared; nothing else changes |
| KvmSpec.RefreshFrame | main.py:76-100 | a redraw shows an uptime line that parses back to the uptime, exactly the in-area ring pixels, and `KVM Port: <selected port>` |
| KvmSpec.Tick | main.py:175-179 | a main-loop pass draws one frame holding the uptime `now - startTime`, the selected port and the message while a press is flagged and less than 5 old (blank otherwise); it keeps the flag exactly in that case and changes nothing else, writes nothing to the UART and sleeps one second |
| KvmSpec.Accept | main.py:110-121 | the global updates of an accepted press keep the state invariant |
| KvmSpec.Handle | main.py:104-125 | the press handler keeps the state invariant |
| KvmSpec.BouncedPressIgnored | main.py:106-108 | a press has no effect iff it comes within 1000 of its button's last accepted press; such a press changes no global |
| KvmSpec.AcceptedPressState | main.py:110-121 | an accepted press selects the button's port and message, records the press time for that button only, sets the flag and press time, makes the button the last pressed, and restarts the session only when the other button was pressed last |
| KvmSpec.AcceptedPressEffects | main.py:122-125 | an accepted press first draws one frame with its message, its port and the session uptime, then writes `open`, `sw i01`/`sw i02`, `close` with sleeps 1, 2, 1 |
| KvmSpec.AcceptedHandle | main.py:118-125 | after an accepted press the globals are exactly the recorded press (the fresh message keeps the flag set) and the UART receives the port's command sequence |
| KvmSpec.SessionStartOnlyOnSwitch | main.py:110-111 | the session start moves only on an accepted press of the button not pressed last, and then to the press time |
| KvmSpec.DebounceRecordMonotone | main.py:106-118 | no button's record moves backwards; the pressed button's record moves only to the press time, at least 1000 later |
| KvmSpec.SelectedPortInRange | main.py:112-117 | in every reachable state the selected port is 1 or 2 |
| KvmRuns.Run | main.py:170-179 | any interleaving of presses and main-loop passes keeps the state invariant |
| KvmRuns.StepWrites | main.py:104-125 | one event writes either nothing, leaving the port, or the full command sequence for the newly selected port |
| KvmRuns.LastCommandsNameSelectedPort | main.py:114-125 | over any run, the last three UART writes are the command sequence for the finally selected port; a run that writes nothing leaves the port alone |
| KvmRuns.BouncedRunIgnored | main.py:106-108 | presses of one button, all within its debounce window, change nothing and write nothing |
| KvmRuns.BurstSendsOneSequence | main.py:106-125 | an accepted press followed by presses of the same button within its window sends exactly one command sequence and leaves the globals as the first press did |
| KvmRuns.SpacedPressesAllAccepted | main.py:106-125 | presses of one button each at least 1000 after the previous are every one accepted: n presses write n command sequences |
| KvmRuns.SessionKeptOnRepeats | main.py:110-111 | repeated presses of the last-pressed button, interleaved with loop passes, never move the session start |
| KvmRuns.HiddenStatusStaysHidden | main.py:95-99 | once the press flag is cleared, it stays cleared until the next accepted press: main-loop passes and bounced presses keep it cleared and keep the debounce records, write nothing and draw only blank status lines |
| KvmRuns.WorkedRun | main.py:104-125 | button one at t accepted, again at t+500 ignored, button two at t+502 accepted: six writes naming ports 1 then 2, port 2 selected, session restarted at t+502 |
| KvmRuns.ChainOfClosePressesAcceptsTwice | main.py:107-118 | presses of one button at t, t+600 and t+1200 send two command sequences |
| KvmDevice.KvmController.constructor | main.py:29-36 | the fields start as the module globals do; nothing written or drawn |
| KvmDevice.KvmController.Boot | main.py:173 | stamps the session start and changes nothing else |
| KvmDevice.KvmController.OpenKvm | main.py:60-63 | appends the open write and a one-second sleep |
| KvmDevice.KvmController.SwitchKvm | main.py:70-74 | appends the `sw i0<port>` write and a two-second sleep |
| KvmDevice.KvmController.CloseKvm | main.py:65-68 | appends the close write and a one-second sleep |
| KvmDevice.KvmController.UpdateDisplay | main.py:76-100 | clears the flag and draws as `Refresh` says; the OLED holds the uptime line, the ring the loops drew, the port label and the status line |
| KvmDevice.KvmController.RecordPress | main.py:110-121 | the field assignments of an accepted press are exactly `Accept` |
| KvmDevice.KvmController.HandleButton | main.py:104-125 | the handler's new globals and appended trace are exactly those of `Handle`; a bounced press leaves the display alone, and after an accepted press the OLED shows the rendering of the frame the handler drew |
| KvmDevice.KvmController.MainLoopStep | main.py:175-179 | a loop pass computes the uptime since the session start, redraws and sleeps one second, exactly as `Tick` says; the OLED then shows the rendering of the frame it drew |

## Left out

- Wi-Fi connection, retry loop and teardown (main.py:39, 44-58, 153-159): network I/O with a wall-clock timeout.
- Hardware bring-up of pins, timer, I2C and UART, and the I2C bus-scan loop (main.py:24-27, 127-151): platform calls that wait on hardware.
- The LED heartbeat timer (main.py:41-42, 164): a hardware toggle with no logic.
- The OLED primitives (`fill`, `text`, `hline`, `vline`, `pixel`, `show`) and the static labels and frame lines. A frame records only the uptime line, the ring, the port label and the status line.
- Interrupt-versus-main-loop concurrency (main.py:170-171, 175-179). Presses and loop passes are interleaved one after another, and races are not modelled.
- Real sleeping. `time.sleep` is recorded as a delay in the trace; the clock does not advance during a sleep.
- The `print` logging and the `try`/`except` handlers (main.py:101-102, 181-186). A display or UART that failed to initialise would raise inside `updateDisplay` or `handleButton`, and that path is not modelled. In particular, a failed redraw that would leave the press flag set is not modelled.
- A UART write that raises (main.py:62, 67, 73, for instance when `initialize_uart` left `uart` as `None` at main.py:150-151) ends `handleButton` mid-sequence, so the later commands are never sent. The model has every write succeed.
- KvmSpec.Handle: `handleButton` reads the clock twice (main.py:106, 111) and `updateDisplay` reads it again (main.py:95). The model uses one clock value `now` for the whole handler call.
- KvmSpec.Tick: the main loop reads the clock for the uptime (main.py:176) and `updateDisplay` reads it again for the status test (main.py:95). The model uses one clock value `now` for the whole pass.
- KvmSpec.BouncedPressIgnored: `ticks_diff` wrap-around is not modelled; the difference is plain integer subtraction.
- KvmSpec.Tick: `int(currentTime - startTime)` (main.py:177) is the identity on the board's integer clock. A fractional clock is not modelled.
- KvmSpec.RefreshFrame: the round trip of the uptime line is stated for non-negative uptimes only. A clock that steps back before the session start gives a negative hour field with a minus sign, which the reader rejects.
