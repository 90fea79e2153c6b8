# Gas control: Bronkhorst valve logic and the gas request server

This project models, in Dafny, the core of a laboratory gas-control program
made of two parts.

**The Bronkhorst window** (`flowControl.py`) drives a Bronkhorst pressure
controller over the propar protocol. The model covers:

- **Valve state.** The window keeps the valve state in one attribute,
  `closed`, which takes three Python values:
  - `True`: the valve is closed, mode register 12 = 3;
  - `False`: setpoint control, mode 0;
  - `"Forced Open"`: mode 8.

  The model keeps those three values as Python values (`PyValue`), so the
  source's `if not self.closed` and `self.closed == False` are modelled with
  Python's truthiness and equality.
- **The open, close and force-open buttons.** Each writes the mode register
  and updates the state.
- **The setpoint box.** `setPoint` converts an absolute setpoint into a
  percentage of the capacity read from register 21. It clamps the percentage
  to [0, 100], moves the dial, writes `int(percentage * 32000 / 100)` to
  register 9, and re-engages control (mode 0) only in the `False` state.
  Moving the dial to a new position emits Qt's `valueChanged`, so
  `dialMoved` runs first and writes the dial's whole-number setpoint. The
  exact setpoint written after it is what remains in the register.
- **The dial.** `dialMoved` writes 320 times the dial value and re-engages
  control in the same way.
- **The display.** `aff` shows a measurement as an absolute value when the
  capacity is known, and shows the percentage, "Valve closed" or
  "FORCED OPEN" depending on the state.
- **The polling thread.** `THREADFlow.run` reads register 8, emits it as a
  percentage, then reads register 55 and emits it as a valve opening
  normalised by 61.5 %. A missing pressure reading raises inside the `try`
  block, so the cycle emits nothing and never reads register 55.
- **Shutdown.** `closeEvent` stops the polling thread, closes the valve and
  stops the transport, in that order.

Every register write and lifecycle step is recorded in one trace of `Event`s.
A register's value is its last write in the trace (`LastWrite`).

**The gas server** (`gasServer.py`) is a ZeroMQ request/reply server that
publishes a dictionary. The model covers:

- **`addressForClient`.** It splits the bind address on `"://"` and then on
  `":"`, and replaces a wildcard host `*` by the configured host. A
  malformed address raises the `ValueError` of a failed tuple unpacking,
  which the model returns as a `Failure`. Python's `str.split` is modelled
  exactly in module `Strings`: leftmost, non-overlapping cuts, with `Join`
  as its inverse.
- **The keyword dispatch of `run`.** The keywords are `__STOP__`,
  `__GET__`, `__NAME__`, `__DEVICE__`, `__FREEDOM__` and `__PING__`; any
  other message gets "unable to understand the demande". The loop answers
  every message up to and including the first `__STOP__`; after it the
  server has stopped and answers nothing more.
- **`setData` and the constructor's `data or {}` default.**

Module layout:

- `optional.dfy`: `Option` and `Result`.
- `propar.dfy`: register numbers and the numeric conversions.
- `strings.dfy`: `str.split` and `str.join`.
- `flow_control.dfy`: the window, the valve state, the display and the
  polling thread.
- `gas_server.dfy`: the server.

Constants and conversions are taken from the code as written:

- The valve-output span is 61.5 (flowControl.py:472).
- Conversions to raw register values truncate with `int()`; they do not
  round.
- The docstring of `run` (gasServer.py:117) says `__DEVICE__` answers
  "diagnostics", but the code sends `__GAS__`; the model sends `__GAS__`.

## Model

| member | source | states |
|---|---|---|
| Propar.Trunc | flowControl.py:373 | Python `int()` on a float truncates toward zero: the result is within 1 of x, at or below x for x >= 0 and at or above x for x < 0 |
| Propar.ClampPercent | flowControl.py:368 | `max(0, min(100, p))` lies in [0, 100], is p inside that range, 0 below it and 100 above it |
| Propar.PercentToRaw | flowControl.py:373 | `int(pct * 32000 / 100)` lies in [0, 32000] for a percentage in [0, 100], and for pct >= 0 it is the largest integer at or below pct * 320 |
| Propar.MeasuredPercent | flowControl.py:463 | `reading * 100 / 32000` is the reading divided by 320, and a reading in [0, 32000] gives a percentage in [0, 100] |
| Propar.AbsoluteValue | flowControl.py:386-387 | `(percentage / 100) * capacity` is pct * capacity / 100 and lies in [0, capacity] for a percentage in [0, 100] |
| Propar.SetpointPercent | flowControl.py:363-368 | the clamped percentage of an absolute setpoint lies in [0, 100], is exactly absolute * 100 / capacity inside [0, capacity], is 0 at or below 0 and 100 at or above capacity |
| Propar.SetpointRaw | flowControl.py:363-374 | the value setPoint writes to register 9 always lies in [0, 32000] |
| Propar.ValvePercent | flowControl.py:471-473 | `100 * (100 / 61.5) * (v / 16777215)` times 61.5 * 16777215 equals 10000 * v |
| Propar.RawRoundTrip | flowControl.py:373 | a raw reading in [0, 32000], shown as a percentage and written back, gives the same raw value |
| Propar.PercentRoundTrip | flowControl.py:373 | a percentage written and read back loses less than 1/320 % and is never rounded up |
| Propar.SetpointRoundTrip | flowControl.py:363-374 | an absolute setpoint in [0, capacity], written and read back as the absolute value aff shows, is at most the setpoint and more than setpoint - capacity / 32000 |
| Propar.SetpointRawMonotone | flowControl.py:363-374 | a larger absolute setpoint never writes a smaller register value |
| Propar.SetpointRawSaturates | flowControl.py:368-374 | setpoints at or below 0 write 0; setpoints at or above capacity write 32000 |
| Propar.DialRawExact | flowControl.py:394 | for a whole-number dial value p, `int(p * 32000 / 100)` is exactly 320 * p, for either sign of p |
| Propar.ValvePercentRange | flowControl.py:467-473 | the valve percentage is 0 at 0, rises with the raw value, and reaches 10000 / 61.5 at 16777215 |
| Strings.Split | gasServer.py:93-94 | `str.split(sep)` always returns at least one piece |
| Strings.JoinSplit | gasServer.py:93-94 | joining the pieces of a split with the separator gives back the string |
| Strings.SplitHeadIsPrefix | gasServer.py:93 | the first piece of a split is a prefix of the string |
| Strings.SplitPiecesAreFree | gasServer.py:93-94 | no piece of a split contains the separator |
| Strings.SplitFree | gasServer.py:93-94 | a string without the separator splits into itself alone |
| Strings.SplitFirstCut | gasServer.py:93-94 | p + sep + r with no occurrence of sep starting inside p splits as p followed by the pieces of r |
| Strings.SplitCharCount | gasServer.py:94 | splitting on a one-character separator gives one piece more than the character's occurrences |
| FlowControl.Truthy | flowControl.py:377 | Python truthiness of the valve state: among the three states, `not self.closed` holds exactly for `False`, and a string is true exactly when it is non-empty |
| FlowControl.Reengage | flowControl.py:377-378 | `if not self.closed: writeParameter(12, 0)` writes nothing or mode 0, and for a valve state it writes exactly in the `False` state |
| FlowControl.DialWrites | flowControl.py:393-399 | dialMoved writes one or two values, the first being 320 times the dial value to register 9 (register contents after it: DialWritesValue, SetPointRegisters) |
| FlowControl.SetpointDial | flowControl.py:368-370 | the dial position setPoint sets, `int(percentage)`, lies in [0, 100] |
| FlowControl.SetPointWrites | flowControl.py:363-380 | setPoint writes nothing exactly when the capacity is at or below 0, and at most four values: the dial cascade of :370, the setpoint, the re-engage (register contents after it: SetPointRegisters) |
| FlowControl.SetPointWritesBounded | flowControl.py:359-380 | with capacity at or below 0 setPoint writes nothing; otherwise it writes only register 9 with values in [0, 32000], plus mode 0 and only in the `False` state |
| FlowControl.SetPointRegisters | flowControl.py:359-380 | after setPoint, register 9 holds the converted clamped setpoint, even after the dial's own write; the mode register becomes 0 in the `False` state and is unchanged otherwise |
| FlowControl.SetPointTrace | flowControl.py:359-380 | the writes setPoint makes step by step are exactly SetPointWrites, and after them the mode register still holds the command for the valve state |
| FlowControl.SetPointWhileClosed | flowControl.py:359-380 | setpoint 50 on a 100-unit instrument with the valve closed leaves 16000 in register 9 and the mode register as it was |
| FlowControl.DialWritesValue | flowControl.py:382-399 | dialMoved writes 320 * p to register 9 whatever the capacity, in [0, 32000] for p in [0, 100], then mode 0 only in the `False` state |
| FlowControl.Aff | flowControl.py:412-430 | the absolute box is updated if and only if capacity > 0, with m * capacity / 100; the measure shows the percentage if and only if the state is `False`, "Valve closed" for `True` and "FORCED OPEN" for "Forced Open" |
| FlowControl.AffOfReading | flowControl.py:412-430 | a reading in [0, 32000] is shown as an absolute value in [0, capacity] and as a percentage in [0, 100] |
| FlowControl.PollCycle | flowControl.py:461-476 | a cycle emits nothing if and only if register 8 gives no answer, in which case register 55 is never read; otherwise it emits the measurement first, and the valve output second if and only if register 55 answered |
| FlowControl.CycleMeasCount | flowControl.py:461-476 | a cycle emits one measurement if register 8 answered and none otherwise |
| FlowControl.Emissions | flowControl.py:459-479 | a run of cycles emits at most two values per cycle, and nothing exactly when no register-8 read answered |
| FlowControl.OneMeasPerAnsweredCycle | flowControl.py:459-479 | over a run, the number of measurements emitted equals the number of cycles whose register-8 read answered |
| FlowControl.MeasInRange | flowControl.py:463-464 | readings in [0, 32000] are emitted as percentages in [0, 100] |
| FlowControl.FlowThread.constructor | flowControl.py:453-457 | a new polling thread is not stopped |
| FlowControl.FlowThread.StopThread | flowControl.py:481-482 | stopThread sets the stop flag |
| FlowControl.FlowThread.Run | flowControl.py:459-479 | the loop emits, in order, the emissions of every cycle it runs, and nothing once the stop flag is set |
| FlowControl.Bronkhost.constructor | flowControl.py:107-156 | startup writes mode 3 (closed) before polling starts, sets the state to `True`, and keeps the capacity at 0.0 unless register 21 answers; the invariant (valve state valid, mode register matching it) holds |
| FlowControl.Bronkhost.Open | flowControl.py:336-344 | open writes mode 0 and sets the state to `False`, keeping the invariant |
| FlowControl.Bronkhost.Close | flowControl.py:346-357 | close writes mode 3 and sets the state to `True`, keeping the invariant |
| FlowControl.Bronkhost.ForceOpen | flowControl.py:326-334 | force_open writes mode 8 and sets the state to "Forced Open", keeping the invariant |
| FlowControl.Bronkhost.DialMoved | flowControl.py:382-399 | dialMoved appends the dial's setpoint write and the state's re-engage write, keeping the invariant |
| FlowControl.Bronkhost.SetPoint | flowControl.py:359-380 | setPoint appends exactly SetPointWrites (the dial cascade when the dial moves, then the setpoint and the re-engage) and moves the dial to `int(percentage)` when the capacity is known, keeping the invariant |
| FlowControl.Bronkhost.CloseEvent | flowControl.py:432-445 | closeEvent stops the polling thread, then writes mode 3, then stops the transport, in that order |
| GasServer.AddressForClient | gasServer.py:87-100 | a successful result comes from an address proto://host:port with well-formed pieces, and keeps proto and port while replacing only a wildcard host |
| GasServer.FormatAddress | gasServer.py:100 | `f"{proto}://{host}:{port}"` is four characters longer than its three parts (the round trip through AddressForClient: AddressOfWellFormed, DecomposeAddress) |
| GasServer.ClientHost | gasServer.py:96-97 | the client host is the address's host or the configured one, is the address's host whenever that is not `*`, and is `*` only when the configured host is |
| GasServer.AddressOfWellFormed | gasServer.py:87-100 | every well-formed proto://host:port is accepted, with the host replaced exactly when it is `*` |
| GasServer.DefaultAddressWellFormed | gasServer.py:13-14 | the default address tcp://*:1110 is well formed with the wildcard host, so with the default host clients are told tcp://localhost:1110 |
| GasServer.DefaultClient | gasServer.py:13-14 | with the default address and host, clients are told tcp://localhost:1110 |
| GasServer.WildcardReplaced | gasServer.py:96-100 | proto://*:port is given to clients as proto://host:port |
| GasServer.SpecificHostUnchanged | gasServer.py:96-100 | a well-formed address `proto://h:port` whose host `h` is not `*` is returned unchanged, whatever host the client passes |
| GasServer.NoSchemeIsError | gasServer.py:93 | an address without "://" fails at the first unpacking, with one piece |
| GasServer.ColonCountIsError | gasServer.py:94 | proto://rest whose rest has zero or several ':' fails at the second unpacking, with one piece more than the colons |
| GasServer.Dispatch | gasServer.py:130-153 | the loop stops if and only if the message is `__STOP__`; each keyword gets its reply (`__GET__` the encoded dictionary, `__NAME__` the name), and any other message gets "unable to understand the demande" |
| GasServer.RepliesAnswerEach | gasServer.py:122-153 | the i-th reply is the dispatch reply to the i-th message, and there are never more replies than messages |
| GasServer.Replies | gasServer.py:122-153 | the loop never sends more replies than it receives messages (each reply and where they end: RepliesAnswerEach, RepliesEndAtStop) |
| GasServer.RepliesEndAtStop | gasServer.py:130-133 | no message before the last one answered is `__STOP__`; if messages remain unanswered, the last answered one was `__STOP__`; without `__STOP__` every message is answered |
| GasServer.Server.constructor | gasServer.py:47-50 | the server keeps its address, host and name, publishes the given dictionary or `{}` when none is given, and has not stopped |
| GasServer.Server.SetData | gasServer.py:102-106 | setData replaces the published dictionary |
| GasServer.Server.Serve | gasServer.py:108-164 | the receive loop sends exactly Replies: one dispatch reply per message, up to and including the first `__STOP__`; the server is stopped afterwards exactly when a `__STOP__` arrived, and a stopped server answers nothing |

## Left out

- The Qt user interface: widgets, style sheets, window titles, icons, the
  "Raw:" labels, the `absolute_measure` text set by close, and the setpoint
  box's own range and decimals. Only the dial position is kept, because it
  decides whether setPoint triggers dialMoved. The dial widget's range is
  assumed to contain 0..100.
- PlotWindow, `show_plot_window`, `update_plot`, the DEBUG_MEAS signal,
  `run_parameter_check`, `read_pid_parameters` and `set_pid_parameters`:
  display and diagnostics outside the valve and setpoint logic.
- `read_device_info`: only the capacity guard is modelled. The capacity stays
  0.0 when register 21 gives no answer, and also when register 21 answers but
  the register-129 read or `float()` raises (flowControl.py:244-249, 269-270);
  the model expresses both by passing `None` to the constructor. The unit from
  register 129 is only displayed.
- The constructor's connection-failure path: it shows an error box and
  returns before any register write; the `self.close` it schedules is the
  valve-close handler (flowControl.py:346), and the event loop is never
  started in that case (flowControl.py:503-505). The model starts from a
  connected instrument, so closeEvent's `hasattr(self, 'instrument')` check
  is always true.
- Threading and timing: the sleeps, the race between stopThread and a cycle
  already under way, and the Qt signal delivery between threads. The polling
  loop is given the answers of the cycles it runs as a parameter.
- The propar and ZeroMQ transports, socket polling with its timeout, and the
  `ContextTerminated` exit. The server loop is given the messages it receives
  as a parameter.
- `json.dumps` is a parameter `dumps` of the dispatch; JSON encoding is not
  modelled.
- Floating point: Python floats are modelled as exact reals, so rounding of
  the float operations before `int()` truncates is not captured.
- `GasServer.stop`, the socket and context teardown, and the `_running`
  event: they involve a second client and threads.
- `debug_bronkhorst.py`, `help_window.py`, `admin_window.py` and
  `qt_logging_bridge.py` are not part of this model.
- A dictionary `json.dumps` cannot encode: `__GET__` then raises `TypeError`
  (gasServer.py:137). The loop's handler catches only `ContextTerminated`
  (:158), so the thread ends without a reply and without closing the socket.
  The model's `dumps` is total and its dictionary holds only JSON values.
- Aliasing of the published dictionary: `setData` (:106) and `data or {}`
  (:50) keep a reference to the caller's dict, so later in-place changes by
  the caller show in the next `__GET__`. The model's `Data` is a value.
