/** The Bronkhorst controller window: the valve state it keeps, the register
    writes its buttons, setpoint box and dial send, the text it displays for
    a measurement, the polling thread's cycle, and the shutdown order. */
module FlowControl {
  import opened Optional
  import opened Propar

  // ---------------------------------------------------------------------
  // Valve state

  /** The Python values the valve state takes: a bool or a string. */
  datatype PyValue = PyBool(b: bool) | PyStr(s: string)

  /** Python truthiness; `not v` is `!Truthy(v)`. */
  predicate Truthy(v: PyValue)
    ensures IsValveState(v) ==> (Truthy(v) <==> v != CONTROL)
    ensures v.PyStr? ==> (Truthy(v) <==> v.s != "")
  {
    match v
    case PyBool(b) => b
    case PyStr(s) => s != []
  }

  /** closed = True: the valve-closed command is in force. */
  const CLOSED: PyValue := PyBool(true)
  /** closed = False: setpoint (PID) control. */
  const CONTROL: PyValue := PyBool(false)
  /** closed = "Forced Open": the valve is forced fully open. */
  const FORCED_OPEN: PyValue := PyStr("Forced Open")

  predicate IsValveState(v: PyValue)
  {
    v == CLOSED || v == CONTROL || v == FORCED_OPEN
  }

  /** The mode-register value that commands a valve state. */
  function ModeOf(v: PyValue): int
    requires IsValveState(v)
  {
    if v == CONTROL then MODE_CONTROL
    else if v == CLOSED then MODE_CLOSED
    else MODE_FORCE_OPEN
  }

  // ---------------------------------------------------------------------
  // What the window does to the instrument, in order

  datatype Event =
    | Write(param: int, value: int)  // writeParameter(param, value)
    | PollingStarted                 // threadFlow.start()
    | PollingStopped                 // threadFlow.stopThread()
    | TransportStopped               // instrument.master.propar.stop()

  /** The value a register holds after a trace: its last write, if any. */
  function LastWrite(trace: seq<Event>, param: int): (r: Option<int>)
    ensures r.Some? ==> Write(param, r.value) in trace
    ensures r.None? ==> forall e :: e in trace ==> !(e.Write? && e.param == param)
  {
    if trace == [] then None
    else
      var e := trace[|trace| - 1];
      if e.Write? && e.param == param then Some(e.value)
      else LastWrite(trace[..|trace| - 1], param)
  }

  /** A register's value after t + u is its last write in u, or else its
      value after t. */
  lemma {:induction false} LastWriteAppend(t: seq<Event>, u: seq<Event>, param: int)
    ensures LastWrite(t + u, param)
         == if LastWrite(u, param).Some? then LastWrite(u, param) else LastWrite(t, param)
    decreases |u|
  {
    if u != [] {
      var u' := u[..|u| - 1];
      assert (t + u)[..|t + u| - 1] == t + u';
      LastWriteAppend(t, u', param);
    } else {
      assert t + u == t;
    }
  }

  /** `if not self.closed: writeParameter(12, 0)`: control is re-engaged
      after a setpoint change only in the False state. */
  function Reengage(closed: PyValue): (w: seq<Event>)
    ensures w == [] || w == [Write(MODE, MODE_CONTROL)]
    ensures IsValveState(closed) ==> (w != [] <==> closed == CONTROL)
  {
    if !Truthy(closed) then [Write(MODE, MODE_CONTROL)] else []
  }

  /** What dialMoved writes for the dial value p. */
  function DialWrites(p: int, closed: PyValue): (w: seq<Event>)
    ensures 1 <= |w| <= 2
    ensures w[0] == Write(SETPOINT, 320 * p)
  {
    DialRawExact(p);
    [Write(SETPOINT, PercentToRaw(p as real))] + Reengage(closed)
  }

  /** The dial position setPoint moves the dial to: int(percentage). */
  function SetpointDial(absolute: real, capacity: real): (d: int)
    requires 0.0 < capacity
    ensures 0 <= d <= 100
  {
    Trunc(SetpointPercent(absolute, capacity))
  }

  /** What setPoint writes for an absolute setpoint. Moving the dial to a new
      position emits valueChanged, which runs dialMoved first. */
  function SetPointWrites(absolute: real, capacity: real, closed: PyValue, dial: int): (w: seq<Event>)
    ensures w == [] <==> capacity <= 0.0
    ensures |w| <= 4
  {
    if capacity <= 0.0 then []
    else
      var d := SetpointDial(absolute, capacity);
      (if d != dial then DialWrites(d, closed) else [])
      + [Write(SETPOINT, SetpointRaw(absolute, capacity))]
      + Reengage(closed)
  }

  /** setPoint writes only to the setpoint register, with values in
      [0, 32000] whatever the absolute setpoint, and to the mode register only
      to re-engage control in the False state. */
  lemma SetPointWritesBounded(absolute: real, capacity: real, closed: PyValue, dial: int)
    requires IsValveState(closed)
    ensures capacity <= 0.0 ==> SetPointWrites(absolute, capacity, closed, dial) == []
    ensures forall e :: e in SetPointWrites(absolute, capacity, closed, dial) ==>
      || (e.Write? && e.param == SETPOINT && 0 <= e.value <= FULL_SCALE)
      || (e == Write(MODE, MODE_CONTROL) && closed == CONTROL)
  {
    if 0.0 < capacity {
      var d := SetpointDial(absolute, capacity);
      DialRawExact(d);
    }
  }

  /** After setPoint with a known capacity the setpoint register holds the
      clamped conversion of the absolute setpoint, and the mode register
      changes only in the False state, to control. */
  lemma SetPointRegisters(t: seq<Event>, absolute: real, capacity: real, closed: PyValue, dial: int)
    requires IsValveState(closed)
    requires 0.0 < capacity
    ensures var t' := t + SetPointWrites(absolute, capacity, closed, dial);
      && LastWrite(t', SETPOINT) == Some(SetpointRaw(absolute, capacity))
      && LastWrite(t', MODE) == if closed == CONTROL then Some(MODE_CONTROL) else LastWrite(t, MODE)
  {
    var d := SetpointDial(absolute, capacity);
    var pre := if d != dial then DialWrites(d, closed) else [];
    var w := [Write(SETPOINT, SetpointRaw(absolute, capacity))];
    var r := Reengage(closed);
    assert SetPointWrites(absolute, capacity, closed, dial) == pre + w + r;
    assert t + (pre + w + r) == (t + pre) + (w + r);
    LastWriteAppend(t + pre, w + r, SETPOINT);
    LastWriteAppend(t + pre, w + r, MODE);
    LastWriteAppend(w, r, SETPOINT);
    LastWriteAppend(w, r, MODE);
    LastWriteAppend(t, pre, MODE);
    if d != dial {
      LastWriteAppend([Write(SETPOINT, PercentToRaw(d as real))], r, MODE);
    }
  }

  /** A setpoint of 50 on a 100-unit instrument while the valve is closed
      sets the setpoint register to 16000 and leaves the mode register as it
      was. */
  lemma SetPointWhileClosed(t: seq<Event>, dial: int)
    ensures var t' := t + SetPointWrites(50.0, 100.0, CLOSED, dial);
      LastWrite(t', SETPOINT) == Some(16000) && LastWrite(t', MODE) == LastWrite(t, MODE)
  {
    SetPointRegisters(t, 50.0, 100.0, CLOSED, dial);
    assert SetpointPercent(50.0, 100.0) == 50.0;
  }

  /** dialMoved writes 320 times the dial value whatever the capacity, in
      [0, 32000] for a dial in [0, 100], and re-engages control only in the
      False state. */
  lemma DialWritesValue(p: int, closed: PyValue)
    requires IsValveState(closed)
    ensures DialWrites(p, closed)[0] == Write(SETPOINT, 320 * p)
    ensures 0 <= p <= 100 ==> 0 <= 320 * p <= FULL_SCALE
    ensures DialWrites(p, closed)[1..] == (if closed == CONTROL then [Write(MODE, MODE_CONTROL)] else [])
  {
    DialRawExact(p);
  }

  /** The trace setPoint leaves, written step by step, is the trace before it
      followed by SetPointWrites, and the mode register still holds the
      command for the valve state. */
  lemma SetPointTrace(t: seq<Event>, t': seq<Event>, absolute: real, capacity: real, closed: PyValue, dial: int)
    requires IsValveState(closed) && 0.0 < capacity
    requires LastWrite(t, MODE) == Some(ModeOf(closed))
    requires var d := SetpointDial(absolute, capacity);
      t' == t + (if d != dial then DialWrites(d, closed) else []) + [Write(SETPOINT, SetpointRaw(absolute, capacity))]
        + Reengage(closed)
    ensures t' == t + SetPointWrites(absolute, capacity, closed, dial)
    ensures LastWrite(t', MODE) == Some(ModeOf(closed))
  {
    var d := SetpointDial(absolute, capacity);
    var cascade := if d != dial then DialWrites(d, closed) else [];
    var w := [Write(SETPOINT, SetpointRaw(absolute, capacity))];
    assert t + cascade + w + Reengage(closed) == t + (cascade + w + Reengage(closed));
    SetPointRegisters(t, absolute, capacity, closed, dial);
  }

  // ---------------------------------------------------------------------
  // Display

  datatype Shown = Percent(pct: real) | Label(text: string)

  /** What aff puts in the absolute-value box (when it updates it) and in the
      measure box (None: left as it was). */
  datatype Display = Display(absolute: Option<real>, measure: Option<Shown>)

  /** aff(M) for a measurement M in percent. */
  function Aff(closed: PyValue, capacity: real, m: real): (d: Display)
    ensures d.absolute.Some? <==> 0.0 < capacity
    ensures d.absolute.Some? ==> d.absolute.value * 100.0 == m * capacity
    ensures IsValveState(closed) ==> d.measure.Some?
    ensures d.measure == Some(Percent(m)) <==> closed == CONTROL
    ensures closed == CLOSED ==> d.measure == Some(Label("Valve closed"))
    ensures closed == FORCED_OPEN ==> d.measure == Some(Label("FORCED OPEN"))
  {
    var absolute := if 0.0 < capacity then Some(AbsoluteValue(m, capacity)) else None;
    var measure :=
      if closed == PyBool(false) then Some(Percent(m))
      else if closed == PyBool(true) then Some(Label("Valve closed"))
      else if closed == PyStr("Forced Open") then Some(Label("FORCED OPEN"))
      else None;
    Display(absolute, measure)
  }

  /** A reading inside [0, 32000] is shown as an absolute value inside
      [0, capacity], and in the False state as a percentage inside [0, 100]. */
  lemma AffOfReading(closed: PyValue, capacity: real, raw: int)
    requires 0 <= raw <= FULL_SCALE
    ensures var d := Aff(closed, capacity, MeasuredPercent(raw));
      && (d.absolute.Some? ==> 0.0 <= d.absolute.value <= capacity)
      && (d.measure.Some? && d.measure.value.Percent? ==> 0.0 <= d.measure.value.pct <= 100.0)
  {
    var m := MeasuredPercent(raw);
    if 0.0 < capacity {
      assert Aff(closed, capacity, m).absolute == Some(AbsoluteValue(m, capacity));
    }
  }

  // ---------------------------------------------------------------------
  // Polling

  /** What one cycle's reads of register 8 and register 55 answer. */
  datatype Answers = Answers(pressure: Option<int>, valve: Option<int>)

  /** MEAS and VALVE1_MEAS emissions. */
  datatype Emission = Meas(pct: real) | Valve1(pct: real)

  /** The registers one cycle reads and the values it emits. */
  datatype Cycle = Cycle(registers: seq<int>, emitted: seq<Emission>)

  /** One iteration of the polling loop. A missing pressure makes the
      multiplication raise; the handler swallows it before register 55 is
      read. */
  function PollCycle(a: Answers): (c: Cycle)
    ensures c.emitted == [] <==> a.pressure.None?
    ensures c.registers == if a.pressure.None? then [MEASURE] else [MEASURE, VALVE_OUTPUT]
    ensures a.pressure.Some? ==> c.emitted[0] == Meas(MeasuredPercent(a.pressure.value))
    ensures |c.emitted| == 2 <==> a.pressure.Some? && a.valve.Some?
    ensures |c.emitted| <= 2
    ensures |c.emitted| == 2 ==> c.emitted[1] == Valve1(ValvePercent(a.valve.value))
  {
    match a.pressure
    case None => Cycle([MEASURE], [])
    case Some(reading) =>
      var meas := [Meas(MeasuredPercent(reading))];
      match a.valve
      case None => Cycle([MEASURE, VALVE_OUTPUT], meas)
      case Some(v) => Cycle([MEASURE, VALVE_OUTPUT], meas + [Valve1(ValvePercent(v))])
  }

  /** Everything emitted over a run of cycles, in order. */
  function Emissions(cycles: seq<Answers>): (e: seq<Emission>)
    ensures |e| <= 2 * |cycles|
    ensures e == [] <==> forall i :: 0 <= i < |cycles| ==> cycles[i].pressure.None?
  {
    if cycles == [] then []
    else Emissions(cycles[..|cycles| - 1]) + PollCycle(cycles[|cycles| - 1]).emitted
  }

  function CountMeas(es: seq<Emission>): nat
  {
    if es == [] then 0 else CountMeas(es[..|es| - 1]) + (if es[|es| - 1].Meas? then 1 else 0)
  }

  function CountAnswered(cycles: seq<Answers>): nat
  {
    if cycles == [] then 0
    else CountAnswered(cycles[..|cycles| - 1]) + (if cycles[|cycles| - 1].pressure.Some? then 1 else 0)
  }

  lemma {:induction false} CountMeasAppend(a: seq<Emission>, b: seq<Emission>)
    ensures CountMeas(a + b) == CountMeas(a) + CountMeas(b)
    decreases |b|
  {
    if b == [] {
      assert a + b == a;
    } else {
      assert (a + b)[..|a + b| - 1] == a + b[..|b| - 1];
      CountMeasAppend(a, b[..|b| - 1]);
    }
  }

  /** A cycle emits one measurement if its pressure read answered, none
      otherwise. */
  lemma CycleMeasCount(a: Answers)
    ensures CountMeas(PollCycle(a).emitted) == if a.pressure.Some? then 1 else 0
  {
    var es := PollCycle(a).emitted;
    if |es| == 2 {
      assert es[..1] == [es[0]] && es[..1][..0] == [];
      assert CountMeas(es) == CountMeas(es[..1]);
      assert CountMeas(es[..1]) == 1;
    } else if |es| == 1 {
      assert es[..0] == [];
    }
  }

  /** Exactly one measurement is emitted per cycle whose pressure read
      answered. */
  lemma {:induction false} OneMeasPerAnsweredCycle(cycles: seq<Answers>)
    ensures CountMeas(Emissions(cycles)) == CountAnswered(cycles)
    decreases |cycles|
  {
    if cycles != [] {
      var init, last := cycles[..|cycles| - 1], cycles[|cycles| - 1];
      OneMeasPerAnsweredCycle(init);
      CountMeasAppend(Emissions(init), PollCycle(last).emitted);
      CycleMeasCount(last);
    }
  }

  /** Readings inside [0, 32000] are emitted as percentages inside [0, 100]. */
  lemma {:induction false} MeasInRange(cycles: seq<Answers>)
    requires forall i :: 0 <= i < |cycles| && cycles[i].pressure.Some? ==>
      0 <= cycles[i].pressure.value <= FULL_SCALE
    ensures forall e :: e in Emissions(cycles) && e.Meas? ==> 0.0 <= e.pct <= 100.0
    decreases |cycles|
  {
    if cycles != [] {
      MeasInRange(cycles[..|cycles| - 1]);
    }
  }

  /** The polling thread. */
  class FlowThread {
    var stop: bool

    constructor()
      ensures !stop
    {
      stop := false;
    }

    /** stopThread: the loop ends at its next check. */
    method StopThread()
      modifies this
      ensures stop
    {
      stop := true;
    }

    /** The loop `while not self.stop`, given the answers of the cycles that
        start before a stop request is seen. */
    method Run(cycles: seq<Answers>) returns (emitted: seq<Emission>)
      ensures emitted == if stop then [] else Emissions(cycles)
    {
      emitted := [];
      var i := 0;
      while !stop && i < |cycles|
        invariant 0 <= i <= |cycles|
        invariant emitted == Emissions(cycles[..i])
        invariant stop ==> i == 0
      {
        var cycle := PollCycle(cycles[i]);
        assert cycles[..i + 1][..i] == cycles[..i];
        emitted := emitted + cycle.emitted;
        i := i + 1;
      }
      assert !stop ==> cycles[..i] == cycles;
    }
  }

  // ---------------------------------------------------------------------
  // The window

  class Bronkhost {
    var closed: PyValue
    var capacity: real
    var dial: int
    var trace: seq<Event>
    const thread: FlowThread

    /** The valve state is one of the three values, the mode register holds
        the command for it, and the transport is still up. */
    ghost predicate Valid()
      reads this
    {
      && IsValveState(closed)
      && LastWrite(trace, MODE) == Some(ModeOf(closed))
      && TransportStopped !in trace
    }

    /** Startup: close the valve, read the capacity, then start polling.
        `capacityRead` is `None` both when register 21 answers nothing and
        when it answers but the unit read or the float conversion raises;
        in either case the capacity stays 0.0. */
    constructor(capacityRead: Option<real>, dialValue: int)
      ensures Valid()
      ensures closed == CLOSED && dial == dialValue
      ensures capacity == if capacityRead.Some? then capacityRead.value else 0.0
      ensures trace == [Write(MODE, MODE_CLOSED), PollingStarted]
      ensures fresh(thread) && !thread.stop
    {
      trace := [Write(MODE, MODE_CLOSED)];
      closed := CLOSED;
      capacity := 0.0;
      if capacityRead.Some? {
        capacity := capacityRead.value;
      }
      dial := dialValue;
      thread := new FlowThread();
      trace := trace + [PollingStarted];
    }

    /** The open button: setpoint control. */
    method Open()
      requires Valid()
      modifies this`closed, this`trace
      ensures Valid()
      ensures closed == CONTROL && trace == old(trace) + [Write(MODE, MODE_CONTROL)]
    {
      trace := trace + [Write(MODE, MODE_CONTROL)];
      closed := CONTROL;
    }

    /** The close button. */
    method Close()
      requires Valid()
      modifies this`closed, this`trace
      ensures Valid()
      ensures closed == CLOSED && trace == old(trace) + [Write(MODE, MODE_CLOSED)]
    {
      trace := trace + [Write(MODE, MODE_CLOSED)];
      closed := CLOSED;
    }

    /** The force-open button. */
    method ForceOpen()
      requires Valid()
      modifies this`closed, this`trace
      ensures Valid()
      ensures closed == FORCED_OPEN && trace == old(trace) + [Write(MODE, MODE_FORCE_OPEN)]
    {
      trace := trace + [Write(MODE, MODE_FORCE_OPEN)];
      closed := FORCED_OPEN;
    }

    /** The dial now shows p (valueChanged): write its setpoint and re-engage
        control in the False state. */
    method DialMoved(p: int)
      requires Valid()
      modifies this`dial, this`trace
      ensures Valid()
      ensures dial == p && trace == old(trace) + DialWrites(p, closed)
    {
      dial := p;
      trace := trace + [Write(SETPOINT, PercentToRaw(p as real))];
      if !Truthy(closed) {
        trace := trace + [Write(MODE, MODE_CONTROL)];
      }
    }

    /** Editing of the setpoint box finished with the value `absolute`. */
    method SetPoint(absolute: real)
      requires Valid()
      modifies this`dial, this`trace
      ensures Valid()
      ensures dial == if 0.0 < capacity then SetpointDial(absolute, capacity) else old(dial)
      ensures trace == old(trace) + SetPointWrites(absolute, capacity, closed, old(dial))
    {
      if 0.0 < capacity {
        var percentage := SetpointPercent(absolute, capacity);
        var d := Trunc(percentage);
        if d != dial {
          DialMoved(d);
        }
        trace := trace + [Write(SETPOINT, PercentToRaw(percentage))];
        if !Truthy(closed) {
          trace := trace + [Write(MODE, MODE_CONTROL)];
        }
        SetPointTrace(old(trace), trace, absolute, capacity, closed, old(dial));
      }
    }

    /** Closing the window: stop polling, close the valve, stop the transport. */
    method CloseEvent()
      requires Valid()
      modifies this`trace, thread
      ensures thread.stop
      ensures trace == old(trace) + [PollingStopped, Write(MODE, MODE_CLOSED), TransportStopped]
    {
      thread.StopThread();
      trace := trace + [PollingStopped];
      trace := trace + [Write(MODE, MODE_CLOSED)];
      trace := trace + [TransportStopped];
    }
  }
}
