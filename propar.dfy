/** The register map of the Bronkhorst pressure controller as the client
    uses it, and the conversions between engineering values and the
    instrument's normalised 0..32000 scale. Python floats are modelled as
    reals: rounding of the floating-point operations is not modelled. */
module Propar {

  // Register numbers (propar parameter numbers).
  const MEASURE: int := 8
  const SETPOINT: int := 9
  const MODE: int := 12
  const VALVE_OUTPUT: int := 55

  // Values of the mode register.
  const MODE_CONTROL: int := 0
  const MODE_CLOSED: int := 3
  const MODE_FORCE_OPEN: int := 8

  /** Full scale of the measurement and setpoint registers (100 %). */
  const FULL_SCALE: int := 32000
  /** Full scale of the valve-output register. */
  const VALVE_FULL_SCALE: int := 16777215
  /** Span correction applied to the valve output, in percent. */
  const VALVE_SPAN: real := 61.5

  /** Python's int() applied to a float: truncation toward zero. */
  function Trunc(x: real): (n: int)
    ensures 0.0 <= x ==> n as real <= x < n as real + 1.0
    ensures x < 0.0 ==> n as real - 1.0 < x <= n as real
  {
    if 0.0 <= x then x.Floor else -((-x).Floor)
  }

  /** max(0, min(100, p)): a percentage forced into [0, 100]. */
  function ClampPercent(p: real): (c: real)
    ensures 0.0 <= c <= 100.0
    ensures 0.0 <= p <= 100.0 ==> c == p
    ensures p < 0.0 ==> c == 0.0
    ensures 100.0 < p ==> c == 100.0
  {
    var m := if p < 100.0 then p else 100.0;
    if 0.0 < m then m else 0.0
  }

  /** int(percentage * 32000 / 100): a percentage as a raw register value. */
  function PercentToRaw(pct: real): (raw: int)
    ensures 0.0 <= pct <= 100.0 ==> 0 <= raw <= FULL_SCALE
    ensures 0.0 <= pct ==> raw as real <= pct * 320.0 < raw as real + 1.0
  {
    Trunc(pct * (FULL_SCALE as real) / 100.0)
  }

  /** reading * 100 / 32000: a raw measurement as a percentage of full scale. */
  function MeasuredPercent(raw: int): (pct: real)
    ensures pct * 320.0 == raw as real
    ensures 0 <= raw <= FULL_SCALE ==> 0.0 <= pct <= 100.0
  {
    raw as real * 100.0 / (FULL_SCALE as real)
  }

  /** (percentage / 100) * capacity: a percentage as an absolute value. */
  function AbsoluteValue(pct: real, capacity: real): (v: real)
    requires 0.0 < capacity
    ensures 0.0 <= pct <= 100.0 ==> 0.0 <= v <= capacity
    ensures v * 100.0 == pct * capacity
  {
    (pct / 100.0) * capacity
  }

  /** The clamped percentage an absolute setpoint stands for. */
  function SetpointPercent(absolute: real, capacity: real): (pct: real)
    requires 0.0 < capacity
    ensures 0.0 <= pct <= 100.0
    ensures 0.0 <= absolute <= capacity ==> pct * capacity == absolute * 100.0
    ensures absolute <= 0.0 ==> pct == 0.0
    ensures capacity <= absolute ==> pct == 100.0
  {
    assert 0.0 <= absolute <= capacity ==> 0.0 <= absolute / capacity <= 1.0 by {
      if 0.0 <= absolute <= capacity { DivBounds(absolute, capacity); }
    }
    assert absolute <= 0.0 ==> absolute / capacity <= 0.0 by {
      if absolute <= 0.0 { DivBounds(absolute, capacity); }
    }
    assert capacity <= absolute ==> 1.0 <= absolute / capacity by {
      if capacity <= absolute { DivBounds(absolute, capacity); }
    }
    ClampPercent((absolute / capacity) * 100.0)
  }

  lemma DivBounds(a: real, c: real)
    requires 0.0 < c
    ensures (a / c) * c == a
    ensures a <= 0.0 ==> a / c <= 0.0
    ensures 0.0 <= a ==> 0.0 <= a / c
    ensures a <= c ==> a / c <= 1.0
    ensures c <= a ==> 1.0 <= a / c
  {
  }

  /** The value written to the setpoint register for an absolute setpoint. */
  function SetpointRaw(absolute: real, capacity: real): (raw: int)
    requires 0.0 < capacity
    ensures 0 <= raw <= FULL_SCALE
  {
    PercentToRaw(SetpointPercent(absolute, capacity))
  }

  /** 100 * (100 / 61.5) * (v / 16777215): the valve output as a percentage. */
  function ValvePercent(v: int): (pct: real)
    ensures pct * VALVE_SPAN * (VALVE_FULL_SCALE as real) == 10000.0 * v as real
  {
    100.0 * (100.0 / VALVE_SPAN) * (v as real / (VALVE_FULL_SCALE as real))
  }

  /** Reading back a raw register value as a percentage and writing that
      percentage again gives the same raw value. */
  lemma RawRoundTrip(raw: int)
    requires 0 <= raw <= FULL_SCALE
    ensures PercentToRaw(MeasuredPercent(raw)) == raw
  {
    var pct := MeasuredPercent(raw);
    assert pct * 320.0 == raw as real;
    var r := PercentToRaw(pct);
    assert r as real <= raw as real < r as real + 1.0;
  }

  /** Writing a percentage and reading it back loses less than one register
      unit (1/320 %), and never rounds up: int() truncates. */
  lemma PercentRoundTrip(pct: real)
    requires 0.0 <= pct <= 100.0
    ensures pct - 1.0 / 320.0 < MeasuredPercent(PercentToRaw(pct)) <= pct
  {
    var raw := PercentToRaw(pct);
    var back := MeasuredPercent(raw);
    assert back * 320.0 == raw as real;
    assert raw as real <= pct * 320.0 < raw as real + 1.0;
  }

  /** An absolute setpoint inside [0, capacity], written and read back as the
      absolute value the display shows, is off by less than capacity / 32000. */
  lemma SetpointRoundTrip(absolute: real, capacity: real)
    requires 0.0 < capacity
    requires 0.0 <= absolute <= capacity
    ensures var shown := AbsoluteValue(MeasuredPercent(SetpointRaw(absolute, capacity)), capacity);
      absolute - capacity / 32000.0 < shown <= absolute
  {
    var pct := SetpointPercent(absolute, capacity);
    var back := MeasuredPercent(PercentToRaw(pct));
    PercentRoundTrip(pct);
    var shown := AbsoluteValue(back, capacity);
    RescaleWithin(pct, back, shown, absolute, capacity);
  }

  lemma RescaleWithin(pct: real, back: real, shown: real, absolute: real, capacity: real)
    requires 0.0 < capacity
    requires pct - 1.0 / 320.0 < back <= pct
    requires pct * capacity == absolute * 100.0
    requires shown * 100.0 == back * capacity
    ensures absolute - capacity / 32000.0 < shown <= absolute
  {
    var lo := pct - 1.0 / 320.0;
    ScaleBetween(lo, back, pct, capacity);
    var lc, bc, pc := lo * capacity, back * capacity, pct * capacity;
    assert lc < bc <= pc;
    assert lc == pc - capacity / 320.0;
    assert shown * 100.0 == bc;
    assert pc == absolute * 100.0;
  }

  lemma ScaleBetween(lo: real, x: real, hi: real, c: real)
    requires 0.0 < c
    requires lo < x <= hi
    ensures lo * c < x * c <= hi * c
  {
  }

  /** A larger absolute setpoint never gives a smaller register value. */
  lemma {:induction false} SetpointRawMonotone(a: real, b: real, capacity: real)
    requires 0.0 < capacity
    requires a <= b
    ensures SetpointRaw(a, capacity) <= SetpointRaw(b, capacity)
  {
    DivMonotone(a, b, capacity);
    var pa, pb := SetpointPercent(a, capacity), SetpointPercent(b, capacity);
    assert pa <= pb;
    var ra, rb := PercentToRaw(pa), PercentToRaw(pb);
    assert ra as real <= pa * 320.0 <= pb * 320.0 < rb as real + 1.0;
  }

  lemma DivMonotone(a: real, b: real, c: real)
    requires 0.0 < c
    requires a <= b
    ensures a / c <= b / c
  {
    assert (b - a) / c >= 0.0;
  }

  /** Setpoints at or below zero write 0, setpoints at or above capacity
      write full scale. */
  lemma SetpointRawSaturates(absolute: real, capacity: real)
    requires 0.0 < capacity
    ensures absolute <= 0.0 ==> SetpointRaw(absolute, capacity) == 0
    ensures capacity <= absolute ==> SetpointRaw(absolute, capacity) == FULL_SCALE
  {
  }

  /** For a whole-number percentage p (the dial's value), int(p * 32000 / 100)
      is exactly 320 * p, whatever the sign of p. */
  lemma DialRawExact(p: int)
    ensures PercentToRaw(p as real) == 320 * p
  {
    assert p as real * (FULL_SCALE as real) / 100.0 == (320 * p) as real;
  }

  /** The valve output grows with the raw register value and maps
      [0, 16777215] onto [0, 10000 / 61.5]. */
  lemma ValvePercentRange(v: int, w: int)
    requires 0 <= v <= w <= VALVE_FULL_SCALE
    ensures ValvePercent(0) == 0.0
    ensures ValvePercent(VALVE_FULL_SCALE) == 10000.0 / VALVE_SPAN
    ensures 0.0 <= ValvePercent(v) <= ValvePercent(w) <= 10000.0 / VALVE_SPAN
  {
    var k := VALVE_SPAN * (VALVE_FULL_SCALE as real);
    assert ValvePercent(v) * k == 10000.0 * v as real;
    assert ValvePercent(w) * k == 10000.0 * w as real;
    assert ValvePercent(VALVE_FULL_SCALE) * k == 10000.0 * VALVE_FULL_SCALE as real;
  }
}
