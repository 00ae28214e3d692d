/** The temperature and humidity sensor's polling step
    (`TemperatureHumiditySensor.loop` in
    Raspberry-Pi-Client/Temperature_And_Humidity_Sensor.py): at most one
    read every two seconds, nothing sent when the DHT11 gives no value, and
    a line with both readings and their change since the last good read.
    The clock and the two readings are parameters; a read that raises
    RuntimeError inside the driver is a None reading. */
module ClimateSensor {
  import opened Wrappers
  import opened Text
  import opened Numeric

  /** Seconds between two reads. */
  const Interval: real := 2.0

  /** `last` is the pair `(last_temp, last_hum)`: the source assigns the two
      attributes together, so they are None together. */
  datatype Sensor = Sensor(lastTx: real, last: Option<(real, real)>)

  /** The state the constructor leaves. */
  const Fresh: Sensor := Sensor(0.0, None)

  /** The em dash printed as the change of a first reading. */
  const NoDelta := "\U{2014}"
  const DegreesC := "\U{B0}C"

  /** `f"{now - before:+.1f}{unit}"`. */
  function Delta(now: real, before: real, unit: string): string {
    Fixed(now - before, 1, true) + unit
  }

  /** The line sent for readings `t`, `h` with change texts `dt`, `dh`:
      the two f-strings of the source, one per reading, side by side. */
  function Line(t: real, h: real, dt: string, dh: string): string {
    TempPart(t, dt) + HumPart(h, dh)
  }

  function TempPart(t: real, dt: string): string {
    "Temperature:" + (" " + PadLeft(Fixed(t, 1, false), 4) + " " + DegreesC + (" (\U{394} " + dt + ")   "))
  }

  function HumPart(h: real, dh: string): string {
    "Humidity:" + (" " + PadLeft(Fixed(h, 1, false), 4) + "%" + (" (\U{394} " + dh + ")"))
  }

  /** The change texts for a reading: dashes the first time, signed
      differences from the last good reading afterwards. */
  function Deltas(last: Option<(real, real)>, t: real, h: real): (r: (string, string))
    ensures last.None? ==> r == (NoDelta, NoDelta)
    ensures last.Some? ==> SignedReading(r.0, DegreesC, t - last.value.0)
    ensures last.Some? ==> SignedReading(r.1, "%", h - last.value.1)
  {
    if last.None? then (NoDelta, NoDelta)
    else SignedDeltas(t, last.value.0, h, last.value.1)
  }

  /** The two change texts after a good reading `(lt, lh)`. */
  function SignedDeltas(t: real, lt: real, h: real, lh: real): (r: (string, string))
    ensures SignedReading(r.0, DegreesC, t - lt) && SignedReading(r.1, "%", h - lh)
  {
    var dt, dh := Delta(t, lt, DegreesC), Delta(h, lh, "%");
    DeltaReadBack(t, lt, DegreesC, dt);
    DeltaReadBack(h, lh, "%", dh);
    (dt, dh)
  }

  /** `d` is a signed number followed by `unit`, and `float` reads the
      number back as `x` rounded to one place. */
  predicate SignedReading(d: string, unit: string, x: real) {
    && |d| > |unit|
    && d[|d| - |unit|..] == unit
    && (d[0] == '-' <==> x < 0.0)
    && (d[0] == '+' <==> x >= 0.0)
    && ParseFloat(d[..|d| - |unit|]) == Some(Rounded(x, 1))
  }

  /** A change text after a good reading is the signed difference from the
      last good reading, with its unit: it starts with '-' exactly when the
      reading fell, and `float` reads the number back rounded to one place. */
  lemma DeltaReadBack(now: real, before: real, unit: string, d: string)
    requires d == Delta(now, before, unit)
    ensures SignedReading(d, unit, now - before)
  {
    var x := now - before;
    var f := Fixed(x, 1, true);
    FixedTrimmed(x, 1, true);
    ParseFixedBare(x, 1, true);
    SignLeads(x, Magnitude(Scaled(x, 1), 1), f);
    UnitAfter(f, unit, d, x, Rounded(x, 1));
  }

  /** A signed rendering starts with its sign. */
  lemma SignLeads(x: real, m: string, f: string)
    requires f == Sign(x, true) + m
    ensures |f| > 0 && (f[0] == '-' <==> x < 0.0) && (f[0] == '+' <==> x >= 0.0)
  {
  }

  lemma UnitAfter(f: string, unit: string, d: string, x: real, v: real)
    requires d == f + unit && |f| > 0 && Trimmed(f) && ParseSignedDecimal(f) == Some(v)
    requires (f[0] == '-' <==> x < 0.0) && (f[0] == '+' <==> x >= 0.0) && v == Rounded(x, 1)
    ensures SignedReading(d, unit, x)
  {
    StripTrimmed(f);
    assert d[..|d| - |unit|] == f;
    assert d[|d| - |unit|..] == unit;
  }

  /** One call of `loop` at time `now`: the new state and the line sent, if any. */
  function Loop(s: Sensor, now: real, temp: Option<real>, hum: Option<real>): (r: (Sensor, Option<string>))
    ensures now - s.lastTx < Interval ==> r == (s, None)
    ensures now - s.lastTx >= Interval ==> r.0.lastTx == now
    ensures r.1.Some? <==> now - s.lastTx >= Interval && temp.Some? && hum.Some?
    ensures r.1.None? ==> r.0.last == s.last
    ensures r.1.Some? ==> r.0.last == Some((temp.value, hum.value))
  {
    if now - s.lastTx < Interval then (s, None)
    else
      var s' := s.(lastTx := now);
      if temp.None? || hum.None? then (s', None)
      else
        var (dt, dh) := Deltas(s.last, temp.value, hum.value);
        (s'.(last := Some((temp.value, hum.value))), Some(Line(temp.value, hum.value, dt, dh)))
  }

  /** The first good reading reports dashes for both changes; every later
      one reports the signed change from the previous good reading. */
  lemma DeltasSent(s: Sensor, now: real, t: real, h: real)
    requires now - s.lastTx >= Interval
    ensures var line := Loop(s, now, Some(t), Some(h)).1.value;
      && (s.last.None? ==> line == Line(t, h, NoDelta, NoDelta))
      && (s.last.Some? ==> line == Line(t, h, Delta(t, s.last.value.0, DegreesC), Delta(h, s.last.value.1, "%")))
  {
  }

  /** A failed read still uses up the interval: the next read can come only
      two seconds later, and the last good reading is kept. */
  lemma FailedRead(s: Sensor, now: real, temp: Option<real>, hum: Option<real>)
    requires now - s.lastTx >= Interval && (temp.None? || hum.None?)
    ensures Loop(s, now, temp, hum) == (Sensor(now, s.last), None)
  {
  }

  /** Neither change text holds a 'T' or an 'H', so neither can be taken
      for the start of a field name. */
  lemma DeltasFree(last: Option<(real, real)>, t: real, h: real)
    ensures var (dt, dh) := Deltas(last, t, h);
      'T' !in dt && 'T' !in dh && 'H' !in dt && 'H' !in dh
  {
    match last
    case None =>
    case Some((lt, lh)) =>
      DeltaFree(t, lt, DegreesC);
      DeltaFree(h, lh, "%");
  }

  lemma DeltaFree(now: real, before: real, unit: string)
    requires unit == DegreesC || unit == "%"
    ensures 'T' !in Delta(now, before, unit) && 'H' !in Delta(now, before, unit)
  {
    FixedNumeric(now - before, 1, true, 0);
    NumericExcludes(Fixed(now - before, 1, true), 'T');
    NumericExcludes(Fixed(now - before, 1, true), 'H');
  }

  /** Every line starts with the temperature field name and has no white
      space at either end. */
  lemma LineShape(t: real, h: real, dt: string, dh: string)
    ensures var line := Line(t, h, dt, dh);
      |line| > 0 && Trimmed(line) && StartsWith(line, "Temperature:")
  {
    PartsShape("Temperature:", " " + PadLeft(Fixed(t, 1, false), 4) + " " + DegreesC + (" (\U{394} " + dt + ")   "),
      "Humidity:", " " + PadLeft(Fixed(h, 1, false), 4) + "%", " (\U{394} " + dh, TempPart(t, dt), HumPart(h, dh));
  }

  lemma PartsShape(p: string, x: string, q: string, y: string, z: string, tp: string, hp: string)
    requires p == "Temperature:" && tp == p + x && hp == q + (y + (z + ")"))
    ensures |tp + hp| > 0 && Trimmed(tp + hp) && StartsWith(tp + hp, p)
  {
    assert tp + hp == p + (x + hp);
    StartsWithConcat(p, x + hp);
    assert hp[|hp| - 1] == ')';
    assert tp[0] == 'T';
    TrimmedJoin(tp, hp);
  }
}
