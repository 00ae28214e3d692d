/** The water-level sensor's polling step (`WaterLevelSensor.loop` in
    Raspberry-Pi-Client/Water_Level_Sensor.py): at most one reading a
    second, the level is the vase height minus the measured distance
    (never below zero), and the message says how the level moved since the
    previous reading. The clock and the ultrasonic distance are parameters;
    the LEDs are left out. */
module WaterSensor {
  import opened Wrappers
  import opened Text
  import opened Numeric

  const VaseHeightCm: real := 19.0
  /** A change of at most this many centimetres is "no significant change". */
  const Tolerance: real := 0.3
  /** Seconds between two readings. */
  const Period: real := 1.0

  datatype Sensor = Sensor(lastLevel: Option<real>, lastTx: real)

  /** The state the constructor leaves. */
  const Fresh: Sensor := Sensor(None, 0.0)

  /** How a reading compares with the previous one. */
  datatype Change = Initial | NoChange | Added(delta: real) | Evaporated(delta: real)

  /** `max(0.0, VASE_HEIGHT_CM - distance * 100.0)` for a distance in metres. */
  function Level(distanceM: real): (cm: real)
    ensures cm >= 0.0 && cm >= VaseHeightCm - distanceM * 100.0
    ensures cm == 0.0 || cm == VaseHeightCm - distanceM * 100.0
  {
    var d := distanceM * 100.0;
    if VaseHeightCm - d > 0.0 then VaseHeightCm - d else 0.0
  }

  function Classify(last: Option<real>, level: real): (c: Change)
    ensures last.None? <==> c.Initial?
    ensures last.Some? ==> (c.NoChange? <==> Abs(level - last.value) <= Tolerance)
    ensures c.Added? ==> last.Some? && last.value + c.delta == level
    ensures c.Evaporated? ==> last.Some? && last.value - c.delta == level
    ensures (c.Added? || c.Evaporated?) ==> c.delta > Tolerance
  {
    match last
    case None => Initial
    case Some(previous) =>
      var diff := level - previous;
      if Abs(diff) <= Tolerance then NoChange
      else if diff > Tolerance then Added(diff)
      else Evaporated(Abs(diff))
  }

  const MessagePrefix := "Water level: "

  /** The text sent for a reading, `:.2f` for every number. */
  function Message(level: real, change: Change): string {
    MessagePrefix + Fixed(level, 2, false) + " cm. " + Remark(change)
  }

  /** What follows the level: the change kind and, for a significant
      change, its size. */
  function Remark(change: Change): string {
    match change
    case Initial => "(Initial reading)"
    case NoChange => "(No significant change)"
    case Added(d) => "Water added: " + Fixed(d, 2, false) + " cm."
    case Evaporated(d) => "Water evaporated: " + Fixed(d, 2, false) + " cm."
  }

  /** One call of `loop` at time `now` with the sensor measuring
      `distanceM`: the new state and the message sent, if any. */
  function Loop(s: Sensor, now: real, distanceM: real): (r: (Sensor, Option<string>))
    ensures now - s.lastTx < Period <==> r.1.None?
    ensures now - s.lastTx < Period ==> r.0 == s
    ensures r.1.Some? ==> r.0 == Sensor(Some(Level(distanceM)), now)
    ensures r.1.Some? ==> r.1.value == Message(Level(distanceM), Classify(s.lastLevel, Level(distanceM)))
  {
    if now - s.lastTx < Period then (s, None)
    else
      var level := Level(distanceM);
      (Sensor(Some(level), now), Some(Message(level, Classify(s.lastLevel, level))))
  }

  /** The first reading after construction is reported as the initial one. */
  lemma FirstReading(now: real, distanceM: real)
    requires now >= Period
    ensures Loop(Fresh, now, distanceM).1 == Some(Message(Level(distanceM), Initial))
  {
  }

  /** For every reading after the first, exactly one of the three change
      kinds applies, decided by the signed difference to the previous level. */
  lemma ChangeKinds(previous: real, level: real)
    ensures var c := Classify(Some(previous), level);
      && (c.NoChange? <==> -Tolerance <= level - previous <= Tolerance)
      && (c.Added? <==> level - previous > Tolerance)
      && (c.Evaporated? <==> level - previous < -Tolerance)
  {
  }

  /** Every message starts with "Water level: " and has no white space
      at either end. */
  lemma MessageShape(level: real, change: Change)
    ensures StartsWith(Message(level, change), MessagePrefix)
    ensures |Message(level, change)| > 0 && Trimmed(Message(level, change))
  {
    var f := Fixed(level, 2, false);
    var r := Remark(change);
    var rest := f + (" cm. " + r);
    Assoc(MessagePrefix + f, " cm. ", r);
    Assoc(MessagePrefix, f, " cm. " + r);
    StartsWithConcat(MessagePrefix, rest);
    RemarkEnd(change);
    assert (MessagePrefix + f + " cm. ")[0] == MessagePrefix[0];
    TrimmedJoin(MessagePrefix + f + " cm. ", r);
  }

  lemma RemarkEnd(change: Change)
    ensures |Remark(change)| > 0 && !IsSpace(Remark(change)[|Remark(change)| - 1])
  {
  }
}
