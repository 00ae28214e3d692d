/** How the pieces fit together: the lines each sensor sends, handed to the
    server's handler, and what the dashboard then reads back from the
    server's record. */
module Pipeline {
  import opened Wrappers
  import opened Text
  import opened Numeric
  import opened Server
  import PestSensor
  import WaterSensor
  import ClimateSensor
  import Dashboard

  // ---------------------------------------------------------------------
  // Pest sensor -> server
  // ---------------------------------------------------------------------

  /** Each pest message is delivered as its wire text with a timestamp. */
  function Deliver(ms: seq<PestSensor.Message>, stamps: seq<Timestamp>): (r: seq<(string, Timestamp)>)
    requires |stamps| == |ms|
    ensures |r| == |ms|
  {
    seq(|ms|, i requires 0 <= i < |ms| => (PestSensor.Wire(ms[i]), stamps[i]))
  }

  /** Serving two runs of connections one after the other is serving the
      whole run; in particular a server stopped by the first run ignores
      the second. */
  lemma {:induction false} ServeAppend(session: Session, a: seq<(string, Timestamp)>, b: seq<(string, Timestamp)>)
    ensures Serve(session, a + b) == Serve(Serve(session, a), b)
    decreases |a|
  {
    if |a| == 0 {
      assert a + b == b;
    } else if session.running {
      var next := Step(session, a[0].0, a[0].1);
      ServeFirst(session, a, b, next);
      ServeAppend(next, a[1..], b);
    }
  }

  lemma ServeFirst(session: Session, a: seq<(string, Timestamp)>, b: seq<(string, Timestamp)>, next: Session)
    requires session.running && |a| > 0 && next == Step(session, a[0].0, a[0].1)
    ensures Serve(session, a) == Serve(next, a[1..])
    ensures Serve(session, a + b) == Serve(next, a[1..] + b)
  {
    assert (a + b)[0] == a[0] && (a + b)[1..] == a[1..] + b;
    ServeHead(session, a, next);
    ServeHead(session, a + b, next);
  }

  /** A payload that strips to a "Pest Detected" line, the sensor's among
      them (`Pipeline.WireDetected`), is acknowledged, raises the count by
      one, and becomes the current pest text and the last pest entry. */
  lemma DetectedArrives(store: Store, payload: string, ts: Timestamp)
    requires StartsWith(Strip(payload), PestDetected)
    ensures Handle(store, payload, ts) ==
      Acked(store.(pestCount := store.pestCount + 1, currentPest := Strip(payload),
                   pestHistory := store.pestHistory + [(ts, Strip(payload))]))
  {
    var line := Strip(payload);
    DetectedIsPest(line);
    PestApplied(store, line, ts);
  }

  /** The sensor's "Pest Detected" as received. */
  lemma SensorDetectedArrives(store: Store, ts: Timestamp)
    ensures Handle(store, PestSensor.Wire(PestSensor.Detected), ts) ==
      Acked(store.(pestCount := store.pestCount + 1, currentPest := PestDetected,
                   pestHistory := store.pestHistory + [(ts, PestDetected)]))
  {
    WireDetected();
    DetectedArrives(store, PestSensor.Wire(PestSensor.Detected), ts);
  }

  /** The sensor's detection line strips to the server's detection text. */
  lemma WireDetected()
    ensures Strip(PestSensor.Wire(PestSensor.Detected)) == PestDetected
    ensures StartsWith(PestDetected, PestDetected)
  {
    assert PestSensor.Wire(PestSensor.Detected) == PestDetected;
    StripTrimmed(PestDetected);
    assert PestDetected + "" == PestDetected;
    StartsWithConcat(PestDetected, "");
  }

  /** A total as received: the count becomes the total the sensor sent. */
  lemma TotalArrives(store: Store, n: int, ts: Timestamp)
    ensures Handle(store, PestSensor.Wire(PestSensor.Total(n)), ts) ==
      Acked(store.(pestCount := n, pestTotalHistory := store.pestTotalHistory + [(ts, n)]))
  {
    FormatIntShape(n);
    TotalRoundTrip(n);
    WireTotal(n);
    TotalArrivesAs(store, PestSensor.Wire(PestSensor.Total(n)), FormatInt(n), n, ts);
  }

  /** The sensor's total line starts with the server's total prefix. */
  lemma WireTotal(n: int)
    ensures PestSensor.Wire(PestSensor.Total(n)) == TotalPrefix + ": " + FormatInt(n)
  {
    assert "Total Pests Detected: " == TotalPrefix + ": ";
  }

  /** The same with the total's text given by name. */
  lemma TotalArrivesAs(store: Store, line: string, f: string, n: int, ts: Timestamp)
    requires line == TotalPrefix + ": " + f && |f| > 0 && Trimmed(f) && ReadTotal(line) == Ok(Some(n))
    ensures Handle(store, line, ts) ==
      Acked(store.(pestCount := n, pestTotalHistory := store.pestTotalHistory + [(ts, n)]))
  {
    TrimmedJoin(TotalPrefix + ": ", f);
    StripTrimmed(line);
    Assoc(TotalPrefix, ": ", f);
    StartsWithConcat(TotalPrefix, ": " + f);
    TotalLine(store, line, ts, n);
  }

  /** One motion event's two messages bring the server's count to the
      sensor's, from any state of either, and log one pest line and one
      total. */
  lemma EventSync(session: Session, sensor: PestSensor.Sensor, t1: Timestamp, t2: Timestamp)
    requires session.running
    ensures var (after, ms) := PestSensor.HandleMotion(sensor);
      var r := Serve(session, Deliver(ms, [t1, t2]));
      && r.running && r.acks == session.acks + 2
      && r.store.pestCount == after.pestCount
      && r.store.pestHistory == session.store.pestHistory + [(t1, PestDetected)]
      && r.store.pestTotalHistory == session.store.pestTotalHistory + [(t2, after.pestCount)]
  {
    var (after, ms) := PestSensor.HandleMotion(sensor);
    var n := after.pestCount;
    var m1 := (PestSensor.Wire(PestSensor.Detected), t1);
    var m2 := (PestSensor.Wire(PestSensor.Total(n)), t2);
    DeliverEvent(ms, n, t1, t2);
    var s0 := session.store;
    var s1 := s0.(pestCount := s0.pestCount + 1, currentPest := PestDetected,
                  pestHistory := s0.pestHistory + [(t1, PestDetected)]);
    var s2 := s1.(pestCount := n, pestTotalHistory := s1.pestTotalHistory + [(t2, n)]);
    SensorDetectedArrives(s0, t1);
    var mid := Session(s1, session.acks + 1, true);
    StepAcked(session, m1.0, t1, s1);
    TotalArrives(s1, n, t2);
    StepAcked(mid, m2.0, t2, s2);
    ServeTwo(session, m1, m2, mid, Session(s2, session.acks + 2, true));
  }

  lemma DeliverEvent(ms: seq<PestSensor.Message>, n: int, t1: Timestamp, t2: Timestamp)
    requires ms == [PestSensor.Detected, PestSensor.Total(n)]
    ensures Deliver(ms, [t1, t2]) == [(PestSensor.Wire(PestSensor.Detected), t1), (PestSensor.Wire(PestSensor.Total(n)), t2)]
  {
  }

  lemma StepAcked(session: Session, payload: string, ts: Timestamp, st: Store)
    requires Handle(session.store, payload, ts) == Acked(st)
    ensures Step(session, payload, ts) == Session(st, session.acks + 1, true)
  {
  }

  lemma ServeTwo(session: Session, m1: (string, Timestamp), m2: (string, Timestamp), mid: Session, fin: Session)
    requires session.running && mid == Step(session, m1.0, m1.1)
    requires mid.running && fin == Step(mid, m2.0, m2.1)
    ensures Serve(session, [m1, m2]) == Serve(fin, [])
  {
    assert [m1, m2][1..] == [m2];
    assert [m2][1..] == [];
  }

  // ---------------------------------------------------------------------
  // Water sensor -> server -> dashboard
  // ---------------------------------------------------------------------

  /** Every water message is taken by the server's water branch as it is:
      it becomes the current water text and is logged. */
  lemma WaterArrives(store: Store, msg: string, level: real, change: WaterSensor.Change, ts: Timestamp)
    requires msg == WaterSensor.Message(level, change)
    ensures Handle(store, msg, ts) ==
      Acked(store.(currentWater := msg, waterHistory := store.waterHistory + [(ts, msg)]))
  {
    WaterSensor.MessageShape(level, change);
    StripTrimmed(msg);
    assert WaterSensor.MessagePrefix == WaterPrefix + ": ";
    StartsWithShorter(msg, WaterPrefix, ": ");
    WaterLine(store, msg, ts);
  }

  /** The dashboard reads back from a water message the level the sensor
      measured, as rounded when it was printed to two places. */
  lemma WaterReadBack(level: real, change: WaterSensor.Change)
    ensures Dashboard.WaterReading(WaterSensor.Message(level, change)) == Some(Rounded(level, 2))
  {
    var f := Fixed(level, 2, false);
    var r := WaterSensor.Remark(change);
    var msg := WaterSensor.Message(level, change);
    FixedNumeric(level, 2, false, 0);
    WaterField(f, r, msg);
    var x := Split(r, ":")[0];
    CmField(f, x);
    FixedReadsBack(level, 2, f);
  }

  lemma WaterField(f: string, r: string, msg: string)
    requires NumericText(f) && msg == WaterSensor.MessagePrefix + f + " cm. " + r
    ensures Field(msg, ":", 1) == Some(" " + f + " cm. " + Split(r, ":")[0])
  {
    var c := " " + f + " cm. ";
    assert msg == "Water level" + ":" + (c + r);
    NumericExcludes(f, ':');
    LeadingField("Water level", ":", c, r, msg);
  }

  lemma CmField(f: string, x: string)
    requires NumericText(f)
    ensures Field(" " + f + " cm. " + x, "cm", 0) == Some(" " + f + " ")
  {
    NumericExcludes(f, 'c');
    var a := " " + f + " ";
    assert " " + f + " cm. " + x == a + "cm" + (". " + x);
    FirstField(a, "cm", ". " + x, " " + f + " cm. " + x);
  }

  /** A number printed to `p` places between two spaces reads back rounded. */
  lemma FixedReadsBack(x: real, p: nat, f: string)
    requires f == Fixed(x, p, false)
    ensures ParseFloat(" " + f + " ") == Some(Rounded(x, p))
  {
    ParseFixed(x, p, false, 0, " ", " ");
    assert PadLeft(f, 0) == f;
  }

  /** One water reading, end to end: the sensor's message is acknowledged,
      and the dashboard's next refresh pushes the rounded level onto its
      water buffer. */
  lemma WaterToDashboard(b: Dashboard.Buffers, store: Store, sensor: WaterSensor.Sensor,
                         now: real, distanceM: real, ts: Timestamp)
    requires now - sensor.lastTx >= WaterSensor.Period
    ensures var (_, sent) := WaterSensor.Loop(sensor, now, distanceM);
      && sent.Some?
      && Handle(store, sent.value, ts).Acked?
      && Dashboard.Refresh(b, Handle(store, sent.value, ts).store).water
         == Dashboard.Push(b.water, Rounded(WaterSensor.Level(distanceM), 2))
  {
    var level := WaterSensor.Level(distanceM);
    var change := WaterSensor.Classify(sensor.lastLevel, level);
    var msg := WaterSensor.Message(level, change);
    assert WaterSensor.Loop(sensor, now, distanceM).1 == Some(msg);
    WaterArrives(store, msg, level, change, ts);
    var s := store.(currentWater := msg, waterHistory := store.waterHistory + [(ts, msg)]);
    Dashboard.RefreshWater(b, s);
    WaterReadBack(level, change);
  }

  // ---------------------------------------------------------------------
  // Climate sensor -> server -> dashboard
  // ---------------------------------------------------------------------

  /** The server reads back from a climate line both readings, as rounded
      when they were printed to one place, whatever the change texts say
      as long as they hold no 'T' and no 'H'. */
  lemma ClimateReadBack(t: real, h: real, dt: string, dh: string)
    requires 'T' !in dt && 'T' !in dh && 'H' !in dt && 'H' !in dh
    ensures ReadClimate(ClimateSensor.Line(t, h, dt, dh)) == Some((Rounded(t, 1), Rounded(h, 1)))
  {
    var a := " " + PadLeft(Fixed(t, 1, false), 4) + " ";
    var b := " " + PadLeft(Fixed(h, 1, false), 4);
    var rt := " (\U{394} " + dt + ")   ";
    var rh := " (\U{394} " + dh + ")";
    var tp, hp := ClimateSensor.TempPart(t, dt), ClimateSensor.HumPart(h, dh);
    var line, x, y := ClimateSensor.Line(t, h, dt, dh), Rounded(t, 1), Rounded(h, 1);
    ClimatePieces(t, h, dt, dh, a, b, rt, rh);
    ClimateChain(a, b, rt, rh, tp, hp, line, x, y);
  }

  /** The pieces of a climate line: its two parts, the two printed readings
      and the change texts free of field letters. */
  lemma ClimatePieces(t: real, h: real, dt: string, dh: string, a: string, b: string, rt: string, rh: string)
    requires 'T' !in dt && 'T' !in dh && 'H' !in dt && 'H' !in dh
    requires a == " " + PadLeft(Fixed(t, 1, false), 4) + " " && b == " " + PadLeft(Fixed(h, 1, false), 4)
    requires rt == " (\U{394} " + dt + ")   " && rh == " (\U{394} " + dh + ")"
    ensures ClimateSensor.TempPart(t, dt) == ClimatePrefix + (a + ClimateSensor.DegreesC + rt)
    ensures ClimateSensor.HumPart(h, dh) == "Humidity:" + (b + "%" + rh)
    ensures ClimateSensor.Line(t, h, dt, dh) == ClimateSensor.TempPart(t, dt) + ClimateSensor.HumPart(h, dh)
    ensures NumericText(a) && ParseFloat(a) == Some(Rounded(t, 1))
    ensures NumericText(b) && ParseFloat(b) == Some(Rounded(h, 1))
    ensures 'T' !in rt && 'T' !in rh && 'H' !in rt && 'H' !in rh
  {
    LineStructure(t, h, dt, dh, a, b, rt, rh);
    PaddedReading(t, " ", " ", a);
    PaddedReading(h, " ", "", b);
    LiteralsFree(dt, dh, rt, rh);
  }

  /** A climate line cut into its two parts, each a field name, a printed
      number and what follows it. */
  lemma LineStructure(t: real, h: real, dt: string, dh: string, a: string, b: string, rt: string, rh: string)
    requires a == " " + PadLeft(Fixed(t, 1, false), 4) + " " && b == " " + PadLeft(Fixed(h, 1, false), 4)
    requires rt == " (\U{394} " + dt + ")   " && rh == " (\U{394} " + dh + ")"
    ensures ClimateSensor.TempPart(t, dt) == ClimatePrefix + (a + ClimateSensor.DegreesC + rt)
    ensures ClimateSensor.HumPart(h, dh) == "Humidity:" + (b + "%" + rh)
    ensures ClimateSensor.Line(t, h, dt, dh) == ClimateSensor.TempPart(t, dt) + ClimateSensor.HumPart(h, dh)
  {
  }

  /** A reading printed to one place in four columns, with blanks around it,
      is numeric text that reads back as the rounded reading. */
  lemma PaddedReading(x: real, pre: string, post: string, a: string)
    requires pre == " " && (post == " " || post == "")
    requires a == pre + PadLeft(Fixed(x, 1, false), 4) + post
    ensures NumericText(a) && ParseFloat(a) == Some(Rounded(x, 1))
  {
    var f := PadLeft(Fixed(x, 1, false), 4);
    FixedNumeric(x, 1, false, 4);
    ParseFixed(x, 1, false, 4, pre, post);
    BlankNumeric(pre);
    BlankNumeric(post);
    NumericConcat(pre, f);
    NumericConcat(pre + f, post);
  }

  lemma BlankNumeric(s: string)
    requires s == " " || s == ""
    ensures NumericText(s)
  {
  }

  /** The change parts hold neither field name's first letter. */
  lemma LiteralsFree(dt: string, dh: string, rt: string, rh: string)
    requires 'T' !in dt && 'T' !in dh && 'H' !in dt && 'H' !in dh
    requires rt == " (\U{394} " + dt + ")   " && rh == " (\U{394} " + dh + ")"
    ensures 'T' !in rt && 'T' !in rh && 'H' !in rt && 'H' !in rh
  {
  }

  /** The same with the two printed numbers and the two change parts as
      opaque texts. */
  lemma ClimateChain(a: string, b: string, rt: string, rh: string, tp: string, hp: string, line: string, x: real, y: real)
    requires NumericText(a) && NumericText(b)
    requires 'T' !in rt && 'T' !in rh && 'H' !in rt && 'H' !in rh
    requires tp == ClimatePrefix + (a + ClimateSensor.DegreesC + rt)
    requires hp == "Humidity:" + (b + "%" + rh)
    requires line == tp + hp && ParseFloat(a) == Some(x) && ParseFloat(b) == Some(y)
    ensures ReadClimate(line) == Some((x, y))
  {
    ClimateFields(a, b, rt, rh, tp, hp);
    ReadClimateSteps(line, a + ClimateSensor.DegreesC + rt + hp, a, b + "%" + rh, b, x, y);
  }

  /** The four field lookups on a climate line. */
  lemma ClimateFields(a: string, b: string, rt: string, rh: string, tp: string, hp: string)
    requires NumericText(a) && NumericText(b)
    requires 'T' !in rt && 'T' !in rh && 'H' !in rt && 'H' !in rh
    requires tp == ClimatePrefix + (a + ClimateSensor.DegreesC + rt)
    requires hp == "Humidity:" + (b + "%" + rh)
    ensures Field(tp + hp, ClimatePrefix, 1) == Some(a + ClimateSensor.DegreesC + rt + hp)
    ensures Field(a + ClimateSensor.DegreesC + rt + hp, ClimateSensor.DegreesC, 0) == Some(a)
    ensures Field(tp + hp, "Humidity:", 1) == Some(b + "%" + rh)
    ensures Field(b + "%" + rh, "%", 0) == Some(b)
  {
    NumericExcludes(a, 'T');
    NumericExcludes(b, 'T');
    NumericExcludes(a, 'H');
    NumericExcludes(b, 'H');
    NumericExcludes(a, '\U{B0}');
    NumericExcludes(b, '%');
    var afterT := a + ClimateSensor.DegreesC + rt + hp;
    LettersFree(a, b, rt, rh, tp, hp, afterT);
    TempFields(a, rt, hp, tp + hp, afterT);
    HumFields(tp, b, rh, tp + hp);
  }

  lemma TempFields(a: string, rt: string, hp: string, line: string, afterT: string)
    requires 'T' !in a + ClimateSensor.DegreesC + rt + hp && '\U{B0}' !in a
    requires line == ClimatePrefix + (a + ClimateSensor.DegreesC + rt) + hp
    requires afterT == a + ClimateSensor.DegreesC + rt + hp
    ensures Field(line, ClimatePrefix, 1) == Some(afterT)
    ensures Field(afterT, ClimateSensor.DegreesC, 0) == Some(a)
  {
    Assoc(ClimatePrefix, a + ClimateSensor.DegreesC + rt, hp);
    assert "" + ClimatePrefix == ClimatePrefix;
    SecondField("", ClimatePrefix, afterT, line);
    Assoc(a + ClimateSensor.DegreesC, rt, hp);
    FirstField(a, ClimateSensor.DegreesC, rt + hp, afterT);
  }

  lemma HumFields(tp: string, b: string, rh: string, line: string)
    requires 'H' !in tp && 'H' !in b + "%" + rh && '%' !in b
    requires line == tp + ("Humidity:" + (b + "%" + rh))
    ensures Field(line, "Humidity:", 1) == Some(b + "%" + rh)
    ensures Field(b + "%" + rh, "%", 0) == Some(b)
  {
    Assoc(tp, "Humidity:", b + "%" + rh);
    SecondField(tp, "Humidity:", b + "%" + rh, line);
    FirstField(b, "%", rh, b + "%" + rh);
  }

  lemma LettersFree(a: string, b: string, rt: string, rh: string, tp: string, hp: string, afterT: string)
    requires 'T' !in a && 'T' !in b && 'H' !in a && 'H' !in b
    requires 'T' !in rt && 'T' !in rh && 'H' !in rt && 'H' !in rh
    requires tp == ClimatePrefix + (a + ClimateSensor.DegreesC + rt)
    requires hp == "Humidity:" + (b + "%" + rh)
    requires afterT == a + ClimateSensor.DegreesC + rt + hp
    ensures 'T' !in afterT && 'H' !in tp && 'H' !in b + "%" + rh
  {
    assert 'T' !in "Humidity:" && 'T' !in ClimateSensor.DegreesC && 'T' !in "%";
    assert 'H' !in ClimatePrefix && 'H' !in ClimateSensor.DegreesC && 'H' !in "%";
  }

  /** `ReadClimate` as the four field lookups and two parses it makes. */
  lemma ReadClimateSteps(line: string, afterT: string, a: string, afterH: string, b: string, x: real, y: real)
    requires Field(line, ClimatePrefix, 1) == Some(afterT) && Field(afterT, ClimateSensor.DegreesC, 0) == Some(a)
    requires Field(line, "Humidity:", 1) == Some(afterH) && Field(afterH, "%", 0) == Some(b)
    requires ParseFloat(a) == Some(x) && ParseFloat(b) == Some(y)
    ensures ReadClimate(line) == Some((x, y))
  {
  }

  /** What the server's record becomes when a climate reading arrives. */
  function WithClimate(store: Store, t: real, h: real, ts: Timestamp): Store {
    store.(currentTemp := TempText(Rounded(t, 1)), currentHum := HumText(Rounded(h, 1)),
           thHistory := store.thHistory + [(ts, Rounded(t, 1), Rounded(h, 1))])
  }

  /** A climate line is taken by the server's climate branch: both current
      texts show the rounded readings and the pair is logged. */
  lemma ClimateArrives(store: Store, line: string, t: real, h: real, dt: string, dh: string, ts: Timestamp)
    requires line == ClimateSensor.Line(t, h, dt, dh)
    requires 'T' !in dt && 'T' !in dh && 'H' !in dt && 'H' !in dh
    ensures Handle(store, line, ts) == Acked(WithClimate(store, t, h, ts))
  {
    ClimateSensor.LineShape(t, h, dt, dh);
    StripTrimmed(line);
    ClimateReadBack(t, h, dt, dh);
    ClimateLine(store, line, ts, Rounded(t, 1), Rounded(h, 1));
  }

  /** One climate reading, end to end: once the interval has passed and
      both readings came back, the sensor's line is acknowledged and the
      dashboard's next refresh pushes the rounded readings onto its
      temperature and humidity buffers. */
  lemma ClimateToDashboard(b: Dashboard.Buffers, store: Store, sensor: ClimateSensor.Sensor,
                           now: real, t: real, h: real, ts: Timestamp)
    requires now - sensor.lastTx >= ClimateSensor.Interval
    ensures var (_, sent) := ClimateSensor.Loop(sensor, now, Some(t), Some(h));
      && sent.Some?
      && Handle(store, sent.value, ts) == Acked(WithClimate(store, t, h, ts))
      && Dashboard.Refresh(b, WithClimate(store, t, h, ts)).temp == Dashboard.Push(b.temp, Rounded(t, 1))
      && Dashboard.Refresh(b, WithClimate(store, t, h, ts)).hum == Dashboard.Push(b.hum, Rounded(h, 1))
  {
    var (dt, dh) := ClimateSensor.Deltas(sensor.last, t, h);
    ClimateSensor.DeltasFree(sensor.last, t, h);
    var line := ClimateSensor.Line(t, h, dt, dh);
    assert ClimateSensor.Loop(sensor, now, Some(t), Some(h)).1 == Some(line);
    ClimateArrives(store, line, t, h, dt, dh, ts);
    Dashboard.RefreshAppends(b, WithClimate(store, t, h, ts));
  }
}
