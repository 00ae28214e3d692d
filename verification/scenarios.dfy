/** Concrete runs of the server: the lines other programs put on the wire
    that no branch takes, and three detections followed by a total. */
module Scenarios {
  import opened Text
  import opened Numeric
  import opened Server
  import PestSensor
  import Pipeline

  /** "No Pests Detected" starts with none of the four prefixes (it is not
      a "Pest" line), and neither does the client's farewell; both are
      acknowledged and change nothing. */
  lemma IgnoredLines(store: Store, ts: Timestamp)
    ensures Handle(store, "No Pests Detected", ts) == Acked(store)
    ensures Handle(store, "Client 1 disconnected", ts) == Acked(store)
  {
    NotTaken(store, "No Pests Detected", ts);
    NotTaken(store, "Client 1 disconnected", ts);
  }

  lemma NotTaken(store: Store, line: string, ts: Timestamp)
    requires |line| >= 2 && line[0] != 'W' && line[0] != 'P' && line[0] != 'T'
    requires Trimmed(line)
    ensures Handle(store, line, ts) == Acked(store)
  {
    LeadingPair(line, WaterPrefix);
    LeadingPair(line, PestPrefix);
    LeadingPair(line, TotalPrefix);
    LeadingPair(line, ClimatePrefix);
    StripTrimmed(line);
    Unrecognized(store, line, ts);
  }

  /** A server that starts from its initial record and receives only "Pest"
      payloads counts the "Pest Detected" lines among them, logs every
      stripped payload in order, and shows the last one (or its initial
      "No Pests Detected" when there was none). */
  lemma FreshPests(msgs: seq<(string, Timestamp)>)
    requires PestPayloads(msgs)
    ensures var r := Serve(Session(Initial, 0, true), msgs);
      && r.running && r.acks == |msgs|
      && r.store.pestCount == Detections(msgs)
      && r.store.pestHistory == PestEntries(msgs)
      && r.store.currentPest == (if |msgs| == 0 then "No Pests Detected" else Strip(msgs[|msgs| - 1].0))
  {
    FreshSession(Session(Initial, 0, true), msgs, Initial.currentPest);
  }

  lemma FreshSession(session: Session, msgs: seq<(string, Timestamp)>, initial: string)
    requires session.running && session.acks == 0 && session.store.pestCount == 0
    requires session.store.pestHistory == [] && session.store.currentPest == initial
    requires PestPayloads(msgs)
    ensures var r := Serve(session, msgs);
      && r.running && r.acks == |msgs|
      && r.store.pestCount == Detections(msgs)
      && r.store.pestHistory == PestEntries(msgs)
      && r.store.currentPest == (if |msgs| == 0 then initial else Strip(msgs[|msgs| - 1].0))
  {
    PestRun(session, msgs);
    EmptyLeft(PestEntries(msgs));
  }

  lemma EmptyLeft<T>(x: seq<T>)
    ensures [] + x == x
  {
  }

  /** `str(10)` is "10". */
  lemma Ten()
    ensures FormatInt(10) == "10"
  {
    assert NatDigits(1) == "1";
    assert NatDigits(10) == NatDigits(1) + [DigitChar(0)];
  }

  /** Any run of "Pest" lines followed by a total: the total overwrites
      the count whatever the run did to it, and every line is logged and
      acknowledged. */
  lemma PestsThenTotal(session: Session, msgs: seq<(string, Timestamp)>, n: int, ts: Timestamp)
    requires session.running
    requires PestPayloads(msgs)
    ensures var r := Serve(session, msgs + [(PestSensor.Wire(PestSensor.Total(n)), ts)]);
      && r.running && r.acks == session.acks + |msgs| + 1
      && r.store.pestCount == n
      && |r.store.pestHistory| == |session.store.pestHistory| + |msgs|
      && r.store.pestTotalHistory == session.store.pestTotalHistory + [(ts, n)]
  {
    var line := PestSensor.Wire(PestSensor.Total(n));
    Pipeline.ServeAppend(session, msgs, [(line, ts)]);
    PestRun(session, msgs);
    var mid := Serve(session, msgs);
    Pipeline.TotalArrives(mid.store, n, ts);
    var st := mid.store.(pestCount := n, pestTotalHistory := mid.store.pestTotalHistory + [(ts, n)]);
    Pipeline.StepAcked(mid, line, ts, st);
    assert [(line, ts)][1..] == [];
  }

  /** Three "Pest Detected" lines and then "Total Pests Detected: 10":
      the count ends at 10 whatever it was, three detections and one total
      are logged, and all four lines are acknowledged. */
  lemma DetectionsThenTotal(session: Session, t1: Timestamp, t2: Timestamp, t3: Timestamp, t4: Timestamp)
    requires session.running
    ensures var r := Serve(session, [(PestDetected, t1), (PestDetected, t2), (PestDetected, t3),
                                     ("Total Pests Detected: 10", t4)]);
      && r.running && r.acks == session.acks + 4
      && r.store.pestCount == 10
      && |r.store.pestHistory| == |session.store.pestHistory| + 3
      && r.store.pestTotalHistory == session.store.pestTotalHistory + [(t4, 10)]
  {
    var three := [(PestDetected, t1), (PestDetected, t2), (PestDetected, t3)];
    Ten();
    assert PestSensor.Wire(PestSensor.Total(10)) == "Total Pests Detected: 10";
    assert three + [("Total Pests Detected: 10", t4)] == [(PestDetected, t1), (PestDetected, t2), (PestDetected, t3),
                            ("Total Pests Detected: 10", t4)];
    DetectedPayload();
    SamePayloads(three, PestDetected);
    PestsThenTotal(session, three, 10, t4);
  }

  /** A run whose payloads are all one "Pest" payload is a pest run. */
  lemma SamePayloads(msgs: seq<(string, Timestamp)>, p: string)
    requires PestPayload(p)
    requires forall i :: 0 <= i < |msgs| ==> msgs[i].0 == p
    ensures PestPayloads(msgs)
  {
  }

  lemma DetectedPayload()
    ensures PestPayload(PestDetected)
  {
    DetectedSplit();
    StartsWithConcat(PestPrefix, " Detected");
    StripTrimmed(PestDetected);
  }
}
