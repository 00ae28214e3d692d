/** The pest sensor's motion handler (`PestDetectionSensor._handle_motion`
    in Raspberry-Pi-Client/Pest_Detection_Sensor.py): a running count of
    motion events and two messages per event. The PIR callback wiring and
    the settle delay are left out; a motion event is one call. */
module PestSensor {
  import opened Numeric

  datatype Sensor = Sensor(pestCount: int)

  /** The state the constructor leaves. */
  const Fresh: Sensor := Sensor(0)

  /** The two messages the sensor sends; `Wire` is the text put on the wire. */
  datatype Message = Detected | Total(count: int)

  function Wire(m: Message): string {
    match m
    case Detected => "Pest Detected"
    case Total(n) => "Total Pests Detected: " + FormatInt(n)
  }

  /** One motion event: the count goes up by one, then "Pest Detected" and
      the new total are sent, in that order. */
  function HandleMotion(s: Sensor): (r: (Sensor, seq<Message>))
    ensures r.0.pestCount == s.pestCount + 1
    ensures r.1 == [Detected, Total(r.0.pestCount)]
  {
    var n := s.pestCount + 1;
    (Sensor(n), [Detected, Total(n)])
  }

  /** `k` motion events in a row: the final state and every message sent. */
  function Motions(s: Sensor, k: nat): (r: (Sensor, seq<Message>))
    ensures |r.1| == 2 * k
    decreases k
  {
    if k == 0 then (s, [])
    else
      var before := Motions(s, k - 1);
      var step := HandleMotion(before.0);
      (step.0, before.1 + step.1)
  }

  /** After `k` events from any state the count has risen by `k`, and the
      `i`-th event sent "Pest Detected" followed by the count it reached. */
  lemma {:induction false} MotionsCount(s: Sensor, k: nat)
    ensures Motions(s, k).0.pestCount == s.pestCount + k
    ensures forall i :: 0 <= i < k ==>
      Motions(s, k).1[2 * i] == Detected && Motions(s, k).1[2 * i + 1] == Total(s.pestCount + i + 1)
    decreases k
  {
    if k > 0 {
      MotionsCount(s, k - 1);
      var first := Motions(s, k - 1).1;
      var all := Motions(s, k).1;
      assert all == first + [Detected, Total(s.pestCount + k)];
      forall i | 0 <= i < k
        ensures all[2 * i] == Detected && all[2 * i + 1] == Total(s.pestCount + i + 1)
      {
        if i < k - 1 {
          assert all[2 * i] == first[2 * i] && all[2 * i + 1] == first[2 * i + 1];
        }
      }
    }
  }

  /** From a fresh sensor, `k` events leave the count at `k`, and the
      totals sent are 1, 2, ..., k in that order. */
  lemma FreshTotals(k: nat)
    ensures Motions(Fresh, k).0.pestCount == k
    ensures forall i :: 0 <= i < k ==> Motions(Fresh, k).1[2 * i + 1] == Total(i + 1)
  {
    MotionsCount(Fresh, k);
  }
}
