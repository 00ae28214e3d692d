/** The data half of the dashboard's `refresh` (Linux-VM-Server/Dashboard.py):
    four rolling buffers of at most 300 values, each refresh appending the
    latest value of each metric read from a snapshot of the server's record.
    Plotting, the y-ticks and the timer are left out. */
module Dashboard {
  import opened Wrappers
  import opened Text
  import opened Numeric
  import opened Server

  /** `deque(maxlen=300)`. */
  const Capacity: nat := 300

  /** `buf.append(x)` on a bounded deque: the oldest values go once the
      buffer is over capacity. */
  function Push<T>(buf: seq<T>, x: T): (r: seq<T>)
    ensures |buf| <= Capacity ==> |r| <= Capacity
    ensures |r| > 0 && r[|r| - 1] == x
  {
    var all := buf + [x];
    if |all| > Capacity then all[|all| - Capacity..] else all
  }

  /** The last `min(300, |s|)` values of `s`: what a bounded deque that has
      been handed `s` one value at a time holds. */
  function Window<T>(s: seq<T>): (r: seq<T>)
    ensures |r| <= Capacity
  {
    if |s| > Capacity then s[|s| - Capacity..] else s
  }

  /** Pushing onto the window of `s` gives the window of `s` extended. */
  lemma PushWindow<T>(s: seq<T>, x: T)
    ensures Push(Window(s), x) == Window(s + [x])
  {
    if |s| > Capacity {
      assert (s[|s| - Capacity..] + [x])[1..] == (s + [x])[|s| + 1 - Capacity..];
    }
  }

  /** Pushing the values one at a time. */
  function PushAll<T>(buf: seq<T>, xs: seq<T>): seq<T>
    decreases |xs|
  {
    if |xs| == 0 then buf else PushAll(Push(buf, xs[0]), xs[1..])
  }

  /** A buffer that started empty holds the last `min(300, n)` of the `n`
      values pushed, oldest first. */
  lemma {:induction false} Rolling<T>(s: seq<T>, xs: seq<T>)
    ensures PushAll(Window(s), xs) == Window(s + xs)
    decreases |xs|
  {
    if |xs| == 0 {
      assert s + xs == s;
    } else {
      var s' := s + [xs[0]];
      PushWindow(s, xs[0]);
      Rolling(s', xs[1..]);
      ConsShift(s, xs);
    }
  }

  lemma ConsShift<T>(s: seq<T>, xs: seq<T>)
    requires |xs| > 0
    ensures (s + [xs[0]]) + xs[1..] == s + xs
  {
  }

  datatype Buffers = Buffers(water: seq<real>, pest: seq<int>, temp: seq<real>, hum: seq<real>)

  const Empty: Buffers := Buffers([], [], [], [])

  predicate Capped(b: Buffers) {
    |b.water| <= Capacity && |b.pest| <= Capacity && |b.temp| <= Capacity && |b.hum| <= Capacity
  }

  /** `float(line.split(":")[1].split("cm")[0])`, None where that raises. */
  function WaterReading(line: string): Option<real> {
    match Field(line, ":", 1)
    case None => None
    case Some(f) => ParseFloat(Field(f, "cm", 0).GetOr(""))
  }

  /** One refresh over the snapshot `s` (the copies taken under the lock). */
  function Refresh(b: Buffers, s: Store): (r: Buffers)
    ensures Capped(b) ==> Capped(r)
    ensures |b.temp| == |b.hum| ==> |r.temp| == |r.hum|
  {
    var water :=
      if |s.waterHistory| == 0 then b.water
      else match WaterReading(s.waterHistory[|s.waterHistory| - 1].1)
        case None => b.water
        case Some(cm) => Push(b.water, cm);
    var pest :=
      if |s.pestTotalHistory| == 0 then b.pest
      else Push(b.pest, s.pestTotalHistory[|s.pestTotalHistory| - 1].1);
    var (temp, hum) :=
      if |s.thHistory| == 0 then (b.temp, b.hum)
      else
        var (_, tc, h) := s.thHistory[|s.thHistory| - 1];
        (Push(b.temp, tc), Push(b.hum, h));
    Buffers(water, pest, temp, hum)
  }

  /** The pest buffer takes the latest total exactly when the snapshot has
      one, and the temperature and humidity buffers take the two halves of
      the latest climate entry together. */
  lemma RefreshAppends(b: Buffers, s: Store)
    ensures var r := Refresh(b, s);
      && (|s.pestTotalHistory| == 0 ==> r.pest == b.pest)
      && (|s.pestTotalHistory| > 0 ==> r.pest == Push(b.pest, s.pestTotalHistory[|s.pestTotalHistory| - 1].1))
      && (|s.thHistory| == 0 ==> r.temp == b.temp && r.hum == b.hum)
      && (|s.thHistory| > 0 ==>
            r.temp == Push(b.temp, s.thHistory[|s.thHistory| - 1].1) &&
            r.hum == Push(b.hum, s.thHistory[|s.thHistory| - 1].2))
  {
  }

  /** The water buffer takes a value only when the latest water line has a
      number between its first colon and "cm"; otherwise it is unchanged. */
  lemma RefreshWater(b: Buffers, s: Store)
    ensures var r := Refresh(b, s);
      && (|s.waterHistory| == 0 ==> r.water == b.water)
      && (|s.waterHistory| > 0 ==>
            match WaterReading(s.waterHistory[|s.waterHistory| - 1].1)
            case None => r.water == b.water
            case Some(cm) => r.water == Push(b.water, cm))
  {
  }

  /** The water value a refresh reads from the snapshot, if any. */
  function LatestWater(s: Store): Option<real> {
    if |s.waterHistory| == 0 then None else WaterReading(s.waterHistory[|s.waterHistory| - 1].1)
  }

  /** Without new data a second refresh pushes onto every buffer the very
      value the first one pushed, the snapshot's latest reading for that
      buffer, and leaves alone the buffers the first one left alone. */
  lemma RefreshRepeats(b: Buffers, s: Store)
    ensures var r1 := Refresh(b, s); var r2 := Refresh(r1, s);
      && (LatestWater(s).None? ==> r2.water == r1.water == b.water)
      && (LatestWater(s).Some? ==>
            var cm := LatestWater(s).value;
            r1.water == Push(b.water, cm) && r2.water == Push(r1.water, cm) && r1.water[|r1.water| - 1] == cm)
      && (|s.pestTotalHistory| == 0 ==> r2.pest == r1.pest == b.pest)
      && (|s.pestTotalHistory| > 0 ==>
            var n := s.pestTotalHistory[|s.pestTotalHistory| - 1].1;
            r1.pest == Push(b.pest, n) && r2.pest == Push(r1.pest, n))
      && (|s.thHistory| == 0 ==> r2.temp == r1.temp == b.temp && r2.hum == r1.hum == b.hum)
      && (|s.thHistory| > 0 ==>
            var e := s.thHistory[|s.thHistory| - 1];
            && r1.temp == Push(b.temp, e.1) && r2.temp == Push(r1.temp, e.1)
            && r1.hum == Push(b.hum, e.2) && r2.hum == Push(r1.hum, e.2))
  {
    var r1 := Refresh(b, s);
    var r2 := Refresh(r1, s);
    RepeatWater(b, s, r1, r2);
    RepeatPest(b, s, r1, r2);
    RepeatClimate(b, s, r1, r2);
  }

  lemma RepeatWater(b: Buffers, s: Store, r1: Buffers, r2: Buffers)
    requires r1 == Refresh(b, s) && r2 == Refresh(r1, s)
    ensures LatestWater(s).None? ==> r2.water == r1.water == b.water
    ensures LatestWater(s).Some? ==>
      var cm := LatestWater(s).value;
      r1.water == Push(b.water, cm) && r2.water == Push(r1.water, cm) && r1.water[|r1.water| - 1] == cm
  {
    RefreshWater(b, s);
    RefreshWater(r1, s);
  }

  lemma RepeatPest(b: Buffers, s: Store, r1: Buffers, r2: Buffers)
    requires r1 == Refresh(b, s) && r2 == Refresh(r1, s)
    ensures |s.pestTotalHistory| == 0 ==> r2.pest == r1.pest == b.pest
    ensures |s.pestTotalHistory| > 0 ==>
      var n := s.pestTotalHistory[|s.pestTotalHistory| - 1].1;
      r1.pest == Push(b.pest, n) && r2.pest == Push(r1.pest, n)
  {
    RefreshAppends(b, s);
    RefreshAppends(r1, s);
  }

  lemma RepeatClimate(b: Buffers, s: Store, r1: Buffers, r2: Buffers)
    requires r1 == Refresh(b, s) && r2 == Refresh(r1, s)
    ensures |s.thHistory| == 0 ==> r2.temp == r1.temp == b.temp && r2.hum == r1.hum == b.hum
    ensures |s.thHistory| > 0 ==>
      var e := s.thHistory[|s.thHistory| - 1];
      && r1.temp == Push(b.temp, e.1) && r2.temp == Push(r1.temp, e.1)
      && r1.hum == Push(b.hum, e.2) && r2.hum == Push(r1.hum, e.2)
  {
    if |s.thHistory| == 0 {
      RefreshAppends(b, s);
      RefreshAppends(r1, s);
    } else {
      var e := s.thHistory[|s.thHistory| - 1];
      ClimatePushed(b, s, r1, e.1, e.2);
      ClimatePushed(r1, s, r2, e.1, e.2);
    }
  }

  lemma ClimatePushed(b: Buffers, s: Store, r: Buffers, tc: real, h: real)
    requires r == Refresh(b, s) && |s.thHistory| > 0
    requires tc == s.thHistory[|s.thHistory| - 1].1 && h == s.thHistory[|s.thHistory| - 1].2
    ensures r.temp == Push(b.temp, tc) && r.hum == Push(b.hum, h)
  {
    RefreshAppends(b, s);
  }
}
