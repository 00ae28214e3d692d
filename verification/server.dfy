/** The sensor server's per-connection handler (`sensor_server` in
    Linux-VM-Server/server.py): one received payload is stripped, sent down
    one of four prefix branches that update the shared record, and
    acknowledged with `OK`. The socket, the lock and the clock are outside
    the model: the payload and its timestamp are parameters, and each locked
    block is one atomic step. */
module Server {
  import opened Wrappers
  import opened Text
  import opened Numeric

  /** A `time.strftime("%Y-%m-%d %H:%M:%S")` stamp, treated as opaque text. */
  type Timestamp = string

  /** The `shared_data` dictionary. Every history is unbounded. */
  datatype Store = Store(
    waterHistory: seq<(Timestamp, string)>,
    currentWater: string,
    pestHistory: seq<(Timestamp, string)>,
    pestTotalHistory: seq<(Timestamp, int)>,
    currentPest: string,
    pestCount: int,
    thHistory: seq<(Timestamp, real, real)>,
    currentTemp: string,
    currentHum: string)

  /** The record as the server starts with it. */
  const Initial: Store :=
    Store([], "N/A", [], [], "No Pests Detected", 0, [], "N/A", "N/A")

  const WaterPrefix := "Water level"
  const PestPrefix := "Pest"
  const PestDetected := "Pest Detected"
  const TotalPrefix := "Total Pests Detected"
  const ClimatePrefix := "Temperature:"

  /** The branch of the `if`/`elif` chain a stripped line takes. */
  datatype Branch = WaterBranch | PestBranch | TotalBranch | ClimateBranch | NoBranch

  function BranchOf(line: string): Branch {
    if StartsWith(line, WaterPrefix) then WaterBranch
    else if StartsWith(line, PestPrefix) then PestBranch
    else if StartsWith(line, TotalPrefix) then TotalBranch
    else if StartsWith(line, ClimatePrefix) then ClimateBranch
    else NoBranch
  }

  /** The one exception that can escape the handler: `IndexError` from
      `line.split(":")[1]` on a total line without a colon, which the
      `except ValueError` around it does not catch. */
  datatype Fault = IndexError

  /** `int(line.split(":")[1].strip())`: None is a caught ValueError. */
  function ReadTotal(line: string): Result<Option<int>, Fault> {
    match Field(line, ":", 1)
    case None => Err(IndexError)
    case Some(f) => Ok(ParseInt(Strip(f)))
  }

  /** The two `float(...)` extractions of the climate branch; None when
      either raises (both `IndexError` and `ValueError` are caught there). */
  function ReadClimate(line: string): Option<(real, real)> {
    match Field(line, ClimatePrefix, 1)
    case None => None
    case Some(afterT) =>
      match ParseFloat(Field(afterT, "\U{B0}C", 0).GetOr(""))
      case None => None
      case Some(t) =>
        match Field(line, "Humidity:", 1)
        case None => None
        case Some(afterH) =>
          match ParseFloat(Field(afterH, "%", 0).GetOr(""))
          case None => None
          case Some(h) => Some((t, h))
  }

  /** `f"{t:.1f} °C"` and `f"{h:.1f} %"`. */
  function TempText(t: real): string {
    Fixed(t, 1, false) + " \U{B0}C"
  }

  function HumText(h: real): string {
    Fixed(h, 1, false) + " %"
  }

  /** The current texts read back: each is the reading printed to one
      place followed by its unit, and `float` reads the number back as the
      reading rounded to one place. */
  lemma CurrentTextsReadBack(t: real, h: real)
    ensures UnitReading(TempText(t), " \U{B0}C", Rounded(t, 1))
    ensures UnitReading(HumText(h), " %", Rounded(h, 1))
  {
    ReadingText(t, " \U{B0}C", TempText(t));
    ReadingText(h, " %", HumText(h));
  }

  /** `d` is a number followed by `unit`, and `float` reads the number as `v`. */
  predicate UnitReading(d: string, unit: string, v: real) {
    && |d| > |unit|
    && d[|d| - |unit|..] == unit
    && ParseFloat(d[..|d| - |unit|]) == Some(v)
  }

  lemma ReadingText(x: real, unit: string, d: string)
    requires d == Fixed(x, 1, false) + unit
    ensures UnitReading(d, unit, Rounded(x, 1))
  {
    var f := Fixed(x, 1, false);
    FixedTrimmed(x, 1, false);
    ParseFixedBare(x, 1, false);
    StripTrimmed(f);
    assert d[..|d| - |unit|] == f;
    assert d[|d| - |unit|..] == unit;
  }

  /** The locked block for one stripped line stamped `ts`. */
  function Apply(store: Store, line: string, ts: Timestamp): (r: Result<Store, Fault>)
    ensures r.Err? <==> BranchOf(line) == TotalBranch && ':' !in line
  {
    match BranchOf(line)
    case WaterBranch =>
      Ok(store.(currentWater := line, waterHistory := store.waterHistory + [(ts, line)]))
    case PestBranch =>
      var count := if StartsWith(line, PestDetected) then store.pestCount + 1 else store.pestCount;
      Ok(store.(pestCount := count, currentPest := line, pestHistory := store.pestHistory + [(ts, line)]))
    case TotalBranch =>
      SplitsIffIn(line, ':');
      (match ReadTotal(line)
       case Err(e) => Err(e)
       case Ok(None) => Ok(store)
       case Ok(Some(tot)) =>
         Ok(store.(pestCount := tot, pestTotalHistory := store.pestTotalHistory + [(ts, tot)])))
    case ClimateBranch =>
      (match ReadClimate(line)
       case None => Ok(store)
       case Some((t, h)) =>
         Ok(store.(currentTemp := TempText(t), currentHum := HumText(h),
                   thHistory := store.thHistory + [(ts, t, h)])))
    case NoBranch => Ok(store)
  }

  /** What one connection amounts to. */
  datatype Outcome =
    | Skipped            // empty payload: `continue`, no reply
    | Acked(store: Store)  // the line was applied and `OK` sent
    | Aborted            // an exception escaped: no reply, and the server thread ends

  function Handle(store: Store, payload: string, ts: Timestamp): (r: Outcome)
  {
    if payload == "" then Skipped
    else
      match Apply(store, Strip(payload), ts)
      case Ok(s) => Acked(s)
      case Err(_) => Aborted
  }

  /** An empty payload is skipped without a reply; any other payload is
      acknowledged unless applying its stripped line raises. */
  lemma HandleOutcome(store: Store, payload: string, ts: Timestamp)
    ensures Handle(store, payload, ts).Skipped? <==> payload == ""
    ensures Handle(store, payload, ts).Aborted? <==> payload != "" && Apply(store, Strip(payload), ts).Err?
    ensures Handle(store, payload, ts).Acked? <==> payload != "" && Apply(store, Strip(payload), ts).Ok?
  {
  }

  /** The server's record and acknowledgements after a run of connections,
      in the order the lock admitted them. */
  datatype Session = Session(store: Store, acks: nat, running: bool)

  function Serve(session: Session, msgs: seq<(string, Timestamp)>): (r: Session)
    ensures r.acks >= session.acks
    ensures !session.running ==> r == session
    decreases |msgs|
  {
    if |msgs| == 0 || !session.running then session
    else Serve(Step(session, msgs[0].0, msgs[0].1), msgs[1..])
  }

  /** A running server handles the first connection, then the rest. */
  lemma ServeHead(session: Session, a: seq<(string, Timestamp)>, next: Session)
    requires session.running && |a| > 0 && next == Step(session, a[0].0, a[0].1)
    ensures Serve(session, a) == Serve(next, a[1..])
  {
  }

  /** One connection handled by a running server. */
  function Step(session: Session, payload: string, ts: Timestamp): Session {
    match Handle(session.store, payload, ts)
    case Skipped => session
    case Acked(s) => Session(s, session.acks + 1, true)
    case Aborted => session.(running := false)
  }

  /** The four prefixes differ in their first two characters, so a line
      starts with at most one of them, and the order of the `elif` chain
      does not matter: each branch is taken exactly when the line starts
      with that branch's prefix. */
  lemma BranchIffPrefix(line: string)
    ensures BranchOf(line) == WaterBranch <==> StartsWith(line, WaterPrefix)
    ensures BranchOf(line) == PestBranch <==> StartsWith(line, PestPrefix)
    ensures BranchOf(line) == TotalBranch <==> StartsWith(line, TotalPrefix)
    ensures BranchOf(line) == ClimateBranch <==> StartsWith(line, ClimatePrefix)
    ensures BranchOf(line) == NoBranch <==>
              !StartsWith(line, WaterPrefix) && !StartsWith(line, PestPrefix) &&
              !StartsWith(line, TotalPrefix) && !StartsWith(line, ClimatePrefix)
  {
    LeadingPair(line, WaterPrefix);
    LeadingPair(line, PestPrefix);
    LeadingPair(line, TotalPrefix);
    LeadingPair(line, ClimatePrefix);
  }

  lemma LeadingPair(line: string, p: string)
    requires |p| >= 2
    ensures StartsWith(line, p) ==> line[0] == p[0] && line[1] == p[1]
  {
    if StartsWith(line, p) {
      StartsWithAt(line, p, 0);
      StartsWithAt(line, p, 1);
    }
  }

  /** No history ever shrinks, and one line grows at most one history, by
      exactly one entry stamped `ts`. */
  lemma HistoriesGrow(store: Store, line: string, ts: Timestamp)
    requires Apply(store, line, ts).Ok?
    ensures var s := Apply(store, line, ts).value;
      && store.waterHistory <= s.waterHistory
      && store.pestHistory <= s.pestHistory
      && store.pestTotalHistory <= s.pestTotalHistory
      && store.thHistory <= s.thHistory
      && |s.waterHistory| + |s.pestHistory| + |s.pestTotalHistory| + |s.thHistory|
         <= |store.waterHistory| + |store.pestHistory| + |store.pestTotalHistory| + |store.thHistory| + 1
    ensures var s := Apply(store, line, ts).value;
      && (|s.waterHistory| > |store.waterHistory| ==> s.waterHistory[|store.waterHistory|] == (ts, line))
      && (|s.pestHistory| > |store.pestHistory| ==> s.pestHistory[|store.pestHistory|] == (ts, line))
      && (|s.pestTotalHistory| > |store.pestTotalHistory| ==> s.pestTotalHistory[|store.pestTotalHistory|].0 == ts)
      && (|s.thHistory| > |store.thHistory| ==> s.thHistory[|store.thHistory|].0 == ts)
  {
    var s := Apply(store, line, ts).value;
    BranchIffPrefix(line);
    if StartsWith(line, WaterPrefix) {
      WaterLine(store, line, ts);
      GrowsByOne(store, s, line, ts, Some(0), None, None);
    } else if StartsWith(line, PestPrefix) {
      PestLine(store, line, ts);
      GrowsByOne(store, s, line, ts, Some(1), None, None);
    } else if StartsWith(line, TotalPrefix) {
      match ReadTotal(line)
      case Ok(Some(n)) =>
        TotalLine(store, line, ts, n);
        GrowsByOne(store, s, line, ts, Some(2), Some(n), None);
      case Ok(None) =>
        TotalMalformed(store, line, ts);
        GrowsByOne(store, s, line, ts, None, None, None);
      case Err(_) =>
        assert false;
    } else if StartsWith(line, ClimatePrefix) {
      ClimateAtomic(store, line, ts);
      match ReadClimate(line)
      case Some(th) =>
        ClimateLine(store, line, ts, th.0, th.1);
        GrowsByOne(store, s, line, ts, Some(3), None, Some(th));
      case None =>
        GrowsByOne(store, s, line, ts, None, None, None);
    } else {
      Unrecognized(store, line, ts);
      GrowsByOne(store, s, line, ts, None, None, None);
    }
  }

  /** The bookkeeping of `HistoriesGrow` for the five shapes a new record
      can take: unchanged, or one of the four histories extended by one
      entry stamped `ts`. */
  lemma GrowsByOne(store: Store, s: Store, line: string, ts: Timestamp,
                   which: Option<nat>, tot: Option<int>, th: Option<(real, real)>)
    requires which.None? ==> s == store
    requires which == Some(0) ==>
      s == store.(currentWater := line, waterHistory := store.waterHistory + [(ts, line)])
    requires which == Some(1) ==>
      s.(currentPest := store.currentPest, pestCount := store.pestCount) ==
      store.(pestHistory := store.pestHistory + [(ts, line)])
    requires which == Some(2) ==>
      && tot.Some?
      && s == store.(pestCount := tot.value, pestTotalHistory := store.pestTotalHistory + [(ts, tot.value)])
    requires which == Some(3) ==>
      && th.Some?
      && s == store.(currentTemp := TempText(th.value.0), currentHum := HumText(th.value.1),
                     thHistory := store.thHistory + [(ts, th.value.0, th.value.1)])
    requires which.None? || which.value < 4
    ensures && store.waterHistory <= s.waterHistory
      && store.pestHistory <= s.pestHistory
      && store.pestTotalHistory <= s.pestTotalHistory
      && store.thHistory <= s.thHistory
      && |s.waterHistory| + |s.pestHistory| + |s.pestTotalHistory| + |s.thHistory|
         <= |store.waterHistory| + |store.pestHistory| + |store.pestTotalHistory| + |store.thHistory| + 1
    ensures && (|s.waterHistory| > |store.waterHistory| ==> s.waterHistory[|store.waterHistory|] == (ts, line))
      && (|s.pestHistory| > |store.pestHistory| ==> s.pestHistory[|store.pestHistory|] == (ts, line))
      && (|s.pestTotalHistory| > |store.pestTotalHistory| ==> s.pestTotalHistory[|store.pestTotalHistory|].0 == ts)
      && (|s.thHistory| > |store.thHistory| ==> s.thHistory[|store.thHistory|].0 == ts)
  {
  }

  /** A water line becomes the current water text and is appended to the
      water history; nothing else changes. */
  lemma WaterLine(store: Store, line: string, ts: Timestamp)
    requires StartsWith(line, WaterPrefix)
    ensures Apply(store, line, ts).Ok?
    ensures var s := Apply(store, line, ts).value;
      && s.currentWater == line
      && s.waterHistory == store.waterHistory + [(ts, line)]
      && s.(currentWater := store.currentWater, waterHistory := store.waterHistory) == store
  {
    BranchIffPrefix(line);
  }

  /** A "Pest" line becomes the current pest text and is appended to the
      pest history; the count rises by one exactly for "Pest Detected" lines. */
  lemma PestLine(store: Store, line: string, ts: Timestamp)
    requires StartsWith(line, PestPrefix)
    ensures Apply(store, line, ts).Ok?
    ensures var s := Apply(store, line, ts).value;
      && s.currentPest == line
      && s.pestHistory == store.pestHistory + [(ts, line)]
      && (s.pestCount == store.pestCount + 1 <==> StartsWith(line, PestDetected))
      && (s.pestCount == store.pestCount <==> !StartsWith(line, PestDetected))
      && s.(currentPest := store.currentPest, pestHistory := store.pestHistory,
            pestCount := store.pestCount) == store
  {
    BranchIffPrefix(line);
  }

  /** A "Pest Detected" line is a "Pest" line. */
  lemma DetectedIsPest(line: string)
    requires StartsWith(line, PestDetected)
    ensures StartsWith(line, PestPrefix)
  {
    DetectedSplit();
    StartsWithShorter(line, PestPrefix, " Detected");
  }

  lemma DetectedSplit()
    ensures PestDetected == PestPrefix + " Detected"
  {
  }

  /** The record a "Pest" line leaves, as one value. */
  lemma PestApplied(store: Store, line: string, ts: Timestamp)
    requires StartsWith(line, PestPrefix)
    ensures Apply(store, line, ts) ==
      Ok(store.(pestCount := if StartsWith(line, PestDetected) then store.pestCount + 1 else store.pestCount,
                currentPest := line, pestHistory := store.pestHistory + [(ts, line)]))
  {
    BranchIffPrefix(line);
  }

  /** A total line whose text after the first colon reads as an integer
      overwrites the count with it, lower or not, and logs it. */
  lemma TotalLine(store: Store, line: string, ts: Timestamp, n: int)
    requires StartsWith(line, TotalPrefix) && ReadTotal(line) == Ok(Some(n))
    ensures Apply(store, line, ts) ==
              Ok(store.(pestCount := n, pestTotalHistory := store.pestTotalHistory + [(ts, n)]))
  {
    BranchIffPrefix(line);
  }

  /** A total line whose number does not read leaves the record as it was
      (the ValueError is caught) but is still acknowledged. */
  lemma TotalMalformed(store: Store, line: string, ts: Timestamp)
    requires StartsWith(line, TotalPrefix) && ReadTotal(line) == Ok(None)
    ensures Apply(store, line, ts) == Ok(store)
  {
    BranchIffPrefix(line);
  }

  /** A payload that strips to a total line without a colon raises
      IndexError: no reply is sent and the server processes nothing after it. */
  lemma TotalWithoutColon(session: Session, line: string, ts: Timestamp, rest: seq<(string, Timestamp)>)
    requires session.running && StartsWith(Strip(line), TotalPrefix) && ':' !in line
    ensures Handle(session.store, line, ts) == Aborted
    ensures Serve(session, [(line, ts)] + rest) == session.(running := false)
  {
    TotalAborts(session.store, line, ts);
    StopsServing(session, line, ts, rest);
  }

  lemma TotalAborts(store: Store, line: string, ts: Timestamp)
    requires StartsWith(Strip(line), TotalPrefix) && ':' !in line
    ensures Handle(store, line, ts) == Aborted
  {
    var stripped := Strip(line);
    StripKeepsOut(line, ':');
    BranchIffPrefix(stripped);
    NonEmptyPrefixed(stripped, TotalPrefix);
    HandleOutcome(store, line, ts);
  }

  lemma NonEmptyPrefixed(line: string, p: string)
    requires StartsWith(line, p) && |p| > 0
    ensures line != ""
  {
  }

  lemma StopsServing(session: Session, line: string, ts: Timestamp, rest: seq<(string, Timestamp)>)
    requires session.running && Handle(session.store, line, ts) == Aborted
    ensures Serve(session, [(line, ts)] + rest) == session.(running := false)
  {
    assert ([(line, ts)] + rest)[0] == (line, ts);
    assert ([(line, ts)] + rest)[1..] == rest;
    assert Step(session, line, ts) == session.(running := false);
  }

  /** A climate line updates the temperature text, the humidity text and the
      climate history together, or changes nothing. */
  lemma ClimateAtomic(store: Store, line: string, ts: Timestamp)
    requires StartsWith(line, ClimatePrefix)
    ensures Apply(store, line, ts).Ok?
    ensures var s := Apply(store, line, ts).value;
      || s == store
      || (&& |s.thHistory| == |store.thHistory| + 1
          && store.thHistory <= s.thHistory
          && var (stamp, t, h) := s.thHistory[|store.thHistory|];
          && stamp == ts && ReadClimate(line) == Some((t, h))
          && s.currentTemp == TempText(t) && s.currentHum == HumText(h)
          && s.(thHistory := store.thHistory, currentTemp := store.currentTemp,
                currentHum := store.currentHum) == store)
    ensures Apply(store, line, ts).value == store <==> ReadClimate(line).None?
  {
    BranchIffPrefix(line);
  }

  /** A climate line whose two numbers read sets both texts and logs the
      pair. */
  lemma ClimateLine(store: Store, line: string, ts: Timestamp, t: real, h: real)
    requires StartsWith(line, ClimatePrefix) && ReadClimate(line) == Some((t, h))
    ensures Apply(store, line, ts) ==
      Ok(store.(currentTemp := TempText(t), currentHum := HumText(h),
                thHistory := store.thHistory + [(ts, t, h)]))
  {
    BranchIffPrefix(line);
  }

  /** A line that starts with none of the four prefixes changes nothing. */
  lemma Unrecognized(store: Store, line: string, ts: Timestamp)
    requires !StartsWith(line, WaterPrefix) && !StartsWith(line, PestPrefix)
    requires !StartsWith(line, TotalPrefix) && !StartsWith(line, ClimatePrefix)
    ensures Apply(store, line, ts) == Ok(store)
  {
    BranchIffPrefix(line);
  }

  /** The total line the pest sensor sends reads back as the count it carries. */
  lemma TotalRoundTrip(n: int)
    ensures ReadTotal(TotalPrefix + ": " + FormatInt(n)) == Ok(Some(n))
  {
    var f := FormatInt(n);
    FormatIntShape(n);
    NumericExcludes(f, ':');
    SecondField(TotalPrefix, ":", " " + f, TotalPrefix + ": " + f);
    SpacedInt(n);
  }

  lemma SpacedInt(n: int)
    ensures ParseInt(Strip(" " + FormatInt(n))) == Some(n)
  {
    var f := FormatInt(n);
    FormatIntShape(n);
    StripPadded(" ", f, "");
    assert " " + f + "" == " " + f;
    ParseFormatInt(n, "", "");
    assert "" + f + "" == f;
  }

  /** How many of the payloads are "Pest Detected" lines once stripped. */
  function Detections(msgs: seq<(string, Timestamp)>): nat {
    if |msgs| == 0 then 0
    else (if StartsWith(Strip(msgs[0].0), PestDetected) then 1 else 0) + Detections(msgs[1..])
  }

  /** The pest history entries a run of payloads makes: each stripped
      payload with its stamp, in order (`Server.EntriesAt`). */
  function PestEntries(msgs: seq<(string, Timestamp)>): (r: seq<(Timestamp, string)>)
    ensures |r| == |msgs|
    decreases |msgs|
  {
    if |msgs| == 0 then []
    else
      var tail := PestEntries(msgs[1..]);
      assert |[Entry(msgs[0])] + tail| == 1 + |tail|;
      [Entry(msgs[0])] + tail
  }

  /** The history entry one payload makes: its stamp and its stripped text. */
  function Entry(m: (string, Timestamp)): (Timestamp, string) {
    (m.1, Strip(m.0))
  }

  /** Entry `i` of a run is payload `i`'s stamp and stripped text. */
  lemma {:induction false} EntriesAt(msgs: seq<(string, Timestamp)>, i: nat)
    requires i < |msgs|
    ensures PestEntries(msgs)[i] == (msgs[i].1, Strip(msgs[i].0))
    decreases i
  {
    var rest := msgs[1..];
    var tail := PestEntries(rest);
    assert PestEntries(msgs) == [Entry(msgs[0])] + tail;
    if i > 0 {
      EntriesAt(rest, i - 1);
      TailAt(msgs, rest, i);
      ConsAt(Entry(msgs[0]), tail, i);
    }
  }

  lemma ConsAt<T>(h: T, t: seq<T>, i: nat)
    requires 0 < i <= |t|
    ensures ([h] + t)[i] == t[i - 1]
  {
  }

  /** A payload the pest branch takes: stripped, it starts with "Pest". */
  predicate PestPayload(p: string) {
    StartsWith(Strip(p), PestPrefix)
  }

  /** Every payload of the run is one the pest branch takes. */
  predicate PestPayloads(msgs: seq<(string, Timestamp)>) {
    forall i :: 0 <= i < |msgs| ==> PestPayload(msgs[i].0)
  }

  /** After a run of "Pest" payloads the count has risen by the number of
      "Pest Detected" lines among them, each stripped payload was logged in
      order with its stamp, the last one is the current pest text, every
      payload was acknowledged, and no total was logged. */
  lemma {:induction false} PestRun(session: Session, msgs: seq<(string, Timestamp)>)
    requires session.running
    requires PestPayloads(msgs)
    ensures var r := Serve(session, msgs);
      && r.running && r.acks == session.acks + |msgs|
      && r.store.pestCount == session.store.pestCount + Detections(msgs)
      && r.store.pestHistory == session.store.pestHistory + PestEntries(msgs)
      && (|msgs| > 0 ==> r.store.currentPest == Strip(msgs[|msgs| - 1].0))
      && r.store.pestTotalHistory == session.store.pestTotalHistory
    decreases |msgs|
  {
    if |msgs| == 0 {
      assert PestEntries(msgs) == [];
    } else {
      var (p, ts) := msgs[0];
      var rest := msgs[1..];
      assert PestPayload(p);
      PestStep(session, p, ts);
      var next := Step(session, p, ts);
      ServeHead(session, msgs, next);
      TailPayloads(msgs, rest);
      PestRun(next, rest);
      RunCons(session.store, next.store, Serve(next, rest).store, msgs, rest);
    }
  }

  /** The inductive step of `PestRun`: what the head payload did to the
      store, followed by what the rest of the run did. */
  lemma RunCons(s0: Store, s1: Store, r: Store, msgs: seq<(string, Timestamp)>, rest: seq<(string, Timestamp)>)
    requires |msgs| > 0 && rest == msgs[1..]
    requires s1.pestCount == s0.pestCount + (if StartsWith(Strip(msgs[0].0), PestDetected) then 1 else 0)
    requires s1.pestHistory == s0.pestHistory + [(msgs[0].1, Strip(msgs[0].0))]
    requires s1.currentPest == Strip(msgs[0].0)
    requires s1.pestTotalHistory == s0.pestTotalHistory
    requires r.pestCount == s1.pestCount + Detections(rest)
    requires r.pestHistory == s1.pestHistory + PestEntries(rest)
    requires |rest| > 0 ==> r.currentPest == Strip(rest[|rest| - 1].0)
    requires |rest| == 0 ==> r == s1
    requires r.pestTotalHistory == s1.pestTotalHistory
    ensures r.pestCount == s0.pestCount + Detections(msgs)
    ensures r.pestHistory == s0.pestHistory + PestEntries(msgs)
    ensures r.currentPest == Strip(msgs[|msgs| - 1].0)
    ensures r.pestTotalHistory == s0.pestTotalHistory
  {
    assert Entry(msgs[0]) == (msgs[0].1, Strip(msgs[0].0));
    assert PestEntries(msgs) == [Entry(msgs[0])] + PestEntries(rest);
    Assoc(s0.pestHistory, [Entry(msgs[0])], PestEntries(rest));
    if |rest| > 0 {
      TailLast(msgs, rest);
    } else {
      assert |msgs| - 1 == 0;
    }
  }

  lemma TailPayloads(msgs: seq<(string, Timestamp)>, rest: seq<(string, Timestamp)>)
    requires |msgs| > 0 && rest == msgs[1..]
    requires PestPayloads(msgs)
    ensures PestPayloads(rest)
  {
    forall i | 0 <= i < |rest|
      ensures PestPayload(rest[i].0)
    {
      assert rest[i] == msgs[i + 1];
    }
  }

  lemma TailAt<T>(xs: seq<T>, rest: seq<T>, i: nat)
    requires 0 < i < |xs| && rest == xs[1..]
    ensures rest[i - 1] == xs[i]
  {
  }

  lemma TailLast<T>(xs: seq<T>, rest: seq<T>)
    requires |xs| > 1 && rest == xs[1..]
    ensures rest[|rest| - 1] == xs[|xs| - 1]
  {
  }

  /** One "Pest" payload handled by a running server. */
  lemma PestStep(session: Session, p: string, ts: Timestamp)
    requires session.running && PestPayload(p)
    ensures var next := Step(session, p, ts);
      && next.running && next.acks == session.acks + 1
      && next.store.pestCount == session.store.pestCount + (if StartsWith(Strip(p), PestDetected) then 1 else 0)
      && next.store.pestHistory == session.store.pestHistory + [(ts, Strip(p))]
      && next.store.currentPest == Strip(p)
      && next.store.pestTotalHistory == session.store.pestTotalHistory
  {
    PestLine(session.store, Strip(p), ts);
  }
}
