/** The pure parts of the chat assistant (Linux-VM-Server/Smart_Agriculture_Assistant.py):
    the remover of terminal control sequences applied to the model's output,
    the prompt built from a snapshot of the server's record for the chosen
    context, and the guard that drops blank input. The window, the model
    process and the typing effect are left out. */
module Assistant {
  import opened Wrappers
  import opened Text
  import opened Numeric
  import opened Server

  // ---------------------------------------------------------------------
  // Control sequences: ESC '[' [0-9;?]* [ -/]* [@-~]
  // ---------------------------------------------------------------------

  const Esc: char := '\U{1B}'

  predicate ParamChar(c: char) { '0' <= c <= '9' || c == ';' || c == '?' }
  predicate InterChar(c: char) { ' ' <= c <= '/' }
  predicate FinalChar(c: char) { '@' <= c <= '~' }

  /** The length of the longest run of parameter characters heading `s`. */
  function ParamRun(s: string): (n: nat)
    ensures n <= |s|
    ensures forall k :: 0 <= k < n ==> ParamChar(s[k])
    ensures n < |s| ==> !ParamChar(s[n])
  {
    if |s| > 0 && ParamChar(s[0]) then 1 + ParamRun(s[1..]) else 0
  }

  /** The length of the longest run of intermediate characters heading `s`. */
  function InterRun(s: string): (n: nat)
    ensures n <= |s|
    ensures forall k :: 0 <= k < n ==> InterChar(s[k])
    ensures n < |s| ==> !InterChar(s[n])
  {
    if |s| > 0 && InterChar(s[0]) then 1 + InterRun(s[1..]) else 0
  }

  /** The length of the control sequence the pattern matches at the head of
      `s`, if any. The three character classes are disjoint, so the greedy
      runs are the only way the pattern can match. */
  function CsiLength(s: string): (r: Option<nat>)
    ensures r.Some? ==> 3 <= r.value <= |s|
  {
    if |s| < 2 || s[0] != Esc || s[1] != '[' then None
    else
      var a := 2 + ParamRun(s[2..]);
      var b := a + InterRun(s[a..]);
      if b < |s| && FinalChar(s[b]) then Some(b + 1) else None
  }

  /** The pattern read directly: `t` is ESC '[', parameter characters up to
      `a`, intermediate characters up to `b`, and one final character. */
  predicate CsiShape(t: string, a: nat, b: nat) {
    && 2 <= a <= b && b + 1 == |t| && t[0] == Esc && t[1] == '['
    && (forall k :: 2 <= k < a ==> ParamChar(t[k]))
    && (forall k :: a <= k < b ==> InterChar(t[k]))
    && FinalChar(t[b])
  }

  ghost predicate IsCsi(t: string) {
    exists a: nat, b: nat :: CsiShape(t, a, b)
  }

  /** `ANSI.sub('', t)`: scanning from the left, every control sequence is
      dropped and every other character kept. */
  function StripAnsi(s: string): (r: string)
    ensures |r| <= |s|
    decreases |s|
  {
    if |s| == 0 then ""
    else match CsiLength(s)
      case Some(n) => StripAnsi(s[n..])
      case None => [s[0]] + StripAnsi(s[1..])
  }

  lemma ParamRunIs(s: string, m: nat)
    requires m <= |s| && (forall k :: 0 <= k < m ==> ParamChar(s[k]))
    requires m < |s| ==> !ParamChar(s[m])
    ensures ParamRun(s) == m
  {
  }

  lemma InterRunIs(s: string, m: nat)
    requires m <= |s| && (forall k :: 0 <= k < m ==> InterChar(s[k]))
    requires m < |s| ==> !InterChar(s[m])
    ensures InterRun(s) == m
  {
  }

  /** What the scanner finds at the head of `s` matches the pattern. */
  lemma CsiFound(s: string, n: nat)
    requires CsiLength(s) == Some(n)
    ensures IsCsi(s[..n])
  {
    var a := 2 + ParamRun(s[2..]);
    var b := a + InterRun(s[a..]);
    var t := s[..n];
    assert forall k :: 2 <= k < a ==> t[k] == s[2..][k - 2];
    assert forall k :: a <= k < b ==> t[k] == s[a..][k - a];
    assert CsiShape(t, a, b);
  }

  /** A prefix of `s` that matches the pattern is what the scanner finds. */
  lemma CsiUnique(s: string, n: nat)
    requires n <= |s| && IsCsi(s[..n])
    ensures CsiLength(s) == Some(n)
  {
    var t := s[..n];
    var a: nat, b: nat :| CsiShape(t, a, b);
    assert forall k :: 0 <= k < a - 2 ==> s[2..][k] == t[k + 2];
    assert !ParamChar(s[a]) by { assert s[a] == t[a]; }
    ParamRunIs(s[2..], a - 2);
    assert forall k :: 0 <= k < b - a ==> s[a..][k] == t[k + a];
    assert s[b] == t[b];
    InterRunIs(s[a..], b - a);
  }

  /** The scanner and the pattern agree on every prefix. */
  lemma CsiMatch(s: string, n: nat)
    requires n <= |s|
    ensures CsiLength(s) == Some(n) <==> IsCsi(s[..n])
  {
    if CsiLength(s) == Some(n) {
      CsiFound(s, n);
    }
    if IsCsi(s[..n]) {
      CsiUnique(s, n);
    }
  }

  /** Text without an ESC character passes through unchanged. */
  lemma {:induction false} PlainUnchanged(s: string)
    requires Esc !in s
    ensures StripAnsi(s) == s
    decreases |s|
  {
    if |s| > 0 {
      assert s[0] != Esc;
      assert Esc !in s[1..];
      PlainUnchanged(s[1..]);
    }
  }

  /** Text without an ESC character is kept in front of whatever follows. */
  lemma {:induction false} PlainPrefix(x: string, y: string)
    requires Esc !in x
    ensures StripAnsi(x + y) == x + StripAnsi(y)
    decreases |x|
  {
    if |x| > 0 {
      var tail := x[1..] + y;
      assert Esc !in x[1..];
      PlainPrefix(x[1..], y);
      PlainStep(x, y, tail, StripAnsi(tail), StripAnsi(y));
    } else {
      assert x + y == y && x + StripAnsi(y) == StripAnsi(y);
    }
  }

  lemma PlainStep(x: string, y: string, tail: string, t: string, z: string)
    requires |x| > 0 && x[0] != Esc && tail == x[1..] + y
    requires t == StripAnsi(tail) && t == x[1..] + z
    ensures StripAnsi(x + y) == x + z
  {
    var s := x + y;
    assert s[0] == x[0];
    assert s[1..] == tail;
    KeepHead(s, tail);
    HeadAndRest(x, z);
  }

  /** A character other than ESC is kept. */
  lemma KeepHead(s: string, tail: string)
    requires |s| > 0 && s[0] != Esc && tail == s[1..]
    ensures StripAnsi(s) == [s[0]] + StripAnsi(tail)
  {
  }

  lemma HeadAndRest(x: string, z: string)
    requires |x| > 0
    ensures [x[0]] + (x[1..] + z) == x + z
  {
    assert x == [x[0]] + x[1..];
  }

  /** A control sequence is removed entirely. */
  lemma CsiRemoved(c: string, y: string)
    requires IsCsi(c)
    ensures StripAnsi(c + y) == StripAnsi(y)
  {
    var s := c + y;
    assert s[..|c|] == c && s[|c|..] == y;
    CsiUnique(s, |c|);
  }

  /** `a` can be had from `b` by deleting characters. */
  predicate IsSubsequence(a: string, b: string)
    decreases |b|
  {
    |a| == 0 || (|b| > 0 && ((a[0] == b[0] && IsSubsequence(a[1..], b[1..])) || IsSubsequence(a, b[1..])))
  }

  lemma {:induction false} SubsequenceOfSuffix(a: string, b: string, k: nat)
    requires k <= |b| && IsSubsequence(a, b[k..])
    ensures IsSubsequence(a, b)
    decreases k
  {
    if k > 0 {
      assert b[k - 1..][1..] == b[k..];
      SubsequenceOfSuffix(a, b, k - 1);
    }
  }

  /** The output keeps characters of the input, in their order. */
  lemma {:induction false} StripAnsiSubsequence(s: string)
    ensures IsSubsequence(StripAnsi(s), s)
    decreases |s|
  {
    if |s| > 0 {
      match CsiLength(s)
      case Some(n) =>
        StripAnsiSubsequence(s[n..]);
        SubsequenceOfSuffix(StripAnsi(s[n..]), s, n);
      case None =>
        StripAnsiSubsequence(s[1..]);
        var r := StripAnsi(s);
        assert r == [s[0]] + StripAnsi(s[1..]);
        assert r[0] == s[0] && r[1..] == StripAnsi(s[1..]);
    }
  }

  // ---------------------------------------------------------------------
  // Prompts
  // ---------------------------------------------------------------------

  const WaterContext := "Water Level"
  const PestContext := "Pest Detection"
  const ClimateContext := "Temperature and Humidity"

  const Agronomist := "You are an AI agronomist."
  const WaterIntro := "Water-level readings:"
  const PestIntro := "Pest-detection events:"
  const ClimateIntro := "Temperature and humidity readings:"
  /** One sentence, in three pieces so that each is checked for line
      breaks on its own (`IrrigationOneLine`). */
  const Irrigation := "Explain implications" + " for crop growth" + " and irrigation."
  const PestAsk := "Assess pest pressure and actions."

  /** How many of the latest climate readings the prompt lists. */
  const ClimateWindow: nat := 100

  /** `f"- {t}: {l}"`. */
  function Entry(ts: Timestamp, text: string): string {
    "- " + ts + ": " + text
  }

  /** `f"- {t}: {temp:.1f}°C, {hum:.1f}%"`. */
  function ClimateEntry(ts: Timestamp, t: real, h: real): string {
    "- " + ts + ": " + Fixed(t, 1, false) + "\U{B0}C, " + Fixed(h, 1, false) + "%"
  }

  function TextEntries(h: seq<(Timestamp, string)>): seq<string> {
    seq(|h|, i requires 0 <= i < |h| => Entry(h[i].0, h[i].1))
  }

  function ClimateEntries(h: seq<(Timestamp, real, real)>): seq<string> {
    seq(|h|, i requires 0 <= i < |h| => ClimateEntry(h[i].0, h[i].1, h[i].2))
  }

  /** `s[-100:]`. */
  function Recent<T>(s: seq<T>): (r: seq<T>)
    ensures |r| == if |s| < ClimateWindow then |s| else ClimateWindow
    ensures r == s[|s| - |r|..]
  {
    if |s| > ClimateWindow then s[|s| - ClimateWindow..] else s
  }

  /** The shape shared by the three sensor prompts: the intro line, the
      history one entry per line, a blank line, the latest value, the
      request, then the user's text. */
  function Prompt(intro: string, entries: seq<string>, latest: string, ask: string, user: string): string {
    Agronomist + "\n" + intro + "\n" + Join(entries, "\n") + "\n\n" + latest + "\n" + ask + "\n" + user
  }

  /** `build_prompt(ctx, user)` over the snapshot `s`. */
  function BuildPrompt(ctx: string, user: string, s: Store): (r: string)
    ensures ctx != WaterContext && ctx != PestContext && ctx != ClimateContext ==> r == user
    ensures |user| <= |r| && r[|r| - |user|..] == user
  {
    if ctx == WaterContext then
      Prompt(WaterIntro, TextEntries(s.waterHistory), "Latest: " + s.currentWater, Irrigation, user)
    else if ctx == PestContext then
      Prompt(PestIntro, TextEntries(s.pestHistory), "Total pests so far: " + FormatInt(s.pestCount), PestAsk, user)
    else if ctx == ClimateContext then
      Prompt(ClimateIntro, ClimateEntries(Recent(s.thHistory)),
             "Latest: " + s.currentTemp + ", " + s.currentHum, Irrigation, user)
    else user
  }

  /** `on_send`: the prompt handed to the model, or None when the entry is
      blank after stripping. */
  function OnSend(ctx: string, entry: string, s: Store): (r: Option<string>)
    ensures r.None? <==> AllSpace(entry)
    ensures r.Some? ==> |Strip(entry)| > 0 && r.value == BuildPrompt(ctx, Strip(entry), s)
  {
    var user := Strip(entry);
    StripEmptyIffAllSpace(entry);
    if user == "" then None else Some(BuildPrompt(ctx, user, s))
  }

  predicate OneLine(s: string) { '\n' !in s }

  /** The history part as lines: an empty history still leaves one empty line. */
  function Listed(entries: seq<string>): (r: seq<string>)
    ensures Join(r, "\n") == Join(entries, "\n")
  {
    if |entries| == 0 then [""] else entries
  }

  lemma {:induction false} JoinAppend(a: seq<string>, b: seq<string>, sep: string)
    requires |a| >= 1 && |b| >= 1
    ensures Join(a + b, sep) == Join(a, sep) + sep + Join(b, sep)
    decreases |a|
  {
    if |a| == 1 {
      JoinCons(a[0], b, sep);
      assert a + b == [a[0]] + b;
    } else {
      JoinAppend(a[1..], b, sep);
      assert a + b == [a[0]] + (a[1..] + b);
      JoinCons(a[0], a[1..] + b, sep);
      JoinCons(a[0], a[1..], sep);
      assert a == [a[0]] + a[1..];
    }
  }

  lemma TailJoin(latest: string, ask: string, user: string)
    ensures Join(["", latest, ask, user], "\n") == "\n" + latest + "\n" + ask + "\n" + user
  {
    JoinCons(ask, [user], "\n");
    assert [ask, user] == [ask] + [user];
    JoinCons(latest, [ask, user], "\n");
    assert [latest, ask, user] == [latest] + [ask, user];
    JoinCons("", [latest, ask, user], "\n");
    assert ["", latest, ask, user] == [""] + [latest, ask, user];
  }

  /** A prompt is the join of its lines. */
  lemma PromptJoin(intro: string, entries: seq<string>, latest: string, ask: string, user: string)
    ensures Join([Agronomist, intro] + Listed(entries) + ["", latest, ask, user], "\n")
         == Prompt(intro, entries, latest, ask, user)
  {
    var head: seq<string> := [Agronomist, intro];
    var mid := Listed(entries);
    var tail: seq<string> := ["", latest, ask, user];
    JoinAppend(head + mid, tail, "\n");
    JoinAppend(head, mid, "\n");
    JoinCons(Agronomist, [intro], "\n");
    assert head == [Agronomist] + [intro];
    TailJoin(latest, ask, user);
  }

  /** Read line by line, a prompt is its intro, one line per history entry
      (or one empty line), a blank line, the latest value, the request and
      the user's text, provided none of these holds a line break. */
  lemma PromptLines(intro: string, entries: seq<string>, latest: string, ask: string, user: string)
    requires OneLine(intro) && OneLine(latest) && OneLine(ask) && OneLine(user)
    requires forall k :: 0 <= k < |entries| ==> OneLine(entries[k])
    ensures Split(Prompt(intro, entries, latest, ask, user), "\n")
         == [Agronomist, intro] + Listed(entries) + ["", latest, ask, user]
  {
    var parts := [Agronomist, intro] + Listed(entries) + ["", latest, ask, user];
    PromptJoin(intro, entries, latest, ask, user);
    forall k | 0 <= k < |parts| ensures '\n' !in parts[k] {
      if 2 <= k < 2 + |Listed(entries)| {
        assert parts[k] == Listed(entries)[k - 2];
      }
    }
    SplitJoin(parts, "\n");
  }

  /** Where each piece sits among the lines of a prompt. */
  lemma LinesAt(intro: string, entries: seq<string>, latest: string, ask: string, user: string, lines: seq<string>)
    requires lines == [Agronomist, intro] + Listed(entries) + ["", latest, ask, user]
    ensures |entries| > 0 ==>
      && |lines| == |entries| + 6
      && (forall i :: 0 <= i < |entries| ==> lines[i + 2] == entries[i])
      && lines[|entries| + 2] == "" && lines[|entries| + 3] == latest && lines[|entries| + 5] == user
    ensures |entries| == 0 ==> lines == [Agronomist, intro, "", "", latest, ask, user]
  {
  }

  lemma EntryOneLine(ts: Timestamp, text: string)
    requires OneLine(ts) && OneLine(text)
    ensures OneLine(Entry(ts, text))
  {
  }

  lemma ClimateEntryOneLine(ts: Timestamp, t: real, h: real)
    requires OneLine(ts)
    ensures OneLine(ClimateEntry(ts, t, h))
  {
    FixedOneLine(t, 1, false);
    FixedOneLine(h, 1, false);
    PiecesOneLine(ts, Fixed(t, 1, false), Fixed(h, 1, false));
  }

  lemma FixedOneLine(x: real, p: nat, plus: bool)
    ensures OneLine(Fixed(x, p, plus))
  {
    FixedNumeric(x, p, plus, 0);
    NumericExcludes(Fixed(x, p, plus), '\n');
  }

  lemma PiecesOneLine(ts: string, ft: string, fh: string)
    requires OneLine(ts) && OneLine(ft) && OneLine(fh)
    ensures OneLine("- " + ts + ": " + ft + "\U{B0}C, " + fh + "%")
  {
  }

  predicate TextHistoryOneLine(h: seq<(Timestamp, string)>) {
    forall i :: 0 <= i < |h| ==> OneLine(h[i].0) && OneLine(h[i].1)
  }

  lemma TextEntriesOneLine(h: seq<(Timestamp, string)>)
    requires TextHistoryOneLine(h)
    ensures forall k :: 0 <= k < |TextEntries(h)| ==> OneLine(TextEntries(h)[k])
  {
    forall k | 0 <= k < |h| ensures OneLine(TextEntries(h)[k]) {
      EntryOneLine(h[k].0, h[k].1);
    }
  }

  /** The water prompt lists every water reading as `- t: l`, oldest first,
      then the latest reading, and ends with the user's text. */
  lemma WaterPromptLines(s: Store, user: string)
    requires OneLine(s.currentWater) && OneLine(user) && TextHistoryOneLine(s.waterHistory)
    ensures var lines := Split(BuildPrompt(WaterContext, user, s), "\n"); var h := s.waterHistory;
      && (|h| > 0 ==>
            && |lines| == |h| + 6 && lines[0] == Agronomist
            && (forall i :: 0 <= i < |h| ==> lines[i + 2] == Entry(h[i].0, h[i].1))
            && lines[|h| + 3] == "Latest: " + s.currentWater && lines[|h| + 5] == user)
      && (|h| == 0 ==> lines == [Agronomist, WaterIntro, "", "", "Latest: " + s.currentWater, Irrigation, user])
  {
    var e := TextEntries(s.waterHistory);
    var latest := "Latest: " + s.currentWater;
    var p := BuildPrompt(WaterContext, user, s);
    WaterPrompt(user, s);
    TextEntriesOneLine(s.waterHistory);
    HeadersOneLine();
    var lines := Split(p, "\n");
    LinesOf(WaterIntro, e, latest, Irrigation, user, p, lines);
    forall i | 0 <= i < |e| ensures lines[i + 2] == Entry(s.waterHistory[i].0, s.waterHistory[i].1) {
      assert lines[i + 2] == e[i];
    }
  }

  /** The pest prompt lists every pest line as `- t: l`, oldest first, then
      the server's count as the total so far, and ends with the user's text. */
  lemma PestPromptLines(s: Store, user: string)
    requires OneLine(user) && TextHistoryOneLine(s.pestHistory)
    ensures var lines := Split(BuildPrompt(PestContext, user, s), "\n"); var h := s.pestHistory;
      && (|h| > 0 ==>
            && |lines| == |h| + 6 && lines[0] == Agronomist
            && (forall i :: 0 <= i < |h| ==> lines[i + 2] == Entry(h[i].0, h[i].1))
            && lines[|h| + 3] == "Total pests so far: " + FormatInt(s.pestCount) && lines[|h| + 5] == user)
      && (|h| == 0 ==> lines == [Agronomist, PestIntro, "", "", "Total pests so far: " + FormatInt(s.pestCount), PestAsk, user])
  {
    var e := TextEntries(s.pestHistory);
    var latest := "Total pests so far: " + FormatInt(s.pestCount);
    var p := BuildPrompt(PestContext, user, s);
    PestPrompt(user, s);
    FormatIntShape(s.pestCount);
    NumericExcludes(FormatInt(s.pestCount), '\n');
    TextEntriesOneLine(s.pestHistory);
    HeadersOneLine();
    var lines := Split(p, "\n");
    LinesOf(PestIntro, e, latest, PestAsk, user, p, lines);
    forall i | 0 <= i < |e| ensures lines[i + 2] == Entry(s.pestHistory[i].0, s.pestHistory[i].1) {
      assert lines[i + 2] == e[i];
    }
  }

  /** Read line by line, the climate prompt is the header, the climate
      intro, the entries of the climate window in order (one empty line
      when it is empty), a blank line, both current texts, the request and
      the user's text; what the window holds is `ClimateWindowEntries`. */
  lemma ClimatePromptLines(s: Store, user: string)
    requires OneLine(s.currentTemp) && OneLine(s.currentHum) && OneLine(user)
    requires forall i :: 0 <= i < |s.thHistory| ==> OneLine(s.thHistory[i].0)
    ensures Split(BuildPrompt(ClimateContext, user, s), "\n")
         == [Agronomist, ClimateIntro] + Listed(ClimateEntries(Recent(s.thHistory)))
          + ["", "Latest: " + s.currentTemp + ", " + s.currentHum, Irrigation, user]
  {
    ClimatePrompt(user, s);
    ClimateWindowOneLine(s.thHistory);
    LatestOneLine(s.currentTemp, s.currentHum);
    HeadersOneLine();
    PromptLines(ClimateIntro, ClimateEntries(Recent(s.thHistory)), "Latest: " + s.currentTemp + ", " + s.currentHum, Irrigation, user);
  }

  lemma WaterPrompt(user: string, s: Store)
    ensures BuildPrompt(WaterContext, user, s) ==
      Prompt(WaterIntro, TextEntries(s.waterHistory), "Latest: " + s.currentWater, Irrigation, user)
  {
  }

  lemma PestPrompt(user: string, s: Store)
    ensures BuildPrompt(PestContext, user, s) ==
      Prompt(PestIntro, TextEntries(s.pestHistory), "Total pests so far: " + FormatInt(s.pestCount), PestAsk, user)
  {
    assert |PestContext| != |WaterContext|;
  }

  lemma ClimatePrompt(user: string, s: Store)
    ensures BuildPrompt(ClimateContext, user, s) ==
      Prompt(ClimateIntro, ClimateEntries(Recent(s.thHistory)), "Latest: " + s.currentTemp + ", " + s.currentHum, Irrigation, user)
  {
    assert |ClimateContext| != |WaterContext| && |ClimateContext| != |PestContext|;
  }

  /** `PromptLines` and `LinesAt` together, for a prompt and its lines given
      by name. */
  lemma LinesOf(intro: string, entries: seq<string>, latest: string, ask: string, user: string,
                p: string, lines: seq<string>)
    requires OneLine(intro) && OneLine(latest) && OneLine(ask) && OneLine(user)
    requires forall k :: 0 <= k < |entries| ==> OneLine(entries[k])
    requires p == Prompt(intro, entries, latest, ask, user) && lines == Split(p, "\n")
    ensures |entries| > 0 ==>
      && |lines| == |entries| + 6 && lines[0] == Agronomist
      && (forall i :: 0 <= i < |entries| ==> lines[i + 2] == entries[i])
      && lines[|entries| + 2] == "" && lines[|entries| + 3] == latest && lines[|entries| + 5] == user
    ensures |entries| == 0 ==> lines == [Agronomist, intro, "", "", latest, ask, user]
  {
    PromptLines(intro, entries, latest, ask, user);
    LinesAt(intro, entries, latest, ask, user, lines);
  }

  /** The climate window holds the last `m = min(100, n)` of the `n`
      readings, oldest first, each with both values to one decimal: the
      reading at `j` is the entry at `j - (n - m)`. No entry holds a line
      break. */
  lemma ClimateWindowEntries(h: seq<(Timestamp, real, real)>)
    requires forall i :: 0 <= i < |h| ==> OneLine(h[i].0)
    ensures var w := Recent(h); var e := ClimateEntries(w);
      && |e| == |w|
      && (forall j :: |h| - |w| <= j < |h| ==> e[j - (|h| - |w|)] == ClimateEntry(h[j].0, h[j].1, h[j].2))
      && (forall k :: 0 <= k < |e| ==> OneLine(e[k]))
  {
    var w := Recent(h);
    var e := ClimateEntries(w);
    forall k | 0 <= k < |e| ensures OneLine(e[k]) && e[k] == ClimateEntry(h[|h| - |w| + k].0, h[|h| - |w| + k].1, h[|h| - |w| + k].2) {
      assert w[k] == h[|h| - |w| + k];
      ClimateEntryOneLine(w[k].0, w[k].1, w[k].2);
    }
    forall j | |h| - |w| <= j < |h| ensures e[j - (|h| - |w|)] == ClimateEntry(h[j].0, h[j].1, h[j].2) {
      var k := j - (|h| - |w|);
      assert h[|h| - |w| + k] == h[j];
    }
  }

  lemma LatestOneLine(t: string, h: string)
    requires OneLine(t) && OneLine(h)
    ensures OneLine("Latest: " + t + ", " + h)
  {
  }

  lemma ClimateWindowOneLine(h: seq<(Timestamp, real, real)>)
    requires forall i :: 0 <= i < |h| ==> OneLine(h[i].0)
    ensures forall k :: 0 <= k < |ClimateEntries(Recent(h))| ==> OneLine(ClimateEntries(Recent(h))[k])
  {
    ClimateWindowEntries(h);
  }

  /** The fixed lines of the three prompts hold no line break. */
  lemma HeadersOneLine()
    ensures OneLine(Agronomist) && OneLine(WaterIntro) && OneLine(PestIntro)
    ensures OneLine(ClimateIntro) && OneLine(Irrigation) && OneLine(PestAsk)
  {
    IntrosOneLine();
    AsksOneLine();
  }

  lemma IntrosOneLine()
    ensures OneLine(Agronomist) && OneLine(WaterIntro) && OneLine(PestIntro)
  {
    AgronomistOneLine();
  }

  lemma AgronomistOneLine()
    ensures OneLine(Agronomist)
  {
  }

  lemma AsksOneLine()
    ensures OneLine(ClimateIntro) && OneLine(Irrigation) && OneLine(PestAsk)
  {
    ClimateIntroOneLine();
    IrrigationOneLine();
  }

  lemma ClimateIntroOneLine()
    ensures OneLine(ClimateIntro)
  {
  }

  lemma IrrigationOneLine()
    ensures OneLine(Irrigation)
  {
    assert OneLine("Explain implications");
    assert OneLine(" for crop growth");
    assert OneLine(" and irrigation.");
  }
}
