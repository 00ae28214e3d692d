# Smart agricultural IoT: sensor lines, server record, dashboard and prompts

A Dafny model of the data path of the LLM-driven smart agricultural IoT
system. Three Raspberry Pi sensors (water level, pest motion, temperature
and humidity) each send one text line per reading to a server on a Linux VM.
The server's per-connection handler strips the line and sends it down one of
four prefix branches. Each branch updates the shared `shared_data` record,
and the handler then replies `OK`. A dashboard copies the record once a
second into four rolling buffers of 300 values. An assistant builds a
language-model prompt from the record and strips ANSI control sequences
from the model's output.

Modules, one per source file, plus the shared text and number layers:

- `Wrappers`: `Option` and `Result`.
- `Text`: Python's `str.strip`, `startswith`, `split` and `join`, with
  `Field` for `s.split(sep)[i]`. `Field` returns None where Python raises
  `IndexError`.
- `Numeric`: `str(n)` and `int(s)` for integers. `format(x, ".Nf")` with
  the `+` flag and a field width, and `float(s)`. Readings are `real`s.
  Printing rounds half to even, and parsing is exact.
- `Server` (`server.py`): the record `Store`, the locked block `Apply`, one
  connection `Handle`, and a run of connections `Serve`.
- `WaterSensor`, `PestSensor`, `ClimateSensor`: one polling step or motion
  event of each sensor, with the clock and the readings as parameters.
- `Dashboard` (`Dashboard.py`): the bounded deques and the data half of
  `refresh`.
- `Assistant` (`Smart_Agriculture_Assistant.py`): the ANSI stripper,
  `build_prompt`, and the blank-input guard of `on_send`.
- `Pipeline`: what each sensor's lines do once they reach the server. It
  also covers what the dashboard reads back from the record.
- `Scenarios`: concrete runs, namely lines no branch takes, a fresh server
  fed only pest lines, and three detections followed by a total.

Four facts about the code shape the model:

- The server's histories are unbounded lists. Only the dashboard's copies
  are capped at 300.
- A "Total Pests Detected" line without a colon raises `IndexError`. The
  surrounding `except ValueError` does not catch it, so the handler sends
  no `OK` and the server thread ends.
- The handler tests "Pest" before "Total Pests Detected". The four prefixes
  differ in their first two characters, so the order of the tests makes no
  difference (`Server.BranchIffPrefix`).
- A water line is stored as its raw text. It is not parsed into a level and
  a change kind. Only the dashboard parses the number back out of it.

## Model

| member | source | states |
|---|---|---|
| Server.Apply | Linux-VM-Server/server.py:51-75 | Applying a stripped line fails exactly when it is a total line without a colon (the uncaught `IndexError`); every other line gives a new record |
| Server.HandleOutcome | Linux-VM-Server/server.py:43-76 | An empty payload is skipped with no reply. Any other payload is acknowledged exactly when applying its stripped text succeeds, and aborts the handler otherwise |
| Server.Serve | Linux-VM-Server/server.py:37-76 | The acknowledgement count never falls, and a server whose thread has ended ignores every later connection |
| Server.BranchIffPrefix | Linux-VM-Server/server.py:52-67 | Each branch of the `elif` chain is taken exactly when the line starts with that branch's prefix, so at most one prefix matches |
| Server.HistoriesGrow | Linux-VM-Server/server.py:52-73 | No history shrinks. One line adds at most one entry to all four histories together, and that entry carries the line's timestamp |
| Server.WaterLine | Linux-VM-Server/server.py:52-54 | A water line becomes the current water text and is appended with its timestamp; no other field changes |
| Server.PestLine | Linux-VM-Server/server.py:55-59 | A "Pest" line becomes the current pest text and is logged. The count rises by exactly one if the line starts with "Pest Detected", and stays the same if it does not; nothing else changes |
| Server.TotalLine | Linux-VM-Server/server.py:60-64 | A total whose number reads overwrites the count, even with a lower value, and is logged with its timestamp |
| Server.TotalMalformed | Linux-VM-Server/server.py:61-66 | A total whose number does not read leaves the record unchanged |
| Server.TotalWithoutColon | Linux-VM-Server/server.py:47-66 | A payload that strips to a total line and has no colon, with or without white space around it, aborts the handler, and every connection after it is ignored |
| Server.ClimateAtomic | Linux-VM-Server/server.py:67-75 | A climate line either changes nothing, or updates both current texts and appends one climate entry together; it changes nothing exactly when a number fails to read |
| Server.TempText | Linux-VM-Server/server.py:71 | `f"{t:.1f} °C"`: the reading to one place, then " °C". `Server.CurrentTextsReadBack` shows `float` reads the number back as the rounded reading |
| Server.HumText | Linux-VM-Server/server.py:72 | `f"{h:.1f} %"`: the reading to one place, then " %". `Server.CurrentTextsReadBack` shows `float` reads the number back as the rounded reading |
| Server.CurrentTextsReadBack | Linux-VM-Server/server.py:71-72 | Each current text ends with its unit, and the number before the unit reads back as the reading rounded to one place |
| Server.ClimateLine | Linux-VM-Server/server.py:67-73 | A climate line whose two numbers read sets both current texts from them and logs the pair |
| Server.Unrecognized | Linux-VM-Server/server.py:51-75 | A line that starts with none of the four prefixes changes nothing |
| Server.TotalRoundTrip | Linux-VM-Server/server.py:62 | `int(line.split(":")[1].strip())` recovers the count from every line "Total Pests Detected: n" |
| Server.PestRun | Linux-VM-Server/server.py:43-59 | After a run of payloads that strip to "Pest" lines, with any white space around them, the count has risen by the number of "Pest Detected" lines among them. The pest history has gained exactly the stripped payloads with their stamps, in order (`Server.PestEntries`). The current pest text is the last stripped payload. Every payload was acknowledged, and no total was logged |
| Server.EntriesAt | Linux-VM-Server/server.py:47-59 | Entry `i` that a pest run adds to the history is payload `i`'s timestamp and stripped text |
| Server.Handle | Linux-VM-Server/server.py:43-76 | One connection is skipped, acknowledged with the new record, or aborted. `Server.HandleOutcome` says exactly when each happens |
| Server.Step | Linux-VM-Server/server.py:43-76 | An acknowledged connection installs the new record and counts one more `OK` (`Pipeline.StepAcked`). An aborted one ends the thread, and every later connection is ignored (`Server.StopsServing`) |
| Server.ReadTotal | Linux-VM-Server/server.py:62 | `int(line.split(":")[1].strip())` fails with `IndexError` exactly when the line has no colon (`Server.Apply`). It reads back every count the sensor sends (`Server.TotalRoundTrip`) |
| Server.ReadClimate | Linux-VM-Server/server.py:69-70 | The two `float` extractions read back both readings of every line the sensor sends, each rounded to one place (`Pipeline.ClimateReadBack`). When either extraction fails, the record is unchanged (`Server.ClimateAtomic`) |
| Text.Strip | Linux-VM-Server/server.py:47 | `s.strip()` gives a text with no white space at either end and no longer than `s` |
| Text.StripShape | Linux-VM-Server/server.py:47 | The input is the stripped text with only white space added before and after it |
| Text.StripPadded | Linux-VM-Server/server.py:47 | Stripping white space off a text that already has none at either end gives that text back |
| Text.Split | Linux-VM-Server/server.py:62 | `s.split(sep)` always has at least one part. `Text.JoinSplit` and `Text.SplitJoin` state its round trips with `join` |
| Text.JoinSplit | Linux-VM-Server/server.py:62 | Joining the parts of `s.split(sep)` with `sep` gives `s` back |
| Text.SplitJoin | Linux-VM-Server/server.py:62 | Splitting the join of parts that contain no `sep` character gives those parts back |
| Text.SplitsIffIn | Linux-VM-Server/server.py:62 | `s.split(c)` has a second element exactly when `c` occurs in `s` |
| Text.StripEmptyIffAllSpace | Linux-VM-Server/Smart_Agriculture_Assistant.py:165-166 | Stripping leaves nothing exactly when the text is all white space |
| Numeric.FormatInt | Raspberry-Pi-Client/Pest_Detection_Sensor.py:40 | `str(n)` for the count in the total message. `Numeric.ParseFormatInt` shows `int()` reads it back as `n` |
| Numeric.ParseInt | Linux-VM-Server/server.py:62 | `int(s)` succeeds only on a text with something left after stripping. `Numeric.ParseFormatInt` shows it reads back every `str(n)` |
| Numeric.Fixed | Raspberry-Pi-Client/Temperature_And_Humidity_Sensor.py:42-47 | `format(x, ".Nf")` reads back as `x` rounded to `N` places (`Numeric.ParseFixed`). With the `+` flag its first character is the sign of `x`, as `ClimateSensor.DeltaReadBack` states |
| Numeric.ParseFloat | Linux-VM-Server/server.py:69-70 | `float(s)` succeeds only on a text with something left after stripping. `Numeric.ParseFixed` shows it reads back every printed number |
| Numeric.ParseFormatInt | Linux-VM-Server/server.py:62 | `int()` reads back every `str(n)`, with any white space around it |
| Numeric.ParseFixed | Linux-VM-Server/server.py:69-70 | `float()` reads back a number printed to `p` places, padded to any width and with white space around it, as the number rounded to `p` places |
| WaterSensor.Level | Raspberry-Pi-Client/Water_Level_Sensor.py:49-52 | The level is never negative, and it is either 0 or the vase height minus the distance in centimetres |
| WaterSensor.Classify | Raspberry-Pi-Client/Water_Level_Sensor.py:55-76 | A reading is Initial exactly when there is no previous level. With a previous level, it is NoChange exactly when the difference is within 0.3 cm. The Added and Evaporated deltas lead from the previous level to the new one and exceed 0.3 cm |
| WaterSensor.Loop | Raspberry-Pi-Client/Water_Level_Sensor.py:40-84 | Within a second of the last reading nothing is sent and nothing changes. Otherwise exactly one message is sent, and the last reading time and last level are updated |
| WaterSensor.FirstReading | Raspberry-Pi-Client/Water_Level_Sensor.py:55-56 | The first reading after construction is reported as the initial reading |
| WaterSensor.ChangeKinds | Raspberry-Pi-Client/Water_Level_Sensor.py:59-76 | For a later reading, the three change kinds are decided by the signed difference, exhaustively and exclusively |
| WaterSensor.Message | Raspberry-Pi-Client/Water_Level_Sensor.py:56-75 | The message is "Water level: ", the level to two places, " cm. " and the remark. `WaterSensor.MessageShape` and `Pipeline.WaterReadBack` state what the server and the dashboard get from it |
| WaterSensor.MessageShape | Raspberry-Pi-Client/Water_Level_Sensor.py:56-75 | Every message starts with "Water level: " and has no white space at either end, so the server stores it as sent |
| PestSensor.Wire | Raspberry-Pi-Client/Pest_Detection_Sensor.py:37-40 | The two texts sent: "Pest Detected", and "Total Pests Detected: " followed by `str(n)`. `Pipeline.SensorDetectedArrives` and `Pipeline.TotalArrives` show what the server makes of each |
| PestSensor.HandleMotion | Raspberry-Pi-Client/Pest_Detection_Sensor.py:29-40 | A motion event raises the count by one, then sends "Pest Detected" and the new total, in that order |
| PestSensor.Motions | Raspberry-Pi-Client/Pest_Detection_Sensor.py:29-40 | `k` events send exactly `2k` messages. `PestSensor.MotionsCount` states their contents |
| PestSensor.MotionsCount | Raspberry-Pi-Client/Pest_Detection_Sensor.py:29-40 | After `k` events the count has risen by `k`, and event `i` sent "Pest Detected" followed by the count it reached |
| PestSensor.FreshTotals | Raspberry-Pi-Client/Pest_Detection_Sensor.py:12-40 | From a new sensor, `k` events leave the count at `k`, and the totals sent are 1, 2, ..., k |
| ClimateSensor.Deltas | Raspberry-Pi-Client/Temperature_And_Humidity_Sensor.py:37-43 | Both change texts are dashes before the first good reading. After one, each ends with its unit, starts with its sign, and reads back as the change from the last good reading rounded to one place (`ClimateSensor.DeltaReadBack`, `ClimateSensor.DeltasSent`) |
| ClimateSensor.DeltaReadBack | Raspberry-Pi-Client/Temperature_And_Humidity_Sensor.py:42-43 | A change text ends with its unit and starts with '-' exactly when the reading fell and with '+' exactly when it did not. The number between reads back as the change rounded to one place |
| ClimateSensor.Loop | Raspberry-Pi-Client/Temperature_And_Humidity_Sensor.py:22-58 | Within two seconds nothing is sent and nothing changes. Otherwise the read time advances, and a line is sent exactly when both readings came back; the last readings change exactly when a line is sent |
| ClimateSensor.DeltasSent | Raspberry-Pi-Client/Temperature_And_Humidity_Sensor.py:37-51 | The line sent carries dashes the first time and the signed changes afterwards |
| ClimateSensor.FailedRead | Raspberry-Pi-Client/Temperature_And_Humidity_Sensor.py:27-35 | A failed read still uses up the interval and keeps the last good reading |
| ClimateSensor.DeltasFree | Raspberry-Pi-Client/Temperature_And_Humidity_Sensor.py:38-43 | No change text holds a 'T' or an 'H', so none can be mistaken for a field name |
| ClimateSensor.Line | Raspberry-Pi-Client/Temperature_And_Humidity_Sensor.py:46-47 | The line sent for two readings. `ClimateSensor.LineShape` states its ends, and `Pipeline.ClimateReadBack` shows that the server reads both readings back from it |
| ClimateSensor.LineShape | Raspberry-Pi-Client/Temperature_And_Humidity_Sensor.py:46-47 | Every line starts with "Temperature:" and has no white space at either end |
| Dashboard.Push | Linux-VM-Server/Dashboard.py:42-45 | A push onto a buffer within the cap keeps it within the cap, and the pushed value is last |
| Dashboard.Rolling | Linux-VM-Server/Dashboard.py:42-45 | Pushing values one at a time onto a capped buffer leaves the last 300 of all values pushed, oldest first |
| Dashboard.Refresh | Linux-VM-Server/Dashboard.py:55-71 | A refresh keeps every buffer within the cap, and keeps the temperature and humidity buffers the same length |
| Dashboard.RefreshAppends | Linux-VM-Server/Dashboard.py:68-71 | The pest buffer takes the latest total exactly when there is one. The temperature and humidity buffers take the two halves of the latest climate entry together, or neither changes |
| Dashboard.RefreshWater | Linux-VM-Server/Dashboard.py:64-67 | The water buffer takes the number read between the first colon and "cm" of the latest water line, and is unchanged when that fails to read |
| Dashboard.WaterReading | Linux-VM-Server/Dashboard.py:66 | `float(line.split(":")[1].split("cm")[0])`. `Pipeline.WaterReadBack` shows it reads back the sensor's level, rounded to two places |
| Dashboard.RefreshRepeats | Linux-VM-Server/Dashboard.py:56-71 | Refreshing twice from the same snapshot pushes the same values twice. With a readable latest water line, each refresh pushes its level. Without one, the water buffer does not change. With a latest total, each refresh pushes it onto the pest buffer, and the same holds for the latest climate pair. Without one, that buffer does not change |
| Assistant.CsiLength | Linux-VM-Server/Smart_Agriculture_Assistant.py:8 | A control sequence found at the head of the text is at least three characters and fits in the text |
| Assistant.CsiMatch | Linux-VM-Server/Smart_Agriculture_Assistant.py:8 | The scanner finds a control sequence of length `n` at the head of the text exactly when the first `n` characters match the pattern |
| Assistant.StripAnsi | Linux-VM-Server/Smart_Agriculture_Assistant.py:8-9 | The stripped text is never longer than the input |
| Assistant.PlainUnchanged | Linux-VM-Server/Smart_Agriculture_Assistant.py:9 | Text without an ESC character is unchanged |
| Assistant.PlainPrefix | Linux-VM-Server/Smart_Agriculture_Assistant.py:9 | Text without an ESC character is kept as it is in front of whatever follows |
| Assistant.CsiRemoved | Linux-VM-Server/Smart_Agriculture_Assistant.py:8-9 | A control sequence is removed entirely |
| Assistant.StripAnsiSubsequence | Linux-VM-Server/Smart_Agriculture_Assistant.py:9 | The output is a subsequence of the input |
| Assistant.Recent | Linux-VM-Server/Smart_Agriculture_Assistant.py:121 | `s[-100:]` is the suffix of length `min(100, len(s))` |
| Assistant.BuildPrompt | Linux-VM-Server/Smart_Agriculture_Assistant.py:96-131 | An unknown context gives the user's text unchanged, and every prompt ends with the user's text |
| Assistant.OnSend | Linux-VM-Server/Smart_Agriculture_Assistant.py:164-172 | Nothing is sent exactly when the entry is blank. Otherwise the prompt is built from the stripped entry |
| Assistant.PromptLines | Linux-VM-Server/Smart_Agriculture_Assistant.py:101-129 | Split into lines, a prompt gives back its intro, one line per history entry, a blank line, the latest value, the request and the user's text |
| Assistant.WaterPromptLines | Linux-VM-Server/Smart_Agriculture_Assistant.py:97-105 | The water prompt lists every water reading as "- t: l" in history order. Then come the latest reading and the user's text |
| Assistant.PestPromptLines | Linux-VM-Server/Smart_Agriculture_Assistant.py:107-115 | The pest prompt lists every pest line in order, and gives the server's count as the total so far |
| Assistant.ClimatePromptLines | Linux-VM-Server/Smart_Agriculture_Assistant.py:117-129 | The climate prompt lists the window's entries one per line and in order. Then come both current texts and the user's text |
| Assistant.ClimateWindowEntries | Linux-VM-Server/Smart_Agriculture_Assistant.py:119-122 | The window lists the last `min(100, n)` climate readings, oldest first, each printed to one decimal place |
| Pipeline.ServeAppend | Linux-VM-Server/server.py:37-76 | Serving two runs one after the other is serving them joined |
| Pipeline.DetectedArrives | Linux-VM-Server/server.py:43-59 | Any payload that strips to a "Pest Detected" line is acknowledged. It raises the count by one, becomes the current pest text, and is logged with its timestamp; nothing else changes |
| Pipeline.SensorDetectedArrives | Raspberry-Pi-Client/Pest_Detection_Sensor.py:37 | The sensor's own "Pest Detected" message has exactly that effect on the server |
| Pipeline.TotalArrives | Linux-VM-Server/server.py:60-64 | The sensor's total is acknowledged and sets the server's count to exactly the count sent |
| Pipeline.EventSync | Raspberry-Pi-Client/Pest_Detection_Sensor.py:32-40 | One motion event's two messages bring the server's count to the sensor's count, from any state of either. They log one pest line and one total, and both are acknowledged |
| Pipeline.WaterArrives | Linux-VM-Server/server.py:47-54 | Every water message is acknowledged, and becomes the current water text and the new last history entry |
| Pipeline.WaterReadBack | Linux-VM-Server/Dashboard.py:66 | The dashboard reads back from a water message the sensor's level, rounded to two places |
| Pipeline.WaterToDashboard | Linux-VM-Server/Dashboard.py:64-66 | One water reading, end to end: it is sent and acknowledged, and the next refresh pushes the rounded level |
| Pipeline.ClimateReadBack | Linux-VM-Server/server.py:69-70 | The server reads back from a climate line both readings, each rounded to one place, whatever the change texts (if they hold no 'T' or 'H') |
| Pipeline.ClimateArrives | Linux-VM-Server/server.py:67-73 | A climate line is acknowledged, sets both current texts from the rounded readings and logs the pair |
| Pipeline.ClimateToDashboard | Linux-VM-Server/Dashboard.py:70-71 | One climate reading, end to end: it is sent and acknowledged, and the next refresh pushes both rounded readings |
| Scenarios.IgnoredLines | Raspberry-Pi-Client/client1.py:61 | "No Pests Detected" and "Client 1 disconnected" are acknowledged and change nothing |
| Scenarios.FreshPests | Linux-VM-Server/server.py:19-24 | A server started from its initial record and fed only "Pest" payloads counts the "Pest Detected" lines and logs every stripped payload in order. It shows the last payload, or "No Pests Detected" when there was none |
| Scenarios.PestsThenTotal | Linux-VM-Server/server.py:55-64 | After any run of "Pest" lines, a total overwrites the count, whatever the run did to it |
| Scenarios.DetectionsThenTotal | Linux-VM-Server/server.py:55-64 | Three "Pest Detected" lines and then "Total Pests Detected: 10" leave the count at 10, with three pest entries and one total logged |

## Left out

- The TCP plumbing is not modelled: accept, `recv(1024)`, `sendall`, and the client's `send_to_server`. A payload is an already decoded string, and UTF-8 decoding errors are not modelled.
- Threads and `DATA_LOCK` are not modelled. The server accepts and handles connections one at a time in one thread, and `Serve` takes them in `accept()` order. The lock only orders the server's writes against the dashboard's and the assistant's reads, and each locked block is one atomic step.
- Clocks are parameters: `time.strftime` stamps are opaque strings, and `time()` is a `real`.
- Sensor drivers are parameters: the ultrasonic distance and the DHT11 readings. A DHT11 `RuntimeError` is a None reading. LEDs, sleeps and the PIR wiring are not modelled.
- IEEE floating point is not modelled. Readings are exact `real`s, and printing rounds half to even on the exact value. `Numeric.Fixed` prints a small negative number that rounds to zero as "-0.0", as Python does. Python's `float("-0.0")` is a negative zero, and server.py:71-72 prints it again as "-0.0 °C" or "-0.0 %". The model reads "-0.0" as the real 0, so `Server.TempText` and `Server.HumText` print "0.0" there. The same holds for `Pipeline.ClimateArrives` and for `Assistant.ClimateEntry`, which print the parsed readings.
- `int()` and `float()` are modelled only on the forms the sensors write: white space, an optional sign, and digits with an optional fraction. Exponents, underscores, "inf" and "nan" read as failures.
- `str.strip` uses Python's `isspace` set of characters. Unicode case and normalisation are not modelled.
- The climate sensor's `last_temp` and `last_hum` are one optional pair, because the source always sets them together.
- PestSensor.Motions: its contract states only the number of messages. Their contents are in `PestSensor.MotionsCount`.
- Pipeline.EventSync: states one event. For `k` events it combines with `Pipeline.ServeAppend`, and no lemma states that combination.
- Pipeline.ClimateReadBack: requires that the change texts hold no 'T' and no 'H'. `ClimateSensor.DeltasFree` shows the sensor's change texts always meet this.
- The tkinter UI, the login and SHA-256 check, and the dynamic import are not modelled. Plotting, the y-ticks and the label widgets and their texts are not modelled.
- The `ollama` subprocess and the typing effect are not modelled. The assistant's chat window is not modelled either.
