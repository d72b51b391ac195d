# Execution-log translator of script-server

script-server keeps a history of script executions. Each execution is a
`HistoryEntry` record: an id, a user name, a start time, a script name, a
command line and an exit code. The server publishes these records in two
external forms:

- `to_short_execution_log(entries, running_ids)` is used for listings. It
  builds one entry per record, in order. The entry has the keys `id`, `user`,
  `script`, `status`, `command` (always `None`), `exitCode` and `startTime`.
- `to_long_execution_log(entry, log_text, is_running)` is used for the detail
  view. It builds one entry with the same keys, plus the command line and the
  captured `log`.

The status is `running` or `finished`. The short form decides it by looking
the id up in the running ids. The long form takes it from a flag. The start
time is converted to UTC and rendered the way Python's `isoformat()` renders
a UTC time, e.g. `2018-04-03T15:55:22+00:00`. A naive start time is read as
local time.

The model is pure functions and lemmas, in five modules:

- `Wrappers`: `Option`, standing for Python's `None`.
- `Calendar`: proleptic Gregorian dates. It has next and previous day, and
  day numbers counted like Python's `date.toordinal`.
- `Timestamps`: wall clocks, UTC offsets, and start times that are aware,
  naive or absent. It shifts a wall clock to UTC, carrying into the date.
  The machine's local offset is an explicit parameter.
- `IsoFormat`: the ISO 8601 extended rendering (section 4.3.2 of ISO
  8601:2004, in the profile of section 5.6 of RFC 3339), and a parser that
  inverts it.
- `ExternalModel`: the translator. Its output entries are Python dicts,
  modelled as `map<string, Option<string>>`. It also restates the
  repository's unit tests as lemmas.

The translator's own module, `model.external_model`, is not part of this
model. Its behaviour is taken from the assertions of its unit tests in
`src/tests/external_model_test.py`. Those tests read fields with `dict.get`,
so they cannot tell a key holding `None` from a missing key. The model
resolves this as follows:

- `command` in the short form is a key holding `None`. It is one of the
  fixed keys of the external entry.
- `log` is not a key of the short form at all.
- `startTime` is always a key, as the test at lines 57-63 demands.

## Model

| member | source | states |
|---|---|---|
| `ExternalModel.ShortLog` | src/tests/external_model_test.py:70-79 | one output per input entry, same length, output i is the short entry of input i |
| `ExternalModel.ShortLogAppend` | src/tests/external_model_test.py:70-79 | translating a concatenation is the concatenation of the translations: order is kept and entries do not influence each other |
| `ExternalModel.ShortEntry` | src/tests/external_model_test.py:115-131 | a short entry has exactly the keys id, user, script, status, command, exitCode and startTime |
| `ExternalModel.StatusText` | src/tests/external_model_test.py:65-68 | the status text is "running" exactly when the entry runs and "finished" exactly when it does not |
| `ExternalModel.InRunningIds` | src/tests/external_model_test.py:65-68 | an id counts as running iff a running-id list was given and some position of it holds the id; no list means not running |
| `ExternalModel.ShortEntryFields` | src/tests/external_model_test.py:125-134 | id, user, script and exitCode are copied verbatim; command is `None`; there is no log; startTime is the start time normalised to UTC and rendered, or `None` when there is none |
| `ExternalModel.ShortStatus` | src/tests/external_model_test.py:65-68 | status is "running" iff running ids were given and contain the id, "finished" iff not |
| `ExternalModel.StatusIgnoresExitCode` | src/tests/external_model_test.py:73-79 | changing the exit code never changes the status |
| `ExternalModel.ShortLogMembershipOnly` | src/tests/external_model_test.py:65-68 | two running-id lists with the same members give the same short log |
| `ExternalModel.ShortLogDefaultRunningIds` | src/tests/external_model_test.py:18-19 | no running-id list gives the same short log as an empty one |
| `ExternalModel.LongEntry` | src/tests/external_model_test.py:81-90 | a long entry has the short entry's keys plus log |
| `ExternalModel.LongEntryFields` | src/tests/external_model_test.py:81-90 | the long form's command and log are verbatim; status is "running" iff the flag is set |
| `ExternalModel.LongExtendsShort` | src/tests/external_model_test.py:81-90 | the long entry is the short entry for running ids that agree with the flag, with command and log set |
| `ExternalModel.StartTimeText` | src/tests/external_model_test.py:57-63 | startTime is `None` exactly when the entry has no start time |
| `ExternalModel.StartTimeDenotesUtc` | src/tests/external_model_test.py:28-39 | the startTime text parses back to the normalised UTC wall clock |
| `ExternalModel.NaiveStartTimeRoundTrip` | src/tests/external_model_test.py:41-55 | a naive start time equal to the local reading of a UTC instant renders as that instant's UTC text, for every local offset |
| `ExternalModel.ShortEntryValidated` | src/tests/external_model_test.py:115-131 | every short entry passes the tests' field validator with its own fields, status from the running ids, no command and no log |
| `ExternalModel.Validated` | src/tests/external_model_test.py:115-131 | the tests' field validator: id, user, script, status, command, exitCode and log each read with `dict.get` and compared; the conditional startTime comparison at lines 133-134 is left out here and stated by the scenario lemmas that pass a start time |
| `ExternalModel.Fixture` | src/tests/external_model_test.py:92-113 | the tests' entry builder with its defaults (user 'userX', script 'my_script', command 'cmd', exit code '0'); the `datetime.now(timezone.utc)` default becomes an arbitrary `Aware(start, 0)`, which normalises to `start` under every local offset |
| `ExternalModel.SimpleShortEntry` | src/tests/external_model_test.py:10-26 | one entry gives one output with user 'my user', script 'Destroy world', exit code '5', status finished |
| `ExternalModel.AwareExampleUtc` | src/tests/external_model_test.py:31 | 2018-04-03 18:25:22 at +02:30 is 2018-04-03 15:55:22 UTC |
| `ExternalModel.AwareExampleText` | src/tests/external_model_test.py:38 | that UTC time renders as '2018-04-03T15:55:22+00:00' |
| `ExternalModel.StartTimeTranslation` | src/tests/external_model_test.py:28-39 | the aware start time 18:25:22+02:30 gives startTime '2018-04-03T15:55:22+00:00' |
| `ExternalModel.StartTimeWithoutTimezone` | src/tests/external_model_test.py:41-55 | a naive local reading of 2018-04-05 12:34:56 UTC gives that UTC time's text |
| `ExternalModel.MissingStartTime` | src/tests/external_model_test.py:57-63 | with no start time the startTime key is present and holds `None` |
| `ExternalModel.RunningStatus` | src/tests/external_model_test.py:65-68 | id1 among ['id0', 'id1', 'id2'] gives status running |
| `ExternalModel.MultipleShortEntries` | src/tests/external_model_test.py:70-79 | three entries give three outputs in order, all finished, each with its own user, script and exit code |
| `ExternalModel.LongHistoryEntry` | src/tests/external_model_test.py:81-90 | the long form keeps 'log text\nend' exactly, with status running and command 'ping localhost' |
| `Timestamps.Normalize` | src/tests/external_model_test.py:28-55 | absent stays absent; an aware time's UTC instant is its instant less its own offset; a naive time's is its instant less the local offset; microseconds are kept |
| `Timestamps.ToUtc` | src/tests/external_model_test.py:28-39 | converting to UTC moves the instant back by exactly the offset and keeps the microsecond |
| `Timestamps.FromUtc` | src/tests/external_model_test.py:42 | the local reading of a UTC time lies exactly the offset later |
| `Timestamps.ToUtcUnique` | src/tests/external_model_test.py:28-39 | the UTC reading is the only wall clock with that instant and microsecond |
| `Timestamps.InstantInjective` | src/tests/external_model_test.py:28-39 | wall clocks with the same instant and microsecond are equal |
| `Timestamps.ShiftSeconds` | src/tests/external_model_test.py:28-39 | adding less than a day of seconds, carried into the date, moves the instant by exactly that many seconds and keeps the microsecond |
| `Timestamps.ShiftRoundTrip` | src/tests/external_model_test.py:41-55 | shifting forward and back by the same amount returns the original wall clock |
| `Timestamps.NaiveRoundTrip` | src/tests/external_model_test.py:41-55 | a naive reading of a UTC time in the local zone normalises back to that UTC time |
| `Timestamps.AwareIndependentOfZone` | src/tests/external_model_test.py:28-39 | an aware time normalises to the same UTC time whichever zone it is written in, whatever the local offset |
| `IsoFormat.ParseRender` | src/tests/external_model_test.py:38 | the rendered text parses back to the same UTC wall clock (years 0 to 9999) |
| `IsoFormat.RenderInjective` | src/tests/external_model_test.py:54 | distinct UTC wall clocks render as distinct texts (years 0 to 9999) |
| `IsoFormat.RenderParse` | src/tests/external_model_test.py:38 | every text the parser accepts is exactly the rendering of what it parses to, so rendering and parsing are inverse both ways |
| `IsoFormat.Render` | src/tests/external_model_test.py:38 | the rendering always ends in "+00:00"; for years 0 to 9999 it is 25 characters, or 32 with a fraction of a second, with 'T' at index 10 |
| `IsoFormat.YearText` | src/tests/external_model_test.py:38 | a year from 0 to 9999 is written as exactly four digits reading back as the year (Python's '%04d'); a negative year is a minus sign followed by digits reading back as its magnitude |
| `IsoFormat.Decimal` | src/tests/external_model_test.py:38 | a zero-padded decimal field is never empty and never shorter than the requested width |
| `IsoFormat.DecimalValue` | src/tests/external_model_test.py:38 | a zero-padded decimal field consists of digits and reads back as the number, at every width |
| `IsoFormat.DecimalOfDigits` | src/tests/external_model_test.py:38 | a digit string is the zero-padded field of its own value at its own width |
| `IsoFormat.DecimalWide` | src/tests/external_model_test.py:38 | a number of at least 10^width gets no zero padding: its field is the unpadded one, as `'%0*d'` writes it |
| `IsoFormat.DecimalFixedWidth` | src/tests/external_model_test.py:38 | a zero-padded field of a number below 10^width has exactly width digits and reads back as the number |
| `Calendar.NextPrevInverse` | src/tests/external_model_test.py:28-39 | stepping a day forward and back, in either order, gives the date back |
| `Calendar.NextDay` | src/tests/external_model_test.py:28-39 | the next day is a valid date exactly one day number later, across month and year ends |
| `Calendar.PrevDay` | src/tests/external_model_test.py:28-39 | the previous day is a valid date exactly one day number earlier, across month and year starts |
| `Calendar.Ordinal` | src/tests/external_model_test.py:28-39 | day numbers count 0001-01-01 as day 1 (Python's `toordinal`) and every date of a year falls within that year's range of day numbers |
| `Calendar.YearLength` | src/tests/external_model_test.py:28-39 | a year has 366 days exactly when it is a Gregorian leap year, otherwise 365 |
| `Calendar.OrdinalInjective` | src/tests/external_model_test.py:28-39 | distinct valid dates have distinct day numbers |

## Left out

- Local time zone lookup: the machine's zone (`astimezone(tz=None)`, src/tests/external_model_test.py:42) is a single fixed offset parameter. Daylight-saving changes, and ambiguous or skipped local times, are not modelled.
- Year range: Python's `datetime` holds years 1 to 9999 and raises `OverflowError` when a UTC shift leaves that range. The model's years are unbounded and never raise. Outside 0 to 9999 the year is written as Python's `'%04d'` would write it.
- Offsets with fractions of a second, and leap seconds: offsets are whole seconds and every minute has 60 seconds.
- Field values of `HistoryEntry`: `id`, `username`, `script_name` and `command` are modelled as strings, and the exit code as an optional string. The translator is assumed to pass any other value, `None` included, through unchanged; the model does not cover that case.
- Key order of the output dicts: Python dicts keep insertion order, and `map` has no order. The tests read keys by name only, so the model does not fix an order.
- Fixture machinery: random ids (src/tests/external_model_test.py:99-100), the `datetime.now` default start time (lines 102-103) and the unittest framework. Scenario lemmas take the default start time as an arbitrary aware UTC wall clock instead.
- Persistence and construction of `HistoryEntry` records, the running-process tracker that supplies the running ids, and JSON/HTTP serialisation of the output.
- The web UI's history-details component (web-src/tests/history/execution-details_test.js): locale date formatting and status display strings are presentation, not translation.
