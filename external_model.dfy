/** The execution-log translator: history entries become the external
    key/value entries that listings (short form) and detail views (long form)
    are served from. Both translations are pure and total; absent values pass
    through as `None`. */
module ExternalModel {
  import opened Wrappers
  import opened Calendar
  import opened Timestamps
  import opened IsoFormat

  /** One recorded execution attempt; an unset exit code is `None`. */
  datatype HistoryEntry = HistoryEntry(
    id: string,
    username: string,
    startTime: Timestamp,
    scriptName: string,
    command: string,
    exitCode: Option<string>)

  /** A Python dict whose values are strings or `None`. */
  type Mapping = map<string, Option<string>>

  /** The keys every external entry carries, whatever their values. */
  const ShortKeys: set<string> := {"id", "user", "script", "status", "command", "exitCode", "startTime"}

  /** Python's `dict.get`: the value under `key`, or `None` when the key is missing. */
  function Get(m: Mapping, key: string): Option<string> {
    if key in m then m[key] else None
  }

  /** The status text of an execution: exactly one of "running" and
      "finished", and which one tells whether it runs. */
  function StatusText(running: bool): (r: string)
    ensures r == "running" <==> running
    ensures r == "finished" <==> !running
  {
    if running then "running" else "finished"
  }

  /** Short-form running test: some listed id is equal, character for
      character, to `id`; with no list nothing is running. */
  predicate InRunningIds(id: string, runningIds: Option<seq<string>>): (r: bool)
    ensures r <==> runningIds.Some? && exists k :: 0 <= k < |runningIds.value| && runningIds.value[k] == id
  {
    runningIds.Some? && id in runningIds.value
  }

  /** The `startTime` value: the start time in UTC, rendered as ISO 8601, or
      `None` when the entry has no start time. */
  function StartTimeText(ts: Timestamp, localOffset: UtcOffset): (r: Option<string>)
    ensures r.None? <==> ts.Absent?
  {
    match Normalize(ts, localOffset)
    case Some(utc) => Some(Render(utc))
    case None => None
  }

  /** One entry of `to_short_execution_log`. */
  function ShortEntry(e: HistoryEntry, runningIds: Option<seq<string>>, localOffset: UtcOffset): (m: Mapping)
    ensures m.Keys == ShortKeys
  {
    map[
      "id" := Some(e.id),
      "user" := Some(e.username),
      "script" := Some(e.scriptName),
      "status" := Some(StatusText(InRunningIds(e.id, runningIds))),
      "command" := None,
      "exitCode" := e.exitCode,
      "startTime" := StartTimeText(e.startTime, localOffset)]
  }

  /** `to_short_execution_log`: one short entry per history entry, in order. */
  function ShortLog(entries: seq<HistoryEntry>, runningIds: Option<seq<string>>, localOffset: UtcOffset): (r: seq<Mapping>)
    ensures |r| == |entries|
    ensures forall i :: 0 <= i < |entries| ==> r[i] == ShortEntry(entries[i], runningIds, localOffset)
  {
    if entries == [] then []
    else [ShortEntry(entries[0], runningIds, localOffset)] + ShortLog(entries[1..], runningIds, localOffset)
  }

  /** `to_long_execution_log`: the entry with its command and captured log. */
  function LongEntry(e: HistoryEntry, logText: Option<string>, isRunning: bool, localOffset: UtcOffset): (m: Mapping)
    ensures m.Keys == ShortKeys + {"log"}
  {
    map[
      "id" := Some(e.id),
      "user" := Some(e.username),
      "script" := Some(e.scriptName),
      "status" := Some(StatusText(isRunning)),
      "command" := Some(e.command),
      "exitCode" := e.exitCode,
      "startTime" := StartTimeText(e.startTime, localOffset),
      "log" := logText]
  }

  /** Fields of a short entry: copied verbatim, with no command and no log. */
  lemma ShortEntryFields(e: HistoryEntry, runningIds: Option<seq<string>>, localOffset: UtcOffset)
    ensures var m := ShortEntry(e, runningIds, localOffset);
      Get(m, "id") == Some(e.id) && Get(m, "user") == Some(e.username)
      && Get(m, "script") == Some(e.scriptName) && Get(m, "exitCode") == e.exitCode
      && Get(m, "command") == None && "log" !in m && Get(m, "log") == None
      && Get(m, "startTime") == StartTimeText(e.startTime, localOffset)
  {
    var m := ShortEntry(e, runningIds, localOffset);
    assert "log" !in ShortKeys;
    assert m["id"] == Some(e.id) && m["user"] == Some(e.username) && m["script"] == Some(e.scriptName);
    assert m["exitCode"] == e.exitCode && m["command"] == None;
    ShortEntryStartTime(e, runningIds, localOffset);
  }

  lemma ShortEntryStartTime(e: HistoryEntry, runningIds: Option<seq<string>>, localOffset: UtcOffset)
    ensures Get(ShortEntry(e, runningIds, localOffset), "startTime") == StartTimeText(e.startTime, localOffset)
  {
  }

  /** Short-form status is "running" exactly when the id is among the running
      ids, and "finished" otherwise, a missing list included. */
  lemma ShortStatus(e: HistoryEntry, runningIds: Option<seq<string>>, localOffset: UtcOffset)
    ensures var status := Get(ShortEntry(e, runningIds, localOffset), "status");
      (status == Some("running") <==> runningIds.Some? && e.id in runningIds.value)
      && (status == Some("finished") <==> !(runningIds.Some? && e.id in runningIds.value))
  {
  }

  /** The status never depends on the exit code. */
  lemma StatusIgnoresExitCode(e: HistoryEntry, exitCode: Option<string>, runningIds: Option<seq<string>>, localOffset: UtcOffset)
    ensures Get(ShortEntry(e.(exitCode := exitCode), runningIds, localOffset), "status")
         == Get(ShortEntry(e, runningIds, localOffset), "status")
  {
  }

  /** The long form carries the command and the log text verbatim, and takes
      its status from the flag. */
  lemma LongEntryFields(e: HistoryEntry, logText: Option<string>, isRunning: bool, localOffset: UtcOffset)
    ensures var m := LongEntry(e, logText, isRunning, localOffset);
      Get(m, "command") == Some(e.command) && Get(m, "log") == logText && "log" in m
      && (Get(m, "status") == Some("running") <==> isRunning)
      && (Get(m, "status") == Some("finished") <==> !isRunning)
  {
  }

  /** The long form is the short form of the same entry, with the running ids
      chosen to agree with the flag, plus the command and the log. */
  lemma {:induction false} LongExtendsShort(e: HistoryEntry, logText: Option<string>, isRunning: bool, localOffset: UtcOffset)
    ensures LongEntry(e, logText, isRunning, localOffset)
         == ShortEntry(e, if isRunning then Some([e.id]) else None, localOffset)["command" := Some(e.command)]["log" := logText]
  {
    var running := if isRunning then Some([e.id]) else None;
    assert InRunningIds(e.id, running) == isRunning;
  }

  /** Translating a concatenation translates each part, in order. */
  lemma {:induction false} ShortLogAppend(a: seq<HistoryEntry>, b: seq<HistoryEntry>, runningIds: Option<seq<string>>, localOffset: UtcOffset)
    ensures ShortLog(a + b, runningIds, localOffset) == ShortLog(a, runningIds, localOffset) + ShortLog(b, runningIds, localOffset)
  {
    var whole := ShortLog(a + b, runningIds, localOffset);
    var left, right := ShortLog(a, runningIds, localOffset), ShortLog(b, runningIds, localOffset);
    forall i | 0 <= i < |whole|
      ensures whole[i] == (left + right)[i]
    {
      if i < |a| {
        assert (a + b)[i] == a[i] && (left + right)[i] == left[i];
      } else {
        assert (a + b)[i] == b[i - |a|] && (left + right)[i] == right[i - |a|];
      }
    }
    assert whole == left + right;
  }

  /** Only membership matters: running-id lists with the same members, in any
      order and with any repeats, give the same short log. */
  lemma {:induction false} ShortLogMembershipOnly(entries: seq<HistoryEntry>, ids1: seq<string>, ids2: seq<string>, localOffset: UtcOffset)
    requires forall x :: x in ids1 <==> x in ids2
    ensures ShortLog(entries, Some(ids1), localOffset) == ShortLog(entries, Some(ids2), localOffset)
  {
    var l1, l2 := ShortLog(entries, Some(ids1), localOffset), ShortLog(entries, Some(ids2), localOffset);
    forall i | 0 <= i < |entries|
      ensures l1[i] == l2[i]
    {
      assert InRunningIds(entries[i].id, Some(ids1)) == InRunningIds(entries[i].id, Some(ids2));
    }
  }

  /** Leaving out the running ids is the same as giving an empty list. */
  lemma {:induction false} ShortLogDefaultRunningIds(entries: seq<HistoryEntry>, localOffset: UtcOffset)
    ensures ShortLog(entries, None, localOffset) == ShortLog(entries, Some([]), localOffset)
  {
    var l1, l2 := ShortLog(entries, None, localOffset), ShortLog(entries, Some([]), localOffset);
    forall i | 0 <= i < |entries|
      ensures l1[i] == l2[i]
    {
      assert !InRunningIds(entries[i].id, Some([]));
    }
  }

  /** The `startTime` text reads back as the start time's UTC wall clock, whose
      instant is the start time's own less its offset (the local offset for a
      naive start time). */
  lemma {:induction false} StartTimeDenotesUtc(ts: Timestamp, localOffset: UtcOffset)
    requires !ts.Absent?
    requires 0 <= Normalize(ts, localOffset).value.date.year <= 9999
    ensures StartTimeText(ts, localOffset).Some?
    ensures ParseUtc(StartTimeText(ts, localOffset).value) == Normalize(ts, localOffset)
  {
    ParseRender(Normalize(ts, localOffset).value);
  }

  /** A naive start time that is the local reading of a UTC instant renders as
      that instant's UTC text, for every local offset. */
  lemma {:induction false} NaiveStartTimeRoundTrip(utc: WallClock, localOffset: UtcOffset)
    ensures StartTimeText(Naive(FromUtc(utc, localOffset)), localOffset) == Some(Render(utc))
  {
    NaiveRoundTrip(utc, localOffset);
  }

  // The scenarios below restate the repository's unit tests of the
  // translator, with the fixture defaults of its entry builder and field validator.

  /** The fields the tests' validator compares, read with `dict.get`. */
  predicate Validated(m: Mapping, id: string, user: string, script: string, status: string,
                      command: Option<string>, exitCode: Option<string>, log: Option<string>)
  {
    Get(m, "id") == Some(id) && Get(m, "user") == Some(user) && Get(m, "script") == Some(script)
    && Get(m, "status") == Some(status) && Get(m, "command") == command
    && Get(m, "exitCode") == exitCode && Get(m, "log") == log
  }

  /** A fixture entry: user, script, command and exit code default to the
      builder's values; the start time stands for the builder's current UTC
      time, so it is some instant already in UTC whatever the local offset. */
  function Fixture(id: string, start: WallClock): (e: HistoryEntry)
    ensures forall localOffset: UtcOffset :: Normalize(e.startTime, localOffset) == Some(start)
  {
    AtSecondOfDayOf(start);
    HistoryEntry(id, "userX", Aware(start, 0), "my_script", "cmd", Some("0"))
  }

  /** What the tests' validator sees of any short entry. */
  lemma {:induction false} ShortEntryValidated(e: HistoryEntry, runningIds: Option<seq<string>>, localOffset: UtcOffset)
    ensures Validated(ShortEntry(e, runningIds, localOffset), e.id, e.username, e.scriptName,
                      StatusText(InRunningIds(e.id, runningIds)), None, e.exitCode, None)
  {
    ShortEntryFields(e, runningIds, localOffset);
  }

  lemma {:induction false} SimpleShortEntry(start: WallClock, localOffset: UtcOffset)
    ensures var e := Fixture("id1", start).(username := "my user", scriptName := "Destroy world", exitCode := Some("5"));
      var r := ShortLog([e], None, localOffset);
      |r| == 1 && Validated(r[0], "id1", "my user", "Destroy world", "finished", None, Some("5"), None)
  {
    var e := Fixture("id1", start).(username := "my user", scriptName := "Destroy world", exitCode := Some("5"));
    ShortEntryValidated(e, None, localOffset);
  }

  /** The UTC wall clock of 2018-04-03 18:25:22 at +02:30. */
  lemma AwareExampleUtc()
    ensures ToUtc(DateTime(Date(2018, 4, 3), 18, 25, 22, 0), 9000) == DateTime(Date(2018, 4, 3), 15, 55, 22, 0)
  {
  }

  lemma AwareExampleText()
    ensures Render(DateTime(Date(2018, 4, 3), 15, 55, 22, 0)) == "2018-04-03T15:55:22+00:00"
  {
    ExampleDateText();
    ExampleTimeText();
  }

  lemma ExampleDateText()
    ensures DateText(Date(2018, 4, 3)) == "2018-04-03"
  {
    assert Decimal(2, 1) == "2";
    assert Decimal(20, 2) == "20";
    assert Decimal(201, 3) == "201";
    assert Decimal(2018, 4) == "2018";
    assert Decimal(4, 2) == "04" && Decimal(3, 2) == "03";
  }

  lemma ExampleTimeText()
    ensures TimeText(DateTime(Date(2018, 4, 3), 15, 55, 22, 0)) == "15:55:22"
  {
    assert Decimal(15, 2) == "15" && Decimal(55, 2) == "55" && Decimal(22, 2) == "22";
  }

  lemma {:induction false} StartTimeTranslation(localOffset: UtcOffset)
    ensures var t := DateTime(Date(2018, 4, 3), 18, 25, 22, 0);
      var r := ShortLog([Fixture("id1", t).(startTime := Aware(t, 9000))], None, localOffset);
      Validated(r[0], "id1", "userX", "my_script", "finished", None, Some("0"), None)
      && Get(r[0], "startTime") == Some("2018-04-03T15:55:22+00:00")
  {
    var t := DateTime(Date(2018, 4, 3), 18, 25, 22, 0);
    var e := Fixture("id1", t).(startTime := Aware(t, 9000));
    AwareExampleUtc();
    AwareExampleText();
    assert StartTimeText(e.startTime, localOffset) == Some("2018-04-03T15:55:22+00:00");
    ShortEntryValidated(e, None, localOffset);
  }

  lemma {:induction false} StartTimeWithoutTimezone(localOffset: UtcOffset)
    ensures var utc := DateTime(Date(2018, 4, 5), 12, 34, 56, 0);
      var r := ShortLog([Fixture("id1", utc).(startTime := Naive(FromUtc(utc, localOffset)))], None, localOffset);
      Validated(r[0], "id1", "userX", "my_script", "finished", None, Some("0"), None)
      && Get(r[0], "startTime") == Some(Render(utc))
  {
    var utc := DateTime(Date(2018, 4, 5), 12, 34, 56, 0);
    var e := Fixture("id1", utc).(startTime := Naive(FromUtc(utc, localOffset)));
    NaiveStartTimeRoundTrip(utc, localOffset);
    ShortEntryValidated(e, None, localOffset);
  }

  lemma MissingStartTime(start: WallClock, localOffset: UtcOffset)
    ensures var r := ShortLog([Fixture("id1", start).(startTime := Absent)], None, localOffset);
      "startTime" in r[0] && r[0]["startTime"] == None
  {
  }

  lemma {:induction false} RunningStatus(start: WallClock, localOffset: UtcOffset)
    ensures var r := ShortLog([Fixture("id1", start)], Some(["id0", "id1", "id2"]), localOffset);
      Validated(r[0], "id1", "userX", "my_script", "running", None, Some("0"), None)
  {
    ShortEntryValidated(Fixture("id1", start), Some(["id0", "id1", "id2"]), localOffset);
  }

  lemma {:induction false} MultipleShortEntries(start1: WallClock, start2: WallClock, start3: WallClock, localOffset: UtcOffset)
    ensures var r := ShortLog([Fixture("id1", start1).(username := "my user"),
                               Fixture("id2", start2).(scriptName := "Destroy world"),
                               Fixture("id3", start3).(exitCode := Some("13"))], None, localOffset);
      |r| == 3
      && Validated(r[0], "id1", "my user", "my_script", "finished", None, Some("0"), None)
      && Validated(r[1], "id2", "userX", "Destroy world", "finished", None, Some("0"), None)
      && Validated(r[2], "id3", "userX", "my_script", "finished", None, Some("13"), None)
  {
    var es := [Fixture("id1", start1).(username := "my user"),
               Fixture("id2", start2).(scriptName := "Destroy world"),
               Fixture("id3", start3).(exitCode := Some("13"))];
    ShortEntryValidated(es[0], None, localOffset);
    ShortEntryValidated(es[1], None, localOffset);
    ShortEntryValidated(es[2], None, localOffset);
  }

  lemma {:induction false} LongHistoryEntry(start: WallClock, localOffset: UtcOffset)
    ensures var m := LongEntry(Fixture("id1", start).(command := "ping localhost"), Some("log text\nend"), true, localOffset);
      Validated(m, "id1", "userX", "my_script", "running", Some("ping localhost"), Some("0"), Some("log text\nend"))
  {
    LongEntryFields(Fixture("id1", start).(command := "ping localhost"), Some("log text\nend"), true, localOffset);
  }
}
