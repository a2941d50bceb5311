/**
 * The activity log of js/logs.js: a newest-first list of entries, bounded at
 * 10000, persisted after every addition, with filtering, statistics and CSV/JSON
 * export.
 */
module Logs {
  import opened Js
  import opened Storage
  import opened Strings

  const MaxLogs: nat := 10000
  const DefaultStorageKey := "inventory_logs"
  const CsvHeader := "ID,Timestamp,Action,User,Details"

  /**
   * A log entry: the four properties addLog always writes, then whatever other
   * properties the caller's `details` carried.
   */
  datatype Entry = Entry(id: Value, timestamp: Value, action: Value, userId: Value, extra: map<string, Value>)

  const BaseKeys: set<string> := {"id", "timestamp", "action", "userId"}

  /** Reading property `key` of an entry, as a JavaScript object. */
  function Property(e: Entry, key: string): Option<Value> {
    if key == "id" then Some(e.id)
    else if key == "timestamp" then Some(e.timestamp)
    else if key == "action" then Some(e.action)
    else if key == "userId" then Some(e.userId)
    else if key in e.extra then Some(e.extra[key])
    else None
  }

  function Spread(details: map<string, Value>, key: string, default: Value): Value {
    if key in details then details[key] else default
  }

  /** `localStorage.getItem('userId') || 'anonymous'` */
  function UserOrAnonymous(storedUser: Option<string>): Value {
    Str(Present(storedUser).GetOr("anonymous"))
  }

  /**
   * `{id: now, timestamp: iso, action, userId, ...details}`: every property of
   * `details` is a property of the entry with the same value, overriding the four
   * written before it; no other property exists.
   */
  function NewEntry(now: int, iso: string, action: Value, storedUser: Option<string>,
                    details: map<string, Value>): (e: Entry)
    ensures forall k :: k in details ==> Property(e, k) == Some(details[k])
    ensures "id" !in details ==> e.id == Num(Finite(now as real))
    ensures "timestamp" !in details ==> e.timestamp == Str(iso)
    ensures "action" !in details ==> e.action == action
    ensures "userId" !in details ==> e.userId == UserOrAnonymous(storedUser)
    ensures forall k :: k !in details && k !in BaseKeys ==> Property(e, k) == None
  {
    Entry(Spread(details, "id", Num(Finite(now as real))),
          Spread(details, "timestamp", Str(iso)),
          Spread(details, "action", action),
          Spread(details, "userId", UserOrAnonymous(storedUser)),
          map k | k in details && k !in BaseKeys :: details[k])
  }

  /**
   * `logs.unshift(e)` then, if the length exceeds MaxLogs, `logs.pop()`: the new
   * entry comes first and the previous entries follow in order, at most the last
   * one dropped.
   */
  function Prepend(logs: seq<Entry>, e: Entry): (r: seq<Entry>)
    ensures |r| == if |logs| + 1 > MaxLogs then |logs| else |logs| + 1
    ensures r[0] == e && r[1..] == logs[..|r| - 1]
  {
    var grown := [e] + logs;
    if |grown| > MaxLogs then grown[..|grown| - 1] else grown
  }

  /** A log within the bound stays within it. */
  lemma PrependKeepsBound(logs: seq<Entry>, e: Entry)
    requires |logs| <= MaxLogs
    ensures |Prepend(logs, e)| <= MaxLogs
  {
  }

  /** Below the bound nothing is dropped. */
  lemma PrependBelowBound(logs: seq<Entry>, e: Entry)
    requires |logs| < MaxLogs
    ensures Prepend(logs, e) == [e] + logs
  {
    assert logs[..|logs|] == logs;
  }

  /** At the bound exactly the oldest (tail) entry is dropped. */
  lemma PrependAtBound(logs: seq<Entry>, e: Entry)
    requires |logs| == MaxLogs
    ensures Prepend(logs, e) == [e] + logs[..MaxLogs - 1]
    ensures multiset(Prepend(logs, e)) + multiset{logs[MaxLogs - 1]} == multiset(logs) + multiset{e}
  {
    var r := Prepend(logs, e);
    assert r == [e] + r[1..];
    assert logs == logs[..MaxLogs - 1] + [logs[MaxLogs - 1]];
  }

  /** Adding the entries `es` in order. */
  function PrependAll(logs: seq<Entry>, es: seq<Entry>): seq<Entry> {
    if |es| == 0 then logs else Prepend(PrependAll(logs, es[..|es| - 1]), es[|es| - 1])
  }

  function Reversed(es: seq<Entry>): (r: seq<Entry>)
    ensures |r| == |es|
  {
    if |es| == 0 then [] else [es[|es| - 1]] + Reversed(es[..|es| - 1])
  }

  lemma {:induction false} ReversedAt(es: seq<Entry>, i: nat)
    requires i < |es|
    ensures Reversed(es)[i] == es[|es| - 1 - i]
  {
    if i > 0 {
      ReversedAt(es[..|es| - 1], i - 1);
    }
  }

  function Min(a: nat, b: nat): nat {
    if a < b then a else b
  }

  /**
   * After adding `es` to a log within the bound, the log holds the most recent
   * entries, newest first, followed by the older log, cut at MaxLogs.
   */
  lemma {:induction false} PrependAllKeepsRecent(logs: seq<Entry>, es: seq<Entry>)
    requires |logs| <= MaxLogs
    ensures PrependAll(logs, es) == (Reversed(es) + logs)[..Min(MaxLogs, |es| + |logs|)]
  {
    if |es| > 0 {
      var init, e := es[..|es| - 1], es[|es| - 1];
      PrependAllKeepsRecent(logs, init);
      var t := Reversed(init) + logs;
      var m := Min(MaxLogs, |init| + |logs|);
      assert Reversed(es) + logs == [e] + t;
      var p := PrependAll(logs, init);
      assert p == t[..m];
      if m == MaxLogs {
        assert Prepend(p, e) == ([e] + t)[..m];
      } else {
        assert m == |t| && p == t;
        assert Prepend(p, e) == [e] + t;
      }
    }
  }

  /**
   * Adding more than MaxLogs entries to an empty log leaves exactly MaxLogs entries:
   * the most recent ones, newest first.
   */
  lemma AddingManyKeepsNewest(es: seq<Entry>)
    requires |es| >= MaxLogs
    ensures |PrependAll([], es)| == MaxLogs
    ensures forall i :: 0 <= i < MaxLogs ==> PrependAll([], es)[i] == es[|es| - 1 - i]
  {
    PrependAllKeepsRecent([], es);
    assert Reversed(es) + [] == Reversed(es);
    forall i | 0 <= i < MaxLogs ensures PrependAll([], es)[i] == es[|es| - 1 - i] {
      ReversedAt(es, i);
    }
  }

  /** `filterLogs` criteria; a falsy criterion is not applied. */
  datatype Filters = Filters(action: Value, userId: Value)

  const NoFilters := Filters(Undefined, Undefined)

  predicate Matches(e: Entry, f: Filters) {
    && (Falsy(f.action) || StrictEq(e.action, f.action))
    && (Falsy(f.userId) || StrictEq(e.userId, f.userId))
  }

  /** `a` is `b` with some elements left out, the rest in their order. */
  predicate IsSubsequence(a: seq<Entry>, b: seq<Entry>)
    decreases |b|
  {
    if |a| == 0 then true
    else if |b| == 0 then false
    else if a[0] == b[0] then IsSubsequence(a[1..], b[1..])
    else IsSubsequence(a, b[1..])
  }

  /**
   * The entries that satisfy every applied criterion, in stored order: every
   * matching entry is kept as often as it occurs and no other entry is.
   */
  function Filter(logs: seq<Entry>, f: Filters): (r: seq<Entry>)
    ensures IsSubsequence(r, logs)
    ensures forall i :: 0 <= i < |r| ==> Matches(r[i], f)
    ensures forall x :: multiset(r)[x] == if Matches(x, f) then multiset(logs)[x] else 0
    ensures Falsy(f.action) && Falsy(f.userId) ==> r == logs
  {
    if |logs| == 0 then []
    else
      var rest := Filter(logs[1..], f);
      assert logs == [logs[0]] + logs[1..];
      if Matches(logs[0], f) then
        assert ([logs[0]] + rest)[1..] == rest;
        [logs[0]] + rest
      else rest
  }

  /** Filtering on an action returns only entries carrying that action. */
  lemma FilterByAction(logs: seq<Entry>, action: string)
    requires action != ""
    ensures forall i :: 0 <= i < |Filter(logs, Filters(Str(action), Undefined))| ==>
      Filter(logs, Filters(Str(action), Undefined))[i].action == Str(action)
  {
  }

  datatype Statistics = Statistics(totalLogs: nat, actionCounts: map<string, nat>, oldest: Value, newest: Value)

  /**
   * `getStatistics()`: the count, an always-empty action count, and the timestamps
   * of the last (oldest) and first (newest) entries, undefined when empty.
   */
  function Stats(logs: seq<Entry>): (s: Statistics)
    ensures s.totalLogs == |logs| && s.actionCounts == map[]
    ensures |logs| == 0 ==> s.oldest == Undefined && s.newest == Undefined
    ensures |logs| > 0 ==> s.oldest == logs[|logs| - 1].timestamp && s.newest == logs[0].timestamp
  {
    if |logs| == 0 then Statistics(0, map[], Undefined, Undefined)
    else Statistics(|logs|, map[], logs[|logs| - 1].timestamp, logs[0].timestamp)
  }

  /**
   * After an addition the newest timestamp is the new entry's; below the bound the
   * count grows by one and the oldest timestamp is kept.
   */
  lemma StatsAfterPrepend(logs: seq<Entry>, e: Entry)
    ensures Stats(Prepend(logs, e)).newest == e.timestamp
    ensures |logs| < MaxLogs ==> Stats(Prepend(logs, e)).totalLogs == |logs| + 1
    ensures 0 < |logs| < MaxLogs ==> Stats(Prepend(logs, e)).oldest == Stats(logs).oldest
    ensures |logs| == 0 ==> Stats(Prepend(logs, e)).oldest == e.timestamp
  {
    if |logs| < MaxLogs {
      PrependBelowBound(logs, e);
    }
  }

  /** `loadLogs()`: the parsed stored log, or [] when it is missing, empty or unreadable. */
  function LoadLogs(stored: Option<string>, codec: Codec<seq<Entry>>): (logs: seq<Entry>)
    ensures Present(stored).None? ==> logs == []
    ensures Present(stored).Some? && codec.decode(Present(stored).value).None? ==> logs == []
    ensures Present(stored).Some? && codec.decode(Present(stored).value).Some? ==>
      logs == codec.decode(Present(stored).value).value
  {
    match Present(stored)
    case None => []
    case Some(text) => codec.decode(text).GetOr([])
  }

  /** What `saveLogs()` wrote is what `loadLogs()` reads back. */
  lemma SaveThenLoadLogs(logs: seq<Entry>, codec: Codec<seq<Entry>>)
    requires RoundTrips(codec, logs)
    ensures LoadLogs(Some(codec.encode(logs)), codec) == logs
  {
  }

  /** The five cells of an entry's CSV row, each wrapped in double quotes. */
  function RowCells(e: Entry, host: Host, entryJson: Entry -> string): seq<string> {
    [Quote(ToText(e.id, host)), Quote(ToText(e.timestamp, host)), Quote(ToText(e.action, host)),
     Quote(ToText(e.userId, host)), Quote(entryJson(e))]
  }

  function CsvRow(e: Entry, host: Host, entryJson: Entry -> string): string {
    Join(RowCells(e, host, entryJson), ',')
  }

  function CsvRows(logs: seq<Entry>, host: Host, entryJson: Entry -> string): seq<string> {
    seq(|logs|, i requires 0 <= i < |logs| => CsvRow(logs[i], host, entryJson))
  }

  lemma CsvRowsSnoc(logs: seq<Entry>, i: nat, host: Host, entryJson: Entry -> string)
    requires i < |logs|
    ensures [CsvHeader] + CsvRows(logs[..i + 1], host, entryJson)
         == [CsvHeader] + CsvRows(logs[..i], host, entryJson) + [CsvRow(logs[i], host, entryJson)]
  {
    assert CsvRows(logs[..i + 1], host, entryJson) == CsvRows(logs[..i], host, entryJson) + [CsvRow(logs[i], host, entryJson)];
  }

  /** The header line and one line per entry, each line ending in a newline. */
  function LogsCsv(logs: seq<Entry>, host: Host, entryJson: Entry -> string): string {
    Terminated([CsvHeader] + CsvRows(logs, host, entryJson))
  }

  /**
   * When no cell holds a line break, the lines of the CSV text are the header and
   * then each entry's row, in stored order.
   */
  lemma LogsCsvLines(logs: seq<Entry>, host: Host, entryJson: Entry -> string)
    requires forall i :: 0 <= i < |logs| ==> '\n' !in CsvRow(logs[i], host, entryJson)
    ensures Split(LogsCsv(logs, host, entryJson), '\n') == [CsvHeader] + CsvRows(logs, host, entryJson) + [""]
  {
    var rows := CsvRows(logs, host, entryJson);
    assert OneLineEach([CsvHeader]);
    assert OneLineEach(rows);
    OneLineEachAppend([CsvHeader], rows);
    LinesOfTerminated([CsvHeader] + rows);
  }

  /**
   * When the id, timestamp, action and user hold no comma, a row splits into
   * those four quoted cells followed by the comma-separated pieces of the quoted
   * JSON of the entry. That JSON is written without escaping, so a row whose JSON
   * holds a comma has more than five fields.
   */
  lemma CsvRowCells(e: Entry, host: Host, entryJson: Entry -> string)
    requires forall i :: 0 <= i < 4 ==> ',' !in RowCells(e, host, entryJson)[i]
    ensures Split(CsvRow(e, host, entryJson), ',')
            == RowCells(e, host, entryJson)[..4] + Split(Quote(entryJson(e)), ',')
    ensures |Split(CsvRow(e, host, entryJson), ',')| == 5 <==> ',' !in entryJson(e)
  {
    var cells := RowCells(e, host, entryJson);
    var json := Quote(entryJson(e));
    SplitJoinFront(cells, 4, ',');
    assert cells[4..] == [json];
    var tail := Split(json, ',');
    assert |Split(CsvRow(e, host, entryJson), ',')| == 4 + |tail|;
    SplitSeveral(json, ',');
    QuoteHolds(entryJson(e), ',');
  }

  /** InventoryLogManager */
  class LogManager {
    const storageKey: string
    const storage: LocalStorage
    const codec: Codec<seq<Entry>>
    var logs: seq<Entry>

    /** Resumes the log stored under `storageKey`. */
    constructor (storage: LocalStorage, codec: Codec<seq<Entry>>, storageKey: string := DefaultStorageKey)
      ensures this.storage == storage && this.codec == codec && this.storageKey == storageKey
      ensures logs == LoadLogs(storage.GetItem(storageKey), codec)
    {
      this.storage := storage;
      this.codec := codec;
      this.storageKey := storageKey;
      logs := LoadLogs(storage.GetItem(storageKey), codec);
    }

    /** Records an action at time `now` (ISO form `iso`), persists the log, returns the entry. */
    method AddLog(action: Value, now: int, iso: string, details: map<string, Value> := map[])
      returns (entry: Entry)
      modifies this, storage
      ensures entry == NewEntry(now, iso, action, old(storage.GetItem(UserIdKey)), details)
      ensures logs == Prepend(old(logs), entry)
      ensures storage.rejectsWrites == old(storage.rejectsWrites)
      ensures storage.items == if old(storage.rejectsWrites) then old(storage.items)
                               else old(storage.items)[storageKey := codec.encode(logs)]
    {
      entry := NewEntry(now, iso, action, storage.GetItem(UserIdKey), details);
      logs := [entry] + logs;
      if |logs| > MaxLogs {
        logs := logs[..|logs| - 1];
      }
      SaveLogs();
    }

    /** Writes the log under `storageKey`; a rejected write is swallowed. */
    method SaveLogs()
      modifies storage
      ensures storage.rejectsWrites == old(storage.rejectsWrites)
      ensures storage.items == if old(storage.rejectsWrites) then old(storage.items)
                               else old(storage.items)[storageKey := codec.encode(logs)]
    {
      var _ := storage.SetItem(storageKey, codec.encode(logs));
    }

    /** `exportToCSV()`, built row by row. */
    method ExportToCsv(host: Host, entryJson: Entry -> string) returns (csv: string)
      ensures csv == LogsCsv(logs, host, entryJson)
    {
      csv := CsvHeader + "\n";
      ghost var lines := [CsvHeader];
      TerminatedSnoc([], CsvHeader);
      var i := 0;
      while i < |logs|
        invariant 0 <= i <= |logs|
        invariant lines == [CsvHeader] + CsvRows(logs[..i], host, entryJson)
        invariant csv == Terminated(lines)
      {
        var row := CsvRow(logs[i], host, entryJson);
        CsvRowsSnoc(logs, i, host, entryJson);
        TerminatedSnoc(lines, row);
        csv := csv + row + "\n";
        lines := lines + [row];
        i := i + 1;
      }
      PrefixAll(logs);
    }

    /** `exportToJSON()`: the pretty-printed JSON text of the log. */
    function ExportToJson(pretty: seq<Entry> -> string): string
      reads this
    {
      pretty(logs)
    }

    /** `downloadExport(format)`: the chosen export, saved as `logs_<date>.<format>`. */
    method DownloadExport(iso: string, host: Host, entryJson: Entry -> string, pretty: seq<Entry> -> string,
                          sink: DownloadSink, format: string := "csv")
      modifies sink
      ensures sink.received == old(sink.received) + [Download(
        if format == "csv" then LogsCsv(logs, host, entryJson) else pretty(logs),
        "logs_" + BeforeChar(iso, 'T') + "." + format,
        "text/plain")]
    {
      var content: string;
      if format == "csv" {
        content := ExportToCsv(host, entryJson);
      } else {
        content := ExportToJson(pretty);
      }
      sink.Save(content, "logs_" + BeforeChar(iso, 'T') + "." + format, "text/plain");
    }

    /** `filterLogs(filters)`: a fresh sequence; the log itself is not changed. */
    function FilterLogs(filters: Filters := NoFilters): (r: seq<Entry>)
      reads this
      ensures r == Filter(logs, filters)
    {
      Filter(logs, filters)
    }

    function GetStatistics(): (s: Statistics)
      reads this
      ensures s == Stats(logs)
    {
      Stats(logs)
    }
  }
}
