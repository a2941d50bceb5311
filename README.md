# Inventory manager: logs, form persistence and exports

This project models the data-handling core of a browser inventory manager for a
small electronics shop:

- **The activity log** (`InventoryLogManager`) keeps a newest-first list of
  entries capped at 10000 and persists it to `localStorage` after every
  addition. It can filter the entries, summarise them and export them as CSV
  or JSON.
- **The inventory form routines** work on the `#dataBody` table. Each row has
  a reference cell and a price input tagged `data-ref="<ref>"`. It also has a
  note textarea tagged `data-ref="<ref>-notes"`. The routines are:
  - apply a loaded snapshot, either the published `inventory` array or the
    response of the remote fetch;
  - save and load the legacy `inventoryData` object;
  - save and restore the full `inventory-backup` object, with its images;
  - build the records of the JSON export.
- **The export builders** (`ExportManager`) produce two CSV layouts, a JSON
  download and a plain-text report that ends with the total value.

How each kind of source code is modelled:

| In the source | In the model |
|---|---|
| State changed in place: the log, the table rows, `localStorage`, the window hooks, the download hand-off | Classes with `modifies` contracts: `Logs.LogManager`, `Form.Page`, `Storage.LocalStorage`, `GitHubApp.Hooks`, `Storage.DownloadSink` |
| Loops | Methods with loop invariants, proved equal to a specification function; properties of the source are proved about that function |
| Pure computations | Functions, with lemmas about them |

The host's primitives are parameters: a `Js.Host` value and a `Storage.Codec`. A
`Js.Host` value gives `String(x)` of a finite number, `toFixed(2)`, `Number(s)`,
`parseFloat` and `parseInt`. A `Storage.Codec` gives `JSON.stringify` and
`JSON.parse` at one type. A round trip is relied on only where a lemma requires
`RoundTrips` for the value in question. Clocks are parameters:
`now`/`iso`/`date` strings and a `clock` from row index to ISO time.

The JavaScript semantics the code depends on are modelled explicitly:
- truthiness and `||`;
- `String(v)` in template literals;
- `*` with NaN;
- `trim()` over the ECMAScript white-space set;
- `replace` of the first occurrence;
- `split(c)[0]`;
- objects whose keys keep their insertion order (all but a log entry's extra
  properties, which are a map);
- `querySelector`, which returns the first element in document order.

Where the intended design and the code differ, the model follows the code:
- `getStatistics` always returns an empty `actionCounts`.
- Log ids are `Date.now()`, so they are not guaranteed to increase.
- `applyLoadedData` calls the totals hook after every item whose price input
  exists, and again once at the end.
- `exportToCSV` writes each entry's JSON between double quotes without
  escaping the quotes or commas inside it. The JSON of an entry almost always has
  several properties, so it holds commas, and such a row does not read back as
  five columns.

## Model

| member | source | states |
|---|---|---|
| Logs.NewEntry | js/logs.js:13-19 | The entry has id `now`, the ISO timestamp, the action, and the stored user or "anonymous". Every property of `details` overrides these and appears with its value. No other property exists. |
| Logs.Prepend | js/logs.js:21-22 | The new entry comes first and the old entries follow in order. The length grows by one unless it would exceed 10000, in which case the last entry is dropped. |
| Logs.PrependKeepsBound | js/logs.js:21-22 | A log of at most 10000 entries stays within 10000 after an addition. |
| Logs.PrependBelowBound | js/logs.js:21-22 | Below the bound an addition drops nothing. |
| Logs.PrependAtBound | js/logs.js:21-22 | At the bound exactly the oldest entry is dropped: the multiset loses it and gains the new entry. |
| Logs.PrependAllKeepsRecent | js/logs.js:12-25 | After any sequence of additions the log is the added entries newest first, then the older log, cut at 10000. |
| Logs.AddingManyKeepsNewest | js/logs.js:12-25 | After 10000 or more additions to an empty log, exactly the 10000 most recent entries remain, newest first. |
| Logs.LogManager.AddLog | js/logs.js:12-25 | Returns the new entry. The log becomes `Prepend(old log, entry)`. The store holds the encoded log under the storage key, unless writes are rejected, in which case the store is unchanged. |
| Logs.LogManager.SaveLogs | js/logs.js:37-43 | Writes the encoded log under the storage key. A rejected write is swallowed and leaves the store as it was. |
| Logs.LoadLogs | js/logs.js:27-35 | A missing or empty stored text loads as []. A text the parser rejects loads as []. A text the parser accepts loads as exactly the parsed log. |
| Logs.SaveThenLoadLogs | js/logs.js:27-43 | What saveLogs writes, loadLogs reads back as the same log. |
| Logs.LogManager.constructor | js/logs.js:6-10 | The log starts as the loaded stored log under the given key. |
| Logs.LogManager.ExportToCsv | js/logs.js:45-51 | The text is the header line, then one line per entry of the five quoted cells joined by commas. Each line ends in a newline. |
| Logs.LogsCsvLines | js/logs.js:45-51 | When no cell holds a line break, splitting the CSV at newlines gives the header, each entry's row in stored order, and a final empty piece. |
| Logs.CsvRowCells | js/logs.js:49 | When the id, timestamp, action and user hold no comma, a row splits into those four quoted cells, followed by the comma-separated pieces of the quoted JSON of the entry. The row has exactly five fields exactly when that JSON holds no comma. |
| Strings.SplitJoinFront | js/logs.js:48-49 | Splitting joined pieces whose first `n` hold no separator gives back those `n` pieces, followed by the split of the rest. |
| Logs.LogManager.DownloadExport | js/logs.js:57-67 | Hands over one text/plain file named `logs_<date>.<format>`. Its content is the CSV for "csv" and the JSON otherwise. |
| Logs.Filter | js/logs.js:69-75 | The result is a subsequence of the log. Every element matches each truthy criterion by strict equality. Each matching entry is kept as often as it occurs. Without criteria the log comes back whole. |
| Logs.FilterByAction | js/logs.js:71 | Filtering on a non-empty action returns only entries with that action. |
| Logs.LogManager.FilterLogs | js/logs.js:69-75 | Returns `Filter(logs, filters)` and leaves the log unchanged. |
| Logs.Stats | js/logs.js:77-86 | totalLogs is the length and actionCounts is empty. oldest is the timestamp of the last entry and newest that of the first; both are undefined when the log is empty. |
| Logs.StatsAfterPrepend | js/logs.js:21-22 | After an addition, newest is the new entry's timestamp. Below the bound the count grows by one and oldest is kept. |
| Logs.LogManager.GetStatistics | js/logs.js:77-86 | Returns `Stats(logs)`. |
| Form.SetPrice | js/app-github.js:44-48 | Setting the value of the first input with `data-ref` equal to the reference changes that input only. Every other lookup reads what it read before, and the page's shape is kept. |
| Form.SetNote | js/app-github.js:45-56 | Setting the value of the first textarea tagged `<ref>-notes` changes that textarea only. Other references' notes and all prices read as before. |
| Form.AssignPrice | js/app-github.js:47-48 | In place, the rows become `SetPrice`. `found` tells whether an input exists for the reference. |
| Form.AssignNote | js/app-github.js:55-56 | In place, the rows become `SetNote`. |
| Form.NoteRefInjective | js/app-github.js:45 | Distinct references give distinct `-notes` tags. |
| Form.SameShape | js/app-github.js:44-45 | Pages that differ only in field values have the same lookup results. |
| Form.ApplyUpdates | js/app-github.js:43-58 | Applying updates in order keeps the page's shape: its cells, elements and attributes. |
| Form.ApplyUpdateReads | js/app-github.js:44-57 | One update sets the price and note of its own reference, when those fields exist, and no other reference's. |
| Form.LastUpdateWins | js/app-github.js:43-58 | After a sequence of updates, each existing field holds the value of the last update aimed at its reference. Fields no update names are unchanged. |
| Form.WellFormedLookups | js/app-github.js:44-45 | In a well-formed form, the lookups for a row's reference land on that row. |
| Form.ApplyOwnUpdates | js/app-github.js:164-170 | In a well-formed form, one update per row aimed at that row and carrying its current note changes exactly the prices. |
| GitHubApp.Decode | js/app-github.js:156-162 | The result is nothing-stored exactly when the stored text is null or empty. A decoded value is what the parser returns for that text. |
| GitHubApp.ApplyItem | js/app-github.js:44-57 | Writes `price \|\| 0` and `note \|\| ''` to the item's fields. The totals hook runs once when a price input was found. |
| GitHubApp.ApplyItems | js/app-github.js:43-58 | Updates the rows item by item, in order. The totals hook runs once for every item whose price input exists. |
| GitHubApp.ItemUpdate | js/app-github.js:44-57 | An item is aimed at `String(item.ref)`. A falsy price is written as `String(0)` and a truthy one as `String(price)`. A falsy note is written as the empty text and a truthy one as `String(note)`. |
| GitHubApp.AssignAll | js/app-github.js:164-170 | The rows become the result of applying every update in order. |
| GitHubApp.Hooks.CalculateTotals | js/app-github.js:235 | The totals counter goes up by one exactly when the page defines `calculateTotals`. The image counter is unchanged. |
| GitHubApp.Hooks.LoadSavedImages | js/app-github.js:236 | The image counter goes up by one exactly when the page defines `loadSavedImages`. The totals counter is unchanged. |
| GitHubApp.ApplyLoadedData | js/app-github.js:37-64 | A non-array leaves the page and the hooks untouched. Otherwise every item is applied in order, and the totals hook runs once per priced item plus once at the end. |
| GitHubApp.PricedCountAll | js/app-github.js:47-52 | The per-item hook count equals the number of items exactly when every item finds a price input. |
| GitHubApp.LoadInventoryFromRemote | js/app-github.js:14-32 | A non-ok response gives `HttpError(status)` and changes nothing. A body whose `json()` rejects or resolves to null gives `Failed` and changes nothing. Any other body gives `Loaded`. When its `inventory` is an array, the items are applied in order and the totals hook runs once per item whose price input exists, plus once at the end. When it is not an array, neither the page nor the hook counts change. |
| GitHubApp.LastKeyed | js/app-github.js:130-142 | Gives the last row whose trimmed reference cell is the key, if any. |
| GitHubApp.LegacySnapshotGet | js/app-github.js:128-142 | Each reference is saved with the price and note of the last row that carries it. References no row carries are absent. |
| GitHubApp.CollectLegacySnapshot | js/app-github.js:127-142 | The row loop builds exactly `LegacySnapshot(rows)`. |
| GitHubApp.SaveToLocalStorage | js/app-github.js:125-149 | The snapshot's JSON is stored under `inventoryData`. A rejected write changes nothing and yields false. |
| GitHubApp.LoadFromLocalStorage | js/app-github.js:154-178 | An absent, empty or unparseable `inventoryData` changes nothing. Otherwise each saved reference's price and note are written in key order, and the totals hook runs once. |
| GitHubApp.LegacySnapshotRows | js/app-github.js:130-142 | In a well-formed form the snapshot is one entry per row, in row order: the row's reference with its price and note. |
| GitHubApp.SaveThenLoadLegacy | js/app-github.js:125-178 | Loading what was saved reads back the snapshot. It leaves every note as it was and sets each price to the text of `parseFloat(value) \|\| 0`. |
| GitHubApp.CollectBackup | js/app-github.js:186-202 | The input loop builds exactly `BackupSnapshot(rows, store, clock)`. |
| GitHubApp.SaveInventoryToLocalStorage | js/app-github.js:185-211 | The backup's JSON is stored under `inventory-backup`. A rejected write changes nothing and yields false. |
| GitHubApp.BackupPrefixEntries | js/app-github.js:189-202 | In a well-formed form the backup after the first `n` rows is one entry per row, in row order, keyed by the row's reference. |
| GitHubApp.BackupPrefixRows | js/app-github.js:189-202 | In a well-formed form the backup has one entry per row, keyed by its reference, in row order. |
| GitHubApp.RestoreEntry | js/app-github.js:221-232 | Writes one entry's price and note. A truthy image is written under `image-<ref>`, and `ok` is false when that write is rejected. |
| GitHubApp.RestoreStepStops | js/app-github.js:220-233 | A rejected write of an entry's image ends the restore: that entry holds the first truthy image, and its fields are the last ones written. |
| GitHubApp.RestoreStepContinues | js/app-github.js:220-233 | Any other entry extends the restored prefix by its fields and, when writes are accepted, by its truthy image. |
| GitHubApp.RestoreAt | js/app-github.js:220-233 | One turn of the `forEach`: true with the prefix extended by the entry, or false after a rejected image write, with the fields written up to that entry and the store unchanged. |
| GitHubApp.RestoreDone | js/app-github.js:220-233 | When every entry has been handled, all fields and all truthy images have been written. |
| GitHubApp.RestoreEntries | js/app-github.js:220-233 | Entries are processed in key order up to `Processed`. The store gets every truthy image, or stays unchanged when writes are rejected. `ok` is false exactly when a rejected image write stopped it. |
| GitHubApp.RestoreInventoryFromLocalStorage | js/app-github.js:214-244 | An absent or unparseable backup returns false and changes nothing. Otherwise the entries are restored. The result is true, and the totals and image hooks run, exactly when no image write was rejected. |
| GitHubApp.RestoredImagesUnchanged | js/app-github.js:231-232 | Writing back images read from the store into a store that still holds them changes nothing. |
| GitHubApp.BackupUpdatesCoerce | js/app-github.js:219-229 | Restoring a backup of a well-formed form changes only the prices, each to the text of its coerced number. |
| GitHubApp.SaveThenRestore | js/app-github.js:185-244 | Backing up then restoring reads back the backup and leaves every note unchanged. Each price becomes its coerced text, and only already-stored images are rewritten. |
| GitHubApp.Records | js/app-github.js:77-93 | There is one record per row with a reference cell, in row order, so never more records than rows. |
| GitHubApp.RecordsOfKeyedRows | js/app-github.js:77-93 | When every row has a reference cell, the records are exactly the rows' records, in order. |
| GitHubApp.CollectRecords | js/app-github.js:72-93 | The row loop builds exactly `Records(rows)`. |
| GitHubApp.ExportInventoryToJson | js/app-github.js:69-120 | Hands over the records wrapped with the time, "1.0.0" and "Solo Electronique", named `inventory-data-<date>.json` with type application/json. |
| GitHubApp.ExportThenApply | js/app-github.js:77-101 | Applying an export of a well-formed form back to it leaves every note unchanged and sets each price to its coerced text. |
| Exporter.BuildCsv | js/export.js:9-12 | The text is the header line, then one line per item of quoted ref, quoted designation, quantity, `price \|\| 0` and the line total, each ending in a newline. |
| Exporter.ExportToCsv | js/export.js:8-14 | Hands over that text as text/csv under the given name, `inventaire.csv` by default. |
| Exporter.CsvTextLines | js/export.js:9-12 | When no line holds a line break, the CSV's lines are the header and each item's line in order. |
| Exporter.CsvLineCells | js/export.js:11 | A comma-free line splits back into its five cells. A falsy price is written as 0 and counts as 0 in the line total. |
| Exporter.PrepareCsv | js/export.js:29-35 | The prepared text is the header, then one line per item of bare ref, quoted designation, quantity, price as given and line total. |
| Exporter.PreparedTextLines | js/export.js:29-35 | When no line holds a line break, the prepared text's lines are the header and each item's line in order. |
| Exporter.PreparedLineCells | js/export.js:32 | A comma-free prepared line splits back into its five cells. |
| Exporter.ExportToExcel | js/export.js:17-20 | Hands over the prepared text as text/csv, with the first ".xlsx" of the name replaced by ".csv". |
| Exporter.ExcelFilenameOfStem | js/export.js:19 | A name `stem.xlsx` whose stem has no ".xlsx" is downloaded as `stem.csv`. |
| Exporter.DefaultExcelFilename | js/export.js:17-19 | The default `inventaire.xlsx` is downloaded as `inventaire.csv`. |
| Strings.ReplaceFirst | js/export.js:19 | Only the first occurrence of the pattern is replaced. Text without the pattern is unchanged. |
| Exporter.ExportToJson | js/export.js:23-26 | Hands over the JSON of the array as application/json under the given name. It decodes back to the array when the encoding round-trips. |
| Exporter.ReportItems | js/export.js:61-66 | The loop produces one report line per item and the running sum of the line totals. |
| Exporter.GenerateReport | js/export.js:56-69 | The report is the title, rule, date and "Elements:" lines, then one line per item, then an empty line and `TOTAL: <total.toFixed(2)> DH`. |
| Exporter.ReportTextLines | js/export.js:56-69 | When no piece holds a line break, the report's lines are the preamble, the item lines, an empty line and the total line. |
| Exporter.LineTotal | js/export.js:63 | The line total is NaN exactly when the quantity is NaN, or the price is truthy and NaN as a number. A falsy price counts as 0, and a truthy one multiplies the quantity. |
| Exporter.TotalSnoc | js/export.js:61-65 | The total starts at 0, and each item adds its line total to the total of the items before it. |
| Exporter.TotalAppend | js/export.js:62-66 | In exact arithmetic, the total of two runs of items is the sum of their totals. |
| Exporter.TotalIsNaN | js/export.js:62-66 | The total is NaN exactly when some item's `qty * (price \|\| 0)` is NaN. |
| Strings.TrimEmpty | js/app-github.js:86 | A trimmed text is empty exactly when the text is all white space. |
| Strings.TrimSurrounded | js/app-github.js:86 | The text is its trimmed text with only white space before and after it. |
| Strings.TrimIdempotent | js/app-github.js:136 | Trimming twice is trimming once. |
| Strings.BeforeChar | js/app-github.js:109 | `split('T')[0]` is the longest prefix without a `T`, followed in the text by `T` or by nothing. |
| Strings.SplitJoin | js/logs.js:48-49 | Splitting text joined from separator-free pieces gives back the pieces. |
| Js.PutGet | js/app-github.js:196-201 | After `o[k] = v`, `k` reads `v` and every other key reads as before. A new key goes last and an existing key keeps its place. |
| Storage.DownloadSink.Save | js/export.js:38-48 | The file handed over is appended to the downloads received, with its content, name and type as given. |
| Storage.LocalStorage.SetItem | js/app-github.js:144 | A write stores the value under the key unless writes are rejected, in which case the store is unchanged and the write fails. |

## Left out

- The network fetch and its `await`s. `LoadInventoryFromRemote` takes the settled response: `ok`, `status`, and the value of `.inventory` on what `json()` yields, absent when `json()` rejects or yields null.
- `showMessage`, `console` output, and the registration of functions and the log manager on `window`. They only report, so they are not modelled.
- The Blob, object-URL and anchor-click mechanics of downloads. A download is modelled as one file (content, name, type) handed to `DownloadSink`.
- `printInventory`, which is only a call to `window.print()`.
- Clocks (`Date.now()`, `toISOString()`, `toLocaleDateString()`). They are parameters of the operations.
- localStorage quota behaviour is reduced to one flag. While `rejectsWrites` is set, every `setItem` throws. A quota that accepts some writes and not others is not modelled.
- `LoadInventoryFromRemote`: an `inventory` array holding `null` or `undefined` makes the source throw part-way through the loop, after the earlier items were applied. An `Item` is always an object, so such arrays are outside the model.
- `Logs.LoadLogs`: a stored text that parses to a JSON value other than an array, such as an object or a number, is returned as is by the source and becomes the log. The model's codec decodes only arrays of entries, so such a text loads as [].
- `GitHubApp.LoadFromLocalStorage`: a stored `inventoryData` that parses to a number or boolean has no keys, so the source writes nothing but still runs the totals hook. A string parses to character-index keys. The model's codec decodes only objects, so such texts change nothing and run no hook. A saved entry that is a number, boolean or string writes `undefined` in the source. A `null` entry throws when its price or note is read, which happens whenever its reference has a price input or a note textarea. The loop stops part-way with the earlier references written, and the totals hook does not run. Both kinds of entry are outside the model.
- `GitHubApp.RestoreInventoryFromLocalStorage`: a stored backup that parses to a number or boolean, such as `5`, has no keys. The source then runs the hooks and returns true with nothing restored. The model's codec decodes only objects, so such a text returns false and changes nothing. A `null` entry in the backup always throws, at the image check if not before. The earlier entries' fields and images then stay written and the source returns false. The model cannot produce this partial restore.
- `Logs.Entry.extra`: the extra properties of a log entry are a map, so their order is not kept. `JSON.stringify` writes them in the order of `details`. The entry's JSON text is a parameter, so no proved property depends on that order.
- `Exporter.TotalAppend`: holds for exact sums only. Floating-point `+` is not associative, so in the source the total of two runs can differ from the sum of their totals by rounding.
- Floating point: numbers are reals or NaN. Infinities, -0 and the rounding of `*` and `+` are not modelled. `String(x)`, `toFixed(2)`, `Number(s)`, `parseFloat` and `parseInt` are host parameters.
- The browser's sanitising of a number input's value when it is assigned. A price field holds exactly the text written to it.
- CSS selector escaping. A reference containing `"` or `\` would change the selector in the source, but is taken literally here.
- Object keys that look like array indices, which JavaScript enumerates first in numeric order. Keys are modelled in insertion order.
- `Logs.LogManager.ExportToJson`: the pretty-printed JSON is a parameter, so this member has no contract of its own.
- `Strings.Trim`: its properties are the lemmas `Strings.TrimEmpty`, `Strings.TrimSurrounded`, `Strings.TrimEnds` and `Strings.TrimIdempotent`, not ensures clauses on the function.
