/**
 * ExportManager: the inventory exports. Two CSV layouts (one for the CSV
 * download, one prepared for the spreadsheet download), a JSON download and a
 * plain-text report whose last line is the inventory's total value.
 */
module Exporter {
  import opened Js
  import opened Strings
  import opened Storage

  /** An element of the exported array; a missing property reads as Undefined. */
  datatype Item = Item(ref: Value, des: Value, qty: Value, price: Value)

  /** `item.qty * (item.price || 0)` */
  function LineTotal(item: Item, host: Host): (t: Number)
    ensures t.NaN? <==> ToNumber(item.qty, host).NaN? || (!Falsy(item.price) && ToNumber(item.price, host).NaN?)
    ensures Falsy(item.price) && t.Finite? ==> t == Finite(0.0)
    ensures !Falsy(item.price) && t.Finite? ==> t.r == ToNumber(item.qty, host).r * ToNumber(item.price, host).r
  {
    Mul(ToNumber(item.qty, host), ToNumber(Or(item.price, Zero), host))
  }

  /* ---------- exportToCSV ---------- */

  /**
   * The header line of the CSV export. It is written as two literals so that
   * `CsvHeaderIsOneLine` can show each half free of line breaks on its own.
   */
  const CsvHeader := "Ref,Designation,Quantite," + "PrixUnitaire,PrixTotal"

  lemma NotInConcat(a: string, b: string, c: char)
    requires c !in a && c !in b
    ensures c !in a + b
  {
  }

  lemma CsvHeaderIsOneLine()
    ensures '\n' !in CsvHeader
  {
    NotInConcat("Ref,Designation,Quantite,", "PrixUnitaire,PrixTotal", '\n');
  }

  /** Quoted reference and designation, quantity, price or 0, line total. */
  function CsvCells(item: Item, host: Host): seq<string> {
    [Quote(ToText(item.ref, host)), Quote(ToText(item.des, host)), ToText(item.qty, host),
     ToText(Or(item.price, Zero), host), NumberText(LineTotal(item, host), host)]
  }

  function CsvLine(item: Item, host: Host): string {
    Join(CsvCells(item, host), ',')
  }

  function CsvLines(data: seq<Item>, host: Host): seq<string> {
    seq(|data|, i requires 0 <= i < |data| => CsvLine(data[i], host))
  }

  /** The downloaded CSV text: the header, then one line per item, each ending in a newline. */
  function CsvText(data: seq<Item>, host: Host): string {
    Terminated([CsvHeader] + CsvLines(data, host))
  }

  lemma CsvLinesSnoc(data: seq<Item>, i: nat, host: Host)
    requires i < |data|
    ensures [CsvHeader] + CsvLines(data[..i + 1], host) == [CsvHeader] + CsvLines(data[..i], host) + [CsvLine(data[i], host)]
  {
    assert CsvLines(data[..i + 1], host) == CsvLines(data[..i], host) + [CsvLine(data[i], host)];
  }

  /** The CSV text, built line by line as `exportToCSV` does. */
  method BuildCsv(data: seq<Item>, host: Host) returns (csv: string)
    ensures csv == CsvText(data, host)
  {
    csv := CsvHeader + "\n";
    ghost var lines := [CsvHeader];
    assert csv == Terminated(lines) by {
      assert lines[..0] == [];
    }
    var i := 0;
    while i < |data|
      invariant 0 <= i <= |data|
      invariant lines == [CsvHeader] + CsvLines(data[..i], host)
      invariant csv == Terminated(lines)
    {
      var line := CsvLine(data[i], host);
      CsvLinesSnoc(data, i, host);
      TerminatedSnoc(lines, line);
      csv := csv + line + "\n";
      lines := lines + [line];
      i := i + 1;
    }
    assert data[..i] == data;
  }

  /** `exportToCSV(data, filename)`: the CSV text, downloaded as text/csv. */
  method ExportToCsv(data: seq<Item>, sink: DownloadSink, host: Host, filename: string := "inventaire.csv")
    modifies sink
    ensures sink.received == old(sink.received) + [Download(CsvText(data, host), filename, "text/csv")]
  {
    var csv := BuildCsv(data, host);
    sink.Save(csv, filename, "text/csv");
  }

  /**
   * When no cell holds a line break, the lines of the CSV text are the header and
   * then each item's line, in order.
   */
  lemma CsvTextLines(data: seq<Item>, host: Host)
    requires forall i :: 0 <= i < |data| ==> '\n' !in CsvLine(data[i], host)
    ensures Split(CsvText(data, host), '\n') == [CsvHeader] + CsvLines(data, host) + [""]
  {
    var lines := [CsvHeader] + CsvLines(data, host);
    forall i | 0 <= i < |lines|
      ensures '\n' !in lines[i]
    {
      if i == 0 {
        CsvHeaderIsOneLine();
      } else {
        assert lines[i] == CsvLine(data[i - 1], host);
      }
    }
    LinesOfTerminated(lines);
  }

  /**
   * When no cell holds a comma, a line splits back into its five cells; a falsy
   * price is written as 0 and counts as 0 in the line total.
   */
  lemma CsvLineCells(item: Item, host: Host)
    requires forall i :: 0 <= i < 5 ==> ',' !in CsvCells(item, host)[i]
    ensures Split(CsvLine(item, host), ',') == CsvCells(item, host)
    ensures Falsy(item.price) ==> CsvCells(item, host)[3] == host.numberText(0.0)
    ensures Falsy(item.price) ==> LineTotal(item, host) == Mul(ToNumber(item.qty, host), Finite(0.0))
  {
    SplitJoin(CsvCells(item, host), ',');
  }

  /* ---------- prepareCSV and exportToExcel ---------- */

  /** The header line of the prepared CSV, in two literals for the same reason as `CsvHeader`. */
  const PreparedHeader := "Reference,Designation," + "Quantite,Prix,Total"

  lemma PreparedHeaderIsOneLine()
    ensures '\n' !in PreparedHeader
  {
    NotInConcat("Reference,Designation,", "Quantite,Prix,Total", '\n');
  }

  /** Bare reference, quoted designation, quantity, price as given, line total. */
  function PreparedCells(item: Item, host: Host): seq<string> {
    [ToText(item.ref, host), Quote(ToText(item.des, host)), ToText(item.qty, host),
     ToText(item.price, host), NumberText(LineTotal(item, host), host)]
  }

  function PreparedLine(item: Item, host: Host): string {
    Join(PreparedCells(item, host), ',')
  }

  function PreparedLines(data: seq<Item>, host: Host): seq<string> {
    seq(|data|, i requires 0 <= i < |data| => PreparedLine(data[i], host))
  }

  function PreparedText(data: seq<Item>, host: Host): string {
    Terminated([PreparedHeader] + PreparedLines(data, host))
  }

  lemma PreparedLinesSnoc(data: seq<Item>, i: nat, host: Host)
    requires i < |data|
    ensures [PreparedHeader] + PreparedLines(data[..i + 1], host)
         == [PreparedHeader] + PreparedLines(data[..i], host) + [PreparedLine(data[i], host)]
  {
    assert PreparedLines(data[..i + 1], host) == PreparedLines(data[..i], host) + [PreparedLine(data[i], host)];
  }

  /** `prepareCSV(data)` */
  method PrepareCsv(data: seq<Item>, host: Host) returns (csv: string)
    ensures csv == PreparedText(data, host)
  {
    csv := PreparedHeader + "\n";
    ghost var lines := [PreparedHeader];
    assert csv == Terminated(lines) by {
      assert lines[..0] == [];
    }
    var i := 0;
    while i < |data|
      invariant 0 <= i <= |data|
      invariant lines == [PreparedHeader] + PreparedLines(data[..i], host)
      invariant csv == Terminated(lines)
    {
      var line := PreparedLine(data[i], host);
      PreparedLinesSnoc(data, i, host);
      TerminatedSnoc(lines, line);
      csv := csv + line + "\n";
      lines := lines + [line];
      i := i + 1;
    }
    assert data[..i] == data;
  }

  /** When no cell holds a line break, the prepared text has the header and one line per item. */
  lemma PreparedTextLines(data: seq<Item>, host: Host)
    requires forall i :: 0 <= i < |data| ==> '\n' !in PreparedLine(data[i], host)
    ensures Split(PreparedText(data, host), '\n') == [PreparedHeader] + PreparedLines(data, host) + [""]
  {
    var lines := [PreparedHeader] + PreparedLines(data, host);
    forall i | 0 <= i < |lines|
      ensures '\n' !in lines[i]
    {
      if i == 0 {
        PreparedHeaderIsOneLine();
      } else {
        assert lines[i] == PreparedLine(data[i - 1], host);
      }
    }
    LinesOfTerminated(lines);
  }

  /** When no cell holds a comma, a prepared line splits back into its five cells. */
  lemma PreparedLineCells(item: Item, host: Host)
    requires forall i :: 0 <= i < 5 ==> ',' !in PreparedCells(item, host)[i]
    ensures Split(PreparedLine(item, host), ',') == PreparedCells(item, host)
  {
    SplitJoin(PreparedCells(item, host), ',');
  }

  /** The spreadsheet download's name: the first ".xlsx" becomes ".csv". */
  function ExcelFilename(filename: string): string {
    ReplaceFirst(filename, ".xlsx", ".csv")
  }

  /** `exportToExcel(data, filename)`: the prepared text, downloaded as text/csv. */
  method ExportToExcel(data: seq<Item>, sink: DownloadSink, host: Host, filename: string := "inventaire.xlsx")
    modifies sink
    ensures sink.received == old(sink.received) + [Download(PreparedText(data, host), ExcelFilename(filename), "text/csv")]
  {
    var csv := PrepareCsv(data, host);
    sink.Save(csv, ExcelFilename(filename), "text/csv");
  }

  /** A name that does not already contain ".xlsx" keeps its stem and gets the extension ".csv". */
  lemma ExcelFilenameOfStem(stem: string)
    requires IndexOf(stem, ".xlsx").None?
    ensures ExcelFilename(stem + ".xlsx") == stem + ".csv"
  {
    var s, pat := stem + ".xlsx", ".xlsx";
    assert OccursAt(s, pat, |stem|) by {
      assert s[|stem|..|stem| + 5] == pat;
    }
    forall j | 0 <= j < |stem|
      ensures !OccursAt(s, pat, j)
    {
      if j + 5 <= |stem| {
        assert !OccursAt(stem, pat, j);
        assert s[j..j + 5] == stem[j..j + 5];
      } else {
        var d := |stem| - j;
        assert 1 <= d < 5;
        assert s[j..j + 5][d] == s[|stem|] == '.';
        assert pat[d] != '.';
        assert s[j..j + 5] != pat;
      }
    }
    var k := IndexOf(s, pat).value;
    assert k == |stem|;
    assert s[..k] == stem && s[k + 5..] == [];
  }

  /** A name without a dot has no ".xlsx" in it. */
  lemma NoDotNoExcelExtension(stem: string)
    requires '.' !in stem
    ensures IndexOf(stem, ".xlsx").None?
  {
    forall j | 0 <= j <= |stem|
      ensures !OccursAt(stem, ".xlsx", j)
    {
      if j + 5 <= |stem| {
        assert stem[j..j + 5][0] == stem[j];
      }
    }
  }

  /** The default name "inventaire.xlsx" is downloaded as "inventaire.csv". */
  lemma DefaultExcelFilename()
    ensures ExcelFilename("inventaire" + ".xlsx") == "inventaire" + ".csv"
  {
    NoDotNoExcelExtension("inventaire");
    ExcelFilenameOfStem("inventaire");
  }

  /* ---------- exportToJSON ---------- */

  /**
   * `exportToJSON(data, filename)`: the JSON text of the array, downloaded as
   * application/json.
   */
  method ExportToJson(data: seq<Item>, sink: DownloadSink, codec: Codec<seq<Item>>, filename: string := "inventaire.json")
    modifies sink
    ensures sink.received == old(sink.received) + [Download(codec.encode(data), filename, "application/json")]
    ensures RoundTrips(codec, data) ==> codec.decode(sink.received[|sink.received| - 1].content) == Some(data)
  {
    var json := codec.encode(data);
    sink.Save(json, filename, "application/json");
  }

  /* ---------- generateReport ---------- */

  const ReportTitle := "RAPPORT D'INVENTAIRE"
  const ReportRule := "=================="

  /** The report's opening lines, up to the "Elements:" heading. */
  function Preamble(date: string): seq<string> {
    [ReportTitle, ReportRule, "", "Date: " + date, "", "Elements:"]
  }

  function ReportLine(item: Item, host: Host): string {
    "- " + ToText(item.ref, host) + ": " + ToText(item.des, host)
      + " (Qty: " + ToText(item.qty, host) + ", Price: " + ToText(item.price, host) + ")"
  }

  function ReportLines(data: seq<Item>, host: Host): seq<string> {
    seq(|data|, i requires 0 <= i < |data| => ReportLine(data[i], host))
  }

  /** The sum of the line totals, starting from 0; a NaN line total makes it NaN. */
  function Total(data: seq<Item>, host: Host): Number {
    if |data| == 0 then Finite(0.0)
    else Add(Total(data[..|data| - 1], host), LineTotal(data[|data| - 1], host))
  }

  function TotalLine(data: seq<Item>, host: Host): string {
    "TOTAL: " + FixedText(Total(data, host), host) + " DH"
  }

  /**
   * The report text: the preamble and one line per item, each ending in a newline,
   * then an empty line and the total, with no final newline.
   */
  function ReportText(data: seq<Item>, date: string, host: Host): string {
    Terminated(Preamble(date) + ReportLines(data, host) + [""]) + TotalLine(data, host)
  }

  lemma PreambleText(date: string)
    ensures Terminated(Preamble(date))
         == "RAPPORT D'INVENTAIRE\n" + "==================\n\n" + "Date: " + date + "\n\n" + "Elements:\n"
  {
    TerminatedSix(ReportTitle, ReportRule, "", "Date: " + date, "", "Elements:");
  }

  lemma ReportLinesSnoc(data: seq<Item>, i: nat, host: Host)
    requires i < |data|
    ensures ReportLines(data[..i + 1], host) == ReportLines(data[..i], host) + [ReportLine(data[i], host)]
  {
  }

  /** The running total: each item adds its line total to the total of the items before it. */
  lemma TotalSnoc(data: seq<Item>, i: nat, host: Host)
    requires i < |data|
    ensures Total(data[..i + 1], host) == Add(Total(data[..i], host), LineTotal(data[i], host))
  {
    PrefixOfPrefix(data, i + 1, i);
  }

  /** The `forEach` of `generateReport`: one line per item, and the running total. */
  method ReportItems(data: seq<Item>, host: Host) returns (text: string, total: Number)
    ensures text == Terminated(ReportLines(data, host))
    ensures total == Total(data, host)
  {
    text, total := "", Finite(0.0);
    ghost var lines: seq<string> := [];
    var i := 0;
    while i < |data|
      invariant 0 <= i <= |data|
      invariant lines == ReportLines(data[..i], host)
      invariant text == Terminated(lines)
      invariant total == Total(data[..i], host)
    {
      var line := ReportLine(data[i], host);
      var lineTotal := LineTotal(data[i], host);
      ReportLinesSnoc(data, i, host);
      TotalSnoc(data, i, host);
      TerminatedSnoc(lines, line);
      text := text + line + "\n";
      total := Add(total, lineTotal);
      lines := lines + [line];
      i := i + 1;
    }
    assert data[..i] == data;
  }

  /** `generateReport(data)`, with the date the host renders for today. */
  method GenerateReport(data: seq<Item>, date: string, host: Host) returns (report: string)
    ensures report == ReportText(data, date, host)
  {
    report := "RAPPORT D'INVENTAIRE\n";
    report := report + "==================\n\n";
    report := report + "Date: " + date + "\n\n";
    report := report + "Elements:\n";
    var items, total := ReportItems(data, host);
    report := report + items;
    ReportAssembled(data, date, host, report, total);
    report := report + "\nTOTAL: " + FixedText(total, host) + " DH";
  }

  lemma ReportAssembled(data: seq<Item>, date: string, host: Host, head: string, total: Number)
    requires head == "RAPPORT D'INVENTAIRE\n" + "==================\n\n" + "Date: " + date + "\n\n"
                     + "Elements:\n" + Terminated(ReportLines(data, host))
    requires total == Total(data, host)
    ensures head + "\nTOTAL: " + FixedText(total, host) + " DH" == ReportText(data, date, host)
  {
    var pre, items := Preamble(date), ReportLines(data, host);
    PreambleText(date);
    TerminatedAppend(pre, items);
    TerminatedSnoc(pre + items, "");
    ReportEnding(head, FixedText(total, host));
  }

  /** The report's `\nTOTAL: ...` suffix is an empty line ended by a newline, then the total line. */
  lemma ReportEnding(text: string, total: string)
    ensures text + "\nTOTAL: " + total + " DH" == text + "" + "\n" + ("TOTAL: " + total + " DH")
  {
  }

  /** Addition with NaN propagation associates, in exact arithmetic. */
  lemma AddAssociates(x: Number, y: Number, z: Number)
    ensures Add(Add(x, y), z) == Add(x, Add(y, z))
  {
  }

  /** In exact arithmetic, the total of two runs of items is the sum of their totals. */
  lemma {:induction false} TotalAppend(a: seq<Item>, b: seq<Item>, host: Host)
    ensures Total(a + b, host) == Add(Total(a, host), Total(b, host))
  {
    if |b| == 0 {
      assert a + b == a;
    } else {
      var init, last := b[..|b| - 1], b[|b| - 1];
      InitOfAppend(a, b);
      TotalAppend(a, init, host);
      AddAssociates(Total(a, host), Total(init, host), LineTotal(last, host));
    }
  }

  /** The total is NaN exactly when some item's line total is. */
  lemma {:induction false} TotalIsNaN(data: seq<Item>, host: Host)
    ensures Total(data, host).NaN? <==> SomeNaN(data, host)
  {
    if |data| > 0 {
      TotalIsNaN(data[..|data| - 1], host);
      SomeNaNSnoc(data, host);
    }
  }

  /** Some item's line total is NaN. */
  predicate SomeNaN(data: seq<Item>, host: Host) {
    exists i :: 0 <= i < |data| && LineTotal(data[i], host).NaN?
  }

  lemma SomeNaNSnoc(data: seq<Item>, host: Host)
    requires |data| > 0
    ensures SomeNaN(data, host) <==> SomeNaN(data[..|data| - 1], host) || LineTotal(data[|data| - 1], host).NaN?
  {
    var init := data[..|data| - 1];
    if SomeNaN(init, host) {
      var i :| 0 <= i < |init| && LineTotal(init[i], host).NaN?;
      assert data[i] == init[i];
    }
    if SomeNaN(data, host) {
      var i :| 0 <= i < |data| && LineTotal(data[i], host).NaN?;
      if i < |init| {
        assert init[i] == data[i];
      }
    }
  }

  lemma PreambleIsLines(date: string)
    requires '\n' !in date
    ensures OneLineEach(Preamble(date))
  {
    NotInConcat("Date: ", date, '\n');
  }

  /**
   * When neither the date nor any item line holds a line break and the total has
   * none either, the report's lines are the preamble, one line per item, an empty
   * line and the total line.
   */
  lemma ReportTextLines(data: seq<Item>, date: string, host: Host)
    requires '\n' !in date
    requires forall i :: 0 <= i < |data| ==> '\n' !in ReportLine(data[i], host)
    requires '\n' !in FixedText(Total(data, host), host)
    ensures Split(ReportText(data, date, host), '\n') == Preamble(date) + ReportLines(data, host) + ["", TotalLine(data, host)]
  {
    ReportBodyIsLines(data, date, host);
    TotalLineIsLine(data, host);
    LinesOfText(Preamble(date) + ReportLines(data, host) + [""], TotalLine(data, host));
    AppendPair(Preamble(date) + ReportLines(data, host), "", TotalLine(data, host));
  }

  lemma ReportBodyIsLines(data: seq<Item>, date: string, host: Host)
    requires '\n' !in date
    requires forall i :: 0 <= i < |data| ==> '\n' !in ReportLine(data[i], host)
    ensures OneLineEach(Preamble(date) + ReportLines(data, host) + [""])
  {
    var pre, items := Preamble(date), ReportLines(data, host);
    PreambleIsLines(date);
    assert OneLineEach(items);
    assert OneLineEach([""]);
    OneLineEachAppend(pre, items);
    OneLineEachAppend(pre + items, [""]);
  }

  lemma TotalLineIsLine(data: seq<Item>, host: Host)
    requires '\n' !in FixedText(Total(data, host), host)
    ensures '\n' !in TotalLine(data, host)
  {
    NotInConcat("TOTAL: ", FixedText(Total(data, host), host), '\n');
    NotInConcat("TOTAL: " + FixedText(Total(data, host), host), " DH", '\n');
  }
}
