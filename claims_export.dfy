/** The "Export to CSV" handler of the admin dashboard: the CSV text built from
    the current filtered and sorted view, and the name of the downloaded file. */
module ClaimsExport {
  import opened Wrappers
  import opened JsValues
  import opened JsonText
  import opened Sequences

  /** Characters that the text of a finite JavaScript number can hold. */
  predicate IsNumberChar(c: char)
  {
    '0' <= c <= '9' || c == '-' || c == '+' || c == '.' || c == 'e'
  }

  /** The text `JSON.stringify` gives a finite number (`Number::toString`). */
  type NumberText = s: string | forall i | 0 <= i < |s| :: IsNumberChar(s[i])

  /** One cell: `JSON.stringify(value, replacer)` with a replacer that turns
      `null` into "". An absent property stringifies to `undefined`, which
      `join` writes as nothing. The digits of a number come from `numText`.
      A string cell, and the cell of `null`, is JSON text that reads back as
      the string, respectively as the empty string. */
  function Cell(v: Option<Json>, numText: real -> NumberText): (cell: string)
    ensures v.None? ==> cell == ""
    ensures v == Some(JNull) ==> Unquote(cell) == Some("")
    ensures v.Some? && v.value.JStr? ==> Unquote(cell) == Some(v.value.s)
  {
    match v
    case None => ""
    case Some(JNull) => UnquoteQuote(""); Quote("")
    case Some(JBool(b)) => if b then "true" else "false"
    case Some(JNum(x)) => numText(x)
    case Some(JStr(s)) => UnquoteQuote(s); Quote(s)
  }

  /** The cells of one record, taken in the order of `headers`. */
  function Cells(row: Record, headers: seq<string>, numText: real -> NumberText): (cells: seq<string>)
    ensures |cells| == |headers|
    ensures forall i :: 0 <= i < |headers| ==> cells[i] == Cell(Get(row, headers[i]), numText)
  {
    if headers == [] then [] else [Cell(Get(row, headers[0]), numText)] + Cells(row, headers[1..], numText)
  }

  /** One data line: the cells joined by commas. */
  function RowLine(row: Record, headers: seq<string>, numText: real -> NumberText): string
  {
    Join(Cells(row, headers, numText), ',')
  }

  /** The data lines, one per record, in view order. */
  function RowLines(data: seq<Record>, headers: seq<string>, numText: real -> NumberText): (lines: seq<string>)
    ensures |lines| == |data|
    ensures forall i :: 0 <= i < |data| ==> lines[i] == RowLine(data[i], headers, numText)
  {
    if data == [] then [] else [RowLine(data[0], headers, numText)] + RowLines(data[1..], headers, numText)
  }

  /** The exported text: the first record's keys joined by commas, unquoted,
      then one line per record, all joined by line feeds. Unless a key holds a
      line feed, splitting the text at line feeds gives back the header line
      and then each record's line. */
  function CsvText(data: seq<Record>, numText: real -> NumberText): (text: string)
    requires |data| > 0
    ensures (forall i :: 0 <= i < |data[0]| ==> '\n' !in data[0][i].key) ==>
      Split(text, '\n') == [Join(Keys(data[0]), ',')] + RowLines(data, Keys(data[0]), numText)
  {
    var headers := Keys(data[0]);
    var parts := [Join(headers, ',')] + RowLines(data, headers, numText);
    LinesSplitBack(headers, RowLines(data, headers, numText));
    RowLinesHaveNoLineFeed(data, headers, numText);
    Join(parts, '\n')
  }

  /** The lines of the export split back apart at line feeds, as long as no
      header and no line holds one. */
  lemma LinesSplitBack(headers: seq<string>, lines: seq<string>)
    ensures ((forall i :: 0 <= i < |headers| ==> '\n' !in headers[i])
             && (forall i :: 0 <= i < |lines| ==> '\n' !in lines[i])) ==>
      Split(Join([Join(headers, ',')] + lines, '\n'), '\n') == [Join(headers, ',')] + lines
  {
    var parts := [Join(headers, ',')] + lines;
    if (forall i :: 0 <= i < |headers| ==> '\n' !in headers[i])
        && (forall i :: 0 <= i < |lines| ==> '\n' !in lines[i]) {
      forall i | 0 <= i < |parts|
        ensures '\n' !in parts[i]
      {
        if i == 0 && '\n' in parts[0] {
          JoinCharacters(headers, ',', '\n');
        }
      }
      SplitJoin(parts, '\n');
    }
  }

  /** A cell never holds a line feed: strings are escaped, numbers are digits. */
  lemma CellHasNoLineFeed(v: Option<Json>, numText: real -> NumberText)
    ensures '\n' !in Cell(v, numText)
  {
    match v
    case Some(JNum(x)) =>
      var t := numText(x);
      assert forall i :: 0 <= i < |t| ==> IsNumberChar(t[i]);
    case _ =>
  }

  lemma RowLineHasNoLineFeed(row: Record, headers: seq<string>, numText: real -> NumberText)
    ensures '\n' !in RowLine(row, headers, numText)
  {
    var cells := Cells(row, headers, numText);
    if '\n' in RowLine(row, headers, numText) {
      JoinCharacters(cells, ',', '\n');
      var i :| 0 <= i < |cells| && '\n' in cells[i];
      CellHasNoLineFeed(Get(row, headers[i]), numText);
    }
  }

  lemma RowLinesHaveNoLineFeed(data: seq<Record>, headers: seq<string>, numText: real -> NumberText)
    ensures forall i :: 0 <= i < |data| ==> '\n' !in RowLines(data, headers, numText)[i]
  {
    forall i | 0 <= i < |data|
      ensures '\n' !in RowLines(data, headers, numText)[i]
    {
      RowLineHasNoLineFeed(data[i], headers, numText);
    }
  }

  /** The export has exactly one line per record plus the header line, as long
      as no key of the first record holds a line feed: splitting the text at
      line feeds gives back the header line and each record's line in order. */
  lemma CsvLines(data: seq<Record>, numText: real -> NumberText)
    requires |data| > 0
    requires forall i :: 0 <= i < |data[0]| ==> '\n' !in data[0][i].key
    ensures var lines := Split(CsvText(data, numText), '\n');
      && |lines| == |data| + 1
      && lines[0] == Join(Keys(data[0]), ',')
      && forall i :: 0 <= i < |data| ==> lines[i + 1] == RowLine(data[i], Keys(data[0]), numText)
  {
  }

  /** What each cell holds: nothing for an absent key, the two characters `""`
      for `null`, and for a string a double-quoted literal that a JSON reader
      turns back into the string. */
  lemma CellContents(v: Option<Json>, numText: real -> NumberText)
    ensures v.None? ==> Cell(v, numText) == ""
    ensures v == Some(JNull) ==> Cell(v, numText) == "\"\""
    ensures v.Some? && v.value.JStr? ==>
      var c := Cell(v, numText);
      |c| >= 2 && c[0] == '"' && c[|c| - 1] == '"' && Unquote(c) == Some(v.value.s)
  {
    if v.Some? && v.value.JStr? {
      UnquoteQuote(v.value.s);
    }
  }

  /** Only the first record's keys are exported: two records that agree on
      those keys give the same line, whatever other keys they have. */
  lemma RowLineUsesHeadersOnly(r1: Record, r2: Record, headers: seq<string>, numText: real -> NumberText)
    requires forall i :: 0 <= i < |headers| ==> Get(r1, headers[i]) == Get(r2, headers[i])
    ensures RowLine(r1, headers, numText) == RowLine(r2, headers, numText)
  {
    assert Cells(r1, headers, numText) == Cells(r2, headers, numText);
  }

  /** `JSON.stringify("a,b")`: the comma is left as it is. */
  lemma QuoteOfPlainText()
    ensures Quote("a,b") == "\"a" + [','] + "b\""
  {
    assert Escape("") == "";
    assert "b"[1..] == "" && Escape("b") == "b";
    assert ",b"[1..] == "b" && Escape(",b") == ",b";
    assert "a,b"[1..] == ",b";
  }

  /** Commas inside values are not escaped: a reader that splits a line at
      every comma sees more fields than there are headers. */
  lemma CommaInValueSplitsCell(numText: real -> NumberText)
    ensures |Split(RowLine([Field("Description", JStr("a,b"))], ["Description"], numText), ',')| == 2
  {
    var row := [Field("Description", JStr("a,b"))];
    assert Get(row, "Description") == Some(JStr("a,b"));
    var cell := Cell(Some(JStr("a,b")), numText);
    QuoteOfPlainText();
    assert cell == "\"a" + [','] + "b\"";
    assert Cells(row, ["Description"], numText) == [cell];
    assert RowLine(row, ["Description"], numText) == cell;
    SplitAfterPiece("\"a", ',', "b\"");
    SplitNoSeparator("b\"", ',');
  }

  // ---------------------------------------------------------------------------
  // The downloaded file

  /** `s.replace(/:/g, "")`. */
  function WithoutColons(s: string): (r: string)
    ensures ':' !in r
    ensures |r| <= |s|
  {
    if s == [] then "" else (if s[0] == ':' then "" else [s[0]]) + WithoutColons(s[1..])
  }

  /** Removing colons keeps every other character, in order. */
  lemma {:induction false} WithoutColonsKeeps(a: string, b: string)
    ensures WithoutColons(a + ":" + b) == WithoutColons(a) + WithoutColons(b)
    ensures ':' !in a ==> WithoutColons(a) == a
  {
    if a == [] {
      assert a + ":" + b == [':'] + b;
      assert (a + ":" + b)[1..] == b;
    } else {
      var s := a + ":" + b;
      assert s[0] == a[0] && s[1..] == a[1..] + ":" + b;
      WithoutColonsKeeps(a[1..], b);
      assert WithoutColons(a) == (if a[0] == ':' then "" else [a[0]]) + WithoutColons(a[1..]);
      assert ':' !in a ==> a == [a[0]] + a[1..];
    }
  }

  /** `claims_export_${new Date().toISOString().slice(0, 19).replace(/:/g, "")}.csv`. */
  function ExportFileName(iso: string): (name: string)
    ensures ':' !in name
  {
    var stamp := WithoutColons(if |iso| <= 19 then iso else iso[..19]);
    assert ':' !in "claims_export_" + stamp + ".csv";
    "claims_export_" + stamp + ".csv"
  }

  /** Dropping the two colons of `HH:mm:ss` after the date leaves its digits. */
  lemma {:induction false} TimeWithoutColons(dateHour: string, minute: string, second: string)
    requires ':' !in dateHour && ':' !in minute && ':' !in second
    ensures WithoutColons(dateHour + ":" + (minute + ":" + second)) == dateHour + minute + second
  {
    var time := minute + ":" + second;
    assert WithoutColons(time) == minute + second by {
      WithoutColonsKeeps(minute, second);
      WithoutColonsKeeps(minute, "");
      WithoutColonsKeeps(second, "");
    }
    assert WithoutColons(dateHour + ":" + time) == dateHour + (minute + second) by {
      WithoutColonsKeeps(dateHour, time);
      WithoutColonsKeeps(dateHour, "");
    }
  }

  /** An ISO timestamp `YYYY-MM-DDTHH:mm:ss.sssZ` keeps date, 'T' and the time
      digits, and loses the colons, the milliseconds and the zone. */
  lemma ExportFileNameOfIso(dateHour: string, minute: string, second: string, rest: string)
    requires |dateHour| == 13 && |minute| == 2 && |second| == 2
    requires ':' !in dateHour && ':' !in minute && ':' !in second
    ensures ExportFileName(dateHour + ":" + minute + ":" + second + rest)
         == "claims_export_" + dateHour + minute + second + ".csv"
  {
    var iso := dateHour + ":" + minute + ":" + second + rest;
    var head := dateHour + ":" + (minute + ":" + second);
    assert iso == head + rest;
    var stamp := if |iso| <= 19 then iso else iso[..19];
    assert stamp == head by {
      assert |head| == 19;
      if |iso| <= 19 {
        assert rest == [];
      } else {
        assert (head + rest)[..|head|] == head;
      }
    }
    TimeWithoutColons(dateHour, minute, second);
  }

  /** What the export button does with a view. */
  datatype ExportOutcome = Alert(message: string) | Download(fileName: string, content: string)

  const NoClaimsMessage := "No claims to export."

  /** An empty view alerts and downloads nothing; otherwise the CSV of the view
      is offered under the timestamped name. */
  function Export(view: seq<Record>, iso: string, numText: real -> NumberText): (out: ExportOutcome)
    ensures out.Alert? <==> view == []
    ensures out.Alert? ==> out.message == NoClaimsMessage
    ensures out.Download? ==> out.fileName == ExportFileName(iso) && out.content == CsvText(view, numText)
  {
    if |view| == 0 then Alert(NoClaimsMessage)
    else Download(ExportFileName(iso), CsvText(view, numText))
  }
}
