/** The claims file as the server and the Streamlit prototype keep it: CSV
    lines written by pandas, a header on the first write and one data line per
    saved claim. Cells are kept as pandas reads them back. */
module ClaimsTable {
  import opened Wrappers
  import opened JsValues

  /** A cell as read back: text, a number, or NaN. */
  datatype Cell = Text(s: string) | Number(x: real) | Missing

  /** One line of the file. */
  datatype Line = Header(names: seq<string>) | Row(cells: seq<Cell>)

  /** The texts `read_csv` reads as NaN by default: the empty field and the
      spellings of "not available" that pandas recognises. */
  const NaTexts: set<string> := {
    "", "#N/A", "#N/A N/A", "#NA", "-1.#IND", "-1.#QNAN", "-NaN", "-nan", "1.#IND", "1.#QNAN",
    "<NA>", "N/A", "NA", "NULL", "NaN", "None", "n/a", "nan", "null"}

  /** A text cell that reads back as NaN. */
  predicate IsNaText(c: Cell)
  {
    c.Text? && c.s in NaTexts
  }

  /** `to_csv` writes a text as it is (an empty string as an empty field), and
      `read_csv` reads any of the NA texts back as NaN. */
  function Stored(c: Cell): (r: Cell)
    ensures r != Text("") && !IsNaText(r)
    ensures c == Text("") ==> r == Missing
    ensures IsNaText(c) ==> r == Missing
    ensures !IsNaText(c) ==> r == c
  {
    if IsNaText(c) then Missing else c
  }

  function StoredRow(cells: seq<Cell>): (r: seq<Cell>)
    ensures |r| == |cells|
    ensures forall i :: 0 <= i < |cells| ==> r[i] == Stored(cells[i])
  {
    if cells == [] then [] else [Stored(cells[0])] + StoredRow(cells[1..])
  }

  /** A file written only by `Save`: one header line, first, then data lines. */
  predicate WellFormed(lines: seq<Line>)
  {
    |lines| >= 1 && lines[0].Header? && forall i :: 1 <= i < |lines| ==> lines[i].Row?
  }

  /** The data lines' cells, in file order. */
  function Rows(lines: seq<Line>): (rows: seq<seq<Cell>>)
    requires WellFormed(lines)
    ensures |rows| == |lines| - 1
    ensures forall i :: 0 <= i < |rows| ==> rows[i] == lines[i + 1].cells
  {
    seq(|lines| - 1, i requires 0 <= i < |lines| - 1 => lines[i + 1].cells)
  }

  /** `save_claim` and the server's append: a new file gets the header and the
      row, an existing one only the row. */
  function Save(file: Option<seq<Line>>, names: seq<string>, cells: seq<Cell>): (lines: seq<Line>)
    ensures |lines| == (if file.None? then 2 else |file.value| + 1)
    ensures file.None? ==> lines[0] == Header(names)
    ensures file.Some? ==> lines[..|lines| - 1] == file.value
    ensures lines[|lines| - 1] == Row(StoredRow(cells))
    ensures (file.Some? ==> WellFormed(file.value)) ==> WellFormed(lines)
  {
    match file
    case None => [Header(names), Row(StoredRow(cells))]
    case Some(written) => written + [Row(StoredRow(cells))]
  }

  /** Saving keeps the file well formed, adds exactly one data line holding the
      record at the end, and writes a header only when there was no file; an
      existing header is kept as it was. */
  lemma SaveAppendsOneRow(file: Option<seq<Line>>, names: seq<string>, cells: seq<Cell>)
    requires file.Some? ==> WellFormed(file.value)
    ensures WellFormed(Save(file, names, cells))
    ensures file.None? ==> Save(file, names, cells)[0] == Header(names) && Rows(Save(file, names, cells)) == [StoredRow(cells)]
    ensures file.Some? ==>
      Save(file, names, cells)[0] == file.value[0] && Rows(Save(file, names, cells)) == Rows(file.value) + [StoredRow(cells)]
  {
    var lines := Save(file, names, cells);
    if file.Some? {
      assert Rows(lines) == Rows(file.value) + [StoredRow(cells)];
    }
  }

  /** Saving n records into a missing file gives one header and n rows: the
      header is never repeated. */
  function SaveAll(file: Option<seq<Line>>, names: seq<string>, records: seq<seq<Cell>>): (lines: Option<seq<Line>>)
    decreases |records|
  {
    if records == [] then file
    else SaveAll(Some(Save(file, names, records[0])), names, records[1..])
  }

  lemma {:induction false} SaveAllHeaderOnce(file: Option<seq<Line>>, names: seq<string>, records: seq<seq<Cell>>)
    requires file.Some? ==> WellFormed(file.value)
    requires file.Some? || records != []
    decreases |records|
    ensures var r := SaveAll(file, names, records);
      && r.Some? && WellFormed(r.value)
      && (forall i :: 1 <= i < |r.value| ==> !r.value[i].Header?)
      && r.value[0] == (if file.None? then Header(names) else file.value[0])
      && |Rows(r.value)| == (if file.None? then 0 else |Rows(file.value)|) + |records|
  {
    if records != [] {
      SaveAppendsOneRow(file, names, records[0]);
      var next := Some(Save(file, names, records[0]));
      if records[1..] != [] {
        SaveAllHeaderOnce(next, names, records[1..]);
      }
    }
  }

  // ---------------------------------------------------------------------------
  // Reading the file as records

  /** A cell after `fillna("")`, as a JSON value. */
  function FilledJson(c: Cell): (v: Json)
    ensures v.JStr? || v.JNum?
    ensures c.Missing? ==> v == JStr("")
  {
    match c
    case Text(s) => JStr(s)
    case Number(x) => JNum(x)
    case Missing => JStr("")
  }

  /** A listed value after a write and a read: an NA text lists as "", any
      other value as it was. */
  function RereadJson(v: Json): (w: Json)
    ensures v.JStr? && v.s in NaTexts ==> w == JStr("")
    ensures !(v.JStr? && v.s in NaTexts) ==> w == v
  {
    if v.JStr? && v.s in NaTexts then JStr("") else v
  }

  /** A cell written and read back lists as its value reread. */
  lemma FilledStored(c: Cell)
    ensures FilledJson(Stored(c)) == RereadJson(FilledJson(c))
  {
  }

  /** A record after a write and a read: the same keys, each value reread. */
  function RereadRecord(r: Record): (w: Record)
    ensures |w| == |r|
    ensures forall i :: 0 <= i < |r| ==> w[i] == Field(r[i].key, RereadJson(r[i].value))
  {
    seq(|r|, i requires 0 <= i < |r| => Field(r[i].key, RereadJson(r[i].value)))
  }

  /** A cell that is no NA text lists as a value that rereads as itself. */
  lemma FilledPlain(c: Cell)
    requires !IsNaText(c)
    ensures RereadJson(FilledJson(c)) == FilledJson(c)
  {
  }

  /** A record whose values all reread as themselves rereads as itself. */
  lemma RereadFixed(r: Record)
    requires forall i :: 0 <= i < |r| ==> RereadJson(r[i].value) == r[i].value
    ensures RereadRecord(r) == r
  {
    assert forall i :: 0 <= i < |r| ==> RereadRecord(r)[i] == r[i];
  }

  /** One row as a record keyed by the header's names; a short row is padded
      with NaN, which is filled in as "". */
  function RecordOf(names: seq<string>, cells: seq<Cell>): (r: Record)
    ensures Keys(r) == names
    ensures forall i :: 0 <= i < |names| ==>
      r[i].value == (if i < |cells| then FilledJson(cells[i]) else JStr(""))
  {
    if names == [] then []
    else
      var first := if cells == [] then JStr("") else FilledJson(cells[0]);
      [Field(names[0], first)] + RecordOf(names[1..], if cells == [] then [] else cells[1..])
  }

  /** A row written and read back lists as the record of the row, reread. */
  lemma RecordOfStored(names: seq<string>, cells: seq<Cell>)
    ensures RecordOf(names, StoredRow(cells)) == RereadRecord(RecordOf(names, cells))
  {
    var listed := RecordOf(names, StoredRow(cells));
    var reread := RereadRecord(RecordOf(names, cells));
    assert |listed| == |Keys(listed)| == |names|;
    assert |reread| == |Keys(RecordOf(names, cells))| == |names|;
    forall i | 0 <= i < |names|
      ensures listed[i] == reread[i]
    {
      assert listed[i].key == Keys(listed)[i] == names[i];
      assert RecordOf(names, cells)[i].key == Keys(RecordOf(names, cells))[i] == names[i];
      if i < |cells| {
        FilledStored(cells[i]);
      } else {
        assert "" in NaTexts;
      }
    }
  }

  /** The records of a file, one per data row, keyed by its header. */
  function Listed(lines: seq<Line>): (records: seq<Record>)
    requires WellFormed(lines)
    ensures |records| == |lines| - 1
    ensures forall i :: 0 <= i < |records| ==> records[i] == RecordOf(lines[0].names, lines[i + 1].cells)
  {
    seq(|lines| - 1, i requires 0 <= i < |lines| - 1 => RecordOf(lines[0].names, lines[i + 1].cells))
  }

  /** After a save the listing is the old listing plus the saved record. */
  lemma ListedAfterSave(file: Option<seq<Line>>, names: seq<string>, cells: seq<Cell>)
    requires file.Some? ==> WellFormed(file.value) && file.value[0] == Header(names)
    ensures WellFormed(Save(file, names, cells))
    ensures Listed(Save(file, names, cells))
         == (if file.None? then [] else Listed(file.value)) + [RecordOf(names, StoredRow(cells))]
  {
    SaveAppendsOneRow(file, names, cells);
    var lines := Save(file, names, cells);
    var before := if file.None? then [] else Listed(file.value);
    var after := before + [RecordOf(names, StoredRow(cells))];
    assert lines[0] == Header(names);
    assert |Listed(lines)| == |after|;
    forall i | 0 <= i < |after|
      ensures Listed(lines)[i] == after[i]
    {
      if i < |before| {
        assert lines[i + 1] == file.value[i + 1];
      }
    }
  }
}
