/**
 * The preset editor (`EditPreset`): loading a table into two-cell editor
 * rows and saving the non-blank rows back under a fixed header, both with
 * the configured `preset_delimiter`. The delimiter is `None` when the
 * configuration has no usable one-character delimiter: the defaults have
 * none, and `csv` then raises.
 */
module PresetEditor {
  import opened Wrappers
  import opened Text
  import opened Seqs
  import Json
  import Presets

  type Row = Presets.Row

  /** One editor row: the key text and the value text. */
  type EditorRow = (string, string)

  const Header: Row := ["KEY", "VALUE"]

  /** A CSV row padded with `""` to at least two cells; only the first two are edited. */
  function Pad(row: Row): (e: EditorRow)
    ensures |row| >= 1 ==> e.0 == row[0]
    ensures |row| < 1 ==> e.0 == ""
    ensures |row| >= 2 ==> e.1 == row[1]
    ensures |row| < 2 ==> e.1 == ""
  {
    (if |row| >= 1 then row[0] else "", if |row| >= 2 then row[1] else "")
  }

  /** `load(file)`: one editor row per row after the header, read with the
      configured delimiter. A missing or empty file, or a missing
      delimiter, is caught and logged and leaves no rows. */
  function Load(file: Option<Presets.Csv>, delimiter: Option<char>): (r: seq<EditorRow>)
    ensures file.None? || delimiter.None? ==> r == []
    ensures file.Some? && delimiter.Some? ==> var rows := Presets.Reader(file.value, delimiter.value);
      && (rows == [] ==> r == [])
      && (rows != [] ==> |r| == |rows| - 1 && forall i :: 1 <= i < |rows| ==> r[i - 1] == Pad(rows[i]))
  {
    if file.None? || delimiter.None? then []
    else
      var read := Presets.Reader(file.value, delimiter.value);
      if read == [] then []
      else
        var rows := read[1..];
        seq(|rows|, i requires 0 <= i < |rows| => Pad(rows[i]))
  }

  /** A row `cmd_save` writes: not both cells whitespace-only. */
  predicate Kept(e: EditorRow)
  {
    Strip(e.0) != "" || Strip(e.1) != ""
  }

  /** The one-row list of `e` when it is kept, else nothing. */
  function Keep(e: EditorRow): seq<EditorRow>
  {
    if Kept(e) then [e] else []
  }

  /** The kept rows, in order. */
  function KeptRows(editors: seq<EditorRow>): (r: seq<EditorRow>)
    ensures |r| <= |editors|
    ensures forall k :: 0 <= k < |r| ==> Kept(r[k]) && r[k] in editors
  {
    KeptFrom(editors);
    Concat(Keep, editors)
  }

  /** Every kept row is a non-blank editor row, and there are no more of
      them than editor rows. */
  lemma {:induction false} KeptFrom(editors: seq<EditorRow>)
    ensures |Concat(Keep, editors)| <= |editors|
    ensures forall e :: e in Concat(Keep, editors) ==> Kept(e) && e in editors
  {
    if editors != [] {
      KeptFrom(editors[1..]);
      forall e | e in Concat(Keep, editors) ensures Kept(e) && e in editors {
        if e !in Concat(Keep, editors[1..]) {
          assert e in Keep(editors[0]);
        } else {
          assert e in editors[1..];
        }
      }
    }
  }

  /** Every kept row survives: dropping happens only to blank rows. */
  lemma {:induction false} KeptRowsComplete(editors: seq<EditorRow>, e: EditorRow)
    requires e in editors && Kept(e)
    ensures e in KeptRows(editors)
  {
    if editors[0] != e {
      KeptRowsComplete(editors[1..], e);
    }
  }

  /** Filtering two blocks of rows is filtering each in turn, so the kept
      rows keep their order and their repetitions. */
  lemma KeptRowsAppend(a: seq<EditorRow>, b: seq<EditorRow>)
    ensures KeptRows(a + b) == KeptRows(a) + KeptRows(b)
  {
    ConcatAppend(Keep, a, b);
  }

  /** A single row is kept exactly when it is not blank. */
  lemma KeptRowsOne(e: EditorRow)
    ensures KeptRows([e]) == if Kept(e) then [e] else []
  {
    assert Concat(Keep, [e]) == Keep(e) + Concat(Keep, []);
  }

  function AsRow(e: EditorRow): Row
  {
    [e.0, e.1]
  }

  /** The table written for the given rows: the header, then each row as
      two cells. */
  function Table(rows: seq<EditorRow>): (r: seq<Row>)
    ensures |r| == |rows| + 1
    ensures r[0] == Header
    ensures forall k :: 1 <= k < |r| ==> r[k] == AsRow(rows[k - 1])
  {
    [Header] + seq(|rows|, k requires 0 <= k < |rows| => AsRow(rows[k]))
  }

  /** `cmd_save`: the header, then each kept editor row as two cells,
      written with the configured delimiter. The file is opened for writing
      before the writer is made, so without a delimiter it is left empty. */
  function Save(editors: seq<EditorRow>, delimiter: Option<char>): (r: Presets.Csv)
    ensures delimiter.None? ==> r.rows == []
    ensures delimiter.Some? ==> r.delimiter == delimiter.value
    ensures delimiter.Some? ==> |r.rows| == |KeptRows(editors)| + 1 && r.rows[0] == Header
    ensures delimiter.Some? ==> forall k :: 1 <= k < |r.rows| ==> r.rows[k] == AsRow(KeptRows(editors)[k - 1])
  {
    match delimiter
    case None => Presets.Csv([], Presets.ReaderDelimiter)
    case Some(d) => Presets.Csv(Table(KeptRows(editors)), d)
  }

  /** Loading a just-saved table with the same delimiter gives back exactly
      the kept rows. */
  lemma SaveLoadRoundTrip(editors: seq<EditorRow>, delimiter: char)
    ensures Load(Some(Save(editors, Some(delimiter))), Some(delimiter)) == KeptRows(editors)
  {
  }

  /** Saving without a delimiter empties the preset file: every row is
      lost, and the editor then loads nothing. */
  lemma MissingDelimiterEmpties(editors: seq<EditorRow>, delimiter: Option<char>)
    ensures Save(editors, None).rows == []
    ensures Load(Some(Save(editors, None)), delimiter) == []
  {
  }

  /** The body of a written table holds a key and a value per row, the key
      being the row's key text. */
  lemma TableRows(rows: seq<EditorRow>)
    ensures var body := Table(rows)[1..];
      && |body| == |rows| && Presets.AllPairs(body)
      && forall i :: 0 <= i < |body| ==> body[i][0] == rows[i].0 && body[i][1] == rows[i].1
  {
    var body := Table(rows)[1..];
    forall i | 0 <= i < |body| ensures |body[i]| >= 2 && body[i][0] == rows[i].0 && body[i][1] == rows[i].1 {
      assert body[i] == Table(rows)[i + 1];
    }
  }

  /** Two row lists with the same keys row by row have the same key set. */
  lemma SameKeys(body: seq<Row>, rows: seq<EditorRow>, k: string)
    requires |body| == |rows| && Presets.AllPairs(body)
    requires forall i :: 0 <= i < |body| ==> body[i][0] == rows[i].0
    ensures (exists i :: 0 <= i < |body| && body[i][0] == k) <==> (exists i :: 0 <= i < |rows| && rows[i].0 == k)
  {
    if exists i :: 0 <= i < |rows| && rows[i].0 == k {
      var i :| 0 <= i < |rows| && rows[i].0 == k;
      assert body[i][0] == k;
    }
  }

  /** The program's preset map reads a table saved with `,` without
      error: its keys are exactly the kept rows' key texts, each with the
      value text of the last kept row that has it. `Preset` reads with `,`
      whatever the configured delimiter. */
  method SavedPresetMap(editors: seq<EditorRow>, delimiter: char) returns (r: Result<map<string, string>, Json.Error>)
    requires delimiter == Presets.ReaderDelimiter
    ensures r.Success? && KeysOf(r.value, KeptRows(editors)) && ValuesOf(r.value, KeptRows(editors))
  {
    var kept := KeptRows(editors);
    TableRows(kept);
    r := Presets.Load(Some(Presets.Reader(Save(editors, Some(delimiter)), Presets.ReaderDelimiter)));
    TableKeys(kept, r.value);
    TableValues(kept, r.value);
  }

  /** As written: a table saved with any other delimiter, whose first kept
      row has no `,` in it, reads back as one-cell rows, and `Preset` fails
      with `IndexError` on the first of them. */
  method ForeignDelimiterFails(editors: seq<EditorRow>, delimiter: char)
    returns (r: Result<map<string, string>, Json.Error>)
    requires delimiter != Presets.ReaderDelimiter && KeptRows(editors) != []
    requires Presets.ReaderDelimiter !in KeptRows(editors)[0].0 && Presets.ReaderDelimiter !in KeptRows(editors)[0].1
    ensures r == Failure(Json.IndexError)
  {
    var kept := KeptRows(editors);
    var file := Presets.Csv(Table(kept), delimiter);
    assert Save(editors, Some(delimiter)) == file;
    ForeignFirstRow(kept, delimiter);
    r := Presets.Load(Some(Presets.Reader(file, Presets.ReaderDelimiter)));
  }

  /** Read with `,`, the first row of a table written with another
      delimiter is a single cell when it has no `,` in it. */
  lemma ForeignFirstRow(rows: seq<EditorRow>, delimiter: char)
    requires delimiter != Presets.ReaderDelimiter && rows != []
    requires Presets.ReaderDelimiter !in rows[0].0 && Presets.ReaderDelimiter !in rows[0].1
    ensures var read := Presets.Reader(Presets.Csv(Table(rows), delimiter), Presets.ReaderDelimiter);
      |read| >= 2 && !Presets.AllPairs(read[1..])
  {
    var file := Presets.Csv(Table(rows), delimiter);
    var first := AsRow(rows[0]);
    assert file.rows[1] == first;
    assert first[0] == rows[0].0 && first[1] == rows[0].1 && |first| == 2;
    Presets.ForeignRowOneCell(file, Presets.ReaderDelimiter, 1);
    var read := Presets.Reader(file, Presets.ReaderDelimiter);
    assert read[1..][0] == read[1];
  }

  /** Corrected: the preset map read with the delimiter the table was saved
      with reads every saved table without error: its keys are exactly the
      kept rows' key texts, each with the value text of the last kept row
      that has it. */
  method SavedPresetMapWith(editors: seq<EditorRow>, delimiter: char) returns (r: Result<map<string, string>, Json.Error>)
    ensures r.Success? && KeysOf(r.value, KeptRows(editors)) && ValuesOf(r.value, KeptRows(editors))
  {
    var kept := KeptRows(editors);
    TableRows(kept);
    r := Presets.Load(Some(Presets.Reader(Save(editors, Some(delimiter)), delimiter)));
    TableKeys(kept, r.value);
    TableValues(kept, r.value);
  }

  /** The keys of `m` are exactly the key texts of `rows`. */
  ghost predicate KeysOf(m: map<string, string>, rows: seq<EditorRow>)
  {
    forall k :: k in m <==> exists i :: 0 <= i < |rows| && rows[i].0 == k
  }

  /** The keys read from a written table are the rows' key texts. */
  lemma TableKeys(rows: seq<EditorRow>, m: map<string, string>)
    requires Presets.AllPairs(Table(rows)[1..])
    requires forall k :: k in m <==> exists i :: 0 <= i < |Table(rows)[1..]| && Table(rows)[1..][i][0] == k
    ensures KeysOf(m, rows)
  {
    TableRows(rows);
    forall k ensures k in m <==> exists i :: 0 <= i < |rows| && rows[i].0 == k {
      SameKeys(Table(rows)[1..], rows, k);
    }
  }

  /** Each key of `rows` maps in `m` to the value text of its last row. */
  ghost predicate ValuesOf(m: map<string, string>, rows: seq<EditorRow>)
  {
    forall i :: 0 <= i < |rows| && (forall j :: i < j < |rows| ==> rows[j].0 != rows[i].0) ==>
      rows[i].0 in m && m[rows[i].0] == rows[i].1
  }

  /** The values read from a written table are those of each key's last row. */
  lemma TableValues(rows: seq<EditorRow>, m: map<string, string>)
    requires Presets.AllPairs(Table(rows)[1..])
    requires forall k :: k in m <==> exists i :: 0 <= i < |Table(rows)[1..]| && Table(rows)[1..][i][0] == k
    requires forall i :: 0 <= i < |Table(rows)[1..]| && Presets.LastWithKey(Table(rows)[1..], i) ==>
      m[Table(rows)[1..][i][0]] == Table(rows)[1..][i][1]
    ensures ValuesOf(m, rows)
  {
    TableRows(rows);
    var body := Table(rows)[1..];
    forall i | 0 <= i < |rows| && (forall j :: i < j < |rows| ==> rows[j].0 != rows[i].0)
      ensures rows[i].0 in m && m[rows[i].0] == rows[i].1
    {
      assert Presets.LastWithKey(body, i);
    }
  }
}
