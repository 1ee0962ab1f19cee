/**
 * Spreadsheet export (`tabular`): one row per stored prescription that
 * carries every exported key, under a fixed header. Finding the archives,
 * reading `prescription.json` out of each and the CSV encoding are not
 * modelled: each archive is the document it holds, or `None` when it
 * cannot be read.
 */
module Tabular {
  import opened Wrappers
  import opened Json
  import Prescriptions
  import opened Seqs
  import Config

  /** The header row. */
  const Header: seq<string> := ["pid", "id", "date", "name", "dob", "age", "sex", "address", "contact", "extra",
                                "mode", "daw", "diagnosis", "note", "report", "advice", "investigation",
                                "medication", "additional", "certificate", "prescriber"]

  /** The keys read straight into the cells before the prescriber's name:
      every header name but the last. */
  const Columns: seq<string> := Header[..20]

  /** Whether a document yields a row: a dict with every column and a
      `prescriber` dict naming the prescriber. */
  predicate Exportable(pres: Value)
  {
    && HasKeys(pres, Columns) && "prescriber" in pres.fields
    && pres.fields["prescriber"].Obj? && "name" in pres.fields["prescriber"].fields
  }

  /** The row for one document: the columns in header order, then the
      prescriber's name. A missing key skips the document. */
  function Row(pres: Value): (r: Result<seq<Value>, Error>)
    ensures r.Success? <==> Exportable(pres)
    ensures r.Success? ==> |r.value| == |Header|
    ensures r.Success? ==> forall i :: 0 <= i < |Columns| ==> r.value[i] == pres.fields[Header[i]]
    ensures r.Success? ==> r.value[|Header| - 1] == pres.fields["prescriber"].fields["name"]
  {
    var cells :- GetAll(pres, Columns);
    var prescriber :- Get(pres, "prescriber");
    var name :- Get(prescriber, "name");
    Success(cells + [name])
  }

  /** The rows under the header: one per readable, exportable document, in
      listing order. */
  function Rows(files: seq<Option<Value>>): (r: seq<seq<Value>>)
    ensures |r| <= |files|
    ensures forall row :: row in r ==> |row| == |Header|
    ensures forall row :: row in r ==> exists f :: f in files && f.Some? && Row(f.value) == Success(row)
  {
    RowsFrom(files);
    Concat(First, files)
  }

  /** The row one listed archive gives, if any. */
  function First(f: Option<Value>): (r: seq<seq<Value>>)
    ensures |r| <= 1
    ensures r != [] ==> f.Some? && Row(f.value) == Success(r[0])
  {
    if f.Some? && Row(f.value).Success? then [Row(f.value).value] else []
  }

  /** Each row comes from a listed archive, and there are no more rows than archives. */
  lemma {:induction false} RowsFrom(files: seq<Option<Value>>)
    ensures |Concat(First, files)| <= |files|
    ensures forall row :: row in Concat(First, files) ==>
      exists f :: f in files && f.Some? && Row(f.value) == Success(row)
  {
    if files != [] {
      var rest := Concat(First, files[1..]);
      RowsFrom(files[1..]);
      forall row | row in Concat(First, files)
        ensures exists f :: f in files && f.Some? && Row(f.value) == Success(row)
      {
        if row !in rest {
          assert files[0] in files && Row(files[0].value) == Success(row);
        } else {
          var f :| f in files[1..] && f.Some? && Row(f.value) == Success(row);
          assert f in files;
        }
      }
    }
  }

  /** The exported file: empty, or the header and the rows written with a
      one-character delimiter. */
  datatype Sheet = Empty | Written(delimiter: char, header: seq<string>, rows: seq<seq<Value>>)

  /** What `csv.writer` accepts as a delimiter: a one-character `str`. */
  predicate UsableDelimiter(v: Value)
  {
    v.Str? && |v.s| == 1
  }

  /**
   * `export(filename)`: the output file is opened for writing, and so
   * truncated, before `config["preset_delimiter"]` is read. A missing key
   * (`KeyError`) or a value `csv.writer` rejects (`TypeError`) is caught and
   * logged, leaving the file empty; otherwise the header is written, then
   * the rows.
   */
  function Export(files: seq<Option<Value>>, delimiter: Option<Value>): (r: Sheet)
    ensures r.Written? <==> delimiter.Some? && UsableDelimiter(delimiter.value)
    ensures r.Written? ==> r.delimiter == delimiter.value.s[0]
    ensures r.Written? ==> r.header == Header && r.rows == Rows(files)
  {
    match delimiter
    case Some(Str(d)) => if |d| == 1 then Written(d[0], Header, Rows(files)) else Empty
    case _ => Empty
  }

  /** The setting as the configuration holds it: absent or its value. */
  function Setting(config: map<string, Value>, key: string): Option<Value>
  {
    if key in config then Some(config[key]) else None
  }

  /** The built-in defaults have no `preset_delimiter`, so exporting under
      them leaves an empty file. */
  lemma DefaultExportEmpty(files: seq<Option<Value>>)
    ensures Export(files, Setting(Config.Default, "preset_delimiter")) == Empty
  {
    assert "preset_delimiter" !in Config.Default;
  }

  /** Exporting two lists of archives is exporting each in turn. */
  lemma RowsAppend(a: seq<Option<Value>>, b: seq<Option<Value>>)
    ensures Rows(a + b) == Rows(a) + Rows(b)
  {
    ConcatAppend(First, a, b);
  }

  /** Every exportable document gives a row. */
  lemma {:induction false} RowsComplete(files: seq<Option<Value>>, i: nat)
    requires i < |files| && files[i].Some? && Exportable(files[i].value)
    ensures Row(files[i].value).value in Rows(files)
  {
    if i > 0 {
      RowsComplete(files[1..], i - 1);
    }
  }

  lemma NoPatientId(p: Prescriptions.Prescription)
    ensures !Exportable(Prescriptions.GetJson(p))
  {
    assert "pid" !in Prescriptions.GetJson(p).fields;
    assert Columns[0] == "pid";
  }

  /** A document the prescription writer produces has no `pid`, so the
      exporter skips it: the two sides disagree on the document format. */
  lemma WrittenPrescriptionSkipped(p: Prescriptions.Prescription)
    ensures Rows([Some(Prescriptions.GetJson(p))]) == []
  {
    var doc := Prescriptions.GetJson(p);
    NoPatientId(p);
    assert First(Some(doc)) == [];
    assert Concat(First, [Some(doc)]) == First(Some(doc)) + Concat(First, []);
  }
}
