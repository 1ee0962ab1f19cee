/**
 * The document index (`index`): one table row per stored prescription,
 * filtering by patient ID, prescription ID or name, and the actions on the
 * selected row. Finding the archives and reading `prescription.json` out
 * of each are inputs; each archive is its path and the document it holds,
 * or `None` when it cannot be read.
 */
module DocumentIndex {
  import opened Wrappers
  import opened Json
  import opened Text

  /** An archive found under the document directory. */
  datatype Archive = Archive(path: string, pres: Option<Value>)

  /** The column titles of the table. */
  const Titles: seq<string> := ["Patient ID", "Prescription ID", "Name", "Date of Birth", "Age", "Sex",
                                "Date", "Diagnosis", "File"]

  /** The document keys shown, in column order; the last column is the file. */
  const Shown: seq<string> := ["pid", "id", "name", "dob", "age", "sex", "date", "diagnosis"]

  /** The row of one archive: the shown keys, then the archive's path. */
  function Row(a: Archive): (r: Option<seq<Value>>)
    ensures r.Some? <==> a.pres.Some? && HasKeys(a.pres.value, Shown)
    ensures r.Some? ==> |r.value| == |Titles| && r.value[|Titles| - 1] == Str(a.path)
    ensures r.Some? ==> forall i :: 0 <= i < |Shown| ==> r.value[i] == a.pres.value.fields[Shown[i]]
  {
    match a.pres
    case None => None
    case Some(pres) =>
      match GetAll(pres, Shown)
      case Failure(_) => None
      case Success(cells) => Some(cells + [Str(a.path)])
  }

  /** `build()`: one row per readable archive holding every shown key, in
      listing order; the others are logged and skipped. */
  function Build(archives: seq<Archive>): (r: seq<seq<Value>>)
    ensures |r| <= |archives|
    ensures forall row :: row in r ==> |row| == |Titles|
    ensures forall row :: row in r ==> exists a :: a in archives && Row(a) == Some(row)
    ensures forall a :: a in archives && Row(a).Some? ==> Row(a).value in r
  {
    if archives == [] then []
    else
      var rest := Build(archives[1..]);
      var r := match Row(archives[0]) case Some(row) => [row] + rest case None => rest;
      BuildStep(archives, rest, r);
      r
  }

  /** One step of `Build`: the first archive's row, if any, in front of the rest. */
  lemma BuildStep(archives: seq<Archive>, rest: seq<seq<Value>>, r: seq<seq<Value>>)
    requires archives != []
    requires forall row :: row in rest ==> exists a :: a in archives[1..] && Row(a) == Some(row)
    requires forall a :: a in archives[1..] && Row(a).Some? ==> Row(a).value in rest
    requires r == match Row(archives[0]) case Some(row) => [row] + rest case None => rest
    ensures forall row :: row in r ==> exists a :: a in archives && Row(a) == Some(row)
    ensures forall a :: a in archives && Row(a).Some? ==> Row(a).value in r
  {
    forall row | row in r
      ensures exists a :: a in archives && Row(a) == Some(row)
    {
      if row !in rest {
        assert Row(archives[0]) == Some(row);
      } else {
        var a :| a in archives[1..] && Row(a) == Some(row);
        assert a in archives;
      }
    }
    forall a | a in archives && Row(a).Some?
      ensures Row(a).value in r
    {
      if a != archives[0] {
        assert a in archives[1..];
      }
    }
  }

  /** Every row ends with the path of the archive it came from. */
  lemma BuildNamesFiles(archives: seq<Archive>, row: seq<Value>)
    requires row in Build(archives)
    ensures exists a :: a in archives && row[|row| - 1] == Str(a.path)
  {
  }

  // ---------------------------------------------------------------------
  // Filtering

  /** ASCII lower case; the table compares ignoring case. */
  function Lower(c: char): char
  {
    if 'A' <= c <= 'Z' then (c as int + 32) as char else c
  }

  function Fold(s: string): (r: string)
    ensures |r| == |s|
    ensures forall i :: 0 <= i < |s| ==> r[i] == Lower(s[i])
  {
    seq(|s|, i requires 0 <= i < |s| => Lower(s[i]))
  }

  /** `p` occurs somewhere in `s`. */
  predicate Contains(s: string, p: string)
  {
    exists k :: 0 <= k <= |s| && OccursAt(s, p, k)
  }

  /** The text a cell shows; only strings are shown as text. */
  function CellText(v: Value): string
  {
    if v.Str? then v.s else ""
  }

  /** The filter inputs and the proxy's key column and fixed string. */
  datatype Filter = Filter(pid: string, id: string, name: string, column: nat, pattern: string)

  /** Whether a row passes the filter: its key column contains the fixed
      string, ignoring case. */
  predicate Passes(f: Filter, row: seq<Value>)
  {
    f.column < |row| && Contains(Fold(CellText(row[f.column])), Fold(f.pattern))
  }

  /** The rows the table shows. */
  function Visible(f: Filter, rows: seq<seq<Value>>): (r: seq<seq<Value>>)
    ensures |r| <= |rows|
    ensures forall row :: row in r <==> row in rows && Passes(f, row)
  {
    if rows == [] then []
    else
      var rest := Visible(f, rows[1..]);
      assert forall row :: row in rows <==> row == rows[0] || row in rows[1..];
      if Passes(f, rows[0]) then [rows[0]] + rest else rest
  }

  /** `cmd_filter_pid`, `cmd_filter_id` and `cmd_filter_name`: the other
      two inputs are cleared and the table is filtered on column 0, 1 or 2
      by the entered text. */
  function FilterPid(f: Filter, text: string): (r: Filter)
    ensures r == Filter(text, "", "", 0, text)
  {
    Filter(text, "", "", 0, text)
  }

  function FilterId(f: Filter, text: string): (r: Filter)
    ensures r == Filter("", text, "", 1, text)
  {
    Filter("", text, "", 1, text)
  }

  function FilterName(f: Filter, text: string): (r: Filter)
    ensures r == Filter("", "", text, 2, text)
  {
    Filter("", "", text, 2, text)
  }

  /** After a filter command the table shows exactly the rows whose
      pid, id or name column contains the entered text, ignoring case. */
  lemma FilterCommandsShow(f: Filter, text: string, rows: seq<seq<Value>>)
    ensures forall row :: row in Visible(FilterPid(f, text), rows) <==>
      row in rows && 0 < |row| && Contains(Fold(CellText(row[0])), Fold(text))
    ensures forall row :: row in Visible(FilterId(f, text), rows) <==>
      row in rows && 1 < |row| && Contains(Fold(CellText(row[1])), Fold(text))
    ensures forall row :: row in Visible(FilterName(f, text), rows) <==>
      row in rows && 2 < |row| && Contains(Fold(CellText(row[2])), Fold(text))
  {
  }

  /** Filtering keeps the table's order: the rows of two runs of the table
      are filtered run by run. */
  lemma {:induction false} VisibleAppend(f: Filter, a: seq<seq<Value>>, b: seq<seq<Value>>)
    ensures Visible(f, a + b) == Visible(f, a) + Visible(f, b)
  {
    if a == [] {
      assert a + b == b;
    } else {
      assert (a + b)[0] == a[0] && (a + b)[1..] == a[1..] + b;
      VisibleAppend(f, a[1..], b);
    }
  }

  /** An empty filter string shows every row with the key column. */
  lemma EmptyFilterShowsAll(f: Filter, row: seq<Value>)
    requires f.pattern == [] && f.column < |row|
    ensures Passes(f, row)
  {
    assert OccursAt(Fold(CellText(row[f.column])), Fold(f.pattern), 0);
  }

  /** An occurrence of `q` carries every occurrence inside `q` along. */
  lemma OccursWithin(s: string, q: string, p: string, k: int, j: int)
    requires OccursAt(s, q, k) && OccursAt(q, p, j)
    ensures OccursAt(s, p, k + j)
  {
    var t := s[k + j..k + j + |p|];
    forall i | 0 <= i < |p|
      ensures t[i] == p[i]
    {
      assert t[i] == s[k + j + i];
      assert s[k..k + |q|][j + i] == s[k + j + i];
      assert q[j..j + |p|][i] == q[j + i];
    }
    assert t == p;
  }

  /** Narrowing the filter string to one containing the old string only
      hides rows. */
  lemma NarrowingHides(f: Filter, g: Filter, row: seq<Value>)
    requires g.column == f.column && Contains(Fold(g.pattern), Fold(f.pattern))
    requires Passes(g, row)
    ensures Passes(f, row)
  {
    var s := Fold(CellText(row[f.column]));
    var k :| OccursAt(s, Fold(g.pattern), k);
    var j :| OccursAt(Fold(g.pattern), Fold(f.pattern), j);
    OccursWithin(s, Fold(g.pattern), Fold(f.pattern), k, j);
  }

  // ---------------------------------------------------------------------
  // Actions on the selection

  /** `getSelectedFile()`: the last selected cell, which for a selected row
      is its file column; an empty selection gives nothing. */
  function SelectedFile(selection: seq<Value>): (r: Option<Value>)
    ensures selection == [] ==> r.None?
    ensures selection != [] ==> r == Some(selection[|selection| - 1])
  {
    if selection == [] then None else Some(selection[|selection| - 1])
  }

  /** A selected row's file is the archive it was built from. */
  lemma SelectedRowFile(archives: seq<Archive>, row: seq<Value>)
    requires row in Build(archives)
    ensures SelectedFile(row).Some? && exists a :: a in archives && SelectedFile(row).value == Str(a.path)
  {
  }

  /** What the index asks of the main window. */
  datatype Request = OpenFile(file: string) | CopyOf(pres: Value) | NoRequest

  /** The outcome of an action: the request sent and whether the index hides. */
  datatype Outcome = Outcome(request: Request, hides: bool)

  /** `cmd_open()` as written: the open signal is declared with one `str`
      argument and emitted with none, which raises `TypeError`; the handler
      logs it, so nothing is opened and the index stays shown. */
  function OpenAsWritten(selection: seq<Value>): (r: Outcome)
    ensures r == Outcome(NoRequest, false)
  {
    match SelectedFile(selection)
    case Some(file) =>
      // a truthy file reaches the emit, which raises before `hide()`
      Outcome(NoRequest, false)
    case None => Outcome(NoRequest, false)
  }

  /** `cmd_open()` as intended: the selected file is sent to be opened and
      the index hides. */
  function Open(selection: seq<Value>): (r: Outcome)
    ensures r.hides <==> r.request.OpenFile?
    ensures r.request.OpenFile? <==> exists f :: SelectedFile(selection) == Some(Str(f)) && f != []
    ensures r.request.OpenFile? ==> SelectedFile(selection) == Some(Str(r.request.file))
  {
    match SelectedFile(selection)
    case Some(Str(file)) => if file != [] then Outcome(OpenFile(file), true) else Outcome(NoRequest, false)
    case _ => Outcome(NoRequest, false)
  }

  /** Selecting a built row opens nothing as written, but opens the row's
      archive as intended. */
  lemma OpenDiscrepancy(archives: seq<Archive>, row: seq<Value>)
    requires row in Build(archives)
    requires row[|row| - 1] != Str("")
    ensures OpenAsWritten(row).request == NoRequest
    ensures Open(row).request.OpenFile?
    ensures exists a :: a in archives && Open(row).request == OpenFile(a.path)
  {
  }

  /** `cmd_copy()`: the selected archive's document is sent to be copied
      into a new prescription, and the index hides. An archive that cannot
      be read sends nothing, and neither does a document that is not a
      dict: the copy signal carries a `dict`, so emitting anything else
      raises `TypeError`, which is logged. */
  function Copy(selection: seq<Value>, read: string -> Option<Value>): (r: Outcome)
    ensures r.hides <==> r.request.CopyOf?
    ensures r.request.CopyOf? ==>
      SelectedFile(selection).Some? && SelectedFile(selection).value.Str?
      && read(SelectedFile(selection).value.s) == Some(r.request.pres) && r.request.pres.Obj?
    ensures forall file :: (SelectedFile(selection) == Some(Str(file)) && file != [] && read(file).Some?
                            && read(file).value.Obj?) ==> r.request == CopyOf(read(file).value)
  {
    match SelectedFile(selection)
    case Some(Str(file)) =>
      if file == [] then Outcome(NoRequest, false)
      else (match read(file)
        case Some(pres) => if pres.Obj? then Outcome(CopyOf(pres), true) else Outcome(NoRequest, false)
        case None => Outcome(NoRequest, false))
    case _ => Outcome(NoRequest, false)
  }
}
