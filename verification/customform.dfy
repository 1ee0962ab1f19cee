/**
 * The custom input form (`customform`): form definitions read from the
 * form directory become a list of single-entry records and a parallel list
 * of input widgets; the widgets are read into the records and filled from
 * them. Widgets are the values they hold; parsing and formatting of dates
 * is an input.
 */
module CustomForms {
  import opened Wrappers
  import opened Json

  /** The kind of widget a form field gets. */
  datatype Kind = LineKind | TextKind | DateKind | CheckKind

  /** One row of the form: its label and widget kind. */
  datatype Input = Input(description: Value, kind: Kind)

  /** One record of the custom data: the field's name and its value. */
  datatype Entry = Entry(key: Value, value: Value)

  /** A dict key must be hashable: lists and dicts are not. */
  predicate Hashable(v: Value)
  {
    !v.Arr? && !v.Obj?
  }

  /** The widget for a field: `type` of "text", "date" or "check", and a
      one-line input for anything else, including a missing `type`. */
  function KindOf(field: map<string, Value>): Kind
  {
    if "type" in field && field["type"] == Str("text") then TextKind
    else if "type" in field && field["type"] == Str("date") then DateKind
    else if "type" in field && field["type"] == Str("check") then CheckKind
    else LineKind
  }

  /** Whether a field definition loads: a dict with a hashable `name` and
      a `description`. */
  predicate FieldLoads(j: Value)
  {
    j.Obj? && "name" in j.fields && Hashable(j.fields["name"]) && "description" in j.fields
  }

  /** One field: its empty record and its input row. */
  function LoadField(j: Value): (r: Result<(Entry, Input), Error>)
    ensures r.Success? <==> FieldLoads(j)
    ensures r.Success? ==> r.value.0 == Entry(j.fields["name"], Str(""))
    ensures r.Success? ==> r.value.1 == Input(j.fields["description"], KindOf(j.fields))
  {
    var name :- Get(j, "name");
    if !Hashable(name) then Failure(TypeError)
    else
      var description :- Get(j, "description");
      Success((Entry(name, Str("")), Input(description, KindOf(j.fields))))
  }

  /** Iterating `form["form"]`: a list gives its items; an empty string or
      dict gives none; a non-empty string or dict yields strings, on which
      `j["name"]` raises `TypeError`, as does iterating anything else. */
  function Items(v: Value): (r: Result<seq<Value>, Error>)
    ensures v.Arr? ==> r == Success(v.items)
    ensures r.Success? ==> v.Arr? || r.value == []
  {
    match v
    case Arr(items) => Success(items)
    case Str(s) => if s == [] then Success([]) else Failure(TypeError)
    case Obj(fields) => if fields == map[] then Success([]) else Failure(TypeError)
    case _ => Failure(TypeError)
  }

  /** The fields of one form, in order. */
  function LoadFields(items: seq<Value>): (r: Result<(seq<Entry>, seq<Input>), Error>)
    ensures r.Success? <==> forall i :: 0 <= i < |items| ==> FieldLoads(items[i])
    ensures r.Success? ==> |r.value.0| == |r.value.1| == |items|
    ensures r.Success? ==> forall i :: 0 <= i < |items| ==>
      r.value.0[i] == Entry(items[i].fields["name"], Str(""))
      && r.value.1[i] == Input(items[i].fields["description"], KindOf(items[i].fields))
  {
    if items == [] then Success(([], []))
    else
      var (e, input) :- LoadField(items[0]);
      var (es, inputs) :- LoadFields(items[1..]);
      Success(([e] + es, [input] + inputs))
  }

  /** One form file: its `form` list. */
  function LoadForm(form: Value): (r: Result<(seq<Entry>, seq<Input>), Error>)
    ensures r.Success? ==> |r.value.0| == |r.value.1|
    ensures !form.Obj? ==> r == Failure(TypeError)
    ensures form.Obj? && "form" !in form.fields ==> r == Failure(KeyError("form"))
    ensures form.Obj? && "form" in form.fields && form.fields["form"].Arr? ==>
      r == LoadFields(form.fields["form"].items)
  {
    var list :- Get(form, "form");
    var items :- Items(list);
    LoadFields(items)
  }

  /**
   * `load()`: the records and rows of every form file that decodes, in
   * listing order; files that do not decode are skipped. A form without a
   * `form` list or with a malformed field makes loading fail.
   */
  function Load(files: seq<Option<Value>>): (r: Result<(seq<Entry>, seq<Input>), Error>)
    ensures r.Success? ==> |r.value.0| == |r.value.1|
    ensures r.Success? ==> forall i :: 0 <= i < |r.value.0| ==> r.value.0[i].value == Str("")
    ensures files == [] ==> r == Success(([], []))
  {
    if files == [] then Success(([], []))
    else
      var (es, inputs) :- match files[0]
        case None => Success(([], []))
        case Some(form) => LoadForm(form);
      assert forall i :: 0 <= i < |es| ==> es[i].value == Str("") by {
        if files[0].Some? && LoadForm(files[0].value).Success? {
          var list := files[0].value.fields["form"];
          var items := Items(list).value;
          assert forall i :: 0 <= i < |es| ==> es[i] == Entry(items[i].fields["name"], Str(""));
        }
      }
      var (rest, restInputs) :- Load(files[1..]);
      Success((es + rest, inputs + restInputs))
  }

  /** Loading skips files that do not decode. */
  lemma {:induction false} LoadSkipsUndecoded(files: seq<Option<Value>>)
    ensures Load([None] + files) == Load(files)
  {
    assert ([None] + files)[1..] == files;
    match Load(files)
    case Failure(_) =>
    case Success((es, inputs)) =>
      assert [] + es == es && [] + inputs == inputs;
  }

  /** Two loading outcomes one after the other: the first failure, else
      both records and both rows concatenated. */
  function Then(x: Result<(seq<Entry>, seq<Input>), Error>, y: Result<(seq<Entry>, seq<Input>), Error>)
    : Result<(seq<Entry>, seq<Input>), Error>
  {
    if x.Failure? then x
    else if y.Failure? then y
    else Success((x.value.0 + y.value.0, x.value.1 + y.value.1))
  }

  /** What one listed file contributes. */
  function LoadFile(f: Option<Value>): Result<(seq<Entry>, seq<Input>), Error>
  {
    match f
    case None => Success(([], []))
    case Some(form) => LoadForm(form)
  }

  /** Loading a non-empty list is loading its first file, then the rest. */
  lemma LoadCons(files: seq<Option<Value>>)
    requires files != []
    ensures Load(files) == Then(LoadFile(files[0]), Load(files[1..]))
  {
  }

  /** A single decoded file loads as that form. */
  lemma LoadOne(form: Value)
    ensures Load([Some(form)]) == LoadForm(form)
  {
    LoadCons([Some(form)]);
    assert [Some(form)][1..] == [];
    match LoadForm(form)
    case Failure(_) =>
    case Success((es, inputs)) =>
      assert es + [] == es && inputs + [] == inputs;
  }

  /** Loading two lists of files is loading each in turn: the first failure
      wins, and otherwise the records and rows are concatenated in order. */
  lemma {:induction false} LoadAppend(a: seq<Option<Value>>, b: seq<Option<Value>>)
    ensures Load(a + b) == Then(Load(a), Load(b))
  {
    if a == [] {
      assert a + b == b;
      match Load(b)
      case Failure(_) =>
      case Success((es, inputs)) =>
        assert [] + es == es && [] + inputs == inputs;
    } else {
      assert (a + b)[1..] == a[1..] + b && (a + b)[0] == a[0];
      LoadCons(a + b);
      LoadCons(a);
      LoadAppend(a[1..], b);
      var x, y, z := LoadFile(a[0]), Load(a[1..]), Load(b);
      if x.Success? && y.Success? && z.Success? {
        assert x.value.0 + (y.value.0 + z.value.0) == (x.value.0 + y.value.0) + z.value.0;
        assert x.value.1 + (y.value.1 + z.value.1) == (x.value.1 + y.value.1) + z.value.1;
      }
    }
  }

  /** An entry of the form directory as `open` meets it: the error it raises
      (a sub-directory, an unreadable file), or the file's contents, which
      decode to a document or do not. */
  type Listed = Result<Option<Value>, Error>

  /**
   * The first loop of `load()`: every entry is opened in listing order,
   * outside the `try`, so the first entry that cannot be opened ends
   * loading with its error; the others are decoded or skipped.
   */
  function OpenAll(entries: seq<Listed>): (r: Result<seq<Option<Value>>, Error>)
    ensures r.Success? <==> forall i :: 0 <= i < |entries| ==> entries[i].Success?
    ensures r.Success? ==> |r.value| == |entries| && forall i :: 0 <= i < |entries| ==> entries[i] == Success(r.value[i])
    ensures r.Failure? ==> exists i :: 0 <= i < |entries| && entries[i] == Failure(r.error)
                                       && forall j :: 0 <= j < i ==> entries[j].Success?
  {
    if entries == [] then Success([])
    else
      var first :- entries[0];
      var rest :- OpenAll(entries[1..]);
      assert forall i :: 1 <= i < |entries| ==> entries[i] == entries[1..][i - 1];
      Success([first] + rest)
  }

  /**
   * `load()`: every entry is opened before any form is read, so an entry
   * that cannot be opened fails loading even when an earlier form is
   * malformed; once all entries open, the forms load as `Load` says.
   */
  function LoadListing(entries: seq<Listed>): (r: Result<(seq<Entry>, seq<Input>), Error>)
    ensures r.Success? ==> forall i :: 0 <= i < |entries| ==> entries[i].Success?
    ensures (exists i :: 0 <= i < |entries| && entries[i].Failure?) ==>
      r.Failure? && exists i :: 0 <= i < |entries| && entries[i] == Failure(r.error)
                                && forall j :: 0 <= j < i ==> entries[j].Success?
  {
    var files :- OpenAll(entries);
    Load(files)
  }

  /** The listing in which every file opens, with the given contents. */
  function AllOpen(files: seq<Option<Value>>): (r: seq<Listed>)
    ensures |r| == |files| && forall i :: 0 <= i < |files| ==> r[i] == Success(files[i])
  {
    seq(|files|, i requires 0 <= i < |files| => Success(files[i]))
  }

  /** When every entry opens, loading is reading the forms of the opened files. */
  lemma LoadAllOpen(files: seq<Option<Value>>)
    ensures LoadListing(AllOpen(files)) == Load(files)
  {
    var r := OpenAll(AllOpen(files));
    assert r.Success?;
    assert r.value == files;
  }

  /** An entry that cannot be opened wins over a malformed form listed before
      it: its error is what `load()` raises. */
  lemma UnopenableFirst(files: seq<Option<Value>>, e: Error, rest: seq<Listed>)
    ensures LoadListing(AllOpen(files) + [Failure(e)] + rest) == Failure(e)
  {
    var entries := AllOpen(files) + [Failure(e)] + rest;
    var r := OpenAll(entries);
    assert entries[|files|].Failure?;
    var i :| 0 <= i < |entries| && entries[i] == Failure(r.error) && forall j :: 0 <= j < i ==> entries[j].Success?;
  }

  /** The state of one widget. */
  datatype Widget = Line(text: string) | Text(text: string) | Check(checked: bool) | Date(shown: string)

  /** What `getData` reads from a widget. */
  function Reading(w: Widget): (r: Value)
    ensures w.Check? <==> r.Bool?
    ensures !w.Check? ==> r.Str?
  {
    match w
    case Line(t) => Str(t)
    case Text(t) => Str(t)
    case Check(b) => Bool(b)
    case Date(t) => Str(t)
  }

  /**
   * `getData()`: each record takes the value of the widget at its position;
   * a record without a widget raises `IndexError`, which ends the loop and
   * leaves that record and all later ones as they were.
   */
  function GetData(custom: seq<Entry>, widgets: seq<Widget>): (r: seq<Entry>)
    ensures |r| == |custom|
    ensures forall i :: 0 <= i < |r| ==> r[i].key == custom[i].key
    ensures forall i :: 0 <= i < |r| && i < |widgets| ==> r[i].value == Reading(widgets[i])
    ensures forall i :: |widgets| <= i < |r| ==> r[i] == custom[i]
  {
    if custom == [] || widgets == [] then custom
    else [Entry(custom[0].key, Reading(widgets[0]))] + GetData(custom[1..], widgets[1..])
  }

  /** Reading the widgets twice gives the same records. */
  lemma GetDataIdempotent(custom: seq<Entry>, widgets: seq<Widget>)
    ensures GetData(GetData(custom, widgets), widgets) == GetData(custom, widgets)
  {
  }

  /** Filling a widget never changes what kind of widget it is. */
  predicate SameKind(a: Widget, b: Widget)
  {
    a.Line? == b.Line? && a.Text? == b.Text? && a.Check? == b.Check? && a.Date? == b.Date?
  }

  /** A widget shown a record's value; `None` when the widget refuses it
      (a non-`str` text, an unparseable date). */
  function Show(w: Widget, v: Value, showDate: string -> Option<string>): (r: Option<Widget>)
    ensures r.Some? ==> SameKind(r.value, w)
  {
    match w
    case Line(_) => if v.Str? then Some(Line(v.s)) else None
    case Text(_) => if v.Str? then Some(Text(v.s)) else None
    case Check(_) => Some(Check(Truthy(v)))
    case Date(_) => if v.Str? && showDate(v.s).Some? then Some(Date(showDate(v.s).value)) else None
  }

  /** Fills widgets from records, in order, until a widget is missing or
      refuses its value; later widgets keep their state. */
  function Fill(custom: seq<Entry>, widgets: seq<Widget>, showDate: string -> Option<string>): (r: seq<Widget>)
    ensures |r| == |widgets|
    ensures forall i :: 0 <= i < |r| ==> SameKind(r[i], widgets[i])
  {
    if custom == [] || widgets == [] then widgets
    else match Show(widgets[0], custom[0].value, showDate)
      case None => widgets
      case Some(w) => [w] + Fill(custom[1..], widgets[1..], showDate)
  }

  /** `setData(custom)`: a non-empty list replaces the records first; then
      the widgets are filled from the records. */
  function SetData(custom: seq<Entry>, arg: Option<seq<Entry>>, widgets: seq<Widget>,
                   showDate: string -> Option<string>): (r: (seq<Entry>, seq<Widget>))
    ensures arg.Some? && arg.value != [] ==> r.0 == arg.value
    ensures !(arg.Some? && arg.value != []) ==> r.0 == custom
    ensures |r.1| == |widgets|
  {
    var c := if arg.Some? && arg.value != [] then arg.value else custom;
    (c, Fill(c, widgets, showDate))
  }

  /** A record value the widget at its position shows unchanged: a `str`
      for text inputs, a boolean for checkboxes, and a date already in the
      widget's display form. */
  predicate Fits(e: Entry, w: Widget, showDate: string -> Option<string>)
  {
    match w
    case Line(_) => e.value.Str?
    case Text(_) => e.value.Str?
    case Check(_) => e.value.Bool?
    case Date(_) => e.value.Str? && showDate(e.value.s) == Some(e.value.s)
  }

  /** Filling the widgets from records that fit them and reading them back
      gives the records again. */
  lemma {:induction false} FillGetRoundTrip(custom: seq<Entry>, widgets: seq<Widget>,
                                            showDate: string -> Option<string>)
    requires |custom| <= |widgets|
    requires forall i :: 0 <= i < |custom| ==> Fits(custom[i], widgets[i], showDate)
    ensures GetData(custom, Fill(custom, widgets, showDate)) == custom
  {
    if custom != [] {
      assert Fits(custom[0], widgets[0], showDate);
      FillGetRoundTrip(custom[1..], widgets[1..], showDate);
    }
  }
}
