/**
 * The settings dialogs (`setting`): editing the configuration file, editing
 * a prescriber file, and choosing, creating or deleting prescriber files.
 * Widgets are the plain values they hold; confirmation dialogs, the file
 * system and the directory listing are inputs.
 */
module Settings {
  import opened Wrappers
  import opened Json
  import opened Text
  import opened Paths
  import opened Decimal
  import Prescriptions

  // ---------------------------------------------------------------------
  // Configuration dialog

  /** What the configuration dialog shows, one field per widget. */
  datatype ConfigForm = ConfigForm(
    directory: string, prescriber: string, newline: bool, delimiter: string,
    markdown: bool, update: bool, form: bool, plugin: bool, smime: bool,
    key: string, certificate: string, root: string)

  /** The keys the dialog reads and writes. */
  const ConfigKeys: set<string> := {"data_directory", "prescriber", "preset_newline", "preset_delimiter",
                                    "markdown", "check_update", "enable_form", "enable_plugin", "smime",
                                    "private_key", "certificate", "root_bundle"}

  /**
   * The dictionary the dialog edits: the configuration file's contents with
   * the running configuration on top (`file | config`). A file that cannot
   * be read or decoded, or does not hold a dict, falls back to the running
   * configuration.
   */
  function OpenConfiguration(file: Option<Value>, config: map<string, Value>): (r: map<string, Value>)
    ensures file.Some? && file.value.Obj? ==> r.Keys == file.value.fields.Keys + config.Keys
    ensures !(file.Some? && file.value.Obj?) ==> r == config
    ensures forall k :: k in config ==> k in r && r[k] == config[k]
    ensures forall k :: k in r && k !in config ==> file.Some? && file.value.Obj? && r[k] == file.value.fields[k]
  {
    match file
    case Some(Obj(fields)) => fields + config
    case _ => config
  }

  /** A checkbox's state from a value: Python's `bool(v)`. */
  function Checked(c: map<string, Value>, key: string): (r: Result<bool, Error>)
    ensures r.Success? <==> key in c
    ensures r.Success? ==> r.value == Truthy(c[key])
    ensures r.Failure? ==> r.error == KeyError(key)
  {
    var v :- Get(Obj(c), key);
    Success(Truthy(v))
  }

  /** The items of the delimiter combo box, which is not editable. */
  const DelimiterItems: seq<string> := [",", ";"]

  /** What the delimiter combo box shows after `setCurrentText(text)`: the
      text when it is one of the items, else the item already current. That
      is the first item when the dialog is built, and the user's pick when
      Reset loads the dialog again. */
  function ComboText(text: string, current: string): (r: string)
    requires current in DelimiterItems
    ensures r in DelimiterItems
    ensures text in DelimiterItems ==> r == text
    ensures text !in DelimiterItems ==> r == current
  {
    if text in DelimiterItems then text else current
  }

  /**
   * `load()`: fills the widgets from the dictionary. Every key must be
   * present (`KeyError`) and text fields need a `str` (`TypeError`);
   * checkboxes take the truth value of whatever is stored. The delimiter
   * combo box shows only one of its two items, so a stored delimiter that
   * is not an item leaves `current`, the item it showed before, in place.
   */
  function LoadConfiguration(c: map<string, Value>, current: string): (r: Result<ConfigForm, Error>)
    requires current in DelimiterItems
    ensures r.Success? <==> (ConfigKeys <= c.Keys && c["data_directory"].Str? && c["prescriber"].Str?
                             && c["preset_delimiter"].Str? && c["private_key"].Str? && c["certificate"].Str?
                             && c["root_bundle"].Str?)
    ensures r.Success? ==> c["data_directory"] == Str(r.value.directory) && c["prescriber"] == Str(r.value.prescriber)
    ensures r.Success? ==> r.value.delimiter in DelimiterItems
    ensures r.Success? && c["preset_delimiter"].s in DelimiterItems ==> c["preset_delimiter"] == Str(r.value.delimiter)
    ensures r.Success? && c["preset_delimiter"].s !in DelimiterItems ==> r.value.delimiter == current
    ensures r.Success? ==> c["private_key"] == Str(r.value.key)
    ensures r.Success? ==> c["certificate"] == Str(r.value.certificate) && c["root_bundle"] == Str(r.value.root)
    ensures r.Success? ==> r.value.newline == Truthy(c["preset_newline"]) && r.value.markdown == Truthy(c["markdown"])
    ensures r.Success? ==> r.value.update == Truthy(c["check_update"]) && r.value.form == Truthy(c["enable_form"])
    ensures r.Success? ==> r.value.plugin == Truthy(c["enable_plugin"]) && r.value.smime == Truthy(c["smime"])
  {
    var directory :- StrAt(c, "data_directory");
    var prescriber :- StrAt(c, "prescriber");
    var newline :- Checked(c, "preset_newline");
    var stored :- StrAt(c, "preset_delimiter");
    var delimiter := ComboText(stored, current);
    var markdown :- Checked(c, "markdown");
    var update :- Checked(c, "check_update");
    var form :- Checked(c, "enable_form");
    var plugin :- Checked(c, "enable_plugin");
    var smime :- Checked(c, "smime");
    var key :- StrAt(c, "private_key");
    var certificate :- StrAt(c, "certificate");
    var root :- StrAt(c, "root_bundle");
    Success(ConfigForm(directory, prescriber, newline, delimiter, markdown, update, form, plugin, smime,
                       key, certificate, root))
  }

  /** The dialog's widgets as dictionary entries; checkboxes become booleans. */
  function FormEntries(f: ConfigForm): (r: map<string, Value>)
    ensures r.Keys == ConfigKeys
  {
    map["data_directory" := Str(f.directory), "prescriber" := Str(f.prescriber),
        "preset_newline" := Bool(f.newline), "preset_delimiter" := Str(f.delimiter),
        "markdown" := Bool(f.markdown), "check_update" := Bool(f.update),
        "enable_form" := Bool(f.form), "enable_plugin" := Bool(f.plugin), "smime" := Bool(f.smime),
        "private_key" := Str(f.key), "certificate" := Str(f.certificate), "root_bundle" := Str(f.root)]
  }

  /**
   * `save()`: once confirmed, writes the twelve widget values into the
   * dictionary and the dictionary to the configuration file. A file that
   * cannot be opened leaves the dictionary updated and the files as they were.
   */
  function SaveConfiguration(c: map<string, Value>, f: ConfigForm, confirmed: bool, writable: bool,
                             file: string, docs: Documents): (r: (map<string, Value>, Documents))
    ensures !confirmed ==> r == (c, docs)
    ensures confirmed ==> r.0.Keys == c.Keys + ConfigKeys
    ensures confirmed ==> forall k :: k in c && k !in ConfigKeys ==> r.0[k] == c[k]
    ensures confirmed && writable ==> r.1 == docs[file := Obj(r.0)]
    ensures !writable ==> r.1 == docs
  {
    if !confirmed then (c, docs)
    else
      var c' := c + FormEntries(f);
      (c', if writable then docs[file := Obj(c')] else docs)
  }

  /** The text widgets' entries hold the dialog's texts. */
  lemma EntryTexts(f: ConfigForm)
    ensures var e := FormEntries(f);
      && e["data_directory"] == Str(f.directory) && e["prescriber"] == Str(f.prescriber)
      && e["preset_delimiter"] == Str(f.delimiter) && e["private_key"] == Str(f.key)
      && e["certificate"] == Str(f.certificate) && e["root_bundle"] == Str(f.root)
  {
  }

  /** The check boxes' entries hold the dialog's flags. */
  lemma EntryFlags(f: ConfigForm)
    ensures var e := FormEntries(f);
      && e["preset_newline"] == Bool(f.newline) && e["markdown"] == Bool(f.markdown)
      && e["check_update"] == Bool(f.update) && e["enable_form"] == Bool(f.form)
      && e["enable_plugin"] == Bool(f.plugin) && e["smime"] == Bool(f.smime)
  {
  }

  /** After a save the dictionary shows every widget value of the dialog. */
  lemma SavedShows(c: map<string, Value>, f: ConfigForm)
    ensures Shows(c + FormEntries(f), f)
  {
    EntryTexts(f);
    EntryFlags(f);
  }

  /** Reloading the dialog after a save shows exactly what was saved. */
  lemma ConfigurationRoundTrip(c: map<string, Value>, f: ConfigForm, writable: bool, file: string, docs: Documents,
                                current: string)
    requires f.delimiter in DelimiterItems && current in DelimiterItems
    ensures LoadConfiguration(SaveConfiguration(c, f, true, writable, file, docs).0, current) == Success(f)
  {
    var c' := SaveConfiguration(c, f, true, writable, file, docs).0;
    assert c' == c + FormEntries(f);
    SavedShows(c, f);
    LoadShown(c', f, current);
  }

  /** The dictionary holds every dialog key with the value `f` shows for it. */
  ghost predicate Shows(c: map<string, Value>, f: ConfigForm)
  {
    && ConfigKeys <= c.Keys
    && c["data_directory"] == Str(f.directory) && c["prescriber"] == Str(f.prescriber)
    && c["preset_delimiter"] == Str(f.delimiter) && c["private_key"] == Str(f.key)
    && c["certificate"] == Str(f.certificate) && c["root_bundle"] == Str(f.root)
    && c["preset_newline"] == Bool(f.newline) && c["markdown"] == Bool(f.markdown)
    && c["check_update"] == Bool(f.update) && c["enable_form"] == Bool(f.form)
    && c["enable_plugin"] == Bool(f.plugin) && c["smime"] == Bool(f.smime)
  }

  /** A dictionary showing `f` loads into exactly `f`. */
  lemma LoadShown(c: map<string, Value>, f: ConfigForm, current: string)
    requires Shows(c, f) && f.delimiter in DelimiterItems && current in DelimiterItems
    ensures LoadConfiguration(c, current) == Success(f)
  {
    var r := LoadConfiguration(c, current);
    assert r.Success?;
    assert r.value.directory == f.directory && r.value.prescriber == f.prescriber && r.value.delimiter == f.delimiter;
    assert r.value.key == f.key && r.value.certificate == f.certificate && r.value.root == f.root;
  }

  /** A stored delimiter the combo box does not list leaves the item it
      showed before, and saving the dialog then replaces the stored
      delimiter with that item. */
  lemma UnlistedDelimiterReset(c: map<string, Value>, current: string, writable: bool, file: string, docs: Documents)
    requires current in DelimiterItems
    requires LoadConfiguration(c, current).Success? && c["preset_delimiter"].s !in DelimiterItems
    ensures var f := LoadConfiguration(c, current).value;
      SaveConfiguration(c, f, true, writable, file, docs).0["preset_delimiter"] == Str(current)
  {
    EntryTexts(LoadConfiguration(c, current).value);
  }

  /** The dialog loads once right after its widgets are built, when the
      combo box shows its first item: a stored delimiter it does not list
      is shown, and then saved, as `,`. */
  lemma BuiltDialogUnlistedComma(c: map<string, Value>, writable: bool, file: string, docs: Documents)
    requires LoadConfiguration(c, DelimiterItems[0]).Success? && c["preset_delimiter"].s !in DelimiterItems
    ensures LoadConfiguration(c, DelimiterItems[0]).value.delimiter == ","
    ensures var f := LoadConfiguration(c, DelimiterItems[0]).value;
      SaveConfiguration(c, f, true, writable, file, docs).0["preset_delimiter"] == Str(",")
  {
    UnlistedDelimiterReset(c, DelimiterItems[0], writable, file, docs);
  }

  // ---------------------------------------------------------------------
  // Prescriber dialog

  /** The prescriber dialog's state: the file it edits and the decoded
      document; before any successful read the document is the empty string. */
  datatype PrescriberEditor = PrescriberEditor(file: string, prescriber: Value)

  const InitialEditor := PrescriberEditor("", Str(""))

  /** What the prescriber dialog shows. */
  datatype PrescriberForm = PrescriberForm(
    name: string, qualification: string, registration: string,
    address: string, contact: string, extra: string)

  function PrescriberFormValues(f: PrescriberForm): (r: seq<string>)
    ensures |r| == |Prescriptions.PrescriberKeys|
  {
    [f.name, f.qualification, f.registration, f.address, f.contact, f.extra]
  }

  /** The six fields of a prescriber document, each a `str`. */
  function PrescriberWidgets(v: Value): (r: Result<PrescriberForm, Error>)
    ensures r.Success? <==> (HasKeys(v, Prescriptions.PrescriberKeys)
                             && forall i :: 0 <= i < |Prescriptions.PrescriberKeys| ==>
                                  v.fields[Prescriptions.PrescriberKeys[i]].Str?)
    ensures r.Success? ==> forall i :: 0 <= i < |Prescriptions.PrescriberKeys| ==>
      v.fields[Prescriptions.PrescriberKeys[i]] == Str(PrescriberFormValues(r.value)[i])
  {
    var vals :- GetAll(v, Prescriptions.PrescriberKeys);
    if forall i :: 0 <= i < |vals| ==> vals[i].Str? then
      Success(PrescriberForm(vals[0].s, vals[1].s, vals[2].s, vals[3].s, vals[4].s, vals[5].s))
    else Failure(TypeError)
  }

  /**
   * `load(file)`: edits `file` when one is given (a non-empty name), else
   * the configured prescriber. The file name is taken at once; the document
   * only once it is read; the widgets only once every field is a `str`.
   */
  function LoadPrescriber(ed: PrescriberEditor, file: Option<string>, configured: string, docs: Documents)
    : (r: (PrescriberEditor, Result<PrescriberForm, Error>))
    ensures r.0.file == if file.Some? && file.value != [] then file.value else configured
    ensures r.0.file !in docs ==> r.0.prescriber == ed.prescriber && r.1 == Failure(FileNotFound(r.0.file))
    ensures r.0.file in docs ==> r.0.prescriber == docs[r.0.file] && r.1 == PrescriberWidgets(docs[r.0.file])
  {
    var f := if file.Some? && file.value != [] then file.value else configured;
    if f !in docs then (ed.(file := f), Failure(FileNotFound(f)))
    else (PrescriberEditor(f, docs[f]), PrescriberWidgets(docs[f]))
  }

  /** The widget values as document entries. */
  function PrescriberEntries(f: PrescriberForm): (r: map<string, Value>)
    ensures forall k :: k in r <==> k in Prescriptions.PrescriberKeys
    ensures forall i :: 0 <= i < |Prescriptions.PrescriberKeys| ==>
      r[Prescriptions.PrescriberKeys[i]] == Str(PrescriberFormValues(f)[i])
  {
    map["name" := Str(f.name), "qualification" := Str(f.qualification), "registration" := Str(f.registration),
        "address" := Str(f.address), "contact" := Str(f.contact), "extra" := Str(f.extra)]
  }

  /** The outcome of `save`: the dialog's new state, the files, and the file
      name announced to the main window when the write succeeded. */
  datatype PrescriberSaved = PrescriberSaved(editor: PrescriberEditor, docs: Documents, announced: Option<string>)

  /**
   * `save(file)`: the button passes `False`, which asks for confirmation
   * and writes to the edited file; a caller passing a name writes there
   * without asking. The six fields are stored into the document, which must
   * be a dict, and the document is written. The name announced afterwards
   * is the edited file, even when another file was written.
   */
  function SavePrescriber(ed: PrescriberEditor, f: PrescriberForm, target: Option<string>, confirmed: bool,
                          writable: bool, docs: Documents): (r: PrescriberSaved)
    ensures target.None? && !confirmed ==> r == PrescriberSaved(ed, docs, None)
    ensures !ed.prescriber.Obj? ==> r == PrescriberSaved(ed, docs, None)
    ensures r.editor.file == ed.file
    ensures r.announced.Some? <==> (target.Some? || confirmed) && ed.prescriber.Obj? && writable
    ensures r.announced.Some? ==> r.announced.value == ed.file
    ensures r.announced.Some? ==>
      var written := if target.Some? then target.value else ed.file;
      r.docs == docs[written := r.editor.prescriber]
    ensures r.announced.None? ==> r.docs == docs
    ensures (target.Some? || confirmed) && ed.prescriber.Obj? ==>
      r.editor.prescriber.Obj? && r.editor.prescriber.fields.Keys == ed.prescriber.fields.Keys + PrescriberEntries(f).Keys
    ensures (target.Some? || confirmed) && ed.prescriber.Obj? ==>
      forall k :: k in ed.prescriber.fields && k !in PrescriberEntries(f) ==>
        r.editor.prescriber.fields[k] == ed.prescriber.fields[k]
  {
    if target.None? && !confirmed then PrescriberSaved(ed, docs, None)
    else if !ed.prescriber.Obj? then PrescriberSaved(ed, docs, None)
    else
      var file := if target.Some? then target.value else ed.file;
      var doc := Obj(ed.prescriber.fields + PrescriberEntries(f));
      if writable then PrescriberSaved(ed.(prescriber := doc), docs[file := doc], Some(ed.file))
      else PrescriberSaved(ed.(prescriber := doc), docs, None)
  }

  /** The six keys of a document updated with the widget values hold those
      values. */
  lemma EntriesStored(fields: map<string, Value>, f: PrescriberForm)
    ensures var doc := Obj(fields + PrescriberEntries(f));
      HasKeys(doc, Prescriptions.PrescriberKeys)
      && forall i :: 0 <= i < |Prescriptions.PrescriberKeys| ==>
           doc.fields[Prescriptions.PrescriberKeys[i]] == Str(PrescriberFormValues(f)[i])
  {
    var e := PrescriberEntries(f);
    forall i | 0 <= i < |Prescriptions.PrescriberKeys|
      ensures Prescriptions.PrescriberKeys[i] in e
    {
      assert Prescriptions.PrescriberKeys[i] in Prescriptions.PrescriberKeys;
    }
  }

  /** A document updated with the widget values shows those values. */
  lemma WidgetsOfEntries(fields: map<string, Value>, f: PrescriberForm)
    ensures PrescriberWidgets(Obj(fields + PrescriberEntries(f))) == Success(f)
  {
    var doc := Obj(fields + PrescriberEntries(f));
    EntriesStored(fields, f);
    var r := PrescriberWidgets(doc);
    assert r.Success?;
    assert PrescriberFormValues(r.value) == PrescriberFormValues(f);
  }

  /** A document updated with the widget values reads as the prescriber
      with those values. */
  lemma PrescriberOfEntries(fields: map<string, Value>, f: PrescriberForm)
    ensures Prescriptions.PrescriberFromJson(Obj(fields + PrescriberEntries(f)))
      == Success(Prescriptions.Prescriber(Str(f.name), Str(f.qualification), Str(f.registration),
                                          Str(f.address), Str(f.contact), Str(f.extra)))
  {
    var doc := Obj(fields + PrescriberEntries(f));
    EntriesStored(fields, f);
    var r := Prescriptions.PrescriberFromJson(doc);
    assert Prescriptions.PrescriberFields(r.value) == Prescriptions.PrescriberFields(
      Prescriptions.Prescriber(Str(f.name), Str(f.qualification), Str(f.registration),
                               Str(f.address), Str(f.contact), Str(f.extra)));
  }

  /** A saved prescriber file reloads into the same widgets. */
  lemma PrescriberRoundTrip(ed: PrescriberEditor, f: PrescriberForm, docs: Documents)
    requires ed.prescriber.Obj? && ed.file != []
    ensures var s := SavePrescriber(ed, f, None, true, true, docs);
      LoadPrescriber(s.editor, Some(ed.file), "", s.docs).1 == Success(f)
  {
    var s := SavePrescriber(ed, f, None, true, true, docs);
    assert s.docs[ed.file] == Obj(ed.prescriber.fields + PrescriberEntries(f));
    WidgetsOfEntries(ed.prescriber.fields, f);
  }

  /** A saved prescriber file is one the prescription reads its prescriber from. */
  lemma SavedPrescriberReadable(ed: PrescriberEditor, f: PrescriberForm, target: string, docs: Documents)
    requires ed.prescriber.Obj?
    ensures var s := SavePrescriber(ed, f, Some(target), false, true, docs);
      Prescriptions.PrescriberReadFrom(s.docs, target)
        == Success(Prescriptions.Prescriber(Str(f.name), Str(f.qualification), Str(f.registration),
                                            Str(f.address), Str(f.contact), Str(f.extra)))
  {
    var s := SavePrescriber(ed, f, Some(target), false, true, docs);
    assert s.docs[target] == Obj(ed.prescriber.fields + PrescriberEntries(f));
    PrescriberOfEntries(ed.prescriber.fields, f);
  }

  // ---------------------------------------------------------------------
  // Prescriber chooser

  /** The chooser's parallel lists of prescriber names and their files. */
  datatype Listing = Listing(names: seq<string>, files: seq<string>)

  /** `select()` and `edit()`: the file listed for the first prescriber with
      the chosen name. A name not listed raises `ValueError`. */
  function Choose(l: Listing, txt: string): (r: Result<string, Error>)
    ensures txt !in l.names ==> r == Failure(ValueError)
    ensures r.Success? ==> exists i :: (0 <= i < |l.names| && i < |l.files| && l.names[i] == txt
                                        && txt !in l.names[..i] && r.value == l.files[i])
    ensures |l.names| == |l.files| ==> (r.Success? <==> txt in l.names)
  {
    match IndexOf(l.names, txt)
    case None => Failure(ValueError)
    case Some(i) => if i < |l.files| then Success(l.files[i]) else Failure(IndexError)
  }

  /** What `delete()` does with the chosen prescriber. */
  datatype Removal = Refused | Unlink(file: string) | Kept

  /** `delete()`: the configured prescriber's file is never deleted; any
      other chosen file is deleted once confirmed. */
  function Delete(l: Listing, txt: string, configured: Value, confirmed: bool): (r: Result<Removal, Error>)
    ensures r.Success? <==> Choose(l, txt).Success?
    ensures r.Success? ==> (r.value == Refused <==> configured == Str(Choose(l, txt).value))
    ensures r.Success? && r.value.Unlink? ==>
      confirmed && r.value.file == Choose(l, txt).value && configured != Str(r.value.file)
    ensures r.Success? && confirmed && configured != Str(Choose(l, txt).value) ==>
      r.value == Unlink(Choose(l, txt).value)
  {
    var file :- Choose(l, txt);
    if Str(file) == configured then Success(Refused)
    else if confirmed then Success(Unlink(file))
    else Success(Kept)
  }

  /** The `num`-th candidate name for a new prescriber file. */
  function Candidate(dir: string, num: nat): string
  {
    Join(dir, "prescriber" + Show(num) + ".json")
  }

  /** Joining under one directory keeps relative names apart. */
  lemma JoinInjective(dir: string, a: string, b: string)
    requires !IsAbs(a) && !IsAbs(b) && Join(dir, a) == Join(dir, b)
    ensures a == b
  {
    var p := if dir == [] || EndsWith(dir, "/") then dir else dir + "/";
    assert Join(dir, a) == p + a && Join(dir, b) == p + b;
    assert a == (p + a)[|p|..] && b == (p + b)[|p|..];
  }

  /** Distinct numbers give distinct candidates. */
  lemma CandidateInjective(dir: string, a: nat, b: nat)
    requires Candidate(dir, a) == Candidate(dir, b)
    ensures a == b
  {
    var x, y := "prescriber" + Show(a) + ".json", "prescriber" + Show(b) + ".json";
    assert !IsAbs(x) by { assert x[..1] == "p"; }
    assert !IsAbs(y) by { assert y[..1] == "p"; }
    JoinInjective(dir, x, y);
    assert Show(a) == x[10..|x| - 5] && Show(b) == y[10..|y| - 5];
    ShowInjective(a, b);
  }

  /** The first `n` candidates. */
  ghost function Candidates(dir: string, n: nat): set<string>
  {
    if n == 0 then {} else Candidates(dir, n - 1) + {Candidate(dir, n)}
  }

  /** Every one of the first `n` candidates is a candidate numbered 1 to `n`. */
  lemma {:induction false} CandidatesBelow(dir: string, n: nat, x: string)
    requires x in Candidates(dir, n)
    ensures exists k :: 1 <= k <= n && x == Candidate(dir, k)
  {
    if x != Candidate(dir, n) {
      CandidatesBelow(dir, n - 1, x);
    }
  }

  /** The candidates numbered 1 to `n` are among the first `n`. */
  lemma {:induction false} CandidatesAbove(dir: string, n: nat, k: nat)
    requires 1 <= k <= n
    ensures Candidate(dir, k) in Candidates(dir, n)
  {
    if k < n {
      CandidatesAbove(dir, n - 1, k);
    }
  }

  /** The first `n` candidates are `n` distinct names. */
  lemma {:induction false} CandidatesSize(dir: string, n: nat)
    ensures |Candidates(dir, n)| == n
  {
    if n > 0 {
      CandidatesSize(dir, n - 1);
      CandidateFresh(dir, n);
    }
  }

  /** The `n`-th candidate is none of the ones before it. */
  lemma CandidateFresh(dir: string, n: nat)
    requires n >= 1
    ensures Candidate(dir, n) !in Candidates(dir, n - 1)
  {
    if Candidate(dir, n) in Candidates(dir, n - 1) {
      CandidatesBelow(dir, n - 1, Candidate(dir, n));
      var k :| 1 <= k <= n - 1 && Candidate(dir, n) == Candidate(dir, k);
      CandidateInjective(dir, k, n);
    }
  }

  lemma {:induction false} SubsetSize<T>(a: set<T>, b: set<T>)
    requires a <= b
    ensures |a| <= |b|
    decreases |a|
  {
    if a != {} {
      var x :| x in a;
      SubsetSize(a - {x}, b - {x});
    }
  }

  /** Finding the `num`-th candidate taken as well means `num` names are taken. */
  lemma CandidatesTaken(dir: string, num: nat, existing: set<string>)
    requires num >= 1 && Candidates(dir, num - 1) <= existing && Candidate(dir, num) in existing
    ensures Candidates(dir, num) <= existing && num <= |existing|
  {
    CandidatesSize(dir, num);
    SubsetSize(Candidates(dir, num), existing);
  }

  /**
   * `new()`: the first of `prescriber1.json`, `prescriber2.json`, ... in the
   * prescriber directory that does not exist yet. The existing files are a
   * finite set, so the search ends.
   */
  method NewPrescriberFile(dir: string, existing: set<string>) returns (num: nat, file: string)
    ensures num >= 1 && file == Candidate(dir, num) && file !in existing
    ensures forall k :: 1 <= k < num ==> Candidate(dir, k) in existing
  {
    num := 1;
    file := Candidate(dir, 1);
    while file in existing
      invariant num >= 1 && file == Candidate(dir, num)
      invariant Candidates(dir, num - 1) <= existing
      invariant num - 1 <= |existing|
      decreases |existing| + 1 - num
    {
      CandidatesTaken(dir, num, existing);
      num := num + 1;
      file := Candidate(dir, num);
    }
    forall k | 1 <= k < num
      ensures Candidate(dir, k) in existing
    {
      CandidatesAbove(dir, num - 1, k);
    }
  }
}
