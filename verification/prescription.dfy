/**
 * The prescription record (`Prescriber`, `Prescription`): field defaults,
 * the JSON-key-to-field mapping and the write/read round trip. Field values
 * are whatever JSON values the document holds.
 */
module Prescriptions {
  import opened Wrappers
  import opened Json

  datatype Prescriber = Prescriber(
    name: Value, qualification: Value, registration: Value,
    address: Value, contact: Value, extra: Value)

  /** The keys `Prescriber.set_data_from_json` reads, in the order it reads them. */
  const PrescriberKeys: seq<string> := ["name", "qualification", "registration", "address", "contact", "extra"]

  /** `Prescriber.set_data(...)`: every field defaults to the empty string. */
  function PrescriberSetData(name: Value := Str(""), qualification: Value := Str(""),
                             registration: Value := Str(""), address: Value := Str(""),
                             contact: Value := Str(""), extra: Value := Str("")): (p: Prescriber)
    ensures p.name == name && p.qualification == qualification && p.registration == registration
    ensures p.address == address && p.contact == contact && p.extra == extra
  {
    Prescriber(name, qualification, registration, address, contact, extra)
  }

  lemma PrescriberDefaults()
    ensures var p := PrescriberSetData();
      p.name == p.qualification == p.registration == p.address == p.contact == p.extra == Str("")
  {
  }

  function PrescriberFields(p: Prescriber): (r: seq<Value>)
    ensures |r| == |PrescriberKeys|
  {
    [p.name, p.qualification, p.registration, p.address, p.contact, p.extra]
  }

  /** `Prescriber.set_data_from_json(data)`: each key into the same-named field;
      a missing key is a `KeyError`, a non-dict a `TypeError`. */
  function PrescriberFromJson(data: Value): (r: Result<Prescriber, Error>)
    ensures r.Success? <==> HasKeys(data, PrescriberKeys)
    ensures r.Success? ==> forall i :: 0 <= i < |PrescriberKeys| ==>
      PrescriberFields(r.value)[i] == data.fields[PrescriberKeys[i]]
  {
    var v :- GetAll(data, PrescriberKeys);
    Success(Prescriber(v[0], v[1], v[2], v[3], v[4], v[5]))
  }

  /** The prescriber's attribute dictionary as `json.dumps(..., default=lambda o: o.__dict__)` writes it. */
  function PrescriberJson(p: Prescriber): (r: Value)
    ensures HasKeys(r, PrescriberKeys)
    ensures forall i :: 0 <= i < |PrescriberKeys| ==> r.fields[PrescriberKeys[i]] == PrescriberFields(p)[i]
  {
    Obj(map["name" := p.name, "qualification" := p.qualification, "registration" := p.registration,
            "address" := p.address, "contact" := p.contact, "extra" := p.extra])
  }

  lemma PrescriberJsonRoundTrip(p: Prescriber)
    ensures PrescriberFromJson(PrescriberJson(p)) == Success(p)
  {
  }

  /** `Prescriber.read_from(file)` (and `Prescriber()`, which reads the configured file). */
  function PrescriberReadFrom(files: Documents, file: string): (r: Result<Prescriber, Error>)
    ensures file !in files ==> r == Failure(FileNotFound(file))
    ensures file in files ==> r == PrescriberFromJson(files[file])
  {
    if file !in files then Failure(FileNotFound(file)) else PrescriberFromJson(files[file])
  }

  /** A prescription. `file` is `None` while only the class attribute `""`
      exists, so it is not part of the attribute dictionary yet. */
  datatype Prescription = Prescription(
    file: Option<string>,
    date: Value, id: Value, name: Value, age: Value, sex: Value, address: Value,
    contact: Value, extra: Value, mode: Value, daw: Value, note: Value, report: Value,
    investigation: Value, medication: Value, advice: Value,
    prescriber: Prescriber)

  /** The keys `Prescription.set_data_from_json` copies into same-named fields, in order. */
  const Keys: seq<string> := ["date", "id", "name", "age", "sex", "address", "contact", "extra",
                              "mode", "daw", "note", "report", "investigation", "medication", "advice"]

  /** The fifteen data fields, in the order of `Keys`. */
  function Fields(p: Prescription): (r: seq<Value>)
    ensures |r| == |Keys|
  {
    [p.date, p.id, p.name, p.age, p.sex, p.address, p.contact, p.extra,
     p.mode, p.daw, p.note, p.report, p.investigation, p.medication, p.advice]
  }

  /** `p` with its fifteen data fields replaced by `v`. */
  function WithFields(p: Prescription, v: seq<Value>): (r: Prescription)
    requires |v| == |Keys|
    ensures Fields(r) == v
    ensures r.file == p.file && r.prescriber == p.prescriber
  {
    p.(date := v[0], id := v[1], name := v[2], age := v[3], sex := v[4], address := v[5],
       contact := v[6], extra := v[7], mode := v[8], daw := v[9], note := v[10], report := v[11],
       investigation := v[12], medication := v[13], advice := v[14])
  }

  /** A prescription is determined by its file, data fields and prescriber. */
  lemma FieldsDetermine(p: Prescription, q: Prescription)
    requires Fields(p) == Fields(q) && p.file == q.file && p.prescriber == q.prescriber
    ensures p == q
  {
    assert forall i :: 0 <= i < |Keys| ==> Fields(p)[i] == Fields(q)[i];
  }

  /** `Prescription.set_data(...)`: every field defaults to the empty string;
      the file and the prescriber are left alone. */
  function SetData(p: Prescription, date: Value := Str(""), id: Value := Str(""), name: Value := Str(""),
                   age: Value := Str(""), sex: Value := Str(""), address: Value := Str(""),
                   contact: Value := Str(""), extra: Value := Str(""), mode: Value := Str(""),
                   daw: Value := Str(""), note: Value := Str(""), report: Value := Str(""),
                   investigation: Value := Str(""), medication: Value := Str(""),
                   advice: Value := Str("")): (r: Prescription)
    ensures Fields(r) == [date, id, name, age, sex, address, contact, extra, mode, daw, note, report,
                          investigation, medication, advice]
    ensures r.file == p.file && r.prescriber == p.prescriber
  {
    WithFields(p, [date, id, name, age, sex, address, contact, extra, mode, daw, note, report,
                   investigation, medication, advice])
  }

  /** `set_data()` with no arguments empties all fifteen fields. */
  lemma SetDataDefaults(p: Prescription)
    ensures forall i :: 0 <= i < |Keys| ==> Fields(SetData(p))[i] == Str("")
  {
  }

  /**
   * `Prescription(date, id, name, ..., advice, prescriber)`: the constructor
   * passes its arguments to `set_data` positionally but without `id`, so
   * every argument after `date` lands one field early and `advice` stays `""`.
   * Without a prescriber it reads the configured prescriber file
   * (`configured`, the outcome of `Prescriber()`).
   */
  function New(configured: Result<Prescriber, Error>, date: Value := Str(""), id: Value := Str(""),
               name: Value := Str(""), age: Value := Str(""), sex: Value := Str(""),
               address: Value := Str(""), contact: Value := Str(""), extra: Value := Str(""),
               mode: Value := Str(""), daw: Value := Str(""), note: Value := Str(""),
               report: Value := Str(""), investigation: Value := Str(""),
               medication: Value := Str(""), advice: Value := Str(""),
               prescriber: Option<Prescriber> := None): (r: Result<Prescription, Error>)
    ensures prescriber.Some? ==> r.Success? && r.value.prescriber == prescriber.value
    ensures prescriber.None? ==> (r.Success? <==> configured.Success?)
    ensures prescriber.None? && r.Success? ==> r.value.prescriber == configured.value
    ensures r.Success? ==> r.value.file.None?
  {
    var who :- if prescriber.Some? then Success(prescriber.value) else configured;
    var blank := Prescription(None, Str(""), Str(""), Str(""), Str(""), Str(""), Str(""), Str(""),
                              Str(""), Str(""), Str(""), Str(""), Str(""), Str(""), Str(""), Str(""), who);
    Success(SetData(blank, date, name, age, sex, address, contact, extra, mode, daw, note, report,
                    investigation, medication, advice))
  }

  /** The positional shift of the constructor: `name` becomes the id, `age`
      the name, ..., `advice` the medication; the `id` argument is dropped. */
  lemma ConstructorShift(date: Value, id: Value, name: Value, age: Value, sex: Value, address: Value,
                         contact: Value, extra: Value, mode: Value, daw: Value, note: Value,
                         report: Value, investigation: Value, medication: Value, advice: Value,
                         who: Prescriber, configured: Result<Prescriber, Error>)
    ensures var r := New(configured, date, id, name, age, sex, address, contact, extra, mode, daw, note,
                         report, investigation, medication, advice, Some(who));
      && r.Success?
      && r.value.date == date && r.value.id == name && r.value.name == age && r.value.age == sex
      && r.value.sex == address && r.value.address == contact && r.value.contact == extra
      && r.value.extra == mode && r.value.mode == daw && r.value.daw == note && r.value.note == report
      && r.value.report == investigation && r.value.investigation == medication
      && r.value.medication == advice && r.value.advice == Str("")
  {
    var r := New(configured, date, id, name, age, sex, address, contact, extra, mode, daw, note,
                 report, investigation, medication, advice, Some(who));
    assert Fields(r.value) == [date, name, age, sex, address, contact, extra, mode, daw, note, report,
                               investigation, medication, advice, Str("")];
  }

  /** A dict with a prescriber dict and every key of `Keys`: what `set_data_from_json` accepts. */
  predicate IsDocument(data: Value)
  {
    && data.Obj? && "prescriber" in data.fields
    && HasKeys(data, Keys)
    && HasKeys(data.fields["prescriber"], PrescriberKeys)
  }

  /** `Prescription.set_data_from_json(data)`: the prescriber from `data["prescriber"]`,
      then each of `Keys` into its field. A missing key raises. */
  function SetDataFromJson(p: Prescription, data: Value): (r: Result<Prescription, Error>)
    ensures r.Success? <==> IsDocument(data)
    ensures !data.Obj? ==> r == Failure(TypeError)
    ensures data.Obj? && "prescriber" !in data.fields ==> r == Failure(KeyError("prescriber"))
    ensures r.Success? ==> r.value.file == p.file
    ensures r.Success? ==> Success(r.value.prescriber) == PrescriberFromJson(data.fields["prescriber"])
    ensures r.Success? ==> forall i :: 0 <= i < |Keys| ==> Fields(r.value)[i] == data.fields[Keys[i]]
  {
    var pd :- Get(data, "prescriber");
    var who :- PrescriberFromJson(pd);
    var v :- GetAll(data, Keys);
    Success(WithFields(p.(prescriber := who), v))
  }

  /** `get_json()`: the attribute dictionary, holding `file` only once it was set. */
  function GetJson(p: Prescription): (r: Value)
    ensures r.Obj? && "prescriber" in r.fields && HasKeys(r, Keys)
    ensures r.fields["prescriber"] == PrescriberJson(p.prescriber)
    ensures forall i :: 0 <= i < |Keys| ==> r.fields[Keys[i]] == Fields(p)[i]
    ensures "file" in r.fields <==> p.file.Some?
    ensures forall k :: k in r.fields ==> k in Keys || k == "prescriber" || k == "file"
  {
    var base := map["date" := p.date, "id" := p.id, "name" := p.name, "age" := p.age, "sex" := p.sex,
                    "address" := p.address, "contact" := p.contact, "extra" := p.extra, "mode" := p.mode,
                    "daw" := p.daw, "note" := p.note, "report" := p.report,
                    "investigation" := p.investigation, "medication" := p.medication,
                    "advice" := p.advice, "prescriber" := PrescriberJson(p.prescriber)];
    if p.file.Some? then Obj(base["file" := Str(p.file.value)]) else Obj(base)
  }

  /** `write_to(file)`: writes `get_json()` to `file`, then records `file`.
      `writable` says whether `file` can be opened for writing. */
  function WriteTo(p: Prescription, files: Documents, file: string, writable: bool)
    : (r: Result<(Prescription, Documents), Error>)
    ensures r.Success? <==> writable
    ensures r.Success? ==> r.value.0 == p.(file := Some(file))
    ensures r.Success? ==> r.value.1 == files[file := GetJson(p)]
  {
    if !writable then Failure(FileNotFound(file))
    else Success((p.(file := Some(file)), files[file := GetJson(p)]))
  }

  /** `read_from(file)`: reads the document at `file`, then records `file`. */
  function ReadFrom(p: Prescription, files: Documents, file: string): (r: Result<Prescription, Error>)
    ensures file !in files ==> r == Failure(FileNotFound(file))
    ensures r.Success? ==> r.value.file == Some(file)
    ensures file in files ==> (r.Success? <==> SetDataFromJson(p, files[file]).Success?)
  {
    if file !in files then Failure(FileNotFound(file))
    else
      var q :- SetDataFromJson(p, files[file]);
      Success(q.(file := Some(file)))
  }

  /** Reading back a just-written file, into any prescription object,
      restores every field, the prescriber and the recorded file. */
  lemma WriteReadRoundTrip(p: Prescription, q: Prescription, files: Documents, file: string)
    ensures var w := WriteTo(p, files, file, true);
      ReadFrom(q, w.value.1, file) == Success(w.value.0)
  {
    var w := WriteTo(p, files, file, true);
    var j := GetJson(p);
    var s := SetDataFromJson(q, j);
    PrescriberJsonRoundTrip(p.prescriber);
    assert s.Success?;
    FieldsDetermine(s.value.(file := Some(file)), p.(file := Some(file)));
  }
}
