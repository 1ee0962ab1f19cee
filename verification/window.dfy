/**
 * Helpers of the main window (`window`): choosing the file a document is
 * saved to, the suggested file name, the copyright years, inserting a
 * preset, the saved-state gate in front of rendering and signing, and how
 * a signature check is reported. Dialogs, the clock, `os.path.abspath` and
 * the digest of a document are inputs.
 */
module Window {
  import opened Wrappers
  import opened Json
  import opened Text
  import opened Paths
  import opened Decimal
  import Prescriptions
  import Presets

  const Extension: string := ".mpaz"

  /**
   * `cmd_save_as()`: an empty name from the save dialog does nothing;
   * otherwise the name gets the `.mpaz` extension unless it has it.
   */
  function SaveAsTarget(chosen: string): (r: Option<string>)
    ensures chosen == [] <==> r.None?
    ensures r.Some? ==> EndsWith(r.value, Extension) && StartsWith(r.value, chosen)
    ensures r.Some? && EndsWith(chosen, Extension) ==> r.value == chosen
    ensures r.Some? && !EndsWith(chosen, Extension) ==> r.value == chosen + Extension
  {
    if |chosen| > 0 then Some(WithSuffix(chosen, Extension)) else None
  }

  /** Choosing the same name again changes nothing. */
  lemma SaveAsTargetIdempotent(chosen: string)
    requires chosen != []
    ensures SaveAsTarget(SaveAsTarget(chosen).value) == SaveAsTarget(chosen)
  {
    WithSuffixIdempotent(chosen, Extension);
  }

  /**
   * Where `cmd_save` writes. The dialog's suggestion is computed first,
   * outside the `try`, so its failure escapes `cmd_save` and nothing is
   * saved. Otherwise nothing is written when the document was opened
   * pristine and the user declines to modify it (unless saving as); the
   * current file is used when it exists; else the name chosen in the save
   * dialog, as for `cmd_save_as`, with an empty name abandoning the save.
   */
  function SaveTarget(suggestion: Result<string, Error>, saveAs: bool, pristine: bool, confirmed: bool,
                      current: string, onDisk: bool, chosen: string): (r: Result<Option<string>, Error>)
    ensures suggestion.Failure? <==> r.Failure?
    ensures suggestion.Failure? ==> r.error == suggestion.error
    ensures suggestion.Success? && !(saveAs || !pristine || confirmed) ==> r == Success(None)
    ensures suggestion.Success? && (saveAs || !pristine || confirmed) && onDisk ==> r == Success(Some(current))
    ensures suggestion.Success? && (saveAs || !pristine || confirmed) && !onDisk ==> r == Success(SaveAsTarget(chosen))
  {
    var _ :- suggestion;
    if !(saveAs || !pristine || confirmed) then Success(None)
    else if onDisk then Success(Some(current))
    else Success(SaveAsTarget(chosen))
  }

  /** A document never saved before ends up in a `.mpaz` file or not at all. */
  lemma NewDocumentTarget(suggestion: Result<string, Error>, saveAs: bool, pristine: bool, confirmed: bool,
                          current: string, chosen: string)
    ensures var r := SaveTarget(suggestion, saveAs, pristine, confirmed, current, false, chosen);
      r.Success? && r.value.Some? ==> EndsWith(r.value.value, Extension)
  {
  }

  /** With an empty id and a patient name that is not a `str`, the
      suggestion raises `TypeError`, so `cmd_save` saves nothing, even to a
      file that already exists. */
  lemma UnnamedDocumentNotSaved(id: Value, name: Value, documents: string, abspath: string -> string,
                                saveAs: bool, pristine: bool, confirmed: bool, current: string, chosen: string)
    requires !Truthy(id) && !name.Str?
    ensures SaveTarget(Suggest(id, name, documents, abspath), saveAs, pristine, confirmed, current, true, chosen)
            == Failure(TypeError)
  {
  }

  /**
   * The name proposed in the save dialog, before it is made absolute: the
   * prescription id if it is non-empty, else the patient's name, under the
   * document directory, with `.mpaz` appended. A non-`str` value makes
   * `os.path.join` raise `TypeError`.
   */
  function SuggestBase(id: Value, name: Value, documents: string): (r: Result<string, Error>)
    ensures var pick := if Truthy(id) then id else name;
      (r.Success? <==> pick.Str?)
      && (r.Failure? ==> r.error == TypeError)
      && (r.Success? ==> r.value == Join(documents, pick.s) + Extension)
      && (r.Success? ==> EndsWith(r.value, pick.s + Extension))
      && (r.Success? && !IsAbs(pick.s) && documents != [] ==> StartsWith(r.value, documents))
  {
    var pick := if Truthy(id) then id else name;
    var stem :- AsStr(pick);
    var joined := Join(documents, stem);
    AppendKeeps(joined, Extension, documents, stem);
    if IsAbs(stem) then
      assert joined == stem && EndsWith(stem, stem) by { assert stem[|stem| - |stem|..] == stem; }
      Success(joined + Extension)
    else
      Success(joined + Extension)
  }

  /** Accepting the suggested name unchanged saves to exactly that name:
      it already has the extension. */
  lemma SuggestionAccepted(id: Value, name: Value, documents: string)
    requires SuggestBase(id, name, documents).Success?
    ensures SaveAsTarget(SuggestBase(id, name, documents).value) == Some(SuggestBase(id, name, documents).value)
  {
    var s := SuggestBase(id, name, documents).value;
    var pick := if Truthy(id) then id else name;
    EndsWithAppend(Join(documents, pick.s), Extension);
  }

  /** The suggestion made absolute. */
  function Suggest(id: Value, name: Value, documents: string, abspath: string -> string): (r: Result<string, Error>)
    ensures r.Success? <==> SuggestBase(id, name, documents).Success?
    ensures r.Success? ==> r.value == abspath(SuggestBase(id, name, documents).value)
  {
    var base :- SuggestBase(id, name, documents);
    Success(abspath(base))
  }

  /** `cmd_about()`: the copyright years, "2023" or "2023-<year>". */
  function Copyright(year: int): (r: string)
    ensures year <= 2023 ==> r == "2023"
    ensures year > 2023 ==> (|r| > 5 && r[..5] == "2023-"
      && forall k :: 5 <= k < |r| ==> IsDigit(r[k]))
  {
    if year > 2023 then "2023" + "-" + Show(year) else "2023"
  }

  /** The year after the dash reads back as the current year. */
  lemma CopyrightYear(year: int)
    requires year > 2023
    ensures var r := Copyright(year);
      (forall k :: 0 <= k < |r[5..]| ==> IsDigit(r[5..][k])) && Decimal.Value(r[5..]) == year
  {
    var r := Copyright(year);
    assert r[5..] == Show(year);
    ValueShow(year);
  }

  /**
   * `insert_preset_*()`: the text of the chosen preset, or the typed text
   * itself when it names no preset, followed by a newline when the
   * `preset_newline` setting is truthy.
   */
  function PresetInsert(presets: map<string, string>, chosen: string, newline: Value): (r: string)
    ensures chosen in presets ==> StartsWith(r, presets[chosen])
    ensures chosen !in presets ==> StartsWith(r, chosen)
    ensures Truthy(newline) <==> |r| == |if chosen in presets then presets[chosen] else chosen| + 1
    ensures Truthy(newline) ==> EndsWith(r, "\n")
    ensures !Truthy(newline) ==> r == if chosen in presets then presets[chosen] else chosen
  {
    var text := if chosen in presets then presets[chosen] else chosen;
    if Truthy(newline) then
      EndsWithAppend(text, "\n");
      assert (text + "\n")[..|text|] == text;
      text + "\n"
    else
      assert text[..|text|] == text;
      text
  }

  /** The setting is tested for truth, not parsed: the string "False" still
      adds a newline. */
  lemma FalseStringAddsNewline(presets: map<string, string>, chosen: string)
    ensures EndsWith(PresetInsert(presets, chosen, Str("False")), "\n")
  {
  }

  /** Choosing a key of a preset table inserts the value of the last row
      with that key, followed by the newline when the setting is truthy. */
  method InsertFromTable(file: seq<Presets.Row>, i: nat, newline: Value) returns (r: string)
    requires file != [] && Presets.AllPairs(file[1..]) && i < |file| - 1 && Presets.LastWithKey(file[1..], i)
    ensures r == file[1..][i][1] + (if Truthy(newline) then "\n" else "")
  {
    var loaded := Presets.Load(Some(file));
    var presets := loaded.value;
    var key, value := file[1..][i][0], file[1..][i][1];
    assert key in presets && presets[key] == value;
    var text := PresetInsert(presets, key, newline);
    if Truthy(newline) {
      assert text[..|value|] == value && text[|value|..] == "\n";
      assert text == text[..|value|] + text[|value|..];
    } else {
      assert value + "" == value;
    }
    return text;
  }

  /** The saved-state gate: the digest of the document's JSON equals the
      digest recorded when it was last saved, opened or created. */
  predicate Saved(saveState: string, p: Prescriptions.Prescription, digest: Value -> string)
  {
    saveState == digest(Prescriptions.GetJson(p))
  }

  /** Recording the state after a save, open or new document. */
  function Record(p: Prescriptions.Prescription, digest: Value -> string): (r: string)
    ensures Saved(r, p, digest)
  {
    digest(Prescriptions.GetJson(p))
  }

  /** What `cmd_render` and `cmd_sign` end in. */
  datatype Gated = SaveFirst | Viewed(target: string) | RenderFailed | Proceed

  /**
   * `cmd_render()`: only a saved document is rendered. A rendered target is
   * shown; no target is reported as a failure. The renderer catches every
   * exception itself and returns `None`, so `rendered` is the target or
   * nothing, and the handler for a missing file is never reached.
   */
  function Render(saveState: string, p: Prescriptions.Prescription, digest: Value -> string,
                  rendered: Option<string>): (r: Gated)
    ensures !Saved(saveState, p, digest) ==> r == SaveFirst
    ensures Saved(saveState, p, digest) && rendered.Some? ==> r == Viewed(rendered.value)
    ensures Saved(saveState, p, digest) && rendered.None? ==> r == RenderFailed
  {
    if !Saved(saveState, p, digest) then SaveFirst
    else match rendered
      case Some(target) => Viewed(target)
      case None => RenderFailed
  }

  /** `cmd_sign()`: signing proceeds only for a saved document. */
  function Sign(saveState: string, p: Prescriptions.Prescription, digest: Value -> string): (r: Gated)
    ensures r == Proceed <==> Saved(saveState, p, digest)
    ensures r != Proceed ==> r == SaveFirst
  {
    if Saved(saveState, p, digest) then Proceed else SaveFirst
  }

  /** Right after recording, rendering and signing are not held back. */
  lemma RecordedPassesGates(p: Prescriptions.Prescription, digest: Value -> string, rendered: Option<string>)
    ensures Sign(Record(p, digest), p, digest) == Proceed
    ensures Render(Record(p, digest), p, digest, rendered) != SaveFirst
    ensures ConfirmClose(Record(p, digest), p, digest, false)
  {
  }

  /** An edit that changes the digest holds rendering and signing at the
      gate, and closing needs the user's consent, until the edited document
      is recorded by a save; then all three pass. */
  lemma EditHoldsGates(p: Prescriptions.Prescription, q: Prescriptions.Prescription,
                       digest: Value -> string, rendered: Option<string>)
    requires digest(Prescriptions.GetJson(p)) != digest(Prescriptions.GetJson(q))
    ensures Render(Record(p, digest), q, digest, rendered) == SaveFirst
    ensures Sign(Record(p, digest), q, digest) == SaveFirst
    ensures !ConfirmClose(Record(p, digest), q, digest, false)
    ensures Render(Record(q, digest), q, digest, rendered) != SaveFirst
    ensures Sign(Record(q, digest), q, digest) == Proceed
  {
    RecordedPassesGates(q, digest, rendered);
  }

  /** `confirm_close()`: a saved document closes at once; otherwise only
      when the user agrees to lose the changes. */
  function ConfirmClose(saveState: string, p: Prescriptions.Prescription, digest: Value -> string,
                        agreed: bool): (r: bool)
    ensures r <==> Saved(saveState, p, digest) || agreed
  {
    Saved(saveState, p, digest) || agreed
  }

  /** How `cmd_verify` reports the outcome of checking a signature. */
  datatype Verdict = Invalid | NoSignature | Valid(info: string) | Failed

  const ValidPrefix: string := "Valid signature found with the following information:\n"

  /**
   * `cmd_verify()`: `False` is an invalid signature, `None` no signature,
   * a text a valid one shown with that text. A missing file also reads as
   * no signature; any other exception, including joining a non-text
   * result to the message, is a failure.
   */
  function Verify(result: Result<Value, Error>): (r: Verdict)
    ensures r == Invalid <==> result == Success(Bool(false))
    ensures r == NoSignature <==> result == Success(Null) || (result.Failure? && result.error.FileNotFound?)
    ensures r.Valid? <==> result.Success? && result.value.Str?
    ensures r.Valid? ==> result == Success(Str(r.info))
  {
    match result
    case Failure(FileNotFound(_)) => NoSignature
    case Failure(_) => Failed
    case Success(Bool(false)) => Invalid
    case Success(Null) => NoSignature
    case Success(Str(info)) => Valid(info)
    case Success(_) => Failed
  }

  /** The message shown for a valid signature ends with its information. */
  function VerifyMessage(v: Verdict): (r: Option<string>)
    ensures v.Valid? <==> r.Some?
    ensures r.Some? ==> StartsWith(r.value, ValidPrefix) && EndsWith(r.value, v.info)
  {
    if v.Valid? then
      EndsWithAppend(ValidPrefix, v.info);
      assert (ValidPrefix + v.info)[..|ValidPrefix|] == ValidPrefix;
      Some(ValidPrefix + v.info)
    else None
  }
}
