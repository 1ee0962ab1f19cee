# MedScript core, modelled in Dafny

MedScript is a desktop application for writing medical prescriptions. A
prescription is a `.mpaz` file: a zip archive holding `prescription.json`,
`meta.json`, the template used to render the prescription and any
attachments. This project models the application logic under the Qt user
interface. Each operation becomes a pure function over immutable data:

- the document workspace, modelled as a map from relative paths to bytes,
  with its `copy`/`list`/`save`/`open` operations (`FileHandler`);
- the prescription and prescriber records and their JSON form
  (`Prescriptions`);
- the text processing done before rendering: the diagnosis list and the
  medication `[...]` split (`Renderer`);
- the preset tables and the preset editor (`Presets`, `PresetEditor`);
- the package installer's rules (`Installer`);
- the start-up configuration merge and path derivation (`Config`);
- the configuration, prescriber-editor and prescriber-chooser dialogs
  (`Settings`);
- plugin capability dispatch (`Plugins`);
- custom forms (`CustomForms`), CSV export rows (`Tabular`) and the
  document index (`DocumentIndex`);
- the main window's saving, gating and reporting helpers (`Window`).

The supporting modules are:

- `Json`: a decoded JSON or Python value, with Python's truth test and
  `v[key]` lookup and the errors it raises;
- `Text`: Python's `str` methods;
- `Paths`: `os.path` on POSIX paths;
- `Decimal`: `str(n)` and its inverse;
- `Wrappers`: `Option` and `Result`.

Python exceptions are modelled as `Failure` values of `Json.Error`. These
are `KeyError`, `TypeError`, `AttributeError`, `ValueError`, `IndexError`, `FileNotFound`, `StopIteration`
and the like.

The following outside facts are parameters of the functions that use them:

- the contents of files and archives on disk;
- the answers given in dialogs;
- the results of `glob`;
- `os.path.abspath`, and whether a path exists or is a file;
- the md5 digest of a document;
- the widgets' current values.

## Model

| member | source | states |
|---|---|---|
| FileHandler.Init | filehandler.py:19-21 | a new handler has the given file name and an empty workspace |
| FileHandler.SetFile | filehandler.py:23-24 | only the current file changes; the workspace is kept |
| FileHandler.Copy | filehandler.py:26-32 | the source lands at `category/basename(source)` and every other workspace entry is unchanged; copying a file onto itself is a no-op; an unreadable source is an error |
| FileHandler.List | filehandler.py:34-39 | exactly the immediate non-hidden entries of the category's bucket |
| FileHandler.ListAbsent | filehandler.py:34-39 | a category that has no bucket lists nothing |
| FileHandler.Overlay | filehandler.py:46-48 | the template's files are copied under `template/`, overwriting same-named files and keeping the rest |
| FileHandler.Save | filehandler.py:41-52 | rebinds the file only when one is given; writes `meta.json`; overlays the template; the archive holds exactly the visible workspace entries; other archives on disk are untouched; a missing template or an unwritable target leaves the disk unchanged |
| FileHandler.Prepared | filehandler.py:44-48 | the workspace about to be zipped holds the fixed `meta.json` and, when a template is given, its files; every other entry is left as it was |
| FileHandler.Open | filehandler.py:54-58 | rebinds the file only when one is given; overlays the archive's entries on the workspace; a missing file or one that is not a zip archive is an error and keeps the workspace |
| FileHandler.SaveOpenRoundTrip | filehandler.py:41-58 | opening a freshly saved archive in a new handler reproduces the visible part of the saved workspace |
| FileHandler.OpenFresh | filehandler.py:54-58 | opening an archive in a new handler gives exactly the archive's entries |
| FileHandler.OpenIdempotent | filehandler.py:54-58 | opening the same archive twice is the same as opening it once |
| FileHandler.SaveReplacesMeta | filehandler.py:44-45 | an earlier, different `meta.json` is replaced by the fixed metadata |
| FileHandler.SaveKeeps | filehandler.py:41-52 | a visible workspace entry outside `meta.json` and `template/` is in the saved archive unchanged |
| FileHandler.CopyListed | filehandler.py:26-39 | a copied attachment is then listed under its category |
| FileHandler.CopyListedAndSaved | filehandler.py:26-52 | a copied attachment is listed under its category and, after a save, is in the archive with the copied bytes |
| Prescriptions.PrescriberSetData | prescription.py:15-21 | each of the six prescriber fields takes its argument |
| Prescriptions.PrescriberDefaults | prescription.py:15-21 | with no arguments all six prescriber fields are `""` |
| Prescriptions.PrescriberFromJson | prescription.py:23-29 | succeeds exactly when all six keys are present, and copies each key into its field |
| Prescriptions.PrescriberJson | prescription.py:81-82 | the serialised prescriber has the six keys with the field values |
| Prescriptions.PrescriberJsonRoundTrip | prescription.py:23-29 | reading back a serialised prescriber gives the same prescriber |
| Prescriptions.PrescriberReadFrom | prescription.py:31-33 | a missing file is `FileNotFoundError`; otherwise the file's JSON is read as a prescriber |
| Prescriptions.SetData | prescription.py:46-61 | the fifteen fields take the arguments in order; the file and prescriber are kept |
| Prescriptions.SetDataDefaults | prescription.py:46-61 | with no arguments all fifteen fields are `""` |
| Prescriptions.New | prescription.py:39-44 | an explicit prescriber is used as given; otherwise the configured one is used, and its read failure is the constructor's failure |
| Prescriptions.ConstructorShift | prescription.py:39-40 | the constructor drops `id`, so each argument lands one field early and `advice` stays `""` |
| Prescriptions.SetDataFromJson | prescription.py:63-79 | succeeds exactly when the data is an object with all fifteen keys and a valid prescriber; the prescriber is read first; each key goes to its field |
| Prescriptions.GetJson | prescription.py:81-82 | the JSON holds every field under its key and the prescriber's JSON, plus `file` only once a file was set |
| Prescriptions.WriteTo | prescription.py:84-87 | the document's JSON is stored under the file name, and then the file is recorded |
| Prescriptions.ReadFrom | prescription.py:89-92 | a missing file is `FileNotFoundError`; a successful read records the file |
| Prescriptions.WriteReadRoundTrip | prescription.py:81-92 | reading back what was written restores every field and the prescriber |
| Renderer.DiagnosisList | renderer.py:42-43 | one entry per `;`-separated segment, so count(`;`)+1 entries, each without surrounding whitespace |
| Renderer.DiagnosisSegments | renderer.py:42-43 | entry k is segment k of the split, stripped |
| Renderer.DiagnosisOfPaddedList | renderer.py:42-43 | stripped items joined with `;` and padded with whitespace are recovered exactly |
| Renderer.ProcessDiagnosis | renderer.py:40-45 | adds only `diagnosis_list` and keeps every other key; a missing `diagnosis` is `KeyError`; a non-text `diagnosis` is `AttributeError` (from `.split`) |
| Renderer.FindBracket | renderer.py:49-53 | finds a `[`...`]` pair exactly when one exists, as the first `[` with a later `]` and the last `]` |
| Renderer.BracketSpanUnique | renderer.py:49-53 | the span the pattern matches is unique |
| Renderer.MedicationEntrySpan | renderer.py:53-55 | `f2` is the text inside the span, and `f1` is the line with the span cut out |
| Renderer.CutSpan | renderer.py:54 | removing every occurrence of `[f2]` removes exactly the matched span |
| Renderer.MedicationEntryPlain | renderer.py:56-57 | a line with no bracket pair gives `[line, ""]` |
| Renderer.MedicationList | renderer.py:50-57 | one entry per non-empty line, in order |
| Renderer.MedicationTwoLines | renderer.py:50-51 | two non-empty lines give two entries, in order |
| Renderer.ProcessMedication | renderer.py:47-59 | adds only `medication_list` and keeps every other key; a missing `medication` is `KeyError`; a non-text `medication` is `AttributeError` (from `.splitlines`) |
| Presets.Reader | preset.py:23 | a file read with the delimiter it was written with gives back its rows; read with another delimiter, each line is split afresh at that delimiter |
| Presets.ForeignRowOneCell | preset.py:23 | a row none of whose cells holds the reading delimiter is read as one cell |
| Presets.Load | preset.py:20-28 | a missing file gives an empty map; an empty file is `StopIteration`; the header row is skipped; each later row maps `row[0]` to `row[1]`, and the last row with a key wins; a short row is `IndexError` |
| PresetEditor.Pad | editpreset.py:93-100 | a row is padded with `""` up to two cells |
| PresetEditor.Load | editpreset.py:79-106 | reads the file with the configured delimiter, skips the header row and pads every other row; with no file or no configured delimiter the editor is empty |
| PresetEditor.KeptRows | editpreset.py:59-62 | every kept row is a non-blank row of the editor, and there are no more kept rows than editor rows |
| PresetEditor.KeptRowsAppend | editpreset.py:59-62 | the rows are kept in editor order with their repetitions: keeping from two blocks is keeping from each in turn |
| PresetEditor.KeptRowsOne | editpreset.py:61-62 | a single row is written exactly when its key or value is not blank |
| PresetEditor.KeptRowsComplete | editpreset.py:59-62 | every row with a non-blank cell is kept |
| PresetEditor.Save | editpreset.py:52-62 | with the configured delimiter: the header `KEY, VALUE` comes first, then the kept rows; without one the file is opened for writing and left empty |
| PresetEditor.SaveLoadRoundTrip | editpreset.py:52-106 | loading the saved table with the same delimiter gives exactly the kept rows |
| PresetEditor.MissingDelimiterEmpties | editpreset.py:56-57 | with no configured delimiter the saved file is empty and loads as an empty editor |
| PresetEditor.SavedPresetMap | editpreset.py:56-63 | saved with a `,` delimiter and read as a preset, the file maps exactly the kept rows' keys, each to the value of the last kept row with that key |
| PresetEditor.ForeignDelimiterFails | editpreset.py:57 | as written: saved with another delimiter, a file whose first kept row holds no `,` makes the preset reader fail with `IndexError` |
| PresetEditor.SavedPresetMapWith | editpreset.py:56-63 | corrected: read with the delimiter it was saved with, the file maps exactly the kept rows' keys, each to the value of the last kept row with that key, for every delimiter |
| Installer.Collect | installer.py:148-161 | names align with paths; the name is the basename, without its extension for presets and forms; only qualifying entries (a template with `index.html`, a plugin with `main.py`) are listed, and all of them are |
| Installer.GroupEntries | installer.py:163-174 | exactly the unprotected names appear, as `[group]\tname` |
| Installer.Load | installer.py:141-174 | the catalogue is rebuilt from scratch from what is found |
| Installer.LoadLists | installer.py:163-174 | an entry is listed exactly when it encodes an unprotected name of some group |
| Installer.ParseEntry | installer.py:70-72 | succeeds exactly when the text has a tab; the group has no brackets; the name has no tab |
| Installer.EntryRoundTrip | installer.py:70-72 | parsing a listed entry recovers its group and its tab-free name |
| Installer.UninstallDecision | installer.py:69-96 | a protected name is refused; only a confirmed uninstall deletes, and it deletes the path at the name's first occurrence in the group; a name missing from the group is `ValueError` |
| Installer.PlanGroup | installer.py:31-64 | protected names are skipped; an installed name is reported without copying; other qualifying items are copied only when confirmed, to the group's directory |
| Installer.PlanInstall | installer.py:25-67 | no step touches a protected name; an install copies the item into the configured directory of its kind (presets and forms) or to that directory joined with its name (templates and plugins); "already installed" is reported only for names in the catalogue |
| Installer.PlanKind | installer.py:31-64 | one kind's steps: an item whose name is listed is reported installed; an unlisted one is copied to its kind's destination once confirmed |
| Installer.PlanInstallComplete | installer.py:25-67 | every eligible item in the package is reported as installed when the catalogue lists it, and is installed when it does not and the user confirms |
| Installer.PresetNameDropsExtension | installer.py:149 | a preset file `x.csv` is named `x` |
| Config.ConfigFile | config.py:18-21 | `-c` if given, else the default `config/config.json` made absolute |
| Config.Merge | config.py:38 | the keys are the union; values from the file override the defaults; a non-object file is `TypeError` |
| Config.ResolveArg | config.py:49-50 | an absolute `-p` is kept, and a relative one is exactly `config_directory` joined with it; a non-text `config_directory` fails |
| Config.Directories | config.py:39-43 | `filename` is set; `data_directory` is made absolute; the document and template directories are exactly their settings joined under it; `template` is exactly its setting joined under the template directory; other keys are unchanged |
| Config.Derive | config.py:39-43 | exactly the derived keys are set, and every other key keeps its value |
| Config.Prescriber | config.py:44-55 | without `-p`, the prescriber directory is its setting joined under the data directory and the prescriber is its setting joined under that, with `.json` added; with `-p`, the resolved path is used if it is a file, else the configured name joined under `config_directory`, and `prescriber_directory` is not rebased |
| Config.Derivations | config.py:39-55 | fails only with `TypeError`, exactly when a configured value is not text; the absolute data directory, the document, template and prescriber directories joined under it, the template joined under the template directory, the `.json` prescriber (without `-p`) or the resolved or fallback prescriber (with `-p`); every other key unchanged |
| Config.Configure | config.py:35-55 | a non-object file fails; the result holds the default keys, the file's keys and `filename`; every underived key holds the file's value, else the default; each derived value is built from those settings as `Config.Derivations` states |
| Config.DefaultPrescriber | config.py:44-47 | with the defaults, the prescriber file is `<data>/prescriber/prescriber.json` |
| Text.WithSuffix | config.py:47 | an input that already ends with the suffix is returned unchanged; any other input gets the suffix appended |
| Text.WithSuffixIdempotent | config.py:47 | appending the suffix twice is the same as once |
| Settings.OpenConfiguration | setting.py:83-88 | the in-memory configuration wins over the file's values, and the file adds only its extra keys; a file that cannot be read as an object falls back to the configuration |
| Settings.Checked | setting.py:43-49 | a check box shows the truth of the value; a missing key is `KeyError` |
| Settings.LoadConfiguration | setting.py:39-55 | succeeds exactly when all twelve keys are present and the text ones hold text; each widget shows its key's value, except that the delimiter combo box shows a stored `,` or `;` and otherwise keeps the item it showed before (setting.py:109-110) |
| Settings.FormEntries | setting.py:60-71 | the dialog writes back exactly the twelve edited keys |
| Settings.SaveConfiguration | setting.py:57-78 | without confirmation nothing changes; otherwise exactly the twelve keys are set, the others are kept, and the file is written when writable |
| Settings.ConfigurationRoundTrip | setting.py:39-78 | loading the saved configuration shows the saved form, for every form the dialog can show (its delimiter is one of the combo box's items) and whatever item the combo box showed before |
| Settings.SavedShows | setting.py:57-71 | after a save every one of the twelve keys holds the corresponding widget value, texts as strings and check boxes as booleans |
| Settings.LoadShown | setting.py:39-52 | a dictionary holding the twelve keys with the values of a form whose delimiter is a combo box item loads into exactly that form, whatever item the combo box showed before |
| Settings.UnlistedDelimiterReset | setting.py:39-71 | a stored delimiter other than `,` or `;`, the combo box's only items (setting.py:109-110), leaves the item the combo box showed before, which saving the dialog then stores; on a Reset (setting.py:145-146) that is the user's pick |
| Settings.BuiltDialogUnlistedComma | setting.py:39-71 | on the load right after the widgets are built (setting.py:154), when the combo box shows its first item, a stored delimiter other than `,` or `;` is shown and then saved as `,` |
| Settings.PrescriberWidgets | setting.py:171-176 | succeeds exactly when the six keys hold text, and each widget shows its key |
| Settings.LoadPrescriber | setting.py:163-179 | with no file given, the configured prescriber is used; a missing file is `FileNotFoundError` and keeps the old data |
| Settings.PrescriberEntries | setting.py:186-191 | the saved prescriber holds exactly the six keys with the form values |
| Settings.SavePrescriber | setting.py:181-199 | an explicit file saves without asking; otherwise only after confirmation, to the loaded path; other keys of the prescriber are kept; the loaded file is announced |
| Settings.PrescriberRoundTrip | setting.py:163-199 | loading the saved prescriber shows the saved form |
| Settings.SavedPrescriberReadable | setting.py:181-199 | a saved prescriber file reads back as a prescriber with the form's values |
| Settings.Choose | setting.py:247-266 | select and edit use the file at the name's first occurrence; an unknown name is `ValueError` |
| Settings.Delete | setting.py:268-277 | the default prescriber is refused; any other file is unlinked only when confirmed |
| Settings.NewPrescriberFile | setting.py:253-260 | the smallest k ≥ 1 whose `prescriber{k}.json` does not exist, so the path is always fresh |
| Plugins.Load | plugin.py:24-34 | exactly the directories whose import succeeded become plugins |
| Plugins.Startup | plugin.py:20-22 | a missing `enable_plugin` setting is `KeyError`; plugins load only when it is truthy |
| Plugins.GetName | plugin.py:36-40 | the plugin's `name`, if any, else the module name |
| Plugins.Commands | plugin.py:42-47 | exactly the plugins with a callable `run`, each with its name |
| Plugins.CommandsAppend | plugin.py:42-47 | the menu follows load order: the entries for two lists of plugins are those of the first, then those of the second |
| Plugins.CommandsOne | plugin.py:44-46 | one plugin gives one entry, under its name, exactly when its `run` is callable |
| Plugins.Message | plugin.py:56-57 | a falsy result shows nothing; a text is shown; any other truthy result makes the message box raise, which is logged |
| Plugins.Invoke | plugin.py:49-59 | input is asked first only when the plugin has `input`; a message ends the reply exactly when it is a non-empty text and nothing raised; an exception or a non-text truthy result is logged |
| Plugins.Dispatch | plugin.py:49-95 | every plugin with the hook is called in order; every message shown is a non-empty text that some hook returned |
| Plugins.DispatchAppend | plugin.py:49-95 | dispatch over two lists of plugins is the dispatch over the first followed by the second; one plugin's failure does not stop the rest |
| Plugins.DispatchSkips | plugin.py:49-95 | a plugin without the hook adds nothing |
| Plugins.Run | plugin.py:97-118 | nothing happens without a callable `run`; a background plugin announces itself and starts a worker; otherwise only a truthy text result is shown; every message shown is a non-empty text |
| Plugins.RunOrder | plugin.py:97-118 | the input and file dialogs come before anything else, and at most the last two effects are not dialogs |
| Plugins.Input | plugin.py:120-128 | the typed text only when it is non-empty and confirmed, else `""` |
| Plugins.StartWorker | plugin.py:108-110 | a new worker takes the next index and the others are kept |
| Plugins.Complete | plugin.py:130-133 | a finished worker's slot is cleared and the others are kept |
| Plugins.StartComplete | plugin.py:108-133 | completing a just-started worker clears exactly the slot it was given |
| CustomForms.LoadField | customform.py:30-42 | `text`, `date` and `check` pick their widgets, and any other or missing type is a single line; the entry is `{name: ""}` |
| CustomForms.LoadFields | customform.py:29-42 | one entry and one input per field, aligned |
| CustomForms.LoadForm | customform.py:27-44 | a form without a `form` key re-raises `KeyError` |
| CustomForms.Load | customform.py:20-44 | once every entry of the form directory opens, the entries and inputs stay aligned, and every entry starts empty |
| CustomForms.OpenAll | customform.py:21-26 | every entry is opened in listing order; loading goes on exactly when all open, with each entry's contents in place, and otherwise fails with the error of the first entry that does not open |
| CustomForms.LoadListing | customform.py:20-44 | `load()` fails whenever an entry of the form directory cannot be opened, with the error of the first such entry, and succeeds only when every entry opens |
| CustomForms.LoadAllOpen | customform.py:20-44 | when every entry opens, `load()` reads the forms of the opened files |
| CustomForms.UnopenableFirst | customform.py:21-29 | an entry that cannot be opened fails `load()` with its own error even when a form listed before it is malformed, because every entry is opened before any form is read |
| CustomForms.LoadSkipsUndecoded | customform.py:23-26 | a file that does not parse is skipped |
| CustomForms.LoadOne | customform.py:20-44 | a single form loads exactly as `LoadForm` loads it |
| CustomForms.LoadAppend | customform.py:20-44 | loading two lists of files is loading the first, then the second, and the first failure stops the rest |
| CustomForms.Reading | customform.py:49-56 | check boxes read as booleans and the other widgets as text |
| CustomForms.GetData | customform.py:46-59 | each entry's value becomes its widget's reading; a missing widget stops the loop |
| CustomForms.GetDataIdempotent | customform.py:46-59 | reading twice gives the same data |
| CustomForms.Fill | customform.py:65-75 | each widget keeps its kind |
| CustomForms.SetData | customform.py:61-77 | a falsy argument keeps the existing entries |
| CustomForms.FillGetRoundTrip | customform.py:46-77 | reading back widgets filled from the entries gives the entries |
| Tabular.Row | tabular.py:26 | 21 values in header order with the prescriber's name last; a missing key gives no row |
| Tabular.Rows | tabular.py:21-28 | one row per readable archive with every key, never a partial one |
| Tabular.Export | tabular.py:15-32 | the file is written only when `preset_delimiter` is a one-character text, and then holds the fixed 21-name header and the rows with that delimiter; a missing or unusable delimiter leaves the truncated file empty |
| Tabular.DefaultExportEmpty | tabular.py:18-19 | under the built-in defaults, which lack `preset_delimiter`, the export leaves an empty file |
| Tabular.RowsAppend | tabular.py:21-28 | rows keep the discovery order |
| Tabular.RowsComplete | tabular.py:21-28 | every archive with every key contributes its row |
| Tabular.WrittenPrescriptionSkipped | tabular.py:26 | a prescription as this version writes it has no `pid`, so it is not exported |
| DocumentIndex.Row | index.py:143 | an archive gives a row only if it has all eight keys; the row is those values plus the file |
| DocumentIndex.Build | index.py:134-149 | rows come only from archives with every key, and every such archive gives one; the index starts empty |
| DocumentIndex.BuildNamesFiles | index.py:143 | every row's last cell names the archive it came from |
| DocumentIndex.Visible | index.py:159-160 | a row is shown exactly when its filter column contains the filter text, ignoring case |
| DocumentIndex.FilterPid | index.py:73-77 | clears the other inputs and filters column 0 |
| DocumentIndex.FilterId | index.py:79-83 | clears the other inputs and filters column 1 |
| DocumentIndex.FilterName | index.py:85-89 | clears the other inputs and filters column 2 |
| DocumentIndex.EmptyFilterShowsAll | index.py:159-160 | an empty filter shows every row |
| DocumentIndex.NarrowingHides | index.py:159-160 | a row that passes a filter text also passes any text contained in it, so typing more only hides rows |
| DocumentIndex.FilterCommandsShow | index.py:73-89 | after each filter command, a row is shown exactly when that command's column contains the typed text, ignoring case |
| DocumentIndex.VisibleAppend | index.py:159-160 | filtering keeps the rows' order: filtering two blocks of rows is filtering each in turn |
| DocumentIndex.SelectedFile | index.py:124-132 | the last selected cell, or nothing when the selection is empty |
| DocumentIndex.SelectedRowFile | index.py:124-132 | selecting a built row yields its archive's file |
| DocumentIndex.OpenAsWritten | index.py:102-109 | as written, opening never issues a request |
| DocumentIndex.Open | index.py:102-109 | a non-empty selected file is requested to open, and the index hides |
| DocumentIndex.OpenDiscrepancy | index.py:106 | for every selected built row, the written code opens nothing where the intended code opens the archive |
| DocumentIndex.Copy | index.py:111-121 | only a readable selected file whose document is a dict is copied (the signal is declared `pyqtSignal(dict)`), and then the index hides; every such file is copied |
| Window.SaveAsTarget | window.py:118-121 | an empty name does nothing; a name already ending in `.mpaz` is kept as it is, and any other name gets `.mpaz` appended, so `a.mp` becomes `a.mp.mpaz` |
| Window.SaveAsTargetIdempotent | window.py:120-121 | normalising the name twice is the same as once |
| Window.SaveTarget | window.py:88-98 | a failing suggestion escapes and nothing is saved; declining to modify an unchanged document saves nothing; an existing file is reused; otherwise the dialog's name is normalised, and an empty name aborts |
| Window.NewDocumentTarget | window.py:93-97 | a new document is saved only under a `.mpaz` name |
| Window.UnnamedDocumentNotSaved | window.py:88-89 | with an empty id and a patient name that is not text, saving fails with `TypeError`, even when the file exists |
| Window.SuggestBase | window.py:88-89 | the id if non-empty, else the name, joined under the document directory with `.mpaz` appended; a non-text value is `TypeError` |
| Window.SuggestionAccepted | window.py:88-97 | a suggested name accepted in the dialog is saved under exactly that name |
| Window.Suggest | window.py:115-117 | the suggestion made absolute |
| Window.Copyright | window.py:229-233 | `2023` up to 2023, else `2023-` followed by digits |
| Window.CopyrightYear | window.py:231 | the digits after the dash are the current year |
| Window.PresetInsert | window.py:262-270 | the preset's text, or the typed text when no preset matches, followed by a newline exactly when `preset_newline` is truthy |
| Window.InsertFromTable | window.py:262-270 | choosing a key of a loaded preset file inserts the value of the last row with that key |
| Window.FalseStringAddsNewline | window.py:269 | the string `"False"` is truthy, so it still adds the newline |
| Window.Record | window.py:454 | the state recorded after a save, open or new document passes the gate |
| Window.EditHoldsGates | window.py:137-185 | after an edit that changes the digest, rendering and signing ask to save first and closing needs agreement; recording the edited document lifts all three |
| Window.Render | window.py:137-152 | only a saved document is rendered; it is shown when the renderer returns a target and is a render failure otherwise (the renderer catches every exception, so its `FileNotFoundError` arm cannot fire) |
| Window.Sign | window.py:154-185 | signing proceeds exactly for a saved document |
| Window.RecordedPassesGates | window.py:137-185 | right after recording, signing proceeds, rendering does not ask to save first and closing needs no agreement |
| Window.ConfirmClose | window.py:528-531 | closing proceeds when the document is saved or the user agrees |
| Window.Verify | window.py:192-207 | `False` is invalid; `None` or a missing file is no signature; a text is valid with that text; anything else fails |
| Window.VerifyMessage | window.py:200 | the valid-signature message ends with the signature information |

## Left out

- The signing module is not part of this model. It consists of calls into an S/MIME library, with no logic of its own to check.
- The byte formats are abstracted:
  - zip archives become maps;
  - CSV files become sequences of rows together with the delimiter they were written with;
  - JSON text becomes decoded values;
  - `json.dumps` formatting is not modelled.
- Jinja and Markdown rendering (`Renderer.render`) and date parsing are out of scope. Date parsing is the `showDate` parameter.
- Qt widgets, signals, dialogs and layout are not modelled. Dialog answers and widget contents are parameters.
- The md5 digest is an arbitrary function compared for equality. The initial state, the digest of the empty string, is not singled out.
- Threads are not modelled. This covers the plugin `Worker` thread body, modelled only as slot bookkeeping, and the update check with its network fetch.
- `Plugin.load` imports modules dynamically. The imported modules are given as records of optional capabilities.
- `glob` order, file existence, `os.path.abspath`, `os.path.isfile` and the current directory are parameters.
- `SelectPrescriber.load` is left out: it calls `Prescriber(i)`, but the shown `Prescriber` constructor takes no argument, so the call raises `TypeError` before any name is listed. The chooser's listing is a parameter.
- window.py calls `FileHandler` methods that the shown file handler does not define (`is_signed`, `has_template`, `sign`, `delete_sign`, `verify`, `delete_attachment`, `save(change_template=…)`). It also calls `set_data` with keywords (`pid`, `dob`, …) that the shown `Prescription.set_data` does not accept. Those callers are left out. `Window.Verify` takes the verification result as a parameter.
- `CustomForm`'s lists are class attributes shared by every instance. The model keeps one form's state.
- The rest of window.py is interface wiring and is not modelled.
- Installer copying and deleting on disk are not modelled. `Installer.PlanInstall` describes the steps taken, and `Installer.UninstallDecision` the path deleted.
- Plugins.Load: a failed import is dropped. The logged warning is not modelled.
- Settings.SavePrescriber: the "saved" message and closing the dialog are not modelled. Only the announced file and the written data are.
- DocumentIndex.Visible: case-insensitive matching folds ASCII letters only. Qt's full Unicode folding is not modelled.
- DocumentIndex.CellText: a cell that is not text is shown as empty text. In the source, `QStandardItem(i)` at index.py:157 raises `TypeError` for a float, list or dict cell, so `load` fails; that failure is not modelled.
- Prescriptions.PrescriberFromJson: the source assigns the six fields one by one, so a missing key leaves the fields before it updated. The model returns only the `KeyError`, not that partial update.
- Prescriptions.SetDataFromJson: the source replaces the prescriber and then the fields one by one, so a missing key leaves a partial update. The model returns only the `KeyError`.
- Prescriptions.PrescriberReadFrom: a file whose text is not JSON (`JSONDecodeError`) is not represented, because documents are stored as decoded values; a missing key's partial update is dropped as for `PrescriberFromJson`.
- Prescriptions.ReadFrom: a file whose text is not JSON (`JSONDecodeError`) is not represented, for the same reason; a missing key's partial update is dropped as for `SetDataFromJson`.
- CustomForms.Load: its own contract states only that entries and rows stay aligned and start empty. What is loaded is pinned by `CustomForms.LoadOne` and `CustomForms.LoadAppend`.
- Settings missing from the default configuration (`preset_delimiter`, `enable_plugin`, `enable_form`, `form_directory`, `plugin_directory`) raise `KeyError` in the source when the file does not set them. `PresetEditor` and `Tabular.Export` model a missing `preset_delimiter` as `None`, and `Plugins.Startup` a missing `enable_plugin`. `CustomForms` and `Installer` take these settings as parameters and do not model their absence.
- Presets.Reader: CSV quoting is not modelled. Reading with another delimiter is exact only for cells without quotes, line breaks or the writer's delimiter.
- FileHandler.CopyListedAndSaved: stated for categories other than `template`, because saving overlays the template onto that directory.
- Plugins.StartWorker: the worker's `pluginComplete` signal is declared `(str, int)`. A non-text result emitted from the thread is not modelled.
- Config.Configure: with `-p` it leaves the two prescriber keys to `Config.Derivations` (stated there over the merged map), because the resolved path depends on `isfile` of a path built from the merged settings.

## Findings

| source | as written | input that shows it | evidently intended | confidence | as-written member | corrected member |
|---|---|---|---|---|---|---|
| index.py:106 | `cmd_open` calls `self.signal_open.emit()` with no argument, though the signal is declared `pyqtSignal(str)`. The emit raises `TypeError`, which is caught and logged, so the selected file is never opened and the index stays visible | any selected built row, whose last cell is a non-empty file path | `self.signal_open.emit(file)`, opening the selected archive and hiding the index | high, not executed | DocumentIndex.OpenAsWritten | DocumentIndex.Open |
| preset.py:23 | `Preset.load` opens every preset with `csv.reader(f)`, which splits at `,`. The preset editor writes and reads the same files with `config["preset_delimiter"]` (editpreset.py:57, 89). With any other delimiter the header and each row come back as one cell, so `row[1]` raises `IndexError`, which `load` does not catch | `preset_delimiter` set to `;` and a saved table whose first kept row holds no `,` | `csv.reader(f, delimiter=config["preset_delimiter"])`, so that the saved table reads back as the preset map | medium, not executed | PresetEditor.ForeignDelimiterFails | PresetEditor.SavedPresetMapWith |
