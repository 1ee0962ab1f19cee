/**
 * The document container (`FileHandler`): a scratch workspace holding the
 * files of one open document, saved to and opened from a single archive.
 *
 * The workspace directory is a map from relative path to file contents;
 * directories exist only as prefixes of file paths. An archive is the map of
 * its entries, and the disk maps archive file names to what they hold.
 */
module FileHandler {
  import opened Wrappers
  import opened Json
  import opened Paths

  newtype byte = b: int | 0 <= b < 256

  type Bytes = seq<byte>

  /** A path relative to the workspace root, one element per component. */
  type Path = seq<string>

  /** The files under one directory, by path relative to that directory. */
  type Tree = map<Path, Bytes>

  /** What an archive file on disk holds: zip entries, or something that is not a zip. */
  datatype Stored = Archive(entries: Tree) | NotAZip

  type Disk = map<string, Stored>

  /** The handler: the archive it is bound to and its scratch workspace. */
  datatype Handler = Handler(file: string, workspace: Tree)

  /** The outcome of `save`: the handler afterwards, the disk afterwards and
      the exception that escaped, if any. */
  datatype Saved = Saved(handler: Handler, disk: Disk, error: Option<Error>)

  /** The outcome of `open`: the handler afterwards and the exception that escaped, if any. */
  datatype Opened = Opened(handler: Handler, error: Option<Error>)

  /** `json.dumps({"type":"MedScript", "version":"0.1"})`, as written to `meta.json`. */
  const MetaText: string := "{\"type\": \"MedScript\", \"version\": \"0.1\"}"

  const MetaPath: Path := ["meta.json"]

  const TemplateDir: string := "template"

  const DefaultCategory: string := "attachment"

  /** The bytes of an ASCII text. */
  function Ascii(s: string): (r: Bytes)
    requires forall k :: 0 <= k < |s| ==> s[k] as int < 128
    ensures |r| == |s|
    ensures forall k :: 0 <= k < |s| ==> r[k] as int == s[k] as int
  {
    seq(|s|, k requires 0 <= k < |s| => s[k] as int as byte)
  }

  function MetaBytes(): Bytes
  {
    Ascii(MetaText)
  }

  /** A name `glob` does not match with `*`. */
  predicate Hidden(name: string)
  {
    name != [] && name[0] == '.'
  }

  // A path every component of which a recursive glob for `**` and `*` matches.
  predicate Visible(p: Path)
  {
    forall k :: 0 <= k < |p| ==> !Hidden(p[k])
  }

  // The files of `t` that the recursive glob of the workspace root reaches.
  function VisiblePart(t: Tree): (r: Tree)
    ensures forall p :: p in r <==> p in t && Visible(p)
    ensures forall p :: p in r ==> r[p] == t[p]
  {
    map p | p in t && Visible(p) :: t[p]
  }

  /** `FileHandler(file)`: bound to `file`, with a fresh, empty workspace. */
  function Init(file: string): (h: Handler)
    ensures h.file == file && h.workspace == map[]
  {
    Handler(file, map[])
  }

  /** `set_file`: rebinds the archive and leaves the workspace alone. */
  function SetFile(h: Handler, file: string): (r: Handler)
    ensures r.file == file && r.workspace == h.workspace
  {
    h.(file := file)
  }

  /** The workspace path `copy` writes `source` to. */
  function CopyTarget(source: string, category: string): Path
  {
    [category, Basename(source)]
  }

  /**
   * `copy(source, category)`: stores the source file as
   * `category/basename(source)`. `sameFile` says whether the source already
   * is that workspace file (`shutil.SameFileError`, caught and printed);
   * `data` is the source's contents, `None` when it cannot be read.
   */
  function Copy(h: Handler, source: string, data: Option<Bytes>, sameFile: bool, category: string)
    : (r: Result<Handler, Error>)
    ensures sameFile ==> r == Success(h)
    ensures !sameFile && data.Some? && Basename(source) != [] ==> r.Success?
    ensures !sameFile && data.None? ==> r.Failure?
    ensures r.Success? ==> r.value.file == h.file
    ensures r.Success? && !sameFile ==>
      var dest := CopyTarget(source, category);
      && dest in r.value.workspace && r.value.workspace[dest] == data.value
      && r.value.workspace.Keys == h.workspace.Keys + {dest}
      && (forall p :: p in h.workspace && p != dest ==> r.value.workspace[p] == h.workspace[p])
  {
    if sameFile then Success(h)
    else if Basename(source) == [] then Failure(IsADirectory(source))
    else if data.None? then Failure(FileNotFound(source))
    else Success(h.(workspace := h.workspace[CopyTarget(source, category) := data.value]))
  }

  /** `list(category)`: the non-hidden immediate entries (files or
      sub-directories) of the category's directory, as workspace paths. */
  function List(h: Handler, category: string): (r: set<Path>)
    ensures forall e :: e in r ==> |e| == 2 && e[0] == category && !Hidden(e[1])
    ensures forall p :: p in h.workspace && |p| >= 2 && p[0] == category && !Hidden(p[1]) ==> p[..2] in r
    ensures forall e :: e in r ==> exists p :: p in h.workspace && |p| >= 2 && p[..2] == e
  {
    set p | p in h.workspace && |p| >= 2 && p[0] == category && !Hidden(p[1]) :: p[..2]
  }

  /** The archive a save wrote holds `data` at `p`. */
  predicate Archived(s: Saved, p: Path, data: Bytes)
  {
    && s.handler.file in s.disk && s.disk[s.handler.file].Archive?
    && p in s.disk[s.handler.file].entries && s.disk[s.handler.file].entries[p] == data
  }

  /** A successful save archives every visible workspace file other than
      `meta.json` and those the template overwrites, unchanged. */
  lemma SaveKeeps(h: Handler, p: Path, target: Option<string>, templatePath: string, template: Tree, disk: Disk)
    requires p in h.workspace && Visible(p) && p != MetaPath
    requires p == [] || p[0] != TemplateDir
    ensures Archived(Save(h, target, templatePath, Some(template), true, disk), p, h.workspace[p])
  {
  }

  /** A copied file shows up in its category's listing. */
  lemma CopyListed(h: Handler, source: string, data: Bytes, category: string)
    requires Basename(source) != [] && !Hidden(Basename(source))
    ensures var c := Copy(h, source, Some(data), false, category);
      c.Success? && CopyTarget(source, category) in List(c.value, category)
  {
    var dest := CopyTarget(source, category);
    assert dest[..2] == dest;
  }

  /** A copied file shows up in its category's listing, and a later
      successful save puts its contents into the archive, unless the name is
      hidden from the glob or the category is the one the template is
      copied into. */
  lemma CopyListedAndSaved(h: Handler, source: string, data: Bytes, category: string,
                           target: Option<string>, templatePath: string, template: Tree, disk: Disk)
    requires Basename(source) != [] && !Hidden(category) && !Hidden(Basename(source))
    requires category != TemplateDir
    ensures var c := Copy(h, source, Some(data), false, category);
      && c.Success? && CopyTarget(source, category) in List(c.value, category)
      && Archived(Save(c.value, target, templatePath, Some(template), true, disk), CopyTarget(source, category), data)
  {
    CopyListed(h, source, data, category);
    var c := Copy(h, source, Some(data), false, category).value;
    var dest := CopyTarget(source, category);
    assert Visible(dest) by { assert dest[0] == category && dest[1] == Basename(source); }
    SaveKeeps(c, dest, target, templatePath, template, disk);
  }

  /** A category that holds no file lists as empty. */
  lemma ListAbsent(h: Handler, category: string)
    requires forall p :: p in h.workspace && |p| >= 1 ==> p[0] != category
    ensures List(h, category) == {}
  {
  }

  /** `t` copied under `dir` (`shutil.copytree(src, dir, dirs_exist_ok=True)`):
      files of `t` overwrite same-named files, other files are kept. */
  function Overlay(ws: Tree, dir: string, t: Tree): (r: Tree)
    ensures forall q :: q in t ==> [dir] + q in r && r[[dir] + q] == t[q]
    ensures forall p :: p in ws ==> p in r
    ensures forall p :: p in r ==> p in ws || (|p| >= 1 && p[0] == dir && p[1..] in t)
    ensures forall p :: p in ws && !(|p| >= 1 && p[0] == dir && p[1..] in t) ==> r[p] == ws[p]
  {
    var moved := map p | p in (set q | q in t :: [dir] + q) :: t[p[1..]];
    assert forall q :: q in t ==> ([dir] + q)[1..] == q;
    ws + moved
  }

  /** The workspace `save` archives: `meta.json` (re)written and, when the
      configured template `t` exists, its files copied under `template/`. */
  function Prepared(ws: Tree, t: Option<Tree>): (r: Tree)
    ensures MetaPath in r && r[MetaPath] == MetaBytes()
    ensures t.Some? ==> forall q :: q in t.value ==> [TemplateDir] + q in r && r[[TemplateDir] + q] == t.value[q]
    ensures forall p :: p in ws ==> p in r
    ensures forall p :: p in ws && p != MetaPath && (p == [] || p[0] != TemplateDir) ==> r[p] == ws[p]
  {
    var m := ws[MetaPath := MetaBytes()];
    if t.None? then m
    else
      assert MetaPath[0] != TemplateDir;
      Overlay(m, TemplateDir, t.value)
  }

  /** The disk after zipping the visible files of `ws` into `file`. */
  function Written(disk: Disk, file: string, ws: Tree): (r: Disk)
    ensures r.Keys == disk.Keys + {file}
    ensures r[file] == Archive(VisiblePart(ws))
    ensures forall f :: f in disk && f != file ==> r[f] == disk[f]
  {
    disk[file := Archive(VisiblePart(ws))]
  }

  /**
   * `save(target)`: binds `target` if given, writes `meta.json`, copies the
   * configured template directory (`template`, `None` when it is missing)
   * into `template/`, then zips every visible workspace file into the bound
   * file (`writable` says whether it can be created).
   */
  function Save(h: Handler, target: Option<string>, templatePath: string, template: Option<Tree>,
                writable: bool, disk: Disk): (r: Saved)
    ensures r.handler.file == (if target.Some? then target.value else h.file)
    ensures r.handler.workspace == Prepared(h.workspace, template)
    ensures r.error.None? <==> template.Some? && writable
    ensures r.error.Some? ==> r.disk == disk
    ensures r.error.None? ==> r.disk.Keys == disk.Keys + {r.handler.file}
    ensures r.error.None? ==> r.disk[r.handler.file] == Archive(VisiblePart(r.handler.workspace))
    ensures r.error.None? ==> forall f :: f in disk && f != r.handler.file ==> r.disk[f] == disk[f]
  {
    var handler := Handler(if target.Some? then target.value else h.file, Prepared(h.workspace, template));
    if template.None? then Saved(handler, disk, Some(FileNotFound(templatePath)))
    else if !writable then Saved(handler, disk, Some(FileNotFound(handler.file)))
    else Saved(handler, Written(disk, handler.file, handler.workspace), None)
  }

  /** `open(target)`: binds `target` if given and extracts the bound archive
      over the workspace; archive entries overwrite same-named files. */
  function Open(h: Handler, target: Option<string>, disk: Disk): (r: Opened)
    ensures r.handler.file == (if target.Some? then target.value else h.file)
    ensures r.error.None? <==> r.handler.file in disk && disk[r.handler.file].Archive?
    ensures r.error.Some? ==> r.handler.workspace == h.workspace
    ensures r.error.None? ==>
      var entries := disk[r.handler.file].entries;
      && r.handler.workspace.Keys == h.workspace.Keys + entries.Keys
      && (forall p :: p in entries ==> r.handler.workspace[p] == entries[p])
      && (forall p :: p in h.workspace && p !in entries ==> r.handler.workspace[p] == h.workspace[p])
  {
    var file := if target.Some? then target.value else h.file;
    if file !in disk then Opened(Handler(file, h.workspace), Some(FileNotFound(file)))
    else match disk[file]
      case NotAZip => Opened(Handler(file, h.workspace), Some(BadZipFile(file)))
      case Archive(entries) => Opened(Handler(file, h.workspace + entries), None)
  }

  /** Saving to `f` and opening `f` into a fresh handler reproduces every
      visible file of the saved workspace, and nothing else. */
  lemma SaveOpenRoundTrip(h: Handler, f: string, templatePath: string, template: Tree, disk: Disk, g: string)
    ensures var s := Save(h, Some(f), templatePath, Some(template), true, disk);
      Open(Init(g), Some(f), s.disk) == Opened(Handler(f, VisiblePart(s.handler.workspace)), None)
  {
    var s := Save(h, Some(f), templatePath, Some(template), true, disk);
    OpenFresh(s.disk, f, s.handler.workspace, g);
  }

  lemma OpenFresh(disk: Disk, f: string, ws: Tree, g: string)
    requires f in disk && disk[f] == Archive(VisiblePart(ws))
    ensures Open(Init(g), Some(f), disk) == Opened(Handler(f, VisiblePart(ws)), None)
  {
    assert map[] + VisiblePart(ws) == VisiblePart(ws);
  }

  /** Opening an archive a second time changes nothing more. */
  lemma OpenIdempotent(h: Handler, disk: Disk)
    requires Open(h, None, disk).error.None?
    ensures Open(Open(h, None, disk).handler, None, disk).handler == Open(h, None, disk).handler
  {
  }

  /** Every save replaces an earlier `meta.json` by the current format record. */
  lemma SaveReplacesMeta(h: Handler, templatePath: string, template: Tree, disk: Disk)
    requires MetaPath in h.workspace && h.workspace[MetaPath] != MetaBytes()
    ensures var s := Save(h, None, templatePath, Some(template), true, disk);
      s.disk[h.file].entries[MetaPath] == MetaBytes()
  {
    var s := Save(h, None, templatePath, Some(template), true, disk);
    assert Visible(MetaPath);
  }
}
