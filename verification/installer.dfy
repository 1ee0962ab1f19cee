/**
 * The package installer (`Installer`): which installed presets, templates,
 * forms and plugins are listed, how a list entry is parsed back, and what
 * installing or uninstalling a package decides to do. Directory listings,
 * confirmation dialogs and the copy/delete themselves are inputs or results.
 */
module Installer {
  import opened Wrappers
  import opened Json
  import opened Text
  import opened Paths

  /** Names that are never listed, installed or uninstalled. */
  const Protected: seq<string> := ["note", "report", "advice", "investigation", "medication",
                                   "additional", "certificate", "default", "medcert", "<unchanged>"]

  datatype Kind = PresetKind | TemplateKind | FormKind | PluginKind


  function GroupName(k: Kind): string
  {
    match k
    case PresetKind => "preset"
    case TemplateKind => "template"
    case FormKind => "form"
    case PluginKind => "plugin"
  }

  /** A globbed path. `counts` is whether it qualifies: a template directory
      must hold `index.html`, a plugin directory `main.py`; the `*.csv` and
      `*.json` globs of presets and forms already qualify every match. */
  datatype Candidate = Candidate(path: string, counts: bool)

  /** The name an item goes by: presets and forms drop their extension,
      templates and plugins are named by their directory. */
  function ItemName(k: Kind, path: string): string
  {
    if k == PresetKind || k == FormKind then Stem(Basename(path)) else Basename(path)
  }

  /** The parallel `name` and `path` lists of one group. */
  datatype Group = Group(names: seq<string>, paths: seq<string>)

  /** One value per kind of item. */
  datatype PerKind<T> = PerKind(preset: T, template: T, form: T, plugin: T)
  {
    function Of(k: Kind): T
    {
      match k
      case PresetKind => preset
      case TemplateKind => template
      case FormKind => form
      case PluginKind => plugin
    }
  }

  /** The groups `load` collects. */
  type Catalog = PerKind<Group>

  /** The paths of the qualifying candidates, in glob order. */
  function Qualifying(found: seq<Candidate>): (r: seq<string>)
    ensures forall i :: 0 <= i < |r| ==> Candidate(r[i], true) in found
    ensures forall c :: c in found && c.counts ==> c.path in r
  {
    if found == [] then []
    else if found[0].counts then [found[0].path] + Qualifying(found[1..])
    else Qualifying(found[1..])
  }

  /** One group of `load`: the qualifying candidates, in glob order. */
  function Collect(k: Kind, found: seq<Candidate>): (g: Group)
    ensures |g.names| == |g.paths|
    ensures forall i :: 0 <= i < |g.names| ==> g.names[i] == ItemName(k, g.paths[i])
    ensures forall i :: 0 <= i < |g.paths| ==> Candidate(g.paths[i], true) in found
    ensures forall c :: c in found && c.counts ==> c.path in g.paths
  {
    var paths := Qualifying(found);
    Group(seq(|paths|, i requires 0 <= i < |paths| => ItemName(k, paths[i])), paths)
  }

  /** `"[group]\tname"`, the text of one list entry. */
  function Entry(group: string, name: string): string
  {
    "[" + group + "]\t" + name
  }

  /** The entries one group contributes: its unprotected names, in order. */
  function GroupEntries(k: Kind, names: seq<string>): (r: seq<string>)
    ensures |r| <= |names|
    ensures forall e :: e in r ==> exists n :: n in names && n !in Protected && e == Entry(GroupName(k), n)
    ensures forall n :: n in names && n !in Protected ==> Entry(GroupName(k), n) in r
  {
    if names == [] then []
    else if names[0] in Protected then GroupEntries(k, names[1..])
    else [Entry(GroupName(k), names[0])] + GroupEntries(k, names[1..])
  }

  /**
   * `load()`: collects the four groups from the directory listings and lists
   * every unprotected name of each, presets first, then templates, forms and
   * plugins.
   */
  function Load(presets: seq<Candidate>, templates: seq<Candidate>, forms: seq<Candidate>,
                plugins: seq<Candidate>): (r: (Catalog, seq<string>))
    ensures r.0 == PerKind(Collect(PresetKind, presets), Collect(TemplateKind, templates),
                           Collect(FormKind, forms), Collect(PluginKind, plugins))
    ensures |r.1| <= |r.0.Of(PresetKind).names| + |r.0.Of(TemplateKind).names| + |r.0.Of(FormKind).names|
                     + |r.0.Of(PluginKind).names|
  {
    var c := PerKind(Collect(PresetKind, presets), Collect(TemplateKind, templates),
                     Collect(FormKind, forms), Collect(PluginKind, plugins));
    (c, Listed(c, PresetKind) + Listed(c, TemplateKind) + Listed(c, FormKind) + Listed(c, PluginKind))
  }

  /** The entries group `k` of the catalog contributes. */
  function Listed(c: Catalog, k: Kind): (r: seq<string>)
    ensures |r| <= |c.Of(k).names|
  {
    GroupEntries(k, c.Of(k).names)
  }

  /** An entry of group `k` names an unprotected item of that group. */
  predicate Lists(c: Catalog, k: Kind, e: string)
  {
    exists n :: n in c.Of(k).names && n !in Protected && e == Entry(GroupName(k), n)
  }

  /** An entry of one group's list names an unprotected item of that group,
      and every such item is listed. */
  lemma ListedLists(c: Catalog, k: Kind, e: string)
    ensures e in Listed(c, k) <==> Lists(c, k, e)
  {
  }

  /** Every listed entry names an unprotected item of its own group, and
      every unprotected item is listed. */
  lemma LoadLists(presets: seq<Candidate>, templates: seq<Candidate>, forms: seq<Candidate>,
                  plugins: seq<Candidate>, e: string)
    ensures var r := Load(presets, templates, forms, plugins);
      e in r.1 <==> Lists(r.0, PresetKind, e) || Lists(r.0, TemplateKind, e)
                    || Lists(r.0, FormKind, e) || Lists(r.0, PluginKind, e)
  {
    var r := Load(presets, templates, forms, plugins);
    var c := r.0;
    assert r.1 == Listed(c, PresetKind) + Listed(c, TemplateKind) + Listed(c, FormKind) + Listed(c, PluginKind);
    ListedLists(c, PresetKind, e);
    ListedLists(c, TemplateKind, e);
    ListedLists(c, FormKind, e);
    ListedLists(c, PluginKind, e);
  }

  /** The entry text `cmd_uninstall` splits: the name after the first tab and
      the group with every `[` and `]` removed. No tab is an `IndexError`. */
  function ParseEntry(txt: string): (r: Result<(string, string), Error>)
    ensures r.Success? <==> '\t' in txt
    ensures r.Success? ==> '\t' !in r.value.1 && '[' !in r.value.0 && ']' !in r.value.0
  {
    var parts := Split(txt, '\t');
    if |parts| < 2 then
      assert '\t' !in txt by { CountZero(txt, '\t'); }
      Failure(IndexError)
    else
      assert '\t' in txt by { CountZero(txt, '\t'); }
      var group := RemoveAll(RemoveAll(parts[0], "["), "]");
      RemoveAllDrops(parts[0], '[');
      RemoveAllDrops(RemoveAll(parts[0], "["), ']');
      RemoveAllKeeps(RemoveAll(parts[0], "["), ']', '[');
      Success((group, parts[1]))
  }

  lemma {:induction false} CountZero(s: string, c: char)
    ensures Count(s, c) == 0 <==> c !in s
  {
    if s != [] {
      CountZero(s[1..], c);
      assert s == [s[0]] + s[1..];
    }
  }

  /** `s.replace(c, "")` leaves no `c`. */
  lemma {:induction false} RemoveAllDrops(s: string, c: char)
    ensures c !in RemoveAll(s, [c])
    decreases |s|
  {
    if |s| >= 1 {
      if s[..1] == [c] {
        RemoveAllDrops(s[1..], c);
      } else {
        RemoveAllDrops(s[1..], c);
        assert s[0] != c by { assert s[..1][0] == s[0]; }
      }
    }
  }

  /** `s.replace(c, "")` adds no character. */
  lemma {:induction false} RemoveAllKeeps(s: string, c: char, d: char)
    requires d !in s
    ensures d !in RemoveAll(s, [c])
    decreases |s|
  {
    if |s| >= 1 {
      RemoveAllKeeps(s[1..], c, d);
    }
  }

  /** Parsing an entry gives back its group and name, for a tab-free name and
      a group without tabs or brackets. */
  lemma EntryRoundTrip(group: string, name: string)
    requires '\t' !in name && '\t' !in group && '[' !in group && ']' !in group
    ensures ParseEntry(Entry(group, name)) == Success((group, name))
  {
    var head := "[" + group + "]";
    assert '\t' !in head;
    assert Entry(group, name) == head + ['\t'] + name;
    SplitPrefix(head, name, '\t');
    SplitNoSep(name, '\t');
    assert Split(Entry(group, name), '\t') == [head, name];
    assert RemoveAll(head, "[") == group + "]" by {
      assert head[..1] == "[" && head[1..] == group + "]";
      assert forall k :: !OccursAt(group + "]", "[", k) by {
        forall k ensures !OccursAt(group + "]", "[", k) {
          if 0 <= k < |group| + 1 {
            assert (group + "]")[k..k + 1][0] == (group + "]")[k];
          }
        }
      }
      RemoveAllAbsent(group + "]", "[");
    }
    RemoveAllKeepsHead(group, "]", "]");
    assert RemoveAll("]", "]") == "" by { assert "]"[..1] == "]" && "]"[1..] == ""; }
    assert group + "" == group;
  }

  /** The decision `cmd_uninstall` takes for a selected entry. */
  datatype Uninstall = Refused | Delete(path: string) | Keep

  function KindOf(group: string): Option<Kind>
  {
    if group == "preset" then Some(PresetKind)
    else if group == "template" then Some(TemplateKind)
    else if group == "form" then Some(FormKind)
    else if group == "plugin" then Some(PluginKind)
    else None
  }

  /**
   * `cmd_uninstall()` on the selected entry text: a protected name is refused
   * and nothing is touched; otherwise, if confirmed, the path recorded for
   * the name's first occurrence in its group is deleted. A name missing from
   * its group raises `ValueError` (`list.index`).
   */
  function UninstallDecision(c: Catalog, txt: string, confirmed: bool): (r: Result<Uninstall, Error>)
    ensures ParseEntry(txt).Failure? ==> r.Failure?
    ensures ParseEntry(txt).Success? && ParseEntry(txt).value.1 in Protected ==> r == Success(Refused)
    ensures r == Success(Refused) ==> ParseEntry(txt).value.1 in Protected
    ensures !confirmed ==> !(r.Success? && r.value.Delete?)
    ensures r.Success? && r.value.Delete? ==>
      var (group, name) := ParseEntry(txt).value;
      && confirmed && name !in Protected && KindOf(group).Some?
      && var g := c.Of(KindOf(group).value);
      && IndexOf(g.names, name).Some? && IndexOf(g.names, name).value < |g.paths|
      && r.value.path == g.paths[IndexOf(g.names, name).value]
  {
    var (group, name) :- ParseEntry(txt);
    if name in Protected then Success(Refused)
    else match KindOf(group)
      case None => Success(Keep)
      case Some(k) =>
        if !confirmed then Success(Keep)
        else
          var g := c.Of(k);
          match IndexOf(g.names, name)
          case None => Failure(ValueError)
          case Some(i) => if i < |g.paths| then Success(Delete(g.paths[i])) else Failure(IndexError)
  }

  /** One step `cmd_install` takes for a package item. */
  datatype Step =
    | Install(kind: Kind, name: string, source: string, dest: string)
    | AlreadyInstalled(kind: Kind, name: string)

  /** Where an item is copied: presets and forms into the directory,
      templates and plugins to a directory of their own name. */
  function Destination(k: Kind, dir: string, name: string): string
  {
    if k == PresetKind || k == FormKind then dir else Join(dir, name)
  }

  /** A qualifying candidate whose name is not protected. */
  predicate Eligible(k: Kind, c: Candidate)
  {
    c.counts && ItemName(k, c.path) !in Protected
  }

  /**
   * The steps `cmd_install` takes for one group of a package: protected
   * names are skipped silently, installed names are reported without a
   * copy, other names are copied when the user confirms. Names within one
   * group of a package are distinct (they come from one directory), so the
   * catalog refresh after each copy does not change later decisions of that
   * group, and `installed` is the group's names at the start.
   */
  function PlanGroup(k: Kind, found: seq<Candidate>, installed: seq<string>,
                     confirm: string -> bool, dir: string): (r: seq<Step>)
    ensures forall s :: s in r ==> s.kind == k && s.name !in Protected
    ensures forall s :: s in r && s.Install? ==>
      s.name !in installed && confirm(s.name) && Candidate(s.source, true) in found
      && s.name == ItemName(k, s.source) && s.dest == Destination(k, dir, s.name)
    ensures forall s :: s in r && s.AlreadyInstalled? ==> s.name in installed
    ensures forall c :: c in found && Eligible(k, c) && ItemName(k, c.path) in installed ==>
      AlreadyInstalled(k, ItemName(k, c.path)) in r
    ensures forall c :: c in found && Eligible(k, c) && ItemName(k, c.path) !in installed ==>
      confirm(ItemName(k, c.path)) ==>
      Install(k, ItemName(k, c.path), c.path, Destination(k, dir, ItemName(k, c.path))) in r
  {
    if found == [] then []
    else
      var rest := PlanGroup(k, found[1..], installed, confirm, dir);
      var c := found[0];
      var name := ItemName(k, c.path);
      if !c.counts || name in Protected then rest
      else if name in installed then [AlreadyInstalled(k, name)] + rest
      else if confirm(name) then [Install(k, name, c.path, Destination(k, dir, name))] + rest
      else rest
  }

  /** `cmd_install()`: presets, then templates, forms and plugins. `dirs` are
      the configured preset, template, form and plugin directories. */
  function PlanInstall(c: Catalog, p: PerKind<seq<Candidate>>, confirm: string -> bool,
                       dirs: PerKind<string>): (r: seq<Step>)
    ensures forall s :: s in r ==> s.name !in Protected
    ensures forall s :: s in r && s.Install? ==>
      s.name !in c.Of(s.kind).names && confirm(s.name) && Candidate(s.source, true) in p.Of(s.kind)
    ensures forall s :: s in r && s.AlreadyInstalled? ==> s.name in c.Of(s.kind).names
    ensures forall s :: s in r && s.Install? ==>
      s.name == ItemName(s.kind, s.source) && s.dest == Destination(s.kind, dirs.Of(s.kind), s.name)
  {
    PlanKind(PresetKind, c, p, confirm, dirs) + PlanKind(TemplateKind, c, p, confirm, dirs)
    + PlanKind(FormKind, c, p, confirm, dirs) + PlanKind(PluginKind, c, p, confirm, dirs)
  }

  function PlanKind(k: Kind, c: Catalog, p: PerKind<seq<Candidate>>, confirm: string -> bool,
                    dirs: PerKind<string>): (r: seq<Step>)
    ensures forall s :: s in r ==> s.kind == k && s.name !in Protected
    ensures forall s :: s in r && s.Install? ==>
      s.name !in c.Of(k).names && confirm(s.name) && Candidate(s.source, true) in p.Of(k)
    ensures forall s :: s in r && s.AlreadyInstalled? ==> s.name in c.Of(k).names
    ensures forall s :: s in r && s.Install? ==>
      s.name == ItemName(k, s.source) && s.dest == Destination(k, dirs.Of(k), s.name)
    ensures forall f :: f in p.Of(k) && Eligible(k, f) && ItemName(k, f.path) in c.Of(k).names ==>
      AlreadyInstalled(k, ItemName(k, f.path)) in r
    ensures forall f :: f in p.Of(k) && Eligible(k, f) && ItemName(k, f.path) !in c.Of(k).names ==>
      confirm(ItemName(k, f.path)) ==>
      Install(k, ItemName(k, f.path), f.path, Destination(k, dirs.Of(k), ItemName(k, f.path))) in r
  {
    PlanGroup(k, p.Of(k), c.Of(k).names, confirm, dirs.Of(k))
  }

  /** Every eligible candidate of every kind is planned: as already
      installed when its name is taken, else as an install to its
      destination once confirmed. */
  lemma PlanInstallComplete(c: Catalog, p: PerKind<seq<Candidate>>, confirm: string -> bool,
                            dirs: PerKind<string>, k: Kind, f: Candidate)
    requires f in p.Of(k) && Eligible(k, f)
    ensures var r := PlanInstall(c, p, confirm, dirs); var name := ItemName(k, f.path);
      && (name in c.Of(k).names ==> AlreadyInstalled(k, name) in r)
      && (name !in c.Of(k).names && confirm(name) ==> Install(k, name, f.path, Destination(k, dirs.Of(k), name)) in r)
  {
    var a, b, d, e := PlanKind(PresetKind, c, p, confirm, dirs), PlanKind(TemplateKind, c, p, confirm, dirs),
                      PlanKind(FormKind, c, p, confirm, dirs), PlanKind(PluginKind, c, p, confirm, dirs);
    assert PlanInstall(c, p, confirm, dirs) == a + b + d + e;
  }

  /** Preset and form names are the file name without its extension. */
  lemma PresetNameDropsExtension(dir: string, file: string, ext: string)
    requires |ext| >= 1 && ext[0] == '.' && '.' !in ext[1..] && EndsWith(file, ext) && |file| > |ext|
    requires '/' !in file && file[0] != '.'
    ensures ItemName(PresetKind, Join(dir, file)) == file[..|file| - |ext|]
  {
    BasenameJoin(dir, file);
    StemDropsExtension(file, ext);
  }
}
