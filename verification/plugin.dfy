/**
 * The plugin host (`plugin`): which plugins load, the names and commands
 * they contribute, and what happens when the host dispatches a
 * prescription event to them. Plugin code itself is not visible, so each
 * plugin is described by the attributes it has and by what its hooks
 * return or raise.
 */
module Plugins {
  import opened Wrappers
  import opened Json
  import opened Seqs

  /** One attribute of a plugin module as the host probes it. */
  datatype Call =
    | Missing          // `hasattr` is false
    | NotCallable      // present but `callable` is false
    | Returns(v: Value)
    | Raises

  predicate Callable(c: Call)
  {
    c.Returns? || c.Raises?
  }

  /** The four prescription events the window forwards to every plugin. */
  datatype Event = New | Open | Save | Refresh

  /** A loaded plugin: its `__name__`, its optional `name` attribute, its
      event hooks, its `input`, `fileopen`, `filesave` and `run` hooks, and
      its optional `background` flag. */
  datatype Module = Module(
    moduleName: string, name: Option<Value>, hooks: map<Event, Call>,
    input: Call, fileopen: Call, filesave: Call, run: Call, background: Option<Value>)
  {
    function Hook(e: Event): Call
    {
      if e in hooks then hooks[e] else Missing
    }
  }

  /** A directory entry under the plugin directory: whether it is a
      directory and, if importing its `main.py` succeeds, the module. */
  datatype Found = Found(path: string, isDir: bool, imported: Option<Module>)

  /** `load()`: every directory whose `main.py` imports, in listing order;
      failures are logged and skipped. */
  function Load(found: seq<Found>): (r: seq<Module>)
    ensures |r| <= |found|
    ensures forall m :: m in r <==> exists f :: f in found && f.isDir && f.imported == Some(m)
  {
    if found == [] then []
    else
      var rest := Load(found[1..]);
      assert forall f :: f in found <==> f == found[0] || f in found[1..];
      if found[0].isDir && found[0].imported.Some? then [found[0].imported.value] + rest else rest
  }

  /** Plugins are loaded only when enabled in the configuration. The
      defaults have no `enable_plugin`, so a configuration file without it
      (`None`) makes the host's constructor raise `KeyError`. */
  function Startup(enabled: Option<Value>, found: seq<Found>): (r: Result<seq<Module>, Error>)
    ensures enabled.None? <==> r.Failure?
    ensures enabled.None? ==> r.error == KeyError("enable_plugin")
    ensures enabled.Some? && !Truthy(enabled.value) ==> r == Success([])
    ensures enabled.Some? && Truthy(enabled.value) ==> r == Success(Load(found))
  {
    match enabled
    case None => Failure(KeyError("enable_plugin"))
    case Some(v) => if Truthy(v) then Success(Load(found)) else Success([])
  }

  /** `get_name(mod)`: the `name` attribute, else the module name. */
  function GetName(m: Module): (r: Value)
    ensures m.name.Some? ==> r == m.name.value
    ensures m.name.None? ==> r == Str(m.moduleName)
  {
    match m.name
    case Some(v) => v
    case None => Str(m.moduleName)
  }

  /** One entry of the plugin menu: the plugin and its display name. */
  datatype Command = Command(plugin: Module, title: Value)

  /** `commands()`: one menu entry per plugin with a callable `run`, in order. */
  function Commands(plugins: seq<Module>): (r: seq<Command>)
    ensures |r| <= |plugins|
    ensures forall c :: c in r ==> c.plugin in plugins && Callable(c.plugin.run) && c.title == GetName(c.plugin)
    ensures forall m :: m in plugins && Callable(m.run) ==> Command(m, GetName(m)) in r
  {
    if plugins == [] then []
    else
      var rest := Commands(plugins[1..]);
      if Callable(plugins[0].run) then [Command(plugins[0], GetName(plugins[0]))] + rest else rest
  }

  /** The menu lists the plugins in load order: the entries for two lists
      of plugins are those of the first followed by those of the second. */
  lemma {:induction false} CommandsAppend(a: seq<Module>, b: seq<Module>)
    ensures Commands(a + b) == Commands(a) + Commands(b)
  {
    if a == [] {
      assert a + b == b;
    } else {
      assert (a + b)[0] == a[0] && (a + b)[1..] == a[1..] + b;
      CommandsAppend(a[1..], b);
    }
  }

  /** One plugin gives one entry, under its name, exactly when its `run` is callable. */
  lemma CommandsOne(m: Module)
    ensures Commands([m]) == if Callable(m.run) then [Command(m, GetName(m))] else []
  {
    assert [m][1..] == [];
  }

  /** What the user sees of a dispatch. */
  datatype Effect =
    | AskedInput(plugin: string)   // the input dialog shown for this plugin
    | AskedFile(plugin: string)    // a file dialog shown for this plugin
    | Showed(message: Value)       // an information box
    | Logged(plugin: string)       // an exception logged as a warning
    | Started(plugin: string)      // a background worker started

  /** A message the information box displays: a non-empty `str`. */
  predicate Displayable(v: Value)
  {
    v.Str? && v.s != []
  }

  /** What a hook's returned message adds: nothing when it is falsy, the
      information box for a non-empty `str`, and a logged warning for any
      other truthy value, which `QMessageBox.information` rejects with
      `TypeError`. */
  function Message(name: string, message: Value): (r: seq<Effect>)
    ensures !Truthy(message) ==> r == []
    ensures Displayable(message) ==> r == [Showed(message)]
    ensures Truthy(message) && !message.Str? ==> r == [Logged(name)]
  {
    if !Truthy(message) then []
    else if message.Str? then [Showed(message)]
    else [Logged(name)]
  }

  /** The effects of `hook` on one plugin: the input dialog first when the
      plugin takes input, then the hook's message if it is truthy. An
      exception from either, or from showing the message, is logged and
      ends that plugin's turn. */
  function Invoke(m: Module, hook: Call): (r: seq<Effect>)
    requires Callable(hook)
    ensures |r| <= 2
    ensures Callable(m.input) ==> r != [] && r[0] == AskedInput(m.moduleName)
    ensures (m.input.Raises? || hook.Raises? || (hook.Returns? && Truthy(hook.v) && !hook.v.Str?)) <==>
      (r != [] && r[|r| - 1] == Logged(m.moduleName))
    ensures (!m.input.Raises? && hook.Returns? && Displayable(hook.v)) <==> (r != [] && r[|r| - 1].Showed?)
    ensures forall e :: e in r && e.Showed? ==> Displayable(e.message) && hook == Returns(e.message)
  {
    var asked := if Callable(m.input) then [AskedInput(m.moduleName)] else [];
    if m.input.Raises? then asked + [Logged(m.moduleName)]
    else match hook
      case Raises => asked + [Logged(m.moduleName)]
      case Returns(message) => asked + Message(m.moduleName, message)
  }

  /** `new`, `open`, `save` and `refresh`: every plugin with a callable
      hook for the event, in order; one plugin's failure does not stop the
      others. */
  function Dispatch(plugins: seq<Module>, e: Event): (r: seq<Effect>)
    ensures |r| <= 2 * |plugins|
    ensures forall x :: x in r && x.Showed? ==> exists m :: m in plugins && m.Hook(e) == Returns(x.message)
    ensures forall x :: x in r && x.Showed? ==> Displayable(x.message)
  {
    DispatchFrom(plugins, e);
    Concat(Replies(e), plugins)
  }

  /** Each plugin's reply to `e`. */
  function Replies(e: Event): Module -> seq<Effect>
  {
    m => Reply(m, e)
  }

  /** A dispatch holds at most two effects per plugin, and every message
      shown is a non-empty `str` some plugin's hook returned. */
  lemma {:induction false} DispatchFrom(plugins: seq<Module>, e: Event)
    ensures |Concat(Replies(e), plugins)| <= 2 * |plugins|
    ensures forall x :: x in Concat(Replies(e), plugins) && x.Showed? ==>
      Displayable(x.message) && exists m :: m in plugins && m.Hook(e) == Returns(x.message)
  {
    if plugins != [] {
      var rest := Concat(Replies(e), plugins[1..]);
      DispatchFrom(plugins[1..], e);
      assert Concat(Replies(e), plugins) == Reply(plugins[0], e) + rest;
      forall x | x in Concat(Replies(e), plugins) && x.Showed?
        ensures Displayable(x.message) && exists m :: m in plugins && m.Hook(e) == Returns(x.message)
      {
        if x !in rest {
          assert plugins[0] in plugins;
        } else {
          var m :| m in plugins[1..] && m.Hook(e) == Returns(x.message);
          assert m in plugins;
        }
      }
    }
  }

  /** What one plugin adds to a dispatch: nothing unless it has the hook. */
  function Reply(m: Module, e: Event): (r: seq<Effect>)
    ensures |r| <= 2
    ensures forall x :: x in r && x.Showed? ==> m.Hook(e) == Returns(x.message) && Displayable(x.message)
  {
    if Callable(m.Hook(e)) then Invoke(m, m.Hook(e)) else []
  }

  /** Dispatching to two lists of plugins is dispatching to each in turn. */
  lemma DispatchAppend(a: seq<Module>, b: seq<Module>, e: Event)
    ensures Dispatch(a + b, e) == Dispatch(a, e) + Dispatch(b, e)
  {
    ConcatAppend(Replies(e), a, b);
  }

  /** A plugin without the event's hook adds nothing to a dispatch. */
  lemma DispatchSkips(plugins: seq<Module>, m: Module, e: Event)
    requires !Callable(m.Hook(e))
    ensures Dispatch(plugins + [m], e) == Dispatch(plugins, e)
  {
    DispatchAppend(plugins, [m], e);
    assert Replies(e)(m) == Reply(m, e) == [];
    assert [m][1..] == [];
    assert Concat(Replies(e), [m]) == Replies(e)(m) + Concat(Replies(e), []);
  }

  /**
   * `run(module, prescription)` for a plugin with a callable `run`: input,
   * open-file and save-file dialogs for the hooks it has, then either a
   * background worker (announced first) or the message `run` returns. An
   * exception anywhere is logged and ends the run.
   */
  function Run(m: Module): (r: seq<Effect>)
    ensures !Callable(m.run) ==> r == []
    ensures (Callable(m.run) && m.background.Some? && Truthy(m.background.value) && !m.input.Raises?
             && !m.fileopen.Raises? && !m.filesave.Raises?) ==>
      r != [] && r[|r| - 1] == Started(m.moduleName)
    ensures forall x :: x in r && x.Showed? && x.message != Str(BackgroundNotice(m)) ==>
      m.run == Returns(x.message) && Displayable(x.message)
    ensures forall x :: x in r && x.Showed? ==> Displayable(x.message)
  {
    if !Callable(m.run) then []
    else
      var asked := if Callable(m.input) then [AskedInput(m.moduleName)] else [];
      if m.input.Raises? then asked + [Logged(m.moduleName)]
      else
        var picked := if Callable(m.fileopen) then asked + [AskedFile(m.moduleName)] else asked;
        if m.fileopen.Raises? then picked + [Logged(m.moduleName)]
        else
          var saved := if Callable(m.filesave) then picked + [AskedFile(m.moduleName)] else picked;
          if m.filesave.Raises? then saved + [Logged(m.moduleName)]
          else if m.background.Some? && Truthy(m.background.value) then
            saved + [Showed(Str(BackgroundNotice(m))), Started(m.moduleName)]
          else match m.run
            case Raises => saved + [Logged(m.moduleName)]
            case Returns(message) => saved + Message(m.moduleName, message)
  }

  /** A dialog asking the user for input or a file. */
  predicate Dialog(x: Effect)
  {
    x.AskedInput? || x.AskedFile?
  }

  /** Every dialog comes before every other effect. */
  predicate DialogsFirst(r: seq<Effect>)
  {
    forall i, j :: 0 <= i < j < |r| && Dialog(r[j]) ==> Dialog(r[i])
  }

  /** Dialogs followed by at most two other effects keep the dialogs first. */
  lemma Ordered(dialogs: seq<Effect>, tail: seq<Effect>)
    requires forall x :: x in dialogs ==> Dialog(x)
    requires forall x :: x in tail ==> !Dialog(x)
    requires |tail| <= 2
    ensures DialogsFirst(dialogs + tail)
    ensures forall i :: 0 <= i < |dialogs + tail| && !Dialog((dialogs + tail)[i]) ==> i >= |dialogs + tail| - 2
  {
    var r := dialogs + tail;
    forall i | 0 <= i < |r|
      ensures Dialog(r[i]) <==> i < |dialogs|
    {
      if i < |dialogs| { assert r[i] in dialogs; } else { assert r[i] == tail[i - |dialogs|]; assert r[i] in tail; }
    }
  }

  /** A run asks for all its input and files before it shows, logs or
      starts anything, and ends with at most two such effects. */
  lemma RunOrder(m: Module)
    ensures DialogsFirst(Run(m))
    ensures forall i :: 0 <= i < |Run(m)| && !Dialog(Run(m)[i]) ==> i >= |Run(m)| - 2
  {
    if Callable(m.run) {
      var asked := if Callable(m.input) then [AskedInput(m.moduleName)] else [];
      var picked := if Callable(m.fileopen) then asked + [AskedFile(m.moduleName)] else asked;
      var saved := if Callable(m.filesave) then picked + [AskedFile(m.moduleName)] else picked;
      var logged := [Logged(m.moduleName)];
      if m.input.Raises? {
        assert Run(m) == asked + logged;
        Ordered(asked, logged);
      } else if m.fileopen.Raises? {
        assert Run(m) == picked + logged;
        Ordered(picked, logged);
      } else if m.filesave.Raises? {
        assert Run(m) == saved + logged;
        Ordered(saved, logged);
      } else if m.background.Some? && Truthy(m.background.value) {
        assert Run(m) == saved + [Showed(Str(BackgroundNotice(m))), Started(m.moduleName)];
        Ordered(saved, [Showed(Str(BackgroundNotice(m))), Started(m.moduleName)]);
      } else if m.run.Raises? {
        assert Run(m) == saved + logged;
        Ordered(saved, logged);
      } else {
        assert Run(m) == saved + Message(m.moduleName, m.run.v);
        Ordered(saved, Message(m.moduleName, m.run.v));
      }
    }
  }

  /** The notice shown before a background run. */
  function BackgroundNotice(m: Module): string
  {
    "Module " + m.moduleName + " will run in background."
  }

  /** `input()`: the text entered when the dialog is accepted with some
      text, else the empty string. */
  function Input(text: string, ok: bool): (r: string)
    ensures r != [] <==> text != [] && ok
    ensures r != [] ==> r == text
  {
    if text != [] && ok then text else ""
  }

  /** The background workers: a slot per started worker, cleared when the
      worker's completion message has been shown. */
  datatype Workers = Workers(slots: seq<bool>)

  /** Starting a worker takes the next slot; its index is the old length. */
  function StartWorker(w: Workers): (r: (Workers, nat))
    ensures r.1 == |w.slots| && |r.0.slots| == |w.slots| + 1
    ensures r.0.slots[r.1] && r.0.slots[..r.1] == w.slots
  {
    (Workers(w.slots + [true]), |w.slots|)
  }

  /** `showMessage(message, index)`: clears that worker's slot only. */
  function Complete(w: Workers, index: nat): (r: Workers)
    requires index < |w.slots|
    ensures |r.slots| == |w.slots| && !r.slots[index]
    ensures forall i :: 0 <= i < |w.slots| && i != index ==> r.slots[i] == w.slots[i]
  {
    Workers(w.slots[index := false])
  }

  /** A started worker's completion clears exactly the slot it was given. */
  lemma StartComplete(w: Workers)
    ensures var (started, index) := StartWorker(w);
      Complete(started, index).slots == w.slots + [false]
  {
  }
}
