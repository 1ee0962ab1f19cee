/**
 * Python values as they travel through the program: decoded JSON documents,
 * dictionary entries and the values of configuration keys. The textual JSON
 * format itself is not modelled; a file "holds" a decoded value.
 */
module Json {
  import opened Wrappers

  /** A decoded JSON value. Floating-point numbers are not modelled. */
  datatype Value =
    | Null
    | Bool(b: bool)
    | Num(n: int)
    | Str(s: string)
    | Arr(items: seq<Value>)
    | Obj(fields: map<string, Value>)

  /** The Python exceptions the modelled code can raise or catch. */
  datatype Error =
    | KeyError(key: string)
    | TypeError
    | AttributeError
    | IndexError
    | ValueError
    | StopIteration
    | FileNotFound(path: string)
    | SameFileError
    | IsADirectory(path: string)
    | PermissionDenied(path: string)
    | BadZipFile(path: string)

  /** JSON files by path, each holding the value it decodes to. */
  type Documents = map<string, Value>

  /** Python's truth value of a decoded value (`if value:`). */
  predicate Truthy(v: Value)
  {
    match v
    case Null => false
    case Bool(b) => b
    case Num(n) => n != 0
    case Str(s) => s != []
    case Arr(items) => items != []
    case Obj(fields) => fields != map[]
  }

  /** Python's `v[key]` with a string key: a dict lookup, a `KeyError` for a
      missing key, a `TypeError` for anything that is not a dict. */
  function Get(v: Value, key: string): (r: Result<Value, Error>)
    ensures r.Success? <==> v.Obj? && key in v.fields
    ensures r.Success? ==> r.value == v.fields[key]
    ensures r.Failure? && v.Obj? ==> r.error == KeyError(key)
    ensures r.Failure? && !v.Obj? ==> r.error == TypeError
  {
    match v
    case Obj(fields) => if key in fields then Success(fields[key]) else Failure(KeyError(key))
    case _ => Failure(TypeError)
  }

  /** True when `v` is a dict holding every key of `keys`. */
  predicate HasKeys(v: Value, keys: seq<string>)
  {
    v.Obj? && forall i :: 0 <= i < |keys| ==> keys[i] in v.fields
  }

  /** Looks up `keys` in order, as a list display `[v[k0], v[k1], ...]` does:
      the first missing key raises and no partial list is produced. */
  function GetAll(v: Value, keys: seq<string>): (r: Result<seq<Value>, Error>)
    ensures r.Success? <==> HasKeys(v, keys)
    ensures r.Success? ==> |r.value| == |keys|
    ensures r.Success? ==> forall i :: 0 <= i < |keys| ==> r.value[i] == v.fields[keys[i]]
  {
    if keys == [] then
      if v.Obj? then Success([]) else Failure(TypeError)
    else
      var head :- Get(v, keys[0]);
      var tail :- GetAll(v, keys[1..]);
      Success([head] + tail)
  }

  /** A value used where Python needs a `str` (`os.path.join`, `str.endswith`):
      anything else raises `TypeError`. */
  function AsStr(v: Value): (r: Result<string, Error>)
    ensures r.Success? <==> v.Str?
    ensures r.Success? ==> v == Str(r.value)
    ensures r.Failure? ==> r.error == TypeError
  {
    if v.Str? then Success(v.s) else Failure(TypeError)
  }

  /** `m[key]` used as a `str`. */
  function StrAt(m: map<string, Value>, key: string): (r: Result<string, Error>)
    ensures r.Success? <==> key in m && m[key].Str?
    ensures r.Success? ==> m[key] == Str(r.value)
    ensures r.Failure? && key !in m ==> r.error == KeyError(key)
  {
    var v :- Get(Obj(m), key);
    AsStr(v)
  }
}
