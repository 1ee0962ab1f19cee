/** POSIX path helpers of Python's `os.path` on `string` paths. */
module Paths {
  import opened Text

  /** `os.path.isabs(p)`. */
  predicate IsAbs(p: string)
  {
    StartsWith(p, "/")
  }

  /** `os.path.join(a, b)`: an absolute `b` replaces `a`; otherwise a `/` is
      inserted unless `a` is empty or already ends with one. */
  function Join(a: string, b: string): (r: string)
    ensures IsAbs(b) ==> r == b
    ensures !IsAbs(b) ==> EndsWith(r, b)
    ensures !IsAbs(b) && a != [] ==> StartsWith(r, a)
  {
    if IsAbs(b) then b
    else if a == [] || EndsWith(a, "/") then
      EndsWithAppend(a, b);
      a + b
    else
      EndsWithAppend(a + "/", b);
      assert (a + "/" + b)[..|a|] == a;
      a + "/" + b
  }

  /** `os.path.basename(p)`: the text after the last `/`. */
  function Basename(p: string): (r: string)
    ensures '/' !in r
    ensures EndsWith(p, r)
  {
    match LastIndexOf(p, '/')
    case None => p
    case Some(i) => p[i + 1..]
  }

  /** The basename of `dir` joined with a relative, slash-free name is that name. */
  lemma BasenameJoin(dir: string, name: string)
    requires '/' !in name
    ensures Basename(Join(dir, name)) == name
  {
    var j := Join(dir, name);
    NotAbs(name);
    if dir == [] || EndsWith(dir, "/") {
      assert j == dir + name;
      if dir == [] {
        assert j == name;
      } else {
        BasenameAfterSlash(dir, name);
      }
    } else {
      assert j == (dir + "/") + name;
      BasenameAfterSlash(dir + "/", name);
    }
  }

  lemma NotAbs(name: string)
    requires '/' !in name
    ensures !IsAbs(name)
  {
    if |name| >= 1 {
      assert name[..1][0] == name[0];
    }
  }

  lemma BasenameAfterSlash(prefix: string, name: string)
    requires EndsWith(prefix, "/") && '/' !in name
    ensures Basename(prefix + name) == name
  {
    var j := prefix + name;
    assert j[|prefix| - 1] == '/';
    var i := LastIndexOf(j, '/').value;
    assert i >= |prefix| - 1 by {
      assert forall k :: i < k < |j| ==> j[k] == j[i + 1..][k - i - 1];
    }
    assert i <= |prefix| - 1 by {
      assert forall k :: |prefix| <= k < |j| ==> j[k] == name[k - |prefix|];
    }
    assert j[|prefix|..] == name;
  }

  /** The root `os.path.splitext` returns for a slash-free file name: the name
      up to its last `.`, unless only dots precede that `.` (as in `.bashrc`). */
  function Stem(name: string): (r: string)
    ensures StartsWith(name, r)
  {
    match LastIndexOf(name, '.')
    case None => name
    case Some(d) =>
      if exists k :: 0 <= k < d && name[k] != '.' then name[..d] else name
  }

  /** A name `x.ext` not starting with a dot loses exactly its extension. */
  lemma StemDropsExtension(name: string, ext: string)
    requires |ext| >= 1 && ext[0] == '.' && '.' !in ext[1..]
    requires EndsWith(name, ext) && |name| > |ext| && name[0] != '.'
    ensures Stem(name) == name[..|name| - |ext|]
  {
    var d0 := |name| - |ext|;
    assert name[d0] == '.' by { assert name[d0..][0] == ext[0]; }
    var d := LastIndexOf(name, '.').value;
    assert d <= d0 by {
      assert forall k :: d0 < k < |name| ==> name[k] == ext[1..][k - d0 - 1];
    }
    assert d >= d0 by {
      assert forall k :: d < k < |name| ==> name[k] == name[d + 1..][k - d - 1];
    }
    assert 0 < d && name[0] != '.';
  }
}
