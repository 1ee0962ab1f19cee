/**
 * The Python string operations the program relies on, on `seq<char>`:
 * `str.strip()`, `str.split(sep)`, `str.splitlines()`, `str.replace(old, "")`
 * and `str.endswith`.
 */
module Text {
  import opened Wrappers

  /** Python's `str.isspace()` for one character: the characters `str.strip()` removes. */
  predicate IsSpace(c: char)
  {
    c == ' ' || c == '\t' || c == '\n' || c == '\r' || c == '\U{0B}' || c == '\U{0C}'
    || ('\U{1C}' <= c <= '\U{1F}') || c == '\U{85}' || c == '\U{A0}' || c == '\U{1680}'
    || ('\U{2000}' <= c <= '\U{200A}') || c == '\U{2028}' || c == '\U{2029}'
    || c == '\U{202F}' || c == '\U{205F}' || c == '\U{3000}'
  }

  predicate AllSpace(s: string)
  {
    forall k :: 0 <= k < |s| ==> IsSpace(s[k])
  }

  /** True when `s` has neither leading nor trailing whitespace. */
  predicate Trimmed(s: string)
  {
    s == [] || (!IsSpace(s[0]) && !IsSpace(s[|s| - 1]))
  }

  /** The number of leading whitespace characters. */
  function LeadingSpace(s: string): (n: nat)
    ensures n <= |s|
    ensures AllSpace(s[..n])
    ensures n < |s| ==> !IsSpace(s[n])
  {
    if s == [] || !IsSpace(s[0]) then 0 else 1 + LeadingSpace(s[1..])
  }

  /** The number of trailing whitespace characters. */
  function TrailingSpace(s: string): (n: nat)
    ensures n <= |s|
    ensures AllSpace(s[|s| - n..])
    ensures n < |s| ==> !IsSpace(s[|s| - 1 - n])
  {
    if s == [] || !IsSpace(s[|s| - 1]) then 0 else 1 + TrailingSpace(s[..|s| - 1])
  }

  /** Python's `s.strip()`. */
  function Strip(s: string): (r: string)
    ensures Trimmed(r)
    ensures exists i, j :: 0 <= i <= j <= |s| && r == s[i..j] && AllSpace(s[..i]) && AllSpace(s[j..])
  {
    var i := LeadingSpace(s);
    var rest := s[i..];
    var t := TrailingSpace(rest);
    var j := i + |rest| - t;
    var r := rest[..|rest| - t];
    assert r == s[i..j];
    assert AllSpace(s[j..]) by { assert s[j..] == rest[|rest| - t..]; }
    assert r != [] ==> r[0] == s[i] && r[|r| - 1] == rest[|rest| - 1 - t];
    r
  }

  lemma {:induction false} LeadingSpaceOf(p: string, rest: string)
    requires AllSpace(p) && (rest == [] || !IsSpace(rest[0]))
    ensures LeadingSpace(p + rest) == |p|
  {
    if p != [] {
      assert (p + rest)[0] == p[0] && (p + rest)[1..] == p[1..] + rest;
      LeadingSpaceOf(p[1..], rest);
    }
  }

  lemma {:induction false} TrailingSpaceOf(rest: string, q: string)
    requires AllSpace(q) && (rest == [] || !IsSpace(rest[|rest| - 1]))
    ensures TrailingSpace(rest + q) == |q|
  {
    if q != [] {
      var s := rest + q;
      assert s[|s| - 1] == q[|q| - 1];
      assert s[..|s| - 1] == rest + q[..|q| - 1];
      TrailingSpaceOf(rest, q[..|q| - 1]);
    }
  }

  /** `Strip` is pinned down by its characterization: whatever way `s` is cut
      into whitespace, a trimmed middle and whitespace, `Strip` returns that middle. */
  lemma StripUnique(p: string, m: string, q: string)
    requires AllSpace(p) && AllSpace(q) && Trimmed(m)
    ensures Strip(p + m + q) == m
  {
    var s := p + m + q;
    if m == [] {
      assert s == (p + q) + [];
      LeadingSpaceOf(p + q, []);
    } else {
      assert s == p + (m + q);
      LeadingSpaceOf(p, m + q);
      assert s[|p|..] == m + q;
      TrailingSpaceOf(m, q);
      assert (m + q)[..|m|] == m;
    }
  }

  /** The number of occurrences of `c` in `s`. */
  function Count(s: string, c: char): nat
  {
    if s == [] then 0 else (if s[0] == c then 1 else 0) + Count(s[1..], c)
  }

  /** Python's `s.split(sep)` for a one-character separator. */
  function Split(s: string, sep: char): (r: seq<string>)
    ensures |r| == Count(s, sep) + 1
    ensures forall k :: 0 <= k < |r| ==> sep !in r[k]
  {
    if s == [] then [[]]
    else
      var rest := Split(s[1..], sep);
      if s[0] == sep then [[]] + rest
      else [[s[0]] + rest[0]] + rest[1..]
  }

  /** Python's `sep.join(parts)`, the inverse of `Split`. */
  function JoinWith(parts: seq<string>, sep: char): string
  {
    if parts == [] then []
    else if |parts| == 1 then parts[0]
    else parts[0] + [sep] + JoinWith(parts[1..], sep)
  }

  lemma {:induction false} JoinSplit(s: string, sep: char)
    ensures JoinWith(Split(s, sep), sep) == s
  {
    if s != [] {
      var rest := Split(s[1..], sep);
      JoinSplit(s[1..], sep);
      if s[0] == sep {
        assert Split(s, sep) == [[]] + rest;
      } else {
        var r := Split(s, sep);
        assert r == [[s[0]] + rest[0]] + rest[1..];
        if |rest| == 1 {
          assert JoinWith(r, sep) == [s[0]] + rest[0];
        } else {
          assert r[1..] == rest[1..];
          assert JoinWith(r, sep) == [s[0]] + rest[0] + [sep] + JoinWith(rest[1..], sep);
          assert JoinWith(rest, sep) == rest[0] + [sep] + JoinWith(rest[1..], sep);
        }
      }
    }
  }

  lemma {:induction false} SplitPrefix(a: string, rest: string, sep: char)
    requires sep !in a
    ensures Split(a + [sep] + rest, sep) == [a] + Split(rest, sep)
  {
    if a == [] {
      assert ([] + [sep] + rest)[1..] == rest;
    } else {
      assert (a + [sep] + rest)[1..] == a[1..] + [sep] + rest;
      SplitPrefix(a[1..], rest, sep);
      assert [a[0]] + a[1..] == a;
    }
  }

  lemma {:induction false} SplitNoSep(a: string, sep: char)
    requires sep !in a
    ensures Split(a, sep) == [a]
  {
    if a != [] {
      SplitNoSep(a[1..], sep);
      assert [a[0]] + a[1..] == a;
    }
  }

  lemma {:induction false} SplitJoin(parts: seq<string>, sep: char)
    requires |parts| >= 1
    requires forall k :: 0 <= k < |parts| ==> sep !in parts[k]
    ensures Split(JoinWith(parts, sep), sep) == parts
  {
    if |parts| == 1 {
      SplitNoSep(parts[0], sep);
    } else {
      SplitJoin(parts[1..], sep);
      SplitPrefix(parts[0], JoinWith(parts[1..], sep), sep);
      assert [parts[0]] + parts[1..] == parts;
    }
  }

  /** Joining parts that lack `c` with another separator gives a text
      without `c`. */
  lemma {:induction false} JoinWithout(parts: seq<string>, sep: char, c: char)
    requires c != sep
    requires forall k :: 0 <= k < |parts| ==> c !in parts[k]
    ensures c !in JoinWith(parts, sep)
  {
    if |parts| > 1 {
      JoinWithout(parts[1..], sep, c);
      assert parts[0] + [sep] + JoinWith(parts[1..], sep) == JoinWith(parts, sep);
    }
  }

  /** The line boundaries of Python's `str.splitlines()`. */
  predicate IsLineBreak(c: char)
  {
    c == '\n' || c == '\r' || c == '\U{0B}' || c == '\U{0C}' || c == '\U{1C}' || c == '\U{1D}'
    || c == '\U{1E}' || c == '\U{85}' || c == '\U{2028}' || c == '\U{2029}'
  }

  predicate NoLineBreak(s: string)
  {
    forall k :: 0 <= k < |s| ==> !IsLineBreak(s[k])
  }

  /** Python's `s.splitlines()` continued from a partly read line `cur`: `"\r\n"`
      is one boundary and a final boundary does not open an empty last line. */
  function SplitLinesFrom(s: string, cur: string): (r: seq<string>)
    requires NoLineBreak(cur)
    ensures forall k :: 0 <= k < |r| ==> NoLineBreak(r[k])
    decreases |s|
  {
    if s == [] then (if cur == [] then [] else [cur])
    else if s[0] == '\r' && |s| > 1 && s[1] == '\n' then [cur] + SplitLinesFrom(s[2..], [])
    else if IsLineBreak(s[0]) then [cur] + SplitLinesFrom(s[1..], [])
    else SplitLinesFrom(s[1..], cur + [s[0]])
  }

  function SplitLines(s: string): seq<string>
  {
    SplitLinesFrom(s, [])
  }

  /** The non-empty elements of `lines`, in order (`if line:` in a loop). */
  function NonEmpty(lines: seq<string>): (r: seq<string>)
    ensures |r| <= |lines|
    ensures forall k :: 0 <= k < |r| ==> r[k] != [] && r[k] in lines
  {
    if lines == [] then []
    else if lines[0] == [] then NonEmpty(lines[1..])
    else [lines[0]] + NonEmpty(lines[1..])
  }

  /** A text without line breaks is a single line, and only an empty text has none. */
  lemma {:induction false} SplitLinesSingle(s: string, cur: string)
    requires NoLineBreak(s) && NoLineBreak(cur)
    ensures SplitLinesFrom(s, cur) == if cur + s == [] then [] else [cur + s]
    decreases |s|
  {
    if s == [] {
      assert cur + s == cur;
    } else {
      assert !IsLineBreak(s[0]);
      SplitLinesSingle(s[1..], cur + [s[0]]);
      assert cur + [s[0]] + s[1..] == cur + s;
    }
  }

  /** Lines joined by `"\n"` split back into the same lines. */
  lemma {:induction false} SplitLinesAfterBreak(line: string, rest: string)
    requires NoLineBreak(line)
    ensures SplitLinesFrom(line + "\n" + rest, []) == [line] + SplitLinesFrom(rest, [])
  {
    SplitLinesLine(line, [], rest);
    assert [] + line == line;
  }

  lemma {:induction false} SplitLinesLine(line: string, cur: string, rest: string)
    requires NoLineBreak(line) && NoLineBreak(cur)
    ensures SplitLinesFrom(line + "\n" + rest, cur) == [cur + line] + SplitLinesFrom(rest, [])
    decreases |line|
  {
    var s := line + "\n" + rest;
    if line == [] {
      assert s == "\n" + rest;
      assert s[0] == '\n' && s[1..] == rest;
      assert cur + line == cur;
    } else {
      assert s[0] == line[0] && !IsLineBreak(line[0]);
      assert s[1..] == line[1..] + "\n" + rest;
      SplitLinesLine(line[1..], cur + [line[0]], rest);
      assert cur + [line[0]] + line[1..] == cur + line;
    }
  }

  function StartsWith(s: string, prefix: string): bool
  {
    |prefix| <= |s| && s[..|prefix|] == prefix
  }

  function EndsWith(s: string, suffix: string): bool
  {
    |suffix| <= |s| && s[|s| - |suffix|..] == suffix
  }

  lemma EndsWithAppend(s: string, suffix: string)
    ensures EndsWith(s + suffix, suffix)
  {
    assert (s + suffix)[|s|..] == suffix;
  }

  /** Appending to a text keeps its prefixes and extends its suffixes. */
  lemma AppendKeeps(s: string, tail: string, prefix: string, suffix: string)
    ensures StartsWith(s, prefix) ==> StartsWith(s + tail, prefix)
    ensures EndsWith(s, suffix) ==> EndsWith(s + tail, suffix + tail)
  {
    if StartsWith(s, prefix) {
      assert (s + tail)[..|prefix|] == s[..|prefix|];
    }
    if EndsWith(s, suffix) {
      assert (s + tail)[|s + tail| - |suffix + tail|..] == s[|s| - |suffix|..] + tail;
    }
  }

  /** `s` with `suffix` appended unless it already ends with it, as done
      for the `.json` of a prescriber file and the `.mpaz` of a document. */
  function WithSuffix(s: string, suffix: string): (r: string)
    ensures EndsWith(r, suffix)
    ensures StartsWith(r, s)
    ensures EndsWith(s, suffix) ==> r == s
    ensures !EndsWith(s, suffix) ==> r == s + suffix
  {
    if EndsWith(s, suffix) then s
    else
      EndsWithAppend(s, suffix);
      assert (s + suffix)[..|s|] == s;
      s + suffix
  }

  /** Adding a suffix twice adds it once. */
  lemma WithSuffixIdempotent(s: string, suffix: string)
    ensures WithSuffix(WithSuffix(s, suffix), suffix) == WithSuffix(s, suffix)
  {
  }

  /** True when `p` occurs in `s` starting at index `k`. */
  predicate OccursAt(s: string, p: string, k: int)
  {
    0 <= k && k + |p| <= |s| && s[k..k + |p|] == p
  }

  /** Python's `s.replace(p, "")`: every non-overlapping occurrence of `p`,
      found from left to right, is removed. */
  function RemoveAll(s: string, p: string): (r: string)
    requires p != []
    ensures |r| <= |s|
    decreases |s|
  {
    if |s| < |p| then s
    else if s[..|p|] == p then RemoveAll(s[|p|..], p)
    else [s[0]] + RemoveAll(s[1..], p)
  }

  /** A text in which `p` does not occur is left unchanged. */
  lemma {:induction false} RemoveAllAbsent(s: string, p: string)
    requires p != []
    requires forall k :: !OccursAt(s, p, k)
    ensures RemoveAll(s, p) == s
    decreases |s|
  {
    if |s| >= |p| {
      assert !OccursAt(s, p, 0);
      forall k | 0 <= k
        ensures !OccursAt(s[1..], p, k)
      {
        if OccursAt(s[1..], p, k) {
          assert s[1..][k..k + |p|] == s[k + 1..k + 1 + |p|];
          assert OccursAt(s, p, k + 1);
        }
      }
      RemoveAllAbsent(s[1..], p);
      assert [s[0]] + s[1..] == s;
    }
  }

  /** Removing from a text whose first part cannot start an occurrence of `p`
      leaves that part in place. */
  lemma {:induction false} RemoveAllKeepsHead(a: string, b: string, p: string)
    requires p != [] && p[0] !in a
    ensures RemoveAll(a + b, p) == a + RemoveAll(b, p)
    decreases |a|
  {
    if a == [] {
      assert a + b == b;
    } else if |a + b| < |p| {
      assert RemoveAll(b, p) == b;
    } else {
      var s := a + b;
      assert s[..|p|] != p by { assert s[..|p|][0] == a[0] != p[0]; }
      RemoveAllSkip(s, p);
      assert s[1..] == a[1..] + b;
      assert p[0] !in a[1..];
      RemoveAllKeepsHead(a[1..], b, p);
      assert a == [a[0]] + a[1..];
    }
  }

  /** A text that does not start with `p` keeps its first character. */
  lemma RemoveAllSkip(s: string, p: string)
    requires p != [] && |s| >= |p| && s[..|p|] != p
    ensures RemoveAll(s, p) == [s[0]] + RemoveAll(s[1..], p)
  {
  }

  /** The index of the first `c` in `s` (`s.find(c)`), if any. */
  function FirstIndexOf(s: string, c: char): (r: Option<nat>)
    ensures r.None? <==> c !in s
    ensures r.Some? ==> r.value < |s| && s[r.value] == c && c !in s[..r.value]
  {
    if s == [] then None
    else if s[0] == c then Some(0)
    else
      match FirstIndexOf(s[1..], c)
      case None => None
      case Some(i) =>
        assert s[..i + 1] == [s[0]] + s[1..][..i];
        Some(i + 1)
  }

  /** The index of the last `c` in `s` (`s.rfind(c)`), if any. */
  function LastIndexOf(s: string, c: char): (r: Option<nat>)
    ensures r.None? <==> c !in s
    ensures r.Some? ==> r.value < |s| && s[r.value] == c && c !in s[r.value + 1..]
  {
    if s == [] then None
    else if s[|s| - 1] == c then Some(|s| - 1)
    else
      var init := s[..|s| - 1];
      match LastIndexOf(init, c)
      case None =>
        assert s == init + [s[|s| - 1]];
        None
      case Some(i) =>
        assert s[i + 1..] == init[i + 1..] + [s[|s| - 1]];
        Some(i)
  }

  /** The position of the first `x` in `s` (`list.index`), if any. */
  function IndexOf<T(==)>(s: seq<T>, x: T): (r: Option<nat>)
    ensures r.None? <==> x !in s
    ensures r.Some? ==> r.value < |s| && s[r.value] == x && x !in s[..r.value]
  {
    if s == [] then None
    else if s[0] == x then Some(0)
    else
      match IndexOf(s[1..], x)
      case None => None
      case Some(i) =>
        assert s[..i + 1] == [s[0]] + s[1..][..i];
        Some(i + 1)
  }
}
