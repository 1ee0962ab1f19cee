/**
 * The text preparation `Renderer` does before filling the template:
 * the diagnosis list and the medication list.
 */
module Renderer {
  import opened Wrappers
  import opened Json
  import opened Text

  type Data = map<string, Value>

  /** `data["diagnosis"].split(";")` with every segment stripped. */
  function DiagnosisList(diagnosis: string): (r: seq<string>)
    ensures |r| == Count(diagnosis, ';') + 1
    ensures forall k :: 0 <= k < |r| ==> Trimmed(r[k])
  {
    var parts := Split(diagnosis, ';');
    seq(|parts|, k requires 0 <= k < |parts| => Strip(parts[k]))
  }

  /** Each entry is the corresponding `;`-separated segment without its surrounding whitespace. */
  lemma DiagnosisSegments(diagnosis: string)
    ensures |DiagnosisList(diagnosis)| == |Split(diagnosis, ';')|
    ensures forall k :: 0 <= k < |Split(diagnosis, ';')| ==>
      DiagnosisList(diagnosis)[k] == Strip(Split(diagnosis, ';')[k])
  {
  }

  /** Segments written with padding come back trimmed and in order. */
  lemma {:induction false} DiagnosisOfPaddedList(items: seq<string>, pad: string)
    requires |items| >= 1 && AllSpace(pad) && ';' !in pad
    requires forall k :: 0 <= k < |items| ==> Trimmed(items[k]) && ';' !in items[k]
    ensures DiagnosisList(JoinWith(Padded(items, pad), ';')) == items
  {
    var padded := Padded(items, pad);
    forall k | 0 <= k < |padded| ensures ';' !in padded[k] {
      assert padded[k] == pad + items[k] + pad;
    }
    SplitJoin(padded, ';');
    forall k | 0 <= k < |items| ensures Strip(padded[k]) == items[k] {
      StripUnique(pad, items[k], pad);
    }
  }

  function Padded(items: seq<string>, pad: string): (r: seq<string>)
    ensures |r| == |items|
    ensures forall k :: 0 <= k < |items| ==> r[k] == pad + items[k] + pad
  {
    seq(|items|, k requires 0 <= k < |items| => pad + items[k] + pad)
  }

  /** `process_diagnosis(data)`: adds `diagnosis_list` and touches no other key.
      A missing `diagnosis` is a `KeyError`; a value that is not a string has no `split`,
      which is an `AttributeError`. */
  function ProcessDiagnosis(data: Data): (r: Result<Data, Error>)
    ensures r.Success? <==> "diagnosis" in data && data["diagnosis"].Str?
    ensures "diagnosis" !in data ==> r == Failure(KeyError("diagnosis"))
    ensures "diagnosis" in data && !data["diagnosis"].Str? ==> r == Failure(AttributeError)
    ensures r.Success? ==> r.value.Keys == data.Keys + {"diagnosis_list"}
    ensures r.Success? ==> forall k :: k in data && k != "diagnosis_list" ==> r.value[k] == data[k]
    ensures r.Success? ==> r.value["diagnosis_list"] == Strings(DiagnosisList(data["diagnosis"].s))
  {
    if "diagnosis" !in data then Failure(KeyError("diagnosis"))
    else match data["diagnosis"]
      case Str(d) => Success(data["diagnosis_list" := Strings(DiagnosisList(d))])
      case _ => Failure(AttributeError)
  }

  /** A list of strings as a value. */
  function Strings(items: seq<string>): (r: Value)
    ensures r.Arr? && |r.items| == |items|
    ensures forall k :: 0 <= k < |items| ==> r.items[k] == Str(items[k])
  {
    Arr(seq(|items|, k requires 0 <= k < |items| => Str(items[k])))
  }

  /** The span the pattern `.*?\[(.*)\].*` captures: `open` is a `[` with a
      later `]` and no earlier such `[` (the lazy prefix), `close` is the
      last `]` (the greedy group). */
  predicate BracketSpan(line: string, open: nat, close: nat)
  {
    && open < close < |line|
    && line[open] == '[' && line[close] == ']'
    && (forall k :: 0 <= k < open ==> line[k] != '[')
    && (forall k :: close < k < |line| ==> line[k] != ']')
  }

  /** The pattern matches exactly when some `[` is followed later by some `]`. */
  predicate HasBracketPair(line: string)
  {
    exists i, j :: 0 <= i < j < |line| && line[i] == '[' && line[j] == ']'
  }

  /** `re.search(r".*?\[(.*)\].*", line)`: the captured span, if the pattern matches. */
  function FindBracket(line: string): (r: Option<(nat, nat)>)
    ensures r.Some? <==> HasBracketPair(line)
    ensures r.Some? ==> BracketSpan(line, r.value.0, r.value.1)
  {
    match FirstIndexOf(line, '[')
    case None => None
    case Some(i) =>
      match LastIndexOf(line, ']')
      case None => None
      case Some(j) =>
        NoneBefore(line, i, '[');
        NoneAfter(line, j, ']');
        if i < j then Some((i, j)) else None
  }

  lemma NoneBefore(s: string, i: nat, c: char)
    requires i <= |s| && c !in s[..i]
    ensures forall k :: 0 <= k < i ==> s[k] != c
  {
    assert forall k :: 0 <= k < i ==> s[k] == s[..i][k];
  }

  lemma NoneAfter(s: string, j: nat, c: char)
    requires j < |s| && c !in s[j + 1..]
    ensures forall k :: j < k < |s| ==> s[k] != c
  {
    assert forall k :: j < k < |s| ==> s[k] == s[j + 1..][k - j - 1];
  }

  /** The span of a match is unique: there is only one way to read a line. */
  lemma BracketSpanUnique(line: string, i: nat, j: nat, i': nat, j': nat)
    requires BracketSpan(line, i, j) && BracketSpan(line, i', j')
    ensures i == i' && j == j'
  {
  }

  /** One medication line: `[f1, f2]`, where `f2` is the bracketed text and
      `f1` is the line with every `"[" + f2 + "]"` removed; `[line, ""]`
      when the pattern does not match. */
  function MedicationEntry(line: string): (r: (string, string))
  {
    match FindBracket(line)
    case None => (line, "")
    case Some((i, j)) =>
      var f2 := line[i + 1..j];
      (RemoveAll(line, "[" + f2 + "]"), f2)
  }

  /** A matched line splits into the text around its bracketed span and the
      span's contents: the removal cuts out exactly that span. */
  lemma MedicationEntrySpan(line: string, i: nat, j: nat)
    requires BracketSpan(line, i, j)
    ensures MedicationEntry(line) == (line[..i] + line[j + 1..], line[i + 1..j])
  {
    var r := FindBracket(line);
    BracketSpanUnique(line, i, j, r.value.0, r.value.1);
    CutSpan(line, i, j);
  }

  lemma CutSpan(line: string, i: nat, j: nat)
    requires BracketSpan(line, i, j)
    ensures RemoveAll(line, "[" + line[i + 1..j] + "]") == line[..i] + line[j + 1..]
  {
    var p := "[" + line[i + 1..j] + "]";
    var head, rest := line[..i], line[j + 1..];
    assert line[i..j + 1] == p;
    assert '[' !in head by {
      assert forall k :: 0 <= k < i ==> head[k] == line[k];
    }
    assert line == head + (p + rest);
    RemoveAllKeepsHead(head, p + rest, p);
    RemoveSpanThenRest(p, rest);
    assert forall k :: 0 <= k < |rest| ==> rest[k] == line[j + 1 + k];
    NoOccurrenceWithoutLast(rest, p);
    RemoveAllAbsent(rest, p);
  }

  lemma RemoveSpanThenRest(p: string, rest: string)
    requires p != []
    ensures RemoveAll(p + rest, p) == RemoveAll(rest, p)
  {
    assert (p + rest)[..|p|] == p;
    assert (p + rest)[|p|..] == rest;
  }

  /** A text lacking the last character of `p` has no occurrence of `p`. */
  lemma NoOccurrenceWithoutLast(rest: string, p: string)
    requires p != [] && p[|p| - 1] !in rest
    ensures forall k :: !OccursAt(rest, p, k)
  {
    forall k ensures !OccursAt(rest, p, k) {
      if 0 <= k && k + |p| <= |rest| {
        assert rest[k..k + |p|][|p| - 1] == rest[k + |p| - 1];
      }
    }
  }

  /** A line without a `[ ... ]` pair is kept whole with an empty second field. */
  lemma MedicationEntryPlain(line: string)
    requires !HasBracketPair(line)
    ensures MedicationEntry(line) == (line, "")
  {
  }

  /** `process_medication` on the text: one entry per non-empty line, in order. */
  function MedicationList(medication: string): (r: seq<(string, string)>)
    ensures |r| == |NonEmpty(SplitLines(medication))|
    ensures forall k :: 0 <= k < |r| ==> r[k] == MedicationEntry(NonEmpty(SplitLines(medication))[k])
  {
    var lines := NonEmpty(SplitLines(medication));
    seq(|lines|, k requires 0 <= k < |lines| => MedicationEntry(lines[k]))
  }

  /** The medication list as a value: a list of two-string lists. */
  function Pairs(entries: seq<(string, string)>): (r: Value)
    ensures r.Arr? && |r.items| == |entries|
    ensures forall k :: 0 <= k < |entries| ==> r.items[k] == Arr([Str(entries[k].0), Str(entries[k].1)])
  {
    Arr(seq(|entries|, k requires 0 <= k < |entries| => Arr([Str(entries[k].0), Str(entries[k].1)])))
  }

  /** `process_medication(data)`: adds `medication_list` and touches no other key. */
  function ProcessMedication(data: Data): (r: Result<Data, Error>)
    ensures r.Success? <==> "medication" in data && data["medication"].Str?
    ensures "medication" !in data ==> r == Failure(KeyError("medication"))
    ensures "medication" in data && !data["medication"].Str? ==> r == Failure(AttributeError)
    ensures r.Success? ==> r.value.Keys == data.Keys + {"medication_list"}
    ensures r.Success? ==> forall k :: k in data && k != "medication_list" ==> r.value[k] == data[k]
    ensures r.Success? ==> r.value["medication_list"] == Pairs(MedicationList(data["medication"].s))
  {
    if "medication" !in data then Failure(KeyError("medication"))
    else match data["medication"]
      case Str(m) => Success(data["medication_list" := Pairs(MedicationList(m))])
      case _ => Failure(AttributeError)
  }

  /** Two medication lines separated by a newline give two entries, in order. */
  lemma MedicationTwoLines(a: string, b: string)
    requires a != [] && b != [] && NoLineBreak(a) && NoLineBreak(b)
    ensures MedicationList(a + "\n" + b) == [MedicationEntry(a), MedicationEntry(b)]
  {
    SplitLinesAfterBreak(a, b);
    SplitLinesSingle(b, []);
    assert [] + b == b;
    assert SplitLines(a + "\n" + b) == [a, b];
    assert NonEmpty([a, b]) == [a, b] by {
      assert [a, b][1..] == [b];
      assert NonEmpty([b]) == [b] by { assert [b][1..] == []; }
    }
  }
}
