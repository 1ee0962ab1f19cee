/**
 * Preset tables: CSV files of key/value rows under a `KEY,VALUE` header.
 * The CSV encoding is not modelled: a file is its sequence of rows, and a
 * missing file is `None`.
 */
module Presets {
  import opened Wrappers
  import opened Json
  import Text

  type Row = seq<string>

  /** A CSV file as `csv.writer` left it: the rows and the delimiter they
      were written with. */
  datatype Csv = Csv(rows: seq<Row>, delimiter: char)

  /** `Preset` opens its file with `csv.reader` and no dialect, so it reads
      with the default delimiter. */
  const ReaderDelimiter: char := ','

  /**
   * The rows `csv.reader(f, delimiter=d)` gives for a written file. With
   * the writer's delimiter every row comes back as written. With another
   * delimiter each written line is split at `d`; this is the reader's
   * result for cells holding no quote, no line break and not the writer's
   * delimiter, which the writer leaves unquoted.
   */
  function Reader(file: Csv, delimiter: char): (r: seq<Row>)
    ensures |r| == |file.rows|
    ensures delimiter == file.delimiter ==> r == file.rows
  {
    if delimiter == file.delimiter then file.rows
    else seq(|file.rows|, i requires 0 <= i < |file.rows| => Text.Split(Text.JoinWith(file.rows[i], file.delimiter), delimiter))
  }

  /** Read with a foreign delimiter that no cell of a row contains, the row
      comes back as a single cell: the whole written line. */
  lemma ForeignRowOneCell(file: Csv, delimiter: char, i: nat)
    requires delimiter != file.delimiter && i < |file.rows|
    requires forall k :: 0 <= k < |file.rows[i]| ==> delimiter !in file.rows[i][k]
    ensures Reader(file, delimiter)[i] == [Text.JoinWith(file.rows[i], file.delimiter)]
  {
    Text.JoinWithout(file.rows[i], file.delimiter, delimiter);
    Text.SplitNoSep(Text.JoinWith(file.rows[i], file.delimiter), delimiter);
  }

  /** The rows of a table that hold a key and a value. */
  predicate AllPairs(rows: seq<Row>)
  {
    forall i :: 0 <= i < |rows| ==> |rows[i]| >= 2
  }

  /** `i` is the last row of `rows` whose key is `rows[i][0]`. */
  predicate LastWithKey(rows: seq<Row>, i: int)
    requires 0 <= i < |rows| && AllPairs(rows)
  {
    forall j :: i < j < |rows| ==> rows[j][0] != rows[i][0]
  }

  /** The first `n` rows each hold a key and a value. */
  ghost predicate PairsUpTo(rows: seq<Row>, n: nat)
    requires n <= |rows|
  {
    forall i :: 0 <= i < n ==> |rows[i]| >= 2
  }

  /** `data` is what reading the first `n` rows gives: their keys, each with
      the value of its last row. */
  ghost predicate ReadUpTo(rows: seq<Row>, n: nat, data: map<string, string>)
    requires n <= |rows| && PairsUpTo(rows, n)
  {
    && (forall k :: k in data <==> exists i :: 0 <= i < n && rows[i][0] == k)
    && (forall i :: 0 <= i < n && (forall j :: i < j < n ==> rows[j][0] != rows[i][0]) ==>
          rows[i][0] in data && data[rows[i][0]] == rows[i][1])
  }

  /** Reading one more row keeps `ReadUpTo`. */
  lemma ReadOneMore(rows: seq<Row>, n: nat, data: map<string, string>)
    requires n < |rows| && PairsUpTo(rows, n + 1) && ReadUpTo(rows, n, data)
    ensures ReadUpTo(rows, n + 1, data[rows[n][0] := rows[n][1]])
  {
    var d := data[rows[n][0] := rows[n][1]];
    forall k
      ensures k in d <==> exists i :: 0 <= i < n + 1 && rows[i][0] == k
    {
      ReadKey(rows, n, data, k);
    }
    forall i | 0 <= i < n + 1 && (forall j :: i < j < n + 1 ==> rows[j][0] != rows[i][0])
      ensures rows[i][0] in d && d[rows[i][0]] == rows[i][1]
    {
      if i < n {
        assert rows[i][0] != rows[n][0];
        assert forall j :: i < j < n ==> rows[j][0] != rows[i][0];
      }
    }
  }

  /** The keys after one more row: the old ones and the new row's. */
  lemma ReadKey(rows: seq<Row>, n: nat, data: map<string, string>, k: string)
    requires n < |rows| && PairsUpTo(rows, n + 1) && ReadUpTo(rows, n, data)
    ensures k in data[rows[n][0] := rows[n][1]] <==> exists i :: 0 <= i < n + 1 && rows[i][0] == k
  {
    if k != rows[n][0] && exists i :: 0 <= i < n + 1 && rows[i][0] == k {
      var i :| 0 <= i < n + 1 && rows[i][0] == k;
      assert i < n;
    }
  }

  /**
   * `Preset(file)` / `load()`: skips the header row and maps each later
   * row's first cell to its second; a later row wins over an earlier one.
   * A missing file leaves the map empty; an empty file (no header) raises
   * `StopIteration` and a row with fewer than two cells raises `IndexError`,
   * neither of which is caught.
   */
  method Load(file: Option<seq<Row>>) returns (r: Result<map<string, string>, Error>)
    ensures file.None? ==> r == Success(map[])
    ensures file == Some([]) ==> r == Failure(StopIteration)
    ensures file.Some? && file.value != [] ==> (r.Success? <==> AllPairs(file.value[1..]))
    ensures file.Some? && file.value != [] && r.Failure? ==> r.error == IndexError
    ensures file.Some? && r.Success? ==> var rows := file.value[1..];
      forall k :: k in r.value <==> exists i :: 0 <= i < |rows| && rows[i][0] == k
    ensures file.Some? && r.Success? ==> var rows := file.value[1..];
      forall i :: 0 <= i < |rows| && LastWithKey(rows, i) ==> r.value[rows[i][0]] == rows[i][1]
  {
    if file.None? {
      return Success(map[]);
    }
    if file.value == [] {
      return Failure(StopIteration);
    }
    var rows := file.value[1..];
    var data: map<string, string> := map[];
    var n := 0;
    while n < |rows|
      invariant 0 <= n <= |rows|
      invariant PairsUpTo(rows, n) && ReadUpTo(rows, n, data)
    {
      if |rows[n]| < 2 {
        assert !AllPairs(rows) by { assert |rows[n]| < 2; }
        return Failure(IndexError);
      }
      ReadOneMore(rows, n, data);
      data := data[rows[n][0] := rows[n][1]];
      n := n + 1;
    }
    return Success(data);
  }
}
