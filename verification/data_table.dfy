/** A table of values of one type with fixed, named columns and a growable number of rows,
    written out as CSV (include/DataTable.h). Storage starts at `initialSize` rows and grows
    by `initialSize` rows whenever an append finds it full. */
module DataTables {
  import opened Options
  import opened Text

  /** The initial size used when the caller gives none. */
  const DefaultInitialSize: nat := 10

  datatype DataTable<T> = DataTable(names: seq<string>, rows: seq<seq<T>>, capacity: nat, initialSize: nat)

  /** Every row has one value per column, the rows fit in the storage, and the storage holds
      at least one chunk of `initialSize` rows. */
  predicate Valid<T>(t: DataTable<T>) {
    && 0 < t.initialSize <= t.capacity
    && |t.rows| <= t.capacity
    && forall i :: 0 <= i < |t.rows| ==> |t.rows[i]| == |t.names|
  }

  /** The constructor: copies the first `numColumns` names, no rows, storage for `initialSize` rows. */
  function New<T>(numColumns: nat, columnNames: seq<string>, initialSize: nat): (t: DataTable<T>)
    requires numColumns <= |columnNames| && 0 < initialSize
    ensures Valid(t)
    ensures t.names == columnNames[..numColumns] && |t.names| == numColumns
    ensures |t.rows| == 0 && t.capacity == initialSize && t.initialSize == initialSize
  {
    DataTable(columnNames[..numColumns], [], initialSize, initialSize)
  }

  /** The copy constructor: copies the names and every stored value one by one. The copy is
      indistinguishable from the original. */
  function Copy<T>(t: DataTable<T>): (r: DataTable<T>)
    requires Valid(t)
    ensures r == t
  {
    var names := seq(|t.names|, i requires 0 <= i < |t.names| => t.names[i]);
    var rows := seq(|t.rows|, i requires 0 <= i < |t.rows| =>
                      seq(|t.names|, j requires 0 <= j < |t.names| => t.rows[i][j]));
    assert forall i :: 0 <= i < |t.rows| ==> rows[i] == t.rows[i];
    DataTable(names, rows, t.capacity, t.initialSize)
  }

  /** `extend`: room for `initialSize` more rows; the stored rows are kept. */
  function Extend<T>(t: DataTable<T>): (r: DataTable<T>)
    requires Valid(t)
    ensures Valid(r)
    ensures r.names == t.names && r.rows == t.rows && r.initialSize == t.initialSize
    ensures r.capacity == t.capacity + t.initialSize
  {
    t.(capacity := t.capacity + t.initialSize)
  }

  /** `append_row(numColumns, values...)`: refused unless `numColumns` is the table's column
      count; otherwise extends the storage when full and stores the first `numColumns` values
      as a new last row. The variadic values are the sequence `values`, of which the call
      must supply at least as many as it declares. */
  function AppendRow<T>(t: DataTable<T>, numColumns: int, values: seq<T>): (r: (bool, DataTable<T>))
    requires Valid(t)
    requires numColumns == |t.names| ==> |values| >= numColumns
    ensures Valid(r.1)
    ensures r.0 <==> numColumns == |t.names|
    ensures !r.0 ==> r.1 == t
    ensures r.0 ==> r.1.names == t.names && r.1.initialSize == t.initialSize
    ensures r.0 ==> |r.1.rows| == |t.rows| + 1 && r.1.rows[..|t.rows|] == t.rows
    ensures r.0 ==> r.1.rows[|t.rows|] == values[..numColumns]
    ensures r.0 && |t.rows| < t.capacity ==> r.1.capacity == t.capacity
    ensures r.0 && |t.rows| == t.capacity ==> r.1.capacity == t.capacity + t.initialSize
  {
    if numColumns != |t.names| then (false, t)
    else
      var u := if |t.rows| == t.capacity then Extend(t) else t;
      assert (u.rows + [values[..numColumns]])[..|t.rows|] == t.rows;
      (true, u.(rows := u.rows + [values[..numColumns]]))
  }

  // ---------------------------------------------------------------------------
  // Growth
  // ---------------------------------------------------------------------------

  /** The fewest whole chunks of `size` rows that hold `n` rows, and at least one chunk. */
  function Chunks(n: nat, size: nat): nat
    requires size > 0
  {
    if n <= size then 1 else 1 + Chunks(n - size, size)
  }

  /** The storage is exactly what appending the rows one by one to a new table leaves. */
  predicate Tight<T>(t: DataTable<T>)
    requires t.initialSize > 0
  {
    t.capacity == t.initialSize * Chunks(|t.rows|, t.initialSize)
  }

  lemma {:induction false} ChunksStep(n: nat, size: nat)
    requires size > 0
    ensures n < size * Chunks(n, size) ==> Chunks(n + 1, size) == Chunks(n, size)
    ensures n == size * Chunks(n, size) ==> Chunks(n + 1, size) == Chunks(n, size) + 1
    ensures n <= size * Chunks(n, size)
    decreases n
  {
    if n > size {
      ChunksStep(n - size, size);
    }
  }

  /** Appending keeps the storage tight: it grows by one chunk exactly when the rows fill it. */
  lemma AppendRowKeepsTight<T>(t: DataTable<T>, values: seq<T>)
    requires Valid(t) && Tight(t) && |values| >= |t.names|
    ensures Tight(AppendRow(t, |t.names|, values).1)
  {
    ChunksStep(|t.rows|, t.initialSize);
  }

  /** Appends each row in turn (declaring the table's column count each time). */
  function AppendRows<T>(t: DataTable<T>, rows: seq<seq<T>>): (r: DataTable<T>)
    requires Valid(t)
    requires forall i :: 0 <= i < |rows| ==> |rows[i]| == |t.names|
    ensures Valid(r) && r.names == t.names && r.initialSize == t.initialSize
    decreases |rows|
  {
    if |rows| == 0 then t else AppendRows(AppendRow(t, |t.names|, rows[0]).1, rows[1..])
  }

  /** Appending rows stores them after the existing ones, in order, and keeps the storage tight. */
  lemma {:induction false} AppendRowsInOrder<T>(t: DataTable<T>, rows: seq<seq<T>>)
    requires Valid(t) && Tight(t)
    requires forall i :: 0 <= i < |rows| ==> |rows[i]| == |t.names|
    ensures AppendRows(t, rows).rows == t.rows + rows
    ensures Tight(AppendRows(t, rows))
    decreases |rows|
  {
    if |rows| > 0 {
      var t1 := AppendRow(t, |t.names|, rows[0]).1;
      AppendRowKeepsTight(t, rows[0]);
      assert rows[0][..|t.names|] == rows[0];
      assert t1.rows == t.rows + [rows[0]];
      AppendRowsInOrder(t1, rows[1..]);
      assert t.rows + [rows[0]] + rows[1..] == t.rows + rows;
    }
  }

  /** Seven appends to a table of three columns with initial size 3 keep all seven rows in
      order and leave storage for nine. */
  lemma SevenAppendsExample()
    ensures var t := AppendRows(New<int>(3, ["col1", "col2", "col3"], 3), ExampleRows());
            t.rows == ExampleRows() && t.capacity == 9
  {
    var t0 := New<int>(3, ["col1", "col2", "col3"], 3);
    AppendRowsInOrder(t0, ExampleRows());
    assert Chunks(7, 3) == 3;
  }

  function ExampleRows(): seq<seq<int>>
  {
    [[1, 2, 3], [4, 5, 6], [7, 8, 9], [10, 11, 12], [13, 14, 15], [16, 17, 18], [19, 20, 21]]
  }

  // ---------------------------------------------------------------------------
  // CSV output
  // ---------------------------------------------------------------------------

  /** The fields of one row as the formatter renders them, each told its column index. */
  function FormatFields<T>(row: seq<T>, formatter: (T, int) -> string): (fields: seq<string>)
    ensures |fields| == |row|
  {
    seq(|row|, j requires 0 <= j < |row| => formatter(row[j], j))
  }

  /** The CSV lines: the column names joined by ",", then each row's formatted fields joined by ",". */
  function CsvLines<T>(t: DataTable<T>, formatter: (T, int) -> string): (lines: seq<string>)
    ensures |lines| == |t.rows| + 1
  {
    [Join(t.names, ',')] + seq(|t.rows|, i requires 0 <= i < |t.rows| => Join(FormatFields(t.rows[i], formatter), ','))
  }

  /** The text `write_to_stream` prints: each CSV line followed by a line terminator. */
  function Csv<T>(t: DataTable<T>, formatter: (T, int) -> string): string
  {
    Lines(CsvLines(t, formatter))
  }

  /** The default formatter for integer tables: the value in decimal, whatever the column. */
  function DecimalFormatter(value: int, column: int): (r: string)
    ensures ParseInt(r) == Some((value, ""))
    ensures IsAscii(r) && ',' !in r && NewLine !in r
  {
    ParseIntRoundTrip(value, "");
    assert IntToString(value) + "" == IntToString(value);
    IntToString(value)
  }

  /** `write_to_stream`: the text printed to the stream. */
  method WriteToStream<T>(t: DataTable<T>, formatter: (T, int) -> string) returns (out: string)
    requires Valid(t)
    ensures out == Csv(t, formatter)
  {
    var n := |t.names|;
    ghost var lines := CsvLines(t, formatter);
    out := "";
    JoinPrefixNone(t.names, ',');
    var i := 0;
    while i < n
      invariant 0 <= i <= n
      invariant out == JoinPrefix(t.names, ',', i)
    {
      JoinPrefixPrint("", t.names, ',', i);
      assert "" + JoinPrefix(t.names, ',', i) == JoinPrefix(t.names, ',', i);
      assert "" + JoinPrefix(t.names, ',', i + 1) == JoinPrefix(t.names, ',', i + 1);
      if i < n - 1 {
        out := out + t.names[i] + ",";
      } else {
        out := out + t.names[i];
      }
      i := i + 1;
    }
    JoinPrefixAll(t.names, ',');
    out := out + [NewLine];
    assert lines[..1] == [Join(t.names, ',')];
    LinesOne(Join(t.names, ','));
    var r := 0;
    while r < |t.rows|
      invariant 0 <= r <= |t.rows|
      invariant out == Lines(lines[..r + 1])
    {
      ghost var fields := FormatFields(t.rows[r], formatter);
      ghost var done := out;
      JoinPrefixNone(fields, ',');
      var j := 0;
      while j < n
        invariant 0 <= j <= n
        invariant out == done + JoinPrefix(fields, ',', j)
      {
        var text := formatter(t.rows[r][j], j);
        assert text == fields[j];
        JoinPrefixPrint(done, fields, ',', j);
        if j < n - 1 {
          out := out + text + ",";
        } else {
          out := out + text;
        }
        j := j + 1;
      }
      JoinPrefixAll(fields, ',');
      out := out + [NewLine];
      LinesNext(lines, r + 1);
      r := r + 1;
    }
    assert lines[..|t.rows| + 1] == lines;
  }

  lemma LinesOne(line: string)
    ensures Lines([line]) == line + [NewLine]
  {
    assert [line][1..] == [];
  }

  lemma LinesNext(lines: seq<string>, k: nat)
    requires k < |lines|
    ensures Lines(lines[..k + 1]) == Lines(lines[..k]) + lines[k] + [NewLine]
  {
    assert lines[..k + 1] == lines[..k] + [lines[k]];
    LinesSnoc(lines[..k], lines[k]);
  }

  /** Reading the CSV back: splitting on the terminator gives the header and one line per row
      (and an empty remainder), and splitting a line on "," gives its fields, as long as no
      name or formatted field contains "," or the terminator. */
  lemma CsvReadsBack<T>(t: DataTable<T>, formatter: (T, int) -> string)
    requires Valid(t) && |t.names| > 0
    requires forall k :: 0 <= k < |t.names| ==> ',' !in t.names[k] && NewLine !in t.names[k]
    requires forall i, j :: 0 <= i < |t.rows| && 0 <= j < |t.names| ==>
               ',' !in formatter(t.rows[i][j], j) && NewLine !in formatter(t.rows[i][j], j)
    ensures Split(Csv(t, formatter), NewLine) == CsvLines(t, formatter) + [""]
    ensures Split(CsvLines(t, formatter)[0], ',') == t.names
    ensures forall i :: 0 <= i < |t.rows| ==>
              Split(CsvLines(t, formatter)[i + 1], ',') == FormatFields(t.rows[i], formatter)
  {
    var lines := CsvLines(t, formatter);
    SplitJoin(t.names, ',');
    forall i | 0 <= i < |t.rows|
      ensures Split(lines[i + 1], ',') == FormatFields(t.rows[i], formatter)
      ensures NewLine !in lines[i + 1]
    {
      var fields := FormatFields(t.rows[i], formatter);
      SplitJoin(fields, ',');
      NoSeparatorInJoin(fields, ',', NewLine);
    }
    NoSeparatorInJoin(t.names, ',', NewLine);
    SplitLines(lines);
  }

  lemma {:induction false} NoSeparatorInJoin(parts: seq<string>, sep: char, c: char)
    requires c != sep
    requires forall k :: 0 <= k < |parts| ==> c !in parts[k]
    ensures c !in Join(parts, sep)
    decreases |parts|
  {
    if |parts| > 1 {
      NoSeparatorInJoin(parts[1..], sep, c);
    }
  }

  // ---------------------------------------------------------------------------
  // The unit tests' tables
  // ---------------------------------------------------------------------------

  /** The custom formatter of the unit test: column 0 doubled, the others as they are. */
  function DoubleFirstColumn(value: int, column: int): string
  {
    if column == 0 then IntToString(value * 2) else IntToString(value)
  }

  lemma FormatThree(row: seq<int>, formatter: (int, int) -> string)
    requires |row| == 3
    ensures Join(FormatFields(row, formatter), ',')
            == formatter(row[0], 0) + "," + formatter(row[1], 1) + "," + formatter(row[2], 2)
  {
    var fields := FormatFields(row, formatter);
    assert fields == [formatter(row[0], 0), formatter(row[1], 1), formatter(row[2], 2)];
    JoinThree(fields[0], fields[1], fields[2]);
  }

  /** A new three-column table (default initial size) after appending 1..9 by rows. */
  function NineValueTable(): DataTable<int>
  {
    AppendRows(New<int>(3, ["col1", "col2", "col3"], DefaultInitialSize), [[1, 2, 3], [4, 5, 6], [7, 8, 9]])
  }

  lemma NineValueTableRows()
    ensures NineValueTable().rows == [[1, 2, 3], [4, 5, 6], [7, 8, 9]]
    ensures NineValueTable().names == ["col1", "col2", "col3"]
  {
    AppendRowsInOrder(New<int>(3, ["col1", "col2", "col3"], DefaultInitialSize), [[1, 2, 3], [4, 5, 6], [7, 8, 9]]);
  }

  /** The lines of the nine-value table under any formatter. */
  lemma NineValueLines(formatter: (int, int) -> string)
    ensures CsvLines(NineValueTable(), formatter)
            == ["col1,col2,col3",
                Join(FormatFields([1, 2, 3], formatter), ','),
                Join(FormatFields([4, 5, 6], formatter), ','),
                Join(FormatFields([7, 8, 9], formatter), ',')]
  {
    var t := NineValueTable();
    NineValueTableRows();
    JoinThree("col1", "col2", "col3");
    assert "col1" + "," + "col2" + "," + "col3" == "col1,col2,col3";
    var lines := CsvLines(t, formatter);
    assert lines[0] == "col1,col2,col3";
    assert lines[1] == Join(FormatFields([1, 2, 3], formatter), ',');
    assert lines[2] == Join(FormatFields([4, 5, 6], formatter), ',');
    assert lines[3] == Join(FormatFields([7, 8, 9], formatter), ',');
  }

  /** Four lines, each followed by the line terminator. */
  lemma LinesText(a: string, b: string, c: string, d: string)
    ensures Lines([a, b, c, d]) == (a + "\n") + (b + "\n") + (c + "\n") + (d + "\n")
  {
    assert [a, b, c, d][1..] == [b, c, d];
    assert [b, c, d][1..] == [c, d];
    assert [c, d][1..] == [d];
    assert [d][1..] == [];
    assert Lines([d]) == d + "\n" + "";
    assert Lines([c, d]) == c + "\n" + (d + "\n");
    assert Lines([b, c, d]) == b + "\n" + (c + "\n" + (d + "\n"));
    ConcatAssociative(a + "\n", b + "\n", c + "\n", d + "\n");
  }

  /** A row of single-digit values under the default formatter: the digits joined by ",". */
  lemma DecimalDigitRow(a: int, b: int, c: int)
    requires 0 <= a <= 9 && 0 <= b <= 9 && 0 <= c <= 9
    ensures Join(FormatFields([a, b, c], DecimalFormatter), ',') == [DigitChar(a), ',', DigitChar(b), ',', DigitChar(c)]
  {
    FormatThree([a, b, c], DecimalFormatter);
    assert DecimalFormatter(a, 0) == [DigitChar(a)];
    assert DecimalFormatter(b, 1) == [DigitChar(b)];
    assert DecimalFormatter(c, 2) == [DigitChar(c)];
  }

  lemma DecimalRowTexts()
    ensures Join(FormatFields([1, 2, 3], DecimalFormatter), ',') == "1,2,3"
    ensures Join(FormatFields([4, 5, 6], DecimalFormatter), ',') == "4,5,6"
    ensures Join(FormatFields([7, 8, 9], DecimalFormatter), ',') == "7,8,9"
  {
    DecimalDigitRow(1, 2, 3);
    DecimalDigitRow(4, 5, 6);
    DecimalDigitRow(7, 8, 9);
  }

  lemma DoubledRowTexts()
    ensures Join(FormatFields([1, 2, 3], DoubleFirstColumn), ',') == "2,2,3"
    ensures Join(FormatFields([4, 5, 6], DoubleFirstColumn), ',') == "8,5,6"
    ensures Join(FormatFields([7, 8, 9], DoubleFirstColumn), ',') == "14,8,9"
  {
    assert Join(FormatFields([1, 2, 3], DoubleFirstColumn), ',') == "2,2,3" by {
      FormatThree([1, 2, 3], DoubleFirstColumn);
      assert DoubleFirstColumn(1, 0) == "2" && DoubleFirstColumn(2, 1) == "2" && DoubleFirstColumn(3, 2) == "3";
      assert "2" + "," + "2" + "," + "3" == "2,2,3";
    }
    assert Join(FormatFields([4, 5, 6], DoubleFirstColumn), ',') == "8,5,6" by {
      FormatThree([4, 5, 6], DoubleFirstColumn);
      assert DoubleFirstColumn(4, 0) == "8" && DoubleFirstColumn(5, 1) == "5" && DoubleFirstColumn(6, 2) == "6";
      assert "8" + "," + "5" + "," + "6" == "8,5,6";
    }
    assert Join(FormatFields([7, 8, 9], DoubleFirstColumn), ',') == "14,8,9" by {
      FormatThree([7, 8, 9], DoubleFirstColumn);
      assert DoubleFirstColumn(7, 0) == "14" && DoubleFirstColumn(8, 1) == "8" && DoubleFirstColumn(9, 2) == "9";
      assert "14" + "," + "8" + "," + "9" == "14,8,9";
    }
  }

  /** The unit test's CSV with the default formatter. */
  lemma DefaultFormatterExample()
    ensures Csv(NineValueTable(), DecimalFormatter) == "col1,col2,col3\n" + "1,2,3\n" + "4,5,6\n" + "7,8,9\n"
  {
    NineValueLines(DecimalFormatter);
    DecimalRowTexts();
    assert CsvLines(NineValueTable(), DecimalFormatter) == ["col1,col2,col3", "1,2,3", "4,5,6", "7,8,9"];
    LinesText("col1,col2,col3", "1,2,3", "4,5,6", "7,8,9");
  }

  /** The unit test's CSV with the custom formatter: only column 0 is doubled. */
  lemma CustomFormatterExample()
    ensures Csv(NineValueTable(), DoubleFirstColumn) == "col1,col2,col3\n" + "2,2,3\n" + "8,5,6\n" + "14,8,9\n"
  {
    NineValueLines(DoubleFirstColumn);
    DoubledRowTexts();
    assert CsvLines(NineValueTable(), DoubleFirstColumn) == ["col1,col2,col3", "2,2,3", "8,5,6", "14,8,9"];
    LinesText("col1,col2,col3", "2,2,3", "8,5,6", "14,8,9");
  }
}
