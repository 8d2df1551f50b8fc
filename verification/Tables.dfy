/** Tables of integers and words: written as CSV, loaded and queried, they give back their cells, their column
    types and the sum of their integers. */
module Tables {
  import opened Lines
  import opened Fields
  import opened Numbers
  import opened Redis
  import opened Dataset
  import opened DatasetRows
  import opened Queries
  import opened Pipeline

  datatype Cell = Num(n: int) | Word(s: string)

  function Shown(cell: Cell): string {
    if cell.Num? then Printed(cell.n) else cell.s
  }

  function ShownRow(row: seq<Cell>): (shown: seq<string>)
    ensures |shown| == |row| && forall c :: 0 <= c < |row| ==> shown[c] == Shown(row[c])
  {
    seq(|row|, c requires 0 <= c < |row| => Shown(row[c]))
  }

  /** The header and one line for each row. */
  function CsvLines(names: seq<string>, table: seq<seq<Cell>>): (lines: seq<string>)
    ensures |lines| == 1 + |table| && lines[0] == Row(names)
    ensures forall r :: 0 <= r < |table| ==> lines[r + 1] == Row(ShownRow(table[r]))
  {
    [Row(names)] + seq(|table|, r requires 0 <= r < |table| => Row(ShownRow(table[r])))
  }

  ghost predicate Token(s: string) {
    s != "" && ',' !in s
  }

  /** Between one and 32 distinct names of at most 63 characters. */
  ghost predicate GoodNames(names: seq<string>) {
    1 <= |names| <= 32 && Distinct(names) && forall c :: 0 <= c < |names| ==> Token(names[c]) && |names[c]| <= 63
  }

  /** A row with integers in the number columns and words in the others. */
  ghost predicate GoodRow(numbers: seq<bool>, row: seq<Cell>) {
    && |row| == |numbers|
    && forall c :: 0 <= c < |row| ==> if numbers[c] then row[c].Num? else row[c].Word? && Token(row[c].s)
  }

  /** In the first row the words cannot be taken for numbers. */
  ghost predicate ClearWords(row: seq<Cell>) {
    forall c :: 0 <= c < |row| && row[c].Word? ==> exists x :: x in row[c].s && x !in "0123456789-"
  }

  ghost predicate GoodTable(names: seq<string>, numbers: seq<bool>, table: seq<seq<Cell>>) {
    && GoodNames(names) && |numbers| == |names| && table != [] && ClearWords(table[0])
    && forall r :: 0 <= r < |table| ==> GoodRow(numbers, table[r])
  }

  /** The integers of the first k cells. */
  function RowTotal(row: seq<Cell>, k: nat): int
    requires k <= |row|
  {
    if k == 0 then 0 else RowTotal(row, k - 1) + (if row[k - 1].Num? then row[k - 1].n else 0)
  }

  /** The sum of all integers of a table. */
  function TableTotal(table: seq<seq<Cell>>): int {
    if table == [] then 0 else RowTotal(table[0], |table[0]|) + TableTotal(table[1..])
  }

  lemma PrintedIsToken(n: int)
    ensures Token(Printed(n))
  {
    var m: nat := if n < 0 then -n else n;
    DecimalDigits(m);
    assert forall k :: 0 <= k < |Printed(n)| ==> Printed(n)[k] != ',';
  }

  lemma RowRead(numbers: seq<bool>, row: seq<Cell>)
    requires GoodRow(numbers, row) && row != []
    ensures FieldsOf(Row(ShownRow(row))) == ShownRow(row) && Row(ShownRow(row)) != ""
  {
    forall c | 0 <= c < |row|
      ensures Token(ShownRow(row)[c])
    {
      if row[c].Num? { PrintedIsToken(row[c].n); }
    }
    RowThenFields(ShownRow(row));
  }

  lemma HeaderRead(names: seq<string>)
    requires GoodNames(names)
    ensures Names(Row(names)) == names
  {
    RowThenFields(names);
    NamesOfFields(Row(names));
  }

  ghost predicate SchemaIs(schema: seq<Column>, names: seq<string>, numbers: seq<bool>) {
    |schema| == |names| == |numbers| && forall c :: 0 <= c < |names| ==> schema[c] == Column(names[c], numbers[c])
  }

  lemma TypesRead(names: seq<string>, numbers: seq<bool>, row: seq<Cell>)
    requires |names| == |numbers| && GoodRow(numbers, row) && ClearWords(row)
    ensures SchemaIs(Inferred(names, ShownRow(row)), names, numbers)
  {
    forall c | 0 <= c < |row|
      ensures IsIntToken(ShownRow(row)[c]) <==> numbers[c]
    {
      if numbers[c] { PrintedIsIntToken(row[c].n); } else { IntTokenCharacters(row[c].s); }
    }
  }

  lemma {:induction false} RowSummed(
      schema: seq<Column>, names: seq<string>, numbers: seq<bool>, row: seq<Cell>, k: nat)
    requires SchemaIs(schema, names, numbers) && GoodRow(numbers, row) && k <= |row|
    ensures CellSum(schema, ShownRow(row), k) == RowTotal(row, k)
    decreases k
  {
    if k > 0 {
      RowSummed(schema, names, numbers, row, k - 1);
      if numbers[k - 1] { AtollOfPrinted(row[k - 1].n); }
    }
  }

  lemma {:induction false} RowsSummed(
      schema: seq<Column>, names: seq<string>, numbers: seq<bool>, table: seq<seq<Cell>>, lines: seq<string>)
    requires SchemaIs(schema, names, numbers) && names != [] && |lines| == |table|
    requires forall r :: 0 <= r < |table| ==> GoodRow(numbers, table[r]) && lines[r] == Row(ShownRow(table[r]))
    ensures LinesSum(schema, lines) == TableTotal(table)
    decreases |table|
  {
    if table != [] {
      RowRead(numbers, table[0]);
      RowSummed(schema, names, numbers, table[0], |table[0]|);
      RowsSummed(schema, names, numbers, table[1..], lines[1..]);
      LinesSumCons(schema, lines);
    }
  }

  lemma {:induction false} AllKept(lines: seq<string>)
    requires forall l :: 0 <= l < |lines| ==> lines[l] != ""
    ensures NonEmpty(lines) == lines
    decreases |lines|
  {
    if lines != [] {
      AllKept(lines[1..]);
      assert lines == [lines[0]] + lines[1..];
    }
  }

  lemma AllData(lines: seq<string>)
    requires |lines| >= 2 && forall l :: 1 <= l < |lines| ==> lines[l] != ""
    ensures DataLines(lines) == lines[1..]
  {
    AllKept(lines[2..]);
    assert lines[1..] == [lines[1]] + lines[2..];
  }

  lemma TableLinesRead(lines: seq<string>, names: seq<string>, numbers: seq<bool>, table: seq<seq<Cell>>)
    requires GoodTable(names, numbers, table) && lines == CsvLines(names, table)
    ensures forall l :: 1 <= l < |lines| ==> lines[l] != "" && FieldsOf(lines[l]) == ShownRow(table[l - 1])
  {
    forall l | 1 <= l < |lines|
      ensures lines[l] != "" && FieldsOf(lines[l]) == ShownRow(table[l - 1])
    {
      assert lines[(l - 1) + 1] == Row(ShownRow(table[l - 1]));
      RowRead(numbers, table[l - 1]);
    }
  }

  /** What the lines of a table are, read one by one. */
  lemma TableRead(text: string, names: seq<string>, numbers: seq<bool>, table: seq<seq<Cell>>)
    requires GoodTable(names, numbers, table) && LinesOf(text) == CsvLines(names, table)
    ensures |LinesOf(text)| >= 2 && DataLines(LinesOf(text)) == LinesOf(text)[1..] && Names(LinesOf(text)[0]) == names
    ensures forall l :: 1 <= l < |LinesOf(text)| ==> FieldsOf(LinesOf(text)[l]) == ShownRow(table[l - 1])
    ensures FirstRowComplete(text) && SchemaIs(Inferred(names, FieldsOf(LinesOf(text)[1])), names, numbers)
  {
    var lines := LinesOf(text);
    HeaderRead(names);
    TableLinesRead(lines, names, numbers, table);
    AllData(lines);
    TypesRead(names, numbers, table[0]);
  }

  /** A table written as CSV and loaded into a store without rows: every cell is found under its row and its name,
      as it was written, and the columns have their types. */
  lemma TableLoaded(store: Store, text: string, names: seq<string>, numbers: seq<bool>, table: seq<seq<Cell>>)
    requires GoodTable(names, numbers, table) && LinesOf(text) == CsvLines(names, table) && NoRows(store)
    ensures FirstRowComplete(text)
    ensures var loaded := Load(store, text);
      && loaded.rows == |table| && SchemaIs(loaded.schema, names, numbers)
      && forall r, c :: 0 <= r < |table| && 0 <= c < |names| ==>
           var hash := HashAt(loaded.store, "row:" + Decimal(r + 1));
           names[c] in hash && c < |table[r]| && hash[names[c]] == Shown(table[r][c])
  {
    TableRead(text, names, numbers, table);
    RowsLoaded(store, text);
    var loaded := Load(store, text);
    forall r, c | 0 <= r < |table| && 0 <= c < |names|
      ensures var hash := HashAt(loaded.store, "row:" + Decimal(r + 1));
        names[c] in hash && c < |table[r]| && hash[names[c]] == Shown(table[r][c])
    {
      CellStored(store, text, names, numbers, table, r + 1, c);
    }
  }

  lemma CellStored(
      store: Store, text: string, names: seq<string>, numbers: seq<bool>, table: seq<seq<Cell>>, r: nat, c: nat)
    requires GoodTable(names, numbers, table) && LinesOf(text) == CsvLines(names, table) && NoRows(store)
    requires FirstRowComplete(text) && 1 <= r <= |table| && c < |names|
    ensures var hash := HashAt(Load(store, text).store, RowKey(r));
      names[c] in hash && c < |table[r - 1]| && hash[names[c]] == Shown(table[r - 1][c])
  {
    TableRead(text, names, numbers, table);
    RowsLoaded(store, text);
    TokensStored(store, text, r);
    assert DataLines(LinesOf(text))[r - 1] == LinesOf(text)[r];
    assert GoodRow(numbers, table[r - 1]);
  }

  /** Loaded and queried, it gives the sum of its integers: that is what the queries read from the store, and what
      they print when the server answers. */
  lemma TableQueried(
      store: Store, text: string, names: seq<string>, numbers: seq<bool>, table: seq<seq<Cell>>, replies: seq<Reply>)
    requires GoodTable(names, numbers, table) && LinesOf(text) == CsvLines(names, table) && NoRows(store)
    requires FirstRowComplete(text)
    requires var loaded := Load(store, text);
      |replies| == loaded.rows && Answers(loaded.store, replies) && AllArrays(replies)
    ensures Total(Load(store, text).schema, replies) == TableTotal(table) == CsvSum(text)
  {
    TableRead(text, names, numbers, table);
    var lines, loaded := LinesOf(text), Load(store, text);
    NoRowsHarmless(store, names);
    EndToEnd(store, text);
    TotalIsStoreSum(loaded.store, loaded.schema, replies);
    forall r | 0 <= r < |table|
      ensures GoodRow(numbers, table[r]) && lines[1..][r] == Row(ShownRow(table[r]))
    {
    }
    RowsSummed(loaded.schema, names, numbers, table, lines[1..]);
  }
}
