/** When the sums are right: exactly which headers and which leftovers in the store break the end-to-end law. */
module SumLaws {
  import opened CStrings
  import opened Lines
  import opened Fields
  import opened Numbers
  import opened Redis
  import opened Dataset
  import opened DatasetRows
  import opened Queries
  import opened Pipeline

  /** Every file with this header that is loaded into this store is summed correctly. */
  ghost predicate SumLaw(store: Store, header: string) {
    forall text :: NUL !in text && LinesOf(text) != [] && LinesOf(text)[0] == header && FirstRowComplete(text) ==>
      SummedRight(store, text)
  }

  ghost predicate SummedRight(store: Store, text: string)
    requires FirstRowComplete(text)
  {
    var loaded := Load(store, text); StoreSum(loaded.store, loaded.schema, loaded.rows) == CsvSum(text)
  }

  // ---- Texts with given lines ----

  ghost predicate Plain(line: string) {
    '\n' !in line && NUL !in line
  }

  function Ended(lines: seq<string>): (ps: seq<Piece>)
    ensures |ps| == |lines|
  {
    seq(|lines|, i requires 0 <= i < |lines| => Piece(lines[i], "\r\n"))
  }

  lemma {:induction false} PlainText(lines: seq<string>)
    requires forall i :: 0 <= i < |lines| ==> Plain(lines[i])
    ensures NUL !in Rejoin(Ended(lines))
    decreases |lines|
  {
    if lines != [] {
      assert Ended(lines)[1..] == Ended(lines[1..]);
      PlainText(lines[1..]);
    }
  }

  lemma TextOf(lines: seq<string>) returns (text: string)
    requires forall i :: 0 <= i < |lines| ==> Plain(lines[i])
    ensures LinesOf(text) == lines && NUL !in text
  {
    var ps := Ended(lines);
    text := Rejoin(ps);
    PlainText(lines);
    assert IsSplit(ps);
    RejoinThenSplit(ps);
  }

  lemma {:induction false} PlainRow(row: seq<string>)
    requires row != [] && forall k :: 0 <= k < |row| ==> Plain(row[k])
    ensures Plain(Row(row)) && (row[0] != "" ==> Row(row) != "")
    decreases |row|
  {
    if |row| > 1 { PlainRow(row[1..]); }
  }

  /** A row of one character in one column and another one in the others. */
  function Marked(n: nat, i: nat, mark: char, other: char): (row: seq<string>)
    ensures |row| == n && forall k :: 0 <= k < n ==> row[k] == if k == i then [mark] else [other]
  {
    seq(n, k => if k == i then [mark] else [other])
  }

  lemma MarkedLine(n: nat, i: nat, mark: char, other: char)
    requires n > 0 && mark !in {',', '\n', NUL} && other !in {',', '\n', NUL}
    ensures FieldsOf(Row(Marked(n, i, mark, other))) == Marked(n, i, mark, other)
    ensures Plain(Row(Marked(n, i, mark, other)))
  {
    var row := Marked(n, i, mark, other);
    PlainRow(row);
    RowThenFields(row);
  }

  lemma SingleDigits()
    ensures Atoll("0") == 0 && Atoll("1") == 1
  {
    AtollOfDecimal(0);
    AtollOfDecimal(1);
    assert Decimal(1) == "1" && Decimal(0) == "0";
  }

  lemma Refutes(store: Store, header: string, text: string)
    requires NUL !in text && LinesOf(text) != [] && LinesOf(text)[0] == header && FirstRowComplete(text)
    requires !SummedRight(store, text)
    ensures !SumLaw(store, header)
  {
  }

  // ---- Distinct names are needed ----

  /** The columns other than the later one of two equal names say "0", and so does what is stored for both. */
  lemma {:induction false} OnlyZerosLeft(names: seq<string>, i: nat, j: nat, k: nat, f: string)
    requires i < j < |names| && names[i] == names[j] && k <= |names|
    requires f in RowHash(names, Marked(|names|, i, '1', '0'), k)
    ensures var v := RowHash(names, Marked(|names|, i, '1', '0'), k)[f];
      v == "0" || (v == "1" && f == names[i] && k <= j)
    decreases k
  {
    var row := Marked(|names|, i, '1', '0');
    if f == names[k - 1] {
      assert RowHash(names, row, k)[f] == row[k - 1];
    } else {
      assert RowHash(names, row, k)[f] == RowHash(names, row, k - 1)[f];
      OnlyZerosLeft(names, i, j, k - 1, f);
    }
  }

  lemma {:induction false} UnitCells(schema: seq<Column>, i: nat, k: nat)
    requires k <= |schema| && i < |schema| && forall c :: 0 <= c < |schema| ==> schema[c].isInt
    ensures CellSum(schema, Marked(|schema|, i, '1', '0'), k) == if i < k then 1 else 0
    decreases k
  {
    SingleDigits();
    if k != 0 { UnitCells(schema, i, k - 1); }
  }

  /** All columns are int columns of a row of digits. */
  lemma DigitsAreInts(names: seq<string>, i: nat)
    ensures forall c :: 0 <= c < |names| ==> Inferred(names, Marked(|names|, i, '1', '0'))[c].isInt
  {
  }

  /** Stored over any older hash, the row is worth nothing. */
  lemma UnitRowStored(names: seq<string>, old_: Hash, i: nat, j: nat)
    requires i < j < |names| && names[i] == names[j]
    ensures var row := Marked(|names|, i, '1', '0');
      HashSum(Inferred(names, row), old_ + RowHash(names, row, |names|), |names|) == 0
  {
    var row := Marked(|names|, i, '1', '0');
    var schema, new_ := Inferred(names, row), RowHash(names, row, |names|);
    SingleDigits();
    RowHashFields(names, row, |names|);
    forall c | 0 <= c < |names|
      ensures names[c] in new_ && Atoll((old_ + new_)[names[c]]) == 0
    {
      assert names[c] in names[..|names|];
      OnlyZerosLeft(names, i, j, |names|, names[c]);
    }
    NothingLeft(schema, old_ + new_, 0, |names|);
  }

  /** With a repeated name, one data row is enough to break the law, whatever the store holds. */
  lemma RepeatedNameBreaksSum(store: Store, header: string, i: nat, j: nat)
    requires Plain(header) && i < j < |Names(header)| && Names(header)[i] == Names(header)[j]
    ensures !SumLaw(store, header)
  {
    var names := Names(header);
    var row := Marked(|names|, i, '1', '0');
    MarkedLine(|names|, i, '1', '0');
    var text := TextOf([header, Row(row)]);
    OneRowSums(store, text, header, Row(row));
    UnitRowStored(names, HashAt(store, RowKey(1)), i, j);
    DigitsAreInts(names, i);
    UnitCells(Inferred(names, row), i, |names|);
    Refutes(store, header, text);
  }

  lemma OneRowSums(store: Store, text: string, header: string, line: string)
    requires LinesOf(text) == [header, line] && |FieldsOf(line)| == |Names(header)|
    ensures FirstRowComplete(text)
    ensures var names, loaded := Names(header), Load(store, text); var schema := Inferred(names, FieldsOf(line));
      && StoreSum(loaded.store, loaded.schema, loaded.rows)
         == HashSum(schema, HashAt(store, RowKey(1)) + RowHash(names, FieldsOf(line), |names|), |names|)
      && CsvSum(text) == CellSum(schema, FieldsOf(line), |names|)
  {
    var loaded := Load(store, text);
    var one := loaded.rows;
    RowsMerged(store, text);
    assert LinesOf(text)[2..] == [] && LinesOf(text)[1..] == [line];
    assert DataLines(LinesOf(text)) == [line];
    assert StoreSum(loaded.store, loaded.schema, one - 1) == 0;
    LinesSumCons(loaded.schema, [line]);
  }

  // ---- Harmful leftovers ----

  lemma {:induction false} OneIntColumn(schema: seq<Column>, hash: Hash, i: nat, k: nat)
    requires i < |schema| && k <= |schema| && forall c :: 0 <= c < |schema| ==> (schema[c].isInt <==> c == i)
    ensures HashSum(schema, hash, k) == if i < k && schema[i].name in hash then Atoll(hash[schema[i].name]) else 0
    decreases k
  {
    if k != 0 { OneIntColumn(schema, hash, i, k - 1); }
  }

  lemma {:induction false} OneIntCell(schema: seq<Column>, row: seq<string>, i: nat, k: nat)
    requires i < |schema| && k <= |schema| && k <= |row|
    requires forall c :: 0 <= c < |schema| ==> (schema[c].isInt <==> c == i)
    ensures CellSum(schema, row, k) == if i < k then Atoll(row[i]) else 0
    decreases k
  {
    if k != 0 { OneIntCell(schema, row, i, k - 1); }
  }

  /** A complete first row in which only column i is an int column, worth 0, then n lines without any token. */
  function Probe(names: seq<string>, i: nat, n: nat): (lines: seq<string>)
    ensures |lines| == n + 1
  {
    [Row(Marked(|names|, i, '0', 'x'))] + seq(n, _ => ",")
  }

  lemma {:induction false} ProbeKept(n: nat)
    ensures NonEmpty(seq(n, _ => ",")) == seq(n, _ => ",")
    decreases n
  {
    if n > 0 {
      assert seq(n, _ => ",") == [","] + seq(n - 1, _ => ",");
      ProbeKept(n - 1);
      NonEmptyCons(",", seq(n - 1, _ => ","));
    }
  }

  ghost predicate OnlyInt(schema: seq<Column>, names: seq<string>, i: nat) {
    && |schema| == |names| && i < |names|
    && forall c :: 0 <= c < |names| ==> schema[c].name == names[c] && (schema[c].isInt <==> c == i)
  }

  lemma ProbeSchema(names: seq<string>, i: nat)
    requires i < |names|
    ensures OnlyInt(Inferred(names, Marked(|names|, i, '0', 'x')), names, i)
  {
    var row := Marked(|names|, i, '0', 'x');
    forall c | 0 <= c < |names|
      ensures IsIntToken(row[c]) <==> c == i
    {
      assert row[c][0] == if c == i then '0' else 'x';
    }
  }

  /** The text itself is worth nothing. */
  lemma {:induction false} ProbeLines(schema: seq<Column>, names: seq<string>, i: nat, n: nat)
    requires OnlyInt(schema, names, i)
    ensures LinesSum(schema, Probe(names, i, n)) == 0
    decreases n
  {
    SingleDigits();
    if n == 0 {
      MarkedLine(|names|, i, '0', 'x');
      OneIntCell(schema, Marked(|names|, i, '0', 'x'), i, |names|);
      LinesSumCons(schema, Probe(names, i, 0));
    } else {
      ProbeLines(schema, names, i, n - 1);
      assert Probe(names, i, n) == Probe(names, i, n - 1) + [","];
      LinesSumAppend(schema, Probe(names, i, n - 1), [","]);
      LinesSumCons(schema, [","]);
      assert FieldsOf(",") == [];
    }
  }

  /** What row r of the store is worth in column i. */
  ghost function Leftover(store: Store, r: nat, name: string): int {
    var hash := HashAt(store, RowKey(r)); if name in hash then Atoll(hash[name]) else 0
  }

  /** What is read back is what was left over in the rows 2, ..., r. */
  lemma {:induction false} ProbeRead(
      old_: Store, store: Store, schema: seq<Column>, names: seq<string>, i: nat, n: nat, r: nat)
    requires Distinct(names) && OnlyInt(schema, names, i) && r <= n + 1
    requires forall q :: 1 <= q <= n + 1 ==>
      HashAt(store, RowKey(q)) == HashAt(old_, RowKey(q)) + HashOfLine(names, Probe(names, i, n)[q - 1])
    requires forall q :: 2 <= q < r ==> Leftover(old_, q, names[i]) == 0
    ensures StoreSum(store, schema, r) == if r >= 2 then Leftover(old_, r, names[i]) else 0
    decreases r
  {
    if r > 0 {
      ProbeRead(old_, store, schema, names, i, n, r - 1);
      OneIntColumn(schema, HashAt(store, RowKey(r)), i, |names|);
      if r == 1 {
        ProbeFirstRow(names, i);
      } else {
        assert Probe(names, i, n)[r - 1] == "," && FieldsOf(",") == [];
      }
    }
  }

  lemma ProbeFirstRow(names: seq<string>, i: nat)
    requires Distinct(names) && i < |names|
    ensures var hash := HashOfLine(names, Probe(names, i, 0)[0]); names[i] in hash && Atoll(hash[names[i]]) == 0
  {
    SingleDigits();
    MarkedLine(|names|, i, '0', 'x');
    RowHashWithDistinctNames(names, Marked(|names|, i, '0', 'x'), |names|);
  }

  /** A leftover that is worth something in the column of some name breaks the law: a file with short rows
      down to that row does not overwrite it. */
  lemma LeftoverBreaksSum(store: Store, header: string, r: nat, i: nat)
    requires Plain(header) && Distinct(Names(header)) && i < |Names(header)| && r >= 2
    requires Leftover(store, r, Names(header)[i]) != 0
    requires forall q :: 2 <= q < r ==> Leftover(store, q, Names(header)[i]) == 0
    ensures !SumLaw(store, header)
  {
    PlainProbe(header, i, r - 1);
    var text := TextOf([header] + Probe(Names(header), i, r - 1));
    ProbeSums(store, text, header, i, r - 1);
    Refutes(store, header, text);
  }

  lemma PlainProbe(header: string, i: nat, n: nat)
    requires Plain(header) && i < |Names(header)|
    ensures var lines := [header] + Probe(Names(header), i, n); forall l :: 0 <= l < |lines| ==> Plain(lines[l])
  {
    MarkedLine(|Names(header)|, i, '0', 'x');
    AllPlain(header, Row(Marked(|Names(header)|, i, '0', 'x')), seq(n, _ => ","));
  }

  lemma AllPlain(header: string, first: string, short: seq<string>)
    requires Plain(header) && Plain(first) && forall l :: 0 <= l < |short| ==> short[l] == ","
    ensures var lines := [header] + ([first] + short); forall l :: 0 <= l < |lines| ==> Plain(lines[l])
  {
  }

  /** The text is worth nothing, what is read back is the leftover. */
  lemma ProbeSums(store: Store, text: string, header: string, i: nat, n: nat)
    requires i < |Names(header)| && Distinct(Names(header)) && n >= 1
    requires LinesOf(text) == [header] + Probe(Names(header), i, n)
    requires forall q :: 2 <= q < n + 1 ==> Leftover(store, q, Names(header)[i]) == 0
    ensures FirstRowComplete(text) && CsvSum(text) == 0
    ensures var loaded := Load(store, text);
      StoreSum(loaded.store, loaded.schema, loaded.rows) == Leftover(store, n + 1, Names(header)[i])
  {
    ProbeLoaded(store, text, header, i, n);
    var loaded := Load(store, text);
    ProbeRead(store, loaded.store, loaded.schema, Names(header), i, n, n + 1);
    ProbeLines(loaded.schema, Names(header), i, n);
  }

  lemma ProbeLoaded(store: Store, text: string, header: string, i: nat, n: nat)
    requires i < |Names(header)| && LinesOf(text) == [header] + Probe(Names(header), i, n)
    ensures FirstRowComplete(text)
    ensures var names, loaded, data := Names(header), Load(store, text), Probe(Names(header), i, n);
      && loaded.rows == n + 1 && OnlyInt(loaded.schema, names, i) && CsvSum(text) == LinesSum(loaded.schema, data)
      && forall q :: 1 <= q <= n + 1 ==>
           HashAt(loaded.store, RowKey(q)) == HashAt(store, RowKey(q)) + HashOfLine(names, data[q - 1])
  {
    var names, lines, data := Names(header), LinesOf(text), Probe(Names(header), i, n);
    MarkedLine(|names|, i, '0', 'x');
    ProbeSchema(names, i);
    ProbeKept(n);
    assert lines[1] == data[0] && lines[1..] == data && lines[2..] == seq(n, _ => ",");
    assert DataLines(lines) == data;
    RowsMerged(store, text);
  }

  lemma {:induction false} FirstLeftover(store: Store, name: string, r: nat) returns (q: nat)
    requires r >= 2 && Leftover(store, r, name) != 0
    ensures 2 <= q <= r && Leftover(store, q, name) != 0
    ensures forall p :: 2 <= p < q ==> Leftover(store, p, name) == 0
    decreases r
  {
    if p :| 2 <= p < r && Leftover(store, p, name) != 0 {
      q := FirstLeftover(store, name, p);
    } else {
      q := r;
    }
  }

  /** The sums are right for every body of a file exactly when the names in its header are distinct after
      clipping to 63 characters, and no row left over from an earlier load is worth anything under them. */
  lemma SumLawIff(store: Store, header: string)
    requires Plain(header)
    ensures SumLaw(store, header) <==> Distinct(Names(header)) && LeftoversHarmless(store, Names(header))
  {
    var names := Names(header);
    if !Distinct(names) {
      var i, j :| 0 <= i < j < |names| && names[i] == names[j];
      RepeatedNameBreaksSum(store, header, i, j);
    } else if !LeftoversHarmless(store, names) {
      var r: nat :| r >= 2 && !Harmless(HashAt(store, RowKey(r)), names, 0);
      var hash := HashAt(store, RowKey(r));
      var i :| 0 <= i < |names| && names[i] in hash && Atoll(hash[names[i]]) != 0;
      var q := FirstLeftover(store, names[i], r);
      LeftoverBreaksSum(store, header, q, i);
    } else {
      forall text | NUL !in text && LinesOf(text) != [] && LinesOf(text)[0] == header && FirstRowComplete(text)
        ensures SummedRight(store, text)
      {
        EndToEnd(store, text);
      }
    }
  }

  /** Into a store without rows, the sums are right for every body exactly when the names are distinct. */
  lemma SumLawIffDistinctNames(store: Store, header: string)
    requires Plain(header) && NoRows(store)
    ensures SumLaw(store, header) <==> Distinct(Names(header))
  {
    NoRowsHarmless(store, Names(header));
    SumLawIff(store, header);
  }
}
