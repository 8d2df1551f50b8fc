/** From the CSV text to the printed sums: loading and querying add up to the sum of the text's int columns. */
module Pipeline {
  import opened Arena
  import opened Lines
  import opened Fields
  import opened Numbers
  import opened Redis
  import opened Dataset
  import opened DatasetRows
  import opened Queries
  import opened Loader

  // ---- The sum read off the text ----

  /** The int columns of a row, among its first k fields. */
  function CellSum(schema: seq<Column>, row: seq<string>, k: nat): int
    requires k <= |schema| && k <= |row|
  {
    if k == 0 then 0
    else CellSum(schema, row, k - 1) + (if schema[k - 1].isInt then Atoll(row[k - 1]) else 0)
  }

  /** The int columns of a whole row. */
  function RowSumOf(schema: seq<Column>, row: seq<string>): int {
    CellSum(schema, row, Width(schema, row))
  }

  function LineSum(schema: seq<Column>, line: string): int {
    RowSumOf(schema, FieldsOf(line))
  }

  function LinesSum(schema: seq<Column>, lines: seq<string>): int {
    if lines == [] then 0 else LineSum(schema, lines[0]) + LinesSum(schema, lines[1..])
  }

  /** The sum of all int columns over all lines after the header, without any store. */
  function CsvSum(text: string): int {
    var lines := LinesOf(text);
    if |lines| < 2 then 0 else LinesSum(Inferred(Names(lines[0]), FieldsOf(lines[1])), lines[1..])
  }

  // ---- One row ----

  /** Fields that are worth nothing, or are not there, add nothing. */
  lemma {:induction false} NothingLeft(schema: seq<Column>, hash: Hash, lo: nat, hi: nat)
    requires lo <= hi <= |schema|
    requires forall i :: lo <= i < hi && schema[i].name in hash ==> Atoll(hash[schema[i].name]) == 0
    ensures HashSum(schema, hash, hi) == HashSum(schema, hash, lo)
    decreases hi - lo
  {
    if lo < hi { NothingLeft(schema, hash, lo, hi - 1); }
  }

  lemma {:induction false} HashSumIsCellSum(schema: seq<Column>, hash: Hash, row: seq<string>, k: nat)
    requires k <= |schema| && k <= |row|
    requires forall i :: 0 <= i < k ==> schema[i].name in hash && hash[schema[i].name] == row[i]
    ensures HashSum(schema, hash, k) == CellSum(schema, row, k)
    decreases k
  {
    if k != 0 { HashSumIsCellSum(schema, hash, row, k - 1); }
  }

  ghost predicate NamedBy(schema: seq<Column>, names: seq<string>) {
    |schema| == |names| && forall i :: 0 <= i < |names| ==> schema[i].name == names[i]
  }

  /** Left over from an earlier load, a hash is worth nothing in the columns from k on. */
  ghost predicate Harmless(hash: Hash, names: seq<string>, k: nat) {
    forall i :: k <= i < |names| && names[i] in hash ==> Atoll(hash[names[i]]) == 0
  }

  /** A line stored over an older hash: a column the line does not reach counts what is left there. */
  lemma RowSummed(schema: seq<Column>, names: seq<string>, old_: Hash, line: string)
    requires Distinct(names) && NamedBy(schema, names) && Harmless(old_, names, Width(names, FieldsOf(line)))
    ensures HashSum(schema, old_ + HashOfLine(names, line), |schema|) == LineSum(schema, line)
  {
    var row, k := FieldsOf(line), Width(names, FieldsOf(line));
    var hash := old_ + RowHash(names, row, k);
    RowHashWithDistinctNames(names, row, k);
    NothingLeft(schema, hash, k, |schema|);
    HashSumIsCellSum(schema, hash, row, k);
  }

  // ---- All rows ----

  lemma LinesSumCons(schema: seq<Column>, lines: seq<string>)
    requires lines != []
    ensures LinesSum(schema, lines) == LineSum(schema, lines[0]) + LinesSum(schema, lines[1..])
  {
  }

  lemma {:induction false} LinesSumAppend(schema: seq<Column>, a: seq<string>, b: seq<string>)
    ensures LinesSum(schema, a + b) == LinesSum(schema, a) + LinesSum(schema, b)
    decreases |a|
  {
    if a == [] {
      assert a + b == b;
    } else {
      assert (a + b)[0] == a[0] && (a + b)[1..] == a[1..] + b;
      LinesSumAppend(schema, a[1..], b);
      LinesSumCons(schema, a);
      LinesSumCons(schema, a + b);
    }
  }

  lemma LinesSumSnoc(schema: seq<Column>, lines: seq<string>, r: nat)
    requires r < |lines|
    ensures LinesSum(schema, lines[..r + 1]) == LinesSum(schema, lines[..r]) + LineSum(schema, lines[r])
  {
    assert lines[..r + 1] == lines[..r] + [lines[r]];
    LinesSumAppend(schema, lines[..r], [lines[r]]);
    LinesSumCons(schema, [lines[r]]);
  }

  /** Empty lines add nothing. */
  lemma {:induction false} EmptyLinesAddNothing(schema: seq<Column>, lines: seq<string>)
    ensures LinesSum(schema, NonEmpty(lines)) == LinesSum(schema, lines)
    decreases |lines|
  {
    if lines != [] {
      EmptyLinesAddNothing(schema, lines[1..]);
      if lines[0] == "" {
        assert FieldsOf("") == [];
        assert NonEmpty(lines) == NonEmpty(lines[1..]);
      } else {
        assert NonEmpty(lines) == [lines[0]] + NonEmpty(lines[1..]);
      }
    }
  }

  /** Row n holds the fields of a line over harmless older ones. */
  ghost predicate RowOver(old_: Store, store: Store, names: seq<string>, n: nat, line: string) {
    && HashAt(store, RowKey(n)) == HashAt(old_, RowKey(n)) + HashOfLine(names, line)
    && Harmless(HashAt(old_, RowKey(n)), names, Width(names, FieldsOf(line)))
  }

  lemma RowOverSummed(old_: Store, store: Store, schema: seq<Column>, names: seq<string>, n: nat, line: string)
    requires Distinct(names) && NamedBy(schema, names) && n > 0 && RowOver(old_, store, names, n, line)
    ensures StoreSum(store, schema, n) == StoreSum(store, schema, n - 1) + LineSum(schema, line)
  {
    RowSummed(schema, names, HashAt(old_, RowKey(n)), line);
  }

  lemma {:induction false} StoreSumIsLinesSum(
      old_: Store, store: Store, schema: seq<Column>, names: seq<string>, data: seq<string>, r: nat)
    requires Distinct(names) && NamedBy(schema, names) && r <= |data|
    requires forall n :: 0 <= n < |data| ==> RowOver(old_, store, names, n + 1, data[n])
    ensures StoreSum(store, schema, r) == LinesSum(schema, data[..r])
    decreases r
  {
    if r != 0 {
      StoreSumIsLinesSum(old_, store, schema, names, data, r - 1);
      RowOverSummed(old_, store, schema, names, r, data[r - 1]);
      LinesSumSnoc(schema, data, r - 1);
    }
  }

  /** What earlier loads left in rows 2, 3, ... is worth nothing under these names. Row 1 is always overwritten. */
  ghost predicate LeftoversHarmless(store: Store, names: seq<string>) {
    forall r: nat :: r >= 2 ==> Harmless(HashAt(store, RowKey(r)), names, 0)
  }

  lemma NoRowsHarmless(store: Store, names: seq<string>)
    requires NoRows(store)
    ensures LeftoversHarmless(store, names)
  {
  }

  /** The names and the store a file with this first line is loaded into fit. */
  ghost predicate Loadable(store: Store, header: string) {
    Distinct(Names(header)) && LeftoversHarmless(store, Names(header))
  }

  /** The end-to-end law: with distinct column names and no harmful leftovers in the store, what the queries
      read from the store is the sum of the text. */
  lemma EndToEnd(store: Store, text: string)
    requires FirstRowComplete(text) && (LinesOf(text) != [] ==> Loadable(store, LinesOf(text)[0]))
    ensures var loaded := Load(store, text); StoreSum(loaded.store, loaded.schema, loaded.rows) == CsvSum(text)
  {
    var lines, loaded := LinesOf(text), Load(store, text);
    if |lines| >= 2 {
      var data := DataLines(lines);
      RowsMerged(store, text);
      forall n | 0 <= n < |data|
        ensures RowOver(store, loaded.store, Names(lines[0]), n + 1, data[n])
      {
        RowIsOver(store, loaded.store, Names(lines[0]), n, data[n]);
      }
      StoreSumIsLinesSum(store, loaded.store, loaded.schema, Names(lines[0]), data, |data|);
      assert data[..|data|] == data;
      DataLinesSum(loaded.schema, lines);
    }
  }

  lemma RowIsOver(old_: Store, store: Store, names: seq<string>, n: nat, line: string)
    requires LeftoversHarmless(old_, names) && (n == 0 ==> |FieldsOf(line)| >= |names|)
    requires HashAt(store, RowKey(n + 1)) == HashAt(old_, RowKey(n + 1)) + HashOfLine(names, line)
    ensures RowOver(old_, store, names, n + 1, line)
  {
    if n > 0 { assert Harmless(HashAt(old_, RowKey(n + 1)), names, 0); }
  }

  lemma DataLinesSum(schema: seq<Column>, lines: seq<string>)
    requires |lines| >= 2
    ensures LinesSum(schema, DataLines(lines)) == LinesSum(schema, lines[1..])
  {
    LinesSumAppend(schema, [lines[1]], NonEmpty(lines[2..]));
    LinesSumAppend(schema, [lines[1]], lines[2..]);
    EmptyLinesAddNothing(schema, lines[2..]);
    assert [lines[1]] + lines[2..] == lines[1..];
  }

  // ---- The program ----

  ghost predicate FileLoadable(store: Store, file: File) {
    Complete(file) ==>
      var text := Visible(file.content);
      FirstRowComplete(text) && (LinesOf(text) != [] ==> Loadable(store, LinesOf(text)[0]))
  }

  /** Loading, then the two queries that sum. When the server answers every HGETALL, both totals are the sum
      of the text. */
  method LoadAndQuery(redis: Server, arena: FpgaArena, file: File, schema: array<Column>)
    returns (projected: int, aggregated: int, replies1: seq<Reply>, replies2: seq<Reply>, exited: bool)
    requires schema.Length == MAX_COLS && arena.Valid() && BufferFits(arena.base, arena.cur, file)
    requires FileLoadable(redis.store, file)
    modifies redis, arena, schema
    ensures exited == ExitsOn(old(arena.base), old(arena.cur), old(arena.end), file)
    ensures exited ==> redis.store == old(redis.store) && redis.asked == old(redis.asked)
    ensures !exited ==> redis.asked == old(redis.asked) + Asked(replies1) + Asked(replies2)
    ensures !exited && Complete(file) ==>
      var loaded := Load(old(redis.store), Visible(file.content));
      && redis.store == loaded.store && |replies1| == |replies2| == loaded.rows
      && Answers(redis.store, replies1) && Answers(redis.store, replies2)
      && projected == Total(loaded.schema, replies1) && aggregated == Total(loaded.schema, replies2)
    ensures !exited && !Complete(file) ==> redis.store == old(redis.store) && replies1 == replies2 == []
    ensures !exited && Complete(file) && AllArrays(replies1) ==> projected == CsvSum(Visible(file.content))
    ensures !exited && Complete(file) && AllArrays(replies2) ==> aggregated == CsvSum(Visible(file.content))
    ensures !exited && !Complete(file) ==> projected == aggregated == 0
  {
    projected, aggregated, replies1, replies2 := 0, 0, [], [];
    ghost var store := redis.store;
    var rows, ns;
    rows, ns, exited := LoadDataset(redis, arena, file, schema);
    if exited {
      return;
    }
    if Complete(file) { EndToEnd(store, Visible(file.content)); }
    var avg, count;
    avg, projected, count, replies1 := Project(redis, rows, schema, ns);
    aggregated, replies2 := Aggregate(redis, rows, schema, ns);
  }
}
