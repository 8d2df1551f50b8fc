/** What the loader leaves in the store: one hash per data row, under keys of its own. */
module DatasetRows {
  import opened Lines
  import opened Fields
  import opened Numbers
  import opened Redis
  import opened Dataset

  /** The hash of a row's first k fields; of equal names the last one wins. */
  function RowHash(names: seq<string>, row: seq<string>, k: nat): Hash
    requires k <= |names| && k <= |row|
  {
    if k == 0 then map[] else RowHash(names, row, k - 1)[names[k - 1] := row[k - 1]]
  }

  function HashOfLine(names: seq<string>, line: string): Hash {
    RowHash(names, FieldsOf(line), Width(names, FieldsOf(line)))
  }

  /** The lines that become rows. */
  function DataLines(lines: seq<string>): seq<string>
    requires |lines| >= 2
  {
    [lines[1]] + NonEmpty(lines[2..])
  }

  ghost predicate NoRows(store: Store) {
    forall n: nat :: RowKey(n) !in store
  }

  /** `row:%d` gives every row its own key. */
  lemma RowKeyInjective(m: nat, n: nat)
    requires RowKey(m) == RowKey(n)
    ensures m == n
  {
    assert RowKey(m)[4..] == Decimal(m) && RowKey(n)[4..] == Decimal(n);
    AtollOfDecimal(m);
    AtollOfDecimal(n);
  }

  /** The text of a row key: "row:" and the digits of the number, without leading zeros. */
  lemma RowKeyText(n: nat)
    ensures RowKey(n)[..4] == "row:" && |RowKey(n)| > 4
    ensures forall k :: 4 <= k < |RowKey(n)| ==> RowKey(n)[k] in "0123456789"
    ensures Atoll(RowKey(n)[4..]) == n && (n > 0 ==> RowKey(n)[4] != '0')
  {
    assert RowKey(n)[4..] == Decimal(n);
    AtollOfDecimal(n);
    DecimalDigits(n);
    NoLeadingZero(n);
    forall k | 4 <= k < |RowKey(n)|
      ensures RowKey(n)[k] in "0123456789"
    {
      assert RowKey(n)[k] == Decimal(n)[k - 4] && IsDigit(Decimal(n)[k - 4]);
    }
  }

  /** A key of that form is the one of its number. */
  lemma RowKeyOfText(digits: string)
    requires digits != "" && digits[0] != '0' && forall k :: 0 <= k < |digits| ==> digits[k] in "0123456789"
    ensures Atoll(digits) > 0 && "row:" + digits == RowKey(Atoll(digits))
  {
    forall k | 0 <= k < |digits|
      ensures IsDigit(digits[k])
    {
      assert digits[k] in "0123456789";
    }
    var n := CanonicalNumeral(digits);
    AtollOfDecimal(n);
  }

  lemma SchemaIsNoRow(n: nat)
    ensures RowKey(n) != "schema"
  {
    assert RowKey(n)[0] == 'r';
  }

  lemma {:induction false} WithRowHash(store: Store, key: string, names: seq<string>, row: seq<string>, k: nat)
    requires k <= |names| && k <= |row|
    ensures HashAt(WithRow(store, key, names, row, k), key) == HashAt(store, key) + RowHash(names, row, k)
    decreases k
  {
    if k != 0 { WithRowHash(store, key, names, row, k - 1); }
  }

  lemma {:induction false} WithRowOther(
      store: Store, key: string, names: seq<string>, row: seq<string>, k: nat, other: string)
    requires k <= |names| && k <= |row| && other != key
    ensures other in WithRow(store, key, names, row, k) <==> other in store
    ensures HashAt(WithRow(store, key, names, row, k), other) == HashAt(store, other)
    decreases k
  {
    if k != 0 { WithRowOther(store, key, names, row, k - 1, other); }
  }

  lemma {:induction false} WithSchemaOther(store: Store, cols: seq<Column>, k: nat, other: string)
    requires k <= |cols| && other != "schema"
    ensures other in WithSchema(store, cols, k) <==> other in store
    ensures HashAt(WithSchema(store, cols, k), other) == HashAt(store, other)
    decreases k
  {
    if k != 0 { WithSchemaOther(store, cols, k - 1, other); }
  }

  /** A store differs from another one only in the rows lo + 1, ..., hi. */
  ghost predicate OnlyRows(store: Store, store': Store, lo: nat, hi: nat) {
    forall key :: NoRowOf(key, lo, hi) ==> SameAt(store, store', key)
  }

  ghost predicate NoRowOf(key: string, lo: nat, hi: nat) {
    forall n :: lo < n <= hi ==> key != RowKey(n)
  }

  ghost predicate SameAt(store: Store, store': Store, key: string) {
    (key in store' <==> key in store) && HashAt(store', key) == HashAt(store, key)
  }

  lemma OtherRowKept(store: Store, store': Store, lo: nat, hi: nat, n: nat)
    requires OnlyRows(store, store', lo, hi) && !(lo < n <= hi)
    ensures SameAt(store, store', RowKey(n))
  {
    forall m | lo < m <= hi
      ensures RowKey(n) != RowKey(m)
    {
      if RowKey(n) == RowKey(m) { RowKeyInjective(n, m); }
    }
    assert NoRowOf(RowKey(n), lo, hi);
  }

  lemma OnlyRowsCompose(store: Store, mid: Store, store': Store, lo: nat, at: nat, hi: nat)
    requires lo <= at <= hi && OnlyRows(store, mid, lo, at) && OnlyRows(mid, store', at, hi)
    ensures OnlyRows(store, store', lo, hi)
  {
    forall key | NoRowOf(key, lo, hi)
      ensures SameAt(store, store', key)
    {
      assert NoRowOf(key, lo, at) && NoRowOf(key, at, hi);
      assert SameAt(store, mid, key) && SameAt(mid, store', key);
    }
  }

  /** One row stored: its hash, and nothing else. */
  lemma RowStored(store: Store, names: seq<string>, row: nat, line: string)
    ensures var fields := FieldsOf(line);
      var store' := WithRow(store, RowKey(row + 1), names, fields, Width(names, fields));
      && OnlyRows(store, store', row, row + 1)
      && HashAt(store', RowKey(row + 1)) == HashAt(store, RowKey(row + 1)) + HashOfLine(names, line)
  {
    var fields := FieldsOf(line);
    var k := Width(names, fields);
    WithRowHash(store, RowKey(row + 1), names, fields, k);
    var next := row + 1;
    forall key | NoRowOf(key, row, next)
      ensures SameAt(store, WithRow(store, RowKey(row + 1), names, fields, k), key)
    {
      assert key != RowKey(row + 1);
      WithRowOther(store, RowKey(row + 1), names, fields, k, key);
    }
  }

  /** The rows of the data lines have been stored from row lo + 1 on. */
  ghost predicate Stored(store: Store, store': Store, names: seq<string>, lo: nat, data: seq<string>) {
    && OnlyRows(store, store', lo, lo + |data|)
    && forall j :: lo < j <= lo + |data| ==>
         HashAt(store', RowKey(j)) == HashAt(store, RowKey(j)) + HashOfLine(names, data[j - lo - 1])
  }

  lemma StoredCons(
      store: Store, mid: Store, store': Store, names: seq<string>, lo: nat, line: string, data: seq<string>)
    requires OnlyRows(store, mid, lo, lo + 1)
    requires HashAt(mid, RowKey(lo + 1)) == HashAt(store, RowKey(lo + 1)) + HashOfLine(names, line)
    requires Stored(mid, store', names, lo + 1, data)
    ensures Stored(store, store', names, lo, [line] + data)
  {
    var all, hi := [line] + data, lo + 1 + |data|;
    OnlyRowsCompose(store, mid, store', lo, lo + 1, hi);
    forall j | lo < j <= hi
      ensures HashAt(store', RowKey(j)) == HashAt(store, RowKey(j)) + HashOfLine(names, all[j - lo - 1])
    {
      if j == lo + 1 {
        OtherRowKept(mid, store', lo + 1, hi, j);
      } else {
        LaterRow(store, mid, store', names, lo, data, j);
        assert all[j - lo - 1] == data[j - lo - 2];
      }
    }
  }

  lemma LaterRow(store: Store, mid: Store, store': Store, names: seq<string>, lo: nat, data: seq<string>, j: nat)
    requires OnlyRows(store, mid, lo, lo + 1) && Stored(mid, store', names, lo + 1, data)
    requires lo + 1 < j <= lo + 1 + |data|
    ensures HashAt(store', RowKey(j)) == HashAt(store, RowKey(j)) + HashOfLine(names, data[j - lo - 2])
  {
    OtherRowKept(store, mid, lo, lo + 1, j);
    assert HashAt(store', RowKey(j)) == HashAt(mid, RowKey(j)) + HashOfLine(names, data[j - (lo + 1) - 1]);
  }

  lemma {:induction false} LinesStored(store: Store, names: seq<string>, row: nat, lines: seq<string>)
    ensures var (store', n) := WithLines(store, names, row, lines);
      n == row + |NonEmpty(lines)| && Stored(store, store', names, row, NonEmpty(lines))
    decreases |lines|
  {
    if lines == [] {
    } else if lines[0] == "" {
      LinesStored(store, names, row, lines[1..]);
      assert NonEmpty(lines) == NonEmpty(lines[1..]);
    } else {
      var fields := FieldsOf(lines[0]);
      var mid := WithRow(store, RowKey(row + 1), names, fields, Width(names, fields));
      var (store', n) := WithLines(store, names, row, lines);
      RowStored(store, names, row, lines[0]);
      LinesStored(mid, names, row + 1, lines[1..]);
      assert NonEmpty(lines) == [lines[0]] + NonEmpty(lines[1..]);
      StoredCons(store, mid, store', names, row, lines[0], NonEmpty(lines[1..]));
    }
  }

  /** Loading leaves other rows alone and adds to each row 1, ..., N the fields of its line; what an older
      load left there and the line does not set stays. */
  lemma RowsMerged(store: Store, text: string)
    requires FirstRowComplete(text) && |LinesOf(text)| >= 2
    ensures var lines, loaded := LinesOf(text), Load(store, text); var data := DataLines(lines);
      && loaded.rows == |data|
      && (forall r :: 1 <= r <= |data| ==>
           HashAt(loaded.store, RowKey(r)) == HashAt(store, RowKey(r)) + HashOfLine(Names(lines[0]), data[r - 1]))
      && (forall n: nat :: !(1 <= n <= |data|) ==> SameAt(store, loaded.store, RowKey(n)))
  {
    var lines := LinesOf(text);
    var names, first, cols := Names(lines[0]), FieldsOf(lines[1]), Inferred(Names(lines[0]), FieldsOf(lines[1]));
    var typed := WithSchema(store - {"schema"}, cols, |cols|);
    RowThenLines(typed, names, 0, lines[1], lines[2..]);
    AllRowsMerged(store, typed, cols, Load(store, text).store, names, DataLines(lines));
  }

  /** A line that becomes row lo + 1, then further lines. */
  lemma RowThenLines(store: Store, names: seq<string>, lo: nat, line: string, rest: seq<string>)
    ensures var mid := WithRow(store, RowKey(lo + 1), names, FieldsOf(line), Width(names, FieldsOf(line)));
      var (store', n) := WithLines(mid, names, lo + 1, rest);
      n == lo + 1 + |NonEmpty(rest)| && Stored(store, store', names, lo, [line] + NonEmpty(rest))
  {
    var mid := WithRow(store, RowKey(lo + 1), names, FieldsOf(line), Width(names, FieldsOf(line)));
    RowStored(store, names, lo, line);
    LinesStored(mid, names, lo + 1, rest);
    StoredCons(store, mid, WithLines(mid, names, lo + 1, rest).0, names, lo, line, NonEmpty(rest));
  }

  lemma AllRowsMerged(
      store: Store, typed: Store, cols: seq<Column>, store': Store, names: seq<string>, data: seq<string>)
    requires typed == WithSchema(store - {"schema"}, cols, |cols|) && Stored(typed, store', names, 0, data)
    ensures forall r :: 1 <= r <= |data| ==>
      HashAt(store', RowKey(r)) == HashAt(store, RowKey(r)) + HashOfLine(names, data[r - 1])
    ensures forall n: nat :: !(1 <= n <= |data|) ==> SameAt(store, store', RowKey(n))
  {
    forall n: nat | !(1 <= n <= |data|)
      ensures SameAt(store, store', RowKey(n))
    {
      SchemaLeavesRows(store, cols, n);
      OtherRowKept(typed, store', 0, |data|, n);
    }
    forall r | 1 <= r <= |data|
      ensures HashAt(store', RowKey(r)) == HashAt(store, RowKey(r)) + HashOfLine(names, data[r - 1])
    {
      SchemaLeavesRows(store, cols, r);
      assert HashAt(store', RowKey(r)) == HashAt(typed, RowKey(r)) + HashOfLine(names, data[r - 0 - 1]);
    }
  }

  lemma SchemaLeavesRows(store: Store, cols: seq<Column>, n: nat)
    ensures SameAt(store, WithSchema(store - {"schema"}, cols, |cols|), RowKey(n))
  {
    SchemaIsNoRow(n);
    WithSchemaOther(store - {"schema"}, cols, |cols|, RowKey(n));
  }

  /** Without a data row nothing is stored; the columns of a header alone all count as int columns. */
  lemma NothingLoaded(store: Store, text: string)
    requires |LinesOf(text)| < 2
    ensures FirstRowComplete(text)
    ensures var loaded := Load(store, text);
      && loaded.store == store && loaded.rows == 0
      && |loaded.schema| == (if LinesOf(text) == [] then 0 else |Names(LinesOf(text)[0])|)
      && forall i :: 0 <= i < |loaded.schema| ==> loaded.schema[i] == Column(Names(LinesOf(text)[0])[i], true)
  {
  }

  lemma RowOfItsOwn(store: Store, store': Store, r: nat, hash: Hash)
    requires NoRows(store) && HashAt(store', RowKey(r)) == HashAt(store, RowKey(r)) + hash
    ensures HashAt(store', RowKey(r)) == hash
  {
  }

  /** After loading at least one data row into a store without rows: as many rows as data lines, each with
      the hash of its line under its own key, and no other row. */
  lemma RowsLoaded(store: Store, text: string)
    requires FirstRowComplete(text) && NoRows(store) && |LinesOf(text)| >= 2
    ensures var lines, loaded := LinesOf(text), Load(store, text);
      && loaded.rows == |DataLines(lines)|
      && (forall r :: 1 <= r <= loaded.rows ==>
           HashAt(loaded.store, RowKey(r)) == HashOfLine(Names(lines[0]), DataLines(lines)[r - 1]))
      && (forall n: nat :: RowKey(n) in loaded.store ==> 1 <= n <= loaded.rows)
  {
    RowsMerged(store, text);
    var lines, loaded := LinesOf(text), Load(store, text);
    forall r | 1 <= r <= loaded.rows
      ensures HashAt(loaded.store, RowKey(r)) == HashOfLine(Names(lines[0]), DataLines(lines)[r - 1])
    {
      RowOfItsOwn(store, loaded.store, r, HashOfLine(Names(lines[0]), DataLines(lines)[r - 1]));
    }
    assert forall n: nat :: !(1 <= n <= loaded.rows) ==> SameAt(store, loaded.store, RowKey(n));
  }

  /** The same with the keys read as text: the hash under "row:" and a number without leading zeros is that of the
      line of this number, and only the numbers up to the row count have one. */
  lemma RowsByText(store: Store, text: string, digits: string)
    requires FirstRowComplete(text) && NoRows(store) && |LinesOf(text)| >= 2
    requires digits != "" && digits[0] != '0' && forall k :: 0 <= k < |digits| ==> digits[k] in "0123456789"
    ensures var lines, loaded, n := LinesOf(text), Load(store, text), Atoll(digits);
      && loaded.rows == 1 + |NonEmpty(lines[2..])|
      && ("row:" + digits in loaded.store ==> 1 <= n <= loaded.rows)
      && (1 <= n <= loaded.rows ==>
           HashAt(loaded.store, "row:" + digits)
             == HashOfLine(Names(lines[0]), if n == 1 then lines[1] else NonEmpty(lines[2..])[n - 2]))
  {
    RowKeyOfText(digits);
    RowsLoaded(store, text);
  }

  /** With distinct names, a row's hash maps each name to the token of its column. */
  lemma {:induction false} RowHashWithDistinctNames(names: seq<string>, row: seq<string>, k: nat)
    requires k <= |names| && k <= |row| && Distinct(names)
    ensures forall i :: 0 <= i < k ==> names[i] in RowHash(names, row, k) && RowHash(names, row, k)[names[i]] == row[i]
    ensures forall i :: k <= i < |names| ==> names[i] !in RowHash(names, row, k)
    decreases k
  {
    if k != 0 { RowHashWithDistinctNames(names, row, k - 1); }
  }

  /** With distinct names and no rows before, row r maps the name of column i to the i-th token of its line,
      for as many columns as the line has tokens, and has no other fields. */
  lemma TokensStored(store: Store, text: string, r: nat)
    requires FirstRowComplete(text) && NoRows(store) && |LinesOf(text)| >= 2
    requires Distinct(Names(LinesOf(text)[0])) && 1 <= r <= Load(store, text).rows
    ensures r <= |DataLines(LinesOf(text))|
    ensures var names, fields := Names(LinesOf(text)[0]), FieldsOf(DataLines(LinesOf(text))[r - 1]);
      var hash := HashAt(Load(store, text).store, RowKey(r));
      && (forall i :: 0 <= i < |names| && i < |fields| ==> names[i] in hash && hash[names[i]] == fields[i])
      && (forall f :: f in hash ==> f in names[..Width(names, fields)])
  {
    RowsLoaded(store, text);
    var names, fields := Names(LinesOf(text)[0]), FieldsOf(DataLines(LinesOf(text))[r - 1]);
    RowHashWithDistinctNames(names, fields, Width(names, fields));
    RowHashFields(names, fields, Width(names, fields));
  }

  lemma {:induction false} RowHashFields(names: seq<string>, row: seq<string>, k: nat)
    requires k <= |names| && k <= |row|
    ensures forall f :: f in RowHash(names, row, k) <==> f in names[..k]
    decreases k
  {
    if k != 0 {
      RowHashFields(names, row, k - 1);
      assert names[..k] == names[..k - 1] + [names[k - 1]];
    }
  }

  /** The schema hash after k columns: the type of each name so far, and nothing else. */
  ghost predicate SchemaOf(hash: Hash, cols: seq<Column>, k: nat)
    requires k <= |cols|
  {
    && (forall i :: 0 <= i < k ==> cols[i].name in hash && hash[cols[i].name] == TypeName(cols[i].isInt))
    && (forall f :: f in hash ==> Named(cols[..k], f))
  }

  ghost predicate Named(cols: seq<Column>, f: string) {
    exists i :: 0 <= i < |cols| && cols[i].name == f
  }

  lemma SchemaOneMore(hash: Hash, cols: seq<Column>, k: nat)
    requires k < |cols| && SchemaOf(hash, cols, k)
    requires forall i :: 0 <= i < k ==> cols[i].name != cols[k].name
    ensures SchemaOf(hash[cols[k].name := TypeName(cols[k].isInt)], cols, k + 1)
  {
    var hash' := hash[cols[k].name := TypeName(cols[k].isInt)];
    forall f | f in hash'
      ensures Named(cols[..k + 1], f)
    {
      if f == cols[k].name {
        assert cols[..k + 1][k].name == f;
      } else {
        var i :| 0 <= i < k && cols[..k][i].name == f;
        assert cols[..k + 1][i].name == f;
      }
    }
  }

  lemma {:induction false} SchemaHash(store: Store, cols: seq<Column>, k: nat)
    requires k <= |cols| && "schema" !in store
    requires forall i, j :: 0 <= i < j < |cols| ==> cols[i].name != cols[j].name
    ensures SchemaOf(HashAt(WithSchema(store, cols, k), "schema"), cols, k)
    decreases k
  {
    if k != 0 {
      SchemaHash(store, cols, k - 1);
      SchemaOneMore(HashAt(WithSchema(store, cols, k - 1), "schema"), cols, k - 1);
    }
  }

  /** Keys that are no rows are as they were after the schema was stored. */
  lemma RowsLeaveOtherKeys(store: Store, names: seq<string>, first: seq<string>, rest: seq<string>, key: string)
    requires |first| >= |names| && forall n: nat :: key != RowKey(n)
    ensures var cols := Inferred(names, first);
      SameAt(WithSchema(store - {"schema"}, cols, |cols|), LoadRows(store, names, first, rest).store, key)
  {
    var cols := Inferred(names, first);
    var typed := WithSchema(store - {"schema"}, cols, |cols|);
    var one := WithRow(typed, RowKey(1), names, first, |names|);
    WithRowOther(typed, RowKey(1), names, first, |names|, key);
    LinesStored(one, names, 1, rest);
    var n := WithLines(one, names, 1, rest).1;
    assert NoRowOf(key, 1, n);
  }

  /** The schema hash of a loaded text, whatever schema was there before: each name with its inferred type, and
      nothing else. */
  lemma SchemaLoaded(store: Store, text: string)
    requires FirstRowComplete(text) && |LinesOf(text)| >= 2 && Distinct(Names(LinesOf(text)[0]))
    ensures var names, first := Names(LinesOf(text)[0]), FieldsOf(LinesOf(text)[1]);
      var hash := HashAt(Load(store, text).store, "schema");
      && (forall i :: 0 <= i < |names| ==>
           names[i] in hash
           && hash[names[i]] == if forall c :: c in first[i] ==> c in "0123456789-" then "int" else "string")
      && (forall f :: f in hash ==> f in names)
  {
    var lines := LinesOf(text);
    forall i | 0 <= i < |Names(lines[0])|
      ensures IsIntToken(FieldsOf(lines[1])[i]) <==> forall c :: c in FieldsOf(lines[1])[i] ==> c in "0123456789-"
    {
      IntTokenCharacters(FieldsOf(lines[1])[i]);
    }
    SchemaOfRows(store, Names(lines[0]), FieldsOf(lines[1]), lines[2..]);
  }

  lemma SchemaOfRows(store: Store, names: seq<string>, first: seq<string>, rest: seq<string>)
    requires |first| >= |names| && Distinct(names)
    ensures var hash := HashAt(LoadRows(store, names, first, rest).store, "schema");
      && (forall i :: 0 <= i < |names| ==>
           names[i] in hash && hash[names[i]] == if IsIntToken(first[i]) then "int" else "string")
      && (forall f :: f in hash ==> f in names)
  {
    var cols := Inferred(names, first);
    forall n: nat
      ensures RowKey(n) != "schema"
    {
      SchemaIsNoRow(n);
    }
    RowsLeaveOtherKeys(store, names, first, rest, "schema");
    SchemaHash(store - {"schema"}, cols, |cols|);
    SchemaNames(HashAt(LoadRows(store, names, first, rest).store, "schema"), names, first);
  }

  lemma SchemaNames(hash: Hash, names: seq<string>, first: seq<string>)
    requires |first| >= |names| && SchemaOf(hash, Inferred(names, first), |names|)
    ensures forall i :: 0 <= i < |names| ==>
      names[i] in hash && hash[names[i]] == if IsIntToken(first[i]) then "int" else "string"
    ensures forall f :: f in hash ==> f in names
  {
    var cols := Inferred(names, first);
    forall f | f in hash
      ensures f in names
    {
      var i :| 0 <= i < |names| && cols[..|names|][i].name == f;
      assert names[i] == f;
    }
    assert forall i :: 0 <= i < |names| ==> cols[i].name == names[i];
  }

  /** Loading changes nothing under other keys. */
  lemma OtherKeysUntouched(store: Store, text: string, key: string)
    requires FirstRowComplete(text) && key != "schema" && forall n: nat :: key != RowKey(n)
    ensures SameAt(store, Load(store, text).store, key)
  {
    var lines := LinesOf(text);
    if |lines| >= 2 {
      var names, first := Names(lines[0]), FieldsOf(lines[1]);
      var cols := Inferred(names, first);
      RowsLeaveOtherKeys(store, names, first, lines[2..], key);
      WithSchemaOther(store - {"schema"}, cols, |cols|, key);
    }
  }

  /** The row counter stays below the size of the file. */
  lemma RowCountBounded(store: Store, text: string)
    requires FirstRowComplete(text)
    ensures Load(store, text).rows <= |text|
  {
    var lines := LinesOf(text);
    LinesBounded(text);
    if |lines| >= 2 {
      var names, first := Names(lines[0]), FieldsOf(lines[1]);
      var cols := Inferred(names, first);
      var typed := WithSchema(store - {"schema"}, cols, |cols|);
      LinesStored(WithRow(typed, RowKey(1), names, first, |names|), names, 1, lines[2..]);
      NonEmptyBounded(lines[2..]);
    }
  }

  lemma {:induction false} LinesBounded(text: string)
    ensures |LinesOf(text)| <= |text|
    decreases |text|
  {
    FirstLine(text);
    if text != "" { LinesBounded(Tail(text)); }
  }
}
