/** What loading a CSV text means: its header, the inferred column types, and the hashes of its rows. */
module Dataset {
  import opened CStrings
  import opened Lines
  import opened Fields
  import opened Numbers
  import opened Redis

  const MAX_COLS := 32
  const NAME_LENGTH := 63

  datatype Column = Column(name: string, isInt: bool)

  /** strncpy into a 64-byte name. */
  function Clip(s: string): string {
    if |s| <= NAME_LENGTH then s else s[..NAME_LENGTH]
  }

  /** Only digits and minus signs. */
  predicate IsIntToken(s: string) {
    forall k :: 0 <= k < |s| ==> IsDigit(s[k]) || s[k] == '-'
  }

  function RowKey(row: nat): string {
    "row:" + Decimal(row)
  }

  function Names(header: string): (names: seq<string>)
    ensures |names| <= MAX_COLS
  {
    var fs := FieldsOf(header);
    seq(if |fs| <= MAX_COLS then |fs| else MAX_COLS, i requires 0 <= i < |fs| => Clip(fs[i]))
  }

  /** A column is an int column unless the first data row has another character in it. */
  function Inferred(names: seq<string>, first: seq<string>): (cols: seq<Column>)
    ensures |cols| == |names|
  {
    seq(|names|, i requires 0 <= i < |names| => Column(names[i], i < |first| ==> IsIntToken(first[i])))
  }

  /** The first k fields of a row, set one after the other. */
  function WithRow(store: Store, key: string, names: seq<string>, row: seq<string>, k: nat): Store
    requires k <= |names| && k <= |row|
  {
    if k == 0 then store else WithField(WithRow(store, key, names, row, k - 1), key, names[k - 1], row[k - 1])
  }

  /** The columns a row reaches. */
  function Width<T>(cols: seq<T>, row: seq<string>): nat {
    if |row| <= |cols| then |row| else |cols|
  }

  function TypeName(isInt: bool): string {
    if isInt then "int" else "string"
  }

  /** The schema hash, after k columns. */
  function WithSchema(store: Store, cols: seq<Column>, k: nat): Store
    requires k <= |cols|
  {
    if k == 0 then store
    else WithField(WithSchema(store, cols, k - 1), "schema", cols[k - 1].name, TypeName(cols[k - 1].isInt))
  }

  /** The store and the row number after the remaining lines; empty lines do not count. */
  function WithLines(store: Store, names: seq<string>, row: nat, lines: seq<string>): (r: (Store, nat))
    decreases |lines|
  {
    if lines == [] then (store, row)
    else if lines[0] == "" then WithLines(store, names, row, lines[1..])
    else
      var fields := FieldsOf(lines[0]);
      WithLines(WithRow(store, RowKey(row + 1), names, fields, Width(names, fields)), names, row + 1, lines[1..])
  }

  /** The code stores as many tokens of the first data row as there are columns. */
  predicate FirstRowComplete(text: string) {
    var lines := LinesOf(text);
    |lines| >= 2 ==> |FieldsOf(lines[1])| >= |Names(lines[0])|
  }

  datatype Loaded = Loaded(store: Store, schema: seq<Column>, rows: nat)

  /** Loading under given names, from the first data row on. */
  function LoadRows(store: Store, names: seq<string>, first: seq<string>, rest: seq<string>): Loaded
    requires |first| >= |names|
  {
    var cols := Inferred(names, first);
    var typed := WithSchema(store - {"schema"}, cols, |cols|);
    var (rows, n) := WithLines(WithRow(typed, RowKey(1), names, first, |names|), names, 1, rest);
    Loaded(rows, cols, n)
  }

  /** Loading a text. Without a header or without a data row nothing is stored. */
  function Load(store: Store, text: string): Loaded
    requires FirstRowComplete(text)
  {
    var lines := LinesOf(text);
    if |lines| == 0 then Loaded(store, [], 0)
    else if |lines| == 1 then Loaded(store, Inferred(Names(lines[0]), []), 0)
    else
      LoadRows(store, Names(lines[0]), FieldsOf(lines[1]), lines[2..])
  }

  /** What the program sees of a file: the text up to the first NUL. */
  function Visible(file: string): string {
    file[..Find(file, 0, {NUL})]
  }

  lemma VisibleIsWholeFile(file: string)
    ensures Visible(file) == file <==> NUL !in file
  {
    if NUL !in file { FindIs(file, 0, {NUL}, |file|); }
  }

  /** A NUL hides itself and everything after it. */
  lemma VisibleUpToNul(s: string, hidden: string)
    requires NUL !in s
    ensures Visible(s + [NUL] + hidden) == s
  {
    var file := s + [NUL] + hidden;
    FindIs(file, 0, {NUL}, |s|);
    assert file[..|s|] == s;
  }

  // ---- What the small rules say, in characters and numbers ----

  /** The characters of an int token. */
  lemma IntTokenCharacters(s: string)
    ensures IsIntToken(s) <==> forall c :: c in s ==> c in "0123456789-"
  {
    if forall c :: c in s ==> c in "0123456789-" {
      forall k | 0 <= k < |s|
        ensures IsDigit(s[k]) || s[k] == '-'
      {
        assert s[k] in s;
      }
    }
  }

  /** Every printed integer is an int token. */
  lemma PrintedIsIntToken(n: int)
    ensures IsIntToken(Printed(n))
  {
    DecimalDigits(if n < 0 then -n else n);
  }

  /** The names of the columns: one for each of the first 32 fields, whole up to 63 characters and cut to 63 beyond. */
  lemma NamesOfFields(header: string)
    ensures var fs := FieldsOf(header);
      && |Names(header)| == (if |fs| <= 32 then |fs| else 32)
      && forall i :: 0 <= i < |Names(header)| ==>
           Names(header)[i] <= fs[i] && if |fs[i]| <= 63 then Names(header)[i] == fs[i] else |Names(header)[i]| == 63
  {
  }
}
