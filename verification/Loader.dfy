/** load_dataset_generic, over a buffer that the line splitter and the tokeniser overwrite as they go. */
module Loader {
  import opened Wrappers
  import opened Arena
  import opened BitMath
  import opened CStrings
  import opened Lines
  import opened Fields
  import opened Numbers
  import opened Redis
  import opened Dataset

  ghost predicate SameOutside(b: seq<char>, b': seq<char>, lo: nat, hi: nat) {
    |b'| == |b| && forall k :: 0 <= k < |b| && (k < lo || k >= hi) ==> b'[k] == b[k]
  }

  /** A file that cannot be opened, or its content and how much of it one fread delivers. */
  datatype File = Missing | Readable(content: string, got: nat)

  predicate Complete(file: File) {
    file.Readable? && file.got == |file.content|
  }

  /** NULL, the buffer, or the end of the process. */
  datatype ReadResult = NoBuffer | Buffer(buf: array<char>) | Exited

  /** The addresses of the buffer do not wrap. */
  predicate BufferFits(base: nat, cur: nat, file: File) {
    file.Readable? ==> |file.content| + 1 < WORD && (base != 0 ==> AlignUp(cur) + |file.content| + 1 < WORD)
  }

  /** No room for the buffer in the arena. */
  predicate ExitsOn(base: nat, cur: nat, end: nat, file: File) {
    file.Readable? && base != 0 && AlignUp(cur) + |file.content| + 1 > end
  }

  /** read_file_into_buffer: one block for the file and the terminating NUL, then fread. */
  method ReadFile(arena: FpgaArena, file: File) returns (r: ReadResult)
    requires arena.Valid() && BufferFits(arena.base, arena.cur, file)
    modifies arena
    ensures arena.Valid() && arena.base == old(arena.base) && arena.end == old(arena.end)
    ensures r.Exited? <==> ExitsOn(old(arena.base), old(arena.cur), old(arena.end), file)
    ensures r.Buffer? <==> !r.Exited? && Complete(file)
    ensures r.Buffer? ==> fresh(r.buf) && r.buf.Length == |file.content| + 1
    ensures r.Buffer? ==> IsString(r.buf[..], 0) && Str(r.buf[..], 0) == Visible(file.content)
    ensures arena.sizes == old(arena.sizes)
      + if file.Readable? && arena.base != 0 && !r.Exited? then [|file.content| + 1] else []
  {
    if file.Missing? {
      return NoBuffer;
    }
    var sz := |file.content|;
    var block := arena.Alloc(sz + 1);
    if block.OutOfSpace? {
      return Exited;
    }
    if file.got != sz {
      return NoBuffer;
    }
    var buf := FilledBuffer(file.content);
    r := Buffer(buf);
  }

  /** What fread and the terminating NUL leave in the buffer. */
  method FilledBuffer(content: string) returns (buf: array<char>)
    ensures fresh(buf) && buf.Length == |content| + 1
    ensures IsString(buf[..], 0) && Str(buf[..], 0) == Visible(content)
  {
    buf := new char[|content| + 1](i => if 0 <= i < |content| then content[i] else NUL);
    var e := Find(content, 0, {NUL});
    assert forall k :: 0 <= k < e ==> buf[..][k] == content[k];
    CutString(buf[..], 0, e);
    assert buf[..][0..e] == content[..e];
  }

  /** The tokens of a line not yet read: the current one and those of the string at the saved pointer. */
  ghost predicate Pending(b: seq<char>, tok: Option<nat>, save: nat, e: nat, rest: seq<string>) {
    && IsString(b, save) && StrEnd(b, save) == e
    && (tok == None <==> rest == [])
    && (tok.Some? ==> IsString(b, tok.value) && StrEnd(b, tok.value) <= save && Str(b, tok.value) == rest[0])
    && (rest != [] ==> FieldsOf(Str(b, save)) == rest[1..])
  }

  /** A saved token pointer still denotes its token. */
  ghost predicate TokenAt(b: seq<char>, p: nat, end: nat, token: string) {
    IsString(b, p) && StrEnd(b, p) <= end && Str(b, p) == token
  }

  /** The next strtok_r call writes behind all tokens found before it. */
  lemma TokenKept(b: seq<char>, b': seq<char>, p: nat, save: nat, e: nat, token: string)
    requires TokenAt(b, p, save, token) && IsString(b, save) && StrEnd(b, save) == e
    requires SameOutside(b, b', save, e)
    ensures TokenAt(b', p, e, token) && StrEnd(b', p) == StrEnd(b, p)
  {
    if StrEnd(b, p) == save {
      FindIs(b, save, {NUL}, save);
    }
    SameString(b, b', p);
  }

  /** The saved pointers denote the first fields of the line. */
  ghost predicate TokensAt(b: seq<char>, found: seq<nat>, end: nat, fields: seq<string>) {
    |found| <= |fields| && forall j :: 0 <= j < |found| ==> TokenAt(b, found[j], end, fields[j])
  }

  lemma TokenFound(
      b: seq<char>, b': seq<char>, found: seq<nat>, p: nat, save: nat, save': nat, e: nat, fields: seq<string>)
    requires TokensAt(b, found, save, fields) && |found| < |fields| && TokenAt(b, p, save, fields[|found|])
    requires IsString(b, save) && StrEnd(b, save) == e && save <= save'
    requires SameOutside(b, b', save, e)
    ensures TokensAt(b', found + [p], save', fields)
  {
    var found' := found + [p];
    forall j | 0 <= j < |found'|
      ensures TokenAt(b', found'[j], save', fields[j])
    {
      TokenKept(b, b', found'[j], save, e, fields[j]);
    }
  }

  /** strtok_r on a fresh line. */
  method FirstToken(buf: array<char>, line: nat) returns (tok: Option<nat>, save: nat)
    requires IsString(buf[..], line)
    modifies buf
    ensures var s, e := old(Str(buf[..], line)), old(StrEnd(buf[..], line));
      && Pending(buf[..], tok, save, e, FieldsOf(s)) && line <= save <= e
      && (tok.Some? ==> line <= tok.value)
      && SameOutside(old(buf[..]), buf[..], line, e)
  {
    tok, save := StrtokR(buf, line);
  }

  /** strtok_r for the following tokens. */
  method NextToken(buf: array<char>, save: nat, ghost e: nat, ghost rest: seq<string>)
    returns (tok: Option<nat>, save': nat)
    requires IsString(buf[..], save) && StrEnd(buf[..], save) == e
    requires rest != [] && FieldsOf(Str(buf[..], save)) == rest[1..]
    modifies buf
    ensures Pending(buf[..], tok, save', e, rest[1..]) && save <= save' <= e
    ensures tok.Some? ==> save <= tok.value
    ensures SameOutside(old(buf[..]), buf[..], save, e)
  {
    tok, save' := StrtokR(buf, save);
  }

  /** The first n columns have their clipped names and count as int columns. */
  ghost predicate NamesRead(cols: seq<Column>, fields: seq<string>, n: nat) {
    n <= |cols| && n <= |fields| && forall i :: 0 <= i < n ==> cols[i] == Column(Clip(fields[i]), true)
  }

  /** The header loop; `fields` are all fields of the header line. */
  method ReadNames(buf: array<char>, first: Option<nat>, saved: nat, schema: array<Column>,
                   ghost line: nat, ghost e: nat, ghost fields: seq<string>) returns (cols: nat)
    requires Pending(buf[..], first, saved, e, fields) && line <= saved <= e && schema.Length == MAX_COLS
    modifies buf, schema
    ensures cols == if |fields| <= MAX_COLS then |fields| else MAX_COLS
    ensures NamesRead(schema[..], fields, cols)
    ensures SameOutside(old(buf[..]), buf[..], line, e)
  {
    cols := 0;
    var tok, save := first, saved;
    assert fields[0..] == fields;
    while tok.Some? && cols < MAX_COLS
      invariant cols <= MAX_COLS && line <= save <= e
      invariant NamesRead(schema[..], fields, cols)
      invariant Pending(buf[..], tok, save, e, fields[cols..])
      invariant SameOutside(old(buf[..]), buf[..], line, e)
      decreases MAX_COLS - cols
    {
      tok, save := ReadName(buf, tok.value, save, schema, cols, e, fields);
      cols := cols + 1;
    }
  }

  /** One turn of the header loop. */
  method ReadName(buf: array<char>, tok: nat, save: nat, schema: array<Column>, i: nat,
                  ghost e: nat, ghost fields: seq<string>)
    returns (tok': Option<nat>, save': nat)
    requires i < schema.Length && i < |fields| && NamesRead(schema[..], fields, i)
    requires Pending(buf[..], Some(tok), save, e, fields[i..])
    modifies buf, schema
    ensures NamesRead(schema[..], fields, i + 1)
    ensures Pending(buf[..], tok', save', e, fields[i + 1..]) && save <= save' <= e
    ensures SameOutside(old(buf[..]), buf[..], save, e)
  {
    schema[i] := Column(Clip(Str(buf[..], tok)), true);
    assert fields[i..][1..] == fields[i + 1..];
    tok', save' := NextToken(buf, save, e, fields[i..]);
  }

  method ParseHeader(buf: array<char>, line: nat, schema: array<Column>) returns (cols: nat)
    requires IsString(buf[..], line) && schema.Length == MAX_COLS
    modifies buf, schema
    ensures cols == |Names(old(Str(buf[..], line)))| <= MAX_COLS
    ensures schema[..cols] == Inferred(Names(old(Str(buf[..], line))), [])
    ensures var fields := FieldsOf(old(Str(buf[..], line)));
      && cols == (if |fields| <= 32 then |fields| else 32)
      && forall i :: 0 <= i < cols ==> schema[i].isInt && ClippedTo63(schema[i].name, fields[i])
    ensures SameOutside(old(buf[..]), buf[..], line, old(StrEnd(buf[..], line)))
  {
    ghost var s, e := Str(buf[..], line), StrEnd(buf[..], line);
    var tok, save := FirstToken(buf, line);
    cols := ReadNames(buf, tok, save, schema, line, e, FieldsOf(s));
    NamesInferred(schema[..], s, cols);
    assert schema[..cols] == schema[..][..cols];
    NamesOfFields(s);
    forall i | 0 <= i < cols
      ensures schema[i].isInt && ClippedTo63(schema[i].name, FieldsOf(s)[i])
    {
      assert schema[i] == schema[..cols][i] == Column(Names(s)[i], true);
    }
  }

  /** The whole field up to 63 characters, its first 63 beyond. */
  ghost predicate ClippedTo63(name: string, field: string) {
    name <= field && if |field| <= 63 then name == field else |name| == 63
  }

  lemma NamesInferred(cols: seq<Column>, header: string, n: nat)
    requires NamesRead(cols, FieldsOf(header), n) && n == |Names(header)|
    ensures cols[..n] == Inferred(Names(header), [])
  {
  }

  /** The character loop of the type inference. */
  method OnlyIntCharacters(buf: array<char>, p: nat) returns (b: bool)
    requires IsString(buf[..], p)
    ensures b == IsIntToken(Str(buf[..], p))
  {
    ghost var s := Str(buf[..], p);
    assert forall k :: 0 <= k < |s| ==> s[k] == buf[p + k];
    var q := p;
    while buf[q] != NUL
      invariant p <= q <= StrEnd(buf[..], p)
      invariant forall k :: 0 <= k < q - p ==> IsDigit(s[k]) || s[k] == '-'
      decreases StrEnd(buf[..], p) - q
    {
      if (buf[q] < '0' || buf[q] > '9') && buf[q] != '-' {
        assert s[q - p] == buf[q];
        return false;
      }
      q := q + 1;
    }
    FindIs(buf[..], p, {NUL}, q);
    b := true;
  }

  method InferColumn(buf: array<char>, p: nat, schema: array<Column>, i: nat)
    requires IsString(buf[..], p) && i < schema.Length && schema[i].isInt
    modifies schema
    ensures schema[..] == old(schema[..])[i := Column(old(schema[i].name), IsIntToken(Str(buf[..], p)))]
  {
    var isInt := OnlyIntCharacters(buf, p);
    if !isInt {
      schema[i] := schema[i].(isInt := false);
    }
  }

  /** The first n columns have the type of their token, the others are as before. */
  ghost predicate TypesRead(before: seq<Column>, cols: seq<Column>, fields: seq<string>, n: nat) {
    && |cols| == |before| && n <= |cols| && n <= |fields|
    && forall j :: 0 <= j < |cols| ==>
         cols[j] == if j < n then Column(before[j].name, IsIntToken(fields[j])) else before[j]
  }

  /** The type of column i is read after those before it. */
  lemma TypesNext(before: seq<Column>, types: seq<Column>, fields: seq<string>, i: nat)
    requires TypesRead(before, types, fields, i) && i < |types| && i < |fields|
    ensures types[i] == before[i]
    ensures TypesRead(before, types[i := Column(types[i].name, IsIntToken(fields[i]))], fields, i + 1)
  {
  }

  /** One turn of the inference loop: keep the pointer, look at the characters, go on to the next token. */
  method InferNext(buf: array<char>, tok: nat, save: nat, schema: array<Column>, i: nat, tokens: array<nat>,
                   ghost found: seq<nat>, ghost e: nat, ghost fields: seq<string>, ghost before: seq<Column>)
    returns (tok': Option<nat>, save': nat)
    requires i < |fields| && i < schema.Length && i < tokens.Length
    requires TypesRead(before, schema[..], fields, i) && before[i].isInt
    requires Pending(buf[..], Some(tok), save, e, fields[i..])
    requires tokens[..i] == found && TokensAt(buf[..], found, save, fields)
    modifies buf, schema, tokens
    ensures Pending(buf[..], tok', save', e, fields[i + 1..]) && save <= save' <= e
    ensures TypesRead(before, schema[..], fields, i + 1)
    ensures tokens[..i + 1] == found + [tok] && TokensAt(buf[..], found + [tok], save', fields)
    ensures SameOutside(old(buf[..]), buf[..], save, e)
  {
    tokens[i] := tok;
    assert tokens[..i + 1] == found + [tok];
    TypesNext(before, schema[..], fields, i);
    assert schema[i] == schema[..][i] == before[i];
    InferColumn(buf, tok, schema, i);
    assert fields[i..][1..] == fields[i + 1..];
    tok', save' := NextToken(buf, save, e, fields[i..]);
    TokenFound(old(buf[..]), buf[..], found, tok, save, save', e, fields);
  }

  /** Type inference on the first data row, whose fields are `fields`; the token pointers are kept for later. */
  method InferFrom(buf: array<char>, first: Option<nat>, saved: nat,
                   schema: array<Column>, cols: nat, tokens: array<nat>,
                   ghost line: nat, ghost e: nat, ghost fields: seq<string>)
    requires Pending(buf[..], first, saved, e, fields) && line <= saved <= e
    requires cols <= MAX_COLS == schema.Length == tokens.Length
    requires forall i :: 0 <= i < cols ==> schema[i].isInt
    modifies buf, schema, tokens
    ensures var n := if cols <= |fields| then cols else |fields|;
      TypesRead(old(schema[..]), schema[..], fields, n) && TokensAt(buf[..], tokens[..n], e, fields)
    ensures SameOutside(old(buf[..]), buf[..], line, e)
  {
    var tok, save := first, saved;
    var i := 0;
    ghost var found: seq<nat>, before := [], schema[..];
    assert fields[0..] == fields;
    while i < cols && tok.Some?
      invariant 0 <= i <= cols && line <= save <= e
      invariant TypesRead(before, schema[..], fields, i)
      invariant Pending(buf[..], tok, save, e, fields[i..])
      invariant tokens[..i] == found && TokensAt(buf[..], found, save, fields)
      invariant SameOutside(old(buf[..]), buf[..], line, e)
      decreases cols - i
    {
      ghost var p := tok.value;
      tok, save := InferNext(buf, tok.value, save, schema, i, tokens, found, e, fields, before);
      found := found + [p];
      i := i + 1;
    }
    SavedUpTo(buf[..], found, save, e, fields);
  }

  lemma SavedUpTo(b: seq<char>, found: seq<nat>, save: nat, e: nat, fields: seq<string>)
    requires TokensAt(b, found, save, fields) && save <= e
    ensures TokensAt(b, found, e, fields)
  {
    forall j | 0 <= j < |found|
      ensures TokenAt(b, found[j], e, fields[j])
    {
      assert TokenAt(b, found[j], save, fields[j]);
    }
  }

  method InferTypes(buf: array<char>, line: nat, schema: array<Column>, cols: nat, tokens: array<nat>)
    requires IsString(buf[..], line) && cols <= MAX_COLS == schema.Length == tokens.Length
    requires forall i :: 0 <= i < cols ==> schema[i].isInt
    modifies buf, schema, tokens
    ensures var fields, e := FieldsOf(old(Str(buf[..], line))), old(StrEnd(buf[..], line));
      var n := if cols <= |fields| then cols else |fields|;
      && TypesRead(old(schema[..]), schema[..], fields, n) && TokensAt(buf[..], tokens[..n], e, fields)
      && (forall i :: 0 <= i < n ==> (schema[i].isInt <==> forall c :: c in fields[i] ==> c in "0123456789-"))
      && SameOutside(old(buf[..]), buf[..], line, e)
  {
    ghost var s, e := Str(buf[..], line), StrEnd(buf[..], line);
    var tok, save := FirstToken(buf, line);
    InferFrom(buf, tok, save, schema, cols, tokens, line, e, FieldsOf(s));
    forall i | 0 <= i < cols && i < |FieldsOf(s)|
      ensures schema[i].isInt <==> forall c :: c in FieldsOf(s)[i] ==> c in "0123456789-"
    {
      IntTokenCharacters(FieldsOf(s)[i]);
      assert schema[..][i].isInt == IsIntToken(FieldsOf(s)[i]);
    }
  }

  method StoreSchema(redis: Server, schema: array<Column>, cols: nat)
    requires cols <= schema.Length
    modifies redis`store
    ensures redis.store == WithSchema(old(redis.store) - {"schema"}, schema[..cols], cols)
  {
    redis.Del("schema");
    var i := 0;
    while i < cols
      invariant 0 <= i <= cols
      invariant redis.store == WithSchema(old(redis.store) - {"schema"}, schema[..cols], i)
    {
      redis.HSet("schema", schema[i].name, TypeName(schema[i].isInt));
      i := i + 1;
    }
  }

  /** The strings at these pointers are the first fields of a row. */
  ghost predicate Denote(b: seq<char>, tokens: seq<nat>, row: seq<string>) {
    |tokens| <= |row| && forall i :: 0 <= i < |tokens| ==> IsString(b, tokens[i]) && Str(b, tokens[i]) == row[i]
  }

  /** The first row, through the saved pointers: they still denote its tokens. */
  method StoreFirstRow(redis: Server, buf: array<char>, tokens: array<nat>,
                       schema: array<Column>, cols: nat, key: string,
                       ghost names: seq<string>, ghost first: seq<string>)
    requires cols <= schema.Length && cols <= tokens.Length && cols == |names| <= |first|
    requires forall i :: 0 <= i < cols ==> schema[i].name == names[i]
    requires Denote(buf[..], tokens[..cols], first)
    modifies redis`store
    ensures redis.store == WithRow(old(redis.store), key, names, first, cols)
  {
    var i := 0;
    while i < cols
      invariant 0 <= i <= cols
      invariant redis.store == WithRow(old(redis.store), key, names, first, i)
    {
      StoreToken(redis, buf, tokens, i, key, schema[i].name, cols, first);
      i := i + 1;
    }
  }

  /** One saved pointer. */
  method StoreToken(redis: Server, buf: array<char>, tokens: array<nat>, i: nat, key: string, name: string,
                    ghost cols: nat, ghost first: seq<string>)
    requires i < cols <= tokens.Length && Denote(buf[..], tokens[..cols], first)
    modifies redis`store
    ensures redis.store == WithField(old(redis.store), key, name, first[i])
  {
    assert tokens[i] == tokens[..cols][i];
    redis.HSet(key, name, Str(buf[..], tokens[i]));
  }

  /** Each further row is stored while it is tokenised. */
  method StoreRow(redis: Server, buf: array<char>, line: nat, schema: array<Column>, cols: nat, key: string,
                  ghost names: seq<string>)
    requires IsString(buf[..], line) && cols <= schema.Length && cols == |names|
    requires forall i :: 0 <= i < cols ==> schema[i].name == names[i]
    modifies redis`store, buf
    ensures var s := old(Str(buf[..], line));
      redis.store == WithRow(old(redis.store), key, names, FieldsOf(s), Width(names, FieldsOf(s)))
    ensures SameOutside(old(buf[..]), buf[..], line, old(StrEnd(buf[..], line)))
  {
    ghost var s, e := Str(buf[..], line), StrEnd(buf[..], line);
    var tok, save := FirstToken(buf, line);
    StoreFields(redis, buf, tok, save, schema, cols, key, line, e, FieldsOf(s), names);
  }

  /** The loop over the tokens of a row, whose fields are `fields`. */
  method StoreFields(redis: Server, buf: array<char>, first: Option<nat>, saved: nat,
                     schema: array<Column>, cols: nat, key: string,
                     ghost line: nat, ghost e: nat, ghost fields: seq<string>, ghost names: seq<string>)
    requires Pending(buf[..], first, saved, e, fields) && line <= saved <= e
    requires cols <= schema.Length && cols == |names| && forall i :: 0 <= i < cols ==> schema[i].name == names[i]
    modifies redis`store, buf
    ensures redis.store == WithRow(old(redis.store), key, names, fields, Width(names, fields))
    ensures SameOutside(old(buf[..]), buf[..], line, e)
  {
    var tok, save := first, saved;
    var i := 0;
    assert fields[0..] == fields;
    while i < cols && tok.Some?
      invariant 0 <= i <= cols && i <= |fields| && line <= save <= e
      invariant Pending(buf[..], tok, save, e, fields[i..])
      invariant redis.store == WithRow(old(redis.store), key, names, fields, i)
      invariant SameOutside(old(buf[..]), buf[..], line, e)
      decreases cols - i
    {
      redis.HSet(key, schema[i].name, Str(buf[..], tok.value));
      assert fields[i..][1..] == fields[i + 1..];
      tok, save := NextToken(buf, save, e, fields[i..]);
      i := i + 1;
    }
  }

  /** Tokenising a line leaves the text behind it alone. */
  lemma LaterTextKept(b: seq<char>, b': seq<char>, line: nat, next: nat)
    requires IsString(b, line) && IsString(b, next) && line <= StrEnd(b, line) <= next
    requires SameOutside(b, b', line, StrEnd(b, line))
    ensures IsString(b', next) && StrEnd(b', next) == StrEnd(b, next) && Str(b', next) == Str(b, next)
  {
    SameString(b, b', next);
  }

  /** One line of the loop; empty lines are skipped. */
  method StoreLine(redis: Server, buf: array<char>, line: nat, cursor: nat, schema: array<Column>, cols: nat, row: nat,
                   ghost names: seq<string>, ghost rest: seq<string>) returns (row': nat)
    requires IsString(buf[..], line) && IsString(buf[..], cursor) && StrEnd(buf[..], line) <= cursor
    requires cols <= schema.Length && cols == |names|
    requires forall i :: 0 <= i < cols ==> schema[i].name == names[i]
    modifies redis`store, buf
    ensures IsString(buf[..], cursor) && Str(buf[..], cursor) == old(Str(buf[..], cursor))
    ensures WithLines(redis.store, names, row', rest)
      == WithLines(old(redis.store), names, row, [old(Str(buf[..], line))] + rest)
  {
    ghost var b, lines := buf[..], [Str(buf[..], line)] + rest;
    assert lines[1..] == rest;
    row' := row;
    if buf[line] != NUL {
      assert lines[0] != "";
      row' := row + 1;
      StoreRow(redis, buf, line, schema, cols, RowKey(row'), names);
      LaterTextKept(b, buf[..], line, cursor);
    } else {
      FindIs(buf[..], line, {NUL}, line);
    }
  }

  /** The loop over the remaining rows. */
  method StoreRemainingRows(redis: Server, buf: array<char>, start: nat, schema: array<Column>, cols: nat,
                            ghost names: seq<string>) returns (row: nat)
    requires IsString(buf[..], start) && cols <= schema.Length && cols == |names|
    requires forall i :: 0 <= i < cols ==> schema[i].name == names[i]
    modifies redis`store, buf
    ensures (redis.store, row) == WithLines(old(redis.store), names, 1, LinesOf(old(Str(buf[..], start))))
  {
    ghost var text := Str(buf[..], start); // from the current line on
    ghost var all := WithLines(redis.store, names, 1, LinesOf(text));
    row := 1;
    var line, cursor := NextLine(buf, start);
    while line.Some?
      invariant line.Some? <==> text != ""
      invariant all == WithLines(redis.store, names, row, LinesOf(text))
      invariant IsString(buf[..], cursor)
      invariant line.Some? ==> IsString(buf[..], line.value) && StrEnd(buf[..], line.value) <= cursor
      invariant line.Some? ==> Str(buf[..], line.value) == Head(text).content && Str(buf[..], cursor) == Tail(text)
      decreases |text|
    {
      FirstLine(text);
      row := StoreLine(redis, buf, line.value, cursor, schema, cols, row, names, LinesOf(Tail(text)));
      text := Tail(text);
      line, cursor := NextLine(buf, cursor);
    }
  }

  /** load_dataset_generic. The result is that of Dataset.Load on the visible text: store, schema and row
      count. Without the whole file in a buffer nothing is stored. */
  method LoadDataset(redis: Server, arena: FpgaArena, file: File, schema: array<Column>)
    returns (rows: nat, ns: nat, exited: bool)
    requires schema.Length == MAX_COLS && arena.Valid() && BufferFits(arena.base, arena.cur, file)
    requires Complete(file) ==> FirstRowComplete(Visible(file.content))
    modifies redis`store, arena, schema
    ensures exited == ExitsOn(old(arena.base), old(arena.cur), old(arena.end), file)
    ensures exited || !Complete(file) ==> rows == 0 && redis.store == old(redis.store)
    ensures ns <= MAX_COLS
    ensures !exited && Complete(file) ==>
      Loaded(redis.store, schema[..ns], rows) == Load(old(redis.store), Visible(file.content))
  {
    var r := ReadFile(arena, file);
    exited := r.Exited?;
    if !r.Buffer? {
      return 0, 0, exited;
    }
    rows, ns := LoadBuffer(redis, r.buf, schema, Visible(file.content));
  }

  /** What Load does with a text of at least two lines. */
  lemma LoadOfTwoLines(store: Store, text: string)
    requires FirstRowComplete(text) && text != "" && Tail(text) != ""
    ensures |FieldsOf(Head(Tail(text)).content)| >= |Names(Head(text).content)|
    ensures Load(store, text)
      == Dataset.LoadRows(
           store, Names(Head(text).content), FieldsOf(Head(Tail(text)).content), LinesOf(Tail(Tail(text))))
  {
    FirstLine(text);
    FirstLine(Tail(text));
    TwoAndMore(LinesOf(text), Head(text).content, Head(Tail(text)).content, LinesOf(Tail(Tail(text))));
  }

  lemma TwoAndMore(lines: seq<string>, first: string, second: string, rest: seq<string>)
    requires lines == [first] + ([second] + rest)
    ensures |lines| >= 2 && lines[0] == first && lines[1] == second && lines[2..] == rest
  {
  }

  /** What it does without a data row. */
  lemma LoadOfHeader(store: Store, text: string)
    requires text != "" ==> Tail(text) == ""
    ensures FirstRowComplete(text)
    ensures Load(store, text) == Loaded(store, if text == "" then [] else Inferred(Names(Head(text).content), []), 0)
  {
    FirstLine(text);
  }

  /** From the header on. */
  method LoadBuffer(redis: Server, buf: array<char>, schema: array<Column>, ghost text: string)
    returns (rows: nat, ns: nat)
    requires schema.Length == MAX_COLS && IsString(buf[..], 0) && Str(buf[..], 0) == text && FirstRowComplete(text)
    modifies redis`store, buf, schema
    ensures ns <= MAX_COLS
    ensures Loaded(redis.store, schema[..ns], rows) == Load(old(redis.store), text)
  {
    var line, cursor := NextLine(buf, 0);
    if line == None {
      LoadOfHeader(redis.store, text);
      return 0, 0;
    }
    ghost var b := buf[..];
    ns := ParseHeader(buf, line.value, schema);
    LaterTextKept(b, buf[..], line.value, cursor);
    rows := LoadBody(redis, buf, cursor, schema, ns, text);
  }

  /** From the line after the header on. */
  method LoadBody(redis: Server, buf: array<char>, start: nat, schema: array<Column>, ns: nat, ghost text: string)
    returns (rows: nat)
    requires text != "" && FirstRowComplete(text) && IsString(buf[..], start) && Str(buf[..], start) == Tail(text)
    requires ns == |Names(Head(text).content)| <= MAX_COLS == schema.Length
    requires schema[..ns] == Inferred(Names(Head(text).content), [])
    modifies redis`store, buf, schema
    ensures Loaded(redis.store, schema[..ns], rows) == Load(old(redis.store), text)
  {
    var line, cursor := NextLine(buf, start);
    if line == None {
      LoadOfHeader(redis.store, text);
      return 0;
    }
    LoadOfTwoLines(redis.store, text);
    rows := LoadFirstRow(redis, buf, line.value, cursor, schema, ns, Names(Head(text).content));
  }

  lemma TypesInferred(before: seq<Column>, after: seq<Column>, names: seq<string>, first: seq<string>)
    requires |names| <= |before| && |names| <= |first| && before[..|names|] == Inferred(names, [])
    requires TypesRead(before, after, first, |names|)
    ensures after[..|names|] == Inferred(names, first)
  {
    forall i | 0 <= i < |names|
      ensures after[i] == Inferred(names, first)[i]
    {
      assert before[i] == before[..|names|][i];
    }
  }

  /** From the first data row on. */
  method LoadFirstRow(redis: Server, buf: array<char>, line: nat, cursor: nat, schema: array<Column>, cols: nat,
                      ghost names: seq<string>) returns (rows: nat)
    requires schema.Length == MAX_COLS && cols == |names| <= MAX_COLS && schema[..cols] == Inferred(names, [])
    requires IsString(buf[..], line) && IsString(buf[..], cursor) && StrEnd(buf[..], line) <= cursor
    requires |FieldsOf(Str(buf[..], line))| >= |names|
    modifies redis`store, buf, schema
    ensures Loaded(redis.store, schema[..cols], rows)
      == Dataset.LoadRows(
           old(redis.store), names, FieldsOf(old(Str(buf[..], line))), LinesOf(old(Str(buf[..], cursor))))
  {
    ghost var first, b := FieldsOf(Str(buf[..], line)), buf[..];
    var tokens := new nat[MAX_COLS];
    ghost var before := schema[..];
    assert before[..cols] == schema[..cols];
    assert forall i :: 0 <= i < cols ==> schema[i] == schema[..cols][i];
    InferTypes(buf, line, schema, cols, tokens);
    LaterTextKept(b, buf[..], line, cursor);
    TypesInferred(before, schema[..], names, first);
    assert schema[..cols] == schema[..][..cols];
    rows := StoreRows(redis, buf, cursor, schema, cols, tokens, names, first);
  }

  /** The schema, the first row and the remaining rows, once the types are known. */
  method StoreRows(redis: Server, buf: array<char>, cursor: nat, schema: array<Column>, cols: nat, tokens: array<nat>,
                   ghost names: seq<string>, ghost first: seq<string>) returns (rows: nat)
    requires cols == |names| <= |first| && cols <= schema.Length && cols <= tokens.Length
    requires schema[..cols] == Inferred(names, first) && IsString(buf[..], cursor)
    requires Denote(buf[..], tokens[..cols], first)
    modifies redis`store, buf
    ensures Loaded(redis.store, schema[..cols], rows)
      == Dataset.LoadRows(old(redis.store), names, first, LinesOf(old(Str(buf[..], cursor))))
  {
    forall i | 0 <= i < cols
      ensures schema[i].name == names[i]
    {
      assert schema[i] == schema[..cols][i];
    }
    StoreSchema(redis, schema, cols);
    StoreFirstRow(redis, buf, tokens, schema, cols, RowKey(1), names, first);
    rows := StoreRemainingRows(redis, buf, cursor, schema, cols, names);
  }
}
