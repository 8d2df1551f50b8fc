/** Cells and tokens. The tokeniser drops empty cells, so the tokens behind one move to earlier columns: exactly
    when the sums are still those of the cells in their places. */
module Places {
  import opened CStrings
  import opened Lines
  import opened Fields
  import opened Numbers
  import opened Dataset
  import opened Pipeline
  import opened SumLaws

  /** No empty part before a non-empty one. */
  ghost predicate Compact(parts: seq<string>) {
    forall i, j :: 0 <= i < j < |parts| && parts[i] == "" ==> parts[j] == ""
  }

  /** Every token of the line is the cell of its own column. */
  ghost predicate TokensInPlace(line: string) {
    forall i :: 0 <= i < |FieldsOf(line)| ==> i < |Split(line)| && FieldsOf(line)[i] == Split(line)[i]
  }

  lemma {:induction false} NothingNonEmpty(parts: seq<string>)
    ensures NonEmpty(parts) == [] <==> forall i :: 0 <= i < |parts| ==> parts[i] == ""
    ensures NonEmpty(parts) != [] ==> NonEmpty(parts)[0] != ""
    decreases |parts|
  {
    if parts != [] {
      NothingNonEmpty(parts[1..]);
      assert forall i :: 1 <= i < |parts| ==> parts[i] == parts[1..][i - 1];
    }
  }

  lemma CompactCons(part: string, rest: seq<string>)
    requires part != ""
    ensures Compact([part] + rest) <==> Compact(rest)
    ensures NonEmpty([part] + rest) <= [part] + rest <==> NonEmpty(rest) <= rest
  {
    var parts := [part] + rest;
    NonEmptyCons(part, rest);
    assert forall i :: 0 <= i < |rest| ==> rest[i] == parts[i + 1];
    if Compact(parts) {
      forall i, j | 0 <= i < j < |rest| && rest[i] == ""
        ensures rest[j] == ""
      {
        assert parts[i + 1] == "" && parts[j + 1] == rest[j];
      }
    }
    if NonEmpty(parts) <= parts { assert NonEmpty(parts)[1..] <= parts[1..]; }
  }

  lemma {:induction false} NonEmptyPrefix(parts: seq<string>)
    ensures NonEmpty(parts) <= parts <==> Compact(parts)
    decreases |parts|
  {
    if parts == [] {
    } else if parts[0] == "" {
      NothingNonEmpty(parts);
    } else {
      NonEmptyPrefix(parts[1..]);
      CompactCons(parts[0], parts[1..]);
      assert parts == [parts[0]] + parts[1..];
    }
  }

  /** The tokens keep their columns exactly when no empty cell comes before a non-empty one. */
  lemma TokensInPlaceIff(line: string)
    ensures TokensInPlace(line) <==> Compact(Split(line))
    ensures Compact(Split(line)) ==> FieldsOf(line) <= Split(line)
  {
    FieldsAreNonEmptyParts(line);
    NonEmptyPrefix(Split(line));
    NonEmptyBounded(Split(line));
  }

  // ---- Sums ----

  /** The int columns of a line, each counted in the cell at its place. */
  function PlaceSum(schema: seq<Column>, line: string): int {
    RowSumOf(schema, Split(line))
  }

  function PlacesSum(schema: seq<Column>, lines: seq<string>): int {
    if lines == [] then 0 else PlaceSum(schema, lines[0]) + PlacesSum(schema, lines[1..])
  }

  /** Column i exists and is an int column. */
  predicate Counts(schema: seq<Column>, i: nat) {
    i < |schema| && schema[i].isInt
  }

  lemma {:induction false} SamePrefix(schema: seq<Column>, row: seq<string>, cells: seq<string>, k: nat)
    requires row <= cells && k <= |row| && k <= |schema|
    ensures CellSum(schema, row, k) == CellSum(schema, cells, k)
    decreases k
  {
    if k != 0 { SamePrefix(schema, row, cells, k - 1); }
  }

  lemma OneMoreCell(schema: seq<Column>, row: seq<string>, x: string)
    ensures RowSumOf(schema, row + [x]) == RowSumOf(schema, row) + if Counts(schema, |row|) then Atoll(x) else 0
  {
    SamePrefix(schema, row, row + [x], Width(schema, row));
  }

  lemma {:induction false} NonEmptySnoc(parts: seq<string>, x: string)
    ensures NonEmpty(parts + [x]) == NonEmpty(parts) + if x == "" then [] else [x]
    decreases |parts|
  {
    if parts == [] {
      assert parts + [x] == [x] + [];
      NonEmptyCons(x, []);
    } else {
      assert parts + [x] == [parts[0]] + (parts[1..] + [x]);
      NonEmptyCons(parts[0], parts[1..] + [x]);
      NonEmptySnoc(parts[1..], x);
    }
  }

  /** Which cells of a line are not empty. */
  ghost predicate Fits(cells: seq<string>, pattern: seq<bool>) {
    |cells| == |pattern| && forall p :: 0 <= p < |cells| ==> (cells[p] != "" <==> pattern[p])
  }

  function PatternOf(cells: seq<string>): (pattern: seq<bool>)
    ensures Fits(cells, pattern)
  {
    seq(|cells|, p requires 0 <= p < |cells| => cells[p] != "")
  }

  /** The non-empty cells before place p: the column the tokeniser puts cell p into. */
  function Rank(pattern: seq<bool>, p: nat): nat
    requires p <= |pattern|
  {
    if p == 0 then 0 else Rank(pattern, p - 1) + (if pattern[p - 1] then 1 else 0)
  }

  /** One more cell on both sides. */
  lemma OneMorePlace(schema: seq<Column>, pattern: seq<bool>, cells: seq<string>, p: nat)
    requires Fits(cells, pattern) && p < |cells| && |NonEmpty(cells[..p])| == Rank(pattern, p)
    ensures |NonEmpty(cells[..p + 1])| == Rank(pattern, p + 1)
    ensures RowSumOf(schema, cells[..p + 1]) == RowSumOf(schema, cells[..p])
      + if pattern[p] && Counts(schema, p) then Atoll(cells[p]) else 0
    ensures RowSumOf(schema, NonEmpty(cells[..p + 1])) == RowSumOf(schema, NonEmpty(cells[..p]))
      + if pattern[p] && Counts(schema, Rank(pattern, p)) then Atoll(cells[p]) else 0
  {
    assert cells[..p + 1] == cells[..p] + [cells[p]];
    NonEmptySnoc(cells[..p], cells[p]);
    OneMoreCell(schema, cells[..p], cells[p]);
    if pattern[p] {
      OneMoreCell(schema, NonEmpty(cells[..p]), cells[p]);
    } else {
      assert NonEmpty(cells[..p + 1]) == NonEmpty(cells[..p]);
    }
  }

  /** Every non-empty cell counts in the column it is put into exactly if it counts in its own. */
  ghost predicate Agrees(schema: seq<Column>, pattern: seq<bool>) {
    forall p :: 0 <= p < |pattern| && pattern[p] ==> (Counts(schema, Rank(pattern, p)) <==> Counts(schema, p))
  }

  lemma {:induction false} SumsAgree(schema: seq<Column>, pattern: seq<bool>, cells: seq<string>, p: nat)
    requires Fits(cells, pattern) && Agrees(schema, pattern) && p <= |cells|
    ensures |NonEmpty(cells[..p])| == Rank(pattern, p)
    ensures RowSumOf(schema, NonEmpty(cells[..p])) == RowSumOf(schema, cells[..p])
    decreases p
  {
    if p > 0 {
      SumsAgree(schema, pattern, cells, p - 1);
      OneMorePlace(schema, pattern, cells, p - 1);
    }
  }

  lemma LineAgrees(schema: seq<Column>, line: string)
    requires Agrees(schema, PatternOf(Split(line)))
    ensures LineSum(schema, line) == PlaceSum(schema, line)
  {
    var cells := Split(line);
    SumsAgree(schema, PatternOf(cells), cells, |cells|);
    assert cells[..|cells|] == cells;
    FieldsAreNonEmptyParts(line);
  }

  /** A line in which only cell p is worth anything. */
  lemma {:induction false} OneCell(schema: seq<Column>, pattern: seq<bool>, cells: seq<string>, p: nat, l: nat)
    requires Fits(cells, pattern) && p < |cells| && pattern[p] && l <= |cells|
    requires forall q :: 0 <= q < |cells| && q != p ==> Atoll(cells[q]) == 0
    ensures |NonEmpty(cells[..l])| == Rank(pattern, l)
    ensures RowSumOf(schema, cells[..l]) == if p < l && Counts(schema, p) then Atoll(cells[p]) else 0
    ensures RowSumOf(schema, NonEmpty(cells[..l]))
      == if p < l && Counts(schema, Rank(pattern, p)) then Atoll(cells[p]) else 0
    decreases l
  {
    if l > 0 {
      OneCell(schema, pattern, cells, p, l - 1);
      OneMorePlace(schema, pattern, cells, l - 1);
    }
  }

  /** The token of a cell moves to the column of its rank, in any line: the line counts it there, the cells count
      it in its place. */
  lemma MovedToken(schema: seq<Column>, line: string, p: nat)
    requires p < |Split(line)| && Split(line)[p] != ""
    requires forall q :: 0 <= q < |Split(line)| && q != p ==> Atoll(Split(line)[q]) == 0
    ensures var value := Atoll(Split(line)[p]);
      && LineSum(schema, line) == (if Counts(schema, Rank(PatternOf(Split(line)), p)) then value else 0)
      && PlaceSum(schema, line) == if Counts(schema, p) then value else 0
  {
    var cells := Split(line);
    OneCell(schema, PatternOf(cells), cells, p, |cells|);
    assert cells[..|cells|] == cells;
    FieldsAreNonEmptyParts(line);
  }

  // ---- Exactly when the sums agree ----

  /** Every line with these non-empty cells is summed as if its tokens kept their places. */
  ghost predicate SummedByPlace(schema: seq<Column>, pattern: seq<bool>) {
    forall line :: Plain(line) && Fits(Split(line), pattern) ==> LineSum(schema, line) == PlaceSum(schema, line)
  }

  lemma SplitCons(part: string, rest: string, s: string)
    requires ',' !in part && s == part + "," + rest
    ensures Split(s) == [part] + Split(rest)
  {
    FindIs(s, 0, {','}, |part|);
    assert s[..|part|] == part && s[|part| + 1..] == rest;
  }

  lemma SplitSingle(part: string)
    requires ',' !in part
    ensures Split(part) == [part]
  {
    FindIs(part, 0, {','}, |part|);
  }

  /** Cells written as a row are the parts of that line, empty ones included. */
  lemma {:induction false} RowThenSplit(cells: seq<string>)
    requires cells != [] && forall p :: 0 <= p < |cells| ==> ',' !in cells[p]
    ensures Split(Row(cells)) == cells
    decreases |cells|
  {
    if |cells| == 1 {
      SplitSingle(cells[0]);
    } else {
      RowThenSplit(cells[1..]);
      SplitCons(cells[0], Row(cells[1..]), Row(cells));
      assert cells == [cells[0]] + cells[1..];
    }
  }

  /** A 1 at place p, zeros in the other non-empty cells. */
  function OneAt(pattern: seq<bool>, p: nat): (cells: seq<string>)
    ensures |cells| == |pattern|
    ensures forall q :: 0 <= q < |cells| ==> cells[q] == if !pattern[q] then "" else if q == p then "1" else "0"
  {
    seq(|pattern|, q requires 0 <= q < |pattern| => if !pattern[q] then "" else if q == p then "1" else "0")
  }

  lemma OneAtLine(pattern: seq<bool>, p: nat)
    requires p < |pattern| && pattern[p]
    ensures Plain(Row(OneAt(pattern, p))) && Split(Row(OneAt(pattern, p))) == OneAt(pattern, p)
    ensures Fits(OneAt(pattern, p), pattern)
  {
    PlainRow(OneAt(pattern, p));
    RowThenSplit(OneAt(pattern, p));
  }

  lemma DisagreementShows(schema: seq<Column>, pattern: seq<bool>, p: nat)
    requires p < |pattern| && pattern[p] && !(Counts(schema, Rank(pattern, p)) <==> Counts(schema, p))
    ensures !SummedByPlace(schema, pattern)
  {
    var cells := OneAt(pattern, p);
    OneAtLine(pattern, p);
    OneAtWorth(pattern, p);
    SamePattern(cells, pattern);
    MovedToken(schema, Row(cells), p);
  }

  lemma OneAtWorth(pattern: seq<bool>, p: nat)
    requires p < |pattern| && pattern[p]
    ensures forall q :: 0 <= q < |pattern| ==> Atoll(OneAt(pattern, p)[q]) == if q == p then 1 else 0
  {
    SingleDigits();
    assert Atoll("") == 0;
  }

  lemma SamePattern(cells: seq<string>, pattern: seq<bool>)
    requires Fits(cells, pattern)
    ensures PatternOf(cells) == pattern
  {
  }

  /** For a schema and a pattern of empty cells: the sums are those of the cells in their places, whatever the
      non-empty cells hold, exactly when each of them counts in the column of its rank if and only if it counts
      in its own column. */
  lemma SummedByPlaceIff(schema: seq<Column>, pattern: seq<bool>)
    ensures SummedByPlace(schema, pattern) <==> Agrees(schema, pattern)
  {
    if Agrees(schema, pattern) {
      forall line | Plain(line) && Fits(Split(line), pattern)
        ensures LineSum(schema, line) == PlaceSum(schema, line)
      {
        SamePattern(Split(line), pattern);
        LineAgrees(schema, line);
      }
    } else {
      var p :| 0 <= p < |pattern| && pattern[p] && !(Counts(schema, Rank(pattern, p)) <==> Counts(schema, p));
      DisagreementShows(schema, pattern, p);
    }
  }

  // ---- Texts ----

  lemma {:induction false} LinesAgree(schema: seq<Column>, lines: seq<string>)
    requires forall l :: 0 <= l < |lines| ==> Agrees(schema, PatternOf(Split(lines[l])))
    ensures LinesSum(schema, lines) == PlacesSum(schema, lines)
    decreases |lines|
  {
    if lines != [] {
      LineAgrees(schema, lines[0]);
      LinesAgree(schema, lines[1..]);
    }
  }

  lemma {:induction false} FullRank(pattern: seq<bool>, p: nat)
    requires p <= |pattern| && forall q :: 0 <= q < p ==> pattern[q]
    ensures Rank(pattern, p) == p
    decreases p
  {
    if p > 0 { FullRank(pattern, p - 1); }
  }

  /** Compact lines agree with every schema. */
  lemma CompactAgrees(schema: seq<Column>, cells: seq<string>)
    requires Compact(cells)
    ensures Agrees(schema, PatternOf(cells))
  {
    var pattern := PatternOf(cells);
    forall p | 0 <= p < |pattern| && pattern[p]
      ensures Rank(pattern, p) == p
    {
      FullRank(pattern, p);
    }
  }

  /** The sum of a text is that of its cells in their places when all its data lines agree with its schema. */
  lemma CsvInPlace(text: string)
    requires |LinesOf(text)| >= 2
    requires var lines := LinesOf(text);
      forall l :: 1 <= l < |lines| ==>
        Agrees(Inferred(Names(lines[0]), FieldsOf(lines[1])), PatternOf(Split(lines[l])))
    ensures var lines := LinesOf(text);
      CsvSum(text) == PlacesSum(Inferred(Names(lines[0]), FieldsOf(lines[1])), lines[1..])
  {
    var lines := LinesOf(text);
    LinesAgree(Inferred(Names(lines[0]), FieldsOf(lines[1])), lines[1..]);
  }

  /** In particular when no data line has an empty cell before a non-empty one. */
  lemma CompactCsvInPlace(text: string)
    requires |LinesOf(text)| >= 2
    requires forall l :: 1 <= l < |LinesOf(text)| ==> Compact(Split(LinesOf(text)[l]))
    ensures var lines := LinesOf(text);
      CsvSum(text) == PlacesSum(Inferred(Names(lines[0]), FieldsOf(lines[1])), lines[1..])
  {
    var lines := LinesOf(text);
    forall l | 1 <= l < |lines|
      ensures Agrees(Inferred(Names(lines[0]), FieldsOf(lines[1])), PatternOf(Split(lines[l])))
    {
      CompactAgrees(Inferred(Names(lines[0]), FieldsOf(lines[1])), Split(lines[l]));
    }
    CsvInPlace(text);
  }
}
