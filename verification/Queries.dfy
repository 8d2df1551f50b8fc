/** The projection and aggregation queries over the loaded rows. */
module Queries {
  import opened Wrappers
  import opened Numbers
  import opened Redis
  import opened Dataset

  /** What one field-value pair of a reply adds for a column. */
  function PairValue(name: string, elements: seq<Option<string>>, j: nat): int
    requires j + 1 < |elements|
  {
    if elements[j].Some? && elements[j].value == name && elements[j + 1].Some? then Atoll(elements[j + 1].value) else 0
  }

  /** The first n pairs. */
  function PairSum(name: string, elements: seq<Option<string>>, n: nat): int
    requires 2 * n <= |elements|
  {
    if n == 0 then 0 else PairSum(name, elements, n - 1) + PairValue(name, elements, 2 * (n - 1))
  }

  /** The first k columns of a reply. */
  function RowSum(schema: seq<Column>, elements: seq<Option<string>>, k: nat): int
    requires k <= |schema|
  {
    if k == 0 then 0
    else
      var column := if schema[k - 1].isInt then PairSum(schema[k - 1].name, elements, |elements| / 2) else 0;
      RowSum(schema, elements, k - 1) + column
  }

  function ReplySum(schema: seq<Column>, reply: Reply): int {
    if reply.Array? then RowSum(schema, reply.elements, |schema|) else 0
  }

  function Total(schema: seq<Column>, replies: seq<Reply>): int {
    if replies == [] then 0
    else Total(schema, replies[..|replies| - 1]) + ReplySum(schema, replies[|replies| - 1])
  }

  function Arrays(replies: seq<Reply>): nat {
    if replies == [] then 0
    else Arrays(replies[..|replies| - 1]) + (if replies[|replies| - 1].Array? then 1 else 0)
  }

  /** The same sum taken from the store itself: the int columns of a hash. */
  function HashSum(schema: seq<Column>, hash: Hash, k: nat): int
    requires k <= |schema|
  {
    if k == 0 then 0
    else
      var name := schema[k - 1].name;
      HashSum(schema, hash, k - 1) + (if schema[k - 1].isInt && name in hash then Atoll(hash[name]) else 0)
  }

  function StoreSum(store: Store, schema: seq<Column>, rows: nat): int {
    if rows == 0 then 0
    else StoreSum(store, schema, rows - 1) + HashSum(schema, HashAt(store, RowKey(rows)), |schema|)
  }

  /** The replies to HGETALL row:1, ..., row:n. */
  ghost predicate Answers(store: Store, replies: seq<Reply>) {
    forall i :: 0 <= i < |replies| && replies[i].Array? ==>
      Enumerates(replies[i].elements, HashAt(store, RowKey(i + 1)))
  }

  /** HGETALL row:1, ..., row:n with these replies. */
  ghost function Asked(replies: seq<Reply>): (log: seq<Exchange>)
    ensures |log| == |replies|
  {
    seq(|replies|, i requires 0 <= i < |replies| => Exchange(RowKey(i + 1), replies[i]))
  }

  lemma AskedOnce(before: seq<Exchange>, replies: seq<Reply>, r: Reply)
    ensures before + Asked(replies + [r]) == before + Asked(replies) + [Exchange(RowKey(|replies| + 1), r)]
  {
    var all := replies + [r];
    assert forall i :: 0 <= i < |replies| ==> Asked(all)[i] == Asked(replies)[i];
    assert Asked(all) == Asked(replies) + [Exchange(RowKey(|replies| + 1), r)];
  }

  ghost predicate AllArrays(replies: seq<Reply>) {
    forall i :: 0 <= i < |replies| ==> replies[i].Array?
  }

  // ---- The order of the fields does not matter ----

  lemma {:induction false} FlattenLength(fields: seq<string>, hash: Hash)
    requires forall f :: f in fields ==> f in hash
    ensures |Flatten(fields, hash)| == 2 * |fields|
    decreases |fields|
  {
    if fields != [] { FlattenLength(fields[1..], hash); }
  }

  lemma {:induction false} FlattenAt(fields: seq<string>, hash: Hash, i: nat)
    requires (forall f :: f in fields ==> f in hash) && i < |fields|
    requires |Flatten(fields, hash)| == 2 * |fields|
    ensures Flatten(fields, hash)[2 * i] == Some(fields[i]) && Flatten(fields, hash)[2 * i + 1] == Some(hash[fields[i]])
    decreases |fields|
  {
    if i > 0 { FlattenAt(fields[1..], hash, i - 1); }
  }

  lemma {:induction false} PairSumOfOrder(name: string, fields: seq<string>, hash: Hash, n: nat)
    requires Orders(fields, hash) && n <= |fields|
    requires |Flatten(fields, hash)| == 2 * |fields|
    ensures PairSum(name, Flatten(fields, hash), n) == if name in fields[..n] then Atoll(hash[name]) else 0
    decreases n
  {
    if n != 0 {
      PairSumOfOrder(name, fields, hash, n - 1);
      FlattenAt(fields, hash, n - 1);
      assert fields[..n] == fields[..n - 1] + [fields[n - 1]];
    }
  }

  lemma PairSumOfFields(name: string, fields: seq<string>, hash: Hash)
    requires Orders(fields, hash)
    ensures var elements := Flatten(fields, hash);
      PairSum(name, elements, |elements| / 2) == if name in hash then Atoll(hash[name]) else 0
  {
    FlattenLength(fields, hash);
    PairSumOfOrder(name, fields, hash, |fields|);
    assert fields[..|fields|] == fields;
  }

  lemma PairSumOfReply(name: string, elements: seq<Option<string>>, hash: Hash)
    requires Enumerates(elements, hash)
    ensures PairSum(name, elements, |elements| / 2) == if name in hash then Atoll(hash[name]) else 0
  {
    var fields :| Orders(fields, hash) && elements == Flatten(fields, hash);
    PairSumOfFields(name, fields, hash);
  }

  lemma {:induction false} RowSumOfReply(schema: seq<Column>, elements: seq<Option<string>>, hash: Hash, k: nat)
    requires Enumerates(elements, hash) && k <= |schema|
    ensures RowSum(schema, elements, k) == HashSum(schema, hash, k)
    decreases k
  {
    if k != 0 {
      RowSumOfReply(schema, elements, hash, k - 1);
      PairSumOfReply(schema[k - 1].name, elements, hash);
    }
  }

  /** Whatever order the server lists the fields in, the replies sum up to what the store holds. */
  lemma {:induction false} TotalIsStoreSum(store: Store, schema: seq<Column>, replies: seq<Reply>)
    requires Answers(store, replies) && AllArrays(replies)
    ensures Total(schema, replies) == StoreSum(store, schema, |replies|)
    ensures Arrays(replies) == |replies|
    decreases |replies|
  {
    if replies != [] {
      var n := |replies|;
      TotalIsStoreSum(store, schema, replies[..n - 1]);
      RowSumOfReply(schema, replies[n - 1].elements, HashAt(store, RowKey(n)), |schema|);
    }
  }

  // ---- Replies that are not as they should be ----

  function OnlyArrays(replies: seq<Reply>): seq<Reply> {
    if replies == [] then []
    else OnlyArrays(replies[..|replies| - 1]) + (if replies[|replies| - 1].Array? then [replies[|replies| - 1]] else [])
  }

  /** Replies that are no arrays might as well not be there, for the sum and for the count. */
  lemma {:induction false} OthersIgnored(schema: seq<Column>, replies: seq<Reply>)
    ensures Total(schema, replies) == Total(schema, OnlyArrays(replies))
    ensures Arrays(replies) == |OnlyArrays(replies)| && AllArrays(OnlyArrays(replies))
    decreases |replies|
  {
    if replies != [] {
      var l := |replies| - 1;
      OthersIgnored(schema, replies[..l]);
      var before, last := OnlyArrays(replies[..l]), replies[l];
      if last.Array? {
        var all := before + [last];
        assert all[..|all| - 1] == before && all[|all| - 1] == last;
      } else {
        assert OnlyArrays(replies) == before;
      }
    }
  }

  /** The pairs of a reply count one by one: a complete pair of this name with the value that atoll reads, any
      other one with nothing; an element left over at the end is ignored. */
  lemma PairsCount(name: string, pairs: seq<Option<string>>, x: Option<string>, y: Option<string>)
    requires |pairs| % 2 == 0
    ensures PairSum(name, pairs + [x, y], |pairs + [x, y]| / 2)
      == PairSum(name, pairs, |pairs| / 2) + if x == Some(name) && y.Some? then Atoll(y.value) else 0
    ensures PairSum(name, pairs + [x], |pairs + [x]| / 2) == PairSum(name, pairs, |pairs| / 2)
  {
    SamePairs(name, pairs, pairs + [x, y], |pairs| / 2);
    SamePairs(name, pairs, pairs + [x], |pairs| / 2);
  }

  lemma {:induction false} SamePairs(name: string, a: seq<Option<string>>, b: seq<Option<string>>, n: nat)
    requires 2 * n <= |a| && a <= b
    ensures PairSum(name, a, n) == PairSum(name, b, n)
    decreases n
  {
    if n > 0 { SamePairs(name, a, b, n - 1); }
  }

  /** Each column counts for itself: an int column with its pairs, any other one with nothing. */
  lemma ColumnsCount(schema: seq<Column>, column: Column, elements: seq<Option<string>>)
    ensures ReplySum(schema + [column], Array(elements)) == ReplySum(schema, Array(elements))
      + if column.isInt then PairSum(column.name, elements, |elements| / 2) else 0
  {
    SameColumns(schema, schema + [column], elements, |schema|);
  }

  lemma {:induction false} SameColumns(a: seq<Column>, b: seq<Column>, elements: seq<Option<string>>, k: nat)
    requires k <= |a| && a <= b
    ensures RowSum(a, elements, k) == RowSum(b, elements, k)
    decreases k
  {
    if k > 0 { SameColumns(a, b, elements, k - 1); }
  }

  // ---- The queries ----

  lemma OneMoreReply(store: Store, schema: seq<Column>, replies: seq<Reply>, r: Reply)
    requires Answers(store, replies)
    requires r.Array? ==> Enumerates(r.elements, HashAt(store, RowKey(|replies| + 1)))
    ensures Answers(store, replies + [r])
    ensures Total(schema, replies + [r]) == Total(schema, replies) + ReplySum(schema, r)
    ensures Arrays(replies + [r]) == Arrays(replies) + (if r.Array? then 1 else 0)
  {
    assert (replies + [r])[..|replies|] == replies;
  }

  /** The two inner loops on one reply. */
  method SumReply(elements: seq<Option<string>>, schema: array<Column>, ns: nat, start: int) returns (sum: int)
    requires ns <= schema.Length
    ensures sum == start + RowSum(schema[..ns], elements, ns)
  {
    sum := start;
    var s := 0;
    while s < ns
      invariant 0 <= s <= ns
      invariant sum == start + RowSum(schema[..ns], elements, s)
    {
      if schema[s].isInt {
        sum := SumPairs(elements, schema[s].name, sum);
      }
      s := s + 1;
    }
  }

  method SumPairs(elements: seq<Option<string>>, name: string, start: int) returns (sum: int)
    ensures sum == start + PairSum(name, elements, |elements| / 2)
  {
    sum := start;
    var j := 0;
    while j + 1 < |elements|
      invariant 0 <= j <= |elements| && j % 2 == 0
      invariant sum == start + PairSum(name, elements, j / 2)
    {
      if elements[j].Some? && elements[j].value == name && elements[j + 1].Some? {
        sum := sum + Atoll(elements[j + 1].value);
      }
      j := j + 2;
    }
  }

  /** One HGETALL for the next row. */
  method AskRow(redis: Server, i: nat, replies: seq<Reply>, ghost schema: seq<Column>, ghost before: seq<Exchange>)
    returns (r: Reply, replies': seq<Reply>)
    requires i == |replies| + 1 && Answers(redis.store, replies) && redis.asked == before + Asked(replies)
    modifies redis`asked
    ensures replies' == replies + [r]
    ensures Answers(redis.store, replies') && redis.asked == before + Asked(replies')
    ensures Total(schema, replies') == Total(schema, replies) + ReplySum(schema, r)
    ensures Arrays(replies') == Arrays(replies) + (if r.Array? then 1 else 0)
  {
    r := redis.HGetAll(RowKey(i));
    AskedOnce(before, replies, r);
    OneMoreReply(redis.store, schema, replies, r);
    replies' := replies + [r];
  }

  /** query_aggregation_generic: one running sum over all replies; replies that are no arrays are skipped. */
  method Aggregate(redis: Server, rows: nat, schema: array<Column>, ns: nat) returns (sum: int, replies: seq<Reply>)
    requires ns <= schema.Length
    modifies redis`asked
    ensures redis.asked == old(redis.asked) + Asked(replies)
    ensures |replies| == rows && Answers(redis.store, replies)
    ensures sum == Total(schema[..ns], replies)
    ensures AllArrays(replies) ==> sum == StoreSum(redis.store, schema[..ns], rows)
  {
    sum, replies := 0, [];
    var i := 1;
    while i <= rows
      invariant 1 <= i <= rows + 1 && |replies| == i - 1
      invariant redis.asked == old(redis.asked) + Asked(replies)
      invariant Answers(redis.store, replies) && sum == Total(schema[..ns], replies)
    {
      var r;
      r, replies := AskRow(redis, i, replies, schema[..ns], old(redis.asked));
      if r.Array? {
        sum := SumReply(r.elements, schema, ns, sum);
      }
      i := i + 1;
    }
    if AllArrays(replies) { TotalIsStoreSum(redis.store, schema[..ns], replies); }
  }

  /** The rows' average, 0 when no row answered. */
  function Average(total: int, count: nat): (avg: real)
    ensures if count == 0 then avg == 0.0 else avg * count as real == total as real
  {
    if count != 0 then total as real / count as real else 0.0
  }

  /** query_projection_generic: a sum per row, added to the total, and the average over the rows that answered. */
  method Project(redis: Server, rows: nat, schema: array<Column>, ns: nat)
    returns (avg: real, total: int, count: nat, replies: seq<Reply>)
    requires ns <= schema.Length
    modifies redis`asked
    ensures redis.asked == old(redis.asked) + Asked(replies)
    ensures |replies| == rows && Answers(redis.store, replies)
    ensures total == Total(schema[..ns], replies) && count == Arrays(replies) <= rows
    ensures avg == Average(total, count)
    ensures AllArrays(replies) ==> count == rows && total == StoreSum(redis.store, schema[..ns], rows)
  {
    total, count, replies := 0, 0, [];
    var i := 1;
    while i <= rows
      invariant 1 <= i <= rows + 1 && |replies| == i - 1
      invariant redis.asked == old(redis.asked) + Asked(replies)
      invariant Answers(redis.store, replies)
      invariant total == Total(schema[..ns], replies) && count == Arrays(replies) <= |replies|
    {
      var r;
      r, replies := AskRow(redis, i, replies, schema[..ns], old(redis.asked));
      if r.Array? {
        var rowSum := SumReply(r.elements, schema, ns, 0);
        total := total + rowSum;
        count := count + 1;
      }
      i := i + 1;
    }
    avg := Average(total, count);
    if AllArrays(replies) { TotalIsStoreSum(redis.store, schema[..ns], replies); }
  }
}
