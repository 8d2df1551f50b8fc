/** Splitting a line into its non-empty comma-separated fields, in place. */
module Fields {
  import opened Wrappers
  import opened CStrings

  /** strspn(s, ","). */
  function Commas(s: string): (a: nat)
    ensures a <= |s| && (a < |s| ==> s[a] != ',') && forall k :: 0 <= k < a ==> s[k] == ','
  {
    if s == "" || s[0] != ',' then 0 else 1 + Commas(s[1..])
  }

  lemma CommasIs(s: string, a: nat)
    requires a <= |s| && (a < |s| ==> s[a] != ',') && forall k :: 0 <= k < a ==> s[k] == ','
    ensures Commas(s) == a
  {
  }

  /** Where the first field of s ends. */
  function FieldEnd(s: string): (e: nat)
    ensures Commas(s) <= e <= |s|
  {
    Find(s, Commas(s), {','})
  }

  /** What strtok_r leaves for the next call. */
  function AfterField(s: string): (r: string)
    ensures |r| < |s| || s == r == ""
  {
    var e := FieldEnd(s);
    if e < |s| then s[e + 1..] else ""
  }

  function FieldsOf(s: string): seq<string>
    decreases |s|
  {
    if Commas(s) == |s| then [] else [s[Commas(s)..FieldEnd(s)]] + FieldsOf(AfterField(s))
  }

  /** All parts between commas, empty ones included. */
  function Split(s: string): seq<string>
    decreases |s|
  {
    var e := Find(s, 0, {','});
    if e == |s| then [s] else [s[..e]] + Split(s[e + 1..])
  }

  function NonEmpty(parts: seq<string>): seq<string> {
    if parts == [] then []
    else (if parts[0] == "" then [] else [parts[0]]) + NonEmpty(parts[1..])
  }

  lemma {:induction false} NonEmptyBounded(parts: seq<string>)
    ensures |NonEmpty(parts)| <= |parts|
    ensures forall i :: 0 <= i < |NonEmpty(parts)| ==> NonEmpty(parts)[i] != ""
    decreases |parts|
  {
    if parts != [] { NonEmptyBounded(parts[1..]); }
  }

  lemma SkipCommaEnds(s: string, t: string)
    requires s == "," + t
    ensures Commas(s) == 1 + Commas(t) && FieldEnd(s) == 1 + FieldEnd(t)
  {
    assert s[1..] == t;
    assert forall k :: Commas(s) <= k < |s| ==> s[k] == t[k - 1];
    FindIs(s, Commas(s), {','}, 1 + FieldEnd(t));
  }

  lemma SkipComma(t: string)
    ensures FieldsOf("," + t) == FieldsOf(t)
  {
    var s := "," + t;
    SkipCommaEnds(s, t);
    assert s[1..] == t;
    SkipCommaParts(s, t);
  }

  lemma SkipCommaParts(s: string, t: string)
    requires s != "" && t == s[1..] && Commas(s) == 1 + Commas(t) && FieldEnd(s) == 1 + FieldEnd(t)
    ensures s[Commas(s)..FieldEnd(s)] == t[Commas(t)..FieldEnd(t)] && AfterField(s) == AfterField(t)
  {
    SliceShift(s, Commas(t), FieldEnd(t));
    if FieldEnd(s) < |s| { SliceShift(s, FieldEnd(t) + 1, |t|); }
  }

  lemma SliceShift(s: string, a: nat, e: nat)
    requires s != "" && a <= e < |s|
    ensures s[1 + a..1 + e] == s[1..][a..e]
  {
    var whole, part := s[1 + a..1 + e], s[1..][a..e];
    forall i | 0 <= i < |whole|
      ensures whole[i] == part[i]
    {
      assert whole[i] == s[1 + a + i] == s[1..][a + i];
    }
  }

  /** The fields are the non-empty parts between commas, in order. */
  lemma {:induction false} FieldsAreNonEmptyParts(s: string)
    ensures FieldsOf(s) == NonEmpty(Split(s))
    decreases |s|
  {
    if s == "" {
      NonEmptyCons("", []);
    } else if s[0] == ',' {
      SkipComma(s[1..]);
      assert s == "," + s[1..];
      FieldsAreNonEmptyParts(s[1..]);
      EmptyPart(s);
    } else {
      FirstPart(s);
      if FieldEnd(s) < |s| { FieldsAreNonEmptyParts(s[FieldEnd(s) + 1..]); }
    }
  }

  lemma NonEmptyCons(part: string, rest: seq<string>)
    ensures NonEmpty([part] + rest) == (if part == "" then [] else [part]) + NonEmpty(rest)
  {
    assert ([part] + rest)[1..] == rest;
  }

  lemma EmptyPart(s: string)
    requires s != "" && s[0] == ','
    ensures NonEmpty(Split(s)) == NonEmpty(Split(s[1..]))
  {
    FindIs(s, 0, {','}, 0);
    assert Split(s) == [""] + Split(s[1..]);
    NonEmptyCons("", Split(s[1..]));
  }

  /** A line that starts with a field. */
  lemma FirstPart(s: string)
    requires s != "" && s[0] != ','
    ensures FieldEnd(s) == |s| ==> FieldsOf(s) == [s] && NonEmpty(Split(s)) == [s]
    ensures var e := FieldEnd(s); e < |s| ==>
      FieldsOf(s) == [s[..e]] + FieldsOf(s[e + 1..]) && NonEmpty(Split(s)) == [s[..e]] + NonEmpty(Split(s[e + 1..]))
  {
    CommasIs(s, 0);
    if FieldEnd(s) < |s| { PartBeforeComma(s); } else { OnlyPart(s); }
  }

  lemma PartBeforeComma(s: string)
    requires s != "" && Commas(s) == 0 && FieldEnd(s) < |s|
    ensures var e := FieldEnd(s);
      FieldsOf(s) == [s[..e]] + FieldsOf(s[e + 1..]) && NonEmpty(Split(s)) == [s[..e]] + NonEmpty(Split(s[e + 1..]))
  {
    FieldBeforeComma(s, FieldEnd(s));
    SplitBeforeComma(s, FieldEnd(s));
  }

  lemma FieldBeforeComma(s: string, e: nat)
    requires s != "" && Commas(s) == 0 && e == FieldEnd(s) < |s|
    ensures FieldsOf(s) == [s[..e]] + FieldsOf(s[e + 1..])
  {
    assert s[0..e] == s[..e];
  }

  lemma SplitBeforeComma(s: string, e: nat)
    requires s != "" && s[0] != ',' && e == Find(s, 0, {','}) < |s|
    ensures NonEmpty(Split(s)) == [s[..e]] + NonEmpty(Split(s[e + 1..]))
  {
    assert Split(s) == [s[..e]] + Split(s[e + 1..]);
    NonEmptyCons(s[..e], Split(s[e + 1..]));
  }

  lemma OnlyPart(s: string)
    requires s != "" && Commas(s) == 0 && FieldEnd(s) == |s|
    ensures FieldsOf(s) == [s] && NonEmpty(Split(s)) == [s]
  {
    assert s[0..|s|] == s && AfterField(s) == "" && FieldsOf(AfterField(s)) == [];
    assert Split(s) == [s] + [];
    NonEmptyCons(s, []);
  }

  /** A CSV row with the given fields. */
  function Row(fields: seq<string>): string {
    if fields == [] then "" else if |fields| == 1 then fields[0] else fields[0] + "," + Row(fields[1..])
  }

  /** Writing a row of non-empty, comma-free fields and tokenising it gives the fields back. */
  lemma {:induction false} RowThenFields(fields: seq<string>)
    requires forall i :: 0 <= i < |fields| ==> fields[i] != "" && ',' !in fields[i]
    ensures FieldsOf(Row(fields)) == fields
    decreases |fields|
  {
    if fields == [] {
    } else {
      var s, f := Row(fields), fields[0];
      assert s[..|f|] == f;
      assert forall k :: 0 <= k < |f| ==> s[k] == f[k];
      CommasIs(s, 0);
      FindIs(s, 0, {','}, |f|);
      if |fields| > 1 {
        RowThenFields(fields[1..]);
        assert AfterField(s) == Row(fields[1..]);
      } else {
        assert AfterField(s) == "" && FieldsOf("") == [];
      }
      assert s[0..|f|] == f;
    }
  }

  /** No field is empty or contains a comma, and none contains a NUL that is not in the line. */
  lemma {:induction false} FieldsAreClean(s: string)
    ensures forall i :: 0 <= i < |FieldsOf(s)| ==> FieldsOf(s)[i] != "" && ',' !in FieldsOf(s)[i]
    ensures NUL !in s ==> forall i :: 0 <= i < |FieldsOf(s)| ==> NUL !in FieldsOf(s)[i]
    decreases |s|
  {
    if Commas(s) < |s| { FieldsAreClean(AfterField(s)); }
  }

  /** A token ends at a comma, and commas in front are skipped. */
  lemma CommaSeparates(token: string, rest: string)
    requires token != "" && ',' !in token
    ensures FieldsOf(token + "," + rest) == [token] + FieldsOf(rest) && FieldsOf("," + rest) == FieldsOf(rest)
    ensures FieldsOf(token) == [token]
  {
    var s := token + "," + rest;
    SkipComma(rest);
    FindIs(s, 0, {','}, |token|);
    CommasIs(s, 0);
    FieldBeforeComma(s, |token|);
    assert s[..|token|] == token && s[|token| + 1..] == rest;
    FindIs(token, 0, {','}, |token|);
    CommasIs(token, 0);
    OnlyPart(token);
  }

  /** The tokens of any line, written as a row, are tokenised to themselves: only empty parts get lost. */
  lemma FieldsThenRow(s: string)
    ensures FieldsOf(Row(FieldsOf(s))) == FieldsOf(s)
  {
    FieldsAreClean(s);
    RowThenFields(FieldsOf(s));
  }

  /** strtok_r(p, ",", &save) on a line, or on the saved pointer of the previous call. */
  method StrtokR(buf: array<char>, p: nat) returns (tok: Option<nat>, save: nat)
    requires IsString(buf[..], p)
    modifies buf
    ensures var s, e := old(Str(buf[..], p)), old(StrEnd(buf[..], p));
      && IsString(buf[..], save) && StrEnd(buf[..], save) == e && p <= save <= e
      && (FieldsOf(s) == [] ==> tok == None && save == e)
      && (FieldsOf(s) != [] ==>
            && tok.Some? && p <= tok.value && IsString(buf[..], tok.value)
            && Str(buf[..], tok.value) == FieldsOf(s)[0]
            && StrEnd(buf[..], tok.value) <= save
            && FieldsOf(Str(buf[..], save)) == FieldsOf(s)[1..])
      && (forall k :: 0 <= k < buf.Length && (k < p || k >= e) ==> buf[k] == old(buf[k]))
  {
    ghost var e := StrEnd(buf[..], p);
    var start := p;
    while buf[start] == ','
      invariant p <= start <= e
      invariant forall k :: p <= k < start ==> buf[k] == ','
      decreases e - start
    {
      start := start + 1;
    }
    if buf[start] == NUL {
      OnlyCommas(buf[..], p, start);
      return None, start;
    }
    var stop := start;
    while buf[stop] != ',' && buf[stop] != NUL
      invariant start <= stop <= e
      invariant forall k :: start <= k < stop ==> buf[k] != ','
      decreases e - stop
    {
      stop := stop + 1;
    }
    FieldFound(buf[..], p, start, stop);
    save := CutField(buf, p, start, stop);
    tok := Some(start);
  }

  /** The string at p holds nothing but commas. */
  lemma OnlyCommas(b: seq<char>, p: nat, start: nat)
    requires IsString(b, p) && p <= start <= StrEnd(b, p) && b[start] == NUL
    requires forall k :: p <= k < start ==> b[k] == ','
    ensures start == StrEnd(b, p) && FieldsOf(Str(b, p)) == []
    ensures IsString(b, start) && StrEnd(b, start) == start
  {
    var s := Str(b, p);
    FindIs(b, start, {NUL}, start);
    assert forall k :: 0 <= k < |s| ==> s[k] == ',';
    CommasIs(s, |s|);
  }

  lemma FieldFound(b: seq<char>, p: nat, start: nat, stop: nat)
    requires IsString(b, p) && p <= start <= stop <= StrEnd(b, p) && b[start] != NUL && b[start] != ','
    requires forall k :: p <= k < start ==> b[k] == ','
    requires forall k :: start <= k < stop ==> b[k] != ','
    requires b[stop] == ',' || b[stop] == NUL
    ensures FieldAt(b, p, start, stop)
  {
    var s := Str(b, p);
    assert start < StrEnd(b, p);
    assert forall k :: 0 <= k < |s| ==> s[k] == b[p + k];
    CommasIs(s, start - p);
    FindIs(s, start - p, {','}, stop - p);
  }

  /** The first field of the string at p occupies start..stop. */
  ghost predicate FieldAt(b: seq<char>, p: nat, start: nat, stop: nat) {
    && IsString(b, p)
    && var s := Str(b, p);
       Commas(s) < |s| && start == p + Commas(s) && stop == p + FieldEnd(s)
  }

  /** The token start..stop has been cut off and the string at save is what follows, up to the old end. */
  ghost predicate CutOff(b: seq<char>, b': seq<char>, p: nat, start: nat, stop: nat, save: nat)
    requires IsString(b, p)
  {
    var s := Str(b, p);
    && IsString(b', save) && StrEnd(b', save) == StrEnd(b, p) && stop <= save && Str(b', save) == AfterField(s)
    && IsString(b', start) && StrEnd(b', start) == stop && Str(b', start) == s[Commas(s)..FieldEnd(s)]
  }

  lemma LastField(b: seq<char>, p: nat, start: nat, stop: nat)
    requires FieldAt(b, p, start, stop) && b[stop] == NUL
    ensures CutOff(b, b, p, start, stop, stop)
  {
    var s := Str(b, p);
    assert stop == StrEnd(b, p) && FieldEnd(s) == |s|;
    Suffix(b, p, stop);
    assert Str(b, stop) == "" == AfterField(s);
    Suffix(b, p, start);
    assert Str(b, start) == s[Commas(s)..] == s[Commas(s)..FieldEnd(s)];
  }

  lemma InnerField(b: seq<char>, p: nat, start: nat, stop: nat)
    requires FieldAt(b, p, start, stop) && b[stop] != NUL
    ensures CutOff(b, b[stop := NUL], p, start, stop, stop + 1)
  {
    RestKept(b, p, start, stop);
    TokenCut(b, p, start, stop);
  }

  lemma RestKept(b: seq<char>, p: nat, start: nat, stop: nat)
    requires FieldAt(b, p, start, stop) && b[stop] != NUL
    ensures var b' := b[stop := NUL];
      IsString(b', stop + 1) && StrEnd(b', stop + 1) == StrEnd(b, p) && Str(b', stop + 1) == AfterField(Str(b, p))
  {
    Suffix(b, p, stop + 1);
    SameString(b, b[stop := NUL], stop + 1);
  }

  lemma TokenCut(b: seq<char>, p: nat, start: nat, stop: nat)
    requires FieldAt(b, p, start, stop) && b[stop] != NUL
    ensures var s, b' := Str(b, p), b[stop := NUL];
      IsString(b', start) && StrEnd(b', start) == stop && Str(b', start) == s[Commas(s)..FieldEnd(s)]
  {
    var b' := b[stop := NUL];
    CutString(b', start, stop);
    SliceOfString(b, b', p, start, stop);
  }

  lemma SliceOfString(b: seq<char>, b': seq<char>, p: nat, start: nat, stop: nat)
    requires IsString(b, p) && p <= start <= stop <= StrEnd(b, p) && |b'| == |b|
    requires forall k :: start <= k < stop ==> b'[k] == b[k]
    ensures b'[start..stop] == Str(b, p)[start - p..stop - p]
  {
    SameSlice(b, b', start, stop);
    SliceOfSlice(b, p, StrEnd(b, p), start - p, stop - p);
  }

  lemma SameSlice(b: seq<char>, b': seq<char>, lo: nat, hi: nat)
    requires lo <= hi <= |b| == |b'| && forall k :: lo <= k < hi ==> b'[k] == b[k]
    ensures b'[lo..hi] == b[lo..hi]
  {
  }

  lemma SliceOfSlice(b: seq<char>, p: nat, e: nat, x: nat, y: nat)
    requires p <= e <= |b| && x <= y <= e - p
    ensures b[p..e][x..y] == b[p + x..p + y]
  {
    var u, v := b[p..e][x..y], b[p + x..p + y];
    forall k | 0 <= k < |v|
      ensures u[k] == v[k]
    {
      assert b[p..e][x + k] == b[p + x + k];
    }
  }

  /** Ends the token at its comma, if it has one. */
  method CutField(buf: array<char>, ghost p: nat, ghost start: nat, stop: nat) returns (save: nat)
    requires FieldAt(buf[..], p, start, stop)
    modifies buf
    ensures CutOff(old(buf[..]), buf[..], p, start, stop, save)
    ensures forall k :: 0 <= k < buf.Length && (k < p || k >= old(StrEnd(buf[..], p))) ==> buf[k] == old(buf[k])
  {
    if buf[stop] == NUL {
      LastField(buf[..], p, start, stop);
      save := stop;
    } else {
      InnerField(buf[..], p, start, stop);
      buf[stop] := NUL;
      assert buf[..] == old(buf[..])[stop := NUL];
      save := stop + 1;
    }
  }
}
