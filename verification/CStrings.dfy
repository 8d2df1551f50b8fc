/** NUL-terminated strings inside a character buffer, and the C library calls on them. */
module CStrings {
  import opened Wrappers

  const NUL := '\0'

  /** The first position from p on that holds one of the characters, or |b|. */
  function Find(b: seq<char>, p: nat, stop: set<char>): (q: nat)
    requires p <= |b|
    ensures p <= q <= |b| && (q < |b| ==> b[q] in stop)
    ensures forall k :: p <= k < q ==> b[k] !in stop
    decreases |b| - p
  {
    if p == |b| || b[p] in stop then p else Find(b, p + 1, stop)
  }

  lemma FindIs(b: seq<char>, p: nat, stop: set<char>, q: nat)
    requires p <= q <= |b| && (q < |b| ==> b[q] in stop)
    requires forall k :: p <= k < q ==> b[k] !in stop
    ensures Find(b, p, stop) == q
  {
  }

  /** A string starts at p: some NUL follows. */
  predicate IsString(b: seq<char>, p: nat) {
    p <= |b| && Find(b, p, {NUL}) < |b|
  }

  /** Where the string at p ends. */
  function StrEnd(b: seq<char>, p: nat): nat
    requires IsString(b, p)
  {
    Find(b, p, {NUL})
  }

  /** The string at p. */
  function Str(b: seq<char>, p: nat): (s: string)
    requires IsString(b, p)
    ensures NUL !in s && |s| == StrEnd(b, p) - p
  {
    b[p..StrEnd(b, p)]
  }

  /** Strings are determined by the characters up to their NUL. */
  lemma SameString(b: seq<char>, b': seq<char>, p: nat)
    requires IsString(b, p) && |b'| == |b|
    requires forall k :: p <= k <= StrEnd(b, p) ==> b'[k] == b[k]
    ensures IsString(b', p) && StrEnd(b', p) == StrEnd(b, p) && Str(b', p) == Str(b, p)
  {
    FindIs(b', p, {NUL}, StrEnd(b, p));
  }

  /** A string ends at the first NUL written into it. */
  lemma CutString(b: seq<char>, p: nat, e: nat)
    requires p <= e < |b| && b[e] == NUL && forall k :: p <= k < e ==> b[k] != NUL
    ensures IsString(b, p) && StrEnd(b, p) == e && Str(b, p) == b[p..e]
  {
    FindIs(b, p, {NUL}, e);
  }

  /** The string at a later position is a suffix. */
  lemma Suffix(b: seq<char>, p: nat, q: nat)
    requires IsString(b, p) && p <= q <= StrEnd(b, p)
    ensures IsString(b, q) && StrEnd(b, q) == StrEnd(b, p) && Str(b, q) == Str(b, p)[q - p..]
  {
    FindIs(b, q, {NUL}, StrEnd(b, p));
  }

  method Strlen(buf: array<char>, p: nat) returns (len: nat)
    requires IsString(buf[..], p)
    ensures len == |Str(buf[..], p)|
  {
    var q := p;
    while buf[q] != NUL
      invariant p <= q <= StrEnd(buf[..], p)
      invariant forall k :: p <= k < q ==> buf[k] != NUL
      decreases StrEnd(buf[..], p) - q
    {
      q := q + 1;
    }
    FindIs(buf[..], p, {NUL}, q);
    len := q - p;
  }

  /** The first c in the string. */
  method Strchr(buf: array<char>, p: nat, c: char) returns (r: Option<nat>)
    requires IsString(buf[..], p) && c != NUL
    ensures var s := Str(buf[..], p); var q := Find(s, 0, {c});
      r == if q < |s| then Some(p + q) else None
  {
    var q := p;
    ghost var s := Str(buf[..], p);
    while buf[q] != c && buf[q] != NUL
      invariant p <= q <= StrEnd(buf[..], p)
      invariant forall k :: p <= k < q ==> buf[k] != c
      decreases StrEnd(buf[..], p) - q
    {
      q := q + 1;
    }
    assert forall k :: 0 <= k < |s| ==> s[k] == buf[p + k];
    FindIs(s, 0, {c}, q - p);
    r := if buf[q] == c then Some(q) else None;
  }
}
