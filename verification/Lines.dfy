/** Splitting a buffer into lines, in place. */
module Lines {
  import opened Wrappers
  import opened CStrings

  /** A line with the separator that followed it. */
  datatype Piece = Piece(content: string, ending: string)

  function Newline(t: string): nat {
    Find(t, 0, {'\n'})
  }

  /** The first line of a non-empty text. A carriage return belongs to the separator only before a newline. */
  function Head(t: string): Piece
    requires t != ""
  {
    var q := Newline(t);
    if q == |t| then Piece(t, "")
    else if q > 0 && t[q - 1] == '\r' then Piece(t[..q - 1], "\r\n")
    else Piece(t[..q], "\n")
  }

  /** The text after the first line. */
  function Tail(t: string): (r: string)
    requires t != ""
    ensures |r| < |t|
  {
    if Newline(t) == |t| then "" else t[Newline(t) + 1..]
  }

  function Pieces(t: string): seq<Piece>
    decreases |t|
  {
    if t == "" then [] else [Head(t)] + Pieces(Tail(t))
  }

  /** The lines of a text. */
  function LinesOf(t: string): seq<string> {
    var ps := Pieces(t);
    seq(|ps|, i requires 0 <= i < |ps| => ps[i].content)
  }

  lemma FirstLine(t: string)
    ensures LinesOf("") == []
    ensures t != "" ==> LinesOf(t) == [Head(t).content] + LinesOf(Tail(t))
  {
  }

  /** Contents and separators put together again. */
  function Rejoin(ps: seq<Piece>): string {
    if ps == [] then "" else ps[0].content + ps[0].ending + Rejoin(ps[1..])
  }

  /** What distinguishes a line of a split: no newline inside, a carriage return before the newline counted to
      the separator, and no separator only after the last line, if that is not empty. */
  predicate IsLine(p: Piece, last: bool) {
    && '\n' !in p.content
    && (p.ending == "\n" || p.ending == "\r\n" || (p.ending == "" && last && p.content != ""))
    && (p.ending == "\n" && p.content != "" ==> p.content[|p.content| - 1] != '\r')
  }

  ghost predicate IsSplit(ps: seq<Piece>) {
    forall i :: 0 <= i < |ps| ==> IsLine(ps[i], i == |ps| - 1)
  }

  lemma HeadAndTail(t: string)
    requires t != ""
    ensures Head(t).content + Head(t).ending + Tail(t) == t
    ensures IsLine(Head(t), Tail(t) == "")
  {
    var q := Newline(t);
    if q < |t| {
      assert t == t[..q] + [t[q]] + t[q + 1..];
      if q > 0 && t[q - 1] == '\r' { assert t[..q] == t[..q - 1] + [t[q - 1]]; }
    }
  }

  /** Splitting loses nothing: the lines with their separators give the text back. */
  lemma {:induction false} SplitThenRejoin(t: string)
    ensures IsSplit(Pieces(t)) && Rejoin(Pieces(t)) == t
    decreases |t|
  {
    if t != "" {
      var ps, rest := Pieces(t), Pieces(Tail(t));
      HeadAndTail(t);
      SplitThenRejoin(Tail(t));
      assert ps[0] == Head(t) && ps[1..] == rest;
      assert rest == [] <==> Tail(t) == "";
      forall i | 0 <= i < |ps|
        ensures IsLine(ps[i], i == |ps| - 1)
      {
        if i > 0 { assert IsLine(rest[i - 1], i - 1 == |rest| - 1); }
      }
    }
  }

  lemma HeadOfRejoined(p: Piece, rest: string)
    requires IsLine(p, rest == "")
    ensures var t := p.content + p.ending + rest; t != "" && Head(t) == p && Tail(t) == rest
  {
    var t := p.content + p.ending + rest;
    if p.ending == "" {
      assert t == p.content;
      FindIs(t, 0, {'\n'}, |t|);
    } else {
      var q := |p.content| + |p.ending| - 1;
      assert t[q] == '\n';
      assert forall k :: 0 <= k < |p.content| ==> t[k] == p.content[k];
      FindIs(t, 0, {'\n'}, q);
      assert t[q + 1..] == rest;
      if p.ending == "\n" {
        assert t[..q] == p.content;
      } else {
        assert t[..q - 1] == p.content;
      }
    }
  }

  /** It is the only split: putting any lines together and splitting again gives these lines. */
  lemma {:induction false} RejoinThenSplit(ps: seq<Piece>)
    requires IsSplit(ps)
    ensures Pieces(Rejoin(ps)) == ps
    decreases |ps|
  {
    if ps != [] {
      var rest := ps[1..];
      assert forall i :: 0 <= i < |rest| ==> rest[i] == ps[i + 1];
      RejoinThenSplit(rest);
      RejoinEmpty(rest);
      assert IsLine(ps[0], 0 == |ps| - 1);
      HeadOfRejoined(ps[0], Rejoin(rest));
      assert ps == [ps[0]] + rest;
    }
  }

  lemma RejoinEmpty(ps: seq<Piece>)
    requires IsSplit(ps)
    ensures Rejoin(ps) == "" <==> ps == []
  {
    if ps != [] {
      assert IsLine(ps[0], 0 == |ps| - 1);
    }
  }

  /** A line ends at a newline, and at one carriage return before it; without a newline the text is the line. */
  lemma NewlineSeparates(line: string, rest: string)
    requires '\n' !in line
    ensures LinesOf(line + "\r\n" + rest) == [line] + LinesOf(rest)
    ensures (line == "" || line[|line| - 1] != '\r') ==> LinesOf(line + "\n" + rest) == [line] + LinesOf(rest)
    ensures line != "" ==> LinesOf(line) == [line]
  {
    HeadOfRejoined(Piece(line, "\r\n"), rest);
    FirstLine(line + "\r\n" + rest);
    if line == "" || line[|line| - 1] != '\r' {
      HeadOfRejoined(Piece(line, "\n"), rest);
      FirstLine(line + "\n" + rest);
    }
    if line != "" {
      HeadOfRejoined(Piece(line, ""), "");
      assert line + "" + "" == line;
      FirstLine(line);
      FirstLine("");
    }
  }

  /** next_line: cuts the line at the cursor off and moves the cursor behind it. */
  method NextLine(buf: array<char>, cursor: nat) returns (line: Option<nat>, next: nat)
    requires IsString(buf[..], cursor)
    modifies buf
    ensures old(Str(buf[..], cursor)) == "" ==> line == None && next == cursor && buf[..] == old(buf[..])
    ensures var t, e := old(Str(buf[..], cursor)), old(StrEnd(buf[..], cursor)); t != "" ==>
      && line == Some(cursor) && cursor < next <= e
      && IsString(buf[..], cursor) && Str(buf[..], cursor) == Head(t).content && StrEnd(buf[..], cursor) <= next
      && IsString(buf[..], next) && Str(buf[..], next) == Tail(t) && StrEnd(buf[..], next) == e
    ensures forall k :: 0 <= k < buf.Length && !(cursor <= k < next) ==> buf[k] == old(buf[k])
  {
    if buf[cursor] == NUL {
      return None, cursor;
    }
    var nl := Strchr(buf, cursor, '\n');
    if nl.Some? {
      CutLine(buf, cursor, nl.value);
      next := nl.value + 1;
    } else {
      var len := Strlen(buf, cursor);
      next := cursor + len;
      LastLine(buf[..], cursor, next);
    }
    line := Some(cursor);
  }

  /** Without a newline the rest of the text is the line. */
  lemma LastLine(b: seq<char>, cursor: nat, next: nat)
    requires IsString(b, cursor) && next == cursor + |Str(b, cursor)| > cursor
    requires Newline(Str(b, cursor)) == |Str(b, cursor)|
    ensures IsString(b, next) && StrEnd(b, next) == StrEnd(b, cursor)
    ensures Str(b, cursor) == Head(Str(b, cursor)).content && Str(b, next) == Tail(Str(b, cursor))
  {
    Suffix(b, cursor, next);
  }

  /** Ends the line at its newline, and at the carriage return before it. */
  method CutLine(buf: array<char>, cursor: nat, nl: nat)
    requires LineAt(buf[..], cursor, nl)
    modifies buf
    ensures LineCut(old(buf[..]), buf[..], cursor, nl)
    ensures forall k :: 0 <= k < buf.Length && !(cursor <= k <= nl) ==> buf[k] == old(buf[k])
  {
    AtNewline(buf[..], cursor, nl);
    buf[nl] := NUL;
    assert buf[..] == old(buf[..])[nl := NUL];
    ghost var mid := buf[..];
    var len := Strlen(buf, cursor);
    if len > 0 && buf[cursor + len - 1] == '\r' {
      buf[cursor + len - 1] := NUL;
      assert buf[..] == mid[cursor + len - 1 := NUL];
    }
  }

  /** The string at the cursor has its first newline at nl. */
  ghost predicate LineAt(b: seq<char>, cursor: nat, nl: nat) {
    && IsString(b, cursor)
    && var t := Str(b, cursor);
       t != "" && Newline(t) < |t| && nl == cursor + Newline(t)
  }

  /** The first line has been cut off the string at the cursor. */
  ghost predicate LineCut(b: seq<char>, b': seq<char>, cursor: nat, nl: nat)
    requires LineAt(b, cursor, nl)
  {
    var t := Str(b, cursor);
    && IsString(b', cursor) && Str(b', cursor) == Head(t).content && StrEnd(b', cursor) <= nl
    && IsString(b', nl + 1) && Str(b', nl + 1) == Tail(t) && StrEnd(b', nl + 1) == StrEnd(b, cursor)
  }

  lemma AtNewline(b: seq<char>, cursor: nat, nl: nat)
    requires LineAt(b, cursor, nl)
    ensures var mid := b[nl := NUL];
      && IsString(mid, cursor) && StrEnd(mid, cursor) == nl
      && (nl > cursor && mid[nl - 1] == '\r' ==> LineCut(b, mid[nl - 1 := NUL], cursor, nl))
      && (nl == cursor || mid[nl - 1] != '\r' ==> LineCut(b, mid, cursor, nl))
  {
    CutString(b[nl := NUL], cursor, nl);
    if nl > cursor && b[nl - 1] == '\r' { AtCarriageReturn(b, cursor, nl); } else { AtPlainNewline(b, cursor, nl); }
  }

  lemma AtPlainNewline(b: seq<char>, cursor: nat, nl: nat)
    requires LineAt(b, cursor, nl) && !(nl > cursor && b[nl - 1] == '\r')
    ensures LineCut(b, b[nl := NUL], cursor, nl)
  {
    var t, b' := Str(b, cursor), b[nl := NUL];
    CutString(b', cursor, nl);
    assert t[..nl - cursor] == b[cursor..nl] == b'[cursor..nl];
    SuffixKept(b, b', cursor, nl + 1);
    assert nl > cursor ==> t[nl - cursor - 1] == b[nl - 1];
  }

  lemma AtCarriageReturn(b: seq<char>, cursor: nat, nl: nat)
    requires LineAt(b, cursor, nl) && nl > cursor && b[nl - 1] == '\r'
    ensures LineCut(b, b[nl := NUL][nl - 1 := NUL], cursor, nl)
  {
    var t, b' := Str(b, cursor), b[nl := NUL][nl - 1 := NUL];
    CutString(b', cursor, nl - 1);
    assert t[..nl - cursor - 1] == b[cursor..nl - 1] == b'[cursor..nl - 1];
    SuffixKept(b, b', cursor, nl + 1);
    assert t[nl - cursor - 1] == b[nl - 1];
  }

  /** Writing before q keeps the rest of the string from q on. */
  lemma SuffixKept(b: seq<char>, b': seq<char>, p: nat, q: nat)
    requires IsString(b, p) && p <= q <= StrEnd(b, p) && |b'| == |b|
    requires forall k :: q <= k < |b| ==> b'[k] == b[k]
    ensures IsString(b', q) && StrEnd(b', q) == StrEnd(b, p) && Str(b', q) == Str(b, p)[q - p..]
  {
    Suffix(b, p, q);
    SameString(b, b', q);
  }
}
