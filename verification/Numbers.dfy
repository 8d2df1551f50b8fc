/** Numbers as text: `%d` and atoll. */
module Numbers {

  function Digit(d: nat): char
    requires d < 10
  {
    '0' + d as char
  }

  /** `%d` of a non-negative number. */
  function Decimal(n: nat): (s: string)
    ensures s != ""
  {
    if n < 10 then [Digit(n)] else Decimal(n / 10) + [Digit(n % 10)]
  }

  predicate IsDigit(c: char) {
    '0' <= c <= '9'
  }

  /** isspace in the C locale. */
  predicate IsSpace(c: char) {
    c == ' ' || '\t' <= c <= '\r'
  }

  function SkipSpaces(s: string): string {
    if s != "" && IsSpace(s[0]) then SkipSpaces(s[1..]) else s
  }

  /** The value of the leading digits, after digits worth acc. */
  function DigitsValue(s: string, acc: nat): nat {
    if s != "" && IsDigit(s[0]) then DigitsValue(s[1..], 10 * acc + (s[0] - '0') as nat) else acc
  }

  /** atoll, for values a long long can hold: white space, a sign, then digits up to the first other character. */
  function Atoll(s: string): int {
    var t := SkipSpaces(s);
    if t != "" && t[0] == '-' then -(DigitsValue(t[1..], 0) as int)
    else if t != "" && t[0] == '+' then DigitsValue(t[1..], 0)
    else DigitsValue(t, 0)
  }

  lemma {:induction false} DigitsAppend(s: string, d: nat, acc: nat)
    requires d < 10 && forall k :: 0 <= k < |s| ==> IsDigit(s[k])
    ensures DigitsValue(s + [Digit(d)], acc) == 10 * DigitsValue(s, acc) + d
    decreases |s|
  {
    var t := s + [Digit(d)];
    if s == "" {
      assert t[1..] == "";
      assert (Digit(d) - '0') as nat == d;
    } else {
      assert t[1..] == s[1..] + [Digit(d)];
      DigitsAppend(s[1..], d, 10 * acc + (s[0] - '0') as nat);
    }
  }

  lemma {:induction false} DecimalDigits(n: nat)
    ensures forall k :: 0 <= k < |Decimal(n)| ==> IsDigit(Decimal(n)[k])
    ensures DigitsValue(Decimal(n), 0) == n
    decreases n
  {
    if n < 10 {
      DigitsAppend("", n, 0);
      assert "" + [Digit(n)] == Decimal(n);
    } else {
      DecimalDigits(n / 10);
      DigitsAppend(Decimal(n / 10), n % 10, 0);
    }
  }

  lemma AtollOfDecimal(n: nat)
    ensures Atoll(Decimal(n)) == n
  {
    DecimalDigits(n);
    assert IsDigit(Decimal(n)[0]);
  }

  /** Printing is decimal: the ten digits, and a further digit for each factor of ten. */
  lemma DecimalPlaces(n: nat, d: nat)
    requires d < 10
    ensures Decimal(d) == ["0123456789"[d]]
    ensures n > 0 ==> Decimal(10 * n + d) == Decimal(n) + ["0123456789"[d]]
  {
    assert Digit(d) == "0123456789"[d];
    assert (10 * n + d) / 10 == n && (10 * n + d) % 10 == d;
  }

  /** `%d`. */
  function Printed(n: int): string {
    if n < 0 then "-" + Decimal(-n) else Decimal(n)
  }

  /** Reading a printed number gives the number. */
  lemma AtollOfPrinted(n: int)
    ensures Atoll(Printed(n)) == n
  {
    if n < 0 {
      DecimalDigits(-n);
      assert Printed(n)[1..] == Decimal(-n);
    } else {
      AtollOfDecimal(n);
    }
  }

  // ---- What atoll reads, form by form ----

  /** Space, tab, line feed, vertical tab, form feed, carriage return. */
  predicate WhiteChar(c: char) {
    c in [' ', '\t', '\n', '\U{0B}', '\U{0C}', '\r']
  }

  predicate White(w: string) {
    forall c :: c in w ==> WhiteChar(c)
  }

  predicate Zeros(z: string) {
    forall c :: c in z ==> c == '0'
  }

  /** Does not go on with a digit. */
  predicate NoDigitNext(rest: string) {
    rest == "" || rest[0] !in "0123456789"
  }

  lemma {:induction false} WhiteSkipped(w: string, t: string)
    requires White(w) && (t == "" || !WhiteChar(t[0]))
    ensures SkipSpaces(w + t) == t
    decreases |w|
  {
    if w == "" {
      assert w + t == t;
    } else {
      assert w[0] in w && (w + t)[0] == w[0] && (w + t)[1..] == w[1..] + t;
      WhiteSkipped(w[1..], t);
    }
  }

  lemma {:induction false} DigitsStop(d: string, rest: string, acc: nat)
    requires (forall k :: 0 <= k < |d| ==> IsDigit(d[k])) && NoDigitNext(rest)
    ensures DigitsValue(d + rest, acc) == DigitsValue(d, acc)
    decreases |d|
  {
    if d == "" {
      assert d + rest == rest;
    } else {
      assert (d + rest)[0] == d[0] && (d + rest)[1..] == d[1..] + rest;
      DigitsStop(d[1..], rest, 10 * acc + (d[0] - '0') as nat);
    }
  }

  lemma {:induction false} ZerosSkipped(z: string, t: string)
    requires Zeros(z)
    ensures DigitsValue(z + t, 0) == DigitsValue(t, 0)
    decreases |z|
  {
    if z == "" {
      assert z + t == t;
    } else {
      assert z[0] in z && (z + t)[0] == '0' && (z + t)[1..] == z[1..] + t;
      assert forall c :: c in z[1..] ==> c in z;
      ZerosSkipped(z[1..], t);
    }
  }

  /** Leading zeros and whatever follows the digits change nothing. */
  lemma NumeralRead(zeros: string, n: nat, rest: string, t: string)
    requires Zeros(zeros) && NoDigitNext(rest) && t == zeros + (Decimal(n) + rest)
    ensures DigitsValue(t, 0) == n && t != "" && IsDigit(t[0])
  {
    DecimalDigits(n);
    ZerosSkipped(zeros, Decimal(n) + rest);
    DigitsStop(Decimal(n), rest, 0);
    if zeros == "" { assert t[0] == Decimal(n)[0]; } else { assert zeros[0] in zeros && t[0] == zeros[0]; }
  }

  /** White space, at most one sign, leading zeros, a number, and anything that does not go on with a digit: the
      number with its sign. */
  lemma AtollReads(w: string, sign: string, zeros: string, n: nat, rest: string)
    requires White(w) && sign in ["", "+", "-"] && Zeros(zeros) && NoDigitNext(rest)
    ensures Atoll(w + (sign + (zeros + (Decimal(n) + rest)))) == (if sign == "-" then -1 else 1) * n
  {
    var t := zeros + (Decimal(n) + rest);
    NumeralRead(zeros, n, rest, t);
    SignRead(w, sign, t, n);
  }

  lemma SignRead(w: string, sign: string, t: string, n: nat)
    requires White(w) && sign in ["", "+", "-"] && DigitsValue(t, 0) == n
    requires sign == "" ==> t == "" || (!WhiteChar(t[0]) && t[0] != '+' && t[0] != '-')
    ensures Atoll(w + (sign + t)) == (if sign == "-" then -1 else 1) * n
  {
    var u := sign + t;
    if sign == "" {
      assert u == t;
    } else {
      assert u[0] == sign[0] && u[1..] == t;
    }
    WhiteSkipped(w, u);
  }

  /** Without a digit after the white space and the sign: 0. */
  lemma AtollOfNoDigit(w: string, sign: string, rest: string)
    requires White(w) && sign in ["", "+", "-"] && NoDigitNext(rest)
    requires sign == "" ==> rest == "" || (!WhiteChar(rest[0]) && rest[0] != '+' && rest[0] != '-')
    ensures Atoll(w + (sign + rest)) == 0
  {
    SignRead(w, sign, rest, 0);
  }

  /** A printed number starts with a zero only if it is 0. */
  lemma {:induction false} NoLeadingZero(n: nat)
    ensures n > 0 ==> Decimal(n)[0] != '0'
    decreases n
  {
    if n >= 10 {
      NoLeadingZero(n / 10);
      assert Decimal(n)[0] == Decimal(n / 10)[0];
    }
  }

  /** Digits without a leading zero are a printed number. */
  lemma {:induction false} CanonicalNumeral(d: string) returns (n: nat)
    requires d != "" && d[0] != '0' && forall k :: 0 <= k < |d| ==> IsDigit(d[k])
    ensures n > 0 && d == Decimal(n)
    decreases |d|
  {
    var l := |d| - 1;
    var e := (d[l] - '0') as nat;
    assert d[l] == Digit(e) && d == d[..l] + [d[l]];
    if l == 0 {
      n := e;
    } else {
      var m := CanonicalNumeral(d[..l]);
      n := 10 * m + e;
    }
  }
}
