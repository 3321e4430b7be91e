/** Decimal text: strconv.FormatInt and strconv.Atoi on 64-bit integers. */
module Decimal {
  const MIN_INT64: int := -0x8000_0000_0000_0000
  const MAX_INT64: int := 0x7FFF_FFFF_FFFF_FFFF

  predicate IsInt64(n: int) {
    MIN_INT64 <= n <= MAX_INT64
  }

  function Digit(k: nat): char
    requires k < 10
  {
    '0' + k as char
  }

  predicate IsDigit(c: char) {
    '0' <= c <= '9'
  }

  function DigitValue(c: char): (k: nat)
    requires IsDigit(c)
    ensures k < 10
  {
    (c - '0') as nat
  }

  function Digits(n: nat): string {
    if n < 10 then [Digit(n)] else Digits(n / 10) + [Digit(n % 10)]
  }

  function Itoa(n: int): string {
    if n < 0 then "-" + Digits(-n) else Digits(n)
  }

  predicate AllDigits(s: string) {
    forall i | 0 <= i < |s| :: IsDigit(s[i])
  }

  function Number(s: string): (n: int)
    requires AllDigits(s)
    ensures n >= 0
  {
    if s == [] then 0 else 10 * Number(s[..|s|-1]) + DigitValue(s[|s|-1])
  }

  /** What strconv.Atoi returns: a syntax error yields 0, a range error the nearest bound. */
  function Atoi(s: string): int {
    var signed := s != [] && (s[0] == '-' || s[0] == '+');
    var digits := if signed then s[1..] else s;
    if digits == [] || !AllDigits(digits) then 0
    else
      var n := if signed && s[0] == '-' then -Number(digits) else Number(digits);
      if n < MIN_INT64 then MIN_INT64 else if n > MAX_INT64 then MAX_INT64 else n
  }

  lemma {:induction false} DigitsRead(n: nat)
    ensures Digits(n) != [] && AllDigits(Digits(n)) && Number(Digits(n)) == n
  {
    if n < 10 {
      assert Digits(n)[..0] == [];
    } else {
      DigitsRead(n / 10);
      assert Digits(n)[..|Digits(n)|-1] == Digits(n / 10);
    }
  }

  /** Writing a 64-bit integer in decimal and reading it back is the identity. */
  lemma AtoiItoa(n: int)
    requires IsInt64(n)
    ensures Atoi(Itoa(n)) == n
  {
    if n < 0 {
      DigitsRead(-n);
      assert Itoa(n)[1..] == Digits(-n) && Itoa(n)[0] == '-';
    } else {
      DigitsRead(n);
      assert IsDigit(Itoa(n)[0]) && Itoa(n)[0] != '-' && Itoa(n)[0] != '+';
    }
  }

  /** The length of the digits a text starts with. */
  function DigitRun(s: string): nat {
    if s == [] || !IsDigit(s[0]) then 0 else 1 + DigitRun(s[1..])
  }

  lemma {:induction false} DigitRunOf(s: string, x: string)
    requires AllDigits(s) && (x == [] || !IsDigit(x[0]))
    ensures DigitRun(s + x) == |s|
  {
    if s == [] {
      assert s + x == x;
    } else {
      assert (s + x)[1..] == s[1..] + x;
      DigitRunOf(s[1..], x);
    }
  }

  /** Decimal numbers are told apart by any text that goes on with no digit. */
  lemma ItoaPrefixFree(m: int, n: int, x: string, y: string)
    requires Itoa(m) + x == Itoa(n) + y
    requires (x == [] || !IsDigit(x[0])) && (y == [] || !IsDigit(y[0]))
    ensures m == n && x == y
  {
    SignAndDigits(m, x);
    SignAndDigits(n, y);
    var dm, dn := Digits(Abs(m)), Digits(Abs(n));
    assert dm + x == dn + y;
    assert dm == (dm + x)[..|dm|] && dn == (dn + y)[..|dn|];
    assert x == (dm + x)[|dm|..] && y == (dn + y)[|dn|..];
    DigitsRead(Abs(m));
    DigitsRead(Abs(n));
  }

  function Abs(n: int): nat {
    if n < 0 then -n else n
  }

  function Unsigned(t: string): string {
    if t != [] && t[0] == '-' then t[1..] else t
  }

  /** The sign of a written number is its first byte; its digits are the run after the sign. */
  lemma SignAndDigits(n: int, x: string)
    requires x == [] || !IsDigit(x[0])
    ensures Itoa(n) + x != [] && (n < 0 <==> (Itoa(n) + x)[0] == '-')
    ensures Unsigned(Itoa(n) + x) == Digits(Abs(n)) + x
    ensures DigitRun(Digits(Abs(n)) + x) == |Digits(Abs(n))|
  {
    var d := Digits(Abs(n));
    DigitsRead(Abs(n));
    DigitRunOf(d, x);
    assert IsDigit(d[0]);
    if n < 0 {
      assert Itoa(n) + x == ['-'] + (d + x);
    } else {
      assert (d + x)[0] == d[0];
    }
  }
}
