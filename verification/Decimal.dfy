/** Canonical decimal numerals, as strconv.Itoa and the %d verb print them, and
    strconv.Atoi on a 64-bit platform. */
module Decimal {

  import opened Options

  const MIN_INT64: int := -0x8000_0000_0000_0000
  const MAX_INT64: int := 0x7fff_ffff_ffff_ffff

  predicate IsDigit(c: char) {
    '0' <= c <= '9'
  }

  predicate AllDigits(s: string) {
    forall i :: 0 <= i < |s| ==> IsDigit(s[i])
  }

  function Digit(d: nat): (c: char)
    requires d < 10
    ensures IsDigit(c) && c as int == '0' as int + d
  {
    "0123456789"[d]
  }

  function Numeral(n: nat): (s: string)
    ensures s != [] && AllDigits(s)
  {
    if n < 10 then [Digit(n)] else Numeral(n / 10) + [Digit(n % 10)]
  }

  function Value(s: string): nat
    requires AllDigits(s)
  {
    if s == [] then 0 else 10 * Value(s[..|s| - 1]) + (s[|s| - 1] as int - '0' as int)
  }

  lemma {:induction false} ValueOfNumeral(n: nat)
    ensures Value(Numeral(n)) == n
  {
    var s := Numeral(n);
    if n < 10 {
      assert s[..0] == [];
    } else {
      assert s[..|s| - 1] == Numeral(n / 10);
      ValueOfNumeral(n / 10);
    }
  }

  lemma {:induction false} NumeralInjective(m: nat, n: nat)
    requires Numeral(m) == Numeral(n)
    ensures m == n
  {
    ValueOfNumeral(m);
    ValueOfNumeral(n);
  }

  function Magnitude(d: int): nat {
    if d < 0 then -d else d
  }

  function Itoa(d: int): string {
    if d < 0 then "-" + Numeral(-d) else Numeral(d)
  }

  function Unsigned(s: string): string {
    if s != [] && (s[0] == '-' || s[0] == '+') then s[1..] else s
  }

  function Signed(s: string): int
    requires AllDigits(Unsigned(s))
  {
    var n: int := Value(Unsigned(s));
    if s != [] && s[0] == '-' then -n else n
  }

  // An optional sign, at least one digit, and the result in range.
  function Atoi(s: string): Option<int> {
    if Unsigned(s) != [] && AllDigits(Unsigned(s)) && MIN_INT64 <= Signed(s) <= MAX_INT64
    then Some(Signed(s)) else None
  }

  lemma {:induction false} UnsignedOfItoa(d: int)
    ensures Unsigned(Itoa(d)) == Numeral(Magnitude(d))
  {
  }

  predicate Zeros(s: string) {
    forall i :: 0 <= i < |s| ==> s[i] == '0'
  }

  // A numeral, or nothing for zero, and one more digit.
  lemma {:induction false} NumeralNext(n: nat, d: nat)
    requires d < 10
    ensures Numeral(10 * n + d) == (if n == 0 then "" else Numeral(n)) + [Digit(d)]
  {
    assert (10 * n + d) / 10 == n && (10 * n + d) % 10 == d;
  }

  // Digits are leading zeros and the numeral of their value.
  lemma {:induction false} LeadingZeros(s: string) returns (zeros: string)
    requires s != [] && AllDigits(s)
    ensures Zeros(zeros) && s == zeros + Numeral(Value(s))
  {
    hide Numeral;
    var front, d: nat := s[..|s| - 1], s[|s| - 1] as int - '0' as int;
    assert s == front + [Digit(d)];
    NumeralNext(Value(front), d);
    if front == [] {
      zeros := [];
      assert Value(front) == 0;
    } else {
      var z := LeadingZeros(front);
      NumeralNext(0, 0);
      zeros := if Value(front) == 0 then z + "0" else z;
    }
  }

  lemma {:induction false} ValueWithZeros(zeros: string, n: nat)
    requires Zeros(zeros)
    ensures AllDigits(zeros + Numeral(n)) && Value(zeros + Numeral(n)) == n
  {
    var s := zeros + Numeral(n);
    if n < 10 {
      ValueOfZeros(zeros);
      assert s[..|s| - 1] == zeros;
    } else {
      ValueWithZeros(zeros, n / 10);
      assert s[..|s| - 1] == zeros + Numeral(n / 10);
    }
  }

  lemma {:induction false} ValueOfZeros(zeros: string)
    requires Zeros(zeros)
    ensures Value(zeros) == 0
  {
    if zeros != [] {
      ValueOfZeros(zeros[..|zeros| - 1]);
    }
  }

  // A sign, if any, that goes with the number.
  predicate SignOf(sign: string, d: int) {
    (sign == "-" && d <= 0) || ((sign == "" || sign == "+") && d >= 0)
  }

  ghost predicate Spells(s: string, d: int) {
    exists sign, zeros :: SignOf(sign, d) && Zeros(zeros) && s == sign + (zeros + Numeral(Magnitude(d)))
  }

  lemma {:induction false} SpelledOut(s: string)
    requires Unsigned(s) != [] && AllDigits(Unsigned(s))
    ensures Spells(s, Signed(s))
  {
    hide Numeral, Value, Zeros, AllDigits;
    var u := Unsigned(s);
    var zeros := LeadingZeros(u);
    var sign := SignPart(s);
    ValueSign(Value(u), Signed(s));
    assert s == sign + (zeros + Numeral(Value(u)));
  }

  lemma {:induction false} ValueSign(n: nat, d: int)
    requires d == n || -d == n
    ensures Magnitude(d) == n
  {
  }

  lemma {:induction false} SignPart(s: string) returns (sign: string)
    requires Unsigned(s) != [] && AllDigits(Unsigned(s))
    ensures s == sign + Unsigned(s) && SignOf(sign, Signed(s))
  {
    hide Value, AllDigits;
    sign := if s[0] == '-' || s[0] == '+' then [s[0]] else "";
    assert s == [s[0]] + s[1..];
  }

  lemma {:induction false} SpellsOne(s: string, d: int)
    requires Spells(s, d)
    ensures Unsigned(s) != [] && AllDigits(Unsigned(s)) && Signed(s) == d
  {
    hide Numeral, Value;
    var n := Magnitude(d);
    var sign, zeros :| SignOf(sign, d) && Zeros(zeros) && s == sign + (zeros + Numeral(n));
    var u := zeros + Numeral(n);
    ValueWithZeros(zeros, n);
    assert IsDigit(u[0]);
    assert Unsigned(s) == u;
  }

  /** Atoi accepts exactly the decimal numerals of the 64-bit range, with leading zeros and a sign
      as they like, and gives their number. */
  lemma {:induction false} AtoiExactly(s: string, d: int)
    ensures Atoi(s) == Some(d) <==> MIN_INT64 <= d <= MAX_INT64 && Spells(s, d)
  {
    hide Spells, Signed, Unsigned;
    if Unsigned(s) != [] && AllDigits(Unsigned(s)) {
      SpelledOut(s);
    }
    if Spells(s, d) {
      SpellsOne(s, d);
    }
  }

  /** Atoi reads back what Itoa prints, on the whole 64-bit range and only there. */
  lemma {:induction false} AtoiOfItoa(d: int)
    ensures Atoi(Itoa(d)) == if MIN_INT64 <= d <= MAX_INT64 then Some(d) else None
  {
    UnsignedOfItoa(d);
    ValueOfNumeral(Magnitude(d));
    if d >= 0 {
      assert IsDigit(Itoa(d)[0]);
    }
  }
}
