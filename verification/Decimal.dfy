/** Decimal numerals: what `%d` prints and strconv.ParseUint reads. */
module Decimal {

  import opened Options

  predicate IsDigit(c: char) { '0' <= c <= '9' }

  predicate AllDigits(s: string) {
    forall i :: 0 <= i < |s| ==> IsDigit(s[i])
  }

  function Value(s: string): nat
    requires AllDigits(s)
  {
    if s == "" then 0 else 10 * Value(s[..|s| - 1]) + (s[|s| - 1] as int - '0' as int)
  }

  function Digit(d: nat): (c: char)
    requires d < 10
    ensures IsDigit(c) && c as int - '0' as int == d
  {
    ('0' as int + d) as char
  }

  /** %d of a natural number */
  function Print(n: nat): (s: string)
    ensures |s| >= 1 && AllDigits(s)
  {
    if n < 10 then [Digit(n)] else Print(n / 10) + [Digit(n % 10)]
  }

  lemma {:induction false} ValueOfPrint(n: nat)
    ensures Value(Print(n)) == n
  {
    var s := Print(n);
    if n < 10 {
      assert s[..|s| - 1] == "";
    } else {
      ValueOfPrint(n / 10);
      assert s[..|s| - 1] == Print(n / 10);
    }
  }

  /** Different numbers print differently. */
  lemma PrintInjective(m: nat, n: nat)
    requires Print(m) == Print(n)
    ensures m == n
  {
    hide Print, Value;
    ValueOfPrint(m);
    ValueOfPrint(n);
  }

  /** strconv.ParseUint(s, 10, bits), where `limit` is 2^bits */
  function ParseUint(s: string, limit: nat): Option<nat> {
    if s != "" && AllDigits(s) && Value(s) < limit then Some(Value(s)) else None
  }

  function Zeros(z: nat): (s: string)
    ensures |s| == z
  {
    seq(z, _ => '0')
  }

  lemma {:induction false} LeadingZeros(z: nat, s: string)
    requires AllDigits(s)
    ensures AllDigits(Zeros(z) + s) && Value(Zeros(z) + s) == Value(s)
  {
    if s != "" {
      var front := s[..|s| - 1];
      LeadingZeros(z, front);
      assert (Zeros(z) + s)[..z + |s| - 1] == Zeros(z) + front;
    } else if z > 0 {
      LeadingZeros(z - 1, s);
      assert (Zeros(z) + s)[..z - 1] == Zeros(z - 1) + s;
    }
  }

  /** A text of digits is the numeral of its value behind some zeros. */
  lemma {:induction false} DigitsPrint(s: string) returns (z: nat)
    requires s != "" && AllDigits(s)
    ensures s == Zeros(z) + Print(Value(s))
  {
    var front, d := s[..|s| - 1], s[|s| - 1] as int - '0' as int;
    z := 0;
    if front == "" {
      assert Value(s) == d;
      assert s == Zeros(0) + [Digit(d)];
    } else {
      z := DigitsPrint(front);
      assert s == front + [Digit(d)];
      if Value(front) == 0 {
        z := z + 1;
        assert Print(0) == "0";
        assert front == Zeros(z);
      } else {
        assert Value(s) / 10 == Value(front) && Value(s) % 10 == d;
      }
    }
  }

  /** What is read is exactly the numerals below the limit, leading zeros allowed. */
  lemma ParseUintExact(s: string, limit: nat, n: nat)
    ensures ParseUint(s, limit) == Some(n) <==> n < limit && exists z :: s == Zeros(z) + Print(n)
  {
    hide Print, Value;
    if ParseUint(s, limit) == Some(n) {
      var z := DigitsPrint(s);
    }
    if z :| n < limit && s == Zeros(z) + Print(n) {
      ValueOfPrint(n);
      LeadingZeros(z, Print(n));
    }
  }
}
