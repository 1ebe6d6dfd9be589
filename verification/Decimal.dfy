/** Decimal numerals, printed as `%d` and read as `strconv.ParseUint` with base 10. */
module Decimal {
  import opened Wrappers

  function Print(n: nat): (s: string)
    ensures s != "" && AllDigits(s)
  {
    var last := [(n % 10) as char + '0'];
    if n < 10 then last else Print(n / 10) + last
  }

  predicate IsDigit(c: char) {
    '0' <= c <= '9'
  }

  predicate AllDigits(s: string) {
    forall i | 0 <= i < |s| :: IsDigit(s[i])
  }

  function Value(s: string): nat
    requires AllDigits(s)
  {
    if s == "" then 0 else 10 * Value(s[..|s| - 1]) + (s[|s| - 1] - '0') as int
  }

  /** ParseUint: leading zeros are accepted, and a value of too many bits is an error. */
  function Parse(s: string, bound: nat): Option<nat> {
    if s != "" && AllDigits(s) && Value(s) < bound then Some(Value(s)) else None
  }

  lemma {:induction false} ValueOfPrint(n: nat)
    ensures Value(Print(n)) == n
  {
    if n >= 10 {
      ValueOfPrint(n / 10);
      assert Print(n)[..|Print(n)| - 1] == Print(n / 10);
    }
  }

  lemma PrintIsInjective(m: nat, n: nat)
    requires Print(m) == Print(n)
    ensures m == n
  {
    ValueOfPrint(m);
    ValueOfPrint(n);
  }

  /** A printed numeral has no leading zero, but for zero itself. */
  lemma {:induction false} NoLeadingZero(n: nat)
    requires n > 0
    ensures Print(n)[0] != '0'
  {
    if n >= 10 {
      NoLeadingZero(n / 10);
    }
  }

  /** Numerals without a leading zero are what Print prints. */
  lemma {:induction false} PrintOfValue(s: string)
    requires s != "" && AllDigits(s) && (s == "0" || s[0] != '0')
    ensures Print(Value(s)) == s && (s != "0" ==> Value(s) > 0)
  {
    if |s| == 1 {
      assert s[..0] == "";
    } else {
      var before := s[..|s| - 1];
      assert before != "0";
      PrintOfValue(before);
      assert s == before + [s[|s| - 1]];
    }
  }

  /** A leading zero does not change the value. */
  lemma {:induction false} ValueWithZero(s: string)
    requires AllDigits(s)
    ensures Value("0" + s) == Value(s)
  {
    var t := "0" + s;
    if s == "" {
      assert t[..0] == "";
    } else {
      assert t[..|t| - 1] == "0" + s[..|s| - 1];
      ValueWithZero(s[..|s| - 1]);
    }
  }

  /** ParseUint reads a numeral exactly when it is one and its value is in range. */
  lemma ParseIff(s: string, bound: nat, n: nat)
    ensures Parse(s, bound) == Some(n) <==> s != "" && AllDigits(s) && Value(s) == n && n + 1 <= bound
  {
    hide AllDigits;
  }
}
