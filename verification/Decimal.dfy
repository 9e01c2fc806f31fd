/** Decimal text, as printed and parsed by the runtime. */
module Decimal {
  import opened Positional

  predicate IsDigit(c: char) {
    '0' <= c <= '9'
  }

  predicate AllDigits(s: string) {
    forall i | 0 <= i < |s| :: IsDigit(s[i])
  }

  function DigitsOf(s: string): (ds: seq<nat>)
    requires AllDigits(s)
    ensures |ds| == |s| && IsNumeral(ds, 10)
  {
    seq(|s|, i requires 0 <= i < |s| => (s[i] - '0') as int)
  }

  function Parse(s: string): nat
    requires AllDigits(s)
  {
    Value(DigitsOf(s), 10)
  }

  /** `n.toString(10)`. */
  function Print(n: nat): (s: string)
    ensures s != "" && AllDigits(s)
    ensures n > 0 ==> s[0] != '0'
  {
    if n < 10 then ['0' + n as char] else Print(n / 10) + ['0' + (n % 10) as char]
  }

  lemma {:induction false} ParsePrint(n: nat)
    ensures Parse(Print(n)) == n
  {
    var s := Print(n);
    var ds := DigitsOf(s);
    if n < 10 {
      assert ds == [n];
      ValueOfOne(n, 10);
    } else {
      ParsePrint(n / 10);
      assert ds[..|ds| - 1] == DigitsOf(Print(n / 10));
    }
  }

  lemma {:induction false} PrintParse(s: string)
    requires s != "" && AllDigits(s) && s[0] != '0'
    ensures Print(Parse(s)) == s && Parse(s) > 0
  {
    var last := |s| - 1;
    var ds := DigitsOf(s);
    assert ds[..last] == DigitsOf(s[..last]);
    assert ds[last] == (s[last] - '0') as int;
    if last == 0 {
      assert ds == [ds[0]] && s == [s[0]];
      ValueOfOne(ds[0], 10);
    } else {
      PrintParse(s[..last]);
      assert s == s[..last] + [s[last]];
    }
  }

  /** A number printed without leading zeros has as many digits as its size needs. */
  lemma {:induction false} PrintLength(n: nat, width: nat)
    requires n < Pow(10, width) && 1 <= width
    ensures |Print(n)| <= width
  {
    if width == 1 {
      assert Pow(10, 1) == 10 * Pow(10, 0);
    } else if n >= 10 {
      DivideBelow(n, 10, Pow(10, width - 1));
      PrintLength(n / 10, width - 1);
    }
  }
}
