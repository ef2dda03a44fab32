/** The decimal rendering of the store's id counter. */
module Decimal {

  function Digit(d: nat): char
    requires d < 10
  {
    "0123456789"[d]
  }

  function Render(n: nat): (s: string)
    ensures s != ""
  {
    if n < 10 then [Digit(n)] else Render(n / 10) + [Digit(n % 10)]
  }

  lemma {:induction false} RenderInjective(a: nat, b: nat)
    requires Render(a) == Render(b)
    ensures a == b
  {
    assert Render(a)[|Render(a)| - 1] == Digit(a % 10);
    assert Render(b)[|Render(b)| - 1] == Digit(b % 10);
    if a >= 10 && b >= 10 {
      assert Render(a / 10) == Render(a)[..|Render(a)| - 1];
      assert Render(b / 10) == Render(b)[..|Render(b)| - 1];
      RenderInjective(a / 10, b / 10);
    }
  }

  function DigitValue(c: char): int { c as int - '0' as int }

  /** The number a string of digits stands for, the last digit counting least. */
  function Value(s: string): int {
    if s == [] then 0 else 10 * Value(s[..|s| - 1]) + DigitValue(s[|s| - 1])
  }

  /** The rendering is the decimal one: it stands for the number, with no leading zero. */
  lemma {:induction false} RenderIsDecimal(n: nat)
    ensures Value(Render(n)) == n
    ensures forall k :: 0 <= k < |Render(n)| ==> '0' <= Render(n)[k] <= '9'
    ensures n > 0 ==> Render(n)[0] != '0'
  {
    if n < 10 {
      assert Render(n)[..0] == [];
    } else {
      RenderIsDecimal(n / 10);
      var s := Render(n / 10);
      assert Render(n)[..|Render(n)| - 1] == s;
    }
  }
}
