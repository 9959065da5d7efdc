/** Local identifiers made of a prefix and a counter. */
module Naming {

  function Digit(d: nat): char
    requires d < 10
  {
    '0' + d as char
  }

  function Numeral(k: nat): (s: string)
    ensures s != ""
  {
    if k < 10 then [Digit(k)] else Numeral(k / 10) + [Digit(k % 10)]
  }

  function NumeralValue(s: string): int {
    if s == "" then 0 else 10 * NumeralValue(s[..|s| - 1]) + (s[|s| - 1] as int - '0' as int)
  }

  lemma {:induction false} ValueOfNumeral(k: nat)
    ensures NumeralValue(Numeral(k)) == k
  {
    if k < 10 {
      assert NumeralValue([Digit(k)]) == k by { assert NumeralValue([Digit(k)][..0]) == 0; }
    } else {
      ValueOfNumeral(k / 10);
      assert Numeral(k)[..|Numeral(k)| - 1] == Numeral(k / 10);
    }
  }

  function Name(prefix: char, k: nat): (s: string)
    ensures s != ""
  {
    [prefix] + Numeral(k)
  }

  /** The counter a name was made from. */
  function Counter(s: string): int {
    if s == "" then -1 else NumeralValue(s[1..])
  }

  lemma CounterOfName(prefix: char, k: nat)
    ensures Counter(Name(prefix, k)) == k
  {
    assert Name(prefix, k)[1..] == Numeral(k);
    ValueOfNumeral(k);
  }

  lemma NamesDiffer(prefix: char, j: nat, k: nat)
    ensures Name(prefix, j) == Name(prefix, k) <==> j == k
  {
    CounterOfName(prefix, j);
    CounterOfName(prefix, k);
  }
}
