/** The decimal text JavaScript's `String` gives a whole number. */
module Decimals {
  function Digit(n: nat): char
    requires n < 10
  {
    ('0' as int + n) as char
  }

  function Spell(n: nat): (s: string)
    ensures s != "" && forall c :: c in s ==> '0' <= c <= '9'
  {
    if n < 10 then [Digit(n)] else Spell(n / 10) + [Digit(n % 10)]
  }

  function DigitValue(c: char): nat {
    if '0' <= c <= '9' then c as int - '0' as int else 0
  }

  /** The number decimal digits read as. */
  function Value(s: string): nat {
    if s == "" then 0 else Value(s[..|s| - 1]) * 10 + DigitValue(s[|s| - 1])
  }

  lemma {:induction false} SpellingReadsBack(n: nat)
    ensures Value(Spell(n)) == n
  {
    var s := Spell(n);
    if n < 10 {
      assert s[..0] == "";
    } else {
      assert s[..|s| - 1] == Spell(n / 10);
      SpellingReadsBack(n / 10);
    }
  }

  /** Different numbers spell differently. */
  lemma SpellsApart(m: nat, n: nat)
    requires Spell(m) == Spell(n)
    ensures m == n
  {
    SpellingReadsBack(m);
    SpellingReadsBack(n);
  }
}
