/** Numbers as the host spells them in identifiers and markers, and as it reads them back. */
module Decimal {
  import opened Basics

  const U64_MAX: nat := 0xFFFF_FFFF_FFFF_FFFF

  function Digit(d: nat): char
    requires d < 10
  {
    '0' + d as char
  }

  predicate IsDigit(c: char) { '0' <= c <= '9' }

  /** The decimal spelling of a number. */
  function Spell(n: nat): (s: string)
    ensures s != [] && forall i :: 0 <= i < |s| ==> IsDigit(s[i])
  {
    if n < 10 then [Digit(n)] else Spell(n / 10) + [Digit(n % 10)]
  }

  function Value(s: string): nat
    requires forall i :: 0 <= i < |s| ==> IsDigit(s[i])
  {
    if s == [] then 0
    else
      assert IsDigit(s[|s| - 1]);
      10 * Value(s[..|s| - 1]) + (s[|s| - 1] - '0') as nat
  }

  predicate AllDigits(s: string) { forall i :: 0 <= i < |s| ==> IsDigit(s[i]) }

  /** `str::parse::<u64>`: an optional `+`, then digits, then a value that fits. */
  function Parse(s: string): Option<nat> {
    var digits := if s != [] && s[0] == '+' then s[1..] else s;
    if digits == [] || !AllDigits(digits) then None
    else if Value(digits) > U64_MAX then None
    else Some(Value(digits))
  }

  lemma {:induction false} SpellingHasItsValue(n: nat)
    ensures Value(Spell(n)) == n
  {
    if n >= 10 {
      SpellingHasItsValue(n / 10);
      assert Spell(n)[..|Spell(n)| - 1] == Spell(n / 10);
    }
  }

  /** What is spelled is read back, up to the largest number that fits. */
  lemma SpellingRoundTrips(n: nat)
    ensures Parse(Spell(n)) == if n <= U64_MAX then Some(n) else None
  {
    SpellingHasItsValue(n);
    assert IsDigit(Spell(n)[0]);
  }

  /** What is read as a number holds no dot. */
  lemma NumbersHaveNoDot(word: string)
    requires Parse(word).Some?
    ensures '.' !in word
  {
    var digits := if word != [] && word[0] == '+' then word[1..] else word;
    assert AllDigits(digits);
    assert word == digits || word == ['+'] + digits;
  }

  lemma SpellingIsInjective(m: nat, n: nat)
    ensures Spell(m) == Spell(n) ==> m == n
  {
    SpellingHasItsValue(m);
    SpellingHasItsValue(n);
  }
}
