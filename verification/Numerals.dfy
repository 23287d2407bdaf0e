/** Numbers as text, as Number.prototype.toString prints them. */
module Numerals {
  function Digit(d: nat): char
    requires d < 36
  {
    if d < 10 then ('0' as int + d) as char else ('a' as int + d - 10) as char
  }

  function DigitValue(c: char): int {
    if c <= '9' then c as int - '0' as int else c as int - 'a' as int + 10
  }

  lemma DivMod(n: nat, base: nat)
    requires base >= 2
    ensures n == n / base * base + n % base && n % base < base
    ensures n >= base ==> n / base < n
    ensures n < base ==> n % base == n
  {
  }

  function Numeral(n: nat, base: nat): string
    requires 2 <= base <= 36
  {
    DivMod(n, base);
    if n < base then [Digit(n)] else Numeral(n / base, base) + [Digit(n % base)]
  }

  function Value(text: string, base: nat): int {
    if text == "" then 0 else Value(text[..|text| - 1], base) * base + DigitValue(text[|text| - 1])
  }

  lemma ValuePush(text: string, c: char, base: nat)
    ensures Value(text + [c], base) == Value(text, base) * base + DigitValue(c)
  {
  }

  lemma DigitReads(d: nat)
    requires d < 36
    ensures DigitValue(Digit(d)) == d && Digit(d) != '-'
  {
  }

  /** A numeral reads back as its number, and holds no dash. */
  lemma {:induction false} NumeralReads(n: nat, base: nat)
    requires 2 <= base <= 36
    ensures Value(Numeral(n, base), base) == n && '-' !in Numeral(n, base)
  {
    DivMod(n, base);
    DigitReads(n % base);
    if n < base {
      ValuePush("", Digit(n), base);
      assert "" + [Digit(n)] == [Digit(n)];
    } else {
      NumeralReads(n / base, base);
      ValuePush(Numeral(n / base, base), Digit(n % base), base);
    }
  }

  lemma SameBeforeBreak(a: string, x: string, b: string, y: string)
    requires '-' !in a && '-' !in b
    requires a + "-" + x == b + "-" + y
    ensures a == b
  {
    var whole := a + "-" + x;
    assert whole[|a|] == '-' && whole[|b|] == '-';
    assert whole[..|a|] == a && whole[..|b|] == b;
    assert forall i :: 0 <= i < |a| ==> whole[i] == a[i] && a[i] != '-';
    assert forall i :: 0 <= i < |b| ==> whole[i] == b[i] && b[i] != '-';
  }
}
