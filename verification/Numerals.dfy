/**
 * Numerals as Rust's `{n}` (base 10) and `{n:x}` (base 16) print them. Every name the
 * daemon mints (snapshot refs, session ids, temporary files) ends in one, so the
 * uniqueness of those names rests on the two lemmas here.
 */
module Numerals {
  datatype Base = Decimal | Hex

  predicate IsDigit(c: char) {
    '0' <= c <= '9' || 'a' <= c <= 'f'
  }

  function Digit(d: nat): (c: char)
    requires d < 16
    ensures IsDigit(c)
  {
    if d < 10 then '0' + d as char else 'a' + (d - 10) as char
  }

  function Numeral(n: nat, b: Base): string {
    match b
    case Decimal => if n < 10 then [Digit(n)] else Numeral(n / 10, b) + [Digit(n % 10)]
    case Hex => if n < 16 then [Digit(n)] else Numeral(n / 16, b) + [Digit(n % 16)]
  }

  lemma {:induction false} NumeralDigits(n: nat, b: Base)
    ensures Numeral(n, b) != [] && forall i :: 0 <= i < |Numeral(n, b)| ==> IsDigit(Numeral(n, b)[i])
  {
    if b == Decimal && n >= 10 { NumeralDigits(n / 10, b); }
    if b == Hex && n >= 16 { NumeralDigits(n / 16, b); }
  }

  lemma {:induction false} NumeralInjective(m: nat, n: nat, b: Base)
    requires Numeral(m, b) == Numeral(n, b)
    ensures m == n
  {
    var s, t := Numeral(m, b), Numeral(n, b);
    var base := if b.Decimal? then 10 else 16;
    NumeralDigits(m / base, b);
    NumeralDigits(n / base, b);
    assert s[|s| - 1] == Digit(m % base) && t[|t| - 1] == Digit(n % base);
    if m >= base && n >= base {
      assert Numeral(m / base, b) == s[..|s| - 1];
      assert Numeral(n / base, b) == t[..|t| - 1];
      NumeralInjective(m / base, n / base, b);
    }
  }

  /** A name `<stem><sep><numeral>` gives back both its stem and its number. */
  lemma SuffixUnique(p: string, q: string, sep: char, m: nat, n: nat, b: Base)
    requires !IsDigit(sep)
    requires p + [sep] + Numeral(m, b) == q + [sep] + Numeral(n, b)
    ensures p == q && m == n
  {
    var s, t := p + [sep] + Numeral(m, b), q + [sep] + Numeral(n, b);
    NumeralDigits(m, b);
    NumeralDigits(n, b);
    // |p| and |q| are both the last position of sep
    assert s[|p|] == sep && forall i :: |p| < i < |s| ==> s[i] == Numeral(m, b)[i - |p| - 1];
    assert t[|q|] == sep && forall i :: |q| < i < |t| ==> t[i] == Numeral(n, b)[i - |q| - 1];
    assert p == s[..|p|] && q == t[..|q|];
    assert Numeral(m, b) == s[|p| + 1..] && Numeral(n, b) == t[|q| + 1..];
    NumeralInjective(m, n, b);
  }
}
