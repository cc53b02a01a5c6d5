/** Python's ordering of `str` values, which the availability-window check uses
    on "HH:MM" texts.  Dafny's own `<` on sequences means "proper prefix", so the
    lexicographic order is defined here. */
module Strings {

  /** `a <= b` on Python strings: compare code point by code point; a proper
      prefix sorts before the longer string. */
  predicate StrLe(a: string, b: string)
    ensures a <= b ==> StrLe(a, b)
    decreases |a|
  {
    if a == [] then true
    else if b == [] then false
    else if a[0] != b[0] then a[0] < b[0]
    else StrLe(a[1..], b[1..])
  }

  /** Follows from the prefix rule in StrLe's contract, as every string is a prefix of itself. */
  lemma StrLeReflexive(a: string)
    ensures StrLe(a, a)
  {
  }

  lemma {:induction false} StrLeAntisymmetric(a: string, b: string)
    requires StrLe(a, b) && StrLe(b, a)
    ensures a == b
    decreases |a|
  {
    if a != [] && b != [] {
      StrLeAntisymmetric(a[1..], b[1..]);
      assert a == [a[0]] + a[1..] && b == [b[0]] + b[1..];
    }
  }

  lemma {:induction false} StrLeTransitive(a: string, b: string, c: string)
    requires StrLe(a, b) && StrLe(b, c)
    ensures StrLe(a, c)
    decreases |a|
  {
    if a != [] && b != [] && c != [] && a[0] == b[0] == c[0] {
      StrLeTransitive(a[1..], b[1..], c[1..]);
    }
  }

  lemma {:induction false} StrLeTotal(a: string, b: string)
    ensures StrLe(a, b) || StrLe(b, a)
    decreases |a|
  {
    if a != [] && b != [] && a[0] == b[0] {
      StrLeTotal(a[1..], b[1..]);
    }
  }

  /** The first code point where two strings differ decides their order,
      whatever follows it, where neither string is a prefix of the other. */
  lemma {:induction false} StrLeFirstDifference(s: string, c: char, d: char, t: string, u: string)
    requires c < d
    ensures StrLe(s + [c] + t, s + [d] + u)
    ensures !StrLe(s + [d] + u, s + [c] + t)
    ensures !(s + [c] + t <= s + [d] + u)
    decreases |s|
  {
    var x, y := s + [c] + t, s + [d] + u;
    assert x[|s|] == c && y[|s|] == d;
    if s != [] {
      assert x[1..] == s[1..] + [c] + t && y[1..] == s[1..] + [d] + u;
      StrLeFirstDifference(s[1..], c, d, t, u);
    }
  }

  predicate IsDigit(c: char) {
    '0' <= c <= '9'
  }

  function DigitValue(c: char): (v: int)
    requires IsDigit(c)
    ensures 0 <= v <= 9
  {
    c as int - '0' as int
  }

  /** A clock text "HH:MM" with a two-digit hour (any of 00-99) and a minute field below 60. */
  predicate IsClockText(s: string) {
    |s| == 5 && IsDigit(s[0]) && IsDigit(s[1]) && s[2] == ':' &&
    '0' <= s[3] <= '5' && IsDigit(s[4])
  }

  /** Minutes since midnight denoted by a clock text. */
  function ClockMinutes(s: string): int
    requires IsClockText(s)
  {
    (DigitValue(s[0]) * 10 + DigitValue(s[1])) * 60 + DigitValue(s[3]) * 10 + DigitValue(s[4])
  }

  /** On zero-padded "HH:MM" texts the string order is the order of the clock,
      which is what makes the window check meaningful. */
  lemma ClockOrder(a: string, b: string)
    requires IsClockText(a) && IsClockText(b)
    ensures StrLe(a, b) <==> ClockMinutes(a) <= ClockMinutes(b)
  {
    var a4, b4 := a[4..], b[4..];
    var a3, b3 := a[3..], b[3..];
    var a2, b2 := a[2..], b[2..];
    var a1, b1 := a[1..], b[1..];
    assert a3[1..] == a4 && b3[1..] == b4;
    assert a2[1..] == a3 && b2[1..] == b3;
    assert a1[1..] == a2 && b1[1..] == b2;
    assert a[1..] == a1 && b[1..] == b1;
    assert StrLe(a4, b4) <==> a[4] <= b[4];
    assert StrLe(a3, b3) <==> (a[3] < b[3] || (a[3] == b[3] && a[4] <= b[4]));
    assert StrLe(a2, b2) <==> StrLe(a3, b3);
  }
}
