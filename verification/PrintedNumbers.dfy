/**
 Printed numbers determine what is shown: no two integers have the same text, and no two tokens the
 output stream shows for doubles do.  Which doubles share a token is another matter.
 */
module PrintedNumbers {
  import opened JsonGrammar
  import opened JsonPrinter

  // ---- Integers ----

  function DigitsValue(s: string): int {
    if s == "" then 0 else 10 * DigitsValue(s[..|s| - 1]) + (s[|s| - 1] as int - '0' as int)
  }

  lemma {:induction false} DigitsReadBack(n: nat)
    ensures DigitsValue(Digits(n)) == n
  {
    var s, last := Digits(n), ['0' + (n % 10) as char];
    if n < 10 {
      assert s == last && s[..0] == "";
    } else {
      DigitsReadBack(n / 10);
      assert s == Digits(n / 10) + last;
      assert s[..|s| - 1] == Digits(n / 10) && s[|s| - 1] == last[0];
    }
  }

  lemma WholeText(n: int)
    ensures LiteralText(Whole(n)) == if n < 0 then "-" + Digits(-n) else Digits(n)
  {
    var d := DecimalNumber(n);
    assert d.minus + d.digits + "" + "" == d.minus + d.digits;
  }

  /** The text of an integer is its decimal numeral: one digit, or the numeral of the tens and the last digit, or a minus. */
  lemma DecimalExactly(n: nat, d: nat)
    requires d < 10
    ensures LiteralText(Whole(d)) == ["0123456789"[d]]
    ensures n > 0 ==> LiteralText(Whole(10 * n + d)) == LiteralText(Whole(n)) + ["0123456789"[d]]
    ensures n > 0 ==> LiteralText(Whole(0 - n)) == "-" + LiteralText(Whole(n))
  {
    hide LiteralText, Digits;
    WholeText(d);
    WholeText(n);
    WholeText(10 * n + d);
    WholeText(0 - n);
    DigitCharacter(d);
    OneDigit(d);
    if n > 0 { OneMoreDigit(n, d); }
  }

  lemma OneDigit(d: nat)
    requires d < 10
    ensures Digits(d) == ['0' + d as char]
  {
  }

  lemma OneMoreDigit(n: nat, d: nat)
    requires n > 0 && d < 10
    ensures Digits(10 * n + d) == Digits(n) + ['0' + d as char]
  {
    assert (10 * n + d) / 10 == n && (10 * n + d) % 10 == d;
  }

  lemma DigitCharacter(d: nat)
    requires d < 10
    ensures "0123456789"[d] == '0' + d as char
  {
  }

  lemma WholeDetermined(m: int, n: int)
    requires LiteralText(Whole(m)) == LiteralText(Whole(n))
    ensures m == n
  {
    WholeText(m);
    WholeText(n);
    var a, b := Digits(if m < 0 then -m else m), Digits(if n < 0 then -n else n);
    DigitsReadBack(if m < 0 then -m else m);
    DigitsReadBack(if n < 0 then -n else n);
    assert IsDigit(a[0]) && IsDigit(b[0]);
    assert m < 0 ==> ("-" + a)[1..] == a && ("-" + a)[0] == '-';
    assert n < 0 ==> ("-" + b)[1..] == b && ("-" + b)[0] == '-';
  }

  // ---- Tokens of doubles ----

  /** Nothing, or something that does not start with a digit. */
  predicate EndsDigits(s: string) { s == "" || !IsDigit(s[0]) }

  /** How many digits a text starts with. */
  function LeadingDigits(s: string): nat { if s == "" || !IsDigit(s[0]) then 0 else 1 + LeadingDigits(s[1..]) }

  lemma {:induction false} LeadingDigitsOf(a: string, x: string)
    requires (forall k | 0 <= k < |a| :: IsDigit(a[k])) && EndsDigits(x)
    ensures LeadingDigits(a + x) == |a|
  {
    if a == "" {
      assert a + x == x;
    } else {
      assert (a + x)[1..] == a[1..] + x;
      LeadingDigitsOf(a[1..], x);
    }
  }

  lemma DigitRun(a: string, x: string, b: string, y: string)
    requires AllDigits(a) && AllDigits(b) && EndsDigits(x) && EndsDigits(y) && a + x == b + y
    ensures a == b && x == y
  {
    LeadingDigitsOf(a, x);
    LeadingDigitsOf(b, y);
    assert a == (a + x)[..|a|] && b == (b + y)[..|b|];
    assert x == (a + x)[|a|..] && y == (b + y)[|b|..];
  }

  lemma NumberDetermined(m: Number, n: Number)
    requires RfcNumber(m) && RfcNumber(n) && NumberText(m) == NumberText(n)
    ensures m == n
  {
    var s, t := m.frac + m.exp, n.frac + n.exp;
    NumberParts(m);
    NumberParts(n);
    SameMinus(m.minus, m.digits, s, n.minus, n.digits, t);
    DigitRun(m.digits, s, n.digits, t);
    SameFraction(m.frac, m.exp, n.frac, n.exp);
  }

  lemma NumberParts(n: Number)
    requires RfcNumber(n)
    ensures NumberText(n) == n.minus + (n.digits + (n.frac + n.exp)) && EndsDigits(n.frac + n.exp)
    ensures IsFraction(n.frac) && IsExponent(n.exp)
  {
    assert n.frac + n.exp != "" ==> (n.frac + n.exp)[0] == if n.frac != "" then '.' else n.exp[0];
  }

  lemma SameMinus(a: string, x: string, s: string, b: string, y: string, t: string)
    requires (a == "" || a == "-") && (b == "" || b == "-") && AllDigits(x) && AllDigits(y)
    requires a + (x + s) == b + (y + t)
    ensures a == b && x + s == y + t
  {
    assert (a + (x + s))[0] == if a == "" then x[0] else '-';
    assert (b + (y + t))[0] == if b == "" then y[0] else '-';
    assert (a + (x + s))[|a|..] == x + s && (b + (y + t))[|b|..] == y + t;
  }

  predicate IsFraction(s: string) { s == "" || (s[0] == '.' && AllDigits(s[1..])) }

  predicate IsExponent(s: string) { s == "" || RfcExponent(s) }

  lemma SameFraction(f: string, x: string, g: string, y: string)
    requires IsFraction(f) && IsFraction(g) && IsExponent(x) && IsExponent(y) && f + x == g + y
    ensures f == g && x == y
  {
    FractionStarts(f, x);
    FractionStarts(g, y);
    if f == "" {
      assert f + x == x && g + y == y;
    } else {
      assert (f + x)[1..] == f[1..] + x && (g + y)[1..] == g[1..] + y;
      DigitRun(f[1..], x, g[1..], y);
      assert f == "." + f[1..] && g == "." + g[1..];
    }
  }

  /** A fraction is there exactly when a point comes first. */
  lemma FractionStarts(f: string, x: string)
    requires IsFraction(f) && IsExponent(x)
    ensures f == "" <==> f + x == "" || (f + x)[0] != '.'
  {
  }

  lemma FiniteIsNotAWord(n: Number, d: Double)
    requires RfcNumber(n) && !d.Finite?
    ensures NumberText(n) != LiteralText(Real(d))
  {
    assert NumberText(n)[|n.minus|] == n.digits[0];
  }

  lemma TokenDetermined(d: Double, e: Double)
    requires LiteralText(Real(d)) == LiteralText(Real(e))
    ensures d == e
  {
    if d.Finite? && e.Finite? {
      NumberDetermined(d.number, e.number);
    } else if d.Finite? {
      FiniteIsNotAWord(d.number, e);
    } else if e.Finite? {
      FiniteIsNotAWord(e.number, d);
    } else {
      assert "inf"[0] == 'i' && "nan"[0] == 'n' && "-inf"[0] == '-' && "-nan"[0] == '-';
      assert "-inf"[1] == 'i' && "-nan"[1] == 'n';
    }
  }
}
