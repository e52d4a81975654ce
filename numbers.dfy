/**
 * Python's int() on a string, as the scenario loader and the menu use it: surrounding
 * whitespace, an optional sign, and decimal digits with single underscores between them.
 */
module Numbers {
  import opened Results
  import opened Text

  function DigitValue(c: char): (d: nat)
    requires IsDigit(c)
    ensures d < 10
  {
    c as int - '0' as int
  }

  function DigitChar(d: nat): (c: char)
    requires d < 10
    ensures IsDigit(c) && DigitValue(c) == d
  {
    ('0' as int + d) as char
  }

  /** Digits with single underscores between them, as int() accepts after the sign. */
  predicate IsNumeral(s: string) {
    && s != [] && IsDigit(s[0]) && IsDigit(s[|s| - 1])
    && (forall k :: 0 <= k < |s| ==> IsDigit(s[k]) || s[k] == '_')
    && (forall k :: 0 <= k < |s| - 1 ==> !(s[k] == '_' && s[k + 1] == '_'))
  }

  /** The number the digits of s spell, underscores skipped. */
  function NumeralValue(s: string): nat
    requires forall k :: 0 <= k < |s| ==> IsDigit(s[k]) || s[k] == '_'
    decreases |s|
  {
    if s == [] then 0
    else
      var init := s[..|s| - 1];
      assert forall k :: 0 <= k < |init| ==> init[k] == s[k];
      if s[|s| - 1] == '_' then NumeralValue(init) else 10 * NumeralValue(init) + DigitValue(s[|s| - 1])
  }

  /** int(s), or None where Python raises ValueError. */
  function ParseInt(s: string): Option<int> {
    var t := Strip(s);
    if t == [] then None
    else
      var negative := t[0] == '-';
      var body := if t[0] == '-' || t[0] == '+' then t[1..] else t;
      if !IsNumeral(body) then None
      else
        var v: int := NumeralValue(body);
        Some(if negative then -v else v)
  }

  /** The decimal digits of n, as str(n) writes them. */
  function Decimal(n: nat): (s: string)
    ensures s != [] && forall k :: 0 <= k < |s| ==> IsDigit(s[k])
    decreases n
  {
    if n < 10 then [DigitChar(n)] else Decimal(n / 10) + [DigitChar(n % 10)]
  }

  lemma {:induction false} NumeralValueOfDecimal(n: nat)
    ensures NumeralValue(Decimal(n)) == n
    decreases n
  {
    var s := Decimal(n);
    if n < 10 {
      assert s[..0] == [];
    } else {
      assert s[..|s| - 1] == Decimal(n / 10);
      NumeralValueOfDecimal(n / 10);
    }
  }

  lemma {:induction false} DigitIsNotSpace(c: char)
    requires IsDigit(c) || c == '-'
    ensures c !in Whitespace
  {
  }

  /** A string of digits, perhaps after a minus sign, has nothing for strip() to remove. */
  lemma {:induction false} StripSignedDigits(s: string)
    requires s != [] && (IsDigit(s[0]) || s[0] == '-') && IsDigit(s[|s| - 1])
    requires forall k :: 0 < k < |s| ==> IsDigit(s[k])
    ensures Strip(s) == s
  {
    forall k | 0 <= k < |s| ensures s[k] !in Whitespace {
      DigitIsNotSpace(s[k]);
    }
    StripByIs(s, Whitespace, 0, |s|);
  }

  lemma {:induction false} DecimalIsNumeral(n: nat)
    ensures IsNumeral(Decimal(n))
  {
    var d := Decimal(n);
    assert forall k :: 0 <= k < |d| ==> d[k] != '_';
  }

  /** int() reads back what str() writes, for every integer. */
  lemma {:induction false} ParseIntOfDecimal(n: int)
    ensures n >= 0 ==> ParseInt(Decimal(n)) == Some(n)
    ensures n < 0 ==> ParseInt("-" + Decimal(-n)) == Some(n)
  {
    var m: nat := if n >= 0 then n else -n;
    var d := Decimal(m);
    DecimalIsNumeral(m);
    NumeralValueOfDecimal(m);
    assert d[0] != '-' && d[0] != '+';
    if n >= 0 {
      StripSignedDigits(d);
    } else {
      var s := "-" + d;
      assert s[0] == '-' && s[1..] == d;
      StripSignedDigits(s);
    }
  }
}
