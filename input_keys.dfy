/**
 * The names under which Gravity Forms posts field values: `input_<id>`,
 * the id written in decimal as `sprintf('input_%d', id)` does.
 */
module InputKeys {

  /** The character for a decimal digit. */
  function DigitChar(d: nat): (c: char)
    requires d < 10
    ensures '0' <= c <= '9'
  {
    (48 + d) as char
  }

  /** The value of a decimal digit character. */
  function DigitValue(c: char): (d: nat)
    requires '0' <= c <= '9'
    ensures d < 10 && DigitChar(d) == c
  {
    c as int - 48
  }

  predicate IsDecimal(s: string)
  {
    forall i :: 0 <= i < |s| ==> '0' <= s[i] <= '9'
  }

  /** `%d` of a non-negative number: its decimal digits, most significant first, no leading zeros. */
  function Decimal(n: nat): (s: string)
    ensures |s| >= 1 && IsDecimal(s)
    ensures |s| > 1 ==> s[0] != '0'
    decreases n
  {
    if n < 10 then [DigitChar(n)] else Decimal(n / 10) + [DigitChar(n % 10)]
  }

  /** Reads a string of decimal digits back as a number. */
  function ParseDecimal(s: string): nat
    requires IsDecimal(s)
  {
    if s == [] then 0 else ParseDecimal(s[..|s| - 1]) * 10 + DigitValue(s[|s| - 1])
  }

  /** Reading back what `%d` wrote gives the number written. */
  lemma {:induction false} ParseDecimalInvertsDecimal(n: nat)
    ensures ParseDecimal(Decimal(n)) == n
  {
    var s := Decimal(n);
    if n < 10 {
      assert s[..|s| - 1] == [];
    } else {
      ParseDecimalInvertsDecimal(n / 10);
      assert s[..|s| - 1] == Decimal(n / 10);
    }
  }

  /** The `$_POST` key for the field with the given id. */
  function InputKey(id: nat): (k: string)
    ensures |k| > 6 && k[..6] == "input_"
  {
    "input_" + Decimal(id)
  }

  /** Two field ids share an input key exactly when they are the same id. */
  lemma InputKeyInjective(a: nat, b: nat)
    ensures InputKey(a) == InputKey(b) <==> a == b
  {
    if InputKey(a) == InputKey(b) {
      assert Decimal(a) == InputKey(a)[6..];
      assert Decimal(b) == InputKey(b)[6..];
      ParseDecimalInvertsDecimal(a);
      ParseDecimalInvertsDecimal(b);
    }
  }
}
