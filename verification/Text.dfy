/** Decimal numbers as text. */
module Text {
  import opened Prelude

  predicate IsDigit(c: char) {
    '0' <= c <= '9'
  }

  function DigitChar(n: nat): (c: char)
    requires n < 10
    ensures IsDigit(c) && c as int == 48 + n
  {
    (48 + n) as char
  }

  /** A number as it is printed: no leading zeros. */
  function Decimal(n: nat): (s: string)
    ensures s != [] && (|s| > 1 ==> s[0] != '0')
    ensures forall i :: 0 <= i < |s| ==> IsDigit(s[i])
  {
    if n < 10 then [DigitChar(n)] else Decimal(n / 10) + [DigitChar(n % 10)]
  }

  /** The number some digits name; none if one is not a digit. */
  function DecimalValue(s: string): Option<nat> {
    if s == [] then Some(0) else
      match DecimalValue(s[..|s| - 1])
      case Some(v) => if IsDigit(s[|s| - 1]) then Some(10 * v + (s[|s| - 1] as int - 48)) else None
      case None => None
  }

  lemma {:induction false} DecimalReads(n: nat)
    ensures DecimalValue(Decimal(n)) == Some(n)
  {
    var s := Decimal(n);
    if n >= 10 {
      DecimalReads(n / 10);
      assert s[..|s| - 1] == Decimal(n / 10);
    } else {
      assert s[..|s| - 1] == [];
    }
  }

  /** Two places, with a leading zero. */
  function TwoDigits(n: nat): (s: string)
    requires n < 100
    ensures |s| == 2 && IsDigit(s[0]) && IsDigit(s[1])
  {
    [DigitChar(n / 10), DigitChar(n % 10)]
  }

  lemma TwoDigitsRead(n: nat)
    requires n < 100
    ensures DecimalValue(TwoDigits(n)) == Some(n)
  {
    var s := TwoDigits(n);
    assert s[..1] == [s[0]] && s[..1][..0] == [];
    assert DecimalValue(s[..1]) == Some(n / 10);
  }
}
