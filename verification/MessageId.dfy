/** The stable message id of an outbox row: "outbox-" followed by the decimal row id. */
module MessageId {

  function DigitChar(d: nat): char
    requires d < 10
  {
    '0' + d as char
  }

  function Digits(n: nat): (s: string)
    ensures s != [] && s[0] != '-'
  {
    if n < 10 then [DigitChar(n)] else Digits(n / 10) + [DigitChar(n % 10)]
  }

  function Decimal(n: int): string {
    if n < 0 then "-" + Digits(-n) else Digits(n)
  }

  function MsgId(rowId: int): string {
    "outbox-" + Decimal(rowId)
  }

  /** Reads a numeral back, most significant digit first. */
  function NumeralValue(s: string): int {
    if s == [] then 0
    else 10 * NumeralValue(s[..|s| - 1]) + (s[|s| - 1] as int - '0' as int)
  }

  function DecimalValue(s: string): int {
    if s != [] && s[0] == '-' then -NumeralValue(s[1..]) else NumeralValue(s)
  }

  lemma {:induction false} DigitsRoundTrip(n: nat)
    ensures NumeralValue(Digits(n)) == n
  {
    if n < 10 {
      assert [DigitChar(n)][..0] == [];
    } else {
      DigitsRoundTrip(n / 10);
      assert Digits(n)[..|Digits(n)| - 1] == Digits(n / 10);
    }
  }

  lemma DecimalRoundTrip(n: int)
    ensures DecimalValue(Decimal(n)) == n
  {
    if n < 0 {
      DigitsRoundTrip(-n);
      assert Decimal(n)[1..] == Digits(-n);
    } else {
      DigitsRoundTrip(n);
    }
  }

  /** The numeral has no other characters than digits, and no leading zero. */
  lemma {:induction false} DigitsAreCanonical(n: nat)
    ensures forall c <- Digits(n) :: '0' <= c <= '9'
    ensures n > 0 ==> Digits(n)[0] != '0'
    ensures n == 0 ==> Digits(n) == "0"
  {
    if n >= 10 {
      DigitsAreCanonical(n / 10);
    }
  }

  /** The id in letters: the prefix, a minus sign for a negative row id, and the shortest numeral. */
  lemma MsgIdForm(rowId: int)
    ensures var digits := Digits(if rowId < 0 then -rowId else rowId);
      && MsgId(rowId) == (if rowId < 0 then "outbox--" else "outbox-") + digits
      && (forall c <- digits :: '0' <= c <= '9')
      && (rowId != 0 ==> digits[0] != '0')
      && (rowId == 0 ==> digits == "0")
  {
    DigitsAreCanonical(if rowId < 0 then -rowId else rowId);
    assert "outbox-" + "-" == "outbox--";
  }

  /** Distinct rows have distinct message ids, so deduplication can only drop a repeat of a row. */
  lemma MsgIdInjective()
    ensures forall x, y :: MsgId(x) == MsgId(y) ==> x == y
  {
    forall x, y | MsgId(x) == MsgId(y)
      ensures x == y
    {
      assert Decimal(x) == MsgId(x)[|"outbox-"|..] == MsgId(y)[|"outbox-"|..] == Decimal(y);
      DecimalRoundTrip(x);
      DecimalRoundTrip(y);
    }
  }
}
