/**
 * Field bounds of the order service (core/constants.py, class OrderConstants).
 * Monetary values are kept as integer cents: a decimal column with `d` digits in
 * all, 2 of them after the point, holds exactly the cent amounts of absolute
 * value below 10^d.
 */
module Constants {

  const MaxUsernameLength: nat := 50
  const MaxOrderNumber: nat := 50
  const MaxTotalAmount: nat := 12
  const MaxDecimalPlaces: nat := 2
  const MaxStatusLength: nat := 20
  const MaxSkuLength: nat := 50
  const MaxOrderItemName: nat := 255
  const MaxPriceDigits: nat := 10

  /** Cents per currency unit: 10 to the number of decimal places. */
  const CentsPerUnit: nat := 100

  function Pow10(n: nat): (r: nat)
    ensures r >= 1
    ensures n > 0 ==> r >= 10
  {
    if n == 0 then 1 else 10 * Pow10(n - 1)
  }

  /** A cent amount fits a decimal column of `maxDigits` digits with 2 decimal places. */
  predicate FitsDigits(cents: int, maxDigits: nat) {
    -(Pow10(maxDigits) as int) < cents < Pow10(maxDigits)
  }

  /** A column with more digits accepts every value a narrower one does. */
  lemma {:induction false} FitsWider(cents: int, narrow: nat, wide: nat)
    requires narrow <= wide
    requires FitsDigits(cents, narrow)
    ensures FitsDigits(cents, wide)
  {
    if narrow < wide {
      FitsWider(cents, narrow, wide - 1);
    }
  }

  /** The largest total amount is 9 999 999 999.99: ten whole digits and two decimals. */
  lemma LargestTotalAmount()
    ensures FitsDigits(999_999_999_999, MaxTotalAmount)
    ensures !FitsDigits(1_000_000_000_000, MaxTotalAmount)
    ensures CentsPerUnit == Pow10(MaxDecimalPlaces)
  {
    assert Pow10(2) == 100;
    assert Pow10(4) == 10_000;
    assert Pow10(8) == 100_000_000;
    assert Pow10(12) == 1_000_000_000_000;
  }
}
