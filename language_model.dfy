/**
 * The language-model record of src/languagemodel.cpp: an integer id whose
 * second hexadecimal digit names the vendor, and a display name. The id and
 * name getters are the datatype's fields.
 */
module LanguageModels {

  /** A C++ `int`. */
  newtype Int32 = x: int | -0x8000_0000 <= x < 0x8000_0000

  datatype LanguageModel = LanguageModel(id: Int32, name: string) {

    /**
     * `vendor()`: `(id / 0x10) % 0x10` with C++'s operators, which truncate
     * toward zero, so a negative id gives a digit in -15..0. The value is
     * cast to the vendor enumeration, modelled here by its integer.
     */
    function Vendor(): (v: int)
      ensures 0 <= id ==> 0 <= v < Base && v == (id as int / Base) % Base
      ensures id < 0 ==> -Base < v <= 0
    {
      TruncMod(TruncDiv(id as int, Base), Base)
    }
  }

  /** The `base` constant of `vendor()`. */
  const Base: int := 0x10

  /** C++ `a / d` for a positive divisor: the quotient rounded toward zero. */
  function TruncDiv(a: int, d: int): (q: int)
    requires d > 0
    ensures 0 <= a ==> q * d <= a < q * d + d
    ensures a < 0 ==> q * d - d < a <= q * d
  {
    if a >= 0 then a / d else -((-a) / d)
  }

  /** C++ `a % d` for a positive divisor: the remainder takes the sign of `a`. */
  function TruncMod(a: int, d: int): (r: int)
    requires d > 0
    ensures a == TruncDiv(a, d) * d + r
    ensures 0 <= a ==> 0 <= r < d
    ensures a < 0 ==> -d < r <= 0
  {
    a - TruncDiv(a, d) * d
  }

  /**
   * For the ids the model table uses (one byte), the vendor is the high
   * hexadecimal digit: `id == 16 * vendor + digit` with `digit` in 0..15.
   */
  lemma VendorIsHighDigit(m: LanguageModel)
    requires 0 <= m.id < 0x100
    ensures m.Vendor() == m.id as int / Base
    ensures m.id as int == Base * m.Vendor() + m.id as int % Base
  {
    var q := m.id as int / Base;
    assert 0 <= q < Base;
  }

  /** Two non-negative ids that agree above their last hexadecimal digit have the same vendor. */
  lemma SameVendor(m: LanguageModel, n: LanguageModel)
    requires 0 <= m.id && 0 <= n.id
    requires m.id as int / Base == n.id as int / Base
    ensures m.Vendor() == n.Vendor()
  {
  }

  /** Vendors of entries of the model table: `ai21_j1-jumbo` (0x12) and `openai_davinci` (0xA5). */
  lemma VendorExamples()
    ensures LanguageModel(0x12, "ai21_j1-jumbo").Vendor() == 1
    ensures LanguageModel(0xA5, "openai_davinci").Vendor() == 10
  {
  }

  /** A negative id gives a negative vendor value, which names no vendor. */
  lemma NegativeIdVendor()
    ensures LanguageModel(-0x12, "").Vendor() == -1
  {
  }
}
