/** `QuantumCalc.runBaseN` (app.js): a decimal integer shown in binary,
    upper-case hexadecimal and octal. */
module Calc {
  import opened Wrappers
  import Text
  import Numerals

  /** The three numerals the base-N panel shows for one integer. */
  datatype BaseNOutput = BaseNOutput(bin: string, hex: string, oct: string)

  /** `dec.toString(2)`, `dec.toString(16).toUpperCase()` and `dec.toString(8)`:
      numerals in radix 2, 16 and 8 that all denote `dec`, the hexadecimal
      one with no lower-case letter. */
  function BaseN(dec: int): (r: BaseNOutput)
    ensures Numerals.ValueIn(r.bin, 2) == Some(dec)
    ensures Numerals.ValueIn(r.hex, 16) == Some(dec)
    ensures Numerals.ValueIn(r.oct, 8) == Some(dec)
    ensures forall i | 0 <= i < |r.hex| :: !('a' <= r.hex[i] <= 'z')
  {
    var bin, hex, oct := Numerals.ToRadix(dec, 2), Numerals.ToRadix(dec, 16), Numerals.ToRadix(dec, 8);
    var upper := Text.ToUpper(hex);
    Numerals.ToRadixRoundTrip(dec, 2);
    Numerals.ToRadixRoundTrip(dec, 16);
    Numerals.ToRadixRoundTrip(dec, 8);
    Numerals.ValueInUpper(hex, 16);
    Text.ToUpperHasNoLower(hex);
    assert Numerals.ValueIn(upper, 16) == Some(dec);
    BaseNOutput(bin, upper, oct)
  }

  /** Typing the decimal numeral of `n` shows three numerals of `n`. */
  lemma BaseNOfTypedDecimal(n: int)
    ensures Numerals.ParseInt(Numerals.ToRadix(n, 10)) == Some(n)
    ensures var r := BaseN(n);
      Numerals.ValueIn(r.bin, 2) == Numerals.ValueIn(r.hex, 16) == Numerals.ValueIn(r.oct, 8) == Some(n)
  {
    Numerals.ParseIntOfDecimal(n);
  }

  /** The three output fields of the base-N panel. */
  class BaseNPanel {
    var bin: string
    var hex: string
    var oct: string

    constructor ()
      ensures bin == "" && hex == "" && oct == ""
    {
      bin, hex, oct := "", "", "";
    }

    /** `runBaseN(val)`: `parseInt(val, 10)`; on NaN the panel keeps what it
        showed, otherwise it shows the integer in the three radices. */
    method RunBaseN(val: string)
      modifies this
      ensures match Numerals.ParseInt(val)
        case None => bin == old(bin) && hex == old(hex) && oct == old(oct)
        case Some(dec) => BaseNOutput(bin, hex, oct) == BaseN(dec)
    {
      var dec := Numerals.ParseInt(val);
      if dec.None? {
        return;
      }
      var out := BaseN(dec.value);
      bin := out.bin;
      hex := out.hex;
      oct := out.oct;
    }
  }
}
