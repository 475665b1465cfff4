/** When two metadata values are the same, down to the bits of a double in the IEEE 754 binary64 format. */
module MetadataLaws {
  import opened CheckedMath
  import opened Metadata

  /** The bits of a double: sign, 11 bits of exponent, 52 bits of fraction. */
  function Bits(negative: bool, exponent: nat, fraction: nat): nat {
    (if negative then 0x8000_0000_0000_0000 else 0) + exponent * 0x10_0000_0000_0000 + fraction
  }

  /** A double is not a number exactly when its exponent is all ones and its fraction is not zero. */
  lemma NotANumberIff(negative: bool, exponent: nat, fraction: nat)
    requires exponent < 2048 && fraction < 0x10_0000_0000_0000
    ensures Bits(negative, exponent, fraction) <= U64_MAX
    ensures IsNaN(Bits(negative, exponent, fraction)) <==> exponent == 2047 && fraction > 0
  {
  }

  /** Doubles compare as numbers: the two zeros are equal, and what is not a number equals nothing. */
  lemma DoublesEqualIff(a: u64, b: u64)
    ensures DoubleEqual(a, b) <==>
            && !IsNaN(a) && !IsNaN(b)
            && (a == b || {a, b} <= {Bits(false, 0, 0), Bits(true, 0, 0)})
  {
    ZeroIff(a);
    ZeroIff(b);
    assert a in {a, b} && b in {a, b};
  }

  lemma ZeroIff(a: u64)
    ensures a % 0x8000_0000_0000_0000 == 0 <==> a == Bits(false, 0, 0) || a == Bits(true, 0, 0)
  {
  }

  /** Values are the same under the same flags and of the same kind; one of an unknown kind equals nothing. */
  lemma ValuesEqualIff(a: Value, b: Value)
    ensures ValueEqual(a, b) <==>
            && a.flags == b.flags
            && (if a.payload.F64? && b.payload.F64? then DoubleEqual(a.payload.bits, b.payload.bits)
                else a.payload == b.payload && !a.payload.Unknown?)
  {
    hide DoubleEqual;
  }
}
