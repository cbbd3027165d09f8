/** What a base-32 text says as a number (`lib/totp.ts`): the same bits, read five and eight at a time. */
module Base32Values {
  import opened Text
  import opened Words
  import opened Base32

  /** The number with these digits, the most significant first. */
  function Number(digits: seq<nat>, base: nat): nat {
    if digits == [] then 0 else Number(digits[..|digits| - 1], base) * base + digits[|digits| - 1]
  }

  lemma {:induction false} ValueConcat(a: seq<bool>, b: seq<bool>)
    ensures Value(a + b) == Value(a) * Pow2(|b|) + Value(b)
    decreases |b|
  {
    if b == [] {
      assert a + b == a;
    } else {
      var n := |b| - 1;
      ValueConcat(a, b[..n]);
      SnocValue(a + b[..n], b[n]);
      assert a + b == (a + b[..n]) + [b[n]];
      Twice(Value(a), Pow2(n));
    }
  }

  lemma Twice(v: nat, p: nat)
    ensures 2 * (v * p) == v * (2 * p)
  {
  }

  lemma QuotientIs(v: nat, d: nat, p: nat, r: nat)
    requires v == d * p + r && r < p
    ensures v / p == d
  {
    ModUnique(v, p, d, r);
  }

  lemma SnocValue(bits: seq<bool>, bit: bool)
    ensures Value(bits + [bit]) == 2 * Value(bits) + (if bit then 1 else 0)
  {
    assert (bits + [bit])[..|bits|] == bits;
  }

  lemma {:induction false} ValueOfBits(xs: seq<nat>, w: nat)
    requires forall i :: 0 <= i < |xs| ==> xs[i] < Pow2(w)
    ensures Value(Bits(xs, w)) == Number(xs, Pow2(w))
    decreases |xs|
  {
    if xs != [] {
      var n := |xs| - 1;
      ValueOfBits(xs[..n], w);
      ValueConcat(Bits(xs[..n], w), Low(xs[n], w));
      ValueOfLow(xs[n], w);
    }
  }

  lemma {:induction false} ValueOfZeros(n: nat)
    ensures Value(Zeros(n)) == 0
  {
    if n > 0 {
      assert Zeros(n)[..n - 1] == Zeros(n - 1);
      ValueOfZeros(n - 1);
    }
  }

  /**
    The letters of an encoding are the base-32 digits of the bytes, read as a base-256 number and shifted
    up to whole letters.
  */
  lemma EncodedValue(bytes: seq<byte>)
    ensures var e := Encoded(bytes);
            && AllLetters(e) && 8 * |bytes| <= 5 * |e| < 8 * |bytes| + 5
            && Number(QuintsOf(e), 32) == Number(bytes, 256) * Pow2(5 * |e| - 8 * |bytes|)
  {
    var e, data, pad := Encoded(bytes), Bits(bytes, 8), Padding(8 * |bytes|);
    EncodedIsClean(bytes);
    BitsOfQuints(bytes);
    assert Pow2(5) == 32 && Pow2(8) == 256;
    ValueOfBits(QuintsOf(e), 5);
    ValueOfBits(bytes, 8);
    ValueConcat(data, Zeros(pad));
    ValueOfZeros(pad);
    assert |Bits(QuintsOf(e), 5)| == 5 * |e|;
  }

  /** The bytes of a text are the number that its letters say, without the bits that fill no byte. */
  lemma DecodedValue(s: string)
    requires AllLetters(s)
    ensures Spelling(s).Some?
    ensures var bytes := Spelling(s).value;
            && 8 * |bytes| <= 5 * |s| < 8 * |bytes| + 8
            && Number(bytes, 256) == Number(QuintsOf(s), 32) / Pow2(5 * |s| - 8 * |bytes|)
  {
    var q, bytes := QuintsOf(s), Spelling(s).value;
    assert Pow2(5) == 32 && Pow2(8) == 256;
    var rest := BitsLeft(s);
    ValueOfBits(q, 5);
    ValueOfBits(bytes, 8);
    ValueBound(rest);
    QuotientIs(Value(Bits(q, 5)), Value(Bits(bytes, 8)), Pow2(|rest|), Value(rest));
  }

  lemma BitsLeft(s: string) returns (rest: seq<bool>)
    requires AllLetters(s)
    ensures Spelling(s).Some? && |rest| < 8
    ensures Bits(QuintsOf(s), 5) == Bits(Spelling(s).value, 8) + rest
    ensures Value(Bits(QuintsOf(s), 5)) == Value(Bits(Spelling(s).value, 8)) * Pow2(|rest|) + Value(rest)
  {
    var bits, data := Bits(QuintsOf(s), 5), Bits(Spelling(s).value, 8);
    assert Pow2(8) == 256;
    BitsOfGroups(bits, 8);
    rest := bits[|data|..];
    assert bits == data + rest;
    ValueConcat(data, rest);
  }
}
