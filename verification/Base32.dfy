/**
  The base-32 codec of `lib/totp.ts` (section 6 of RFC 4648, without padding), with the bit buffer
  kept in a 32-bit integer that is never masked and wraps.
*/
module Base32 {
  import opened Text
  import opened Words

  type quint = x: int | 0 <= x < 32

  const ALPHABET: string := "ABCDEFGHIJKLMNOPQRSTUVWXYZ234567"

  /** The character at a place of the alphabet. */
  function Letter(x: quint): (c: char) {
    if x < 26 then 'A' + x as char else '2' + (x - 26) as char
  }

  lemma LettersSpellAlphabet()
    ensures seq(32, i requires 0 <= i < 32 => Letter(i)) == ALPHABET
  {
  }

  /** `BASE32.indexOf(c)`, with `None` for -1. */
  function QuintOf(c: char): Option<quint> {
    if 'A' <= c <= 'Z' then Some((c - 'A') as int)
    else if '2' <= c <= '7' then Some((c - '2') as int + 26)
    else None
  }

  lemma QuintOfLetter(x: quint)
    ensures QuintOf(Letter(x)) == Some(x)
  {
  }

  // ---------- 32-bit operators, on the unsigned value of the bit pattern ----------

  /** `(v << k) | low`, where `low` fits the k bits that the shift has cleared. */
  function ShiftIn(v: nat, k: nat, low: nat): nat {
    (v * Pow2(k) + low) % TWO_32
  }

  /** `v >>> k`: the k low bits are dropped. */
  function ShiftRight(v: nat, k: nat): nat {
    if k == 0 then v else ShiftRight(v / 2, k - 1)
  }

  // ---------- bits ----------

  /** The k low bits of v, most significant first. */
  function Low(v: nat, k: nat): (bits: seq<bool>)
    ensures |bits| == k
  {
    if k == 0 then [] else Low(v / 2, k - 1) + [v % 2 == 1]
  }

  function Value(bits: seq<bool>): nat {
    if bits == [] then 0 else 2 * Value(bits[..|bits| - 1]) + (if bits[|bits| - 1] then 1 else 0)
  }

  lemma {:induction false} ValueBound(bits: seq<bool>)
    ensures Value(bits) < Pow2(|bits|)
  {
    if bits != [] {
      ValueBound(bits[..|bits| - 1]);
    }
  }

  lemma {:induction false} LowOfValue(bits: seq<bool>)
    ensures Low(Value(bits), |bits|) == bits
  {
    if bits != [] {
      LowOfValue(bits[..|bits| - 1]);
    }
  }

  lemma {:induction false} ValueOfLow(v: nat, k: nat)
    requires v < Pow2(k)
    ensures Value(Low(v, k)) == v
  {
    if k > 0 {
      ValueOfLow(v / 2, k - 1);
      assert Low(v, k)[..k - 1] == Low(v / 2, k - 1);
    }
  }

  /** Shifting j bits in puts them behind the ones that were there. */
  lemma {:induction false} LowShifted(v: nat, k: nat, low: nat, j: nat)
    requires low < Pow2(j)
    ensures Low(v * Pow2(j) + low, k + j) == Low(v, k) + Low(low, j)
  {
    if j == 0 {
      assert Low(v, k) + [] == Low(v, k);
    } else {
      LowShifted(v, k, low / 2, j - 1);
      var w := v * Pow2(j - 1);
      assert v * Pow2(j) == 2 * w;
      assert (2 * w + low) / 2 == w + low / 2 && (2 * w + low) % 2 == low % 2;
      ConcatAssociates(Low(v, k), Low(low / 2, j - 1), [low % 2 == 1]);
    }
  }

  /** A wrap at m bits does not touch the low k of them. */
  lemma {:induction false} LowWraps(v: nat, k: nat, m: nat)
    requires k <= m
    ensures Low(v % Pow2(m), k) == Low(v, k)
  {
    if k > 0 {
      LowWraps(v / 2, k - 1, m - 1);
      HalfOfWrapped(v, Pow2(m - 1));
    }
  }

  /** The wrapping buffer keeps its low bits as long as there are at most 32 of them. */
  lemma LowShiftIn(v: nat, k: nat, low: nat, j: nat)
    requires low < Pow2(j) && k + j <= 32
    ensures Low(ShiftIn(v, j, low), k + j) == Low(v, k) + Low(low, j)
  {
    Pow2At32();
    var whole := v * Pow2(j) + low;
    LowWraps(whole, k + j, 32);
    LowShifted(v, k, low, j);
  }

  /** The high k of k + j bits, then the low j. */
  lemma {:induction false} LowSplits(v: nat, k: nat, j: nat)
    ensures Low(v, k + j) == Low(ShiftRight(v, j), k) + Low(v, j)
  {
    if j == 0 {
      assert Low(v, k) + [] == Low(v, k);
    } else {
      LowSplits(v / 2, k, j - 1);
      ConcatAssociates(Low(ShiftRight(v, j), k), Low(v / 2, j - 1), [v % 2 == 1]);
    }
  }

  // ---------- strings of bits ----------

  /** The bits of a sequence of w-bit numbers. */
  function Bits(xs: seq<nat>, w: nat): (bits: seq<bool>)
    ensures |bits| == w * |xs|
  {
    if xs == [] then [] else Bits(xs[..|xs| - 1], w) + Low(xs[|xs| - 1], w)
  }

  /** The whole w-bit numbers in a string of bits; a shorter rest is left out. */
  function Groups(bits: seq<bool>, w: nat): (xs: seq<nat>)
    requires w > 0
    ensures |xs| == |bits| / w
    ensures forall i :: 0 <= i < |xs| ==> xs[i] < Pow2(w)
  {
    if |bits| < w then []
    else
      ValueBound(bits[..w]);
      var xs := Groups(bits[w..], w);
      GroupCount(|bits|, w);
      [Value(bits[..w])] + xs
  }

  lemma GroupCount(n: nat, w: nat)
    requires w > 0 && n >= w
    ensures n / w == (n - w) / w + 1
  {
    var q, r := (n - w) / w, (n - w) % w;
    assert n == w * q + w + r;
    assert n == w * (q + 1) + r;
    ModUnique(n, w, q + 1, r);
  }

  lemma {:induction false} BitsConcat(a: seq<nat>, b: seq<nat>, w: nat)
    ensures Bits(a + b, w) == Bits(a, w) + Bits(b, w)
  {
    if b == [] {
      assert a + b == a;
      assert Bits(a, w) + [] == Bits(a, w);
    } else {
      assert (a + b)[..|a + b| - 1] == a + b[..|b| - 1];
      BitsConcat(a, b[..|b| - 1], w);
      ConcatAssociates(Bits(a, w), Bits(b[..|b| - 1], w), Low(b[|b| - 1], w));
    }
  }

  lemma BitsOfOne(x: nat, w: nat)
    ensures Bits([x], w) == Low(x, w)
  {
    assert [x][..0] == [];
    assert [] + Low(x, w) == Low(x, w);
  }

  /** Grouping undoes the bit string of numbers that fit, up to a rest that is too short. */
  lemma {:induction false} GroupsOfBits(xs: seq<nat>, w: nat, rest: seq<bool>)
    requires w > 0 && |rest| < w
    requires forall i :: 0 <= i < |xs| ==> xs[i] < Pow2(w)
    ensures Groups(Bits(xs, w) + rest, w) == xs
  {
    if xs == [] {
      assert [] + rest == rest;
    } else {
      var x, ys := xs[0], xs[1..];
      assert xs == [x] + ys;
      BitsConcat([x], ys, w);
      BitsOfOne(x, w);
      GroupsOfBits(ys, w, rest);
      var all := Bits(xs, w) + rest;
      ConcatAssociates(Low(x, w), Bits(ys, w), rest);
      assert all[..w] == Low(x, w) && all[w..] == Bits(ys, w) + rest;
      ValueOfLow(x, w);
    }
  }

  lemma BitsOfHead(head: seq<bool>, xs: seq<nat>, w: nat)
    requires |head| == w
    ensures Bits([Value(head)] + xs, w) == head + Bits(xs, w)
  {
    BitsConcat([Value(head)], xs, w);
    BitsOfOne(Value(head), w);
    LowOfValue(head);
  }

  /** ... and the bits of the groups are the bits that were grouped. */
  lemma {:induction false} BitsOfGroups(bits: seq<bool>, w: nat)
    requires w > 0
    ensures Bits(Groups(bits, w), w) <= bits
    ensures |bits| - |Bits(Groups(bits, w), w)| < w
  {
    if |bits| >= w {
      var head, tail := bits[..w], bits[w..];
      BitsOfGroups(tail, w);
      BitsOfHead(head, Groups(tail, w), w);
      assert bits == head + tail;
    }
  }

  // ---------- encoding ----------

  function Zeros(n: nat): seq<bool> {
    seq(n, _ => false)
  }

  function Padding(n: nat): (p: nat)
    ensures p < 5 && (n + p) % 5 == 0
  {
    assert n == 5 * (n / 5) + n % 5;
    if n % 5 == 0 then 0 else 5 - n % 5
  }

  /** The five-bit groups of the data, the last one filled up with zeros. */
  function Quints(bytes: seq<byte>): seq<nat> {
    var bits := Bits(bytes, 8);
    Groups(bits + Zeros(Padding(|bits|)), 5)
  }

  function Letters(xs: seq<nat>): (s: string)
    requires forall i :: 0 <= i < |xs| ==> xs[i] < 32
    ensures |s| == |xs|
  {
    seq(|xs|, i requires 0 <= i < |xs| => Letter(xs[i]))
  }

  lemma QuintsFit(bytes: seq<byte>)
    ensures forall i :: 0 <= i < |Quints(bytes)| ==> Quints(bytes)[i] < 32
  {
    assert Pow2(5) == 32;
  }

  /** The encoding that section 6 of RFC 4648 prescribes, without padding characters. */
  function Encoded(bytes: seq<byte>): string {
    QuintsFit(bytes);
    Letters(Quints(bytes))
  }

  /** Numbers and a short rest that spell the bits are the groups of the bits. */
  lemma GroupsAre(xs: seq<nat>, w: nat, rest: seq<bool>, bits: seq<bool>)
    requires w > 0 && |rest| < w && Bits(xs, w) + rest == bits
    requires forall i :: 0 <= i < |xs| ==> xs[i] < Pow2(w)
    ensures Groups(bits, w) == xs
  {
    GroupsOfBits(xs, w, rest);
  }

  lemma LowOfZero(k: nat)
    ensures Low(0, k) == Zeros(k)
  {
    if k > 0 {
      LowOfZero(k - 1);
    }
  }

  /** Taking the five high bits out of the buffer. */
  lemma TakeQuint(v: nat, bits: nat)
    requires bits >= 5
    ensures Low(v, bits) == Low(ShiftRight(v, bits - 5) % 32, 5) + Low(v, bits - 5)
  {
    LowSplits(v, 5, bits - 5);
    assert Pow2(5) == 32;
    LowWraps(ShiftRight(v, bits - 5), 5, 5);
  }

  lemma BitsSnoc(xs: seq<nat>, x: nat, w: nat)
    ensures Bits(xs + [x], w) == Bits(xs, w) + Low(x, w)
  {
    assert (xs + [x])[..|xs|] == xs;
  }

  lemma LettersSnoc(xs: seq<nat>, x: nat)
    requires x < 32 && forall i :: 0 <= i < |xs| ==> xs[i] < 32
    ensures Letters(xs + [x]) == Letters(xs) + [Letter(x)]
  {
  }

  /** The letters written so far and the bits still in the buffer spell the data. */
  ghost predicate Spelled(out: string, xs: seq<nat>, value: nat, bits: nat, data: seq<bool>) {
    && (forall i :: 0 <= i < |xs| ==> xs[i] < 32)
    && out == Letters(xs)
    && data == Bits(xs, 5) + Low(value, bits)
  }

  lemma SpelledLess(out: string, xs: seq<nat>, value: nat, bits: nat, data: seq<bool>)
    requires bits >= 5 && Spelled(out, xs, value, bits, data)
    ensures var digit := ShiftRight(value, bits - 5) % 32;
            Spelled(out + [Letter(digit)], xs + [digit], value, bits - 5, data)
  {
    var digit := ShiftRight(value, bits - 5) % 32;
    TakeQuint(value, bits);
    ConcatAssociates(Bits(xs, 5), Low(digit, 5), Low(value, bits - 5));
    BitsSnoc(xs, digit, 5);
    LettersSnoc(xs, digit);
  }

  /** The inner loop: write letters while the buffer holds five bits. */
  method Drain(out: string, value: nat, bits: nat, ghost xs: seq<nat>, ghost data: seq<bool>)
    returns (out': string, bits': nat, ghost xs': seq<nat>)
    requires Spelled(out, xs, value, bits, data)
    ensures bits' < 5 && Spelled(out', xs', value, bits', data)
  {
    out', bits', xs' := out, bits, xs;
    while bits' >= 5
      invariant Spelled(out', xs', value, bits', data)
    {
      var digit := ShiftRight(value, bits' - 5) % 32;
      SpelledLess(out', xs', value, bits', data);
      out' := out' + [Letter(digit)];
      xs' := xs' + [digit];
      bits' := bits' - 5;
    }
  }

  lemma SpelledMore(out: string, xs: seq<nat>, value: nat, bits: nat, bytes: seq<byte>, b: byte)
    requires bits < 5 && Spelled(out, xs, value, bits, Bits(bytes, 8))
    ensures Spelled(out, xs, ShiftIn(value, 8, b), bits + 8, Bits(bytes + [b], 8))
  {
    assert Pow2(8) == 256;
    LowShiftIn(value, bits, b, 8);
    BitsSnoc(bytes, b, 8);
    ConcatAssociates(Bits(xs, 5), Low(value, bits), Low(b, 8));
  }

  lemma PaddingIs(n: nat, whole: nat, bits: nat)
    requires n == 5 * whole + bits && bits < 5
    ensures Padding(n) == if bits > 0 then 5 - bits else 0
  {
  }

  lemma QuintsAre(xs: seq<nat>, bytes: seq<byte>)
    requires forall i :: 0 <= i < |xs| ==> xs[i] < 32
    requires Bits(xs, 5) == Bits(bytes, 8) + Zeros(Padding(|Bits(bytes, 8)|))
    ensures Quints(bytes) == xs
  {
    assert Pow2(5) == 32;
    assert Bits(xs, 5) + [] == Bits(xs, 5);
    GroupsAre(xs, 5, [], Bits(xs, 5));
  }

  /** What is left in the buffer makes the last, padded letter. */
  lemma SpelledAll(out: string, xs: seq<nat>, value: nat, bits: nat, bytes: seq<byte>)
    requires bits < 5 && Spelled(out, xs, value, bits, Bits(bytes, 8))
    ensures Encoded(bytes) ==
            if bits > 0 then out + [Letter(ShiftIn(value, 5 - bits, 0) % 32)] else out
  {
    var data := Bits(bytes, 8);
    PaddingIs(|data|, |xs|, bits);
    if bits > 0 {
      var digit := ShiftIn(value, 5 - bits, 0) % 32;
      LastQuint(value, bits);
      BitsSnoc(xs, digit, 5);
      ConcatAssociates(Bits(xs, 5), Low(value, bits), Zeros(5 - bits));
      LettersSnoc(xs, digit);
      QuintsAre(xs + [digit], bytes);
    } else {
      QuintsAre(xs, bytes);
    }
  }

  /** The body of the outer loop: shift a byte in, then drain. */
  method PushByte(out: string, value: nat, bits: nat, b: byte, ghost xs: seq<nat>, ghost bytes: seq<byte>)
    returns (out': string, value': nat, bits': nat, ghost xs': seq<nat>)
    requires bits < 5 && Spelled(out, xs, value, bits, Bits(bytes, 8))
    ensures bits' < 5 && Spelled(out', xs', value', bits', Bits(bytes + [b], 8))
  {
    SpelledMore(out, xs, value, bits, bytes, b);
    value' := ShiftIn(value, 8, b);
    out', bits', xs' := Drain(out, value', bits + 8, xs, Bits(bytes + [b], 8));
  }

  method EncodeBase32(bytes: seq<byte>) returns (out: string)
    ensures out == Encoded(bytes)
  {
    var bits: nat := 0;
    var value: nat := 0;
    ghost var xs: seq<nat> := [];
    out := "";
    for n := 0 to |bytes|
      invariant bits < 5
      invariant Spelled(out, xs, value, bits, Bits(bytes[..n], 8))
    {
      out, value, bits, xs := PushByte(out, value, bits, bytes[n], xs, bytes[..n]);
      assert bytes[..n + 1] == bytes[..n] + [bytes[n]];
    }
    assert bytes[..|bytes|] == bytes;
    SpelledAll(out, xs, value, bits, bytes);
    if bits > 0 {
      out := out + [Letter(ShiftIn(value, 5 - bits, 0) % 32)];
    }
  }

  /** The last group is filled up with zeros. */
  lemma LastQuint(v: nat, bits: nat)
    requires 0 < bits < 5
    ensures Low(ShiftIn(v, 5 - bits, 0) % 32, 5) == Low(v, bits) + Zeros(5 - bits)
  {
    LowShiftIn(v, bits, 0, 5 - bits);
    LowOfZero(5 - bits);
    assert Pow2(5) == 32;
    LowWraps(ShiftIn(v, 5 - bits, 0), 5, 5);
  }

  // ---------- decoding ----------

  /** `toUpperCase` on one character, where the result can hold a letter of the alphabet. */
  function UpperChar(c: char): string {
    if 'a' <= c <= 'z' then [c - 'a' + 'A']
    else if c == '\U{131}' then "I"
    else if c == '\U{17F}' then "S"
    else if c == '\U{DF}' then "SS"
    else if c == '\U{FB00}' then "FF"
    else if c == '\U{FB01}' then "FI"
    else if c == '\U{FB02}' then "FL"
    else if c == '\U{FB03}' then "FFI"
    else if c == '\U{FB04}' then "FFL"
    else if c == '\U{FB05}' || c == '\U{FB06}' then "ST"
    else [c]
  }

  function Upper(s: string): string {
    if s == [] then [] else UpperChar(s[0]) + Upper(s[1..])
  }

  function StripEquals(s: string): string {
    if s != [] && s[|s| - 1] == '=' then StripEquals(s[..|s| - 1]) else s
  }

  function DropSeparators(s: string): string {
    if s == [] then []
    else if IsSpace(s[0]) || s[0] == '-' then DropSeparators(s[1..])
    else [s[0]] + DropSeparators(s[1..])
  }

  function Cleaned(input: string): string {
    DropSeparators(StripEquals(Upper(input)))
  }

  predicate AllLetters(s: string) {
    forall i :: 0 <= i < |s| ==> QuintOf(s[i]).Some?
  }

  function QuintsOf(s: string): (xs: seq<nat>)
    requires AllLetters(s)
    ensures |xs| == |s| && forall i :: 0 <= i < |xs| ==> xs[i] < 32
  {
    seq(|s|, i requires 0 <= i < |s| => QuintOf(s[i]).value)
  }

  /** The whole bytes that a string of letters spells; `None` where the code throws. */
  function Spelling(s: string): Option<seq<byte>> {
    if AllLetters(s) then
      assert Pow2(8) == 256;
      Some(Groups(Bits(QuintsOf(s), 5), 8))
    else None
  }

  function Decoded(input: string): Option<seq<byte>> {
    Spelling(Cleaned(input))
  }

  /** The bytes written so far and the bits still in the buffer are the letters read so far. */
  ghost predicate Read(out: seq<byte>, value: nat, bits: nat, s: string) {
    AllLetters(s) && Bits(QuintsOf(s), 5) == Bits(out, 8) + Low(value, bits)
  }

  lemma TakeByte(v: nat, bits: nat)
    requires bits >= 8
    ensures Low(v, bits) == Low(ShiftRight(v, bits - 8) % 256, 8) + Low(v, bits - 8)
  {
    LowSplits(v, 8, bits - 8);
    assert Pow2(8) == 256;
    LowWraps(ShiftRight(v, bits - 8), 8, 8);
  }

  lemma ReadLetter(out: seq<byte>, value: nat, bits: nat, s: string, c: char)
    requires bits < 8 && Read(out, value, bits, s) && QuintOf(c).Some?
    ensures Read(out, ShiftIn(value, 5, QuintOf(c).value), bits + 5, s + [c])
  {
    var idx := QuintOf(c).value;
    assert Pow2(5) == 32;
    LowShiftIn(value, bits, idx, 5);
    assert QuintsOf(s + [c]) == QuintsOf(s) + [idx];
    BitsSnoc(QuintsOf(s), idx, 5);
    ConcatAssociates(Bits(out, 8), Low(value, bits), Low(idx, 5));
  }

  lemma ReadByte(out: seq<byte>, value: nat, bits: nat, s: string)
    requires bits >= 8 && Read(out, value, bits, s)
    ensures Read(out + [ShiftRight(value, bits - 8) % 256], value, bits - 8, s)
  {
    var b := ShiftRight(value, bits - 8) % 256;
    TakeByte(value, bits);
    ConcatAssociates(Bits(out, 8), Low(b, 8), Low(value, bits - 8));
    BitsSnoc(out, b, 8);
  }

  method PushLetter(out: seq<byte>, value: nat, bits: nat, idx: quint, ghost s: string, ghost c: char)
    returns (out': seq<byte>, value': nat, bits': nat)
    requires bits < 8 && Read(out, value, bits, s) && QuintOf(c) == Some(idx)
    ensures bits' < 8 && Read(out', value', bits', s + [c])
  {
    ReadLetter(out, value, bits, s, c);
    out', value', bits' := out, ShiftIn(value, 5, idx), bits + 5;
    if bits' >= 8 {
      ReadByte(out, value', bits', s + [c]);
      out', bits' := out + [ShiftRight(value', bits' - 8) % 256], bits' - 8;
    }
  }

  method DecodeBase32(input: string) returns (r: Option<seq<byte>>)
    ensures r == Decoded(input)
  {
    var cleaned := Cleaned(input);
    var bits: nat := 0;
    var value: nat := 0;
    var out: seq<byte> := [];
    for n := 0 to |cleaned|
      invariant bits < 8 && Read(out, value, bits, cleaned[..n])
    {
      assert cleaned[..n + 1] == cleaned[..n] + [cleaned[n]];
      var idx := QuintOf(cleaned[n]);
      if idx.None? {
        return None;
      }
      out, value, bits := PushLetter(out, value, bits, idx.value, cleaned[..n], cleaned[n]);
    }
    assert cleaned[..|cleaned|] == cleaned;
    ReadIsSpelling(out, value, bits, cleaned);
    r := Some(out);
  }

  /** When all letters are read, the bytes written are those that they spell. */
  lemma ReadIsSpelling(out: seq<byte>, value: nat, bits: nat, s: string)
    requires bits < 8 && Read(out, value, bits, s)
    ensures Spelling(s) == Some(out)
  {
    assert Pow2(8) == 256;
    GroupsAre(out, 8, Low(value, bits), Bits(QuintsOf(s), 5));
  }

  // ---------- round trips ----------

  lemma EncodedIsClean(bytes: seq<byte>)
    ensures var e := Encoded(bytes); AllLetters(e) && QuintsOf(e) == Quints(bytes)
  {
    QuintsFit(bytes);
    var xs, e := Quints(bytes), Encoded(bytes);
    forall i | 0 <= i < |e|
      ensures QuintOf(e[i]) == Some(xs[i])
    {
      QuintOfLetter(xs[i]);
    }
  }

  lemma WholeBits(part: seq<bool>, whole: seq<bool>)
    requires part <= whole && |whole| - |part| < 5 && |part| % 5 == 0 && |whole| % 5 == 0
    ensures part == whole
  {
  }

  lemma BitsOfQuints(bytes: seq<byte>)
    ensures Bits(Quints(bytes), 5) == Bits(bytes, 8) + Zeros(Padding(|Bits(bytes, 8)|))
  {
    var bits := Bits(bytes, 8);
    var padded := bits + Zeros(Padding(|bits|));
    BitsOfGroups(padded, 5);
    WholeBits(Bits(Groups(padded, 5), 5), padded);
  }

  /** A byte takes up eight fifths of a letter, rounded up over the whole string. */
  lemma EncodedLength(bytes: seq<byte>)
    ensures |Encoded(bytes)| == (8 * |bytes| + 4) / 5
  {
    BitsOfQuints(bytes);
  }

  /** Letters decode to the bytes they were encoded from. */
  lemma SpellingOfEncoded(bytes: seq<byte>)
    ensures Spelling(Encoded(bytes)) == Some(bytes)
  {
    EncodedIsClean(bytes);
    BitsOfQuints(bytes);
    assert Pow2(8) == 256;
    GroupsOfBits(bytes, 8, Zeros(Padding(|Bits(bytes, 8)|)));
  }

  // ---------- what cleaning forgives ----------

  predicate IsSeparator(c: char) {
    IsSpace(c) || c == '-'
  }

  /** The character is the letter or its lower-case form, or one of the two that are written as it in upper case. */
  predicate SpellsLetter(c: char, letter: char) {
    || c == letter
    || ('A' <= letter <= 'Z' && c == letter - 'A' + 'a')
    || (c == '\U{131}' && letter == 'I')
    || (c == '\U{17F}' && letter == 'S')
  }

  /** Letters in either case, with separators between them. */
  ghost predicate Loosely(s: string, e: string) {
    if s == [] then e == []
    else if IsSeparator(s[0]) then Loosely(s[1..], e)
    else e != [] && SpellsLetter(s[0], e[0]) && Loosely(s[1..], e[1..])
  }

  lemma SpelledUpper(c: char, letter: char)
    requires SpellsLetter(c, letter) && QuintOf(letter).Some?
    ensures UpperChar(c) == [letter] && !IsSeparator(letter) && letter != '='
  {
  }

  lemma SeparatorUpper(c: char)
    requires IsSeparator(c)
    ensures UpperChar(c) == [c] && c != '='
  {
  }

  lemma DropOne(c: char, s: string)
    ensures DropSeparators([c] + s) == (if IsSeparator(c) then [] else [c]) + DropSeparators(s)
  {
    assert ([c] + s)[1..] == s;
  }

  lemma {:induction false} UpperLoosely(s: string, e: string)
    requires Loosely(s, e) && AllLetters(e)
    ensures DropSeparators(Upper(s)) == e
    ensures '=' !in Upper(s)
  {
    if s != [] {
      if IsSeparator(s[0]) {
        SeparatorUpper(s[0]);
        UpperLoosely(s[1..], e);
        DropOne(s[0], Upper(s[1..]));
      } else {
        assert QuintOf(e[0]).Some?;
        SpelledUpper(s[0], e[0]);
        UpperLoosely(s[1..], e[1..]);
        DropOne(e[0], Upper(s[1..]));
        assert e == [e[0]] + e[1..];
      }
    }
  }

  function Equals(n: nat): string {
    seq(n, _ => '=')
  }

  lemma {:induction false} UpperConcat(a: string, b: string)
    ensures Upper(a + b) == Upper(a) + Upper(b)
  {
    if a == [] {
      assert a + b == b;
    } else {
      assert (a + b)[1..] == a[1..] + b;
      UpperConcat(a[1..], b);
      ConcatAssociates(UpperChar(a[0]), Upper(a[1..]), Upper(b));
    }
  }

  lemma {:induction false} UpperEquals(n: nat)
    ensures Upper(Equals(n)) == Equals(n)
  {
    if n > 0 {
      assert Equals(n)[1..] == Equals(n - 1);
      UpperEquals(n - 1);
    }
  }

  lemma {:induction false} StripEqualsPads(s: string, n: nat)
    requires '=' !in s
    ensures StripEquals(s + Equals(n)) == s
  {
    if n == 0 {
      assert s + Equals(0) == s;
    } else {
      assert (s + Equals(n))[..|s| + n - 1] == s + Equals(n - 1);
      StripEqualsPads(s, n - 1);
    }
  }

  /**
    Every byte string survives the round trip, however its encoding is spelled: in lower case, cut
    by spaces or hyphens, padded with any number of '='.
  */
  lemma RoundTrip(bytes: seq<byte>, s: string, pad: nat)
    requires Loosely(s, Encoded(bytes))
    ensures Decoded(s + Equals(pad)) == Some(bytes)
  {
    EncodedIsClean(bytes);
    UpperLoosely(s, Encoded(bytes));
    UpperConcat(s, Equals(pad));
    UpperEquals(pad);
    StripEqualsPads(Upper(s), pad);
    SpellingOfEncoded(bytes);
  }

  lemma {:induction false} LooselyItself(e: string)
    requires AllLetters(e)
    ensures Loosely(e, e)
  {
    if e != [] {
      assert QuintOf(e[0]).Some?;
      LooselyItself(e[1..]);
    }
  }

  lemma RoundTripExact(bytes: seq<byte>)
    ensures Decoded(Encoded(bytes)) == Some(bytes)
  {
    EncodedIsClean(bytes);
    LooselyItself(Encoded(bytes));
    RoundTrip(bytes, Encoded(bytes), 0);
    assert Encoded(bytes) + Equals(0) == Encoded(bytes);
  }

  /** The bits that decoding drops are fewer than a letter's, and zero. */
  ghost predicate Canonical(s: string)
    requires AllLetters(s)
  {
    var bits := Bits(QuintsOf(s), 5);
    var used := 8 * (|bits| / 8);
    |bits| - used < 5 && bits[used..] == Zeros(|bits| - used)
  }

  lemma LettersOfQuints(s: string)
    requires AllLetters(s)
    ensures Letters(QuintsOf(s)) == s
  {
  }

  lemma PaddingFills(n: nat, r: nat, whole: nat)
    requires r < 5 && n + r == 5 * whole
    ensures Padding(n) == r
  {
  }

  lemma CanonicalReencodes(q: seq<nat>, bytes: seq<byte>, rest: seq<bool>)
    requires forall i :: 0 <= i < |q| ==> q[i] < 32
    requires Bits(q, 5) == Bits(bytes, 8) + rest && |rest| < 5 && rest == Zeros(|rest|)
    ensures Quints(bytes) == q
  {
    PaddingFills(|Bits(bytes, 8)|, |rest|, |q|);
    QuintsAre(q, bytes);
  }

  /** Encoding undoes decoding on exactly the canonical spellings. */
  lemma ReencodeIff(s: string)
    requires AllLetters(s)
    ensures Encoded(Spelling(s).value) == s <==> Canonical(s)
  {
    var bytes, q := Spelling(s).value, QuintsOf(s);
    var bits, data := Bits(q, 5), Bits(bytes, 8);
    BitsOfGroups(bits, 8);
    var rest := bits[|data|..];
    assert bits == data + rest;
    BitsOfQuints(bytes);
    EncodedIsClean(bytes);
    LettersOfQuints(s);
    if Canonical(s) {
      CanonicalReencodes(q, bytes, rest);
    }
    if Encoded(bytes) == s {
      assert rest == Zeros(Padding(|data|));
    }
  }
}
