/**
  One-time codes of `lib/totp.ts`: the truncation of section 5.3 of RFC 4226 and the clock window
  of RFC 6238. The keyed hash is a parameter that yields 20 bytes.
*/
module Totp {
  import opened Text
  import opened Base32
  import opened Words

  const STEP_SECONDS: nat := 30
  const DIGITS: nat := 6

  type Hash = (seq<byte>, nat) -> seq<byte>

  ghost predicate IsSha1(hmac: Hash) {
    forall key, counter :: |hmac(key, counter)| == 20
  }

  /** `padStart(width, "0")` */
  function PadStart(s: string, width: nat): string {
    if |s| < width then seq(width - |s|, _ => '0') + s else s
  }

  // ---------- truncation ----------

  /** The big-endian value of four bytes. */
  function Word(b: seq<byte>): nat
    requires |b| == 4
  {
    var x0: nat, x1: nat, x2: nat, x3: nat := b[0], b[1], b[2], b[3];
    ((x0 * 256 + x1) * 256 + x2) * 256 + x3
  }

  /** The 31 bits of the hash that its last nibble points at. */
  function Truncated(hash: seq<byte>): nat
    requires |hash| == 20
  {
    var offset := hash[19] % 16;
    Word(hash[offset..offset + 4]) % 0x8000_0000
  }

  function Code(hash: seq<byte>, digits: nat): string
    requires |hash| == 20
  {
    PadStart(Numeral(Truncated(hash) % Pow10(digits)), digits)
  }

  /** `|` of two numbers that have no bit in common, the second below 2^k and the first a multiple of it. */
  function Or(a: nat, k: nat, b: nat): (r: nat)
    requires a % Pow2(k) == 0 && b < Pow2(k)
  {
    a + b
  }

  /** Masking the top byte with 0x7f keeps 31 bits of the word. */
  lemma LowWord(top: byte, b: byte, c: byte, d: byte)
    ensures Word([top, b, c, d]) % 0x8000_0000
         == (top as int % 128) * 0x100_0000 + b as int * 0x1_0000 + c as int * 0x100 + d as int
  {
    var t: int := top;
    assert t == 128 * (t / 128) + t % 128;
  }

  /** The last nibble points at four bytes, which are read as one number without its sign bit. */
  lemma TruncatedIs(hash: seq<byte>, k: nat)
    requires |hash| == 20 && k < 16 && hash[19] % 16 == k
    ensures Truncated(hash) == (hash[k] as int % 128) * 0x100_0000 + hash[k + 1] as int * 0x1_0000
                               + hash[k + 2] as int * 0x100 + hash[k + 3] as int
  {
    LowWord(hash[k], hash[k + 1], hash[k + 2], hash[k + 3]);
    assert hash[k..k + 4] == [hash[k], hash[k + 1], hash[k + 2], hash[k + 3]];
  }

  /** The hash of the example in section 5.4 of RFC 4226. */
  const EXAMPLE: seq<byte> := [
    0x1f, 0x86, 0x98, 0x69, 0x0e, 0x02, 0xca, 0x16, 0x61, 0x85,
    0x50, 0xef, 0x7f, 0x19, 0xda, 0x8e, 0x94, 0x5b, 0x55, 0x5a
  ]

  /** The example gives the value and the code that section 5.4 of RFC 4226 states. */
  lemma ExampleCode()
    ensures |EXAMPLE| == 20 && Truncated(EXAMPLE) == 0x50ef7f19 && Code(EXAMPLE, 6) == "872921"
  {
    TruncatedIs(EXAMPLE, 10);
    assert Pow10(6) == 1000000 && 0x50ef7f19 % 1000000 == 872921;
    assert Numeral(87) == "87" && Numeral(872) == "872" && Numeral(8729) == "8729" && Numeral(87292) == "87292";
    assert Numeral(872921) == "872921";
  }

  method Hotp(hmac: Hash, key: seq<byte>, counter: nat, digits: nat) returns (r: string)
    requires IsSha1(hmac)
    ensures r == Code(hmac(key, counter), digits)
  {
    var h := hmac(key, counter);
    var offset := h[|h| - 1] % 16;
    Powers();
    var top: nat, b: nat, c: nat, d: nat := h[offset], h[offset + 1], h[offset + 2], h[offset + 3];
    var a := top % 128;
    var bin := Or(Or(Or(a * 0x100_0000, 24, b * 0x1_0000), 16, c * 0x100), 8, d);
    assert h[offset..offset + 4] == [top, b, c, d];
    LowWord(top, b, c, d);
    r := PadStart(Numeral(bin % Pow10(digits)), digits);
  }

  lemma {:induction false} ZerosAreNothing(z: nat, s: string)
    requires forall i :: 0 <= i < |s| ==> IsDigit(s[i])
    ensures var t := seq(z, _ => '0') + s;
            (forall i :: 0 <= i < |t| ==> IsDigit(t[i])) && NumeralValue(t) == NumeralValue(s)
    decreases z + |s|
  {
    var t := seq(z, _ => '0') + s;
    if s != [] {
      assert t[..|t| - 1] == seq(z, _ => '0') + s[..|s| - 1];
      ZerosAreNothing(z, s[..|s| - 1]);
    } else if z > 0 {
      assert t == seq(z, _ => '0');
      assert t[..z - 1] == seq(z - 1, _ => '0') + s;
      ZerosAreNothing(z - 1, s);
    }
  }

  /** A code has exactly the wanted number of digits, and they spell the truncated hash modulo a power of ten. */
  lemma CodeSpells(hash: seq<byte>, digits: nat)
    requires |hash| == 20 && digits > 0
    ensures var c := Code(hash, digits);
            && |c| == digits
            && (forall i :: 0 <= i < |c| ==> IsDigit(c[i]))
            && NumeralValue(c) == Truncated(hash) % Pow10(digits)
  {
    var n := Truncated(hash) % Pow10(digits);
    NumeralLength(n, digits);
    NumeralRoundTrip(n);
    ZerosAreNothing(digits - |Numeral(n)|, Numeral(n));
    assert seq(0, _ => '0') + Numeral(n) == Numeral(n);
  }

  /** So two hashes give the same code exactly when they agree modulo that power. */
  lemma CodesAgree(g: seq<byte>, h: seq<byte>, digits: nat)
    requires |g| == |h| == 20 && digits > 0
    ensures Code(g, digits) == Code(h, digits) <==> Truncated(g) % Pow10(digits) == Truncated(h) % Pow10(digits)
  {
    CodeSpells(g, digits);
    CodeSpells(h, digits);
  }

  // ---------- the clock window ----------

  datatype Verdict = Accepted | Refused | InvalidSecret | CounterOutOfRange

  /** `Math.floor(timeMs / 1000 / step)` */
  function CounterAt(timeMs: int): int {
    timeMs / (1000 * STEP_SECONDS)
  }

  predicate SixDigits(s: string) {
    |s| == DIGITS && forall i :: 0 <= i < |s| ==> IsDigit(s[i])
  }

  /** None of these time steps has the code. */
  ghost predicate NoneHas(hmac: Hash, key: seq<byte>, code: string, from: int, to: int)
    requires IsSha1(hmac) && from >= 0
  {
    forall step :: from <= step < to ==> Code(hmac(key, step), DIGITS) != code
  }

  /** The code is the one of some time step no further than the window from the current one. */
  ghost predicate InWindow(hmac: Hash, key: seq<byte>, code: string, window: int, now: int)
    requires IsSha1(hmac) && now - window >= 0
  {
    exists step :: now - window <= step <= now + window && Code(hmac(key, step), DIGITS) == code
  }

  lemma NoneHasMore(hmac: Hash, key: seq<byte>, code: string, from: int, to: int)
    requires IsSha1(hmac) && 0 <= from <= to && NoneHas(hmac, key, code, from, to)
    requires Code(hmac(key, to), DIGITS) != code
    ensures NoneHas(hmac, key, code, from, to + 1)
  {
  }

  lemma NoneInWindow(hmac: Hash, key: seq<byte>, code: string, window: int, now: int)
    requires IsSha1(hmac) && 0 <= window <= now && NoneHas(hmac, key, code, now - window, now + window + 1)
    ensures !InWindow(hmac, key, code, window, now)
  {
  }

  /** The steps are those of thirty seconds since the epoch. */
  lemma CounterIs(timeMs: int, n: int)
    ensures CounterAt(timeMs) == n <==> 30_000 * n <= timeMs < 30_000 * (n + 1)
  {
  }

  /**
    A code is in the window just when it is the code of a moment no further than the window away, and then
    it has six digits.
  */
  lemma InWindowIff(hmac: Hash, key: seq<byte>, code: string, window: nat, timeMs: nat)
    requires IsSha1(hmac) && CounterAt(timeMs) - window >= 0
    ensures InWindow(hmac, key, code, window, CounterAt(timeMs)) <==>
            exists t: nat :: timeMs - 30_000 * window <= t <= timeMs + 30_000 * window
                             && Code(hmac(key, t / 30_000), 6) == code
    ensures InWindow(hmac, key, code, window, CounterAt(timeMs)) ==> SixDigits(code) && |code| == 6
  {
    var now := CounterAt(timeMs);
    if InWindow(hmac, key, code, window, now) {
      var step :| now - window <= step <= now + window && Code(hmac(key, step), DIGITS) == code;
      var t := timeMs + 30_000 * (step - now);
      CounterShifts(timeMs, step - now);
      assert t / 30_000 == step;
      CodeSpells(hmac(key, step), 6);
    }
    if t: nat :| timeMs - 30_000 * window <= t <= timeMs + 30_000 * window && Code(hmac(key, t / 30_000), 6) == code {
      assert now - window <= t / 30_000 <= now + window;
    }
  }

  lemma CounterShifts(timeMs: int, i: int)
    ensures CounterAt(timeMs + i * (1000 * STEP_SECONDS)) == CounterAt(timeMs) + i
  {
  }

  method VerifyTotp(hmac: Hash, secret: string, code: string, window: int, timeMs: int) returns (v: Verdict)
    requires IsSha1(hmac)
    ensures var trimmed, key, now := NonSpaces(code), Decoded(secret), CounterAt(timeMs);
            if !SixDigits(trimmed) || window < 0 then v == Refused
            else if key.None? then v == InvalidSecret
            else if now - window < 0 then v == CounterOutOfRange
            else v == if InWindow(hmac, key.value, trimmed, window, now) then Accepted else Refused
  {
    var trimmed := NonSpaces(code);
    if !SixDigits(trimmed) {
      return Refused;
    }
    ghost var now := CounterAt(timeMs);
    var i := -window;
    while i <= window
      invariant -window <= i && (window >= 0 ==> i <= window + 1)
      invariant i > -window ==> Decoded(secret).Some? && now - window >= 0
      invariant i > -window ==> NoneHas(hmac, Decoded(secret).value, trimmed, now - window, now + i)
    {
      var key := DecodeBase32(secret);
      if key.None? {
        return InvalidSecret;
      }
      CounterShifts(timeMs, i);
      var counter := CounterAt(timeMs + i * (1000 * STEP_SECONDS));
      if counter < 0 {
        return CounterOutOfRange;
      }
      var candidate := Hotp(hmac, key.value, counter, DIGITS);
      if candidate == trimmed {
        return Accepted;
      }
      NoneHasMore(hmac, key.value, trimmed, now - window, now + i);
      i := i + 1;
    }
    if window >= 0 {
      NoneInWindow(hmac, Decoded(secret).value, trimmed, window, now);
    }
    v := Refused;
  }
}
