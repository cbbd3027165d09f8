/** Bytes, powers of two and 32-bit words, as numbers. */
module Words {

  type byte = x: int | 0 <= x < 256

  const TWO_32: nat := 0x1_0000_0000

  function Pow2(k: nat): (p: nat)
    ensures p > 0
  {
    if k == 0 then 1 else 2 * Pow2(k - 1)
  }

  lemma HalfOfWrapped(v: nat, p: nat)
    requires p > 0
    ensures (v % (2 * p)) / 2 == (v / 2) % p && (v % (2 * p)) % 2 == v % 2
  {
    var q, r := v / (2 * p), v % (2 * p);
    assert v == 2 * (p * q) + r by { assert v == (2 * p) * q + r; }
    assert v / 2 == p * q + r / 2;
    assert 0 <= r / 2 < p;
    ModUnique(v / 2, p, q, r / 2);
  }

  lemma MulAway(p: int, d: int)
    requires p > 0
    ensures d >= 1 ==> p * d >= p
    ensures d <= -1 ==> p * d <= -p
  {
  }

  lemma ModUnique(x: nat, p: nat, q: nat, r: nat)
    requires p > 0 && x == p * q + r && r < p
    ensures x % p == r && x / p == q
  {
    var q', r' := x / p, x % p;
    var d := q' - q;
    assert x == p * q' + r';
    assert p * d == p * q' - p * q;
    MulAway(p, d);
  }

  lemma Pow2At32()
    ensures Pow2(32) == TWO_32
  {
    Powers();
  }

  lemma Powers()
    ensures Pow2(8) == 0x100 && Pow2(16) == 0x1_0000 && Pow2(24) == 0x100_0000
    ensures Pow2(31) == 0x8000_0000 && Pow2(32) == TWO_32
  {
    assert Pow2(12) == 0x1000;
    assert Pow2(20) == 0x10_0000;
    assert Pow2(28) == 0x1000_0000;
  }

  /** Bitwise AND of the n low bits. */
  function And(a: nat, b: nat, n: nat): nat {
    if n == 0 then 0
    else 2 * And(a / 2, b / 2, n - 1) + (if a % 2 == 1 && b % 2 == 1 then 1 else 0)
  }

  lemma {:induction false} AndAllOnes(a: nat, n: nat)
    requires a < Pow2(n)
    ensures And(a, Pow2(n) - 1, n) == a
  {
    if n > 0 {
      AndAllOnes(a / 2, n - 1);
      assert (Pow2(n) - 1) / 2 == Pow2(n - 1) - 1;
    }
  }

  /** A mask of high bits clears the k low ones. */
  lemma {:induction false} AndHighMask(a: nat, k: nat, n: nat)
    requires k <= n && a < Pow2(n) && Pow2(k) <= Pow2(n)
    ensures And(a, Pow2(n) - Pow2(k), n) == a - a % Pow2(k)
  {
    if k == 0 {
      AndAllOnes(a, n);
    } else {
      var p := Pow2(k - 1);
      AndHighMask(a / 2, k - 1, n - 1);
      assert (Pow2(n) - Pow2(k)) / 2 == Pow2(n - 1) - p && (Pow2(n) - Pow2(k)) % 2 == 0;
      HalfOfWrapped(a, p);
      assert a % (2 * p) == 2 * ((a / 2) % p) + a % 2;
    }
  }

  lemma {:induction false} Pow2Grows(k: nat, n: nat)
    requires k <= n
    ensures Pow2(k) <= Pow2(n)
  {
    if k < n {
      Pow2Grows(k, n - 1);
    }
  }

  // ---------- 32-bit operators of JavaScript ----------

  function ToUint32(x: int): (u: nat)
    ensures u < TWO_32
  {
    x % TWO_32
  }

  function ToInt32(x: int): (i: int)
    ensures -0x8000_0000 <= i < 0x8000_0000
    ensures ToUint32(i) == ToUint32(x)
  {
    var u := x % TWO_32;
    if u >= 0x8000_0000 then u - TWO_32 else u
  }

  /** `x << k`, for k below 32 */
  function Shl(x: int, k: nat): int
    requires k < 32
  {
    ToInt32(ToInt32(x) * Pow2(k))
  }

  /** `~x` */
  function Not(x: int): int {
    -ToInt32(x) - 1
  }

  /** `a & b` */
  function BitAnd(a: int, b: int): int {
    ToInt32(And(ToUint32(a), ToUint32(b), 32))
  }
}
