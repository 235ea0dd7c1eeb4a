/** Powers of two and the bit operations that the table code uses on unsigned integers. */
module PowersOfTwo {

  function Pow2(k: nat): (p: nat)
    ensures p > 0
  {
    if k == 0 then 1 else 2 * Pow2(k - 1)
  }

  ghost predicate IsPow2(n: nat) {
    exists k: nat :: Pow2(k) == n
  }

  /** Bitwise `x & y`. */
  function And(x: nat, y: nat): nat {
    if x == 0 || y == 0 then 0 else
      (if x % 2 == 1 && y % 2 == 1 then 1 else 0) + 2 * And(x / 2, y / 2)
  }

  /** Bitwise `x ^ y`. */
  function Xor(x: nat, y: nat): nat
    decreases x + y
  {
    if x == 0 then y else if y == 0 then x else (x + y) % 2 + 2 * Xor(x / 2, y / 2)
  }

  lemma DoublePow2(c: nat)
    requires IsPow2(c)
    ensures IsPow2(2 * c) && c > 0
  {
    var k: nat :| Pow2(k) == c;
    assert Pow2(k + 1) == 2 * c;
  }

  lemma HalfPow2(c: nat)
    requires IsPow2(c) && c > 1
    ensures c % 2 == 0 && IsPow2(c / 2)
  {
    var k: nat :| Pow2(k) == c;
    assert Pow2(k - 1) == c / 2;
  }

  lemma SmallPowers()
    ensures IsPow2(1) && IsPow2(8) && IsPow2(16) && IsPow2(32) && IsPow2(64) && IsPow2(1024)
  {
    assert Pow2(0) == 1 && Pow2(3) == 8 && Pow2(4) == 16 && Pow2(5) == 32 && Pow2(6) == 64 && Pow2(10) == 1024;
  }

  /** `usize::next_power_of_two`: the least power of two at or above `wanted`. */
  function NextPow2(wanted: nat): (p: nat)
    ensures IsPow2(p) && p >= wanted
    ensures forall q: nat :: IsPow2(q) && q >= wanted ==> p <= q
  {
    if wanted <= 1 then assert Pow2(0) == 1; 1 else
      var half := NextPow2((wanted + 1) / 2);
      DoublePow2(half);
      assert forall q: nat :: IsPow2(q) && q >= wanted ==> 2 * half <= q by {
        forall q: nat | IsPow2(q) && q >= wanted
          ensures 2 * half <= q
        {
          HalfPow2(q);
        }
      }
      2 * half
  }

  lemma {:induction false} Pow2Product(i: nat, j: nat)
    ensures Pow2(i + j) == Pow2(i) * Pow2(j)
  {
    if i > 0 {
      Pow2Product(i - 1, j);
    }
  }

  lemma {:induction false} Pow2Monotone(i: nat, j: nat)
    requires i <= j
    ensures Pow2(i) <= Pow2(j)
  {
    if i < j {
      Pow2Monotone(i, j - 1);
    }
  }

  /** Distinct powers of two are at least a factor of two apart. */
  lemma Pow2Gap(c: nat, d: nat)
    requires IsPow2(c) && IsPow2(d) && c < d
    ensures 2 * c <= d
  {
    var i: nat :| Pow2(i) == c;
    var j: nat :| Pow2(j) == d;
    if j <= i {
      Pow2Monotone(j, i);
    } else {
      Pow2Monotone(i + 1, j);
    }
  }

  lemma Pow2Divides(c: nat, d: nat) returns (k: nat)
    requires IsPow2(c) && IsPow2(d) && c <= d
    ensures d == k * c
  {
    var i: nat :| Pow2(i) == c;
    var j: nat :| Pow2(j) == d;
    if j < i {
      Pow2Monotone(j + 1, i);
      assert false;
    }
    Pow2Product(j - i, i);
    k := Pow2(j - i);
  }

  lemma ModUnique(x: int, m: int, q: int, r: int)
    requires 0 <= r < m && x == q * m + r
    ensures x % m == r && x / m == q
  {
    var d := x / m - q;
    assert d * m == r - x % m;
    assert d >= 1 ==> d * m >= m;
    assert d <= -1 ==> d * m <= -m;
  }

  lemma ModDouble(x: nat, d: nat)
    requires d > 0
    ensures x % (2 * d) == x % 2 + 2 * (x / 2 % d)
  {
    var q, r := DivMod(x / 2, d);
    assert x == q * (2 * d) + (2 * r + x % 2);
    ModUnique(x, 2 * d, q, 2 * r + x % 2);
  }

  /** Masking with one less than a power of two is the remainder. */
  lemma MaskIsMod(x: nat, c: nat)
    requires IsPow2(c)
    ensures c > 0 && And(x, c - 1) == x % c
  {
    var k: nat :| Pow2(k) == c;
    MaskIsModPow(x, k);
  }

  lemma {:induction false} MaskIsModPow(x: nat, k: nat)
    ensures And(x, Pow2(k) - 1) == x % Pow2(k)
  {
    if k > 0 {
      var d := Pow2(k - 1);
      assert Pow2(k) == 2 * d;
      MaskIsModPow(x / 2, k - 1);
      ModDouble(x, d);
      assert (2 * d - 1) % 2 == 1 && (2 * d - 1) / 2 == d - 1;
      if x == 0 {
        ModUnique(0, 2 * d, 0, 0);
      }
    }
  }

  /** The remainder by a power of two determines the one by each smaller power. */
  lemma ModRefines(x: nat, c: nat, d: nat)
    requires IsPow2(c) && IsPow2(d) && c <= d
    ensures x % d % c == x % c
  {
    var k := Pow2Divides(c, d);
    var q, r := DivMod(x, d);
    var p, t := DivMod(r, c);
    NestedRemainder(x, c, k, d, q, r, p, t);
    ModUnique(x, c, q * k + p, t);
  }

  lemma DivMod(x: int, m: int) returns (q: int, r: int)
    requires m > 0
    ensures x == q * m + r && 0 <= r < m && r == x % m
  {
    q, r := x / m, x % m;
  }

  lemma NestedRemainder(x: int, c: int, k: int, d: int, q: int, r: int, p: int, t: int)
    requires d == k * c && x == q * d + r && r == p * c + t
    ensures x == (q * k + p) * c + t
  {
    assert q * (k * c) == q * k * c;
    assert (q * k + p) * c == q * k * c + p * c;
  }
}
