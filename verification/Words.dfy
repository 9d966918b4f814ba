/** Wrapping 32-bit identifiers, and rings whose length is a power of two.

    An identifier that counts segments or fragments is a `u32` on the wire. Behind every such
    identifier stands an unbounded index; `Wire` keeps its low 32 bits and `Unwrap` recovers the
    index from a base that is at most one lap behind it. */
module Words {
  const LAP: int := 0x1_0000_0000

  type byte = bv8
  type u32 = x: int | 0 <= x < 0x1_0000_0000
  type u64 = x: int | 0 <= x < 0x1_0000_0000_0000_0000

  // ---- wrapping identifiers ----

  function WrapAdd(a: u32, b: u32): u32 {
    (a + b) % 0x1_0000_0000
  }

  function WrapSub(a: u32, b: u32): u32 {
    (a - b) % 0x1_0000_0000
  }

  /** The identifier under which an unbounded index travels: its low 32 bits. */
  function Wire(k: nat): u32 {
    if k < 0x1_0000_0000 then k else Wire(k - 0x1_0000_0000)
  }

  lemma {:induction false} WireIsMod(k: nat)
    ensures Wire(k) == k % 0x1_0000_0000
    decreases k
  {
    if k >= 0x1_0000_0000 {
      WireIsMod(k - 0x1_0000_0000);
    }
  }

  lemma {:induction false} Residue(a: int, q: int, r: int)
    requires 0 <= r < 0x1_0000_0000 && a == 0x1_0000_0000 * q + r
    ensures a % 0x1_0000_0000 == r && a / 0x1_0000_0000 == q
  {
  }

  /** The one index in [base, base + 2^32) which travels as `id`. */
  function Unwrap(base: nat, id: u32): nat {
    base + WrapSub(id, Wire(base))
  }

  lemma {:induction false} UnwrapWire(base: nat, id: u32)
    ensures base <= Unwrap(base, id) < base + LAP && Wire(Unwrap(base, id)) == id
    ensures Unwrap(base, id) == base <==> id == Wire(base)
  {
    WireIsMod(base);
    WireIsMod(Unwrap(base, id));
    var away := id - Wire(base);
    Residue(base + away % 0x1_0000_0000, base / 0x1_0000_0000 - away / 0x1_0000_0000, id);
  }

  /** Subtracting identifiers gives the distance of indices less than a lap apart. */
  lemma {:induction false} WireDistance(base: nat, k: nat)
    requires base <= k < base + LAP
    ensures WrapSub(Wire(k), Wire(base)) == k - base
    ensures Wire(k) == Wire(base) <==> k == base
  {
    WireIsMod(base);
    WireIsMod(k);
    Residue(Wire(k) - Wire(base), base / 0x1_0000_0000 - k / 0x1_0000_0000, k - base);
  }

  lemma {:induction false} UnwrapAhead(base: nat, k: nat)
    requires base <= k < base + LAP
    ensures Unwrap(base, Wire(k)) == k
  {
    WireDistance(base, k);
  }

  lemma {:induction false} UnwrapBehind(base: nat, k: nat)
    requires k < base <= k + LAP
    ensures Unwrap(base, Wire(k)) == k + LAP
  {
    WireIsMod(base);
    WireIsMod(k);
    Residue(Wire(k) - Wire(base), base / 0x1_0000_0000 - k / 0x1_0000_0000 - 1, k + LAP - base);
  }

  lemma {:induction false} WireAhead(base: nat, d: u32)
    ensures WrapAdd(Wire(base), d) == Wire(base + d)
  {
    WireIsMod(base);
    WireIsMod(base + d);
    Residue(Wire(base) + d, (base + d) / 0x1_0000_0000 - base / 0x1_0000_0000, Wire(base + d));
  }

  lemma {:induction false} WireNext(k: nat)
    ensures WrapAdd(Wire(k), 1) == Wire(k + 1)
  {
    WireAhead(k, 1);
  }

  lemma {:induction false} WireBack(k: nat, n: u32)
    requires n <= k
    ensures WrapSub(Wire(k), n) == Wire(k - n)
  {
    WireIsMod(k);
    WireIsMod(k - n);
    Residue(Wire(k) - n, (k - n) / 0x1_0000_0000 - k / 0x1_0000_0000, Wire(k - n));
  }

  /** Two indices travel alike exactly when they are whole laps apart. */
  lemma {:induction false} SameWire(j: nat, k: nat)
    requires j <= k
    ensures Wire(j) == Wire(k) <==> (k - j) % LAP == 0
    ensures k < j + LAP ==> (Wire(j) == Wire(k) <==> j == k)
  {
    WireIsMod(j);
    WireIsMod(k);
    var q := k / 0x1_0000_0000 - j / 0x1_0000_0000;
    if Wire(j) == Wire(k) {
      Residue(k - j, q, 0);
    }
  }

  // ---- powers of two ----

  function Pow2(n: nat): (p: nat)
    ensures p >= 1
  {
    if n == 0 then 1 else 2 * Pow2(n - 1)
  }

  ghost predicate IsPow2(n: nat) {
    exists k: nat :: n == Pow2(k)
  }

  lemma {:induction false} Pow2Add(a: nat, b: nat)
    ensures Pow2(a + b) == Pow2(a) * Pow2(b)
    decreases b
  {
    if b > 0 {
      Pow2Add(a, b - 1);
      assert Pow2(a) * Pow2(b) == Pow2(a) * (2 * Pow2(b - 1)) == 2 * (Pow2(a) * Pow2(b - 1));
    }
  }

  lemma {:induction false} Pow2Grows(a: nat, b: nat)
    requires a < b
    ensures Pow2(a) < Pow2(b)
    decreases b
  {
    if a < b - 1 {
      Pow2Grows(a, b - 1);
    }
  }

  lemma {:induction false} WordSizes()
    ensures Pow2(6) == 64 && Pow2(26) == 0x400_0000
    ensures Pow2(32) == 0x1_0000_0000 && Pow2(64) == 0x1_0000_0000_0000_0000
  {
    assert Pow2(4) == 16 && Pow2(6) == 64;
    Pow2Add(4, 4);
    Pow2Add(8, 8);
    Pow2Add(4, 6);
    Pow2Add(16, 16);
    Pow2Add(32, 32);
    Pow2Add(16, 10);
  }

  // ---- remainders ----

  lemma {:induction false} ModUnique(a: int, m: int, q: int, r: int)
    requires 0 <= r < m && a == q * m + r
    ensures a % m == r && a / m == q
  {
    var q', r' := a / m, a % m;
    assert a == m * q' + r';
    var d := q' - q;
    assert m * d == r - r' by {
      assert m * d == m * q' - q * m;
    }
    SmallMultiple(m, d);
  }

  lemma {:induction false} SmallMultiple(m: int, d: int)
    requires -m < m * d < m
    ensures d == 0
  {
    MultipleGrows(m, d);
  }

  lemma {:induction false} MultipleGrows(m: int, d: int)
    requires m > 0
    ensures d >= 1 ==> m * d >= m
    ensures d <= -1 ==> m * d <= -m
  {
  }

  lemma {:induction false} HalfMod(w: nat, m: nat)
    requires m > 0
    ensures (w % (2 * m)) / 2 == (w / 2) % m
    ensures (w % (2 * m)) % 2 == w % 2
  {
    var q, r := (w / 2) / m, (w / 2) % m;
    assert w / 2 == q * m + r;
    assert w == q * (2 * m) + (2 * r + w % 2);
    ModUnique(w, 2 * m, q, 2 * r + w % 2);
  }

  /** A remainder modulo a multiple keeps the remainder modulo the factor. */
  lemma {:induction false} ModOfMod(x: nat, m: nat, c: nat)
    requires m > 0 && c > 0
    ensures m * c > 0 && (x % (m * c)) % m == x % m
  {
    var r := x % (m * c);
    var q := x / (m * c);
    assert x == (m * c) * q + r;
    assert x == (c * q + r / m) * m + r % m by {
      assert r == m * (r / m) + r % m;
      assert (m * c) * q == (c * q) * m;
      assert (c * q + r / m) * m == (c * q) * m + (r / m) * m;
    }
    ModUnique(x, m, c * q + r / m, r % m);
  }

  /** `x % m`, by repeated subtraction. */
  function Remainder(x: nat, m: nat): (r: nat)
    requires m > 0
    ensures r < m
  {
    if x < m then x else Remainder(x - m, m)
  }

  lemma {:induction false} RemainderIsMod(x: nat, m: nat)
    requires m > 0
    ensures Remainder(x, m) == x % m
  {
    if x < m {
      ModUnique(x, m, 0, x);
    } else {
      RemainderIsMod(x - m, m);
      assert x == ((x - m) / m + 1) * m + (x - m) % m by {
        assert x - m == m * ((x - m) / m) + (x - m) % m;
      }
      ModUnique(x, m, (x - m) / m + 1, (x - m) % m);
    }
  }

  // ---- masks ----

  /** `a & b` on unsigned integers, digit by digit. */
  function BitAnd(a: nat, b: nat): nat
    decreases a + b
  {
    if a == 0 && b == 0 then 0 else 2 * BitAnd(a / 2, b / 2) + if a % 2 == 1 && b % 2 == 1 then 1 else 0
  }

  /** `(1 << n) - 1` */
  function LowMask(n: nat): nat {
    Pow2(n) - 1
  }

  /** Masking with a power of two less one is taking a remainder. */
  lemma {:induction false} AndMask(x: nat, n: nat)
    ensures BitAnd(x, LowMask(n)) == x % Pow2(n)
    decreases n
  {
    if n == 0 {
      AndZero(x);
    } else {
      AndMask(x / 2, n - 1);
      HalfMod(x, Pow2(n - 1));
      if x == 0 && LowMask(n) == 0 {
      } else {
        assert LowMask(n) / 2 == LowMask(n - 1);
      }
    }
  }

  lemma {:induction false} AndZero(x: nat)
    ensures BitAnd(x, 0) == 0
    decreases x
  {
    if x > 0 {
      AndZero(x / 2);
    }
  }

  /** The test `(n - 1) & n == 0` recognizes exactly the powers of two. */
  lemma {:induction false} Pow2Test(n: nat)
    requires n > 0
    ensures BitAnd(n - 1, n) == 0 <==> IsPow2(n)
    decreases n
  {
    if n % 2 == 1 {
      AndSelf(n / 2);
      if n == 1 {
        assert n == Pow2(0);
      } else {
        forall k: nat
          ensures n != Pow2(k)
        {
          assert k > 0 ==> Pow2(k) == 2 * Pow2(k - 1);
        }
      }
    } else {
      Pow2Test(n / 2);
      assert (n - 1) / 2 == n / 2 - 1;
      if IsPow2(n / 2) {
        var k: nat :| n / 2 == Pow2(k);
        assert n == Pow2(k + 1);
      }
      if IsPow2(n) {
        var k: nat :| n == Pow2(k);
        assert k > 0 && n / 2 == Pow2(k - 1);
      }
    }
  }

  lemma {:induction false} AndSelf(n: nat)
    ensures BitAnd(n, n) == n
    decreases n
  {
    if n > 0 {
      AndSelf(n / 2);
    }
  }
}
