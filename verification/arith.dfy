/** Integer helpers shared by the knapsack and circuit modules: powers of two,
    Python's `bin(n)[2:]` read least significant digit first, and the bit length
    `floor(log2 n) + 1` that `math.log2` is used for. */
module Arith {

  datatype Option<T> = None | Some(value: T)

  function Pow2(k: nat): (r: nat)
    ensures r >= 1
  {
    if k == 0 then 1 else 2 * Pow2(k - 1)
  }

  lemma {:induction false} Pow2Add(a: nat, b: nat)
    ensures Pow2(a + b) == Pow2(a) * Pow2(b)
  {
    if a > 0 {
      Pow2Add(a - 1, b);
    }
  }

  lemma {:induction false} Pow2Monotone(a: nat, b: nat)
    requires a < b
    ensures Pow2(a) < Pow2(b)
  {
    if b > a + 1 {
      Pow2Monotone(a, b - 1);
    }
  }

  lemma Pow2MonotoneEq(a: nat, b: nat)
    requires a <= b
    ensures Pow2(a) <= Pow2(b)
  {
    if a < b {
      Pow2Monotone(a, b);
    }
  }

  lemma {:induction false} MulAtLeast(d: int, m: int)
    requires d >= 1 && m >= 0
    ensures d * m >= m
    decreases d
  {
    if d > 1 {
      MulAtLeast(d - 1, m);
      assert d * m == (d - 1) * m + m;
    }
  }

  lemma MulLessMul(a: int, b: int, c: int)
    requires 0 <= a < b && c >= 1
    ensures 0 <= a * c < b * c
  {
    MulAtLeast(b - a, c);
    assert b * c - a * c == (b - a) * c;
    if a > 0 {
      MulAtLeast(a, c);
    }
  }

  /** Division and remainder are determined by any decomposition a == q * m + r with 0 <= r < m. */
  lemma DivModUnique(a: int, m: int, q: int, r: int)
    requires m > 0 && 0 <= r < m && a == q * m + r
    ensures a / m == q && a % m == r
  {
    var q', r' := a / m, a % m;
    assert a == q' * m + r';
    assert (q - q') * m == r' - r;
    if q > q' {
      MulAtLeast(q - q', m);
    } else if q < q' {
      MulAtLeast(q' - q, m);
    }
  }

  lemma ModOfInRange(x: int, m: int)
    requires 0 <= x < m
    ensures x % m == x
  {
    DivModUnique(x, m, 0, x);
  }

  lemma ModAtMost(a: int, m: int)
    requires a >= 0 && m > 0
    ensures 0 <= a % m <= a
  {
    if a < m {
      ModOfInRange(a, m);
    }
  }

  lemma ModAddMultiple(a: int, k: int, m: int)
    requires m > 0
    ensures (a + k * m) % m == a % m
  {
    DivModUnique(a + k * m, m, a / m + k, a % m);
  }

  /** A remainder modulo 2^(i+1) splits into the remainder modulo 2^i and bit i. */
  lemma ModPow2Step(v: nat, i: nat)
    ensures v % Pow2(i + 1) == v % Pow2(i) + (if Bit(v, i) then Pow2(i) else 0)
  {
    var p := Pow2(i);
    assert Pow2(i + 1) == 2 * p;
    var a, r := v / p, v % p;
    var h, t := a / 2, a % 2;
    assert v == a * p + r;
    assert a == 2 * h + t;
    var b := if Bit(v, i) then p else 0;
    assert b == t * p;
    SplitDouble(h, t, p);
    DivModUnique(v, 2 * p, h, r + b);
  }

  lemma SplitDouble(h: int, t: int, p: int)
    ensures (2 * h + t) * p == h * (2 * p) + t * p
  {
  }

  /** Reducing modulo 2^j after 2^i with i <= j changes nothing. */
  lemma ModPow2Nested(v: int, i: nat, j: nat)
    requires i <= j
    ensures (v % Pow2(j)) % Pow2(i) == v % Pow2(i)
  {
    Pow2Add(i, j - i);
    ModNested(v, Pow2(i), Pow2(j - i));
  }

  lemma ModNested(v: int, a: int, b: int)
    requires a > 0 && b > 0
    ensures (v % (a * b)) % a == v % a
  {
    var q := v / (a * b);
    var low := v % (a * b);
    assert v == q * (a * b) + low;
    MulAssoc(q, b, a);
    assert v == low + (q * b) * a;
    ModAddMultiple(low, q * b, a);
  }

  lemma MulAssoc(a: int, b: int, c: int)
    ensures a * (b * c) == (a * b) * c
  {
  }

  /** The scaling lemma behind Fourier-basis addition: adding y*S to a numerator
      (x mod M)*S, modulo M*S, gives ((x + y) mod M)*S. */
  lemma ScaledAddMod(x: int, y: int, m: int, s: int)
    requires m > 0 && s > 0
    ensures ((x % m) * s + y * s) % (m * s) == ((x + y) % m) * s
  {
    var a := x % m + y;
    assert x == (x / m) * m + x % m;
    ModAddMultiple(a, x / m, m);
    assert a + (x / m) * m == x + y;
    var q, r := a / m, a % m;
    assert a == q * m + r;
    assert a * s == q * (m * s) + r * s;
    assert 0 <= r * s < m * s;
    DivModUnique(a * s, m * s, q, r * s);
    assert (x % m) * s + y * s == a * s;
  }

  /** True when bit i of v is set. */
  function Bit(v: nat, i: nat): bool
  {
    (v / Pow2(i)) % 2 == 1
  }

  /** The digits of Python's `bin(n)[2:]`, reversed: least significant first; `[0]` for zero. */
  function Bits(n: nat): (r: seq<int>)
    ensures |r| >= 1
  {
    if n < 2 then [n] else [n % 2] + Bits(n / 2)
  }

  /** `floor(log2 n) + 1` for n >= 1: the number of binary digits of n. */
  function BitLength(n: nat): nat
  {
    if n == 0 then 0 else 1 + BitLength(n / 2)
  }

  lemma {:induction false} BitLengthBounds(n: nat)
    requires n >= 1
    ensures BitLength(n) >= 1
    ensures Pow2(BitLength(n) - 1) <= n < Pow2(BitLength(n))
  {
    if n >= 2 {
      BitLengthBounds(n / 2);
    }
  }

  /** Bit length is the only exponent b with 2^(b-1) <= n < 2^b. */
  lemma {:induction false} BitLengthUnique(n: nat, b: nat)
    requires b >= 1 && Pow2(b - 1) <= n < Pow2(b)
    ensures BitLength(n) == b
  {
    if b > 1 {
      assert Pow2(b - 2) <= n / 2 < Pow2(b - 1);
      BitLengthUnique(n / 2, b - 1);
    }
  }

  lemma {:induction false} BitLengthMonotone(a: nat, b: nat)
    requires a <= b
    ensures BitLength(a) <= BitLength(b)
  {
    if a > 0 {
      BitLengthMonotone(a / 2, b / 2);
    }
  }

  lemma BitLengthBelow(n: nat, k: nat)
    requires n < Pow2(k)
    ensures BitLength(n) <= k
  {
    if n >= 1 {
      BitLengthBounds(n);
      if BitLength(n) > k {
        Pow2MonotoneEq(k, BitLength(n) - 1);
      }
    }
  }

  /** `Bits(n)` has `max(1, BitLength(n))` digits and digit i is bit i of n. */
  lemma {:induction false} BitsAt(n: nat, i: nat)
    ensures |Bits(n)| == if n == 0 then 1 else BitLength(n)
    ensures i < |Bits(n)| ==> Bits(n)[i] == (n / Pow2(i)) % 2
  {
    if n >= 2 {
      BitsAt(n / 2, if i == 0 then 0 else i - 1);
      if i > 0 {
        DivDiv(n, i - 1);
      }
    }
  }

  lemma DivDiv(n: nat, i: nat)
    ensures n / 2 / Pow2(i) == n / Pow2(i + 1)
  {
    var q := n / 2 / Pow2(i);
    var r := n / 2 % Pow2(i);
    assert n / 2 == q * Pow2(i) + r;
    assert n == q * Pow2(i + 1) + (2 * r + n % 2);
    DivModUnique(n, Pow2(i + 1), q, 2 * r + n % 2);
  }

  /** A value below 2^k has all bits from k upward clear. */
  lemma HighBitsClear(v: nat, i: nat, k: nat)
    requires v < Pow2(k) && k <= i
    ensures !Bit(v, i)
  {
    Pow2MonotoneEq(k, i);
    DivModUnique(v, Pow2(i), 0, v);
  }

  /** For v below 2^w: bits c..w-1 are all clear exactly when v < 2^c. */
  lemma {:induction false} HighBitsClearIff(v: nat, c: nat, w: nat)
    requires c <= w && v < Pow2(w)
    ensures (forall i :: c <= i < w ==> !Bit(v, i)) <==> v < Pow2(c)
  {
    if v < Pow2(c) {
      forall i | c <= i < w ensures !Bit(v, i) {
        HighBitsClear(v, i, c);
      }
    } else if c < w {
      if forall i :: c <= i < w ==> !Bit(v, i) {
        LowPartEqual(v, c, w);
        DivModUnique(v, Pow2(w), 0, v);
        assert false;
      }
    }
  }

  lemma {:induction false} LowPartEqual(v: nat, c: nat, w: nat)
    requires c <= w
    requires forall i :: c <= i < w ==> !Bit(v, i)
    ensures v % Pow2(w) == v % Pow2(c)
  {
    if c < w {
      LowPartEqual(v, c, w - 1);
      ModPow2Step(v, w - 1);
    }
  }
}
