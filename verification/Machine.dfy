/** Fixed-width integers of the C, C++ and Go sources, as subranges of `int` with
    the wrap-around written out, and the byte orders of the wire formats. */
module Machine {

  const TWO16 := 0x1_0000
  const TWO32 := 0x1_0000_0000
  const TWO64 := 0x1_0000_0000_0000_0000
  const NS_PER_SEC := 1_000_000_000

  type u8 = x: int | 0 <= x < 256
  type u16 = x: int | 0 <= x < 0x1_0000
  type u32 = x: int | 0 <= x < 0x1_0000_0000
  type u64 = x: int | 0 <= x < 0x1_0000_0000_0000_0000

  datatype Option<+T> = None | Some(value: T)

  function Wrap32(x: int): u32 { x % TWO32 }

  function Wrap64(x: int): u64 { x % TWO64 }

  /** Unsigned 64-bit subtraction. */
  function Sub64(a: u64, b: u64): u64 { Wrap64(a - b) }

  function Min(a: int, b: int): int { if a <= b then a else b }

  /** A non-decreasing clock that has already shown `from`. */
  ghost predicate Clocked(from: nat, times: seq<u64>) {
    && (forall i :: 0 <= i < |times| ==> from <= times[i])
    && (forall i, j :: 0 <= i <= j < |times| ==> times[i] <= times[j])
  }

  // ----- sequences: facts the solver is better told than left to find -----

  lemma Associate<T>(a: seq<T>, b: seq<T>, c: seq<T>)
    ensures (a + b) + c == a + (b + c)
  {
  }

  lemma NothingBefore<T>(s: seq<T>)
    ensures [] + s == s
  {
  }

  lemma NothingAfter<T>(s: seq<T>)
    ensures s + [] == s
  {
  }

  /** Big-endian 16-bit read. */
  function Be16(s: seq<u8>, i: nat): u16
    requires i + 2 <= |s|
  {
    256 * (s[i] as int) + s[i + 1] as int
  }

  /** Big-endian 32-bit read. */
  function Be32(s: seq<u8>, i: nat): u32
    requires i + 4 <= |s|
  {
    TWO16 * (Be16(s, i) as int) + Be16(s, i + 2) as int
  }

  /** Little-endian value of a byte string. */
  function LeValue(s: seq<u8>): nat
  {
    if s == [] then 0 else s[0] + 256 * LeValue(s[1..])
  }

  function Pow256(n: nat): nat
  {
    if n == 0 then 1 else 256 * Pow256(n - 1)
  }

  /** The low `n` bytes of `v`, least significant first. */
  function LeBytes(v: nat, n: nat): (s: seq<u8>)
    ensures |s| == n
  {
    if n == 0 then [] else [v % 256] + LeBytes(v / 256, n - 1)
  }

  /** The `k`-th byte of a little-endian number is its `k`-th digit to the base 256. */
  lemma {:induction false} LeDigit(v: nat, n: nat, k: nat)
    requires k < n
    ensures Pow256(k) > 0 && LeBytes(v, n)[k] == v / Pow256(k) % 256
    decreases k
  {
    if k > 0 {
      LeDigit(v / 256, n - 1, k - 1);
      DivTwice(v, 256, Pow256(k - 1));
    }
  }

  lemma DivTwice(v: nat, a: nat, b: nat)
    requires a > 0 && b > 0
    ensures a * b > 0 && v / a / b == v / (a * b)
  {
    var q, r := v / a, v % a;
    var t, u := q / b, q % b;
    MulAtLeast(a, b);
    Nested(v, a, b, q, r, t, u);
    DivModUnique(v, a * b, t, a * u + r);
  }

  lemma Nested(v: nat, a: nat, b: nat, q: nat, r: nat, t: nat, u: nat)
    requires v == a * q + r && q == b * t + u && r < a && u < b
    ensures v == (a * b) * t + (a * u + r) && a * u + r < a * b
  {
    assert a * q == (a * b) * t + a * u;
    var d := b - u;
    MulAtLeast(a, d);
    assert a * b == a * u + a * d;
  }

  lemma {:induction false} LeBelow(s: seq<u8>)
    ensures LeValue(s) < Pow256(|s|)
  {
    if s != [] {
      LeBelow(s[1..]);
    }
  }

  /** Reading back `n` little-endian bytes of `v` keeps `v` modulo 256^n. */
  lemma {:induction false} LeRoundTrip(v: nat, n: nat)
    ensures Pow256(n) > 0
    ensures LeValue(LeBytes(v, n)) == v % Pow256(n)
  {
    if n > 0 {
      LeRoundTrip(v / 256, n - 1);
      var p := Pow256(n - 1);
      assert LeBytes(v, n)[1..] == LeBytes(v / 256, n - 1);
      SplitMod(v, p);
    }
  }

  lemma SplitMod(v: nat, p: nat)
    requires p > 0
    ensures v % (256 * p) == v % 256 + 256 * (v / 256 % p)
  {
    var q, r := v / 256, v % 256;
    var a, b := q / p, q % p;
    var t := r + 256 * b;
    assert v == 256 * q + r && q == a * p + b;
    assert 0 <= t < 256 * p;
    assert v == (256 * p) * a + t;
    DivModUnique(v, 256 * p, a, t);
  }

  lemma {:induction false} DivModUnique(v: int, m: int, a: int, t: int)
    requires m > 0 && 0 <= t < m && v == m * a + t
    ensures v / m == a && v % m == t
  {
    SameQuotient(m, a, t, v / m, v % m);
  }

  lemma SameQuotient(m: int, a: int, t: int, b: int, u: int)
    requires m > 0 && 0 <= t < m && 0 <= u < m
    requires m * a + t == m * b + u
    ensures a == b && t == u
  {
    var d := a - b;
    assert m * d == u - t;
    if d >= 1 {
      MulAtLeast(m, d);
    } else if d <= -1 {
      MulAtLeast(m, -d);
    }
  }

  lemma MulAtLeast(m: int, d: int)
    requires m > 0 && d >= 1
    ensures m * d >= m
  {
  }

  lemma Pow256Values()
    ensures Pow256(4) == TWO32 && Pow256(8) == TWO64
  {
    assert Pow256(1) == 256 && Pow256(2) == TWO16 && Pow256(3) == 256 * TWO16;
    assert Pow256(5) == 256 * TWO32 && Pow256(6) == TWO16 * TWO32 && Pow256(7) == 256 * TWO16 * TWO32;
  }

  /** Wrapping twice is wrapping once. */
  lemma WrapSum(a: int, b: int)
    ensures Wrap64(a + Wrap64(b)) == Wrap64(a + b)
  {
    assert b == TWO64 * (b / TWO64) + b % TWO64;
    var x := a + b % TWO64;
    assert a + b == TWO64 * (x / TWO64 + b / TWO64) + x % TWO64;
    DivModUnique(a + b, TWO64, x / TWO64 + b / TWO64, x % TWO64);
  }

  /** Quotients of a sum: dividing in two pieces never gains. */
  lemma FloorSuperadditive(a: nat, b: nat, n: nat)
    requires n > 0
    ensures a / n + b / n <= (a + b) / n
  {
    var s := a / n + b / n;
    assert a + b == n * s + (a % n + b % n);
    if a % n + b % n < n {
      DivModUnique(a + b, n, s, a % n + b % n);
    } else {
      DivModUnique(a + b, n, s + 1, a % n + b % n - n);
    }
  }

  /** Reducing modulo `m` before dividing never increases the quotient. */
  lemma WrapUnderCredits(x: nat, m: nat, n: nat)
    requires m > 0 && n > 0
    ensures (x % m) / n <= x / n
  {
    assert x % m <= x by { assert x == m * (x / m) + x % m; assert m * (x / m) >= 0; }
    DivMonotone(x % m, x, n);
  }

  lemma DivMonotone(a: nat, b: nat, n: nat)
    requires n > 0 && a <= b
    ensures a / n <= b / n
  {
    var d := a / n - b / n;
    assert n * d <= a - b + n - 1 by {
      assert a == n * (a / n) + a % n && b == n * (b / n) + b % n;
      assert n * d == n * (a / n) - n * (b / n);
    }
    if d >= 1 {
      MulAtLeast(n, d);
    }
  }

  /** Advancing in whole steps of `n` from `k * n` reaches the same step count. */
  lemma StepCount(x: nat, k: nat, n: nat)
    requires n > 0 && k * n <= x
    ensures (x - k * n) / n == x / n - k && (x - k * n) % n == x % n
  {
    assert x == n * (x / n) + x % n;
    assert x - k * n == n * (x / n - k) + x % n;
    DivModUnique(x - k * n, n, x / n - k, x % n);
  }
}
