/** Fixed-width big-endian integers: the length, format, track-count,
    division and tempo fields of a Standard MIDI File. */
module FixedWidth {

  function Pow256(i: nat): (r: nat)
    ensures r > 0
  {
    if i == 0 then 1 else 0x100 * Pow256(i - 1)
  }

  lemma MulAtLeast(d: int, t: int)
    requires d > 0 && t >= 1
    ensures d * t >= d
  {
  }

  /** Euclidean division is determined by its defining equation. */
  lemma DivModUnique(n: int, d: int, q: int, r: int)
    requires d > 0 && 0 <= r < d && n == d * q + r
    ensures n / d == q && n % d == r
  {
    var q0, r0 := n / d, n % d;
    assert n == d * q0 + r0;
    assert d * q - d * q0 == r0 - r;
    assert d * (q - q0) == r0 - r;
    if q > q0 {
      MulAtLeast(d, q - q0);
    } else if q < q0 {
      MulAtLeast(d, q0 - q);
    }
  }

  /** Splitting `n` by `a`, then its quotient by `b`, is splitting by `a * b`. */
  lemma DivModNested(n: int, a: int, b: int)
    requires a > 0 && b > 0
    ensures n / (a * b) == (n / a) / b
    ensures n % (a * b) == a * ((n / a) % b) + n % a
  {
    var q1, r1 := n / a, n % a;
    var q2, m := q1 / b, q1 % b;
    assert n == a * q1 + r1;
    assert q1 == b * q2 + m;
    assert a * q1 == (a * b) * q2 + a * m;
    assert a * m + a <= a * b by {
      MulAtLeast(a, b - m);
      assert a * (b - m) == a * b - a * m;
    }
    DivModUnique(n, a * b, q2, a * m + r1);
  }

  /** `k` bytes of `n`, most significant first: the low `8k` bits of `n` in
      two's complement. */
  function BigEndian(n: int, k: nat): (r: seq<int>)
    decreases k
    ensures |r| == k
    ensures forall j :: 0 <= j < k ==> 0 <= r[j] < 0x100
  {
    if k == 0 then [] else BigEndian(n / 0x100, k - 1) + [n % 0x100]
  }

  /** The unsigned value of big-endian bytes. */
  function BigEndianValue(s: seq<int>): int
  {
    if s == [] then 0 else BigEndianValue(s[..|s| - 1]) * 0x100 + s[|s| - 1]
  }

  /** Reading the bytes back gives `n` modulo 256^k, so exactly `n` whenever
      0 <= n < 256^k. */
  lemma {:induction false} BigEndianRoundTrip(n: int, k: nat)
    decreases k
    ensures BigEndianValue(BigEndian(n, k)) == n % Pow256(k)
  {
    if k == 0 {
      DivModUnique(n, 1, n, 0);
    } else {
      var s := BigEndian(n, k);
      assert s[..k - 1] == BigEndian(n / 0x100, k - 1);
      BigEndianRoundTrip(n / 0x100, k - 1);
      DivModNested(n, 0x100, Pow256(k - 1));
    }
  }

  /** Conversely, any `k` bytes are the `k`-byte form of their own value,
      which lies in 0 .. 256^k - 1. */
  lemma {:induction false} BigEndianUnique(s: seq<int>)
    requires forall j :: 0 <= j < |s| ==> 0 <= s[j] < 0x100
    ensures 0 <= BigEndianValue(s) < Pow256(|s|)
    ensures BigEndian(BigEndianValue(s), |s|) == s
  {
    if s != [] {
      var p, last := s[..|s| - 1], s[|s| - 1];
      BigEndianUnique(p);
      var v := BigEndianValue(s);
      assert v == BigEndianValue(p) * 0x100 + last;
      assert v / 0x100 == BigEndianValue(p) && v % 0x100 == last;
      assert s == p + [last];
    }
  }

  /** numToBytes: pushes `(num >> 8i) & 0xFF` for i from `bytes - 1` down to 0.
      For widths up to 4 the shift sees the low 32 bits of `num`, whose byte
      `i` is `(num / 256^i) % 256` for every integer. */
  method NumToBytes(num: int, bytes: nat) returns (res: seq<int>)
    requires bytes <= 4
    ensures res == BigEndian(num, bytes)
  {
    res := [];
    for i := bytes downto 0
      invariant res == BigEndian(num / Pow256(i), bytes - i)
    {
      DivModNested(num, Pow256(i), 0x100);
      res := res + [(num / Pow256(i)) % 0x100];
    }
  }
}
