/** Little-endian integers over byte sequences: the model of Rust's
    `u32::from_le_bytes`, `u64::from_le_bytes` and `to_le_bytes`, which the
    header decoder uses for the magic number, the content size, the
    data-block field and the hash byte. */
module LittleEndian {

  /** A `u8`, by its value. */
  type byte = x: int | 0 <= x < 256

  /** A `u32`, by its value. */
  type u32 = x: int | 0 <= x < 0x1_0000_0000

  /** 256^k: one more than the largest integer that k bytes can hold. */
  function Pow256(k: nat): (p: nat)
    ensures p >= 1
  {
    if k == 0 then 1 else 256 * Pow256(k - 1)
  }

  /** The unsigned integer whose little-endian bytes are `s`
      (`u32::from_le_bytes` when |s| == 4, `u64::from_le_bytes` when |s| == 8). */
  function FromLe(s: seq<byte>): (n: nat)
    ensures n < Pow256(|s|)
  {
    if s == [] then 0 else s[0] + 256 * FromLe(s[1..])
  }

  /** The `k` little-endian bytes of `n` (`to_le_bytes` of a k-byte integer). */
  function ToLe(n: nat, k: nat): (s: seq<byte>)
    requires n < Pow256(k)
    ensures |s| == k
  {
    if k == 0 then [] else [n % 256] + ToLe(n / 256, k - 1)
  }

  /** Decoding the encoding of a k-byte integer gives that integer back. */
  lemma {:induction false} FromLeToLe(n: nat, k: nat)
    requires n < Pow256(k)
    ensures FromLe(ToLe(n, k)) == n
  {
    if k > 0 {
      FromLeToLe(n / 256, k - 1);
      assert ToLe(n, k)[1..] == ToLe(n / 256, k - 1);
    }
  }

  /** Encoding the value of a byte sequence gives that byte sequence back. */
  lemma {:induction false} ToLeFromLe(s: seq<byte>)
    ensures ToLe(FromLe(s), |s|) == s
  {
    if s != [] {
      ToLeFromLe(s[1..]);
      var n := FromLe(s);
      assert n % 256 == s[0] && n / 256 == FromLe(s[1..]);
    }
  }

  /** Digit i of n in base 256, counting from the least significant,
      found by dropping the lowest digit i times. */
  function Digit(n: nat, i: nat): (d: byte)
    ensures d == (n / Pow256(i)) % 256
  {
    if i == 0 then n % 256
    else
      DivDiv(n, Pow256(i - 1));
      Digit(n / 256, i - 1)
  }

  /** Dropping the lowest digit, then dividing by p, is dividing by 256 p. */
  lemma DivDiv(n: nat, p: nat)
    requires p >= 1
    ensures (n / 256) / p == n / (256 * p)
  {
    var q, r := n / 256, n % 256;
    var q2, r2 := q / p, q % p;
    assert n == 256 * q + r;
    assert q == p * q2 + r2;
    assert 256 * q == (256 * p) * q2 + 256 * r2;
    assert r2 <= p - 1;
    assert 256 * r2 <= 256 * p - 256;
    DivUnique(n, 256 * p, q2, 256 * r2 + r);
  }

  /** The quotient is the only multiplier that leaves a remainder below d. */
  lemma DivUnique(n: int, d: int, a: int, b: int)
    requires d > 0 && 0 <= b < d && n == d * a + b
    ensures n / d == a
  {
    var a', b' := n / d, n % d;
    assert n == d * a' + b' && 0 <= b' < d;
    if a' < a {
      assert d * (a - a') == b' - b;
      MulAtLeast(d, a - a');
    } else if a' > a {
      assert d * (a' - a) == b - b';
      MulAtLeast(d, a' - a);
    }
  }

  /** A positive multiple of d is at least d. */
  lemma MulAtLeast(d: int, x: int)
    requires d > 0 && x >= 1
    ensures d * x >= d
  {
  }

  /** Byte i of the k-byte encoding of n is digit i of n in base 256,
      `(n / 256^i) % 256`. */
  lemma {:induction false} ToLeAt(n: nat, k: nat, i: nat)
    requires n < Pow256(k) && i < k
    ensures ToLe(n, k)[i] == Digit(n, i) == (n / Pow256(i)) % 256
  {
    if i > 0 {
      ToLeAt(n / 256, k - 1, i - 1);
      assert ToLe(n, k)[i] == ToLe(n / 256, k - 1)[i - 1];
    }
  }

  /** The value of four bytes, written out digit by digit. */
  lemma FromLe4(s: seq<byte>)
    requires |s| == 4
    ensures FromLe(s) == s[0] as int + 0x100 * (s[1] as int) + 0x1_0000 * (s[2] as int) + 0x100_0000 * (s[3] as int)
  {
    assert s[1..][1..] == s[2..] && s[2..][1..] == [s[3]] && [s[3]][1..] == [];
    calc {
      FromLe(s);
      s[0] as int + 256 * FromLe(s[1..]);
      s[0] as int + 256 * (s[1] as int + 256 * FromLe(s[2..]));
      s[0] as int + 256 * (s[1] as int + 256 * (s[2] as int + 256 * FromLe([s[3]])));
      s[0] as int + 256 * (s[1] as int + 256 * (s[2] as int + 256 * (s[3] as int)));
    }
  }
}
