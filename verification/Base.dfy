/** Stock types shared by every module. */
module Wrappers {
  datatype Option<+T> = None | Some(value: T)
}

/** Sequences of anything. */
module Seqs {
  lemma AppendAssoc<T>(x: seq<T>, y: seq<T>, z: seq<T>)
    ensures x + (y + z) == (x + y) + z
  {
  }
}

/** Octets, and the little-endian 16-bit fields the trace protocol is made of. */
module Bytes {
  type Byte = b: int | 0 <= b < 256

  function Min(a: int, b: int): int {
    if a <= b then a else b
  }

  /** A uint16_t as it lies in memory on the targets (little-endian). */
  function Le16(v: nat): seq<Byte>
    requires v < 0x1_0000
  {
    [v % 256, v / 256]
  }

  function FromLe16(s: seq<Byte>): nat
    requires |s| == 2
  {
    (s[0] as int) + 256 * (s[1] as int)
  }

  /** Memory m after `bytes` were stored at `off`. */
  ghost function Splice(m: seq<Byte>, off: nat, bytes: seq<Byte>): (r: seq<Byte>)
    requires off + |bytes| <= |m|
    ensures |r| == |m|
  {
    m[..off] + bytes + m[off + |bytes|..]
  }

  method Memcpy(dst: array<Byte>, off: nat, src: seq<Byte>)
    requires off + |src| <= dst.Length
    modifies dst
    ensures dst[..] == Splice(old(dst[..]), off, src)
  {
    forall i | 0 <= i < |src| {
      dst[off + i] := src[i];
    }
  }
}

/** Division with a variable divisor, in steps small enough for the solver. */
module Modular {
  function Pow2(k: nat): (p: nat)
    ensures p >= 1
  {
    if k == 0 then 1 else 2 * Pow2(k - 1)
  }

  lemma Distribute(a: int, b: int, m: int)
    ensures (a - b) * m == a * m - b * m
  {
  }

  lemma AtLeastOnce(d: int, m: nat)
    requires d >= 1
    ensures d * m >= m
  {
    Distribute(d, 1, m);
    Product(d - 1, m);
  }

  lemma Product(a: nat, b: nat)
    ensures a * b >= 0
  {
  }

  lemma SameQuotient(a: int, b: int, r: nat, r': nat, m: nat)
    requires r < m && r' < m && a * m + r == b * m + r'
    ensures a == b && r == r'
  {
    Distribute(a, b, m);
    Distribute(b, a, m);
    if a > b {
      AtLeastOnce(a - b, m);
    } else if b > a {
      AtLeastOnce(b - a, m);
    }
  }

  lemma DivMod(n: nat, m: nat)
    requires m > 0
    ensures n == n / m * m + n % m && 0 <= n % m < m
  {
  }

  lemma ModIs(n: nat, m: nat, q: nat, r: nat)
    requires r < m && n == q * m + r
    ensures n % m == r
  {
    DivMod(n, m);
    SameQuotient(n / m, q, n % m, r, m);
  }

  lemma ModSucc(n: nat, m: nat)
    requires m > 0
    ensures (n + 1) % m == if n % m + 1 == m then 0 else n % m + 1
  {
    DivMod(n, m);
    var q, r := n / m, n % m;
    if r + 1 == m {
      Distribute(q + 1, 1, m);
      ModIs(n + 1, m, q + 1, 0);
    } else {
      ModIs(n + 1, m, q, r + 1);
    }
  }

  lemma ModSmall(n: nat, m: nat)
    requires n < m
    ensures n % m == n
  {
    ModIs(n, m, 0, n);
  }

  lemma AtLeast(i: nat, m: nat)
    requires m > 0
    ensures i * m >= i
  {
    Distribute(m, 1, i);
    Product(m - 1, i);
  }
}
