// Bytes and the few notions every part of the model shares.
module Bytes {
  type Byte = x: int | 0 <= x < 256

  datatype Option<T> = None | Some(value: T)

  function Min(a: int, b: int): int { if a < b then a else b }

  function Max(a: int, b: int): int { if a > b then a else b }

  function ZeroBytes(n: nat): (z: seq<Byte>)
    ensures |z| == n && forall i :: 0 <= i < n ==> z[i] == 0
  {
    if n == 0 then [] else ZeroBytes(n - 1) + [0]
  }

  // Little-endian numbers.
  function Le2(b0: Byte, b1: Byte): nat { b0 + b1 * 256 }

  function Le4(b0: Byte, b1: Byte, b2: Byte, b3: Byte): nat { b0 + b1 * 256 + b2 * 65536 + b3 * 16777216 }

  // ---- Division

  lemma DivModIs(a: int, m: int, q: int, r: int)
    requires 0 <= r < m && a == q * m + r
    ensures a / m == q && a % m == r
  {
    var d := a / m - q;
    assert a == (a / m) * m + a % m;
    assert d * m == r - a % m by { assert (a / m) * m - q * m == d * m; }
    assert -m < d * m < m;
    assert d == 0 by { Small(d, m); }
  }

  lemma Small(d: int, m: int)
    requires -m < d * m < m
    ensures d == 0
  {}

  // ---- Octets

  // A number from its four octets.
  lemma FourOctets(n: nat)
    ensures n / 0x100_0000 * 0x100_0000 + n / 0x1_0000 % 0x100 * 0x1_0000 + n / 0x100 % 0x100 * 0x100 + n % 0x100 == n
  {
    TwiceDivided(n);
    TwiceDivided(n / 0x100);
    Positions(n, n / 0x100, n / 0x1_0000, n / 0x100_0000);
  }

  lemma TwiceDivided(n: nat)
    ensures n / 0x100 / 0x100 == n / 0x1_0000
    ensures n / 0x100 / 0x1_0000 == n / 0x100_0000
  {}

  lemma Positions(n: nat, a: nat, b: nat, c: nat)
    requires a == n / 0x100 && b == a / 0x100 && c == b / 0x100
    ensures c * 0x100_0000 + b % 0x100 * 0x1_0000 + a % 0x100 * 0x100 + n % 0x100 == n
  {
    assert n == a * 0x100 + n % 0x100;
    assert a == b * 0x100 + a % 0x100;
    assert b == c * 0x100 + b % 0x100;
  }
}
