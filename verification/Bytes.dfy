// Little-endian integers over byte sequences, as every on-disk and on-wire
// layout of the client uses them.
module Bytes {
  type Byte = b: int | 0 <= b < 256
  type U8 = n: nat | n < 0x100
  type U16 = n: nat | n < 0x1_0000
  type U32 = n: nat | n < 0x1_0000_0000
  type U64 = n: nat | n < 0x1_0000_0000_0000_0000

  datatype Option<+T> = None | Some(value: T)

  function Pow256(w: nat): (p: nat)
    ensures p > 0
  {
    if w == 0 then 1 else 256 * Pow256(w - 1)
  }

  lemma Pow256Values()
    ensures Pow256(1) == 0x100 && Pow256(2) == 0x1_0000 && Pow256(4) == 0x1_0000_0000
    ensures Pow256(8) == 0x1_0000_0000_0000_0000
  {
    assert Pow256(2) == 0x1_0000;
    assert Pow256(3) == 0x100_0000;
    assert Pow256(4) == 0x1_0000_0000;
    assert Pow256(5) == 0x100_0000_0000;
    assert Pow256(6) == 0x1_0000_0000_0000;
    assert Pow256(7) == 0x100_0000_0000_0000;
  }

  // The low `w` bytes of `n`: an integer wider than the field is truncated.
  function LE(n: nat, w: nat): (s: seq<Byte>)
    ensures |s| == w
  {
    if w == 0 then [] else [n % 256] + LE(n / 256, w - 1)
  }

  function FromLE(s: seq<Byte>): nat {
    if s == [] then 0 else s[0] + 256 * FromLE(s[1..])
  }

  lemma {:induction false} FromLEBound(s: seq<Byte>)
    ensures FromLE(s) < Pow256(|s|)
  {
    if s != [] {
      FromLEBound(s[1..]);
    }
  }

  // A field narrower than the integer keeps it modulo the field's range.
  lemma {:induction false} FromLEOfLE(n: nat, w: nat)
    ensures FromLE(LE(n, w)) == n % Pow256(w)
  {
    if w > 0 {
      FromLEOfLE(n / 256, w - 1);
      assert LE(n, w)[1..] == LE(n / 256, w - 1);
      ModStep(n, Pow256(w - 1));
    } else {
      assert n % 1 == 0;
    }
  }

  lemma ModStep(n: nat, m: nat)
    requires m > 0
    ensures n % (256 * m) == n % 256 + 256 * (n / 256 % m)
  {
    var q, r := n / 256 / m, n / 256 % m;
    assert n / 256 == q * m + r;
    assert n == (256 * m) * q + (n % 256 + 256 * r) by {
      assert n == 256 * (n / 256) + n % 256;
      assert 256 * (q * m) == (256 * m) * q;
    }
    ModUnique(n, 256 * m, q, n % 256 + 256 * r);
  }

  lemma ModUnique(n: int, d: int, q: int, r: int)
    requires 0 <= r < d && n == d * q + r
    ensures n % d == r
  {
    var q', r' := n / d, n % d;
    assert n == d * q' + r' && 0 <= r' < d;
    assert d * (q - q') == r' - r by {
      assert d * (q - q') == d * q - d * q';
    }
    var k := q - q';
    assert k >= 1 ==> d * k >= d;
    assert k <= -1 ==> d * k <= -d;
  }

  // The bytes are the number's digits in base 256, the least significant first.
  lemma {:induction false} LEDigit(n: nat, w: nat, i: nat)
    requires i < w
    ensures |LE(n, w)| == w && LE(n, w)[i] == n / Pow256(i) % 256
    decreases w
  {
    if i > 0 {
      LEDigit(n / 256, w - 1, i - 1);
      DivTwice(n, Pow256(i - 1));
    }
  }

  lemma DivTwice(n: nat, m: nat)
    requires m > 0
    ensures n / 256 / m == n / (256 * m)
  {
    var q, r := n / 256 / m, n / 256 % m;
    assert n / 256 == m * q + r && n == 256 * (n / 256) + n % 256;
    assert 256 * (m * q) == (256 * m) * q;
    DivUnique(n, 256 * m, q, 256 * r + n % 256);
  }

  lemma DivUnique(n: int, d: int, q: int, r: int)
    requires 0 <= r < d && n == d * q + r
    ensures n / d == q
  {
    ModUnique(n, d, q, r);
    assert n == d * (n / d) + r;
    assert d * (n / d) == d * q;
    assert d * (n / d - q) == d * (n / d) - d * q;
  }

  lemma {:induction false} LEOfFromLE(s: seq<Byte>)
    ensures LE(FromLE(s), |s|) == s
  {
    if s != [] {
      LEOfFromLE(s[1..]);
      assert FromLE(s) % 256 == s[0] && FromLE(s) / 256 == FromLE(s[1..]);
      assert s == [s[0]] + s[1..];
    }
  }

  function U16At(s: seq<Byte>, off: nat): U16
    requires off + 2 <= |s|
  {
    FromLEBound(s[off..off + 2]); Pow256Values();
    FromLE(s[off..off + 2])
  }

  function U32At(s: seq<Byte>, off: nat): U32
    requires off + 4 <= |s|
  {
    FromLEBound(s[off..off + 4]); Pow256Values();
    FromLE(s[off..off + 4])
  }

  function U64At(s: seq<Byte>, off: nat): U64
    requires off + 8 <= |s|
  {
    FromLEBound(s[off..off + 8]); Pow256Values();
    FromLE(s[off..off + 8])
  }

  lemma FieldIff(b: seq<Byte>, n: nat, w: nat)
    requires |b| == w && n < Pow256(w)
    ensures FromLE(b) == n <==> b == LE(n, w)
  {
    FromLEOfLE(n, w);
    LEOfFromLE(b);
  }

  // A field holds `n` exactly when its bytes are the encoding of `n`.
  lemma U16Field(s: seq<Byte>, off: nat, n: U16)
    requires off + 2 <= |s|
    ensures U16At(s, off) == n <==> s[off..off + 2] == LE(n, 2)
  {
    Pow256Values();
    FieldIff(s[off..off + 2], n, 2);
  }

  lemma U32Field(s: seq<Byte>, off: nat, n: U32)
    requires off + 4 <= |s|
    ensures U32At(s, off) == n <==> s[off..off + 4] == LE(n, 4)
  {
    Pow256Values();
    FieldIff(s[off..off + 4], n, 4);
  }

  lemma U64Field(s: seq<Byte>, off: nat, n: U64)
    requires off + 8 <= |s|
    ensures U64At(s, off) == n <==> s[off..off + 8] == LE(n, 8)
  {
    Pow256Values();
    FieldIff(s[off..off + 8], n, 8);
  }

  // Go's uint64(x) and int64(x) conversions of a 64-bit value.
  type I64 = x: int | -0x8000_0000_0000_0000 <= x < 0x8000_0000_0000_0000

  function AsU64(x: I64): U64 {
    if x < 0 then x + 0x1_0000_0000_0000_0000 else x
  }

  function AsI64(n: U64): (x: I64) {
    if n < 0x8000_0000_0000_0000 then n else n - 0x1_0000_0000_0000_0000
  }
}
