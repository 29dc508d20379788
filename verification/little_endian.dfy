// Integers as little-endian bytes.

module LittleEndian {
  import opened Division

  type Byte = b: nat | b < 256

  function Pow256(k: nat): (r: nat)
    ensures r >= 1
  {
    if k == 0 then 1 else 256 * Pow256(k - 1)
  }

  function ToBytes(n: int, k: nat): (r: seq<Byte>)
    ensures |r| == k
    decreases k
  {
    if k == 0 then [] else [n % 256] + ToBytes(n / 256, k - 1)
  }

  function FromBytes(s: seq<Byte>): nat {
    if s == [] then 0 else s[0] + 256 * FromBytes(s[1..])
  }

  function SignedFrom(s: seq<Byte>): int {
    var v := FromBytes(s);
    if |s| > 0 && v >= 128 * Pow256(|s| - 1) then v - Pow256(|s|) else v
  }

  lemma DivModStep(n: int, m: nat)
    requires m >= 1
    ensures n % (256 * m) == n % 256 + 256 * ((n / 256) % m)
  {
    var q, r := n / 256, n % 256;
    var q', r' := q / m, q % m;
    assert n == 256 * (m * q' + r') + r;
    assert n == (256 * m) * q' + (256 * r' + r);
    assert 0 <= 256 * r' + r < 256 * m;
    DivModUnique(n, 256 * m, q', 256 * r' + r);
  }

  lemma {:induction false} BytesRoundTrip(n: int, k: nat)
    ensures FromBytes(ToBytes(n, k)) == n % Pow256(k)
    decreases k
  {
    if k > 0 {
      BytesRoundTrip(n / 256, k - 1);
      assert ToBytes(n, k)[1..] == ToBytes(n / 256, k - 1);
      DivModStep(n, Pow256(k - 1));
    }
  }

  lemma SignedRoundTrip(n: int, k: nat)
    requires k > 0 && -128 * Pow256(k - 1) <= n < 128 * Pow256(k - 1)
    ensures SignedFrom(ToBytes(n, k)) == n
  {
    BytesRoundTrip(n, k);
    var m := Pow256(k);
    if n < 0 { DivModUnique(n, m, -1, n + m); } else { DivModUnique(n, m, 0, n); }
  }

  // Written unsigned and read signed, the upper half comes back negative.
  lemma UnsignedReadSigned(n: nat, k: nat)
    requires k > 0 && n < Pow256(k)
    ensures SignedFrom(ToBytes(n, k)) == if n >= 128 * Pow256(k - 1) then n - Pow256(k) else n
  {
    BytesRoundTrip(n, k);
    DivModUnique(n, Pow256(k), 0, n);
  }

  lemma Powers()
    ensures Pow256(1) == 256 && Pow256(4) == 0x1_0000_0000 && Pow256(8) == 0x1_0000_0000_0000_0000
    ensures 128 * Pow256(0) == 0x80 && 128 * Pow256(3) == 0x8000_0000 && 128 * Pow256(7) == 0x8000_0000_0000_0000
  {
    assert Pow256(2) == 0x1_0000 && Pow256(3) == 0x100_0000;
    assert Pow256(5) == 0x100_0000_0000 && Pow256(6) == 0x1_0000_0000_0000 && Pow256(7) == 0x100_0000_0000_0000;
  }
}
