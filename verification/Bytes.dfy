/** Bytes and aligned sizes, shared by the file formats and layouts. */
module Bytes {
  import opened RvArith

  type byte = x: int | 0 <= x < 256

  function Zeros(n: nat): (z: seq<byte>)
    ensures |z| == n && forall i | 0 <= i < n :: z[i] == 0
  {
    seq(n, _ => 0 as byte)
  }

  /** the number bytes stand for, the lowest first */
  function LittleEndian(b: seq<byte>): nat { if b == [] then 0 else b[0] as int + 0x100 * LittleEndian(b[1..]) }

  function Pow256(n: nat): (p: nat)
    ensures p > 0
  {
    if n == 0 then 1 else 0x100 * Pow256(n - 1)
  }

  lemma {:induction false} ValueJoin(a: seq<byte>, b: seq<byte>)
    ensures LittleEndian(a + b) == LittleEndian(a) + Pow256(|a|) * LittleEndian(b)
    decreases |a|
  {
    if a == [] {
      assert [] + b == b;
    } else {
      var rest := a[1..];
      assert (a + b)[1..] == rest + b;
      ValueJoin(rest, b);
      Widen(Pow256(|rest|), LittleEndian(b), LittleEndian(rest));
    }
  }

  lemma Widen(p: nat, v: nat, low: nat)
    ensures 0x100 * (low + p * v) == 0x100 * low + (0x100 * p) * v
  {
  }

  /** align_to */
  function AlignTo(n: nat, a: nat): (r: nat)
    requires a > 0
    ensures r % a == 0 && n <= r < n + a
  {
    AlignFacts(n, a);
    (n + a - 1) / a * a
  }

  lemma AlignFacts(n: nat, a: nat)
    requires a > 0
    ensures ((n + a - 1) / a * a) % a == 0 && n <= (n + a - 1) / a * a < n + a
  {
    var q, r := (n + a - 1) / a, (n + a - 1) % a;
    assert n + a - 1 == q * a + r;
    ModIs(q * a, a, q, 0);
  }
}
