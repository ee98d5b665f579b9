/** Bytes and the big-endian reading of byte strings. */
module Bytes {
  type Byte = b: int | 0 <= b < 256

  function Pow256(n: nat): (r: nat)
    ensures r > 0
  {
    if n == 0 then 1 else 256 * Pow256(n - 1)
  }

  /** `(acc << 8) | b` for each byte in turn. */
  function Fold(acc: nat, bs: seq<Byte>): nat
    decreases bs
  {
    if bs == [] then acc else Fold(acc * 256 + bs[0], bs[1..])
  }

  /** The `n` low-order bytes of `v`, most significant first. */
  function BigEndian(v: nat, n: nat): (bs: seq<Byte>)
    ensures |bs| == n
  {
    if n == 0 then [] else BigEndian(v / 256, n - 1) + [v % 256]
  }

  lemma FoldSnoc(acc: nat, bs: seq<Byte>, b: Byte)
    ensures Fold(acc, bs + [b]) == Fold(acc, bs) * 256 + b
    decreases bs
  {
    if bs == [] {
      assert [b][1..] == [];
      assert bs + [b] == [b];
    } else {
      assert (bs + [b])[1..] == bs[1..] + [b];
      FoldSnoc(acc * 256 + bs[0], bs[1..], b);
    }
  }

  lemma {:induction false} FoldBigEndian(acc: nat, v: nat, n: nat)
    requires v < Pow256(n)
    ensures Fold(acc, BigEndian(v, n)) == acc * Pow256(n) + v
  {
    if n > 0 {
      FoldBigEndian(acc, v / 256, n - 1);
      FoldSnoc(acc, BigEndian(v / 256, n - 1), v % 256);
      Shifted(acc, Pow256(n - 1));
    }
  }

  lemma Shifted(a: nat, p: nat)
    ensures (a * p) * 256 == a * (256 * p)
  {}

  lemma FoldCons(acc: nat, b: Byte, rest: seq<Byte>)
    ensures Fold(acc, [b] + rest) == Fold(acc * 256 + b, rest)
  {
    assert ([b] + rest)[1..] == rest;
  }

  lemma FoldFour(x: Byte, y: Byte, z: Byte, w: Byte)
    ensures Fold(0, [x, y, z, w]) == ((x * 256 + y) * 256 + z) * 256 + w
  {
    assert [x, y, z, w] == [x] + ([y] + ([z] + ([w] + [])));
    FoldCons(0, x, [y] + ([z] + ([w] + [])));
    FoldCons(x, y, [z] + ([w] + []));
    FoldCons(x * 256 + y, z, [w] + []);
    FoldCons((x * 256 + y) * 256 + z, w, []);
  }

  lemma DivBound(v: nat, p: nat, m: nat)
    requires p > 0 && v < m * p
    ensures 0 <= v / p < m && v == (v / p) * p + v % p
  {
    if v / p >= m {
      MulMono(m, v / p, p);
      assert false;
    }
  }

  lemma MulMono(a: nat, b: nat, p: nat)
    requires a <= b
    ensures a * p <= b * p
  {
  }
}
