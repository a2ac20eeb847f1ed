/** Bytes, byte masks and network-order numbers, shared by every other module. */
module Bytes {
  type byte = x: int | 0 <= x < 256

  datatype Option<+T> = None | Some(value: T)

  function Pow2(n: nat): (r: nat)
    ensures r > 0
  {
    if n == 0 then 1 else 2 * Pow2(n - 1)
  }

  /** `a ^ b` on the `n` low-order bits. */
  function XorBits(a: nat, b: nat, n: nat): (r: nat)
    ensures r < Pow2(n)
  {
    if n == 0 then 0 else (if a % 2 == b % 2 then 0 else 1) + 2 * XorBits(a / 2, b / 2, n - 1)
  }

  lemma {:induction false} XorBitsTwice(a: nat, b: nat, n: nat)
    requires a < Pow2(n)
    ensures XorBits(XorBits(a, b, n), b, n) == a
  {
    if n > 0 {
      var x := XorBits(a, b, n);
      XorBitsTwice(a / 2, b / 2, n - 1);
      assert x / 2 == XorBits(a / 2, b / 2, n - 1) && x % 2 == if a % 2 == b % 2 then 0 else 1;
    }
  }

  lemma EightBits()
    ensures Pow2(8) == 256
  {
    assert Pow2(4) == 16;
  }

  /** `a ^ b` on one byte. */
  function Xor(a: byte, b: byte): byte {
    EightBits();
    XorBits(a, b, 8)
  }

  /** Masking a byte twice with the same key restores it. */
  lemma XorInvolution(a: byte, b: byte)
    ensures Xor(Xor(a, b), b) == a
  {
    EightBits();
    XorBitsTwice(a, b, 8);
  }

  lemma DivDiv(x: nat, a: nat, b: nat)
    requires a > 0 && b > 0
    ensures a * b > 0 && x / a / b == x / (a * b)
  {
    Quotient(x, a);
    Quotient(x / a, b);
    RemainderFits(x / a % b, a, b, x % a);
    assert (x / a / b * b + x / a % b) * a == x / a / b * (a * b) + x / a % b * a;
    QuotientIs(x, a * b, x / a / b, x / a % b * a + x % a);
  }

  lemma Quotient(x: nat, d: nat)
    requires d > 0
    ensures x == x / d * d + x % d && x % d < d
  {}

  lemma RemainderFits(r: nat, a: nat, b: nat, s: nat)
    requires r < b && s < a
    ensures r * a + s < a * b
  {
    Grows(a, r, b);
  }

  lemma Grows(a: nat, m: nat, n: nat)
    requires m < n
    ensures m * a + a <= n * a
  {
    Distributes(a, m + 1, n - m - 1);
    Distributes(a, m, 1);
  }

  lemma Distributes(a: nat, m: nat, k: nat)
    ensures (m + k) * a == m * a + k * a && k * a >= 0
  {}

  lemma QuotientIs(x: nat, d: nat, q: nat, r: nat)
    requires d > 0 && x == q * d + r && r < d
    ensures x / d == q
  {
    Quotient(x, d);
    if x / d > q {
      Grows(d, q, x / d);
    } else if x / d < q {
      Grows(d, x / d, q);
    }
  }

  lemma HalfBit(x: nat, i: nat)
    requires i > 0
    ensures x / Pow2(i) == x / 2 / Pow2(i - 1)
  {
    DivDiv(x, 2, Pow2(i - 1));
  }

  /** The bit of weight `Pow2(i)` is set. */
  predicate Bit(x: nat, i: nat) {
    x / Pow2(i) % 2 == 1
  }

  lemma LowBit(x: nat)
    ensures Bit(x, 0) <==> x % 2 == 1
  {
    assert Pow2(0) == 1;
  }

  lemma NextBit(x: nat, i: nat)
    requires i > 0
    ensures Bit(x, i) <==> Bit(x / 2, i - 1)
  {
    HalfBit(x, i);
  }

  lemma {:induction false} XorBitsAt(a: nat, b: nat, n: nat, i: nat)
    requires i < n
    ensures Bit(XorBits(a, b, n), i) <==> Bit(a, i) != Bit(b, i)
  {
    hide Bit;
    var x := XorBits(a, b, n);
    if i == 0 {
      LowBit(a);
      LowBit(b);
      LowBit(x);
    } else {
      NextBit(a, i);
      NextBit(b, i);
      NextBit(x, i);
      assert x / 2 == XorBits(a / 2, b / 2, n - 1);
      XorBitsAt(a / 2, b / 2, n - 1, i - 1);
    }
  }

  /** The bits of a number make it up. */
  lemma {:induction false} BitsDetermine(x: nat, y: nat, n: nat)
    requires x < Pow2(n) && y < Pow2(n) && forall i :: 0 <= i < n ==> Bit(x, i) == Bit(y, i)
    ensures x == y
  {
    hide Bit;
    if n > 0 {
      forall i | 0 <= i < n - 1
        ensures Bit(x / 2, i) == Bit(y / 2, i)
      {
        NextBit(x, i + 1);
        NextBit(y, i + 1);
      }
      BitsDetermine(x / 2, y / 2, n - 1);
      LowBit(x);
      LowBit(y);
      assert Bit(x, 0) == Bit(y, 0);
    }
  }

  /** `a ^ b` is the byte in which every bit is set iff it is set in exactly one of the two. */
  lemma XorIff(a: byte, b: byte, c: byte)
    ensures c == Xor(a, b) <==> forall i :: 0 <= i < 8 ==> (Bit(c, i) <==> Bit(a, i) != Bit(b, i))
  {
    hide Bit;
    EightBits();
    forall i | 0 <= i < 8
      ensures Bit(Xor(a, b), i) <==> Bit(a, i) != Bit(b, i)
    {
      XorBitsAt(a, b, 8, i);
    }
    if forall i :: 0 <= i < 8 ==> (Bit(c, i) <==> Bit(a, i) != Bit(b, i)) {
      assert forall i :: 0 <= i < 8 ==> Bit(c, i) == Bit(Xor(a, b), i);
      BitsDetermine(c, Xor(a, b), 8);
    }
  }

  /** The weight `w` of a bit, if the two numbers differ in it. */
  function Differ(a: nat, b: nat, w: nat): nat
    requires w > 0
  {
    if a / w % 2 == b / w % 2 then 0 else w
  }

  lemma XorStep(a: nat, b: nat, n: nat, a1: nat, b1: nat)
    requires n > 0 && a1 == a / 2 && b1 == b / 2
    ensures XorBits(a, b, n) == (if a % 2 == b % 2 then 0 else 1) + 2 * XorBits(a1, b1, n - 1)
  {}

  lemma LowHalf(a: nat, b: nat, n: nat)
    requires n >= 4
    ensures XorBits(a, b, n)
      == Differ(a, b, 1) + Differ(a, b, 2) + Differ(a, b, 4) + Differ(a, b, 8) + 16 * XorBits(a / 16, b / 16, n - 4)
  {
    XorStep(a, b, n, a / 2, b / 2);
    XorStep(a / 2, b / 2, n - 1, a / 4, b / 4);
    XorStep(a / 4, b / 4, n - 2, a / 8, b / 8);
    XorStep(a / 8, b / 8, n - 3, a / 16, b / 16);
  }

  lemma HighDiffer(a: nat, b: nat, w: nat)
    requires w > 0
    ensures 16 * Differ(a / 16, b / 16, w) == Differ(a, b, 16 * w)
  {
    DivDiv(a, 16, w);
    DivDiv(b, 16, w);
  }

  lemma NoBits(a: nat, b: nat)
    ensures XorBits(a, b, 0) == 0
  {}

  /** `a ^ b` is the sum of the weights of the bits in which the two differ. */
  lemma XorSum(a: byte, b: byte)
    ensures Xor(a, b)
      == Differ(a, b, 1) + Differ(a, b, 2) + Differ(a, b, 4) + Differ(a, b, 8)
         + Differ(a, b, 16) + Differ(a, b, 32) + Differ(a, b, 64) + Differ(a, b, 128)
  {
    hide XorBits, Differ;
    LowHalf(a, b, 8);
    LowHalf(a / 16, b / 16, 4);
    HighDiffer(a, b, 1);
    HighDiffer(a, b, 2);
    HighDiffer(a, b, 4);
    HighDiffer(a, b, 8);
    NoBits(a / 16 / 16, b / 16 / 16);
  }

  /** The `n` low-order bytes of `v`, most significant first. */
  function ToBigEndian(v: nat, n: nat): (r: seq<byte>)
    ensures |r| == n
  {
    if n == 0 then [] else ToBigEndian(v / 256, n - 1) + [v % 256]
  }

  /** The number that `bs` spells, most significant byte first. */
  function FromBigEndian(bs: seq<byte>): nat {
    if bs == [] then 0 else FromBigEndian(bs[..|bs| - 1]) * 256 + bs[|bs| - 1]
  }

  function Pow256(n: nat): (r: nat)
    ensures r > 0
  {
    if n == 0 then 1 else 256 * Pow256(n - 1)
  }

  /** The most significant byte comes first. */
  lemma {:induction false} BigEndianAt(v: nat, n: nat, i: nat)
    requires i < n
    ensures ToBigEndian(v, n)[i] == v / Pow256(n - 1 - i) % 256
  {
    if i < n - 1 {
      BigEndianAt(v / 256, n - 1, i);
      DivDiv(v, 256, Pow256(n - 2 - i));
    }
  }

  /** Reading back what was written in network order is the identity on every value that fits. */
  lemma {:induction false} BigEndianRoundTrip(v: nat, n: nat)
    requires v < Pow256(n)
    ensures FromBigEndian(ToBigEndian(v, n)) == v
  {
    if n > 0 {
      BigEndianRoundTrip(v / 256, n - 1);
      assert ToBigEndian(v, n)[..n - 1] == ToBigEndian(v / 256, n - 1);
    }
  }

  /** Writing what was read gives the same bytes. */
  lemma {:induction false} BigEndianInverse(bs: seq<byte>)
    ensures FromBigEndian(bs) < Pow256(|bs|) && ToBigEndian(FromBigEndian(bs), |bs|) == bs
  {
    if bs != [] {
      BigEndianInverse(bs[..|bs| - 1]);
    }
  }

  function Concat<T>(parts: seq<seq<T>>): seq<T> {
    if parts == [] then [] else parts[0] + Concat(parts[1..])
  }

  lemma {:induction false} ConcatAppend<T>(a: seq<seq<T>>, b: seq<seq<T>>)
    ensures Concat(a + b) == Concat(a) + Concat(b)
  {
    if a == [] {
      assert a + b == b;
    } else {
      assert (a + b)[1..] == a[1..] + b;
      ConcatAppend(a[1..], b);
    }
  }

  lemma SlicePrefix<T>(q: seq<T>, more: seq<T>, a: nat, b: nat)
    requires a <= b <= |q|
    ensures (q + more)[a..b] == q[a..b] && (q + more)[b..] == q[b..] + more
  {}

  lemma SliceOfSlice<T>(q: seq<T>, a: nat, b: nat, c: nat)
    requires a <= c <= b <= |q|
    ensures q[a..b][..c - a] == q[a..c]
  {}

  lemma SliceTwice<T>(q: seq<T>, a: nat, b: nat)
    requires a + b <= |q|
    ensures q[a..][..b] == q[a..a + b] && q[a..][b..] == q[a + b..]
  {}

  /** A prefix of what is behind a prefix. */
  lemma PrefixThen<T>(a: seq<T>, b: seq<T>, s: seq<T>)
    requires a <= s && b <= s[|a|..]
    ensures a + b <= s && s[|a + b|..] == s[|a|..][|b|..]
  {
    var rest := s[|a|..];
    assert s == a + rest && rest == b + rest[|b|..];
    assert s == a + b + rest[|b|..];
  }

  /** One more element of a prefix. */
  lemma PrefixStep<T>(q: seq<T>, i: nat)
    requires 1 <= i < |q|
    ensures q[..i + 1][..i] == q[..i] && q[..i][..i - 1] == q[..i - 1] && q[..i + 1] == q[..i] + [q[i]]
  {}

  lemma SingleByte(b: byte)
    ensures FromBigEndian([b]) == b
  {
    assert [b][..0] == [];
  }

  // ---- Folds -----------------------------------------------------------------------------------

  /** The state after feeding the first `i` elements of `data` to `f`, one by one. */
  function Fold<S, T>(f: (S, T) -> S, s: S, data: seq<T>, i: nat): S
    requires i <= |data|
  {
    if i == 0 then s else f(Fold(f, s, data, i - 1), data[i - 1])
  }

  lemma {:induction false} FoldPrefix<S, T>(f: (S, T) -> S, s: S, data: seq<T>, more: seq<T>, i: nat)
    requires i <= |data|
    ensures Fold(f, s, data + more, i) == Fold(f, s, data, i)
  {
    if i > 0 {
      FoldPrefix(f, s, data, more, i - 1);
    }
  }

  lemma {:induction false} FoldAppend<S, T>(f: (S, T) -> S, s: S, a: seq<T>, b: seq<T>, j: nat)
    requires j <= |b|
    ensures Fold(f, s, a + b, |a| + j) == Fold(f, Fold(f, s, a, |a|), b, j)
  {
    if j == 0 {
      FoldPrefix(f, s, a, b, |a|);
    } else {
      FoldAppend(f, s, a, b, j - 1);
      assert (a + b)[|a| + j - 1] == b[j - 1];
    }
  }

  /** A state that `f` never leaves is final. */
  lemma {:induction false} FoldStays<S, T(!new)>(f: (S, T) -> S, s: S, data: seq<T>, i: nat, j: nat)
    requires i <= j <= |data| && forall t :: f(Fold(f, s, data, i), t) == Fold(f, s, data, i)
    ensures Fold(f, s, data, j) == Fold(f, s, data, i)
  {
    if i < j {
      FoldStays(f, s, data, i, j - 1);
    }
  }
}
