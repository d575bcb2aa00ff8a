/** Fixed-width little-endian integers and LSB-first bitmaps over byte strings. */
module Bytes {
  type byte = x: int | 0 <= x < 256
  type uint32 = x: int | 0 <= x < 0x1_0000_0000
  type uint64 = x: int | 0 <= x < 0x1_0000_0000_0000_0000

  datatype Option<+T> = None | Some(value: T)

  function Min(a: int, b: int): int { if a < b then a else b }

  /** Go's int64(x) on a uint64. */
  function ToInt64(x: uint64): int {
    if x < 0x8000_0000_0000_0000 then x else x - 0x1_0000_0000_0000_0000
  }

  /** The result of an int64 operation whose exact value is x. */
  function Int64(x: int): int { ToInt64(x % 0x1_0000_0000_0000_0000) }

  predicate AllZero(b: seq<byte>) { forall k :: 0 <= k < |b| ==> b[k] == 0 }

  function Zeros(n: nat): (z: seq<byte>)
    ensures |z| == n && AllZero(z)
  {
    seq(n, _ => 0)
  }

  lemma AllZeroIsZeros(b: seq<byte>)
    requires AllZero(b)
    ensures b == Zeros(|b|)
  {
  }

  // ---- little-endian integers ----

  function Pow256(w: nat): (p: nat)
    ensures p > 0
  {
    if w == 0 then 1 else 256 * Pow256(w - 1)
  }

  /** The low `w` bytes of n, least significant first (larger values are truncated). */
  function LE(n: nat, w: nat): (b: seq<byte>)
    ensures |b| == w
  {
    if w == 0 then [] else [n % 256] + LE(n / 256, w - 1)
  }

  function FromLE(b: seq<byte>): (n: nat)
    ensures n < Pow256(|b|)
  {
    if b == [] then 0 else b[0] + 256 * FromLE(b[1..])
  }

  lemma {:induction false} FromLEofLE(n: nat, w: nat)
    requires n < Pow256(w)
    ensures FromLE(LE(n, w)) == n
  {
    if w > 0 {
      FromLEofLE(n / 256, w - 1);
      assert LE(n, w)[1..] == LE(n / 256, w - 1);
    }
  }

  lemma {:induction false} LEofFromLE(b: seq<byte>)
    ensures LE(FromLE(b), |b|) == b
  {
    if b != [] {
      LEofFromLE(b[1..]);
      assert FromLE(b) % 256 == b[0] && FromLE(b) / 256 == FromLE(b[1..]);
      assert b == [b[0]] + b[1..];
    }
  }

  lemma Pow256Values()
    ensures Pow256(4) == 0x1_0000_0000
    ensures Pow256(8) == 0x1_0000_0000_0000_0000
  {
    assert Pow256(1) == 256;
    assert Pow256(2) == 0x1_0000;
    assert Pow256(3) == 0x100_0000;
    assert Pow256(4) == 0x1_0000_0000;
    assert Pow256(5) == 0x100_0000_0000;
    assert Pow256(6) == 0x1_0000_0000_0000;
    assert Pow256(7) == 0x100_0000_0000_0000;
  }

  function Read32(b: seq<byte>, off: nat): (n: uint32)
    requires off + 4 <= |b|
  {
    Pow256Values();
    FromLE(b[off..off + 4])
  }

  function Read64(b: seq<byte>, off: nat): (n: uint64)
    requires off + 8 <= |b|
  {
    Pow256Values();
    FromLE(b[off..off + 8])
  }

  // ---- bits ----

  function Pow2(w: nat): (p: nat)
    ensures p > 0
  {
    if w == 0 then 1 else 2 * Pow2(w - 1)
  }

  lemma Pow2Eight()
    ensures Pow2(8) == 256
  {
    assert Pow2(4) == 16;
  }

  /** Bit k of b, least significant first. */
  predicate Bit(b: nat, k: nat) {
    if k == 0 then b % 2 == 1 else Bit(b / 2, k - 1)
  }

  /** b | 1<<k on a w-bit number, by recursion on the bits of b. */
  function SetBitIn(b: nat, k: nat, w: nat): (r: nat)
    requires k < w && b < Pow2(w)
    ensures r < Pow2(w)
  {
    var half := Pow2(w - 1);
    assert Pow2(w) == 2 * half;
    assert b == 2 * (b / 2) + b % 2 && b / 2 < half;
    if k == 0 then 2 * (b / 2) + 1
    else b % 2 + 2 * SetBitIn(b / 2, k - 1, w - 1)
  }

  function SetBit(b: byte, k: nat): (r: byte)
    requires k < 8
  {
    Pow2Eight();
    SetBitIn(b, k, 8)
  }

  /** SetBitIn is a bitwise or with a one-bit mask. */
  lemma {:induction false} SetBitIsOr(b: nat, k: nat, w: nat, j: nat)
    requires k < w && b < Pow2(w)
    ensures Bit(SetBitIn(b, k, w), j) == (j == k || Bit(b, j))
  {
    if k > 0 && j > 0 {
      SetBitIsOr(b / 2, k - 1, w - 1, j - 1);
    }
  }

  /** A byte is determined by its bits: equal on the first w bits and below 2^w. */
  lemma {:induction false} ByteExt(b: nat, c: nat, w: nat)
    requires b < Pow2(w) && c < Pow2(w)
    requires forall k :: 0 <= k < w ==> Bit(b, k) == Bit(c, k)
    ensures b == c
  {
    if w > 0 {
      assert Bit(b, 0) == Bit(c, 0);
      forall k | 0 <= k < w - 1 ensures Bit(b / 2, k) == Bit(c / 2, k) {
        assert Bit(b, k + 1) == Bit(c, k + 1);
      }
      ByteExt(b / 2, c / 2, w - 1);
    }
  }

  lemma {:induction false} ZeroBits(k: nat)
    ensures !Bit(0, k)
  {
    if k > 0 { ZeroBits(k - 1); }
  }

  // ---- bitmaps ----

  function BitmapLen(n: nat): nat { (n + 7) / 8 }

  /** Bit i of an LSB-first bitmap. */
  predicate BitAt(m: seq<byte>, i: nat)
    requires i < 8 * |m|
  {
    Bit(m[i / 8], i % 8)
  }

  /** `bitmap[i/8] |= 1 << (i%8)`. */
  function SetBitAt(m: seq<byte>, i: nat): (r: seq<byte>)
    requires i < 8 * |m|
    ensures |r| == |m|
  {
    m[i / 8 := SetBit(m[i / 8], i % 8)]
  }

  lemma SetBitAtIs(m: seq<byte>, i: nat, j: nat)
    requires i < 8 * |m| && j < 8 * |m|
    ensures BitAt(SetBitAt(m, i), j) == (j == i || BitAt(m, j))
  {
    if j / 8 == i / 8 {
      Pow2Eight();
      SetBitIsOr(m[i / 8], i % 8, 8, j % 8);
    }
  }

  /** The bitmap of `bits`, with zero padding bits. */
  function Bitmap(bits: seq<bool>): (m: seq<byte>)
    ensures |m| == BitmapLen(|bits|)
    ensures forall j :: 0 <= j < 8 * |m| ==> BitAt(m, j) == (j < |bits| && bits[j])
  {
    if bits == [] then []
    else
      var n := |bits| - 1;
      var m0 := Bitmap(bits[..n]);
      var m1 := if BitmapLen(n + 1) == |m0| then m0 else m0 + [0];
      assert forall j :: 0 <= j < 8 * |m1| ==> BitAt(m1, j) == (j < n && bits[j]) by {
        forall j | 0 <= j < 8 * |m1| ensures BitAt(m1, j) == (j < n && bits[j]) {
          if j < 8 * |m0| {
            assert BitAt(m0, j) == (j < n && bits[j]);
          } else {
            ZeroBits(j % 8);
          }
        }
      }
      assert forall j :: 0 <= j < 8 * |m1| ==>
        BitAt(SetBitAt(m1, n), j) == (j == n || BitAt(m1, j)) by {
        forall j | 0 <= j < 8 * |m1| ensures BitAt(SetBitAt(m1, n), j) == (j == n || BitAt(m1, j)) {
          SetBitAtIs(m1, n, j);
        }
      }
      if bits[n] then SetBitAt(m1, n) else m1
  }

  /** A bitmap is determined by its length and its bits. */
  lemma BitmapExt(m: seq<byte>, m': seq<byte>)
    requires |m| == |m'|
    requires forall j :: 0 <= j < 8 * |m| ==> BitAt(m, j) == BitAt(m', j)
    ensures m == m'
  {
    forall i | 0 <= i < |m| ensures m[i] == m'[i] {
      forall k | 0 <= k < 8 ensures Bit(m[i], k) == Bit(m'[i], k) {
        assert BitAt(m, 8 * i + k) == BitAt(m', 8 * i + k);
      }
      Pow2Eight();
      ByteExt(m[i], m'[i], 8);
    }
  }

  /** The first n bits of a bitmap. */
  function Unbitmap(m: seq<byte>, n: nat): (bits: seq<bool>)
    requires n <= 8 * |m|
    ensures |bits| == n && forall i :: 0 <= i < n ==> bits[i] == BitAt(m, i)
  {
    seq(n, i requires 0 <= i < n => BitAt(m, i))
  }

  /** How many flags are set. */
  function Count(bits: seq<bool>): (c: nat)
    ensures c <= |bits|
  {
    if bits == [] then 0 else Count(bits[..|bits| - 1]) + (if bits[|bits| - 1] then 1 else 0)
  }

  lemma {:induction false} CountUpdate(bits: seq<bool>, i: nat)
    requires i < |bits| && !bits[i]
    ensures Count(bits[i := true]) == Count(bits) + 1
  {
    var n := |bits| - 1;
    if i == n {
      assert bits[i := true][..n] == bits[..n];
    } else {
      CountUpdate(bits[..n], i);
      assert bits[i := true][..n] == bits[..n][i := true];
    }
  }

  predicate SubsetOf(a: seq<bool>, b: seq<bool>) {
    |a| == |b| && forall i :: 0 <= i < |a| && a[i] ==> b[i]
  }

  lemma {:induction false} CountMono(a: seq<bool>, b: seq<bool>)
    requires SubsetOf(a, b)
    ensures Count(a) <= Count(b)
    ensures Count(a) == Count(b) ==> a == b
  {
    if a != [] {
      var n := |a| - 1;
      CountMono(a[..n], b[..n]);
      assert a == a[..n] + [a[n]] && b == b[..n] + [b[n]];
    }
  }

  lemma {:induction false} CountNone(a: seq<bool>)
    requires forall i :: 0 <= i < |a| ==> !a[i]
    ensures Count(a) == 0
  {
    if a != [] { CountNone(a[..|a| - 1]); }
  }
}
