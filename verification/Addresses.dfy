/** The /30 carved for a slot index, and the names derived from it (network/pool.go, network/natid.go). */
module Addresses {
  import opened Bytes
  import opened SlotStores

  /** Go's uint32 arithmetic wraps. */
  function U32(x: int): uint32 { x % 0x1_0000_0000 }

  lemma U32Small(x: int)
    requires 0 <= x < 0x1_0000_0000
    ensures U32(x) == x
  {
  }

  /** A carved /30: its first address and the two usable ones. */
  datatype Block = Block(start: uint32, host: uint32, guest: uint32)

  /** uint32(1) << (32 - ones); a shift by 32 gives zero. */
  function BlockSize(ones: nat): uint32
    requires ones <= 32
  {
    U32(Pow2(32 - ones))
  }

  function PoolCapacity(ones: nat): uint32
    requires ones <= 32
  {
    BlockSize(ones) / 4
  }

  /** carve: the idx-th /30 of base/ones. */
  function Carve(base: uint32, ones: nat, idx: uint32): Option<Block>
    requires ones <= 32
  {
    if U32(U32(idx * 4) + 4) > BlockSize(ones) then None
    else
      var s := U32(base + U32(idx * 4));
      Some(Block(s, U32(s + 1), U32(s + 2)))
  }

  const NATID_BASE: uint32 := 0x0AC8_0000  // 10.200.0.0
  const NATID_SIZE: uint32 := 0x1_0000     // a /16

  /** carveNATID. */
  function CarveNatid(idx: uint32): Option<Block> {
    var s := U32(NATID_BASE + U32(idx * 4));
    if U32(s + 4) > U32(NATID_BASE + NATID_SIZE) then None else Some(Block(s, U32(s + 1), U32(s + 2)))
  }

  /** base is the network address of a prefix: aligned and not past the end of the address space. */
  predicate NetworkBase(base: uint32, ones: nat) {
    && 1 <= ones <= 30
    && base % Pow2(32 - ones) == 0
    && base + Pow2(32 - ones) <= 0x1_0000_0000
  }

  lemma {:induction false} Pow2Mono(a: nat, b: nat)
    requires a <= b
    ensures Pow2(a) <= Pow2(b)
  {
    if a < b { Pow2Mono(a, b - 1); }
  }

  lemma {:induction false} Pow2Split(a: nat, b: nat)
    ensures Pow2(a + b) == Pow2(a) * Pow2(b)
  {
    if a > 0 {
      Pow2Split(a - 1, b);
      assert Pow2(a) * Pow2(b) == 2 * (Pow2(a - 1) * Pow2(b));
    }
  }

  lemma Pow2At31()
    ensures Pow2(31) == 0x8000_0000
  {
    Pow2Eight();
    Pow2Split(8, 7);
    Pow2Split(8, 8);
    Pow2Split(16, 15);
  }

  lemma SizeFacts(ones: nat)
    requires 1 <= ones <= 30
    ensures Pow2(32 - ones) == BlockSize(ones) && BlockSize(ones) % 4 == 0
    ensures PoolCapacity(ones) * 4 == BlockSize(ones)
  {
    Pow2Mono(32 - ones, 31);
    Pow2At31();
    Pow2Split(2, 30 - ones);
    assert Pow2(2) == 4;
  }

  /** Below the pool's capacity nothing wraps: the block lies inside the base and its addresses are its own. */
  lemma CarveInside(base: uint32, ones: nat, idx: uint32)
    requires NetworkBase(base, ones) && idx < PoolCapacity(ones)
    ensures Carve(base, ones, idx) == Some(Block(base + 4 * idx, base + 4 * idx + 1, base + 4 * idx + 2))
    ensures base <= base + 4 * idx && base + 4 * idx + 4 <= base + BlockSize(ones)
  {
    hide U32, BlockSize, PoolCapacity;
    SizeFacts(ones);
    U32Small(idx * 4);
    U32Small(idx * 4 + 4);
    U32Small(base + idx * 4);
    U32Small(base + idx * 4 + 1);
    U32Small(base + idx * 4 + 2);
  }

  /** idx*4 in uint32 arithmetic, for every index. */
  lemma TimesFour(idx: uint32)
    ensures U32(idx * 4) == 4 * (idx % 0x4000_0000)
  {
    assert idx * 4 == 0x1_0000_0000 * (idx / 0x4000_0000) + 4 * (idx % 0x4000_0000);
    DivUnique(idx * 4, 0x1_0000_0000, idx / 0x4000_0000, 4 * (idx % 0x4000_0000));
  }

  /** Which indices carve accepts: those that are below the capacity modulo 2^30, and those that are 2^30 - 1 modulo
      2^30, for which the end of the block wraps to zero. */
  lemma CarveAcceptsIff(base: uint32, ones: nat, idx: uint32)
    requires NetworkBase(base, ones)
    ensures Carve(base, ones, idx).Some? <==>
      idx % 0x4000_0000 < PoolCapacity(ones) || idx % 0x4000_0000 == 0x3FFF_FFFF
  {
    SizeFacts(ones);
    TimesFour(idx);
    hide BlockSize, PoolCapacity;
    if idx % 0x4000_0000 < 0x3FFF_FFFF {
      U32Small(4 * (idx % 0x4000_0000) + 4);
    }
  }

  /** The index is given its own block, inside the base, exactly when it is below the capacity; the other accepted
      indices get another slot's block or one before the base. */
  lemma CarveOwnBlockIff(base: uint32, ones: nat, idx: uint32)
    requires NetworkBase(base, ones)
    ensures (Carve(base, ones, idx).Some?
             && var s := Carve(base, ones, idx).value.start;
                s == base + 4 * idx && s + 4 <= base + BlockSize(ones))
            <==> idx < PoolCapacity(ones)
  {
    SizeFacts(ones);
    hide Carve, BlockSize, PoolCapacity;
    if idx < PoolCapacity(ones) {
      CarveInside(base, ones, idx);
    }
  }

  /** A ledger has at most as many rows as the largest pool ever seeded, so carve accepts a claimed index exactly when
      it is below the capacity, and on a ledger of the pool's own size always, with the block inside the base. */
  lemma ClaimedIndexCarves(base: uint32, ones: nat, rows: Rows, id: Id)
    requires NetworkBase(base, ones) && |rows| <= 0x2000_0000 && ClaimIdx(rows, id).Some?
    ensures var i := ClaimIdx(rows, id).value;
      && i < |rows|
      && (Carve(base, ones, i).Some? <==> i < PoolCapacity(ones))
      && (|rows| == PoolCapacity(ones) ==> Carve(base, ones, i) == Some(Block(base + 4 * i, base + 4 * i + 1, base + 4 * i + 2)))
  {
    hide Carve, BlockSize, PoolCapacity, NetworkBase, Pow2;
    assert 1 <= ones <= 30 by { BaseOnes(base, ones); }
    var i := ClaimIdx(rows, id).value;
    CarveAcceptsIff(base, ones, i);
    SmallIndex(i);
    if i < PoolCapacity(ones) {
      CarveInside(base, ones, i);
    }
  }

  lemma BaseOnes(base: uint32, ones: nat)
    requires NetworkBase(base, ones)
    ensures 1 <= ones <= 30
  {
  }

  lemma SmallIndex(i: nat)
    requires i < 0x2000_0000
    ensures i % 0x4000_0000 == i
  {
  }

  /** After a capacity reduction the higher rows are claimed all the same, once every row below the new capacity is
      taken; carve then refuses the index. */
  lemma HigherRowClaimedIff(base: uint32, ones: nat, rows: Rows, id: Id)
    requires NetworkBase(base, ones) && PoolCapacity(ones) <= |rows| <= 0x2000_0000 && Some(Sandbox(id)) !in rows
    ensures (ClaimIdx(rows, id).Some? && Carve(base, ones, ClaimIdx(rows, id).value).None?)
            <==> None in rows && forall j :: 0 <= j < PoolCapacity(ones) ==> rows[j].Some?
  {
    hide Carve, BlockSize, PoolCapacity, NetworkBase;
    if ClaimIdx(rows, id).Some? {
      ClaimedIndexCarves(base, ones, rows, id);
    }
  }

  /** Slots held at the same time have disjoint blocks and distinct host and guest addresses. */
  lemma SlotsDisjoint(base: uint32, ones: nat, i: uint32, j: uint32)
    requires NetworkBase(base, ones) && i < PoolCapacity(ones) && j < PoolCapacity(ones) && i != j
    ensures Carve(base, ones, i).Some? && Carve(base, ones, j).Some?
    ensures var (a, b) := (Carve(base, ones, i).value, Carve(base, ones, j).value);
      && (a.start + 4 <= b.start || b.start + 4 <= a.start)
      && {a.host, a.guest} !! {b.host, b.guest}
  {
    hide Carve, PoolCapacity, BlockSize;
    CarveInside(base, ones, i);
    CarveInside(base, ones, j);
  }

  /** carveNATID below its 16384 slots, and at the first index past them. */
  lemma CarveNatidInside(i: uint32)
    requires i <= 16384
    ensures CarveNatid(i) == if i < 16384 then Some(Block(NATID_BASE + 4 * i, NATID_BASE + 4 * i + 1, NATID_BASE + 4 * i + 2)) else None
  {
    hide U32;
    U32Small(i * 4);
    U32Small(NATID_BASE + i * 4);
    U32Small(NATID_BASE + i * 4 + 4);
    U32Small(NATID_BASE + i * 4 + 1);
    U32Small(NATID_BASE + i * 4 + 2);
    U32Small(NATID_BASE + NATID_SIZE);
  }

  /** Which indices carveNATID accepts: modulo 2^30, the 16384 of its base, and those whose block, after the address
      wraps, ends at or before the base's end: from 2^30 - base/4 - 1 on. */
  lemma CarveNatidAcceptsIff(idx: uint32)
    ensures CarveNatid(idx).Some? <==> idx % 0x4000_0000 < 16384 || idx % 0x4000_0000 >= 0x4000_0000 - NATID_BASE / 4 - 1
    ensures CarveNatid(idx).Some? && NATID_BASE <= CarveNatid(idx).value.start ==>
      idx % 0x4000_0000 < 16384 || idx % 0x4000_0000 == 0x4000_0000 - NATID_BASE / 4 - 1
  {
    TimesFour(idx);
    var k := idx % 0x4000_0000;
    U32Small(NATID_BASE + NATID_SIZE);
    if NATID_BASE + 4 * k < 0x1_0000_0000 {
      U32Small(NATID_BASE + 4 * k);
      if NATID_BASE + 4 * k + 4 < 0x1_0000_0000 {
        U32Small(NATID_BASE + 4 * k + 4);
      } else {
        assert k == 0x4000_0000 - NATID_BASE / 4 - 1;
      }
    } else {
      DivUnique(NATID_BASE + 4 * k, 0x1_0000_0000, 1, NATID_BASE + 4 * k - 0x1_0000_0000);
      U32Small(NATID_BASE + 4 * k - 0x1_0000_0000 + 4);
    }
  }

  lemma CarveNatidOwnBlockIff(idx: uint32)
    ensures (CarveNatid(idx).Some?
             && var s := CarveNatid(idx).value.start;
                s == NATID_BASE + 4 * idx && s + 4 <= NATID_BASE + NATID_SIZE)
            <==> idx < 16384
  {
    hide CarveNatid;
    if idx < 16384 {
      CarveNatidInside(idx);
    }
  }

  /** The NATID path: 16384 slots, all inside 10.200.0.0/16, disjoint, the next index refused. */
  lemma NatidSlotsDisjoint(i: uint32, j: uint32)
    requires i < 16384 && j < 16384 && i != j
    ensures CarveNatid(i).Some? && CarveNatid(j).Some? && CarveNatid(16384).None?
    ensures var (a, b) := (CarveNatid(i).value, CarveNatid(j).value);
      && NATID_BASE <= a.start && a.start + 4 <= NATID_BASE + NATID_SIZE
      && (a.start + 4 <= b.start || b.start + 4 <= a.start)
      && {a.host, a.guest} !! {b.host, b.guest}
  {
    hide CarveNatid;
    CarveNatidInside(i);
    CarveNatidInside(j);
    CarveNatidInside(16384);
  }

  /** macFromIP keeps the low three bytes of the address. */
  function MacFromIP(ip: uint32): seq<byte> {
    [0x06, 0x00, 0xAC, (ip / 0x1_0000) % 256, (ip / 0x100) % 256, ip % 256]
  }

  lemma MacBytes(a: uint32)
    ensures (a / 0x1_0000) % 256 == (a % 0x100_0000) / 0x1_0000
    ensures (a / 0x100) % 256 == (a % 0x1_0000) / 0x100
    ensures (a % 0x100_0000) % 0x1_0000 == a % 0x1_0000
    ensures (a % 0x1_0000) % 0x100 == a % 0x100
  {
    DivMod(a, 0x1_0000, 0x100);
    DivMod(a, 0x100, 0x100);
    ModMod(a, 0x1_0000, 0x100);
    ModMod(a, 0x100, 0x100);
  }

  lemma DivMod(a: nat, m: nat, n: nat)
    requires m > 0 && n > 0
    ensures m * n > 0 && (a / m) % n == (a % (m * n)) / m
  {
    var q, r := a / (m * n), a % (m * n);
    assert a == (m * n) * q + r;
    assert a == m * (n * q) + r by { assert (m * n) * q == m * (n * q); }
    assert m * (n * q + r / m) == m * (n * q) + m * (r / m);
    DivUnique(a, m, n * q + r / m, r % m);
    assert r / m < n by { if r / m >= n { MulMono(n, r / m, m); } }
    DivUnique(n * q + r / m, n, q, r / m);
  }

  lemma ModMod(a: nat, m: nat, n: nat)
    requires m > 0 && n > 0
    ensures m * n > 0 && (a % (m * n)) % m == a % m
  {
    var q, r := a / (m * n), a % (m * n);
    assert a == m * (n * q) + r by { assert (m * n) * q == m * (n * q); }
    assert m * (n * q + r / m) == m * (n * q) + m * (r / m);
    DivUnique(a, m, n * q + r / m, r % m);
  }

  lemma DivUnique(a: int, d: nat, q: int, r: int)
    requires 0 <= r < d
    requires a == d * q + r
    ensures a / d == q && a % d == r
  {
    var p := a / d;
    if p < q { MulMono(p + 1, q, d); } else if p > q { MulMono(q + 1, p, d); }
  }

  lemma MacIsLowBytes(a: uint32, b: uint32)
    ensures MacFromIP(a) == MacFromIP(b) <==> a % 0x100_0000 == b % 0x100_0000
  {
    MacBytes(a);
    MacBytes(b);
    var (x, y) := (MacFromIP(a), MacFromIP(b));
    if x == y {
      assert x[3] == y[3] && x[4] == y[4] && x[5] == y[5];
    }
  }

  /** Guest MACs of distinct slots are distinct exactly when the base is a /8 or longer. */
  lemma MacsDistinctIff(base: uint32, ones: nat)
    requires NetworkBase(base, ones)
    ensures (forall i: uint32, j: uint32 :: i < PoolCapacity(ones) && j < PoolCapacity(ones) && i != j ==>
        MacFromIP(U32(base + 4 * i + 2)) != MacFromIP(U32(base + 4 * j + 2)))
      <==> ones >= 8
  {
    hide U32, PoolCapacity, BlockSize, MacFromIP;
    SizeFacts(ones);
    Pow2At24();
    if ones >= 8 {
      forall i: uint32, j: uint32 | i < PoolCapacity(ones) && j < PoolCapacity(ones) && i != j
        ensures MacFromIP(U32(base + 4 * i + 2)) != MacFromIP(U32(base + 4 * j + 2))
      {
        MacsDiffer(base, ones, 4 * i + 2, 4 * j + 2);
      }
    } else {
      Pow2Mono(25, 32 - ones);
      var j: uint32 := 0x40_0000;
      U32Small(base + 4 * 0 + 2);
      U32Small(base + 4 * j + 2);
      MacIsLowBytes(base + 2, base + 2 + 0x100_0000);
      ModAdd(base + 2);
      assert MacFromIP(U32(base + 4 * 0 + 2)) == MacFromIP(U32(base + 4 * j + 2));
    }
  }

  lemma ModAdd(x: nat)
    ensures (x + 0x100_0000) % 0x100_0000 == x % 0x100_0000
  {
  }

  lemma Pow2At24()
    ensures Pow2(24) == 0x100_0000 && Pow2(25) == 0x200_0000
  {
    Pow2Eight();
    Pow2Split(16, 8);
    Pow2Split(8, 8);
    assert Pow2(25) == 2 * Pow2(24);
  }

  lemma MacsDiffer(base: uint32, ones: nat, k: nat, l: nat)
    requires NetworkBase(base, ones) && ones >= 8 && k != l && k < Pow2(32 - ones) && l < Pow2(32 - ones)
    ensures MacFromIP(U32(base + k)) != MacFromIP(U32(base + l))
  {
    hide U32, MacFromIP;
    Pow2At24();
    Pow2Mono(32 - ones, 24);
    U32Small(base + k);
    U32Small(base + l);
    MacIsLowBytes(base + k, base + l);
    SameTopByte(base, ones, k);
    SameTopByte(base, ones, l);
  }

  /** Inside a /8 or longer prefix the low 24 bits grow with the offset. */
  lemma SameTopByte(base: uint32, ones: nat, k: nat)
    requires NetworkBase(base, ones) && ones >= 8 && k < Pow2(32 - ones) <= 0x100_0000
    ensures (base + k) % 0x100_0000 == base % 0x100_0000 + k
  {
    var p := Pow2(32 - ones);
    Pow2At24();
    Pow2Split(32 - ones, ones - 8);
    var q := Pow2(ones - 8);
    assert p * q == 0x100_0000;
    LowBitsFit(base % 0x100_0000, base, p, q);
  }

  /** A multiple of p below p*q leaves room for p more. */
  lemma LowBitsFit(r: nat, base: nat, p: nat, q: nat)
    requires p > 0 && p * q == 0x100_0000 && base % p == 0 && r == base % 0x100_0000
    ensures r + p <= 0x100_0000
  {
    var d := base / 0x100_0000;
    var b := base / p;
    assert base == p * b;
    assert base == 0x100_0000 * d + r;
    assert r == p * (b - q * d) by {
      assert 0x100_0000 * d == p * (q * d);
      assert p * b - p * (q * d) == p * (b - q * d);
    }
    var m := b - q * d;
    if m >= q {
      assert p * m >= p * q by { MulMono(q, m, p); }
    } else {
      assert p * (m + 1) <= p * q by { MulMono(m + 1, q, p); }
      assert p * (m + 1) == p * m + p;
    }
  }

  lemma MulMono(a: int, b: int, p: nat)
    requires a <= b
    ensures p * a <= p * b
  {
  }
}
