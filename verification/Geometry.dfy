/** Where a mounted FAT32 volume keeps its tables and clusters on the disk, and the
    contents of a cluster or a chain of clusters as plain bytes. */
module Geometry {
  import opened Bytes
  import opened FatChains

  /** The boot-sector fields the driver reads, plus the partition's first sector. */
  datatype Geometry = Geometry(start: u32, reserved: u16, fatSize: u32, fatCount: byte, spc: byte, root: u32)
  {
    /** Number of table entries, the bound of the allocator's scan. */
    function Clusters(): nat { fatSize * 512 / 4 }

    function ClusterBytes(): nat { spc * 512 }

    function FatStart(): nat { start + reserved }

    /** The driver's own arithmetic: the table sectors in 16 bits, the result in 32. */
    function ClusterToLba(c: nat): nat
    {
      (start + reserved + (fatSize * fatCount) % 0x1_0000 + (c - 2) * spc) % 0x1_0000_0000
    }

    /** The layout that arithmetic is meant to follow: reserved sectors, tables, then clusters. */
    ghost function DataStart(): nat { FatStart() + Repeat(fatSize, fatCount) }

    ghost function ClusterStart(c: nat): nat { DataStart() + Repeat(spc, if c < 2 then 0 else c - 2) }

    /** The bytes in `n` clusters. */
    ghost function Capacity(n: nat): nat { Repeat(ClusterBytes(), n) }

    /** What the driver takes for granted of a mounted volume on a disk of `sectors` sectors. */
    ghost predicate Good(sectors: nat) {
      && 1 <= spc <= 8
      && 2 <= fatCount && 1 <= fatSize && Repeat(fatSize, fatCount) < 0x1_0000
      && ClusterStart(Clusters()) <= sectors < 0x1_0000_0000
      && 2 <= root < Clusters()
    }
  }

  /** `n` runs of `k`, laid end to end. */
  ghost function Repeat(k: nat, n: nat): nat {
    if n == 0 then 0 else Repeat(k, n - 1) + k
  }

  lemma {:induction false} RepeatIsProduct(k: nat, n: nat)
    ensures Repeat(k, n) == n * k
  {
    if n > 0 {
      RepeatIsProduct(k, n - 1);
      assert n * k == (n - 1) * k + k;
    }
  }

  lemma {:induction false} RepeatBelow(k: nat, m: nat, n: nat)
    requires m < n
    ensures Repeat(k, m) + k <= Repeat(k, n)
    decreases n
  {
    if m < n - 1 {
      RepeatBelow(k, m, n - 1);
    }
  }

  lemma CapacityGrows(g: Geometry, m: nat, n: nat)
    requires m <= n
    ensures g.Capacity(m) <= g.Capacity(n)
  {
    if m < n {
      RepeatBelow(g.ClusterBytes(), m, n);
    }
  }

  lemma GoodBounds(g: Geometry, sectors: nat)
    requires g.Good(sectors)
    ensures g.Clusters() == g.fatSize * 128 && 2 < g.Clusters() <= MAX_CLUSTERS
    ensures 512 <= g.ClusterBytes() <= 4096
    ensures g.FatStart() + 2 * g.fatSize <= g.DataStart() <= sectors
  {
    if g.fatCount > 2 {
      RepeatBelow(g.fatSize, 2, g.fatCount);
    }
    assert Repeat(g.fatSize, 2) == g.fatSize + Repeat(g.fatSize, 1) == 2 * g.fatSize;
  }

  /** Every cluster the allocator can return lies on the disk, past both tables. */
  lemma RunInRange(g: Geometry, sectors: nat, c: nat)
    requires g.Good(sectors) && 2 <= c < g.Clusters()
    ensures g.DataStart() <= g.ClusterStart(c) && g.ClusterStart(c) + g.spc <= sectors
  {
    RepeatBelow(g.spc, c - 2, g.Clusters() - 2);
  }

  /** Distinct clusters occupy disjoint runs of sectors. */
  lemma RunsDisjoint(g: Geometry, c: nat, d: nat)
    requires 2 <= c < d
    ensures g.ClusterStart(c) + g.spc <= g.ClusterStart(d)
  {
    RepeatBelow(g.spc, c - 2, d - 2);
  }

  lemma SmallMod(x: int, m: int)
    requires 0 <= x < m
    ensures x % m == x
  {
  }

  /** On a good volume the driver's truncating arithmetic finds every cluster. */
  lemma ClusterToLbaExact(g: Geometry, sectors: nat, c: nat)
    requires g.Good(sectors) && 2 <= c < g.Clusters()
    ensures g.ClusterToLba(c) == g.ClusterStart(c)
    ensures g.ClusterStart(c) == g.start + g.reserved + g.fatSize * g.fatCount + (c - 2) * g.spc
  {
    RunInRange(g, sectors, c);
    var t, u := g.fatSize * g.fatCount, (c - 2) * g.spc;
    assert t == Repeat(g.fatSize, g.fatCount) by { RepeatIsProduct(g.fatSize, g.fatCount); }
    assert u == Repeat(g.spc, c - 2) by { RepeatIsProduct(g.spc, c - 2); }
    SmallMod(t, 0x1_0000);
    SmallMod(g.start + g.reserved + t + u, 0x1_0000_0000);
  }

  // ---- cluster and chain contents ----

  ghost predicate InRange(g: Geometry, p: seq<nat>) {
    forall k | 0 <= k < |p| :: 2 <= p[k] < g.Clusters()
  }

  ghost function ClusterData(g: Geometry, d: seq<Sector>, c: nat): (r: seq<byte>)
    requires g.Good(|d|) && 2 <= c < g.Clusters()
    ensures |r| == g.ClusterBytes()
  {
    RunInRange(g, |d|, c);
    seq(g.ClusterBytes(), k requires 0 <= k < g.ClusterBytes() => d[g.ClusterStart(c) + k / 512][k % 512])
  }

  ghost function ChainBytes(g: Geometry, d: seq<Sector>, p: seq<nat>): (r: seq<byte>)
    requires g.Good(|d|) && InRange(g, p)
    ensures |r| == g.Capacity(|p|)
  {
    if p == [] then [] else
      var m := |p| - 1;
      ChainBytes(g, d, p[..m]) + ClusterData(g, d, p[m])
  }

  lemma {:induction false} ChainBytesSlice(g: Geometry, d: seq<Sector>, p: seq<nat>, k: nat)
    requires g.Good(|d|) && InRange(g, p) && k < |p|
    ensures var at := g.Capacity(k);
            at + g.ClusterBytes() <= |ChainBytes(g, d, p)|
            && ChainBytes(g, d, p)[at..at + g.ClusterBytes()] == ClusterData(g, d, p[k])
  {
    var m := |p| - 1;
    RepeatBelow(g.ClusterBytes(), k, |p|);
    if k < m {
      ChainBytesSlice(g, d, p[..m], k);
    }
  }

  lemma {:induction false} ChainBytesPrefix(g: Geometry, d: seq<Sector>, p: seq<nat>, q: seq<nat>)
    requires g.Good(|d|) && InRange(g, p) && InRange(g, q) && p <= q
    ensures ChainBytes(g, d, p) <= ChainBytes(g, d, q)
    decreases |q|
  {
    if p != q {
      assert p <= q[..|q| - 1];
      ChainBytesPrefix(g, d, p, q[..|q| - 1]);
    }
  }

  ghost predicate SameData(g: Geometry, d: seq<Sector>, e: seq<Sector>, p: seq<nat>)
    requires g.Good(|d|) && |e| == |d| && InRange(g, p)
  {
    forall k | 0 <= k < |p| :: ClusterData(g, d, p[k]) == ClusterData(g, e, p[k])
  }

  lemma {:induction false} SameDataSameBytes(g: Geometry, d: seq<Sector>, e: seq<Sector>, p: seq<nat>)
    requires g.Good(|d|) && |e| == |d| && InRange(g, p) && SameData(g, d, e, p)
    ensures ChainBytes(g, d, p) == ChainBytes(g, e, p)
    decreases |p|
  {
    if p != [] {
      SameDataSameBytes(g, d, e, p[..|p| - 1]);
    }
  }

  /** Rewriting one cluster of a chain splices its new contents into the chain's bytes. */
  lemma {:induction false} ChainBytesUpdate(g: Geometry, d: seq<Sector>, e: seq<Sector>, p: seq<nat>, k: nat)
    requires g.Good(|d|) && |e| == |d| && InRange(g, p) && k < |p|
    requires forall j | 0 <= j < |p| && j != k :: ClusterData(g, d, p[j]) == ClusterData(g, e, p[j])
    ensures g.Capacity(k) + g.ClusterBytes() <= |ChainBytes(g, d, p)|
    ensures ChainBytes(g, e, p) == Splice(ChainBytes(g, d, p), g.Capacity(k), ClusterData(g, e, p[k]))
    decreases |p|
  {
    var m := |p| - 1;
    RepeatBelow(g.ClusterBytes(), k, |p|);
    if k < m {
      ChainBytesUpdate(g, d, e, p[..m], k);
    } else {
      SameDataSameBytes(g, d, e, p[..m]);
    }
  }

  /** The cluster index and offset of a position within, or just past, `n` clusters. */
  lemma Locate(g: Geometry, n: nat, pos: nat)
    requires g.spc > 0 && pos <= g.Capacity(n)
    ensures var cs := g.ClusterBytes();
            0 <= pos / cs <= n && 0 <= pos % cs < cs && pos == g.Capacity(pos / cs) + pos % cs
            && (pos / cs == n ==> pos == g.Capacity(n))
  {
    var cs := g.ClusterBytes();
    var i := LocateIndex(cs, n, pos);
    if pos < Repeat(cs, i) + cs {
      RepeatIsProduct(cs, i);
      DivModUnique(pos, cs, i);
    }
  }

  lemma {:induction false} LocateIndex(cs: nat, n: nat, pos: nat) returns (i: nat)
    requires cs > 0 && pos <= Repeat(cs, n)
    ensures i <= n && Repeat(cs, i) <= pos < Repeat(cs, i) + cs
  {
    if n == 0 || pos == Repeat(cs, n) {
      i := n;
    } else if Repeat(cs, n - 1) <= pos {
      i := n - 1;
    } else {
      i := LocateIndex(cs, n - 1, pos);
    }
  }

  lemma DivModUnique(pos: nat, cs: nat, i: nat)
    requires cs > 0 && i * cs <= pos < i * cs + cs
    ensures pos / cs == i && pos % cs == pos - i * cs
  {
    var q, r := pos / cs, pos % cs;
    assert pos == q * cs + r;
    Ordered(q, i, cs);
    Ordered(i, q, cs);
  }

  lemma Ordered(a: int, b: int, k: int)
    requires 0 < k
    ensures a < b ==> a * k + k <= b * k
  {
    if a < b {
      var d := b - a - 1;
      assert b * k == (d + a + 1) * k == d * k + a * k + k;
      NonNegative(d, k);
    }
  }

  lemma NonNegative(a: int, b: int)
    requires 0 <= a && 0 <= b
    ensures 0 <= a * b
  {
  }
}
