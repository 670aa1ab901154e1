/** The mounted volume: the driver's globals (in-memory table, static buffers, the disk behind
    the ATA layer), the cluster allocator, cluster I/O and the table flush. */
module Volumes {
  import opened Bytes
  import opened FatChains
  import opened Geometry

  /** Sector `i` of the table as it lies in memory, little-endian. */
  function FatSector(f: seq<u32>, i: nat): (s: Sector)
    requires (i + 1) * 128 <= |f|
  {
    seq(512, k requires 0 <= k < 512 => Le32(f[i * 128 + k / 4])[k % 4])
  }

  /** The copy of the table starting at sector `at` of the disk equals `f`. */
  ghost predicate CopyAt(d: seq<Sector>, at: nat, n: nat, f: seq<u32>) {
    && |f| == n * 128
    && at + n <= |d|
    && forall j | at <= j < at + n :: d[j] == FatSector(f, j - at)
  }

  /** The first `s` sectors from `lba` lie in the buffer. */
  ghost predicate SectorsIn(buf: seq<byte>, d: seq<Sector>, lba: nat, s: nat) {
    && s * 512 <= |buf| && lba + s <= |d|
    && forall k | 0 <= k < s * 512 :: buf[k] == d[lba + k / 512][k % 512]
  }

  lemma NextSectorIn(buf: seq<byte>, d: seq<Sector>, lba: nat, s: nat)
    requires SectorsIn(buf, d, lba, s) && lba + s < |d| && (s + 1) * 512 <= |buf|
    ensures SectorsIn(Splice(buf, s * 512, d[lba + s]), d, lba, s + 1)
  {
  }

  lemma TailKept(buf: seq<byte>, off: nat, x: seq<byte>, n: nat)
    requires off + |x| <= n <= |buf|
    ensures Splice(buf, off, x)[n..] == buf[n..]
  {
  }

  ghost predicate OneCopy(d: seq<Sector>, e: seq<Sector>, at: nat, n: nat, f: seq<u32>) {
    && |e| == |d| && |f| == n * 128 && at + n <= |d|
    && forall j | 0 <= j < |d| :: e[j] == if at <= j < at + n then FatSector(f, j - at) else d[j]
  }

  /** Both tables are `f`, and nothing but the tables changed. */
  ghost predicate Refreshed(g: Geometry, d: seq<Sector>, e: seq<Sector>, f: seq<u32>)
    requires g.Good(|d|)
  {
    && |e| == |d| && CopyAt(e, g.FatStart(), g.fatSize, f) && CopyAt(e, g.FatStart() + g.fatSize, g.fatSize, f)
    && (forall j | 0 <= j < |d| && !(g.FatStart() <= j < g.DataStart()) :: e[j] == d[j])
    && forall c | 2 <= c < g.Clusters() :: ClusterData(g, e, c) == ClusterData(g, d, c)
  }

  lemma Flushed(g: Geometry, d: seq<Sector>, d1: seq<Sector>, e: seq<Sector>, f: seq<u32>)
    requires g.Good(|d|)
    requires OneCopy(d, d1, g.FatStart(), g.fatSize, f) && OneCopy(d1, e, g.FatStart() + g.fatSize, g.fatSize, f)
    requires g.FatStart() + 2 * g.fatSize <= g.DataStart() <= |d|
    ensures Refreshed(g, d, e, f)
  {
    forall c | 2 <= c < g.Clusters() ensures ClusterData(g, e, c) == ClusterData(g, d, c) {
      RunInRange(g, |d|, c);
    }
  }

  /** Changing one cluster's sectors changes no other cluster. */
  lemma OtherClusters(g: Geometry, d: seq<Sector>, e: seq<Sector>, c: nat)
    requires g.Good(|d|) && |e| == |d| && 2 <= c < g.Clusters()
    requires forall j | 0 <= j < |d| && !(g.ClusterStart(c) <= j < g.ClusterStart(c) + g.spc) :: e[j] == d[j]
    ensures forall x | 2 <= x < g.Clusters() && x != c :: ClusterData(g, e, x) == ClusterData(g, d, x)
  {
    forall x | 2 <= x < g.Clusters() && x != c ensures ClusterData(g, e, x) == ClusterData(g, d, x) {
      RunInRange(g, |d|, x);
      if x < c { RunsDisjoint(g, x, c); } else { RunsDisjoint(g, c, x); }
    }
  }

  /** `n` sectors from `lba` come from the buffer, the others are the same. */
  ghost predicate SectorsAre(d: seq<Sector>, e: seq<Sector>, lba: nat, n: nat, b: seq<byte>) {
    && |e| == |d| && lba + n <= |d| && |b| == n * 512
    && (forall k | 0 <= k < n :: e[lba + k] == b[k * 512..(k + 1) * 512])
    && forall j | 0 <= j < |d| && !(lba <= j < lba + n) :: e[j] == d[j]
  }

  lemma WholeCluster(g: Geometry, e: seq<Sector>, c: nat, b: seq<byte>)
    requires g.Good(|e|) && 2 <= c < g.Clusters() && |b| == g.ClusterBytes()
    requires g.ClusterStart(c) + g.spc <= |e|
    requires forall k | 0 <= k < g.spc :: e[g.ClusterStart(c) + k] == b[k * 512..(k + 1) * 512]
    ensures ClusterData(g, e, c) == b
  {
    forall i | 0 <= i < |b| ensures ClusterData(g, e, c)[i] == b[i] {
      assert e[g.ClusterStart(c) + i / 512] == b[i / 512 * 512..(i / 512 + 1) * 512];
    }
  }

  class Volume {
    const g: Geometry
    const fat: array<u32>
    const cbuf: array<byte>   // fat_create.c's cluster buffer
    const tmp: array<byte>    // fat_write.c's cluster buffer
    const wbuf: array<byte>   // fat32.c's working buffer
    var disk: seq<Sector>
    ghost var chains: set<seq<nat>>

    ghost predicate Valid()
      reads this, fat
    {
      && g.Good(|disk|)
      && fat.Length == g.Clusters()
      && cbuf.Length == tmp.Length == 4096 && wbuf.Length == g.ClusterBytes()
      && cbuf != tmp && cbuf != wbuf && tmp != wbuf
      && fat as object != cbuf && fat as object != tmp && fat as object != wbuf
      && Represents(fat[..], chains)
    }

    /** Set up the driver around a table already read into memory. */
    constructor (geometry: Geometry, d: seq<Sector>, table: array<u32>, ghost s: set<seq<nat>>)
      requires geometry.Good(|d|) && table.Length == geometry.Clusters() && Represents(table[..], s)
      ensures Valid() && g == geometry && disk == d && fat == table && chains == s
      ensures fresh(cbuf) && fresh(tmp) && fresh(wbuf)
    {
      g, disk, fat, chains := geometry, d, table, s;
      cbuf := new byte[4096];
      tmp := new byte[4096];
      wbuf := new byte[geometry.ClusterBytes()];
    }

    /** `p` is the chain with first cluster `head`. */
    ghost predicate HasChain(p: seq<nat>, head: nat)
      reads this
    {
      p in chains && p != [] && p[0] == head && InRange(g, p)
    }

    /** Both tables on the disk equal the table in memory. */
    ghost predicate Synced()
      reads this, fat
    {
      && CopyAt(disk, g.FatStart(), g.fatSize, fat[..])
      && CopyAt(disk, g.FatStart() + g.fatSize, g.fatSize, fat[..])
    }

    twostate lemma StaysValid()
      requires old(Valid()) && unchanged(fat) && chains == old(chains) && |disk| == |old(disk)|
      ensures Valid()
    {
      assert fat[..] == old(fat[..]);
    }

    /** First-fit allocation: the lowest free cluster, marked as the end of a chain; 0 when full. */
    method AllocCluster() returns (c: nat)
      requires Valid()
      modifies this`chains, fat
      ensures Valid()
      ensures c == 0 ==> fat[..] == old(fat[..]) && chains == old(chains)
      ensures c == 0 <==> Full(old(fat[..]))
      ensures FreeCount(fat[..]) == FreeCount(old(fat[..])) - if c == 0 then 0 else 1
      ensures c != 0 ==>
        && 2 <= c < fat.Length && Free(old(fat[..]), c) && (forall i | 2 <= i < c :: !Free(old(fat[..]), i))
        && fat[..] == old(fat[..])[c := 0x0FFF_FFFF] && chains == old(chains) + {[c]}
        && (forall p | p in old(chains) :: c !in p)
      ensures Grows(old(fat[..]), fat[..])
    {
      var total := g.fatSize * 512 / 4;
      var i := 2;
      while i < total
        invariant 2 <= i <= total
        invariant forall j | 2 <= j < i :: !Free(fat[..], j)
      {
        if fat[i] % 0x1000_0000 == 0 {
          AllocateChain(fat[..], chains, i);
          fat[i] := EOC;
          chains := chains + {[i]};
          OneTaken(old(fat[..]), fat[..], i);
          return i;
        }
        i := i + 1;
      }
      return 0;
    }

    /** Allocate a cluster and link the last cluster of chain `p` to it. */
    method ExtendChain(cur: nat, ghost p: seq<nat>) returns (n: nat)
      requires Valid()
      requires p in chains && p != [] && cur == p[|p| - 1] && cur < fat.Length
      modifies this`chains, fat
      ensures Valid()
      ensures n == 0 ==> fat[..] == old(fat[..]) && chains == old(chains)
      ensures n == 0 <==> Full(old(fat[..]))
      ensures FreeCount(fat[..]) == FreeCount(old(fat[..])) - if n == 0 then 0 else 1
      ensures n != 0 ==>
        && 2 <= n < fat.Length && Free(old(fat[..]), n) && (forall i | 2 <= i < n :: !Free(old(fat[..]), i))
        && fat[..] == old(fat[..])[n := 0x0FFF_FFFF][cur := n]
        && chains == old(chains) - {p} + {p + [n]}
        && (forall q | q in old(chains) :: n !in q)
      ensures Grows(old(fat[..]), fat[..])
    {
      ghost var f, s := fat[..], chains;
      n := AllocCluster();
      if n != 0 {
        ExtendRepresents(f, s, p, n);
        assert Chain(f, p);
        fat[cur] := n;
        chains := s - {p} + {p + [n]};
        OneTaken(f, fat[..], n);
      }
    }

    method ReadCluster(c: nat, buf: array<byte>)
      requires Valid() && 2 <= c < g.Clusters()
      requires buf.Length >= g.ClusterBytes() && buf as object != fat
      modifies buf
      ensures buf[..g.ClusterBytes()] == ClusterData(g, disk, c)
      ensures buf[g.ClusterBytes()..] == old(buf[g.ClusterBytes()..])
    {
      RunInRange(g, |disk|, c);
      ClusterToLbaExact(g, |disk|, c);
      var lba := g.ClusterToLba(c);
      var s := 0;
      while s < g.spc
        invariant 0 <= s <= g.spc
        invariant SectorsIn(buf[..], disk, lba, s)
        invariant buf[g.ClusterBytes()..] == old(buf[g.ClusterBytes()..])
      {
        ghost var was := buf[..];
        Memcpy(buf, s * 512, disk[lba + s]);
        NextSectorIn(was, disk, lba, s);
        TailKept(was, s * 512, disk[lba + s], g.ClusterBytes());
        s := s + 1;
      }
    }

    method WriteCluster(c: nat, buf: array<byte>)
      requires Valid() && 2 <= c < g.Clusters()
      requires buf.Length >= g.ClusterBytes()
      modifies this`disk
      ensures Valid() && |disk| == old(|disk|)
      ensures ClusterData(g, disk, c) == buf[..g.ClusterBytes()]
      ensures forall e | 2 <= e < g.Clusters() && e != c :: ClusterData(g, disk, e) == ClusterData(g, old(disk), e)
      ensures forall j | 0 <= j < g.DataStart() :: disk[j] == old(disk)[j]
    {
      RunInRange(g, |disk|, c);
      ClusterToLbaExact(g, |disk|, c);
      var lba := g.ClusterToLba(c);
      WriteSectors(lba, g.spc, buf);
      WholeCluster(g, disk, c, buf[..g.ClusterBytes()]);
      OtherClusters(g, old(disk), disk, c);
    }

    method WriteSectors(lba: nat, n: nat, buf: array<byte>)
      requires lba + n <= |disk| && n * 512 <= buf.Length
      modifies this`disk
      ensures SectorsAre(old(disk), disk, lba, n, buf[..n * 512])
    {
      var s := 0;
      while s < n
        invariant 0 <= s <= n && |disk| == old(|disk|)
        invariant forall j | 0 <= j < |disk| ::
          disk[j] == if lba <= j < lba + s then buf[(j - lba) * 512..(j - lba + 1) * 512] else old(disk)[j]
      {
        disk := disk[lba + s := buf[s * 512..(s + 1) * 512]];
        s := s + 1;
      }
      forall k | 0 <= k < n ensures buf[..n * 512][k * 512..(k + 1) * 512] == buf[k * 512..(k + 1) * 512] {}
    }

    /** Write the in-memory table over the copy that starts at sector `at`. */
    method FlushCopy(at: nat)
      requires fat.Length == g.fatSize * 128 && at + g.fatSize <= |disk|
      modifies this`disk
      ensures OneCopy(old(disk), disk, at, g.fatSize, fat[..])
    {
      ghost var f := fat[..];
      var i := 0;
      while i < g.fatSize
        invariant 0 <= i <= g.fatSize && |disk| == old(|disk|) && fat[..] == f
        invariant forall j | 0 <= j < |disk| ::
          disk[j] == if at <= j < at + i then FatSector(f, j - at) else old(disk)[j]
      {
        disk := disk[at + i := FatSector(fat[..], i)];
        i := i + 1;
      }
    }

    /** Write the in-memory table over both copies on the disk. */
    method FlushFat()
      requires Valid()
      modifies this`disk
      ensures Valid() && |disk| == old(|disk|)
      ensures Synced()
      ensures forall j | 0 <= j < |disk| && !(g.FatStart() <= j < g.DataStart()) :: disk[j] == old(disk)[j]
      ensures forall e | 2 <= e < g.Clusters() :: ClusterData(g, disk, e) == ClusterData(g, old(disk), e)
    {
      FlushBoth();
      StaysValid();
    }

    method FlushBoth()
      requires g.Good(|disk|) && fat.Length == g.Clusters()
      modifies this`disk
      ensures Refreshed(g, old(disk), disk, fat[..])
    {
      GoodBounds(g, |disk|);
      ghost var d0 := disk;
      FlushCopy(g.FatStart());
      ghost var d1 := disk;
      FlushCopy(g.FatStart() + g.fatSize);
      Flushed(g, d0, d1, disk, fat[..]);
    }
  }
}
