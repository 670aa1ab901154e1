/** The directory operations on the volume: slot search, writing an entry, and the two lookups. */
module Directories {
  import opened Bytes
  import opened FatChains
  import opened Geometry
  import opened Volumes
  import opened FatFiles
  import opened DirFormat
  import opened DirNames
  import opened DirModel
  import opened DirPrint

  function Slots(g: Geometry): nat { g.spc * 16 }

  /** The clusters `p` hold the directory `dir`. */
  ghost predicate DirRep(g: Geometry, d: seq<Sector>, p: seq<nat>, dir: Dir)
    requires g.Good(|d|) && InRange(g, p)
  {
    |dir| == |p| && forall k | 0 <= k < |p| :: DirCluster(ClusterData(g, d, p[k]), dir[k])
  }

  lemma DirRepOk(g: Geometry, d: seq<Sector>, p: seq<nat>, dir: Dir)
    requires g.Good(|d|) && InRange(g, p) && DirRep(g, d, p, dir)
    ensures DirOk(dir)
    ensures forall k | 0 <= k < |dir| :: |Groups(dir[k])| <= Slots(g)
  {
    forall k | 0 <= k < |dir| ensures EntriesOk(dir[k]) && |Groups(dir[k])| <= Slots(g) {
      assert DirCluster(ClusterData(g, d, p[k]), dir[k]);
    }
  }

  lemma DirRepKept(g: Geometry, d: seq<Sector>, e: seq<Sector>, p: seq<nat>, dir: Dir)
    requires g.Good(|d|) && |e| == |d| && InRange(g, p) && SameData(g, d, e, p) && DirRep(g, d, p, dir)
    ensures DirRep(g, e, p, dir)
  {
    forall k | 0 <= k < |p| ensures DirCluster(ClusterData(g, e, p[k]), dir[k]) {
      assert DirCluster(ClusterData(g, d, p[k]), dir[k]);
    }
  }

  // ---- find_slots ----

  /** Zero a cluster on the disk. */
  method ZeroCluster(v: Volume, c: nat)
    requires v.Valid() && 2 <= c < v.g.Clusters()
    modifies v`disk, v.cbuf
    ensures v.Valid() && |v.disk| == |old(v.disk)|
    ensures forall i | 0 <= i < v.g.ClusterBytes() :: ClusterData(v.g, v.disk, c)[i] == 0
    ensures forall e | 2 <= e < v.g.Clusters() && e != c ::
      ClusterData(v.g, v.disk, e) == ClusterData(v.g, old(v.disk), e)
  {
    GoodBounds(v.g, |v.disk|);
    Memset(v.cbuf, 0, 0, v.g.ClusterBytes());
    v.WriteCluster(c, v.cbuf);
  }

  /** Append a zeroed cluster to a directory whose last cluster is `cur`. */
  method GrowDirectory(v: Volume, head: nat, cur: nat, ghost p: seq<nat>, ghost dir: Dir)
    returns (nc: nat, ghost q: seq<nat>)
    requires v.Valid() && v.HasChain(p, head) && cur == p[|p| - 1] && DirRep(v.g, v.disk, p, dir)
    modifies v, v.fat, v.cbuf
    ensures v.Valid() && |v.disk| == |old(v.disk)|
    ensures Grows(old(v.fat[..]), v.fat[..])
    ensures nc == 0 ==> v.disk == old(v.disk) && v.fat[..] == old(v.fat[..]) && v.chains == old(v.chains)
    ensures nc == 0 <==> Full(old(v.fat[..]))
    ensures nc != 0 ==> Replaced(old(v.chains), v.chains, p, q) && Traded(old(v.fat[..]), v.fat[..], |p|, |q|)
    ensures nc != 0 ==> q == p + [nc] && v.HasChain(q, head) && DirRep(v.g, v.disk, q, dir + [[]])
    ensures OthersKept(v.g, old(v.disk), v.disk, old(v.chains), v.chains, head)
  {
    ghost var d0, s0 := v.disk, v.chains;
    ChainsInRange(v.g, |v.disk|, v.fat[..], v.chains);
    nc := v.ExtendChain(cur, p);
    q := p + [nc];
    if nc != 0 {
      ZeroCluster(v, nc);
      EmptyCluster(ClusterData(v.g, v.disk, nc));
      forall k | 0 <= k < |q| ensures DirCluster(ClusterData(v.g, v.disk, q[k]), (dir + [[]])[k]) {
        if k < |p| {
          assert q[k] == p[k] && q[k] in p && DirCluster(ClusterData(v.g, d0, p[k]), dir[k]);
        }
      }
      NewClusterKeeps(v.g, d0, v.disk, s0, v.chains, p, nc);
    }
  }

  lemma NewClusterKeeps(g: Geometry, d: seq<Sector>, e: seq<Sector>, s: set<seq<nat>>, t: set<seq<nat>>, p: seq<nat>,
                        n: nat)
    requires g.Good(|d|) && |e| == |d| && ChainsOk(g, s) && p in s && p != []
    requires t == s - {p} + {p + [n]} && (forall q | q in s :: n !in q)
    requires forall c | 2 <= c < g.Clusters() && c != n :: ClusterData(g, e, c) == ClusterData(g, d, c)
    ensures OthersKept(g, d, e, s, t, p[0])
  {
    forall q | q in s && !StartsAt(q, p[0]) ensures KeptChain(g, d, e, t, q) {
      assert q != p && InRange(g, q);
    }
  }

  /** `find_slots`: the first run of `n` free slots, in the first cluster with room for it, else at
      the start of one freshly appended cluster. */
  method FindSlots(v: Volume, head: nat, n: nat, ghost p: seq<nat>, ghost dir: Dir)
    returns (ok: bool, c: nat, i: nat, ghost q: seq<nat>, ghost dir': Dir)
    requires v.Valid() && v.HasChain(p, head) && DirRep(v.g, v.disk, p, dir)
    requires DirOk(dir) && 0 < n <= 6
    modifies v, v.fat, v.cbuf
    ensures v.Valid() && |v.disk| == |old(v.disk)|
    ensures Grows(old(v.fat[..]), v.fat[..])
    ensures v.HasChain(q, head) && p <= q && DirRep(v.g, v.disk, q, dir')
    ensures var k := FirstRoom(dir, n, Slots(v.g));
            && dir' == (if !ok || k < |dir| then dir else dir + [[]])
            && (ok ==> k < |q| && c == q[k] && i == |Groups(dir'[k])|)
            && (!ok || k < |dir| ==>
                q == p && v.disk == old(v.disk) && v.fat[..] == old(v.fat[..]) && v.chains == old(v.chains))
            && (ok <==> k < |dir| || !Full(old(v.fat[..])))
    ensures Replaced(old(v.chains), v.chains, p, q) && Traded(old(v.fat[..]), v.fat[..], |p|, |q|)
    ensures |q| == |dir'|
    ensures OthersKept(v.g, old(v.disk), v.disk, old(v.chains), v.chains, head)
  {
    ChainsInRange(v.g, |v.disk|, v.fat[..], v.chains);
    AllKeptBut(v.g, v.disk, v.chains, head);
    GoodBounds(v.g, |v.disk|);
    var epc := v.g.ClusterBytes() / 32;
    q, dir' := p, dir;
    ok, c, i := ScanDirectory(v, head, epc, n, p, dir);
    if !ok {
      ok, c, i, q, dir' := GrowAndScan(v, head, c, epc, n, p, dir);
    } else {
      assert v.chains == v.chains - {p} + {p};
    }
  }

  /** Look for room in one cluster after the other; without any, stop at the last one. */
  method ScanDirectory(v: Volume, head: nat, epc: nat, n: nat, ghost p: seq<nat>, ghost dir: Dir)
    returns (found: bool, c: nat, i: nat)
    requires v.Valid() && v.HasChain(p, head) && DirRep(v.g, v.disk, p, dir) && DirOk(dir)
    requires epc == Slots(v.g) && 0 < n <= 6
    modifies v.cbuf
    ensures v.Valid() && v.fat[..] == old(v.fat[..])
    ensures var k := FirstRoom(dir, n, epc);
            && (found <==> k < |p|) && c == p[if found then k else |p| - 1]
            && (found ==> i == |Groups(dir[k])|)
  {
    found, c, i := ScanUntil(v, head, epc, n, p, dir, FirstRoom(dir, n, epc));
  }

  method ScanUntil(v: Volume, head: nat, epc: nat, n: nat, ghost p: seq<nat>, ghost dir: Dir, ghost room: nat)
    returns (found: bool, c: nat, i: nat)
    requires v.Valid() && v.HasChain(p, head) && DirRep(v.g, v.disk, p, dir) && DirOk(dir)
    requires epc == Slots(v.g) && 0 < n <= 6
    requires room <= |dir| && (room < |dir| ==> Room(dir[room], n, epc))
    requires forall j | 0 <= j < room :: !Room(dir[j], n, epc)
    modifies v.cbuf
    ensures v.Valid() && v.fat[..] == old(v.fat[..])
    ensures (found <==> room < |p|) && c == p[if found then room else |p| - 1] && (found ==> i == |Groups(dir[room])|)
  {
    ghost var f0 := v.fat[..];
    assert Chain(f0, p);
    var cur := head;
    ghost var k := 0;
    while true
      invariant v.Valid() && k < |p| && cur == p[k] && k <= room && v.fat[..] == f0
      decreases |p| - k
    {
      var r, next := ScanTurn(v, cur, epc, n, p, dir, k);
      if r >= 0 {
        return true, cur, r;
      }
      assert k < room;
      if next >= EOC_MIN {
        return false, cur, 0;
      }
      cur := next;
      k := k + 1;
    }
  }

  /** Search the cluster at `cur` and take the link to the next one. */
  method ScanTurn(v: Volume, cur: nat, epc: nat, n: nat, ghost p: seq<nat>, ghost dir: Dir, ghost k: nat)
    returns (r: int, next: nat)
    requires v.Valid() && Chain(v.fat[..], p) && InRange(v.g, p) && DirRep(v.g, v.disk, p, dir) && DirOk(dir)
    requires k < |p| && cur == p[k] && epc == Slots(v.g) && 0 < n <= 6
    modifies v.cbuf
    ensures v.Valid() && v.fat[..] == old(v.fat[..]) && -1 <= r
    ensures r >= 0 <==> Room(dir[k], n, epc)
    ensures r >= 0 ==> r == |Groups(dir[k])|
    ensures if k + 1 < |p| then next == p[k + 1] && next < EOC_MIN else next >= EOC_MIN
  {
    assert DirCluster(ClusterData(v.g, v.disk, p[k]), dir[k]);
    r := ScanCluster(v, cur, epc, n, dir[k]);
    ChainAllocated(v.fat[..], p, k);
    assert k < |p| - 1 ==> Next(v.fat[..], p[k]) == p[k + 1];
    next := v.fat[cur] % 0x1000_0000;
  }

  /** The directory has no room: append a cluster and search that. */
  method GrowAndScan(v: Volume, head: nat, cur: nat, epc: nat, n: nat, ghost p: seq<nat>, ghost dir: Dir)
    returns (ok: bool, c: nat, i: nat, ghost q: seq<nat>, ghost dir': Dir)
    requires v.Valid() && v.HasChain(p, head) && cur == p[|p| - 1] && DirRep(v.g, v.disk, p, dir)
    requires epc == Slots(v.g) && 0 < n <= 6
    modifies v, v.fat, v.cbuf
    ensures v.Valid() && |v.disk| == |old(v.disk)|
    ensures Grows(old(v.fat[..]), v.fat[..])
    ensures v.HasChain(q, head) && p <= q && DirRep(v.g, v.disk, q, dir')
    ensures ok ==> dir' == dir + [[]] && |q| == |p| + 1 && c == q[|p|] && i == 0
    ensures !ok ==>
      dir' == dir && q == p && v.disk == old(v.disk) && v.fat[..] == old(v.fat[..]) && v.chains == old(v.chains)
    ensures ok <==> !Full(old(v.fat[..]))
    ensures Replaced(old(v.chains), v.chains, p, q) && Traded(old(v.fat[..]), v.fat[..], |p|, |q|)
    ensures OthersKept(v.g, old(v.disk), v.disk, old(v.chains), v.chains, head)
  {
    GoodBounds(v.g, |v.disk|);
    assert v.chains == v.chains - {p} + {p};
    var nc;
    ghost var q1;
    nc, q1 := GrowDirectory(v, head, cur, p, dir);
    if nc == 0 {
      return false, 0, 0, p, dir;
    }
    q, dir' := q1, dir + [[]];
    assert 2 <= nc < v.g.Clusters() by { assert q[|p|] == nc; }
    assert DirCluster(ClusterData(v.g, v.disk, q[|p|]), dir'[|p|]);
    var r1 := ScanCluster(v, nc, epc, n, []);
    return true, nc, r1, q, dir';
  }

  /** Read one directory cluster and search it. */
  method ScanCluster(v: Volume, c: nat, epc: nat, n: nat, ghost es: seq<Entry>) returns (i: int)
    requires v.Valid() && 2 <= c < v.g.Clusters() && epc == Slots(v.g) && 0 < n <= 6
    requires DirCluster(ClusterData(v.g, v.disk, c), es)
    modifies v.cbuf
    ensures v.Valid() && -1 <= i
    ensures i >= 0 <==> Room(es, n, epc)
    ensures i >= 0 ==> i == |Groups(es)|
  {
    GoodBounds(v.g, |v.disk|);
    v.ReadCluster(c, v.cbuf);
    i := FindRun(v.cbuf, epc, n);
    assert SlotsOf(v.cbuf[..32 * epc]) == DirSlots(es, epc);
    if i >= 0 {
      FreeRunIs(es, epc, i, n);
      FreeRunIs(es, epc, |Groups(es)|, n);
    } else if |Groups(es)| + n <= epc {
      FreeRunIs(es, epc, |Groups(es)|, n);
    }
  }

  // ---- write_dir_entry ----

  /** Rewriting cluster `k` of a directory with one more entry. */
  lemma DirRepAppend(g: Geometry, f: Fat, d: seq<Sector>, e: seq<Sector>, p: seq<nat>, dir: Dir, k: nat, x: Entry)
    requires g.Good(|d|) && |e| == |d| && |f| == g.Clusters() <= MAX_CLUSTERS && Chain(f, p) && InRange(g, p)
    requires DirRep(g, d, p, dir) && k < |p| && EntryOk(x)
    requires EntriesOk(dir[k]) && Room(dir[k], |Group(x)|, Slots(g))
    requires SlotsOf(ClusterData(g, e, p[k])) == PutRun(DirSlots(dir[k], Slots(g)), |Groups(dir[k])|, Group(x))
    requires forall c | 2 <= c < g.Clusters() && c != p[k] :: ClusterData(g, e, c) == ClusterData(g, d, c)
    ensures DirRep(g, e, p, dir[k := dir[k] + [x]])
  {
    forall j | 0 <= j < |p| ensures DirCluster(ClusterData(g, e, p[j]), dir[k := dir[k] + [x]][j]) {
      if j == k {
        AppendGroup(dir[k], x, Slots(g));
      } else {
        ChainDistinct(f, p, j, k);
        assert DirCluster(ClusterData(g, d, p[j]), dir[j]);
      }
    }
  }

  lemma PrintedPrefix(b: seq<byte>, c: seq<byte>, cap: nat, i: nat, g: seq<Slot>)
    requires |c| == |b| && i + |g| <= cap && 32 * cap <= |b|
    requires SlotsOf(c) == PutRun(SlotsOf(b), i, g)
    ensures SlotsOf(c[..32 * cap]) == PutRun(SlotsOf(b[..32 * cap]), i, g)
  {
    SlotsOfPrefix(b, cap);
    SlotsOfPrefix(c, cap);
  }

  /** Cluster `c` has the entry's bytes in its first free slots, `n` of them long-name slots, and otherwise what it had
      in `b0`. */
  ghost predicate EntryIn(b: seq<byte>, b0: seq<byte>, i: nat, e: Entry, n: nat) {
    && EntryAt(b, b0, i, e, n)
    && (forall j | 0 <= j < i :: SlotStart(b0, j) != 0 && SlotStart(b0, j) != 0xE5)
    && forall j | i <= j < |b0| / 32 :: SlotStart(b0, j) == 0
  }

  lemma EntryInBytes(b: seq<byte>, b0: seq<byte>, e: Entry, es: seq<Entry>)
    requires EntryOk(e) && |b| == |b0| && DirCluster(b0, es) && |Groups(es)| + |Group(e)| <= |b0| / 32
    requires SlotsOf(b) == PutRun(DirSlots(es, |b0| / 32), |Groups(es)|, Group(e))
    ensures EntryIn(b, b0, |Groups(es)|, e, LfnCount(e.name))
  {
    FirstFree(b0, es);
    EntryBytes(b, b0, |Groups(es)|, e);
  }

  /** The same over an appended cluster, which was cleared. */
  lemma EntryInZeros(b: seq<byte>, b0: seq<byte>, e: Entry, n: nat, cap: nat)
    requires DirCluster(b0, []) && |b0| == 32 * cap && EntryIn(b, b0, 0, e, n)
    ensures b0 == Zeros(|b0|)
  {
    forall j | 0 <= j < |b0| ensures b0[j] == 0 {
      SlotBytes(b0, j / 32);
      assert DirSlots([], |b0| / 32)[j / 32] == ZERO_SLOT;
      assert b0[j] == b0[32 * (j / 32)..32 * (j / 32) + 32][j % 32];
    }
  }

  /** Read the cluster, print the entry's slots into it, write it back. */
  method PrintInto(v: Volume, c: nat, i: nat, e: Entry, sfn: seq<byte>, csum: byte, ghost es: seq<Entry>)
    requires v.Valid() && 2 <= c < v.g.Clusters() && EntryOk(e)
    requires sfn == ShortName(e.name) && csum == Checksum(sfn)
    requires DirCluster(ClusterData(v.g, v.disk, c), es) && Room(es, |Group(e)|, Slots(v.g)) && i == |Groups(es)|
    modifies v`disk, v.cbuf
    ensures v.Valid() && |v.disk| == |old(v.disk)|
    ensures SlotsOf(ClusterData(v.g, v.disk, c)) == PutRun(DirSlots(es, Slots(v.g)), i, Group(e))
    ensures forall x | 2 <= x < v.g.Clusters() && x != c ::
      ClusterData(v.g, v.disk, x) == ClusterData(v.g, old(v.disk), x)
  {
    GoodBounds(v.g, |v.disk|);
    BytesOfSlots(v.g);
    ghost var cap, data := Slots(v.g), ClusterData(v.g, v.disk, c);
    v.ReadCluster(c, v.cbuf);
    ghost var b0 := v.cbuf[..];
    assert b0[..32 * cap] == data;
    PrintGroup(v.cbuf, i, e, sfn, csum);
    ghost var b1 := v.cbuf[..];
    PrintedPrefix(b0, b1, cap, i, Group(e));
    v.WriteCluster(c, v.cbuf);
    assert ClusterData(v.g, v.disk, c) == b1[..32 * cap];
  }

  method PutEntry(v: Volume, c: nat, i: nat, e: Entry, sfn: seq<byte>, csum: byte, ghost es: seq<Entry>)
    requires v.Valid() && 2 <= c < v.g.Clusters() && EntryOk(e)
    requires sfn == ShortName(e.name) && csum == Checksum(sfn)
    requires DirCluster(ClusterData(v.g, v.disk, c), es) && Room(es, |Group(e)|, Slots(v.g)) && i == |Groups(es)|
    modifies v`disk, v.cbuf
    ensures v.Valid() && |v.disk| == |old(v.disk)|
    ensures SlotsOf(ClusterData(v.g, v.disk, c)) == PutRun(DirSlots(es, Slots(v.g)), i, Group(e))
    ensures forall x | 2 <= x < v.g.Clusters() && x != c ::
      ClusterData(v.g, v.disk, x) == ClusterData(v.g, old(v.disk), x)
    ensures exists n :: EntryIn(ClusterData(v.g, v.disk, c), ClusterData(v.g, old(v.disk), c), i, e, n)
  {
    ghost var data := ClusterData(v.g, v.disk, c);
    PrintInto(v, c, i, e, sfn, csum, es);
    BytesOfSlots(v.g);
    EntryInBytes(ClusterData(v.g, v.disk, c), data, e, es);
  }

  method PutInDirectory(v: Volume, c: nat, i: nat, e: Entry, sfn: seq<byte>, csum: byte,
                        ghost head: nat, ghost q: seq<nat>, ghost dir: Dir, ghost k: nat)
    requires v.Valid() && v.HasChain(q, head) && DirRep(v.g, v.disk, q, dir) && k < |q| && c == q[k]
    requires EntryOk(e) && sfn == ShortName(e.name) && csum == Checksum(sfn)
    requires EntriesOk(dir[k]) && Room(dir[k], |Group(e)|, Slots(v.g)) && i == |Groups(dir[k])|
    modifies v`disk, v.cbuf
    ensures v.Valid() && |v.disk| == |old(v.disk)|
    ensures DirRep(v.g, v.disk, q, dir[k := dir[k] + [e]])
    ensures OthersKept(v.g, old(v.disk), v.disk, v.chains, v.chains, head)
    ensures exists n :: EntryIn(ClusterData(v.g, v.disk, c), ClusterData(v.g, old(v.disk), c), i, e, n)
  {
    ghost var d1 := v.disk;
    ChainsInRange(v.g, |v.disk|, v.fat[..], v.chains);
    GoodBounds(v.g, |v.disk|);
    assert DirCluster(ClusterData(v.g, d1, q[k]), dir[k]);
    PutEntry(v, c, i, e, sfn, csum, dir[k]);
    DirRepAppend(v.g, v.fat[..], d1, v.disk, q, dir, k, e);
    RoundOthers(v.g, v.fat[..], d1, v.disk, v.chains, v.chains, q, q, k);
  }

  /** No `n + 1` free slots in a row. */
  ghost predicate Crowded(b: seq<byte>, n: nat) {
    forall j | 0 <= j < |b| / 32 - n :: SlotStart(b, j) != 0 && SlotStart(b, j) != 0xE5
  }

  ghost predicate CrowdedUpTo(g: Geometry, d: seq<Sector>, q: seq<nat>, k: nat, n: nat)
    requires g.Good(|d|) && InRange(g, q) && k <= |q|
  {
    forall h | 0 <= h < k :: Crowded(ClusterData(g, d, q[h]), n)
  }

  /** The clusters that the model passes over have no room. */
  lemma NoRoomBefore(g: Geometry, d: seq<Sector>, p: seq<nat>, q: seq<nat>, dir: Dir, e: Entry, k: nat)
    requires g.Good(|d|) && InRange(g, q) && p <= q && DirRep(g, d, p, dir) && EntryOk(e)
    requires k <= |p| && DirOk(dir) && forall j | 0 <= j < k :: !Room(dir[j], |Group(e)|, Slots(g))
    ensures CrowdedUpTo(g, d, q, k, LfnCount(e.name))
  {
    BytesOfSlots(g);
    forall h: nat | h < k ensures Crowded(ClusterData(g, d, q[h]), LfnCount(e.name)) {
      assert DirCluster(ClusterData(g, d, p[h]), dir[h]);
      NoRoomIn(ClusterData(g, d, q[h]), dir[h], |Group(e)|, Slots(g), LfnCount(e.name));
    }
  }

  lemma NoRoomIn(b: seq<byte>, es: seq<Entry>, m: nat, cap: nat, n: nat)
    requires |b| == 32 * cap && DirCluster(b, es) && !Room(es, m, cap) && m == n + 1
    ensures Crowded(b, n)
  {
    FirstFree(b, es);
  }

  /** The entry's bytes stand in one of the directory's clusters, the first with room or an appended cleared one. */
  ghost predicate Wrote(g: Geometry, d0: seq<Sector>, d: seq<Sector>, p: seq<nat>, q: seq<nat>, e: Entry)
    requires g.Good(|d0|) && |d| == |d0| && p <= q && InRange(g, q)
  {
    exists k, i, n :: WroteAt(g, d0, d, p, q, e, k, i, n) && CrowdedUpTo(g, d0, q, k, n)
  }

  ghost predicate WroteAt(g: Geometry, d0: seq<Sector>, d: seq<Sector>, p: seq<nat>, q: seq<nat>, e: Entry, k: nat,
                          i: nat, n: nat)
    requires g.Good(|d0|) && |d| == |d0| && p <= q && InRange(g, q)
  {
    && k < |q|
    && EntryIn(ClusterData(g, d, q[k]), if k < |p| then ClusterData(g, d0, q[k]) else Zeros(g.ClusterBytes()), i, e, n)
  }

  lemma WroteIs(g: Geometry, d0: seq<Sector>, d1: seq<Sector>, d: seq<Sector>, p: seq<nat>, q: seq<nat>, dir: Dir,
                k: nat, i: nat, e: Entry)
    requires g.Good(|d0|) && |d| == |d1| == |d0| && p <= q && InRange(g, q) && DirRep(g, d1, q, dir) && k < |q|
    requires if k < |p| then d1 == d0 else dir[k] == [] && i == 0
    requires exists n :: EntryIn(ClusterData(g, d, q[k]), ClusterData(g, d1, q[k]), i, e, n)
    ensures exists n :: WroteAt(g, d0, d, p, q, e, k, i, n)
  {
    var n: nat :| EntryIn(ClusterData(g, d, q[k]), ClusterData(g, d1, q[k]), i, e, n);
    if k >= |p| {
      assert DirCluster(ClusterData(g, d1, q[k]), dir[k]);
      BytesOfSlots(g);
      EntryInZeros(ClusterData(g, d, q[k]), ClusterData(g, d1, q[k]), e, n, Slots(g));
    }
    assert WroteAt(g, d0, d, p, q, e, k, i, n);
  }

  lemma WroteFirst(g: Geometry, d0: seq<Sector>, d: seq<Sector>, p: seq<nat>, q: seq<nat>, dir: Dir, e: Entry, k: nat)
    requires g.Good(|d0|) && |d| == |d0| && p <= q && InRange(g, q) && DirRep(g, d0, p, dir) && DirOk(dir) && EntryOk(e)
    requires k == FirstRoom(dir, |Group(e)|, Slots(g)) && exists i, n :: WroteAt(g, d0, d, p, q, e, k, i, n)
    ensures Wrote(g, d0, d, p, q, e)
  {
    var i, n :| WroteAt(g, d0, d, p, q, e, k, i, n);
    NoRoomBefore(g, d0, p, q, dir, e, k);
    assert n == LfnCount(e.name);
  }

  lemma BytesOfSlots(g: Geometry)
    ensures g.ClusterBytes() == 32 * Slots(g)
  {
  }

  /** Put the entry into the cluster found for it, in the model's words and in bytes. */
  method PutThere(v: Volume, c: nat, i: nat, e: Entry, sfn: seq<byte>, csum: byte, ghost head: nat, ghost p: seq<nat>,
                  ghost q: seq<nat>, ghost dir: Dir, ghost dir': Dir, ghost k: nat, ghost d0: seq<Sector>)
    requires v.Valid() && v.HasChain(q, head) && DirRep(v.g, v.disk, q, dir') && k < |q| && c == q[k] && p <= q
    requires EntryOk(e) && sfn == ShortName(e.name) && csum == Checksum(sfn)
    requires DirOk(dir) && |p| == |dir| && k == FirstRoom(dir, |Group(e)|, Slots(v.g))
    requires dir' == if k < |dir| then dir else dir + [[]]
    requires EntriesOk(dir'[k]) && i == |Groups(dir'[k])|
    requires |d0| == |v.disk| && (k < |dir| ==> v.disk == d0)
    modifies v`disk, v.cbuf
    ensures v.Valid() && |v.disk| == |old(v.disk)|
    ensures DirRep(v.g, v.disk, q, Insert(dir, e, Slots(v.g)))
    ensures OthersKept(v.g, old(v.disk), v.disk, v.chains, v.chains, head)
    ensures exists i, n :: WroteAt(v.g, d0, v.disk, p, q, e, k, i, n)
  {
    ghost var d1 := v.disk;
    SlotsEnough(v.g, |v.disk|);
    RoomFound(dir, dir', k, e, Slots(v.g));
    InsertedIs(dir, dir', k, e, Slots(v.g));
    PutInDirectory(v, c, i, e, sfn, csum, head, q, dir', k);
    assert dir'[k] == [] ==> i == 0;
    WroteIs(v.g, d0, d1, v.disk, p, q, dir', k, i, e);
  }

  lemma SlotsEnough(g: Geometry, sectors: nat)
    requires g.Good(sectors)
    ensures Slots(g) >= 6
  {
  }

  /** `write_dir_entry`: the entry is inserted where the model says, or nothing changes because the
      directory has no room and the disk is full. */
  method WriteDirEntry(v: Volume, head: nat, e: Entry, ghost p: seq<nat>, ghost dir: Dir)
    returns (ok: bool, ghost q: seq<nat>, ghost dir': Dir)
    requires v.Valid() && v.HasChain(p, head) && DirRep(v.g, v.disk, p, dir)
    requires DirOk(dir) && EntryOk(e)
    modifies v, v.fat, v.cbuf
    ensures v.Valid() && |v.disk| == |old(v.disk)|
    ensures Grows(old(v.fat[..]), v.fat[..])
    ensures v.HasChain(q, head) && p <= q && DirRep(v.g, v.disk, q, dir')
    ensures ok ==> dir' == Insert(dir, e, Slots(v.g))
    ensures !ok ==>
      dir' == dir && q == p && v.disk == old(v.disk) && v.fat[..] == old(v.fat[..]) && v.chains == old(v.chains)
    ensures ok <==> FirstRoom(dir, |Group(e)|, Slots(v.g)) < |dir| || !Full(old(v.fat[..]))
    ensures Replaced(old(v.chains), v.chains, p, q) && Traded(old(v.fat[..]), v.fat[..], |p|, |q|)
    ensures |q| == |dir'|
    ensures OthersKept(v.g, old(v.disk), v.disk, old(v.chains), v.chains, head)
    ensures ok ==> Wrote(v.g, old(v.disk), v.disk, p, q, e)
    ensures !ok ==> exists n :: 13 * (n - 1) < |e.name| <= 13 * n && CrowdedUpTo(v.g, v.disk, p, |p|, n)
  {
    ok, q, dir' := InsertEntry(v, head, e, p, dir);
    if ok {
      WroteFirst(v.g, old(v.disk), v.disk, p, q, dir, e, FirstRoom(dir, |Group(e)|, Slots(v.g)));
    } else {
      NoRoomBefore(v.g, v.disk, p, p, dir, e, |p|);
    }
  }

  method ShortAndSum(name: seq<byte>) returns (sfn: seq<byte>, csum: byte)
    requires NoNul(name)
    ensures sfn == ShortName(name) && csum == Checksum(sfn)
  {
    sfn := MakeSfn(name);
    csum := LfnSum(sfn);
  }

  method InsertEntry(v: Volume, head: nat, e: Entry, ghost p: seq<nat>, ghost dir: Dir)
    returns (ok: bool, ghost q: seq<nat>, ghost dir': Dir)
    requires v.Valid() && v.HasChain(p, head) && DirRep(v.g, v.disk, p, dir)
    requires DirOk(dir) && EntryOk(e)
    modifies v, v.fat, v.cbuf
    ensures v.Valid() && |v.disk| == |old(v.disk)|
    ensures Grows(old(v.fat[..]), v.fat[..])
    ensures v.HasChain(q, head) && p <= q && DirRep(v.g, v.disk, q, dir')
    ensures ok ==> dir' == Insert(dir, e, Slots(v.g))
    ensures !ok ==>
      dir' == dir && q == p && v.disk == old(v.disk) && v.fat[..] == old(v.fat[..]) && v.chains == old(v.chains)
    ensures ok <==> FirstRoom(dir, |Group(e)|, Slots(v.g)) < |dir| || !Full(old(v.fat[..]))
    ensures Replaced(old(v.chains), v.chains, p, q) && Traded(old(v.fat[..]), v.fat[..], |p|, |q|)
    ensures |q| == |dir'|
    ensures OthersKept(v.g, old(v.disk), v.disk, old(v.chains), v.chains, head)
    ensures ok ==>
      exists i, n :: WroteAt(v.g, old(v.disk), v.disk, p, q, e, FirstRoom(dir, |Group(e)|, Slots(v.g)), i, n)
  {
    ghost var d0, s0 := v.disk, v.chains;
    var total := LfnCount(e.name) + 1;
    var sfn, csum := ShortAndSum(e.name);
    var slotC, slotI;
    ok, slotC, slotI, q, dir' := FindSlots(v, head, total, p, dir);
    if ok {
      ghost var k, d1 := FirstRoom(dir, total, Slots(v.g)), v.disk;
      PutThere(v, slotC, slotI, e, sfn, csum, head, p, q, dir, dir', k, d0);
      OthersKeptChain(v.g, d0, d1, v.disk, s0, v.chains, v.chains, head);
      dir' := Insert(dir, e, Slots(v.g));
    }
  }

  /** `write_dir_entry`, as far as the model of the directory goes. */
  method Insertion(v: Volume, head: nat, e: Entry, ghost p: seq<nat>, ghost dir: Dir)
    returns (ok: bool, ghost q: seq<nat>, ghost dir': Dir)
    requires v.Valid() && v.HasChain(p, head) && DirRep(v.g, v.disk, p, dir) && DirOk(dir) && EntryOk(e)
    modifies v, v.fat, v.cbuf
    ensures v.Valid() && |v.disk| == |old(v.disk)|
    ensures Grows(old(v.fat[..]), v.fat[..])
    ensures v.HasChain(q, head) && p <= q && DirRep(v.g, v.disk, q, dir')
    ensures ok ==> dir' == Insert(dir, e, Slots(v.g))
    ensures !ok ==>
      dir' == dir && q == p && v.disk == old(v.disk) && v.fat[..] == old(v.fat[..]) && v.chains == old(v.chains)
    ensures var room := FirstRoom(dir, LfnCount(e.name) + 1, Slots(v.g)) < |dir|;
            && (ok <==> room || !Full(old(v.fat[..])))
            && FreeCount(v.fat[..]) == FreeCount(old(v.fat[..])) - if ok && !room then 1 else 0
    ensures Replaced(old(v.chains), v.chains, p, q)
    ensures OthersKept(v.g, old(v.disk), v.disk, old(v.chains), v.chains, head)
  {
    ok, q, dir' := WriteDirEntry(v, head, e, p, dir);
  }
}
