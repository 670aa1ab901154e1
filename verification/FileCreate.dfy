/** Creating files and directories, opening files, and the round trip from one to the other. */
module FileCreate {
  import opened Bytes
  import opened FatChains
  import opened Geometry
  import opened Volumes
  import opened FatFiles
  import opened DirFormat
  import opened DirModel
  import opened Directories
  import opened DirRead
  import opened FileSystem

  // ---- the data chain of a new file ----

  /** Write one zero-padded cluster. */
  method PutCluster(v: Volume, c: nat, piece: seq<byte>)
    requires v.Valid() && 2 <= c < v.g.Clusters() && |piece| <= v.g.ClusterBytes()
    modifies v`disk, v.cbuf
    ensures v.Valid() && |v.disk| == |old(v.disk)|
    ensures ClusterData(v.g, v.disk, c) == piece + Zeros(v.g.ClusterBytes() - |piece|)
    ensures forall e | 2 <= e < v.g.Clusters() && e != c ::
      ClusterData(v.g, v.disk, e) == ClusterData(v.g, old(v.disk), e)
  {
    GoodBounds(v.g, |v.disk|);
    var csize := v.g.ClusterBytes();
    Memset(v.cbuf, 0, 0, csize);
    ghost var was := v.cbuf[..];
    Memcpy(v.cbuf, 0, piece);
    assert v.cbuf[..csize] == piece + Zeros(csize - |piece|);
    v.WriteCluster(c, v.cbuf);
  }

  /** The chain `p` holds the first `done` bytes of `data`, zero-padded. */
  ghost predicate Holds(g: Geometry, d: seq<Sector>, p: seq<nat>, data: seq<byte>, done: nat)
    requires g.Good(|d|) && InRange(g, p)
  {
    && done <= |data| && done <= g.Capacity(|p|)
    && (done < |data| ==> done == g.Capacity(|p|))
    && (p != [] ==> g.Capacity(|p| - 1) < done)
    && ChainBytes(g, d, p) == data[..done] + Zeros(g.Capacity(|p|) - done)
  }

  lemma HoldsNext(g: Geometry, f: Fat, d: seq<Sector>, e: seq<Sector>, p: seq<nat>, q: seq<nat>, c: nat,
                  data: seq<byte>, done: nat, n: nat)
    requires g.Good(|d|) && |e| == |d| && InRange(g, p) && 2 <= c < g.Clusters() && c !in p && q == p + [c]
    requires Holds(g, d, p, data, done) && done < |data|
    requires n == if |data| - done > g.ClusterBytes() then g.ClusterBytes() else |data| - done
    requires ClusterData(g, e, c) == data[done..done + n] + Zeros(g.ClusterBytes() - n)
    requires forall x | 2 <= x < g.Clusters() && x != c :: ClusterData(g, e, x) == ClusterData(g, d, x)
    ensures InRange(g, q) && Holds(g, e, q, data, done + n)
  {
    assert q[..|q| - 1] == p;
    assert SameData(g, d, e, p);
    SameDataSameBytes(g, d, e, p);
    assert data[..done + n] == data[..done] + data[done..done + n];
    assert Zeros(0) == [];
    assert ChainBytes(g, e, q) == ChainBytes(g, e, p) + ClusterData(g, e, c);
  }

  /** Take a free cluster, as a new chain or linked after the last cluster of `p`. */
  method NextCluster(v: Volume, prev: nat, ghost first: nat, ghost p: seq<nat>) returns (c: nat, ghost q: seq<nat>)
    requires v.Valid() && (if prev == 0 then p == [] else v.HasChain(p, first) && prev == p[|p| - 1])
    modifies v`chains, v.fat
    ensures v.Valid() && Grows(old(v.fat[..]), v.fat[..])
    ensures c == 0 ==> v.fat[..] == old(v.fat[..]) && v.chains == old(v.chains)
    ensures c == 0 <==> Full(old(v.fat[..]))
    ensures c != 0 ==> Traded(old(v.fat[..]), v.fat[..], |p|, |q|)
                       && v.chains == (if prev == 0 then old(v.chains) + {q} else old(v.chains) - {p} + {q})
    ensures c != 0 ==>
      2 <= c < v.fat.Length && Free(old(v.fat[..]), c) && q == p + [c] && v.HasChain(q, if prev == 0 then c else first)
    ensures c != 0 ==> c !in p && (forall r | r in old(v.chains) :: c !in r)
    ensures c != 0 ==> forall r | r in old(v.chains) && r != p :: r in v.chains
  {
    q := p;
    if prev == 0 {
      c := v.AllocCluster();
    } else {
      c := v.ExtendChain(prev, p);
    }
    if c != 0 {
      q := p + [c];
      assert InRange(v.g, q) && (prev == 0 ==> q == [c]);
    }
  }

  /** Where the cluster loop stands: `p` is a new chain with the first `done` bytes, made of clusters that were
      free, and everything else is as it was. */
  ghost predicate Built(g: Geometry, d0: seq<Sector>, d: seq<Sector>, s0: set<seq<nat>>, s: set<seq<nat>>, f0: Fat,
                        f: Fat,
                        p: seq<nat>, data: seq<byte>, done: nat)
  {
    && g.Good(|d|) && |d| == |d0| && InRange(g, p) && Holds(g, d, p, data, done) && |f0| == g.Clusters()
    && Grows(f0, f) && Traded(f0, f, 0, |p|) && OthersKept(g, d0, d, s0, s, 0)
    && (p == [] ==> s == s0)
    && (p != [] ==> s == s0 + {p} && p !in s0 && 2 <= p[0] < |f0| && Free(f0, p[0]))
  }

  /** The cluster loop of `fat32_write_file`. It fails exactly when the data needs more clusters than are free, and then
      has taken them all. */
  method BuildChain(v: Volume, data: seq<byte>) returns (first: nat, ghost p: seq<nat>)
    requires v.Valid() && data != []
    modifies v, v.fat, v.cbuf
    ensures v.Valid()
    ensures exists done ::
      Built(v.g, old(v.disk), v.disk, old(v.chains), v.chains, old(v.fat[..]), v.fat[..], p, data, done)
    ensures first != 0 <==> |data| <= v.g.Capacity(FreeCount(old(v.fat[..])))
    ensures first == 0 ==> Full(v.fat[..])
    ensures first != 0 ==>
      && v.HasChain(p, first)
      && Built(v.g, old(v.disk), v.disk, old(v.chains), v.chains, old(v.fat[..]), v.fat[..], p, data, |data|)
  {
    ghost var d0, s0, f0 := v.disk, v.chains, v.fat[..];
    BuiltNothing(v.g, d0, s0, f0, data);
    var prev, done := 0, 0;
    first, p := 0, [];
    while done < |data|
      invariant v.Valid() && done <= |data| && Built(v.g, d0, v.disk, s0, v.chains, f0, v.fat[..], p, data, done)
      invariant if prev == 0 then p == [] && first == 0 else v.HasChain(p, first) && prev == p[|p| - 1]
      decreases |data| - done
    {
      var c, n;
      ghost var q;
      c, n, q := BuildTurn(v, data, done, prev, first, p, d0, s0, f0);
      if c == 0 {
        BuiltAll(v.g, d0, v.disk, s0, v.chains, f0, v.fat[..], p, data, done);
        return 0, p;
      }
      if first == 0 {
        first := c;
      }
      p, prev, done := q, c, done + n;
    }
    BuiltAll(v.g, d0, v.disk, s0, v.chains, f0, v.fat[..], p, data, done);
  }

  lemma BuiltNothing(g: Geometry, d: seq<Sector>, s: set<seq<nat>>, f: Fat, data: seq<byte>)
    requires g.Good(|d|) && |f| == g.Clusters() && Represents(f, s)
    ensures Built(g, d, d, s, s, f, f, [], data, 0)
  {
    ChainsInRange(g, |d|, f, s);
    AllKept(g, d, s);
    assert Zeros(0) == [];
  }

  /** The data fits the free clusters exactly when the loop gets to its end. */
  lemma BuiltAll(g: Geometry, d0: seq<Sector>, d: seq<Sector>, s0: set<seq<nat>>, s: set<seq<nat>>, f0: Fat, f: Fat,
                 p: seq<nat>, data: seq<byte>, done: nat)
    requires Built(g, d0, d, s0, s, f0, f, p, data, done) && (done == |data| || Full(f))
    ensures done == |data| <==> |data| <= g.Capacity(FreeCount(f0))
  {
    FullExactly(f);
    CapacityGrows(g, |p|, FreeCount(f0));
  }

  /** One more cluster, filled from the data. */
  method BuildTurn(v: Volume, data: seq<byte>, done: nat, prev: nat, ghost first: nat, ghost p: seq<nat>,
                   ghost d0: seq<Sector>, ghost s0: set<seq<nat>>, ghost f0: Fat)
    returns (c: nat, n: nat, ghost q: seq<nat>)
    requires v.Valid() && done < |data| && Represents(f0, s0)
    requires Built(v.g, d0, v.disk, s0, v.chains, f0, v.fat[..], p, data, done)
    requires if prev == 0 then p == [] else v.HasChain(p, first) && prev == p[|p| - 1]
    modifies v, v.fat, v.cbuf
    ensures v.Valid()
    ensures c == 0 ==>
      Full(v.fat[..]) && v.fat[..] == old(v.fat[..]) && v.disk == old(v.disk) && v.chains == old(v.chains)
    ensures c != 0 ==> 0 < n <= |data| - done && v.HasChain(q, if prev == 0 then c else first) && c == q[|q| - 1]
    ensures c != 0 ==> Built(v.g, d0, v.disk, s0, v.chains, f0, v.fat[..], q, data, done + n)
  {
    ghost var d1, s1, f1 := v.disk, v.chains, v.fat[..];
    c, q := NextCluster(v, prev, first, p);
    n := |data| - done;
    if c == 0 {
      return;
    }
    if n > v.g.ClusterBytes() {
      n := v.g.ClusterBytes();
    }
    PutCluster(v, c, data[done..done + n]);
    BuiltMore(v.g, d0, d1, v.disk, s0, s1, v.chains, f0, f1, v.fat[..], p, q, data, done, n, c);
  }

  lemma BuiltMore(g: Geometry, d0: seq<Sector>, d1: seq<Sector>, d: seq<Sector>, s0: set<seq<nat>>, s1: set<seq<nat>>,
                  s: set<seq<nat>>, f0: Fat, f1: Fat, f: Fat, p: seq<nat>, q: seq<nat>, data: seq<byte>, done: nat,
                  n: nat, c: nat)
    requires Built(g, d0, d1, s0, s1, f0, f1, p, data, done) && Represents(f0, s0) && Represents(f, s) && done < |data|
    requires |d| == |d1| && 2 <= c < g.Clusters() && |f| == |f1| == |f0| && Free(f1, c) && c !in p && q == p + [c]
    requires n == if |data| - done > g.ClusterBytes() then g.ClusterBytes() else |data| - done
    requires Grows(f1, f) && Traded(f1, f, |p|, |q|) && (forall r | r in s1 :: c !in r)
    requires s == if p == [] then s1 + {q} else s1 - {p} + {q}
    requires ClusterData(g, d, c) == data[done..done + n] + Zeros(g.ClusterBytes() - n)
    requires forall x | 2 <= x < g.Clusters() && x != c :: ClusterData(g, d, x) == ClusterData(g, d1, x)
    ensures Built(g, d0, d, s0, s, f0, f, q, data, done + n)
  {
    GrowsTransitive(f0, f1, f);
    HoldsNext(g, f, d1, d, p, q, c, data, done, n);
    FreshStays(f0, f1, c);
    BuildKept(g, f0, d0, d1, d, s0, s1, s, p, c, if p == [] then 0 else p[0]);
    assert s1 - {p} == if p == [] then s1 - {p} else s0;
    assert q in s0 ==> c in q && q in s1;
  }

  lemma AllKept(g: Geometry, d: seq<Sector>, s: set<seq<nat>>)
    requires g.Good(|d|) && ChainsOk(g, s)
    ensures OthersKept(g, d, d, s, s, 0)
  {
    forall q | q in s && !StartsAt(q, 0) ensures KeptChain(g, d, d, s, q) {
      assert InRange(g, q);
    }
  }

  lemma FreshStays(f: Fat, g: Fat, c: nat)
    requires Grows(f, g) && 2 <= c < |f| && Free(g, c)
    ensures Free(f, c)
  {
    assert GrowsAt(f, g, c);
  }

  /** A chain that was not there at the start may change; the ones that were do not. */
  lemma BuildKept(g: Geometry, f0: Fat, d0: seq<Sector>, d1: seq<Sector>, e: seq<Sector>,
                  s0: set<seq<nat>>, s1: set<seq<nat>>, t: set<seq<nat>>, p: seq<nat>, c: nat, first: nat)
    requires g.Good(|d0|) && |d1| == |e| == |d0| && OthersKept(g, d0, d1, s0, s1, 0)
    requires Represents(f0, s0) && |f0| == g.Clusters()
    requires p != [] ==> p[0] == first && 2 <= first < |f0| && Free(f0, first)
    requires (forall r | r in s1 :: c !in r) && (forall r | r in s1 && r != p :: r in t)
    requires forall x | 2 <= x < g.Clusters() && x != c :: ClusterData(g, e, x) == ClusterData(g, d1, x)
    ensures OthersKept(g, d0, e, s0, t, 0)
  {
    forall q | q in s0 && !StartsAt(q, 0) ensures KeptChain(g, d0, e, t, q) {
      assert KeptChain(g, d0, d1, s1, q);
      assert Chain(f0, q);
      ChainAllocated(f0, q, 0);
      assert q != p;
    }
  }

  // ---- fat32_write_file ----

  /** Every file of the tree reads the same in both states. */
  ghost predicate Undisturbed(g: Geometry, d: seq<Sector>, e: seq<Sector>, s: set<seq<nat>>, t: set<seq<nat>>,
                              tree: Tree) {
    g.Good(|d|) && |e| == |d| && FilesKept(g, d, e, s, t, tree)
  }

  /** The new chain is a file of the tree-to-be, and its bytes are the data. */
  lemma NewFile(g: Geometry, d: seq<Sector>, f0: Fat, f: Fat, s0: set<seq<nat>>, s: set<seq<nat>>, tree: Tree,
                p: seq<nat>, data: seq<byte>, x: Entry, d0: seq<Sector>)
    requires g.Good(|d|) && g.Good(|d0|) && Represents(f, s) && |f| == g.Clusters() == |f0| && Represents(f0, s0)
    requires p in s && p != [] && InRange(g, p) && Holds(g, d, p, data, |data|)
    requires 2 <= p[0] < |f0| && Free(f0, p[0]) && TreeOk(g, d0, s0, tree)
    requires x.first == p[0] && x.size == |data| && x.attr != 0x10
    ensures ChainsOk(g, s) && RefOk(g, s, tree, x) && p[0] !in tree
    ensures FileBytes(g, d, s, x.first, x.size) == data && ChainFrom(s, x.first) == p
  {
    ChainsInRange(g, |d|, f, s);
    ChainFromIs(f, s, p);
    assert ChainBytes(g, d, p)[..|data|] == data;
    NotInTree(g, d0, f0, s0, tree, p[0]);
  }

  lemma NotInTree(g: Geometry, d: seq<Sector>, f: Fat, s: set<seq<nat>>, tree: Tree, c: nat)
    requires g.Good(|d|) && |f| == g.Clusters() && Represents(f, s) && TreeOk(g, d, s, tree)
    requires 2 <= c < |f| && Free(f, c)
    ensures c !in tree
    ensures forall h, y | h in tree && In(y, tree[h]) :: y.first != c
  {
    forall h | h in tree ensures h != c {
      assert DirAt(g, d, s, tree[h], h);
      HeadNotFree(g, f, s, h);
    }
    forall h, y | h in tree && In(y, tree[h]) ensures y.first != c {
      assert RefOk(g, s, tree, y);
      if y.first >= 2 {
        HeadNotFree(g, f, s, y.first);
      }
    }
  }

  lemma HeadNotFree(g: Geometry, f: Fat, s: set<seq<nat>>, h: nat)
    requires Represents(f, s) && IsHead(s, h)
    ensures h < |f| && !Free(f, h)
  {
    var p := ChainFrom(s, h);
    assert Chain(f, p);
    ChainAllocated(f, p, 0);
    assert p[0] == h;
  }

  /** `n` bytes and the entry for them fit: an entry for which the directory has no room needs a cluster of its own. */
  ghost predicate FileFits(g: Geometry, free: nat, n: nat, room: bool) {
    if room then n <= g.Capacity(free) else free > 0 && n <= g.Capacity(free - 1)
  }

  /** What was taken when `fat32_write_file` gave up: every free cluster, for a chain that no entry names. */
  ghost predicate Leaked(f0: Fat, f: Fat, s0: set<seq<nat>>, s: set<seq<nat>>, p: seq<nat>) {
    Full(f) && |p| == FreeCount(f0) && s == if p == [] then s0 else s0 + {p}
  }

  /** What was taken by a file with chain `p` and its entry in directory `parent`. */
  ghost predicate Filed(f0: Fat, f: Fat, s0: set<seq<nat>>, s: set<seq<nat>>, p: seq<nat>, parent: nat, room: bool) {
    && FreeCount(f0) == FreeCount(f) + |p| + (if room then 0 else 1)
    && OnlyGrew(if p == [] then s0 else s0 + {p}, s, parent)
  }

  /** `fat32_write_file` into directory `parent` (which path resolution found): a new chain of exactly
      the clusters the data needs, zero-padded, and one new entry; all other files are untouched. It fails exactly when
      chain and entry do not fit, and then leaves every free cluster taken. An empty file for whose entry there is no
      space is lost without a report. */
  method WriteFile(v: Volume, parent: nat, name: seq<byte>, data: seq<byte>, ghost tree: Tree)
    returns (r: int, ghost tree': Tree, ghost e: Entry, ghost p: seq<nat>)
    requires FsOk(v, tree) && parent in tree && NameOk(name) && |data| < 0x1_0000_0000
    modifies v, v.fat, v.cbuf
    ensures FsOk(v, tree') && |v.disk| == |old(v.disk)|
    ensures Grows(old(v.fat[..]), v.fat[..])
    ensures var room := HasRoom(v.g, tree[parent], name);
            r == if data == [] || FileFits(v.g, FreeCount(old(v.fat[..])), |data|, room) then |data| else -1
    ensures r == -1 ==> tree' == tree && Leaked(old(v.fat[..]), v.fat[..], old(v.chains), v.chains, p)
    ensures r >= 0 ==> v.Synced()
    ensures r >= 0 && data != [] ==>
      && DirOk(tree[parent]) && EntryOk(e) && tree' == tree[parent := Insert(tree[parent], e, Slots(v.g))]
      && e.name == name && e.size == |data| && e.attr == 0x20 && e.first !in tree'
      && 2 <= e.first < v.fat.Length && Free(old(v.fat[..]), e.first)
    ensures r >= 0 && data != [] ==>
      && v.HasChain(p, e.first) && Holds(v.g, v.disk, p, data, |data|)
      && ChainsOk(v.g, v.chains) && Extent(v.g, v.chains, e.first, e.size)
      && FileBytes(v.g, v.disk, v.chains, e.first, e.size) == data
    ensures data == [] ==>
      && DirOk(tree[parent]) && EntryOk(e) && e == Entry(name, 0, 0, 0x20) && p == []
      && tree' == if HasRoom(v.g, tree[parent], name) || !Full(old(v.fat[..]))
                    then tree[parent := Insert(tree[parent], e, Slots(v.g))] else tree
    ensures r >= 0 ==> Filed(old(v.fat[..]), v.fat[..], old(v.chains), v.chains, p, parent,
                             tree' == tree || HasRoom(v.g, tree[parent], name))
    ensures Undisturbed(v.g, old(v.disk), v.disk, old(v.chains), v.chains, tree)
  {
    if |data| == 0 {
      p := [];
      tree', e := WriteEmpty(v, parent, name, tree);
      r := 0;
    } else {
      r, tree', e, p := WriteData(v, parent, name, data, tree);
    }
  }

  /** An entry is new to the directory. */
  lemma InsertChanges(dir: Dir, e: Entry, cap: nat)
    requires DirOk(dir) && EntryOk(e)
    ensures Insert(dir, e, cap) != dir
  {
    var k := FirstRoom(dir, |Group(e)|, cap);
    assert k < |dir| ==> |Insert(dir, e, cap)[k]| == |dir[k]| + 1;
  }

  method WriteEmpty(v: Volume, parent: nat, name: seq<byte>, ghost tree: Tree)
    returns (ghost tree': Tree, ghost e: Entry)
    requires FsOk(v, tree) && parent in tree && NameOk(name)
    modifies v, v.fat, v.cbuf
    ensures FsOk(v, tree') && |v.disk| == |old(v.disk)| && Grows(old(v.fat[..]), v.fat[..]) && v.Synced()
    ensures DirOk(tree[parent]) && EntryOk(e) && e == Entry(name, 0, 0, 0x20)
    ensures tree' == if HasRoom(v.g, tree[parent], name) || !Full(old(v.fat[..]))
                       then tree[parent := Insert(tree[parent], e, Slots(v.g))] else tree
    ensures Filed(old(v.fat[..]), v.fat[..], old(v.chains), v.chains, [], parent,
                  tree' == tree || HasRoom(v.g, tree[parent], name))
    ensures Undisturbed(v.g, old(v.disk), v.disk, old(v.chains), v.chains, tree)
  {
    ghost var d0, s0 := v.disk, v.chains;
    ChainsInRange(v.g, |v.disk|, v.fat[..], v.chains);
    e := Entry(name, 0, 0, 0x20);
    var ok;
    ok, tree' := AddEntry(v, parent, Entry(name, 0, 0, 0x20), tree);
    InsertChanges(tree[parent], e, Slots(v.g));
    FlushKeeping(v, d0, s0, tree, tree', parent);
  }

  method WriteData(v: Volume, parent: nat, name: seq<byte>, data: seq<byte>, ghost tree: Tree)
    returns (r: int, ghost tree': Tree, ghost e: Entry, ghost p: seq<nat>)
    requires FsOk(v, tree) && parent in tree && NameOk(name) && 0 < |data| < 0x1_0000_0000
    modifies v, v.fat, v.cbuf
    ensures FsOk(v, tree') && |v.disk| == |old(v.disk)| && Grows(old(v.fat[..]), v.fat[..])
    ensures var room := HasRoom(v.g, tree[parent], name);
            r == if FileFits(v.g, FreeCount(old(v.fat[..])), |data|, room) then |data| else -1
    ensures r == -1 ==> tree' == tree && Leaked(old(v.fat[..]), v.fat[..], old(v.chains), v.chains, p)
    ensures r >= 0 ==>
      && v.Synced() && DirOk(tree[parent]) && EntryOk(e) && tree' == tree[parent := Insert(tree[parent], e, Slots(v.g))]
      && e.name == name && e.size == |data| && e.attr == 0x20 && e.first !in tree'
      && 2 <= e.first < v.fat.Length && Free(old(v.fat[..]), e.first)
    ensures r >= 0 ==>
      && v.HasChain(p, e.first) && Holds(v.g, v.disk, p, data, |data|)
      && ChainsOk(v.g, v.chains) && Extent(v.g, v.chains, e.first, e.size)
      && FileBytes(v.g, v.disk, v.chains, e.first, e.size) == data
    ensures r >= 0 ==> Filed(old(v.fat[..]), v.fat[..], old(v.chains), v.chains, p, parent,
                             HasRoom(v.g, tree[parent], name))
    ensures Undisturbed(v.g, old(v.disk), v.disk, old(v.chains), v.chains, tree)
  {
    ghost var d0, s0, f0 := v.disk, v.chains, v.fat[..];
    ChainsInRange(v.g, |v.disk|, v.fat[..], v.chains);
    tree' := tree;
    var first;
    first, p := BuildChain(v, data);
    ghost var done :| Built(v.g, d0, v.disk, s0, v.chains, f0, v.fat[..], p, data, done);
    ChainsInRange(v.g, |v.disk|, v.fat[..], v.chains);
    TreeKept(v.g, d0, v.disk, v.fat[..], s0, v.chains, tree);
    FullExactly(v.fat[..]);
    e := Entry(name, first, |data|, 0x20);
    if first == 0 {
      FilesKeptBy(v.g, d0, v.disk, v.fat[..], s0, v.chains, tree, 0);
      NeverFits(v.g, FreeCount(f0), |data|);
      return -1, tree', e, p;
    }
    NewFile(v.g, v.disk, f0, v.fat[..], s0, v.chains, tree, p, data, e, d0);
    var ok;
    ok, tree' := NameFile(v, parent, name, first, data, tree, p, d0, s0, f0);
    r := if ok then |data| else -1;
  }

  lemma NeverFits(g: Geometry, free: nat, n: nat)
    requires g.Capacity(free) < n
    ensures forall room :: !FileFits(g, free, n, room)
  {
    if free > 0 {
      CapacityGrows(g, free - 1, free);
    }
  }

  /** The chain is there; write the entry and flush the table. */
  method NameFile(v: Volume, parent: nat, name: seq<byte>, first: nat, data: seq<byte>, ghost tree: Tree,
                  ghost p: seq<nat>,
                  ghost d0: seq<Sector>, ghost s0: set<seq<nat>>, ghost f0: Fat) returns (ok: bool, ghost tree': Tree)
    requires FsOk(v, tree) && parent in tree && NameOk(name) && 0 < |data| < 0x1_0000_0000 && first < 0x1_0000_0000
    requires v.HasChain(p, first) && Built(v.g, d0, v.disk, s0, v.chains, f0, v.fat[..], p, data, |data|)
    requires TreeOk(v.g, d0, s0, tree) && Represents(f0, s0) && ChainsOk(v.g, s0) && first !in tree
    requires RefOk(v.g, v.chains, tree, Entry(name, first, |data|, 0x20))
    modifies v, v.fat, v.cbuf
    ensures var e := Entry(name, first, |data|, 0x20);
            && FsOk(v, tree') && |v.disk| == |d0| && Grows(f0, v.fat[..]) && DirOk(tree[parent]) && EntryOk(e)
            && (ok <==> FileFits(v.g, FreeCount(f0), |data|, HasRoom(v.g, tree[parent], name)))
            && (!ok ==> tree' == tree && Leaked(f0, v.fat[..], s0, v.chains, p))
            && (ok ==> v.Synced() && tree' == tree[parent := Insert(tree[parent], e, Slots(v.g))])
            && (ok ==> v.HasChain(p, first) && Holds(v.g, v.disk, p, data, |data|))
            && (ok ==> ChainsOk(v.g, v.chains) && Extent(v.g, v.chains, first, |data|)
                       && FileBytes(v.g, v.disk, v.chains, first, |data|) == data)
            && (ok ==> Filed(f0, v.fat[..], s0, v.chains, p, parent, HasRoom(v.g, tree[parent], name)))
    ensures Undisturbed(v.g, d0, v.disk, s0, v.chains, tree)
  {
    ok, tree' := EnterFile(v, parent, Entry(name, first, |data|, 0x20), data, tree, p, d0, s0, f0);
    if ok {
      FinishFile(v, parent, first, data, tree, tree', p, d0, s0);
    } else {
      ChainsInRange(v.g, |v.disk|, v.fat[..], v.chains);
      FilesKeptBy(v.g, d0, v.disk, v.fat[..], s0, v.chains, tree, parent);
    }
  }

  /** Write the entry, if there is a cluster left for it or the directory has room. */
  method EnterFile(v: Volume, parent: nat, e: Entry, ghost data: seq<byte>, ghost tree: Tree, ghost p: seq<nat>,
                   ghost d0: seq<Sector>, ghost s0: set<seq<nat>>, ghost f0: Fat) returns (ok: bool, ghost tree': Tree)
    requires FsOk(v, tree) && parent in tree && EntryOk(e) && e.size == |data| && v.HasChain(p, e.first) && data != []
    requires Built(v.g, d0, v.disk, s0, v.chains, f0, v.fat[..], p, data, |data|)
    requires ChainsOk(v.g, s0) && e.first !in tree && RefOk(v.g, v.chains, tree, e)
    modifies v, v.fat, v.cbuf
    ensures FsOk(v, tree') && |v.disk| == |d0| && Grows(f0, v.fat[..]) && DirOk(tree[parent])
    ensures ok <==> FileFits(v.g, FreeCount(f0), |data|, HasRoom(v.g, tree[parent], e.name))
    ensures !ok ==> tree' == tree && Leaked(f0, v.fat[..], s0, v.chains, p)
    ensures ok ==> tree' == tree[parent := Insert(tree[parent], e, Slots(v.g))]
    ensures ok ==> v.HasChain(p, e.first) && Holds(v.g, v.disk, p, data, |data|)
    ensures ok ==> Filed(f0, v.fat[..], s0, v.chains, p, parent, HasRoom(v.g, tree[parent], e.name))
    ensures OthersKept(v.g, d0, v.disk, s0, v.chains, parent)
  {
    ghost var d1, s1, f1 := v.disk, v.chains, v.fat[..];
    ok, tree' := AddEntry(v, parent, e, tree);
    EnteredOrNot(v.g, d0, d1, s0, s1, v.chains, f0, f1, v.fat[..], p, data, parent,
                 HasRoom(v.g, tree[parent], e.name), ok);
    BothKept(v.g, d0, d1, v.disk, s0, s1, v.chains, parent);
    NewFileKept(v.g, d1, v.disk, v.fat[..], s1, v.chains, p, data, e, parent);
  }

  /** The closing flush, after which the file is what its entry says. */
  method FinishFile(v: Volume, ghost parent: nat, ghost first: nat, ghost data: seq<byte>, ghost tree: Tree,
                    ghost tree': Tree, ghost p: seq<nat>, ghost d0: seq<Sector>, ghost s0: set<seq<nat>>)
    requires FsOk(v, tree') && |v.disk| == |d0| && TreeOk(v.g, d0, s0, tree) && parent in tree && first >= 2
    requires ChainsOk(v.g, s0) && OthersKept(v.g, d0, v.disk, s0, v.chains, parent)
    requires v.HasChain(p, first) && Holds(v.g, v.disk, p, data, |data|)
    modifies v`disk
    ensures FsOk(v, tree') && |v.disk| == |d0| && v.Synced() && Undisturbed(v.g, d0, v.disk, s0, v.chains, tree)
    ensures Holds(v.g, v.disk, p, data, |data|) && ChainsOk(v.g, v.chains) && Extent(v.g, v.chains, first, |data|)
    ensures FileBytes(v.g, v.disk, v.chains, first, |data|) == data
  {
    ghost var d2 := v.disk;
    FlushKeeping(v, d0, s0, tree, tree', parent);
    SameHolds(v.g, d2, v.disk, p, data, |data|);
    NewFileBytes(v.g, v.disk, v.fat[..], v.chains, p, data, first);
  }

  lemma EnteredOrNot(g: Geometry, d0: seq<Sector>, d1: seq<Sector>, s0: set<seq<nat>>, s1: set<seq<nat>>,
                     s: set<seq<nat>>, f0: Fat, f1: Fat, f: Fat, p: seq<nat>, data: seq<byte>, parent: nat, room: bool,
                     ok: bool)
    requires Built(g, d0, d1, s0, s1, f0, f1, p, data, |data|) && data != [] && p != [] && Grows(f1, f)
    requires ok <==> room || !Full(f1)
    requires FreeCount(f) == FreeCount(f1) - (if ok && !room then 1 else 0) && OnlyGrew(s1, s, parent)
    requires !ok ==> f == f1 && s == s1
    ensures Grows(f0, f) && (ok <==> FileFits(g, FreeCount(f0), |data|, room))
    ensures !ok ==> Leaked(f0, f, s0, s, p)
    ensures ok ==> Filed(f0, f, s0, s, p, parent, room)
  {
    FullExactly(f1);
    EntryFits(g, FreeCount(f0), |p|, |data|);
    GrowsTransitive(f0, f1, f);
  }

  /** A chain of `m` clusters for `n` bytes leaves a cluster for the entry exactly when one fewer would have been enough
      space for the bytes. */
  lemma EntryFits(g: Geometry, free: nat, m: nat, n: nat)
    requires 0 < m <= free && g.Capacity(m - 1) < n <= g.Capacity(m)
    ensures n <= g.Capacity(free) && (n <= g.Capacity(free - 1) <==> m < free)
  {
    CapacityGrows(g, m, free);
    if m < free {
      CapacityGrows(g, m, free - 1);
    }
  }

  lemma BothKept(g: Geometry, d0: seq<Sector>, d1: seq<Sector>, d2: seq<Sector>,
                 s0: set<seq<nat>>, s1: set<seq<nat>>, s2: set<seq<nat>>, head: nat)
    requires g.Good(|d0|) && |d1| == |d2| == |d0|
    requires OthersKept(g, d0, d1, s0, s1, 0) && OthersKept(g, d1, d2, s1, s2, head) && ChainsOk(g, s0)
    ensures OthersKept(g, d0, d2, s0, s2, head)
  {
    forall q | q in s0 && !StartsAt(q, head) ensures KeptChain(g, d0, d2, s2, q) {
      assert InRange(g, q);
      assert KeptChain(g, d0, d1, s1, q) && KeptChain(g, d1, d2, s2, q);
    }
  }

  /** Writing the entry leaves the new chain as it was built. */
  lemma NewFileKept(g: Geometry, d: seq<Sector>, e: seq<Sector>, f: Fat, s: set<seq<nat>>, t: set<seq<nat>>,
                    p: seq<nat>, data: seq<byte>, x: Entry, head: nat)
    requires g.Good(|d|) && |e| == |d| && Represents(f, t) && OthersKept(g, d, e, s, t, head)
    requires p in s && p != [] && InRange(g, p) && p[0] != head && Holds(g, d, p, data, |data|)
    ensures p in t && Holds(g, e, p, data, |data|)
  {
    assert KeptChain(g, d, e, t, p);
    SameDataSameBytes(g, d, e, p);
  }

  lemma SameHolds(g: Geometry, d: seq<Sector>, e: seq<Sector>, p: seq<nat>, data: seq<byte>, n: nat)
    requires g.Good(|d|) && |e| == |d| && InRange(g, p) && Holds(g, d, p, data, n)
    requires forall c | 2 <= c < g.Clusters() :: ClusterData(g, e, c) == ClusterData(g, d, c)
    ensures Holds(g, e, p, data, n)
  {
    SameDataSameBytes(g, d, e, p);
  }

  lemma NewFileBytes(g: Geometry, d: seq<Sector>, f: Fat, s: set<seq<nat>>, p: seq<nat>, data: seq<byte>, first: nat)
    requires g.Good(|d|) && Represents(f, s) && |f| == g.Clusters() && p in s && p != [] && InRange(g, p)
    requires Holds(g, d, p, data, |data|) && first == p[0] >= 2
    ensures ChainsOk(g, s) && Extent(g, s, first, |data|) && FileBytes(g, d, s, first, |data|) == data
  {
    ChainsInRange(g, |d|, f, s);
    ChainFromIs(f, s, p);
    assert ChainBytes(g, d, p)[..|data|] == data;
  }

  /** The closing flush touches no cluster. */
  method FlushKeeping(v: Volume, ghost d0: seq<Sector>, ghost s0: set<seq<nat>>, ghost tree: Tree, ghost tree': Tree,
                      ghost head: nat)
    requires FsOk(v, tree') && |v.disk| == |d0| && TreeOk(v.g, d0, s0, tree) && (head == 0 || head in tree)
    requires ChainsOk(v.g, s0) && OthersKept(v.g, d0, v.disk, s0, v.chains, head)
    modifies v`disk
    ensures FsOk(v, tree') && |v.disk| == |d0| && v.Synced()
    ensures Undisturbed(v.g, d0, v.disk, s0, v.chains, tree)
    ensures OthersKept(v.g, d0, v.disk, s0, v.chains, head)
    ensures forall c | 2 <= c < v.g.Clusters() :: ClusterData(v.g, v.disk, c) == ClusterData(v.g, old(v.disk), c)
  {
    ghost var d1 := v.disk;
    ChainsInRange(v.g, |v.disk|, v.fat[..], v.chains);
    v.FlushFat();
    FlushKept(v.g, d1, v.disk, v.chains);
    TreeKept(v.g, d1, v.disk, v.fat[..], v.chains, v.chains, tree');
    BothKept'(v.g, d0, d1, v.disk, s0, v.chains, head);
    FilesKeptBy(v.g, d0, v.disk, v.fat[..], s0, v.chains, tree, head);
  }

  lemma FlushKept(g: Geometry, d: seq<Sector>, e: seq<Sector>, s: set<seq<nat>>)
    requires g.Good(|d|) && |e| == |d| && ChainsOk(g, s)
    requires forall c | 2 <= c < g.Clusters() :: ClusterData(g, e, c) == ClusterData(g, d, c)
    ensures OthersKept(g, d, e, s, s, 0)
  {
    forall q | q in s && !StartsAt(q, 0) ensures KeptChain(g, d, e, s, q) {
      assert InRange(g, q);
    }
  }

  lemma BothKept'(g: Geometry, d0: seq<Sector>, d1: seq<Sector>, d2: seq<Sector>, s0: set<seq<nat>>, s1: set<seq<nat>>,
                  head: nat)
    requires g.Good(|d0|) && |d1| == |d2| == |d0|
    requires OthersKept(g, d0, d1, s0, s1, head) && OthersKept(g, d1, d2, s1, s1, 0) && ChainsOk(g, s0)
    ensures OthersKept(g, d0, d2, s0, s1, head)
  {
    forall q | q in s0 && !StartsAt(q, head) ensures KeptChain(g, d0, d2, s1, q) {
      assert InRange(g, q);
      assert KeptChain(g, d0, d1, s1, q) && KeptChain(g, d1, d2, s1, q);
    }
  }
}
