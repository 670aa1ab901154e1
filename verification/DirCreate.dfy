/** `fat32_create_dir`, and the short-name lookup it relies on. */
module DirCreate {
  import opened Bytes
  import opened FatChains
  import opened Geometry
  import opened Volumes
  import opened FatFiles
  import opened DirFormat
  import opened DirNames
  import opened DirModel
  import opened Directories
  import opened DirRead
  import opened FileSystem
  import opened FileCreate

  // ---- dir_lookup ----

  /** What `dir_lookup` compares: the first entry of a cluster whose short name is `sfn`. */
  function ShortMatch(es: seq<Entry>, sfn: seq<byte>): (r: Option<Entry>)
    ensures r.None? <==> forall e | e in es :: ShortName(e.name) != sfn
    ensures r.Some? ==> r.value in es && ShortName(r.value.name) == sfn
  {
    if es == [] then None
    else if ShortMatch(es[..|es| - 1], sfn).Some? then ShortMatch(es[..|es| - 1], sfn)
    else if ShortName(es[|es| - 1].name) == sfn then Some(es[|es| - 1])
    else None
  }

  /** `dir_lookup` gives up at the first free slot, even if later clusters hold entries. */
  function ShortLookup(dir: Dir, sfn: seq<byte>, cap: nat): nat
    requires forall k | 0 <= k < |dir| :: EntriesOk(dir[k])
  {
    if dir == [] then 0
    else if ShortMatch(dir[0], sfn).Some? then ShortMatch(dir[0], sfn).value.first
    else if |Groups(dir[0])| < cap then 0
    else ShortLookup(dir[1..], sfn, cap)
  }

  /** The same on slots: `None` means go on to the next cluster. */
  function ShortScan(slots: seq<Slot>, sfn: seq<byte>): Option<nat> {
    if slots == [] then None
    else if slots[0][0] == 0 then Some(0)
    else if slots[0][0] != 0xE5 && slots[0][11] != 0x0F && slots[0][..11] == sfn then Some(SlotFirst(slots[0]))
    else ShortScan(slots[1..], sfn)
  }

  lemma {:induction false} ShortScanGroup(e: Entry, k: nat, rest: seq<Slot>, sfn: seq<byte>)
    requires EntryOk(e) && k < |Group(e)|
    ensures ShortScan(Group(e)[k..] + rest, sfn) == if ShortName(e.name) == sfn then Some(e.first)
            else ShortScan(rest, sfn)
    decreases |Group(e)| - k
  {
    var g := Group(e);
    var s := g[k..] + rest;
    ShortSlot(e, k);
    assert s[0] == g[k];
    if k < LfnCount(e.name) {
      assert s[1..] == g[k + 1..] + rest;
      ShortScanGroup(e, k + 1, rest, sfn);
    } else {
      assert s[1..] == rest;
    }
  }

  /** What the scan looks at in one slot of an entry. */
  lemma ShortSlot(e: Entry, k: nat)
    requires EntryOk(e) && k < |Group(e)|
    ensures var s := Group(e)[k];
            && s[0] != 0 && s[0] != 0xE5 && |Group(e)| == LfnCount(e.name) + 1
            && if k < LfnCount(e.name) then s[11] == 0x0F
               else s[11] != 0x0F && s[..11] == ShortName(e.name) && SlotFirst(s) == e.first
  {
    var g, n := Group(e), LfnCount(e.name);
    GroupBusy(e, k);
    if k < n {
      assert g[k][11] == LfnByte(e.name, n - 1 - k, OrderByte(k, n), Checksum(ShortName(e.name)), 11);
    } else {
      assert g[k] == SfnSlot(e) && g[k][11] == e.attr && g[k][..11] == ShortName(e.name);
      SfnSlotFields(e);
    }
  }

  lemma {:induction false} ShortScanGroups(es: seq<Entry>, rest: seq<Slot>, sfn: seq<byte>)
    requires EntriesOk(es)
    ensures ShortScan(Groups(es) + rest, sfn)
         == if ShortMatch(es, sfn).Some? then Some(ShortMatch(es, sfn).value.first) else ShortScan(rest, sfn)
    decreases |es|
  {
    if es == [] {
      assert Groups(es) + rest == rest;
    } else {
      var m := |es| - 1;
      var g := Group(es[m]);
      assert Groups(es) + rest == Groups(es[..m]) + (g + rest);
      ShortScanGroups(es[..m], g + rest, sfn);
      assert g[0..] + rest == g + rest;
      ShortScanGroup(es[m], 0, rest, sfn);
    }
  }

  lemma ShortScanCluster(es: seq<Entry>, cap: nat, sfn: seq<byte>)
    requires EntriesOk(es) && |Groups(es)| <= cap
    ensures ShortScan(DirSlots(es, cap), sfn)
         == if ShortMatch(es, sfn).Some? then Some(ShortMatch(es, sfn).value.first)
            else if |Groups(es)| < cap then Some(0) else None
  {
    var z := seq(cap - |Groups(es)|, i => ZERO_SLOT);
    ShortScanGroups(es, z, sfn);
    assert z != [] ==> z[0] == ZERO_SLOT;
  }

  /** Search one cluster in the buffer for a short name. */
  method ScanShort(buf: array<byte>, cap: nat, sfn: seq<byte>, ghost slots: seq<Slot>) returns (r: Option<nat>)
    requires 32 * cap <= buf.Length && |sfn| == 11 && |slots| == cap && SlotsOf(buf[..32 * cap]) == slots
    ensures r == ShortScan(slots, sfn)
  {
    var i := 0;
    assert slots[0..] == slots;
    while i < cap
      invariant 0 <= i <= cap && ShortScan(slots, sfn) == ShortScan(slots[i..], sfn)
    {
      var e: Slot := buf[32 * i..32 * i + 32];
      assert e == slots[i] by { assert buf[..32 * cap][32 * i..32 * i + 32] == e; }
      assert slots[i..][0] == e && slots[i..][1..] == slots[i + 1..];
      if e[0] == 0x00 {
        return Some(0);
      }
      if e[0] != 0xE5 && e[11] != 0x0F && e[..11] == sfn {
        return Some(SlotFirst(e));
      }
      i := i + 1;
    }
    r := None;
  }

  /** What one cluster of entries settles about the lookup. */
  function ShortHere(es: seq<Entry>, sfn: seq<byte>, cap: nat): Option<nat>
    requires EntriesOk(es)
  {
    if ShortMatch(es, sfn).Some? then Some(ShortMatch(es, sfn).value.first)
    else if |Groups(es)| < cap then Some(0)
    else None
  }

  lemma ShortLookupStep(dir: Dir, k: nat, sfn: seq<byte>, cap: nat)
    requires DirOk(dir) && k < |dir|
    ensures ShortLookup(dir[k..], sfn, cap)
         == match ShortHere(dir[k], sfn, cap) { case Some(c) => c case None => ShortLookup(dir[k + 1..], sfn, cap) }
  {
    assert dir[k..][0] == dir[k] && dir[k..][1..] == dir[k + 1..];
  }

  /** Read one directory cluster and search it for a short name. */
  method ShortCluster(v: Volume, cur: nat, sfn: seq<byte>, ghost es: seq<Entry>) returns (r: Option<nat>)
    requires v.Valid() && 2 <= cur < v.g.Clusters() && |sfn| == 11 && DirCluster(ClusterData(v.g, v.disk, cur), es)
    modifies v.cbuf
    ensures v.Valid() && r == ShortHere(es, sfn, Slots(v.g))
  {
    GoodBounds(v.g, |v.disk|);
    var epc := v.g.ClusterBytes() / 32;
    v.ReadCluster(cur, v.cbuf);
    assert v.cbuf[..32 * epc] == ClusterData(v.g, v.disk, cur);
    r := ScanShort(v.cbuf, epc, sfn, DirSlots(es, epc));
    ShortScanCluster(es, epc, sfn);
  }

  /** `dir_lookup`. */
  method DirLookup(v: Volume, head: nat, name: seq<byte>, ghost p: seq<nat>, ghost dir: Dir) returns (c: nat)
    requires v.Valid() && v.HasChain(p, head) && DirRep(v.g, v.disk, p, dir) && DirOk(dir) && NoNul(name)
    modifies v.cbuf
    ensures v.Valid() && c == ShortLookup(dir, ShortName(name), Slots(v.g))
  {
    var fn := MakeSfn(name);
    var cur := head;
    ghost var k, f := 0, v.fat[..];
    assert Chain(f, p);
    assert dir[0..] == dir;
    while cur < EOC_MIN
      invariant 0 <= k <= |p| && v.Valid() && v.fat[..] == f
      invariant if k < |p| then cur == p[k] else cur >= EOC_MIN
      invariant ShortLookup(dir, fn, Slots(v.g)) == ShortLookup(dir[k..], fn, Slots(v.g))
      decreases |p| - k
    {
      ShortLookupStep(dir, k, fn, Slots(v.g));
      var r, next := ShortTurn(v, cur, fn, p, dir, k);
      if r.Some? {
        return r.value;
      }
      cur := next;
      k := k + 1;
    }
    c := 0;
  }

  /** Search the cluster at `cur` and take the link to the next one. */
  method ShortTurn(v: Volume, cur: nat, fn: seq<byte>, ghost p: seq<nat>, ghost dir: Dir, ghost k: nat)
    returns (r: Option<nat>, next: nat)
    requires v.Valid() && Chain(v.fat[..], p) && InRange(v.g, p) && DirRep(v.g, v.disk, p, dir) && DirOk(dir)
    requires k < |p| && cur == p[k] && |fn| == 11
    modifies v.cbuf
    ensures v.Valid() && v.fat[..] == old(v.fat[..]) && r == ShortHere(dir[k], fn, Slots(v.g))
    ensures if k + 1 < |p| then next == p[k + 1] else next >= EOC_MIN
  {
    assert DirCluster(ClusterData(v.g, v.disk, p[k]), dir[k]);
    r := ShortCluster(v, cur, fn, dir[k]);
    ChainAllocated(v.fat[..], p, k);
    assert k < |p| - 1 ==> Next(v.fat[..], p[k]) == p[k + 1];
    next := v.fat[cur] % 0x1000_0000;
  }

  // ---- fat32_create_dir ----

  /** A zeroed new cluster is an empty directory that no entry names yet. */
  lemma NewDirectory(g: Geometry, d: seq<Sector>, e: seq<Sector>, f0: Fat, f: Fat, s: set<seq<nat>>, t: set<seq<nat>>,
                     tree: Tree, c: nat)
    requires g.Good(|d|) && |e| == |d| && Represents(f0, s) && Represents(f, t) && |f0| == |f| == g.Clusters()
    requires TreeOk(g, d, s, tree) && OthersKept(g, d, e, s, t, 0) && ChainsOk(g, s)
    requires 2 <= c < |f0| && Free(f0, c) && [c] in t
    requires forall i | 0 <= i < g.ClusterBytes() :: ClusterData(g, e, c)[i] == 0
    ensures c !in tree && TreeOk(g, e, t, tree[c := [[]]])
    ensures RefOk(g, t, tree[c := [[]]], Entry([], c, 0, 0x10))
  {
    var tree' := tree[c := [[]]];
    NotInTree(g, d, f0, s, tree, c);
    ChainsInRange(g, |d|, f, t);
    TreeKept(g, d, e, f, s, t, tree);
    ChainFromIs(f, t, [c]);
    EmptyCluster(ClusterData(g, e, c));
    forall h | h in tree' ensures DirAt(g, e, t, tree'[h], h) {
      assert h != c ==> DirAt(g, e, t, tree[h], h);
    }
    forall h, y | h in tree' && In(y, tree'[h]) ensures RefOk(g, t, tree', y) {
      NothingIn(y);
      assert h in tree && In(y, tree[h]) && RefOk(g, t, tree, y);
    }
  }

  /** The name stands for a directory. */
  ghost predicate NamesDir(tree: Tree, parent: nat, name: seq<byte>)
    requires parent in tree
  {
    Lookup(tree[parent], name).Some? && Lookup(tree[parent], name).value.first in tree
  }

  /** `dir_lookup` claims the name is there already. */
  ghost predicate Taken(g: Geometry, tree: Tree, parent: nat, name: seq<byte>)
    requires parent in tree && DirOk(tree[parent])
  {
    ShortLookup(tree[parent], ShortName(name), Slots(g)) != 0
  }

  /** The reader would stop at an older entry with this name. */
  ghost predicate Shadowed(g: Geometry, tree: Tree, parent: nat, name: seq<byte>)
    requires parent in tree && DirOk(tree[parent])
  {
    Hidden(tree[parent], name, LfnCount(name) + 1, Slots(g))
  }

  /** The tree with a new directory in cluster `c`. */
  ghost function WithDir(g: Geometry, tree: Tree, parent: nat, name: seq<byte>, c: u32): Tree
    requires parent in tree && DirOk(tree[parent]) && EntryOk(Entry(name, c, 0, 0x10))
  {
    tree[c := [[]]][parent := Insert(tree[parent], Entry(name, c, 0, 0x10), Slots(g))]
  }

  /** There is a cluster for the directory, and one for its entry if that needs one. */
  ghost predicate DirFits(free: nat, room: bool) {
    free > if room then 0 else 1
  }

  /** Add the entry for a new directory whose cluster is zeroed, and flush the table. */
  method NameDir(v: Volume, parent: nat, name: seq<byte>, c: u32, ghost tree: Tree, ghost d0: seq<Sector>,
                 ghost s0: set<seq<nat>>, ghost f0: Fat)
    returns (ok: bool)
    requires v.Valid() && parent in tree && NameOk(name) && v.g.Good(|d0|) && |v.disk| == |d0|
    requires c !in tree && TreeOk(v.g, d0, s0, tree) && Represents(f0, s0) && |f0| == v.g.Clusters()
             && ChainsOk(v.g, s0)
    requires Grows(f0, v.fat[..]) && OthersKept(v.g, d0, v.disk, s0, v.chains, 0)
    requires FreeCount(f0) == FreeCount(v.fat[..]) + 1 && v.chains == s0 + {[c]}
    requires TreeOk(v.g, v.disk, v.chains, tree[c := [[]]])
             && RefOk(v.g, v.chains, tree[c := [[]]], Entry(name, c, 0, 0x10))
    modifies v, v.fat, v.cbuf
    ensures DirOk(tree[parent]) && |v.disk| == |d0| && Grows(f0, v.fat[..])
    ensures ok ==> FsOk(v, WithDir(v.g, tree, parent, name, c)) && v.Synced()
    ensures ok <==> DirFits(FreeCount(f0), HasRoom(v.g, tree[parent], name))
    ensures !ok ==> FsOk(v, tree) && Leaked(f0, v.fat[..], s0, v.chains, [c])
    ensures ok ==> Filed(f0, v.fat[..], s0, v.chains, [c], parent, HasRoom(v.g, tree[parent], name))
    ensures Undisturbed(v.g, d0, v.disk, s0, v.chains, tree)
  {
    ghost var d1, s1, f1 := v.disk, v.chains, v.fat[..];
    FullExactly(f1);
    ghost var tree';
    ok, tree' := AddEntry(v, parent, Entry(name, c, 0, 0x10), tree[c := [[]]]);
    GrowsTransitive(f0, f1, v.fat[..]);
    BothKept(v.g, d0, d1, v.disk, s0, s1, v.chains, parent);
    if ok {
      FlushKeeping(v, d0, s0, tree, tree', parent);
    } else {
      KeepTree(v, d0, s0, tree);
    }
  }

  /** Nothing happened to the old tree. */
  lemma KeepTree(v: Volume, d0: seq<Sector>, s0: set<seq<nat>>, tree: Tree)
    requires v.Valid() && v.g.Good(|d0|) && |v.disk| == |d0| && ChainsOk(v.g, s0)
    requires TreeOk(v.g, d0, s0, tree) && OthersKept(v.g, d0, v.disk, s0, v.chains, 0)
    ensures FsOk(v, tree) && Undisturbed(v.g, d0, v.disk, s0, v.chains, tree)
  {
    ChainsInRange(v.g, |v.disk|, v.fat[..], v.chains);
    TreeKept(v.g, d0, v.disk, v.fat[..], s0, v.chains, tree);
    FilesKeptBy(v.g, d0, v.disk, v.fat[..], s0, v.chains, tree, 0);
  }

  /** Take a cluster for a new directory, zero it and name it. */
  method MakeDir(v: Volume, parent: nat, name: seq<byte>, ghost tree: Tree) returns (c: u32, ok: bool)
    requires FsOk(v, tree) && parent in tree && NameOk(name)
    modifies v, v.fat, v.cbuf
    ensures DirOk(tree[parent]) && |v.disk| == |old(v.disk)| && Grows(old(v.fat[..]), v.fat[..])
    ensures ok ==> c !in tree && 2 <= c < v.fat.Length && Free(old(v.fat[..]), c)
    ensures ok ==> FsOk(v, WithDir(v.g, tree, parent, name, c)) && v.Synced()
    ensures ok <==> DirFits(FreeCount(old(v.fat[..])), HasRoom(v.g, tree[parent], name))
    ensures !ok ==>
      FsOk(v, tree) && Leaked(old(v.fat[..]), v.fat[..], old(v.chains), v.chains, if c == 0 then [] else [c])
    ensures ok ==> Filed(old(v.fat[..]), v.fat[..], old(v.chains), v.chains, [c], parent,
                         HasRoom(v.g, tree[parent], name))
    ensures Undisturbed(v.g, old(v.disk), v.disk, old(v.chains), v.chains, tree)
  {
    ghost var d0, s0, f0 := v.disk, v.chains, v.fat[..];
    TreeDirOk(v, tree, parent);
    ChainsInRange(v.g, |v.disk|, v.fat[..], v.chains);
    AllKept(v.g, d0, s0);
    FullExactly(f0);
    var nc := v.AllocCluster();
    if nc == 0 {
      KeepTree(v, d0, s0, tree);
      return 0, false;
    }
    c := nc;
    ZeroCluster(v, nc);
    NewChainKeeps(v.g, d0, v.disk, s0, v.chains, nc);
    NewDirectory(v.g, d0, v.disk, f0, v.fat[..], s0, v.chains, tree, nc);
    ok := NameDir(v, parent, name, c, tree, d0, s0, f0);
  }

  lemma TreeDirOk(v: Volume, tree: Tree, h: nat)
    requires FsOk(v, tree) && h in tree
    ensures DirOk(tree[h]) && IsHead(v.chains, h) && v.HasChain(ChainFrom(v.chains, h), h)
    ensures DirRep(v.g, v.disk, ChainFrom(v.chains, h), tree[h])
  {
    assert DirAt(v.g, v.disk, v.chains, tree[h], h);
    DirRepOk(v.g, v.disk, ChainFrom(v.chains, h), tree[h]);
  }

  /** `fat32_create_dir` in directory `parent`. */
  method CreateDir(v: Volume, parent: nat, name: seq<byte>, ghost tree: Tree)
    returns (r: int, ghost tree': Tree, ghost c: u32)
    requires FsOk(v, tree) && parent in tree && NameOk(name)
    modifies v, v.fat, v.cbuf
    ensures FsOk(v, tree') && |v.disk| == |old(v.disk)| && DirOk(tree[parent])
    ensures Grows(old(v.fat[..]), v.fat[..])
    ensures r == 0 || r == -1
    ensures Taken(v.g, tree, parent, name) ==>
      r == 0 && tree' == tree && v.disk == old(v.disk) && v.fat[..] == old(v.fat[..]) && v.chains == old(v.chains)
    ensures r == 0 && !Taken(v.g, tree, parent, name) ==>
      && c !in tree && 2 <= c < v.fat.Length && Free(old(v.fat[..]), c) && v.Synced()
      && tree' == WithDir(v.g, tree, parent, name, c)
    ensures r == 0 ==>
      && parent in tree'
      && Lookup(tree'[parent], name) == (if Taken(v.g, tree, parent, name) || Shadowed(v.g, tree, parent, name)
                                         then Lookup(tree[parent], name) else Some(Entry(name, c, 0, 0x10)))
    ensures r == 0 ==> (NamesDir(tree', parent, name) <==>
      NamesDir(tree, parent, name) || (!Taken(v.g, tree, parent, name) && !Shadowed(v.g, tree, parent, name)))
    ensures r == -1 <==>
      !Taken(v.g, tree, parent, name) && !DirFits(FreeCount(old(v.fat[..])), HasRoom(v.g, tree[parent], name))
    ensures r == -1 ==>
      tree' == tree && Leaked(old(v.fat[..]), v.fat[..], old(v.chains), v.chains, if c == 0 then [] else [c])
    ensures r == 0 && !Taken(v.g, tree, parent, name) ==>
      Filed(old(v.fat[..]), v.fat[..], old(v.chains), v.chains, [c], parent, HasRoom(v.g, tree[parent], name))
    ensures Undisturbed(v.g, old(v.disk), v.disk, old(v.chains), v.chains, tree)
  {
    ghost var d0, s0, f0 := v.disk, v.chains, v.fat[..];
    TreeDirOk(v, tree, parent);
    var found := DirLookup(v, parent, name, ChainFrom(v.chains, parent), tree[parent]);
    tree', c := tree, 0;
    if found != 0 {
      ChainsInRange(v.g, |v.disk|, v.fat[..], v.chains);
      AllKept(v.g, d0, s0);
      KeepTree(v, d0, s0, tree);
      return 0, tree', c;
    }
    var nc, ok := MakeDir(v, parent, name, tree);
    c := nc;
    if !ok {
      return -1, tree', c;
    }
    tree' := WithDir(v.g, tree, parent, name, c);
    CreatedLookup(v.g, d0, f0, s0, tree, parent, name, c);
    r := 0;
  }

  /** What the reader makes of a name after a directory was created under it. */
  lemma CreatedLookup(g: Geometry, d: seq<Sector>, f: Fat, s: set<seq<nat>>, tree: Tree, parent: nat, name: seq<byte>,
                      c: u32)
    requires g.Good(|d|) && |f| == g.Clusters() && Represents(f, s) && TreeOk(g, d, s, tree)
    requires parent in tree && DirOk(tree[parent]) && NameOk(name) && c !in tree && 2 <= c < |f| && Free(f, c)
    ensures var tree' := WithDir(g, tree, parent, name, c);
            && Lookup(tree'[parent], name) == (if Shadowed(g, tree, parent, name) then Lookup(tree[parent], name)
               else Some(Entry(name, c, 0, 0x10)))
            && (NamesDir(tree', parent, name) <==> NamesDir(tree, parent, name) || !Shadowed(g, tree, parent, name))
  {
    InsertLookup(tree[parent], Entry(name, c, 0, 0x10), Slots(g), name);
    OldName(g, d, f, s, tree, parent, name, c);
  }

  /** A name that was there does not stand for the new cluster. */
  lemma OldName(g: Geometry, d: seq<Sector>, f: Fat, s: set<seq<nat>>, tree: Tree, parent: nat, name: seq<byte>, c: nat)
    requires g.Good(|d|) && |f| == g.Clusters() && Represents(f, s) && TreeOk(g, d, s, tree)
    requires parent in tree && 2 <= c < |f| && Free(f, c)
    ensures Lookup(tree[parent], name).Some? ==> Lookup(tree[parent], name).value.first != c
  {
    FreeUnnamed(g, d, f, s, tree, c);
    LookupSound(tree[parent], name);
  }

  // ---- where the short-name check and the real lookup part ways ----

  /** A name the reader would find is also found by its short name. */
  lemma FoldThenShort(a: seq<byte>, b: seq<byte>)
    requires Fold(a) == Fold(b)
    ensures ShortName(a) == ShortName(b)
  {
    forall i | 0 <= i < |a| ensures Upper(a[i]) == Upper(b[i]) {
      assert Fold(a)[i] == Fold(b)[i];
    }
    SameDot(a, b);
    assert forall i | 0 <= i < 12 :: FatNameByte(a, i) == FatNameByte(b, i);
  }

  lemma SameDot(a: seq<byte>, b: seq<byte>)
    requires |a| == |b| && forall i | 0 <= i < |a| :: Upper(a[i]) == Upper(b[i])
    ensures LastDot(a) == LastDot(b)
  {
    var x, y := LastDot(a), LastDot(b);
    assert x >= 0 ==> Upper(b[x]) == Upper(a[x]);
    assert y >= 0 ==> Upper(a[y]) == Upper(b[y]);
  }

  /** The converse fails: with `abcdefgh1` in the directory, creating `abcdefgh2` reports success and
      creates nothing, because the two share a short name. */
  lemma CreateDirCanMiss(c: u32)
    requires c >= 2
    ensures var was, name := [97, 98, 99, 100, 101, 102, 103, 104, 49], [97, 98, 99, 100, 101, 102, 103, 104, 50];
            var es := [Entry(was, c, 0, 0x10)];
            && EntriesOk(es) && NameOk(name)
            && Lookup([es], name).None?
            && ShortLookup([es], ShortName(name), 128) != 0
  {
    var was, name := [97, 98, 99, 100, 101, 102, 103, 104, 49], [97, 98, 99, 100, 101, 102, 103, 104, 50];
    var es := [Entry(was, c, 0, 0x10)];
    assert Fold(was)[8] == 49 && Fold(name)[8] == 50;
    assert forall i | 0 <= i < 8 :: was[i] == name[i];
    NinthByteLost(was, name);
    OneEntry(Entry(was, c, 0, 0x10), name, 128);
  }

  /** Without a dot, only the first eight bytes of a name get into its short name. */
  lemma NinthByteLost(a: seq<byte>, b: seq<byte>)
    requires |a| == |b| == 9 && forall i | 0 <= i < 8 :: a[i] == b[i]
    requires forall i | 0 <= i < 9 :: a[i] != '.' as int && b[i] != '.' as int
    ensures ShortName(a) == ShortName(b)
  {
    assert LastDot(a) == -1 && LastDot(b) == -1;
    assert forall i | 0 <= i < 8 :: FatNameByte(a, i) == FatNameByte(b, i);
  }

  /** A directory of one entry, looked up by a name it does not have but whose short name is the same. */
  lemma OneEntry(e: Entry, name: seq<byte>, cap: nat)
    requires EntryOk(e) && Fold(e.name) != Fold(name) && ShortName(e.name) == ShortName(name) && e.first != 0
    ensures EntriesOk([e]) && Lookup([[e]], name).None? && ShortLookup([[e]], ShortName(name), cap) != 0
  {
    assert [e][..0] == [] && LastMatch([e], name).None?;
    assert [[e]][1..] == [];
    assert ShortMatch([e], ShortName(name)) == Some(e);
  }

  lemma NewChainKeeps(g: Geometry, d: seq<Sector>, e: seq<Sector>, s: set<seq<nat>>, t: set<seq<nat>>, n: nat)
    requires g.Good(|d|) && |e| == |d| && ChainsOk(g, s) && s <= t && (forall q | q in s :: n !in q)
    requires forall c | 2 <= c < g.Clusters() && c != n :: ClusterData(g, e, c) == ClusterData(g, d, c)
    ensures OthersKept(g, d, e, s, t, 0)
  {
    forall q | q in s && !StartsAt(q, 0) ensures KeptChain(g, d, e, t, q) {
      assert InRange(g, q);
    }
  }
}
