/** The path-level operations: creating directories and files in a mounted volume, and opening them. */
module FileSystem {
  import opened Bytes
  import opened FatChains
  import opened Geometry
  import opened Volumes
  import opened FatFiles
  import opened DirFormat
  import opened DirModel
  import opened Directories
  import opened DirRead

  /** First clusters of the directories, with what each one holds. */
  type Tree = map<nat, Dir>

  ghost predicate DirAt(g: Geometry, d: seq<Sector>, s: set<seq<nat>>, dir: Dir, h: nat)
    requires g.Good(|d|)
  {
    IsHead(s, h) && InRange(g, ChainFrom(s, h)) && DirRep(g, d, ChainFrom(s, h), dir)
  }

  /** An entry names a file's bytes or a directory of the tree. */
  ghost predicate RefOk(g: Geometry, s: set<seq<nat>>, tree: Tree, e: Entry) {
    Extent(g, s, e.first, e.size) && (e.first >= 2 ==> (e.first in tree <==> e.attr == 0x10))
  }

  ghost predicate TreeOk(g: Geometry, d: seq<Sector>, s: set<seq<nat>>, tree: Tree)
    requires g.Good(|d|)
  {
    && g.root in tree
    && (forall h {:trigger DirAt(g, d, s, tree[h], h)} | h in tree :: DirAt(g, d, s, tree[h], h))
    && (forall h, e {:trigger RefOk(g, s, tree, e), In(e, tree[h])} | h in tree && In(e, tree[h]) ::
        RefOk(g, s, tree, e))
  }

  // ---- what a change elsewhere leaves alone ----

  lemma HeadKept(g: Geometry, d: seq<Sector>, e: seq<Sector>, f: Fat, s: set<seq<nat>>, t: set<seq<nat>>, first: nat,
                 x: nat)
    requires g.Good(|d|) && |e| == |d| && Represents(f, t) && OthersKept(g, d, e, s, t, first)
    requires IsHead(s, x) && x != first
    ensures IsHead(t, x) && ChainFrom(t, x) == ChainFrom(s, x)
    ensures InRange(g, ChainFrom(s, x)) && SameData(g, d, e, ChainFrom(s, x))
  {
    var p := ChainFrom(s, x);
    assert KeptChain(g, d, e, t, p);
    ChainFromIs(f, t, p);
  }

  lemma BytesKept(g: Geometry, d: seq<Sector>, e: seq<Sector>, f: Fat, s: set<seq<nat>>, t: set<seq<nat>>, head: nat,
                  first: nat, size: nat)
    requires g.Good(|d|) && |e| == |d| && Represents(f, t) && OthersKept(g, d, e, s, t, head)
    requires ChainsOk(g, s) && ChainsOk(g, t) && Extent(g, s, first, size) && first != head
    ensures Extent(g, t, first, size)
    ensures FileBytes(g, e, t, first, size) == FileBytes(g, d, s, first, size)
  {
    if first >= 2 {
      HeadKept(g, d, e, f, s, t, head, first);
      SameDataSameBytes(g, d, e, ChainFrom(s, first));
    }
  }

  lemma DirKept(g: Geometry, d: seq<Sector>, e: seq<Sector>, f: Fat, s: set<seq<nat>>, t: set<seq<nat>>, head: nat,
                dir: Dir, h: nat)
    requires g.Good(|d|) && |e| == |d| && Represents(f, t) && OthersKept(g, d, e, s, t, head)
    requires DirAt(g, d, s, dir, h) && h != head
    ensures DirAt(g, e, t, dir, h)
  {
    HeadKept(g, d, e, f, s, t, head, h);
    DirRepKept(g, d, e, ChainFrom(s, h), dir);
  }

  /** A change that keeps every chain keeps the whole tree. */
  lemma TreeKept(g: Geometry, d: seq<Sector>, e: seq<Sector>, f: Fat, s: set<seq<nat>>, t: set<seq<nat>>, tree: Tree)
    requires g.Good(|d|) && |e| == |d| && Represents(f, t) && OthersKept(g, d, e, s, t, 0)
    requires ChainsOk(g, s) && ChainsOk(g, t) && TreeOk(g, d, s, tree)
    ensures TreeOk(g, e, t, tree)
  {
    forall h | h in tree ensures DirAt(g, e, t, tree[h], h) {
      assert DirAt(g, d, s, tree[h], h);
      HeadInRange(g, s, h);
      DirKept(g, d, e, f, s, t, 0, tree[h], h);
    }
    forall h, x | h in tree && In(x, tree[h]) ensures RefOk(g, t, tree, x) {
      assert RefOk(g, s, tree, x);
      if x.first >= 2 {
        HeadKept(g, d, e, f, s, t, 0, x.first);
      }
    }
  }

  lemma HeadInRange(g: Geometry, s: set<seq<nat>>, h: nat)
    requires ChainsOk(g, s) && IsHead(s, h)
    ensures 2 <= h < g.Clusters()
  {
    var p := ChainFrom(s, h);
    assert InRange(g, p);
    assert p[0] == h;
  }

  /** A new entry in one directory, whose chain may have grown, keeps the tree. */
  lemma TreeAfterEntry(g: Geometry, d: seq<Sector>, e: seq<Sector>, f: Fat, s: set<seq<nat>>, t: set<seq<nat>>,
                       tree: Tree,
                       head: nat, q: seq<nat>, dir: Dir, x: Entry)
    requires g.Good(|d|) && |e| == |d| && Represents(f, t) && OthersKept(g, d, e, s, t, head)
    requires TreeOk(g, d, s, tree) && head in tree && IsHead(s, head)
    requires q in t && ChainFrom(s, head) <= q && InRange(g, q) && DirRep(g, e, q, dir)
    requires (forall y :: In(y, dir) <==> In(y, tree[head]) || y == x) && RefOk(g, t, tree, x)
    ensures TreeOk(g, e, t, tree[head := dir])
  {
    var tree' := tree[head := dir];
    ChainFromIs(f, t, q);
    forall h | h in tree' ensures DirAt(g, e, t, tree'[h], h) {
      if h != head {
        assert DirAt(g, d, s, tree[h], h);
        DirKept(g, d, e, f, s, t, head, tree[h], h);
      }
    }
    forall h, y | h in tree' && In(y, tree'[h]) ensures RefOk(g, t, tree', y) {
      if y != x {
        assert RefOk(g, s, tree, y);
        RefKept(g, d, e, f, s, t, tree, head, q, y);
      }
    }
  }

  lemma RefKept(g: Geometry, d: seq<Sector>, e: seq<Sector>, f: Fat, s: set<seq<nat>>, t: set<seq<nat>>, tree: Tree,
                head: nat, q: seq<nat>, y: Entry)
    requires g.Good(|d|) && |e| == |d| && Represents(f, t) && OthersKept(g, d, e, s, t, head)
    requires IsHead(s, head) && q in t && ChainFrom(s, head) <= q && RefOk(g, s, tree, y)
    ensures RefOk(g, t, tree, y)
  {
    if y.first == head {
      ChainFromIs(f, t, q);
      var p := ChainFrom(s, head);
      if |p| < |q| {
        RepeatBelow(g.ClusterBytes(), |p|, |q|);
      }
    } else if y.first >= 2 {
      HeadKept(g, d, e, f, s, t, head, y.first);
    }
  }

  ghost predicate FsOk(v: Volume, tree: Tree)
    reads v, v.fat
  {
    v.Valid() && TreeOk(v.g, v.disk, v.chains, tree)
  }

  /** The bytes of every file the tree knew are the same after a change. */
  ghost predicate FilesKept(g: Geometry, d: seq<Sector>, e: seq<Sector>, s: set<seq<nat>>, t: set<seq<nat>>, tree: Tree)
    requires g.Good(|d|) && |e| == |d|
  {
    forall h, x {:trigger In(x, tree[h])} | h in tree && In(x, tree[h]) && x.first !in tree ::
      && ChainsOk(g, s) && ChainsOk(g, t) && Extent(g, s, x.first, x.size) && Extent(g, t, x.first, x.size)
      && FileBytes(g, e, t, x.first, x.size) == FileBytes(g, d, s, x.first, x.size)
  }

  lemma FilesKeptBy(g: Geometry, d: seq<Sector>, e: seq<Sector>, f: Fat, s: set<seq<nat>>, t: set<seq<nat>>, tree: Tree,
                    head: nat)
    requires g.Good(|d|) && |e| == |d| && Represents(f, t) && OthersKept(g, d, e, s, t, head)
    requires ChainsOk(g, s) && ChainsOk(g, t) && TreeOk(g, d, s, tree) && (head == 0 || head in tree)
    ensures FilesKept(g, d, e, s, t, tree)
  {
    forall h, x | h in tree && In(x, tree[h]) && x.first !in tree
      ensures Extent(g, s, x.first, x.size) && Extent(g, t, x.first, x.size)
              && FileBytes(g, e, t, x.first, x.size) == FileBytes(g, d, s, x.first, x.size)
    {
      assert RefOk(g, s, tree, x);
      if x.first == head {
        assert x.first == 0 && x.size == 0;
      } else {
        BytesKept(g, d, e, f, s, t, head, x.first, x.size);
      }
    }
  }

  // ---- entries in the tree ----

  /** Write an entry into directory `head` of the tree. */
  method AddEntry(v: Volume, head: nat, e: Entry, ghost tree: Tree) returns (ok: bool, ghost tree': Tree)
    requires FsOk(v, tree) && head in tree && EntryOk(e) && RefOk(v.g, v.chains, tree, e)
    modifies v, v.fat, v.cbuf
    ensures FsOk(v, tree') && |v.disk| == |old(v.disk)|
    ensures Grows(old(v.fat[..]), v.fat[..])
    ensures DirOk(tree[head])
    ensures ok ==> tree' == tree[head := Insert(tree[head], e, Slots(v.g))]
    ensures !ok ==> tree' == tree && v.disk == old(v.disk) && v.fat[..] == old(v.fat[..]) && v.chains == old(v.chains)
    ensures ok <==> HasRoom(v.g, tree[head], e.name) || !Full(old(v.fat[..]))
    ensures FreeCount(v.fat[..]) == FreeCount(old(v.fat[..])) - if ok && !HasRoom(v.g, tree[head], e.name) then 1 else 0
    ensures OnlyGrew(old(v.chains), v.chains, head)
    ensures OthersKept(v.g, old(v.disk), v.disk, old(v.chains), v.chains, head)
  {
    ghost var d0, s0 := v.disk, v.chains;
    assert DirAt(v.g, v.disk, v.chains, tree[head], head);
    ghost var p := ChainFrom(v.chains, head);
    DirRepOk(v.g, v.disk, p, tree[head]);
    ghost var q, dir;
    ok, q, dir := Insertion(v, head, e, p, tree[head]);
    tree' := tree;
    ghost var f: Fat := v.fat[..];
    if ok {
      InsertedInTree(v.g, d0, v.disk, f, s0, v.chains, tree, head, q, dir, e);
      tree' := tree[head := dir];
    }
    ChainFromIs(f, v.chains, q);
  }

  lemma InsertedInTree(g: Geometry, d: seq<Sector>, d': seq<Sector>, f: Fat, s: set<seq<nat>>, t: set<seq<nat>>,
                       tree: Tree, head: nat, q: seq<nat>, dir: Dir, e: Entry)
    requires g.Good(|d|) && |d'| == |d| && Represents(f, t) && OthersKept(g, d, d', s, t, head)
    requires TreeOk(g, d, s, tree) && head in tree && IsHead(s, head) && RefOk(g, s, tree, e)
    requires q in t && ChainFrom(s, head) <= q && InRange(g, q) && DirRep(g, d', q, dir)
    requires DirOk(tree[head]) && EntryOk(e) && dir == Insert(tree[head], e, Slots(g))
    ensures TreeOk(g, d', t, tree[head := dir])
  {
    InsertIn(tree[head], e, Slots(g));
    RefKept(g, d, d', f, s, t, tree, head, q, e);
    TreeAfterEntry(g, d, d', f, s, t, tree, head, q, dir, e);
  }

  /** Some cluster of the directory has the slots an entry with this name takes. */
  ghost predicate HasRoom(g: Geometry, dir: Dir, name: seq<byte>) {
    DirOk(dir) && FirstRoom(dir, LfnCount(name) + 1, Slots(g)) < |dir|
  }

  /** No chain changed but the one from `head`. */
  ghost predicate OnlyGrew(s: set<seq<nat>>, t: set<seq<nat>>, head: nat) {
    IsHead(s, head) && IsHead(t, head) && Replaced(s, t, ChainFrom(s, head), ChainFrom(t, head))
  }

  /** Nothing in the tree names a cluster that is free. */
  lemma FreeUnnamed(g: Geometry, d: seq<Sector>, f: Fat, s: set<seq<nat>>, t: Tree, c: nat)
    requires g.Good(|d|) && |f| == g.Clusters() && Represents(f, s) && TreeOk(g, d, s, t) && 2 <= c < |f| && Free(f, c)
    ensures forall h, x {:trigger In(x, t[h])} | h in t && In(x, t[h]) :: x.first != c
  {
    forall h, x {:trigger In(x, t[h])} | h in t && In(x, t[h]) ensures x.first != c {
      assert RefOk(g, s, t, x);
      if x.first == c {
        assert Chain(f, ChainFrom(s, c));
        ChainAllocated(f, ChainFrom(s, c), 0);
      }
    }
  }
}
