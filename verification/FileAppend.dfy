/** Writing through an open handle, and what a later open of the same name sees: the directory entry is not updated. */
module FileAppend {
  import opened Bytes
  import opened FatChains
  import opened Geometry
  import opened Volumes
  import opened FatFiles
  import opened DirFormat
  import opened DirModel
  import opened FileSystem
  import opened FileOpen

  /** The old chain of a file is the beginning of the new one. */
  lemma ChainStays(g: Geometry, f0: Fat, f: Fat, s: set<seq<nat>>, t: set<seq<nat>>, first: nat)
    requires Represents(f0, s) && Represents(f, t) && Grows(f0, f) && IsHead(s, first)
    ensures IsHead(t, first) && ChainFrom(s, first) <= ChainFrom(t, first)
  {
    var p := ChainFrom(s, first);
    var q := GrowsExtends(f0, s, f, t, p);
    ChainFromIs(f, t, q);
    assert q[0] == p[0];
  }

  lemma EntryStays(g: Geometry, d: seq<Sector>, e: seq<Sector>, f0: Fat, f: Fat, s: set<seq<nat>>, t: set<seq<nat>>,
                   tree: Tree,
                   first: nat, x: Entry)
    requires g.Good(|d|) && |e| == |d| && Represents(f0, s) && Represents(f, t) && Grows(f0, f)
    requires OthersKept(g, d, e, s, t, first) && RefOk(g, s, tree, x)
    ensures RefOk(g, t, tree, x)
  {
    if x.first >= 2 {
      ChainStays(g, f0, f, s, t, x.first);
      CapacityGrows(g, |ChainFrom(s, x.first)|, |ChainFrom(t, x.first)|);
    }
  }

  /** Writing to a file leaves the tree of directories as it was. */
  lemma TreeStays(g: Geometry, d: seq<Sector>, e: seq<Sector>, f0: Fat, f: Fat, s: set<seq<nat>>, t: set<seq<nat>>,
                  tree: Tree, first: nat)
    requires g.Good(|d|) && |e| == |d| && Represents(f0, s) && Represents(f, t) && Grows(f0, f)
    requires OthersKept(g, d, e, s, t, first) && TreeOk(g, d, s, tree) && first !in tree
    ensures TreeOk(g, e, t, tree)
  {
    forall h | h in tree ensures DirAt(g, e, t, tree[h], h) {
      assert DirAt(g, d, s, tree[h], h);
      DirKept(g, d, e, f, s, t, first, tree[h], h);
    }
    forall h, x | h in tree && In(x, tree[h]) ensures RefOk(g, t, tree, x) {
      assert RefOk(g, s, tree, x);
      EntryStays(g, d, e, f0, f, s, t, tree, first, x);
    }
  }

  /** Write through a handle, then open the name again: the new handle has the size in the directory entry, so it
      sees what was written only up to there. It sees all of it exactly when the write ends inside the file, or the file
      fills all the clusters it has and there are no others. A file created empty has no cluster in its entry, and
      everything written to it is out of reach. */
  method WriteReopen(v: Volume, name: seq<byte>, f: OpenFile, buffer: seq<byte>, ghost tree: Tree)
    returns (r: int, f2: OpenFile?)
    requires FsOk(v, tree) && FileOk(v, f) && NoNul(name) && NoSlash(name) && InLimit(v, f, |buffer|)
    requires Lookup(tree[v.g.root], name).Some? && f.first == Lookup(tree[v.g.root], name).value.first
    requires f.size == Lookup(tree[v.g.root], name).value.size && f.first !in tree
    modifies v, v.fat, v.tmp, v.wbuf, f
    ensures FsOk(v, tree) && f2 != null && FileOk(v, f2) && FileOk(v, f) && f2.size == old(f.size)
    ensures r == -1 ==> f.size == old(f.size) && f.pos == old(f.pos)
    ensures r != -1 ==>
      0 <= r <= |buffer| && f.size == if old(f.pos) + r > old(f.size) then old(f.pos) + r else old(f.size)
    ensures r != -1 ==> Contents(v, f) == Overwrite(old(Contents(v, f)), old(f.pos), buffer[..r])
    ensures f2.size <= |Contents(v, f)| && Contents(v, f2) == Contents(v, f)[..f2.size]
    ensures Contents(v, f2) == Contents(v, f) <==>
      buffer == [] || old(f.pos) + |buffer| <= old(f.size) || old(MostBytes(v, f)) <= old(f.size)
    ensures old(f.first) < 2 ==> Contents(v, f2) == [] && (r != -1 ==> |Contents(v, f)| == r)
  {
    ghost var d, s, f0, first := v.disk, v.chains, v.fat[..], f.first;
    NoRoomAtAll(v, f);
    r := Write(v, f, buffer);
    TreeStays(v.g, d, v.disk, f0, v.fat[..], s, v.chains, tree, first);
    f2 := Open(v, name, tree);
    SamePrefix(v, f, f2);
  }

  /** A file without a cluster on a full disk can hold nothing. */
  lemma NoRoomAtAll(v: Volume, f: OpenFile)
    requires FileOk(v, f)
    ensures f.first < 2 ==> f.size == 0 && (MostBytes(v, f) == 0 <==> Full(v.fat[..]))
    ensures f.size <= MostBytes(v, f)
  {
    FullExactly(v.fat[..]);
    ghost var n := |ChainOf(v.chains, f.first)|;
    CapacityGrows(v.g, n, n + FreeCount(v.fat[..]));
    if f.first < 2 && !Full(v.fat[..]) {
      GoodBounds(v.g, |v.disk|);
      CapacityGrows(v.g, 1, FreeCount(v.fat[..]));
      assert v.g.Capacity(1) == v.g.ClusterBytes();
    }
  }

  lemma SamePrefix(v: Volume, f: OpenFile, f2: OpenFile)
    requires FileOk(v, f) && FileOk(v, f2) && f2.size <= f.size && (f.first == f2.first || f2.first < 2)
    ensures |Contents(v, f)| == f.size && |Contents(v, f2)| == f2.size && Contents(v, f2) == Contents(v, f)[..f2.size]
    ensures Contents(v, f2) == Contents(v, f) <==> f2.size == f.size
  {
  }
}
