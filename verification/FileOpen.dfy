/** Opening a file by name, and what creating one means for every later open. */
module FileOpen {
  import opened Bytes
  import opened FatChains
  import opened Geometry
  import opened Volumes
  import opened FatFiles
  import opened DirFormat
  import opened DirModel
  import opened Directories
  import opened DirRead
  import opened FileSystem
  import opened FileCreate

  /** `fat32_open` of a name in the root directory: a handle at position 0, or null. */
  method Open(v: Volume, name: seq<byte>, ghost tree: Tree) returns (f: OpenFile?)
    requires FsOk(v, tree) && NoNul(name) && NoSlash(name)
    modifies v.wbuf
    ensures FsOk(v, tree)
    ensures f == null <==> Lookup(tree[v.g.root], name).None?
    ensures f != null ==> fresh(f) && f.pos == 0 && FileOk(v, f)
                          && f.first == Lookup(tree[v.g.root], name).value.first
                          && f.size == Lookup(tree[v.g.root], name).value.size
    ensures f == null <==> NoneNamed(tree[v.g.root], name)
    ensures f != null ==> exists k, i {:trigger Answers(tree[v.g.root], k, i, name)} ::
      && Answers(tree[v.g.root], k, i, name)
      && f.first == tree[v.g.root][k][i].first && f.size == tree[v.g.root][k][i].size
  {
    ghost var root, dir := v.g.root, tree[v.g.root];
    assert DirAt(v.g, v.disk, v.chains, dir, root);
    ghost var p := ChainFrom(v.chains, root);
    LookupSound(dir, name);
    LookupPlace(dir, name);
    var entry := LookupInDir(v, v.g.root, name, p, dir);
    if entry == None {
      return null;
    }
    ghost var e := Lookup(dir, name).value;
    SfnSlotFields(e);
    assert RefOk(v.g, v.chains, tree, e);
    f := new OpenFile(SlotFirst(entry.value), SlotSize(entry.value));
  }

  /** A new file's entry would be found: it is there, and no older entry with the name hides it. */
  ghost predicate Found(g: Geometry, dir: Dir, name: seq<byte>, data: seq<byte>, full: bool)
    requires DirOk(dir)
  {
    !Hidden(dir, name, LfnCount(name) + 1, Slots(g)) && (data != [] || HasRoom(g, dir, name) || !full)
  }

  /** Creating a file, opening it by name and reading it gives back exactly the data, unless an older entry with the
      name hides the new one or an empty file's entry was lost: then the open finds whatever the name stood for before.
      */
  method WriteOpenRead(v: Volume, name: seq<byte>, data: seq<byte>, buffer: array<byte>, ghost tree: Tree)
    returns (ok: bool, r: Option<int>, ghost tree': Tree)
    requires FsOk(v, tree) && NameOk(name) && NoSlash(name) && |data| < 0x1_0000_0000
    requires buffer.Length >= |data| && buffer != v.wbuf && buffer != v.cbuf && buffer as object != v.fat
    modifies v, v.fat, v.cbuf, v.wbuf, buffer
    ensures FsOk(v, tree') && DirOk(tree[v.g.root])
    ensures var room := HasRoom(v.g, tree[v.g.root], name);
            ok <==> data == [] || FileFits(v.g, FreeCount(old(v.fat[..])), |data|, room)
    ensures !ok ==> tree' == tree && r.None?
    ensures ok && Found(v.g, tree[v.g.root], name, data, Full(old(v.fat[..]))) ==>
      r == Some(if data == [] then -1 else |data|) && buffer[..|data|] == data
    ensures ok && !Found(v.g, tree[v.g.root], name, data, Full(old(v.fat[..]))) ==>
      && Lookup(tree'[v.g.root], name) == Lookup(tree[v.g.root], name)
      && (r.None? <==> Lookup(tree[v.g.root], name).None?)
      && (r.Some? ==> ReadIs(v, Lookup(tree[v.g.root], name).value, |data|, buffer, r.value))
  {
    ghost var e, f0 := Entry(name, 0, 0, 0x20), v.fat[..];
    r := None;
    ok, tree', e := WriteRoot(v, name, data, tree);
    if ok {
      r := OpenRead(v, name, buffer, |data|, tree');
      assert data == [] ==> buffer[..|data|] == data;
    }
  }

  /** Reading up to `n` bytes from the start of the file that `x` names gives this. */
  ghost predicate ReadIs(v: Volume, x: Entry, n: nat, buffer: array<byte>, r: int)
    reads v, v.fat, buffer
  {
    && v.g.Good(|v.disk|) && ChainsOk(v.g, v.chains) && Extent(v.g, v.chains, x.first, x.size) && n <= buffer.Length
    && r == (if x.size == 0 then -1 else if n > x.size then x.size else n)
    && (r > 0 ==> buffer[..r] == FileBytes(v.g, v.disk, v.chains, x.first, x.size)[..r])
  }

  /** Create a file in the root directory; `e` is its entry. */
  method WriteRoot(v: Volume, name: seq<byte>, data: seq<byte>, ghost tree: Tree)
    returns (ok: bool, ghost tree': Tree, ghost e: Entry)
    requires FsOk(v, tree) && NameOk(name) && |data| < 0x1_0000_0000
    modifies v, v.fat, v.cbuf
    ensures FsOk(v, tree') && DirOk(tree[v.g.root]) && |v.disk| == |old(v.disk)|
    ensures var room := HasRoom(v.g, tree[v.g.root], name);
            ok <==> data == [] || FileFits(v.g, FreeCount(old(v.fat[..])), |data|, room)
    ensures !ok ==> tree' == tree
    ensures ok ==> ChainsOk(v.g, v.chains) && Extent(v.g, v.chains, e.first, e.size) && e.size == |data|
                   && FileBytes(v.g, v.disk, v.chains, e.first, e.size) == data
    ensures ok ==> Stands(v.g, tree[v.g.root], tree'[v.g.root], name, data, Full(old(v.fat[..])), e)
  {
    ghost var root, full := v.g.root, Full(v.fat[..]);
    var w;
    ghost var p;
    w, tree', e, p := WriteFile(v, v.g.root, name, data, tree);
    ok := w == |data|;
    RootOk(v, tree', root);
    if ok {
      ChainsInRange(v.g, |v.disk|, v.fat[..], v.chains);
      StandsFor(v.g, tree[root], tree'[root], name, data, full, e);
    }
  }

  /** What the name stands for in the directory after the call. */
  ghost predicate Stands(g: Geometry, dir: Dir, dir': Dir, name: seq<byte>, data: seq<byte>, full: bool, e: Entry)
    requires DirOk(dir)
  {
    Lookup(dir', name) == if Found(g, dir, name, data, full) then Some(e) else Lookup(dir, name)
  }

  lemma StandsFor(g: Geometry, dir: Dir, dir': Dir, name: seq<byte>, data: seq<byte>, full: bool, e: Entry)
    requires DirOk(dir) && EntryOk(e) && e.name == name
    requires dir' == if data != [] || HasRoom(g, dir, name) || !full then Insert(dir, e, Slots(g)) else dir
    ensures Stands(g, dir, dir', name, data, full, e)
  {
    InsertLookup(dir, e, Slots(g), name);
  }

  /** Open a name and read from the start of its file, or nothing when the name is not there. */
  method OpenRead(v: Volume, name: seq<byte>, buffer: array<byte>, n: nat, ghost tree: Tree) returns (r: Option<int>)
    requires FsOk(v, tree) && NoNul(name) && NoSlash(name)
    requires n <= buffer.Length && buffer != v.wbuf && buffer as object != v.fat
    modifies v.wbuf, buffer
    ensures FsOk(v, tree) && v.fat[..] == old(v.fat[..])
    ensures r.None? <==> Lookup(tree[v.g.root], name).None?
    ensures r.Some? ==> ReadIs(v, Lookup(tree[v.g.root], name).value, n, buffer, r.value)
  {
    var f := Open(v, name, tree);
    if f == null {
      return None;
    }
    var m := ReadAll(v, f, buffer, n);
    r := Some(m);
  }

  lemma RootOk(v: Volume, tree: Tree, h: nat)
    requires FsOk(v, tree) && h in tree
    ensures DirOk(tree[h])
  {
    assert DirAt(v.g, v.disk, v.chains, tree[h], h);
    DirRepOk(v.g, v.disk, ChainFrom(v.chains, h), tree[h]);
  }

  /** Read up to `n` bytes from the start of a file. */
  method ReadAll(v: Volume, f: OpenFile, buffer: array<byte>, n: nat) returns (r: int)
    requires FileOk(v, f) && f.pos == 0 && n <= buffer.Length && buffer != v.wbuf && buffer as object != v.fat
    modifies f`pos, buffer, v.wbuf
    ensures FileOk(v, f) && v.fat[..] == old(v.fat[..]) && ChainsOk(v.g, v.chains)
    ensures r == if f.size == 0 then -1 else if n > f.size then f.size else n
    ensures r > 0 ==> buffer[..r] == FileBytes(v.g, v.disk, v.chains, f.first, f.size)[..r]
  {
    ChainsInRange(v.g, |v.disk|, v.fat[..], v.chains);
    ghost var c := Contents(v, f);
    r := Read(v, f, buffer, n);
    if r > 0 {
      assert buffer[..r] == c[0..f.pos];
    }
  }

  /** Every other name of the directory still opens the same entry, and every file the same bytes. */
  lemma OtherNamesSame(g: Geometry, d: seq<Sector>, d': seq<Sector>, s: set<seq<nat>>, s': set<seq<nat>>,
                       tree: Tree, tree': Tree, parent: nat, e: Entry, q: seq<byte>)
    requires Undisturbed(g, d, d', s, s', tree) && parent in tree && DirOk(tree[parent]) && EntryOk(e)
    requires tree' == tree[parent := Insert(tree[parent], e, Slots(g))]
    requires Fold(q) != Fold(e.name)
    ensures Lookup(tree'[parent], q) == Lookup(tree[parent], q)
    ensures Lookup(tree[parent], q).Some? && Lookup(tree[parent], q).value.first !in tree ==>
      var x := Lookup(tree[parent], q).value;
      && ChainsOk(g, s) && ChainsOk(g, s') && Extent(g, s, x.first, x.size) && Extent(g, s', x.first, x.size)
      && FileBytes(g, d', s', x.first, x.size) == FileBytes(g, d, s, x.first, x.size)
  {
    InsertLookup(tree[parent], e, Slots(g), q);
    LookupSound(tree[parent], q);
  }
}
