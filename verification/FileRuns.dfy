/** Whole runs on a mounted volume: directories and files are created by path, opened, and written through their
    handles, and any of these may fail for lack of space. */
module FileRuns {
  import opened Bytes
  import opened FatChains
  import opened Geometry
  import opened Volumes
  import opened FatFiles
  import opened DirFormat
  import opened DirModel
  import opened Directories
  import opened FileSystem
  import opened FileCreate
  import opened FileAppend
  import opened DirCreate
  import opened Paths
  import opened PathOpen

  datatype Op =
    | MakeDirectory(path: seq<byte>)
    | PutFile(path: seq<byte>, data: seq<byte>)
    | OpenFileAt(path: seq<byte>)
    | WriteTo(handle: nat, buffer: seq<byte>)
    | Allocate

  // ---- what each call does, on snapshots of the whole system ----

  /** An open file: its first cluster, its size and its position. */
  datatype Handle = Handle(first: nat, size: nat, pos: nat)

  datatype Snap = Snap(disk: seq<Sector>, fat: Fat, chains: set<seq<nat>>, tree: Tree, handles: seq<Handle>)

  const SKIPPED: int := -2   // no such handle, or the position would pass 32 bits

  ghost predicate MadeAt(g: Geometry, a: Snap, b: Snap, parent: nat, name: seq<byte>, r: int, c: u32) {
    && DirMade(g, a.tree, b.tree, parent, name, r, c)
    && r == (if Taken(g, a.tree, parent, name) || DirFits(FreeCount(a.fat), HasRoom(g, a.tree[parent], name))
               then 0 else -1)
    && (r == -1 ==> Leaked(a.fat, b.fat, a.chains, b.chains, if c == 0 then [] else [c]))
  }

  ghost predicate DidMake(g: Geometry, path: seq<byte>, a: Snap, b: Snap, r: int) {
    && PathOk(g, a.tree, path) && b.handles == a.handles
    && (NoTarget(g, a.tree, path) ==> r == -1 && b.tree == a.tree && b.disk == a.disk && b.fat == a.fat)
    && (!NoTarget(g, a.tree, path) ==>
          exists c: u32 {:trigger MadeAt(g, a, b, ParentOf(g, a.tree, path), NameOf(path), r, c)} ::
            MadeAt(g, a, b, ParentOf(g, a.tree, path), NameOf(path), r, c))
  }

  ghost predicate PutAt(g: Geometry, a: Snap, b: Snap, parent: nat, name: seq<byte>, data: seq<byte>, r: int,
                        e: Entry) {
    && parent in a.tree && g.Good(|b.disk|) && |a.fat| == g.Clusters()
    && r == (if data == [] || FileFits(g, FreeCount(a.fat), |data|, HasRoom(g, a.tree[parent], name))
               then |data| else -1)
    && (r >= 0 ==> FileAdded(g, b.disk, b.chains, a.fat, a.tree, b.tree, parent, name, data, e))
    && (r < 0 ==> b.tree == a.tree && exists p :: Leaked(a.fat, b.fat, a.chains, b.chains, p))
  }

  ghost predicate DidPut(g: Geometry, path: seq<byte>, data: seq<byte>, a: Snap, b: Snap, r: int) {
    && PathOk(g, a.tree, path) && b.handles == a.handles
    && (NoTarget(g, a.tree, path) ==> r == -1 && b.tree == a.tree && b.disk == a.disk && b.fat == a.fat)
    && (!NoTarget(g, a.tree, path) ==>
          exists e {:trigger PutAt(g, a, b, ParentOf(g, a.tree, path), NameOf(path), data, r, e)} ::
            PutAt(g, a, b, ParentOf(g, a.tree, path), NameOf(path), data, r, e))
  }

  ghost predicate DidOpen(g: Geometry, path: seq<byte>, a: Snap, b: Snap, r: int) {
    && Findable(a.tree, g.root, OpenParts(path)) && b.tree == a.tree && b.disk == a.disk && b.fat == a.fat
    && var x := Find(a.tree, g.root, OpenParts(path));
       && r == (if x.Some? then 0 else -1)
       && b.handles == if x.Some? then a.handles + [Handle(x.value.first, x.value.size, 0)] else a.handles
  }

  /** A write through handle `h`, which became `h'`: the bytes it could write are written over the file's. */
  ghost predicate WroteBy(g: Geometry, h: Handle, h': Handle, buffer: seq<byte>, a: Snap, b: Snap, r: int) {
    && g.Good(|a.disk|) && |b.disk| == |a.disk| && ChainsOk(g, a.chains) && ChainsOk(g, b.chains)
    && Extent(g, a.chains, h.first, h.size) && Extent(g, b.chains, h'.first, h'.size) && h.pos <= h.size
    && var most := g.Capacity(|ChainOf(a.chains, h.first)| + FreeCount(a.fat));
       && r == (if buffer == [] || (h.first < 2 && Full(a.fat)) then -1
                else if h.pos + |buffer| <= most then |buffer| else most - h.pos)
       && (r == -1 ==> h' == h && b.disk == a.disk && b.fat == a.fat)
       && (r != -1 ==>
             && 0 <= r <= |buffer| && h'.pos == h.pos + r && (h.first >= 2 ==> h'.first == h.first)
             && FileBytes(g, b.disk, b.chains, h'.first, h'.size)
                == Overwrite(FileBytes(g, a.disk, a.chains, h.first, h.size), h.pos, buffer[..r]))
  }

  ghost predicate DidWrite(g: Geometry, i: nat, buffer: seq<byte>, a: Snap, b: Snap, r: int) {
    && b.tree == a.tree && |b.handles| == |a.handles|
    && (forall j | 0 <= j < |a.handles| && j != i :: b.handles[j] == a.handles[j])
    && (r == SKIPPED || i >= |a.handles| ==> r == SKIPPED && b == a)
    && (r != SKIPPED ==> i < |a.handles| && WroteBy(g, a.handles[i], b.handles[i], buffer, a, b, r))
    && (r == SKIPPED && i < |a.handles| ==> a.handles[i].pos + |buffer| >= 0x1_0000_0000)
  }

  /** First fit: the lowest free cluster, or 0 when there is none. */
  ghost predicate DidAllocate(a: Snap, b: Snap, r: int) {
    && b.tree == a.tree && b.handles == a.handles && b.disk == a.disk
    && (Full(a.fat) ==> r == 0 && b.fat == a.fat)
    && (!Full(a.fat) ==> 2 <= r < |a.fat| && Free(a.fat, r) && (forall c | 2 <= c < r :: !Free(a.fat, c))
                         && b.fat == a.fat[r := EOC])
  }

  /** Call `op` took the system from `a` to `b` and returned `r`. */
  ghost predicate Did(g: Geometry, op: Op, a: Snap, b: Snap, r: int) {
    match op
    case MakeDirectory(path) => DidMake(g, path, a, b, r)
    case PutFile(path, data) => DidPut(g, path, data, a, b, r)
    case OpenFileAt(path) => DidOpen(g, path, a, b, r)
    case WriteTo(i, buffer) => DidWrite(g, i, buffer, a, b, r)
    case Allocate => DidAllocate(a, b, r)
  }

  /** The first clusters of the files that calls `i` to `j` of a run wrote through handles. */
  ghost function Written(ops: seq<Op>, snaps: seq<Snap>, i: nat, j: nat): set<nat>
    requires i <= j <= |ops| && j <= |snaps|
    decreases j
  {
    if i == j then {} else Written(ops, snaps, i, j - 1) + WrittenBy(ops[j - 1], snaps[j - 1])
  }

  ghost function WrittenBy(op: Op, a: Snap): set<nat> {
    if op.WriteTo? && op.handle < |a.handles| then {a.handles[op.handle].first} else {}
  }

  /** The call did all it was asked, and left no cluster taken that the tables on the disk do not know of. */
  predicate Good(op: Op, r: int) {
    match op
    case MakeDirectory(_) => r == 0
    case PutFile(_, _) => r >= 0
    case OpenFileAt(_) => true
    case WriteTo(_, _) => true
    case Allocate => r == 0
  }

  ghost function HandleOf(f: OpenFile): Handle
    reads f
  {
    Handle(f.first, f.size, f.pos)
  }

  ghost function HandlesOf(files: seq<OpenFile>): (r: seq<Handle>)
    reads files
    ensures |r| == |files| && forall i | 0 <= i < |r| :: r[i] == HandleOf(files[i])
  {
    seq(|files|, i requires 0 <= i < |files| reads files => HandleOf(files[i]))
  }

  /** The state of the volume, the tree and the open files. */
  ghost function Now(v: Volume, files: seq<OpenFile>, tree: Tree): Snap
    reads v, v.fat, files
  {
    Snap(v.disk, v.fat[..], v.chains, tree, HandlesOf(files))
  }

  // ---- names kept for directories ----

  /** The short names in `dirs` are those of directories: the caller never gives one to a file, or another one to a
      directory, so no path leads through a plain file. */
  ghost predicate Sorted(tree: Tree, dirs: set<seq<byte>>) {
    forall h, x {:trigger In(x, tree[h])} | h in tree && In(x, tree[h]) ::
        (x.first in tree <==> ShortName(x.name) in dirs)
  }

  ghost predicate AllIn(parts: seq<seq<byte>>, dirs: set<seq<byte>>) {
    forall i | 0 <= i < |parts| :: ShortName(parts[i]) in dirs
  }

  ghost predicate OpOk(op: Op, dirs: set<seq<byte>>) {
    match op
    case MakeDirectory(path) =>
      && NoNul(path) && AllIn(DirParts(path), dirs)
      && (NameOf(path) != [] ==> NameOk(NameOf(path)) && ShortName(NameOf(path)) in dirs)
    case PutFile(path, data) =>
      && NoNul(path) && AllIn(DirParts(path), dirs) && |data| < 0x1_0000_0000
      && (NameOf(path) != [] ==> NameOk(NameOf(path)) && ShortName(NameOf(path)) !in dirs)
    case OpenFileAt(path) =>
      var parts := OpenParts(path);
      NoNul(path) && |path| < 256 && AllIn(parts[..|parts| - 1], dirs) && ShortName(parts[|parts| - 1]) !in dirs
    case WriteTo(_, _) => true
    case Allocate => true
  }

  /** Short names kept for directories lead from directory to directory. */
  lemma {:induction false} SortedWalk(tree: Tree, cur: nat, parts: seq<seq<byte>>, dirs: set<seq<byte>>, cap: nat)
    requires Sorted(tree, dirs) && cur in tree && AllIn(parts, dirs) && forall h | h in tree :: DirOk(tree[h])
    ensures Walkable(tree, cur, parts, cap) && (Walk(tree, cur, parts, cap) == 0 || Walk(tree, cur, parts, cap) in tree)
    decreases |parts|
  {
    if parts != [] {
      ShortLookupIn(tree[cur], ShortName(parts[0]), cap);
      var n := ShortLookup(tree[cur], ShortName(parts[0]), cap);
      if n != 0 {
        SortedWalk(tree, n, parts[1..], dirs, cap);
      }
    }
  }

  /** So do long names, and a name not kept for a directory leads to a file. */
  lemma {:induction false} SortedFind(tree: Tree, cur: nat, parts: seq<seq<byte>>, dirs: set<seq<byte>>)
    requires Sorted(tree, dirs) && cur in tree && parts != []
    requires AllIn(parts[..|parts| - 1], dirs) && ShortName(parts[|parts| - 1]) !in dirs
    ensures Findable(tree, cur, parts)
    ensures Find(tree, cur, parts).Some? ==> Find(tree, cur, parts).value.first !in tree
    decreases |parts|
  {
    LookupSound(tree[cur], parts[0]);
    if Lookup(tree[cur], parts[0]).Some? {
      var x := Lookup(tree[cur], parts[0]).value;
      FoldThenShort(x.name, parts[0]);
      if |parts| > 1 {
        assert parts[0] == parts[..|parts| - 1][0];
        assert parts[1..][..|parts[1..]| - 1] == parts[..|parts| - 1][1..];
        SortedFind(tree, x.first, parts[1..], dirs);
      }
    }
  }

  lemma SortedPath(v: Volume, tree: Tree, path: seq<byte>, dirs: set<seq<byte>>)
    requires FsOk(v, tree) && Sorted(tree, dirs) && NoNul(path) && AllIn(DirParts(path), dirs)
    ensures PathOk(v.g, tree, path)
  {
    assert v.g.root in tree;
    forall h | h in tree ensures DirOk(tree[h]) { TreeDirOk(v, tree, h); }
    if LastSlash(path) > 0 {
      SortedWalk(tree, v.g.root, DirParts(path), dirs, Slots(v.g));
    }
  }

  // ---- what a step may do ----

  /** Directories and entries are only ever added, and no file's cluster becomes a directory. */
  ghost predicate TreeGrows(t: Tree, u: Tree) {
    && t.Keys <= u.Keys
    && forall h, x {:trigger In(x, t[h])} | h in t && In(x, t[h]) :: In(x, u[h]) && (x.first in u <==> x.first in t)
  }

  lemma GrowsTwice(t: Tree, u: Tree, w: Tree)
    requires TreeGrows(t, u) && TreeGrows(u, w)
    ensures TreeGrows(t, w)
  {
    forall h, x {:trigger In(x, t[h])} | h in t && In(x, t[h]) ensures In(x, w[h]) && (x.first in w <==> x.first in t) {
      assert In(x, u[h]);
    }
  }

  /** New directories take clusters that were free. */
  ghost predicate NewDirsFree(f: Fat, t: Tree, u: Tree) {
    forall c | c in u && c !in t :: 2 <= c < |f| && Free(f, c)
  }

  /** The bytes of every file of the tree that is not in `written` are the same. */
  ghost predicate KeptBut(g: Geometry, d: seq<Sector>, e: seq<Sector>, s: set<seq<nat>>, t: set<seq<nat>>, tree: Tree,
                          written: set<nat>)
  {
    && g.Good(|d|) && |e| == |d|
    && forall h, x {:trigger In(x, tree[h])} | h in tree && In(x, tree[h]) && x.first !in tree && x.first !in written ::
         && ChainsOk(g, s) && ChainsOk(g, t) && Extent(g, s, x.first, x.size) && Extent(g, t, x.first, x.size)
         && FileBytes(g, e, t, x.first, x.size) == FileBytes(g, d, s, x.first, x.size)
  }

  lemma KeptTwice(g: Geometry, d: seq<Sector>, e: seq<Sector>, f: seq<Sector>,
                  r: set<seq<nat>>, s: set<seq<nat>>, t: set<seq<nat>>, tree: Tree, tree': Tree, w: set<nat>,
                      w': set<nat>)
    requires KeptBut(g, d, e, r, s, tree, w) && KeptBut(g, e, f, s, t, tree', w') && TreeGrows(tree, tree')
    ensures KeptBut(g, d, f, r, t, tree, w + w')
  {
    forall h, x {:trigger In(x, tree[h])} | h in tree && In(x, tree[h]) && x.first !in tree && x.first !in w + w'
      ensures ChainsOk(g, r) && ChainsOk(g, t) && Extent(g, r, x.first, x.size) && Extent(g, t, x.first, x.size)
      ensures FileBytes(g, f, t, x.first, x.size) == FileBytes(g, d, r, x.first, x.size)
    {
      assert In(x, tree'[h]) && x.first !in tree';
    }
  }

  /** An inserted entry, and possibly one new directory, make the tree grow and stay sorted. */
  lemma InsertGrows(g: Geometry, t: Tree, u: Tree, more: Tree, parent: nat, e: Entry, dirs: set<seq<byte>>)
    requires parent in t && DirOk(t[parent]) && EntryOk(e) && Sorted(t, dirs)
    requires more.Keys !! t.Keys && u == (t + more)[parent := Insert(t[parent], e, Slots(g))]
    requires forall h, x {:trigger In(x, t[h])} | h in t && In(x, t[h]) :: x.first !in more
    requires forall h | h in more :: more[h] == [[]]
    requires e.first in u <==> ShortName(e.name) in dirs
    ensures TreeGrows(t, u) && Sorted(u, dirs)
  {
    InsertIn(t[parent], e, Slots(g));
    forall h, x {:trigger In(x, u[h])} | h in u && In(x, u[h]) ensures x.first in u <==> ShortName(x.name) in dirs {
      if h !in t {
        NothingIn(x);
      } else if x != e {
        assert In(x, t[h]);
      }
    }
  }

  // ---- the steps ----

  /** A handle on a plain file. */
  ghost predicate HandleOk(v: Volume, tree: Tree, f: OpenFile)
    reads v, v.fat, f
  {
    FileOk(v, f) && f.first !in tree
  }

  /** The open files are all different. */
  ghost predicate HandlesOk(v: Volume, tree: Tree, files: seq<OpenFile>)
    reads v, v.fat, files
  {
    && (forall i | 0 <= i < |files| :: HandleOk(v, tree, files[i]))
    && (forall i, j | 0 <= i < j < |files| :: files[i] != files[j])
  }

  /** What every step keeps. */
  ghost predicate Kept(g: Geometry, a: Snap, b: Snap, dirs: set<seq<byte>>, written: set<nat>) {
    && |b.disk| == |a.disk| && Grows(a.fat, b.fat) && TreeGrows(a.tree, b.tree) && Sorted(b.tree, dirs)
    && KeptBut(g, a.disk, b.disk, a.chains, b.chains, a.tree, written)
  }

  method StepDir(v: Volume, path: seq<byte>, ghost tree: Tree, ghost dirs: set<seq<byte>>, ghost files: seq<OpenFile>)
    returns (r: int, ghost tree': Tree)
    requires FsOk(v, tree) && Sorted(tree, dirs) && OpOk(MakeDirectory(path), dirs)
    modifies v, v.fat, v.cbuf
    ensures FsOk(v, tree') && NewDirsFree(old(v.fat[..]), tree, tree')
    ensures Kept(v.g, old(Now(v, files, tree)), Now(v, files, tree'), dirs, {})
    ensures DidMake(v.g, path, old(Now(v, files, tree)), Now(v, files, tree'), r)
    ensures r == 0 ==> v.Synced() || (v.disk == old(v.disk) && v.fat[..] == old(v.fat[..]))
  {
    ghost var d, s, f, a := v.disk, v.chains, v.fat[..], Now(v, files, tree);
    SortedPath(v, tree, path, dirs);
    ghost var c;
    r, tree', c := CreateDirAt(v, path, tree);
    ghost var b := Now(v, files, tree');
    assert b.handles == a.handles;
    if !NoTarget(v.g, tree, path) {
      assert MadeAt(v.g, a, b, ParentOf(v.g, tree, path), NameOf(path), r, c);
    }
    if tree' != tree {
      DirGrows(v.g, d, f, s, tree, ParentOf(v.g, tree, path), NameOf(path), c, dirs);
    } else {
      SameTree(tree);
    }
    NoneWritten(v.g, d, v.disk, s, v.chains, tree);
  }

  lemma SameTree(tree: Tree)
    ensures TreeGrows(tree, tree)
  {
  }

  lemma NoneWritten(g: Geometry, d: seq<Sector>, e: seq<Sector>, s: set<seq<nat>>, t: set<seq<nat>>, tree: Tree)
    requires Undisturbed(g, d, e, s, t, tree)
    ensures KeptBut(g, d, e, s, t, tree, {})
  {
  }

  lemma DirGrows(g: Geometry, d: seq<Sector>, f: Fat, s: set<seq<nat>>, tree: Tree, parent: nat, name: seq<byte>,
                 c: u32, dirs: set<seq<byte>>)
    requires g.Good(|d|) && |f| == g.Clusters() && Represents(f, s) && TreeOk(g, d, s, tree) && Sorted(tree, dirs)
    requires parent in tree && DirOk(tree[parent]) && NameOk(name) && ShortName(name) in dirs
    requires c !in tree && 2 <= c < |f| && Free(f, c)
    ensures var u := WithDir(g, tree, parent, name, c);
            TreeGrows(tree, u) && Sorted(u, dirs) && NewDirsFree(f, tree, u)
  {
    FreeUnnamed(g, d, f, s, tree, c);
    InsertGrows(g, tree, WithDir(g, tree, parent, name, c), map[c := [[]]], parent, Entry(name, c, 0, 0x10), dirs);
  }

  method StepFile(v: Volume, path: seq<byte>, data: seq<byte>, ghost tree: Tree, ghost dirs: set<seq<byte>>,
                  ghost files: seq<OpenFile>) returns (r: int, ghost tree': Tree)
    requires FsOk(v, tree) && Sorted(tree, dirs) && OpOk(PutFile(path, data), dirs)
    modifies v, v.fat, v.cbuf
    ensures FsOk(v, tree') && NewDirsFree(old(v.fat[..]), tree, tree')
    ensures Kept(v.g, old(Now(v, files, tree)), Now(v, files, tree'), dirs, {})
    ensures DidPut(v.g, path, data, old(Now(v, files, tree)), Now(v, files, tree'), r)
    ensures r >= 0 ==> v.Synced()
  {
    ghost var a := Now(v, files, tree);
    SortedPath(v, tree, path, dirs);
    ghost var e;
    r, tree', e := WriteFileAt(v, path, data, tree);
    ghost var b := Now(v, files, tree');
    assert b.handles == a.handles;
    if !NoTarget(v.g, tree, path) {
      assert PutAt(v.g, a, b, ParentOf(v.g, tree, path), NameOf(path), data, r, e);
    }
    FileKept(v.g, a, b, if NoTarget(v.g, tree, path) then 0 else ParentOf(v.g, tree, path), e, dirs);
  }

  lemma FileKept(g: Geometry, a: Snap, b: Snap, parent: nat, e: Entry, dirs: set<seq<byte>>)
    requires |b.disk| == |a.disk| && Grows(a.fat, b.fat) && Undisturbed(g, a.disk, b.disk, a.chains, b.chains, a.tree)
    requires Sorted(a.tree, dirs)
    requires b.tree != a.tree ==>
      && parent in a.tree && DirOk(a.tree[parent]) && EntryOk(e) && e.first !in b.tree && ShortName(e.name) !in dirs
      && b.tree == a.tree[parent := Insert(a.tree[parent], e, Slots(g))]
    ensures Kept(g, a, b, dirs, {}) && NewDirsFree(a.fat, a.tree, b.tree)
  {
    if b.tree != a.tree {
      InsertGrows(g, a.tree, b.tree, map[], parent, e, dirs);
    }
  }

  method StepOpen(v: Volume, path: seq<byte>, files: seq<OpenFile>, ghost tree: Tree, ghost dirs: set<seq<byte>>)
    returns (r: int, files': seq<OpenFile>)
    requires FsOk(v, tree) && Sorted(tree, dirs) && OpOk(OpenFileAt(path), dirs) && HandlesOk(v, tree, files)
    modifies v.wbuf
    ensures FsOk(v, tree) && HandlesOk(v, tree, files') && v.fat[..] == old(v.fat[..])
    ensures forall i | 0 <= i < |files'| :: files'[i] in files || fresh(files'[i])
    ensures Kept(v.g, old(Now(v, files, tree)), Now(v, files', tree), dirs, {})
    ensures DidOpen(v.g, path, old(Now(v, files, tree)), Now(v, files', tree), r)
  {
    SortedFind(tree, v.g.root, OpenParts(path), dirs);
    var h := OpenPath(v, path, tree);
    files', r := files, -1;
    if h != null {
      files', r := files + [h], 0;
    }
    SameFiles(v, tree);
    SameTree(tree);
    GrowsSelf(v.fat[..]);
    assert v.fat[..] == old(v.fat[..]);
    assert HandlesOf(files) == old(HandlesOf(files));
  }

  method StepWrite(v: Volume, f: OpenFile, buffer: seq<byte>, ghost tree: Tree) returns (r: int)
    requires FsOk(v, tree) && HandleOk(v, tree, f) && InLimit(v, f, |buffer|)
    modifies v, v.fat, v.tmp, f
    ensures FsOk(v, tree) && |v.disk| == |old(v.disk)| && Grows(old(v.fat[..]), v.fat[..]) && HandleOk(v, tree, f)
    ensures KeptBut(v.g, old(v.disk), v.disk, old(v.chains), v.chains, tree, {old(f.first)})
    ensures WroteBy(v.g, old(HandleOf(f)), HandleOf(f), buffer, old(Now(v, [], tree)), Now(v, [], tree), r)
    ensures v.Synced() || (v.disk == old(v.disk) && v.fat[..] == old(v.fat[..]))
  {
    ghost var d, s, f0, first := v.disk, v.chains, v.fat[..], f.first;
    ChainsInRange(v.g, |v.disk|, f0, s);
    r := Write(v, f, buffer);
    ChainsInRange(v.g, |v.disk|, v.fat[..], v.chains);
    TreeStays(v.g, d, v.disk, f0, v.fat[..], s, v.chains, tree, first);
    WriteKeeps(v.g, d, v.disk, v.fat[..], s, v.chains, tree, first);
    if first < 2 && f.first >= 2 && f.first in tree {
      NotInTree(v.g, d, f0, s, tree, f.first);
    }
  }

  lemma WriteKeeps(g: Geometry, d: seq<Sector>, e: seq<Sector>, f: Fat, s: set<seq<nat>>, t: set<seq<nat>>, tree: Tree,
                   first: nat)
    requires g.Good(|d|) && |e| == |d| && Represents(f, t) && OthersKept(g, d, e, s, t, first)
    requires ChainsOk(g, s) && ChainsOk(g, t) && TreeOk(g, d, s, tree)
    ensures KeptBut(g, d, e, s, t, tree, {first})
  {
    forall h, x | h in tree && In(x, tree[h]) && x.first != first
      ensures Extent(g, s, x.first, x.size) && Extent(g, t, x.first, x.size)
              && FileBytes(g, e, t, x.first, x.size) == FileBytes(g, d, s, x.first, x.size)
    {
      assert RefOk(g, s, tree, x);
      BytesKept(g, d, e, f, s, t, first, x.first, x.size);
    }
  }

  /** A cluster taken and never linked; the table on the disk lags behind. */
  method StepAllocate(v: Volume, ghost tree: Tree, ghost files: seq<OpenFile>, ghost dirs: set<seq<byte>>)
    returns (c: nat)
    requires FsOk(v, tree) && Sorted(tree, dirs)
    modifies v`chains, v.fat
    ensures FsOk(v, tree) && Kept(v.g, old(Now(v, files, tree)), Now(v, files, tree), dirs, {})
    ensures DidAllocate(old(Now(v, files, tree)), Now(v, files, tree), c)
    ensures c == 0 ==> v.fat[..] == old(v.fat[..])
  {
    ghost var s := v.chains;
    ChainsInRange(v.g, |v.disk|, v.fat[..], v.chains);
    AllKept(v.g, v.disk, s);
    c := v.AllocCluster();
    forall q | q in s && !StartsAt(q, 0) ensures KeptChain(v.g, v.disk, v.disk, v.chains, q) {
      assert InRange(v.g, q);
    }
    KeepTree(v, v.disk, s, tree);
    SameTree(tree);
    assert HandlesOf(files) == old(HandlesOf(files));
  }

  /** A handle stays good whatever else happens. */
  lemma HandleStays(v: Volume, f: OpenFile, f0: Fat, s: set<seq<nat>>, t: Tree, u: Tree)
    requires v.Valid() && Represents(f0, s) && Grows(f0, v.fat[..]) && NewDirsFree(f0, t, u)
    requires f.pos <= f.size && Extent(v.g, s, f.first, f.size) && f.first !in t
    ensures HandleOk(v, u, f)
  {
    if f.first >= 2 {
      ChainStays(v.g, f0, v.fat[..], s, v.chains, f.first);
      CapacityGrows(v.g, |ChainFrom(s, f.first)|, |ChainFrom(v.chains, f.first)|);
      var p := ChainFrom(s, f.first);
      assert Chain(f0, p);
      ChainAllocated(f0, p, 0);
    }
  }

  lemma AllStay(v: Volume, files: seq<OpenFile>, f0: Fat, s: set<seq<nat>>, t: Tree, u: Tree)
    requires v.Valid() && Represents(f0, s) && Grows(f0, v.fat[..]) && NewDirsFree(f0, t, u)
    requires forall i | 0 <= i < |files| ::
      files[i].pos <= files[i].size && Extent(v.g, s, files[i].first, files[i].size) && files[i].first !in t
    requires forall i, j | 0 <= i < j < |files| :: files[i] != files[j]
    ensures HandlesOk(v, u, files)
  {
    forall i | 0 <= i < |files| ensures HandleOk(v, u, files[i]) { HandleStays(v, files[i], f0, s, t, u); }
  }

  /** Write through one of several handles, if there is such a handle and the position stays in range. */
  method StepHandle(v: Volume, files: seq<OpenFile>, i: nat, buffer: seq<byte>, ghost tree: Tree,
                    ghost dirs: set<seq<byte>>) returns (r: int)
    requires FsOk(v, tree) && Sorted(tree, dirs) && HandlesOk(v, tree, files)
    modifies v, v.fat, v.tmp, files
    ensures FsOk(v, tree) && HandlesOk(v, tree, files)
    ensures Kept(v.g, old(Now(v, files, tree)), Now(v, files, tree), dirs,
                 WrittenBy(WriteTo(i, buffer), old(Now(v, files, tree))))
    ensures DidWrite(v.g, i, buffer, old(Now(v, files, tree)), Now(v, files, tree), r)
    ensures v.Synced() || (v.disk == old(v.disk) && v.fat[..] == old(v.fat[..]))
  {
    ghost var s, f := v.chains, v.fat[..];
    SameTree(tree);
    if i >= |files| || files[i].pos + |buffer| >= 0x1_0000_0000 {
      r := SKIPPED;
      SameFiles(v, tree);
      GrowsSelf(f);
      return;
    }
    r := StepWrite(v, files[i], buffer, tree);
    forall j | 0 <= j < |files| ensures HandleOk(v, tree, files[j]) {
      if j != i {
        HandleStays(v, files[j], f, s, tree, tree);
      }
    }
    forall j | 0 <= j < |files| && j != i ensures HandleOf(files[j]) == old(HandleOf(files[j])) {}
  }

  // ---- runs ----

  method Step(v: Volume, op: Op, files: seq<OpenFile>, ghost tree: Tree, ghost dirs: set<seq<byte>>)
    returns (r: int, files': seq<OpenFile>, ghost tree': Tree)
    requires FsOk(v, tree) && Sorted(tree, dirs) && OpOk(op, dirs) && HandlesOk(v, tree, files)
    modifies v, v.fat, v.cbuf, v.tmp, v.wbuf, files
    ensures FsOk(v, tree') && HandlesOk(v, tree', files')
    ensures forall i | 0 <= i < |files'| :: files'[i] in files || fresh(files'[i])
    ensures Kept(v.g, old(Now(v, files, tree)), Now(v, files', tree'), dirs, WrittenBy(op, old(Now(v, files, tree))))
    ensures Did(v.g, op, old(Now(v, files, tree)), Now(v, files', tree'), r)
    ensures Good(op, r) ==> v.Synced() || (v.disk == old(v.disk) && v.fat[..] == old(v.fat[..]))
  {
    ghost var s, f := v.chains, v.fat[..];
    files', tree' := files, tree;
    match op {
      case MakeDirectory(path) =>
        r, tree' := StepDir(v, path, tree, dirs, files);
        AllStay(v, files, f, s, tree, tree');
      case PutFile(path, data) =>
        r, tree' := StepFile(v, path, data, tree, dirs, files);
        AllStay(v, files, f, s, tree, tree');
      case OpenFileAt(path) =>
        r, files' := StepOpen(v, path, files, tree, dirs);
      case WriteTo(i, buffer) =>
        r := StepHandle(v, files, i, buffer, tree, dirs);
      case Allocate =>
        r := StepAllocate(v, tree, files, dirs);
        AllStay(v, files, f, s, tree, tree);
    }
  }

  lemma KeptMore(g: Geometry, a: Snap, b: Snap, c: Snap, dirs: set<seq<byte>>, w: set<nat>, w': set<nat>)
    requires Kept(g, a, b, dirs, w) && Kept(g, b, c, dirs, w')
    ensures Kept(g, a, c, dirs, w + w')
  {
    GrowsTransitive(a.fat, b.fat, c.fat);
    GrowsTwice(a.tree, b.tree, c.tree);
    KeptTwice(g, a.disk, b.disk, c.disk, a.chains, b.chains, c.chains, a.tree, b.tree, w, w');
  }

  /** Over any run every call does and returns exactly what it should in the state the calls before it left, and keeps
      what it should. The table stays a set of disjoint chains and the tree stays sound; while every call succeeds the
      tables on the disk stay equal to the one in memory. */
  method Run(v: Volume, ops: seq<Op>, ghost tree: Tree, ghost dirs: set<seq<byte>>)
    returns (log: seq<int>, files: seq<OpenFile>, ghost tree': Tree, ghost snaps: seq<Snap>)
    requires FsOk(v, tree) && Sorted(tree, dirs) && forall i | 0 <= i < |ops| :: OpOk(ops[i], dirs)
    modifies v, v.fat, v.cbuf, v.tmp, v.wbuf
    ensures Ran(v.g, ops, log, snaps, dirs, |ops|)
    ensures snaps[0] == old(Now(v, [], tree)) && snaps[|ops|] == Now(v, files, tree')
    ensures FsOk(v, tree') && HandlesOk(v, tree', files)
    ensures old(v.Synced()) && AllGood(ops, log, |ops|) ==> v.Synced()
  {
    log, files, tree' := [], [], tree;
    snaps := [Now(v, [], tree)];
    for i := 0 to |ops|
      invariant Ran(v.g, ops, log, snaps, dirs, i)
      invariant snaps[0] == old(Now(v, [], tree)) && snaps[i] == Now(v, files, tree')
      invariant FsOk(v, tree') && Sorted(tree', dirs) && HandlesOk(v, tree', files)
      invariant forall j | 0 <= j < |files| :: fresh(files[j])
      invariant old(v.Synced()) && AllGood(ops, log, i) ==> v.Synced()
    {
      var r;
      r, files, tree' := Step(v, ops[i], files, tree', dirs);
      RanMore(v.g, ops, log, snaps, dirs, i, r, Now(v, files, tree'));
      log, snaps := log + [r], snaps + [Now(v, files, tree')];
    }
  }

  ghost predicate AllGood(ops: seq<Op>, log: seq<int>, i: nat) {
    forall j | 0 <= j < i && j < |ops| && j < |log| :: Good(ops[j], log[j])
  }

  /** One call did what it should and kept what it should. */
  ghost predicate Stepped(g: Geometry, op: Op, a: Snap, b: Snap, dirs: set<seq<byte>>, r: int) {
    Did(g, op, a, b, r) && Kept(g, a, b, dirs, WrittenBy(op, a))
  }

  /** The first `i` calls of a run: snapshot `j` is the state before call `j`, and `log[j]` what it returned. */
  ghost predicate Ran(g: Geometry, ops: seq<Op>, log: seq<int>, snaps: seq<Snap>, dirs: set<seq<byte>>, i: nat) {
    && i <= |ops| && |log| == i && |snaps| == i + 1
    && forall j {:trigger SteppedAt(g, ops, log, snaps, dirs, j)} | 0 <= j < i :: SteppedAt(g, ops, log, snaps, dirs, j)
  }

  ghost predicate SteppedAt(g: Geometry, ops: seq<Op>, log: seq<int>, snaps: seq<Snap>, dirs: set<seq<byte>>, j: nat) {
    j < |ops| && j < |log| && j + 1 < |snaps| && Stepped(g, ops[j], snaps[j], snaps[j + 1], dirs, log[j])
  }

  lemma StepKept(g: Geometry, ops: seq<Op>, log: seq<int>, snaps: seq<Snap>, dirs: set<seq<byte>>, n: nat, k: nat)
    requires Ran(g, ops, log, snaps, dirs, n) && k < n
    ensures Kept(g, snaps[k], snaps[k + 1], dirs, WrittenBy(ops[k], snaps[k]))
  {
    assert SteppedAt(g, ops, log, snaps, dirs, k);
  }

  lemma RanMore(g: Geometry, ops: seq<Op>, log: seq<int>, snaps: seq<Snap>, dirs: set<seq<byte>>, i: nat, r: int,
                b: Snap)
    requires Ran(g, ops, log, snaps, dirs, i) && i < |ops| && Stepped(g, ops[i], snaps[i], b, dirs, r)
    ensures Ran(g, ops, log + [r], snaps + [b], dirs, i + 1)
    ensures AllGood(ops, log + [r], i + 1) ==> AllGood(ops, log, i) && Good(ops[i], r)
  {
    forall j | 0 <= j < i ensures SteppedAt(g, ops, log + [r], snaps + [b], dirs, j) {
      assert SteppedAt(g, ops, log, snaps, dirs, j);
    }
    if AllGood(ops, log + [r], i + 1) {
      forall j | 0 <= j < i ensures Good(ops[j], log[j]) { assert (log + [r])[j] == log[j]; }
      assert (log + [r])[i] == r;
    }
  }

  /** From any point of a run to any later one: the table only grew, the tree only grew, and a file that no handle wrote
      in between has the bytes it had. */
  lemma {:induction false} KeptOver(g: Geometry, ops: seq<Op>, log: seq<int>, snaps: seq<Snap>, dirs: set<seq<byte>>,
                                    n: nat, i: nat, j: nat)
    requires Ran(g, ops, log, snaps, dirs, n) && i < j <= n
    ensures Kept(g, snaps[i], snaps[j], dirs, Written(ops, snaps, i, j))
    decreases j
  {
    var k := j - 1;
    StepKept(g, ops, log, snaps, dirs, n, k);
    if i < k {
      KeptOver(g, ops, log, snaps, dirs, n, i, k);
      KeptMore(g, snaps[i], snaps[k], snaps[j], dirs, Written(ops, snaps, i, k), WrittenBy(ops[k], snaps[k]));
    } else {
      assert Written(ops, snaps, i, j) == WrittenBy(ops[k], snaps[k]);
    }
  }

  /** Data put into a file is still there at any later point of a run, whatever else was created, opened, allocated or
      written, unless it was written through a handle on that very file. */
  lemma DataStays(g: Geometry, ops: seq<Op>, log: seq<int>, snaps: seq<Snap>, dirs: set<seq<byte>>, n: nat, i: nat,
                  j: nat,
                  parent: nat, name: seq<byte>, data: seq<byte>, e: Entry)
    requires Ran(g, ops, log, snaps, dirs, n) && i + 1 < j <= n
    requires PutAt(g, snaps[i], snaps[i + 1], parent, name, data, log[i], e) && log[i] > 0
    requires e.first !in Written(ops, snaps, i + 1, j)
    ensures parent in snaps[j].tree && In(e, snaps[j].tree[parent])
    ensures g.Good(|snaps[j].disk|) && ChainsOk(g, snaps[j].chains) && Extent(g, snaps[j].chains, e.first, e.size)
    ensures FileBytes(g, snaps[j].disk, snaps[j].chains, e.first, e.size) == data
  {
    KeptOver(g, ops, log, snaps, dirs, n, i + 1, j);
    InsertIn(snaps[i].tree[parent], e, Slots(g));
    assert In(e, snaps[i + 1].tree[parent]);
  }
}
