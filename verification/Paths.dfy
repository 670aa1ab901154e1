/** Paths: `split_path`, and the two creating calls as they take a path. */
module Paths {
  import opened Bytes
  import opened FatChains
  import opened Geometry
  import opened Volumes
  import opened FatFiles
  import opened DirFormat
  import opened DirModel
  import opened Directories
  import opened FileSystem
  import opened FileCreate
  import opened DirCreate

  /** The last slash among the first `n` bytes, or -1. */
  function LastSlashIn(path: seq<byte>, n: nat): (i: int)
    requires n <= |path|
    ensures -1 <= i < n
  {
    if n == 0 then -1 else if path[n - 1] == SLASH then n - 1 else LastSlashIn(path, n - 1)
  }

  function LastSlash(path: seq<byte>): (i: int)
    ensures -1 <= i < |path|
  {
    LastSlashIn(path, |path|)
  }

  lemma {:induction false} LastSlashIs(path: seq<byte>, n: nat)
    requires n <= |path|
    ensures LastSlashIn(path, n) >= 0 ==> path[LastSlashIn(path, n)] == SLASH
    ensures forall j | LastSlashIn(path, n) < j < n :: path[j] != SLASH
  {
    if n > 0 {
      LastSlashIs(path, n - 1);
    }
  }

  /** Where the component that starts at `pos` ends. */
  function EndOf(path: seq<byte>, pos: nat, last: nat): (e: nat)
    requires pos <= last <= |path|
    ensures pos <= e <= last
    decreases last - pos
  {
    if pos == last || path[pos] == SLASH then pos else EndOf(path, pos + 1, last)
  }

  function SkipSlashes(path: seq<byte>, pos: nat, last: nat): (n: nat)
    requires pos <= last <= |path|
    ensures pos <= n <= last
    decreases last - pos
  {
    if pos < last && path[pos] == SLASH then SkipSlashes(path, pos + 1, last) else pos
  }

  /** A component is cut to the 63 bytes its buffer holds. */
  function Cut(c: seq<byte>): seq<byte> {
    if |c| > 63 then c[..63] else c
  }

  /** The components between `pos` and the last slash. */
  function Parts(path: seq<byte>, pos: nat, last: nat): seq<seq<byte>>
    requires last < |path|
    decreases last - pos
  {
    if pos >= last then [] else
      var e := EndOf(path, pos, last);
      var n := SkipSlashes(path, e, last);
      (if e == pos then [] else [Cut(path[pos..e])]) + (if n > pos then Parts(path, n, last) else [])
  }

  /** Follow short names from a directory; 0 when one is missing. */
  ghost function Walk(tree: Tree, cur: nat, parts: seq<seq<byte>>, cap: nat): nat
    requires Walkable(tree, cur, parts, cap)
    decreases |parts|
  {
    if parts == [] then cur else
      var n := ShortLookup(tree[cur], ShortName(parts[0]), cap);
      if n == 0 then 0 else Walk(tree, n, parts[1..], cap)
  }

  /** No component is looked up in a plain file, which the code would read as a directory. */
  ghost predicate Walkable(tree: Tree, cur: nat, parts: seq<seq<byte>>, cap: nat)
    decreases |parts|
  {
    parts != [] ==>
      && cur in tree && DirOk(tree[cur])
      && var n := ShortLookup(tree[cur], ShortName(parts[0]), cap);
         n != 0 ==> Walkable(tree, n, parts[1..], cap)
  }

  ghost function ParentOf(g: Geometry, tree: Tree, path: seq<byte>): nat
    requires Splittable(g, tree, path)
  {
    var last := LastSlash(path);
    if last <= 0 then g.root else Walk(tree, g.root, Parts(path, 1, last), Slots(g))
  }

  ghost predicate Splittable(g: Geometry, tree: Tree, path: seq<byte>) {
    NoNul(path) && (LastSlash(path) > 0 ==> Walkable(tree, g.root, Parts(path, 1, LastSlash(path)), Slots(g)))
  }

  /** The path leads to a directory or to nothing. */
  ghost predicate PathOk(g: Geometry, tree: Tree, path: seq<byte>) {
    Splittable(g, tree, path) && (ParentOf(g, tree, path) == 0 || ParentOf(g, tree, path) in tree)
  }

  lemma {:induction false} ShortLookupIn(dir: Dir, sfn: seq<byte>, cap: nat)
    requires DirOk(dir)
    ensures ShortLookup(dir, sfn, cap) != 0 ==>
      exists x :: In(x, dir) && ShortName(x.name) == sfn && x.first == ShortLookup(dir, sfn, cap)
  {
    if dir != [] {
      if ShortMatch(dir[0], sfn).Some? {
        var x := ShortMatch(dir[0], sfn).value;
        assert x in dir[0] && In(x, dir);
      } else if |Groups(dir[0])| >= cap {
        ShortLookupIn(dir[1..], sfn, cap);
        if ShortLookup(dir[1..], sfn, cap) != 0 {
          var x :| In(x, dir[1..]) && ShortName(x.name) == sfn && x.first == ShortLookup(dir[1..], sfn, cap);
          var k :| 0 <= k < |dir[1..]| && x in dir[1..][k];
          assert x in dir[k + 1];
        }
      }
    }
  }

  /** The walk leads into a plain file exactly when its last lookup finds one that has a cluster. */
  lemma {:induction false} WalkEnds(g: Geometry, s: set<seq<nat>>, tree: Tree, cur: nat, parts: seq<seq<byte>>,
                                    cap: nat)
    returns (h: nat, x: Entry)
    requires parts != [] && Walkable(tree, cur, parts, cap) && Walk(tree, cur, parts, cap) != 0
    requires forall h, y | h in tree && In(y, tree[h]) :: RefOk(g, s, tree, y)
    ensures h in tree && In(x, tree[h]) && ShortName(x.name) == ShortName(parts[|parts| - 1])
    ensures x.first == Walk(tree, cur, parts, cap)
    ensures x.first >= 2 ==> (Walk(tree, cur, parts, cap) !in tree <==> x.attr != 0x10)
    decreases |parts|
  {
    ShortLookupIn(tree[cur], ShortName(parts[0]), cap);
    var n := ShortLookup(tree[cur], ShortName(parts[0]), cap);
    if |parts| == 1 {
      h := cur;
      x :| In(x, tree[cur]) && ShortName(x.name) == ShortName(parts[0]) && x.first == n;
      assert RefOk(g, s, tree, x);
    } else {
      h, x := WalkEnds(g, s, tree, n, parts[1..], cap);
    }
  }

  /** With a plain file `f`, the directory part of `/f/x` leads to the file's first cluster, which the creating
      calls take for a directory. */
  lemma IntoAFile(g: Geometry, c: u32, size: u32)
    requires c >= 2 && g.root != c && g.spc == 8
    ensures var tree, path := map[g.root := [[Entry([102], c, size, 0x20)]]], [SLASH, 102, SLASH, 120];
            Splittable(g, tree, path) && ParentOf(g, tree, path) == c && c !in tree
  {
    var es := [Entry([102], c, size, 0x20)];
    var tree: Tree, path := map[g.root := [es]], [SLASH, 102, SLASH, 120];
    assert es[..0] == [] && LastDot([102]) == -1;
    assert LastSlashIn(path, 3) == 2 && LastSlash(path) == 2;
    assert EndOf(path, 1, 2) == 2 && SkipSlashes(path, 2, 2) == 2;
    assert path[1..2] == [102];
    assert Parts(path, 1, 2) == [[102]];
    assert ShortMatch(es, ShortName([102])) == Some(es[0]);
    assert ShortLookup(tree[g.root], ShortName([102]), Slots(g)) == c;
    var parts := Parts(path, 1, 2);
    assert parts[1..] == [];
    assert Walk(tree, g.root, parts, Slots(g)) == Walk(tree, c, parts[1..], Slots(g)) == c;
  }

  lemma WalkStep(tree: Tree, cur: nat, parts: seq<seq<byte>>, cap: nat, comp: seq<byte>, rest: seq<seq<byte>>, n: nat)
    requires Walkable(tree, cur, parts, cap) && parts == [comp] + rest
             && n == ShortLookup(tree[cur], ShortName(comp), cap)
    ensures n == 0 ==> Walk(tree, cur, parts, cap) == 0
    ensures n != 0 ==> Walkable(tree, n, rest, cap) && Walk(tree, cur, parts, cap) == Walk(tree, n, rest, cap)
  {
    assert parts[0] == comp && parts[1..] == rest;
  }

  lemma PartsStep(path: seq<byte>, pos: nat, last: nat, comp: seq<byte>, next: nat)
    requires pos < last < |path| && comp == Cut(path[pos..EndOf(path, pos, last)])
    requires next == SkipSlashes(path, EndOf(path, pos, last), last) && next > pos
    ensures Parts(path, pos, last) == (if comp == [] then [] else [comp]) + Parts(path, next, last)
  {
  }

  /** The loops that pick one component out of the path. */
  method NextPart(path: seq<byte>, pos: nat, last: nat) returns (comp: seq<byte>, next: nat)
    requires pos < last < |path| && NoNul(path)
    ensures NoNul(comp) && comp == Cut(path[pos..EndOf(path, pos, last)])
    ensures next == SkipSlashes(path, EndOf(path, pos, last), last) && next > pos
  {
    comp := [];
    var i := pos;
    while i < last && path[i] != SLASH
      invariant pos <= i <= last && EndOf(path, pos, last) == EndOf(path, i, last) && comp == Cut(path[pos..i])
                && NoNul(comp)
    {
      if |comp| < 63 {
        comp := comp + [path[i]];
      }
      i := i + 1;
      assert path[pos..i] == path[pos..i - 1] + [path[i - 1]];
    }
    next := i;
    while next < last && path[next] == SLASH
      invariant i <= next <= last && SkipSlashes(path, i, last) == SkipSlashes(path, next, last)
    {
      next := next + 1;
    }
  }

  /** `split_path`: what all components but the last lead to, 0 if one is missing, and the last component. */
  method SplitPath(v: Volume, path: seq<byte>, ghost tree: Tree) returns (parent: nat, name: seq<byte>)
    requires FsOk(v, tree) && Splittable(v.g, tree, path)
    modifies v.cbuf
    ensures FsOk(v, tree) && parent == ParentOf(v.g, tree, path) && name == path[LastSlash(path) + 1..]
    ensures forall j | 0 <= j < |name| :: name[j] != 47
    ensures |name| <= |path| && path[|path| - |name|..] == name
    ensures |name| < |path| ==> path[|path| - |name| - 1] == 47
    ensures |path| - |name| <= 1 ==> parent == v.g.root
  {
    var last := -1;
    for i := 0 to |path|
      invariant last == LastSlashIn(path, i)
    {
      if path[i] == SLASH {
        last := i;
      }
    }
    LastSlashIs(path, |path|);
    name := path[last + 1..];
    if last <= 0 {
      return v.g.root, name;
    }
    parent := WalkPath(v, path, last, tree);
  }

  method WalkPath(v: Volume, path: seq<byte>, last: nat, ghost tree: Tree) returns (cur: nat)
    requires FsOk(v, tree) && NoNul(path) && 0 < last < |path|
             && Walkable(tree, v.g.root, Parts(path, 1, last), Slots(v.g))
    modifies v.cbuf
    ensures FsOk(v, tree) && cur == Walk(tree, v.g.root, Parts(path, 1, last), Slots(v.g))
  {
    ghost var cap, all := Slots(v.g), Parts(path, 1, last);
    cur := v.g.root;
    var pos := 1;
    ghost var parts := all;
    while pos < last
      invariant 1 <= pos <= last && FsOk(v, tree) && parts == Parts(path, pos, last)
      invariant Walkable(tree, cur, parts, cap) && Walk(tree, cur, parts, cap) == Walk(tree, v.g.root, all, cap)
      decreases last - pos
    {
      var comp, next := NextPart(path, pos, last);
      PartsStep(path, pos, last, comp, next);
      ghost var rest := Parts(path, next, last);
      if comp != [] {
        var n := LookupDir(v, cur, comp, tree);
        WalkStep(tree, cur, parts, cap, comp, rest, n);
        if n == 0 {
          return 0;
        }
        cur := n;
      } else {
        assert parts == rest;
      }
      parts := rest;
      pos := next;
    }
  }

  /** `dir_lookup` in a directory of the tree. */
  method LookupDir(v: Volume, cur: nat, comp: seq<byte>, ghost tree: Tree) returns (n: nat)
    requires FsOk(v, tree) && cur in tree && DirOk(tree[cur]) && NoNul(comp)
    modifies v.cbuf
    ensures FsOk(v, tree) && n == ShortLookup(tree[cur], ShortName(comp), Slots(v.g))
  {
    assert DirAt(v.g, v.disk, v.chains, tree[cur], cur);
    n := DirLookup(v, cur, comp, ChainFrom(v.chains, cur), tree[cur]);
  }

  // ---- the calls that take a path ----

  lemma GrowsSelf(f: Fat)
    ensures Grows(f, f)
  {
  }

  /** What `fat32_create_dir` makes of a name in a directory. */
  ghost predicate DirMade(g: Geometry, tree: Tree, tree': Tree, parent: nat, name: seq<byte>, r: int, c: u32) {
    && parent in tree && parent in tree' && DirOk(tree[parent]) && NameOk(name)
    && (r == -1 || Taken(g, tree, parent, name) ==> tree' == tree)
    && (r == 0 && !Taken(g, tree, parent, name) ==> c !in tree && tree' == WithDir(g, tree, parent, name, c))
    && (r == 0 ==> Lookup(tree'[parent], name) == (if Taken(g, tree, parent, name) || Shadowed(g, tree, parent, name)
                                                   then Lookup(tree[parent], name) else Some(Entry(name, c, 0, 0x10))))
    && (r == 0 ==> (NamesDir(tree', parent, name) <==>
          NamesDir(tree, parent, name) || (!Taken(g, tree, parent, name) && !Shadowed(g, tree, parent, name))))
  }

  /** Nothing is where the path should lead, or it names nothing. */
  ghost predicate NoTarget(g: Geometry, tree: Tree, path: seq<byte>)
    requires PathOk(g, tree, path)
  {
    ParentOf(g, tree, path) == 0 || NameOf(path) == []
  }

  function NameOf(path: seq<byte>): seq<byte> {
    path[LastSlash(path) + 1..]
  }

  /** `fat32_create_dir`. It fails exactly when the path leads to no directory, has no name, or the short name is not
      taken and there is no cluster for the directory or its entry. */
  method CreateDirAt(v: Volume, path: seq<byte>, ghost tree: Tree) returns (r: int, ghost tree': Tree, ghost c: u32)
    requires FsOk(v, tree) && PathOk(v.g, tree, path) && (NameOf(path) != [] ==> NameOk(NameOf(path)))
    modifies v, v.fat, v.cbuf
    ensures FsOk(v, tree') && |v.disk| == |old(v.disk)| && Grows(old(v.fat[..]), v.fat[..]) && (r == 0 || r == -1)
    ensures NoTarget(v.g, tree, path) ==>
      r == -1 && tree' == tree && v.disk == old(v.disk) && v.fat[..] == old(v.fat[..])
    ensures !NoTarget(v.g, tree, path) ==> DirMade(v.g, tree, tree', ParentOf(v.g, tree, path), NameOf(path), r, c)
    ensures !NoTarget(v.g, tree, path) ==>
      (r == -1 <==> !Taken(v.g, tree, ParentOf(v.g, tree, path), NameOf(path))
                    && !DirFits(FreeCount(old(v.fat[..])), HasRoom(v.g, tree[ParentOf(v.g, tree, path)], NameOf(path))))
    ensures !NoTarget(v.g, tree, path) && r == -1 ==>
      Leaked(old(v.fat[..]), v.fat[..], old(v.chains), v.chains, if c == 0 then [] else [c])
    ensures r == 0 ==> v.Synced() || (v.disk == old(v.disk) && v.fat[..] == old(v.fat[..]))
    ensures r == 0 && tree' != tree ==> 2 <= c < v.fat.Length && Free(old(v.fat[..]), c)
    ensures Undisturbed(v.g, old(v.disk), v.disk, old(v.chains), v.chains, tree)
  {
    ghost var d, s := v.disk, v.chains;
    var parent, name := SplitPath(v, path, tree);
    if parent == 0 || name == [] {
      tree', c := tree, 0;
      GrowsSelf(v.fat[..]);
      SameFiles(v, tree);
      return -1, tree', c;
    }
    r, tree', c := CreateDir(v, parent, name, tree);
  }

  lemma SameFiles(v: Volume, tree: Tree)
    requires FsOk(v, tree)
    ensures Undisturbed(v.g, v.disk, v.disk, v.chains, v.chains, tree)
  {
    ChainsInRange(v.g, |v.disk|, v.fat[..], v.chains);
    forall h, x | h in tree && In(x, tree[h]) ensures Extent(v.g, v.chains, x.first, x.size) {
      assert RefOk(v.g, v.chains, tree, x);
    }
  }

  /** The tree has gained exactly an entry for the data, and the entry's file is the data; an empty file may instead
      be lost without a report, when its entry needs a cluster and table `f0` has none left. */
  ghost predicate FileAdded(g: Geometry, d: seq<Sector>, s: set<seq<nat>>, f0: Fat, tree: Tree, tree': Tree,
                            parent: nat, name: seq<byte>, data: seq<byte>, e: Entry)
    requires g.Good(|d|) && |f0| == g.Clusters()
  {
    && parent in tree && DirOk(tree[parent]) && EntryOk(e) && e.name == name && e.size == |data| && e.attr == 0x20
    && (data == [] ==> e.first == 0)
    && tree' == (if data != [] || HasRoom(g, tree[parent], name) || !Full(f0)
                   then tree[parent := Insert(tree[parent], e, Slots(g))] else tree)
    && e.first !in tree'
    && ChainsOk(g, s) && Extent(g, s, e.first, e.size) && FileBytes(g, d, s, e.first, e.size) == data
  }

  ghost predicate AnyFiled(f0: Fat, f: Fat, s0: set<seq<nat>>, s: set<seq<nat>>, parent: nat, room: bool) {
    exists p :: Filed(f0, f, s0, s, p, parent, room)
  }

  /** The rest of `fat32_write_file`, once the directory is known. */
  method WriteFileIn(v: Volume, dir: nat, name: seq<byte>, data: seq<byte>, ghost tree: Tree)
    returns (r: int, ghost tree': Tree, ghost e: Entry)
    requires FsOk(v, tree) && dir in tree && NameOk(name) && |data| < 0x1_0000_0000
    modifies v, v.fat, v.cbuf
    ensures FsOk(v, tree') && |v.disk| == |old(v.disk)| && Grows(old(v.fat[..]), v.fat[..])
    ensures r >= 0 ==>
      v.Synced() && FileAdded(v.g, v.disk, v.chains, old(v.fat[..]), tree, tree', dir, name, data, e)
    ensures var room := HasRoom(v.g, tree[dir], name);
            r == if data == [] || FileFits(v.g, FreeCount(old(v.fat[..])), |data|, room) then |data| else -1
    ensures r >= 0 && data != [] ==> 2 <= e.first < v.fat.Length && Free(old(v.fat[..]), e.first)
    ensures r < 0 ==> tree' == tree && exists p :: Leaked(old(v.fat[..]), v.fat[..], old(v.chains), v.chains, p)
    ensures r >= 0 ==> AnyFiled(old(v.fat[..]), v.fat[..], old(v.chains), v.chains, dir,
                                tree' == tree || HasRoom(v.g, tree[dir], name))
    ensures Undisturbed(v.g, old(v.disk), v.disk, old(v.chains), v.chains, tree)
  {
    ghost var p;
    r, tree', e, p := WriteFile(v, dir, name, data, tree);
    ChainsInRange(v.g, |v.disk|, v.fat[..], v.chains);
    DirsReal(v, tree');
  }

  /** Every directory has a real cluster. */
  lemma DirsReal(v: Volume, tree: Tree)
    requires FsOk(v, tree)
    ensures forall h | h in tree :: 2 <= h < v.g.Clusters()
  {
    ChainsInRange(v.g, |v.disk|, v.fat[..], v.chains);
    forall h | h in tree ensures 2 <= h < v.g.Clusters() {
      assert DirAt(v.g, v.disk, v.chains, tree[h], h);
      HeadInRange(v.g, v.chains, h);
    }
  }

  /** `fat32_write_file`. It fails exactly when the path leads to no directory, has no name, or chain and entry do not
      fit. */
  method WriteFileAt(v: Volume, path: seq<byte>, data: seq<byte>, ghost tree: Tree)
    returns (r: int, ghost tree': Tree, ghost e: Entry)
    requires FsOk(v, tree) && PathOk(v.g, tree, path) && |data| < 0x1_0000_0000
             && (NameOf(path) != [] ==> NameOk(NameOf(path)))
    modifies v, v.fat, v.cbuf
    ensures FsOk(v, tree') && |v.disk| == |old(v.disk)| && Grows(old(v.fat[..]), v.fat[..])
    ensures NoTarget(v.g, tree, path) ==>
      r == -1 && tree' == tree && v.disk == old(v.disk) && v.fat[..] == old(v.fat[..])
    ensures !NoTarget(v.g, tree, path) ==>
      && ParentOf(v.g, tree, path) in tree
      && var room := HasRoom(v.g, tree[ParentOf(v.g, tree, path)], NameOf(path));
         r == if data == [] || FileFits(v.g, FreeCount(old(v.fat[..])), |data|, room) then |data| else -1
    ensures r >= 0 ==>
      && v.Synced()
      && FileAdded(v.g, v.disk, v.chains, old(v.fat[..]), tree, tree', ParentOf(v.g, tree, path), NameOf(path), data, e)
      && AnyFiled(old(v.fat[..]), v.fat[..], old(v.chains), v.chains, ParentOf(v.g, tree, path),
                  tree' == tree || HasRoom(v.g, tree[ParentOf(v.g, tree, path)], NameOf(path)))
    ensures r >= 0 && data != [] ==> 2 <= e.first < v.fat.Length && Free(old(v.fat[..]), e.first)
    ensures r < 0 ==> r == -1 && tree' == tree
    ensures r < 0 && !NoTarget(v.g, tree, path) ==>
      exists p :: Leaked(old(v.fat[..]), v.fat[..], old(v.chains), v.chains, p)
    ensures Undisturbed(v.g, old(v.disk), v.disk, old(v.chains), v.chains, tree)
  {
    var dir, last := SplitPath(v, path, tree);
    if dir == 0 || last == [] {
      tree', e := tree, Entry([], 0, 0, 0x20);
      GrowsSelf(v.fat[..]);
      SameFiles(v, tree);
      return -1, tree', e;
    }
    r, tree', e := WriteFileIn(v, dir, last, data, tree);
  }
}
