/** `fat32_open` of any path, and when it finds what `fat32_write_file` put at the same path. */
module PathOpen {
  import opened Bytes
  import opened FatChains
  import opened Geometry
  import opened Volumes
  import opened FatFiles
  import opened DirFormat
  import opened DirModel
  import opened Directories
  import opened DirRead
  import opened FileSystem
  import opened FileCreate
  import opened FileOpen
  import opened DirCreate
  import opened Paths

  // ---- fat32_open of any path ----

  /** The components from `pos` to the end of a path. */
  function AllParts(path: seq<byte>, pos: nat): seq<seq<byte>>
    requires pos <= |path|
    decreases |path| - pos
  {
    if pos == |path| then [] else
      var e := EndOf(path, pos, |path|);
      var n := SkipSlashes(path, e, |path|);
      (if e == pos then [] else [path[pos..e]]) + (if n > pos then AllParts(path, n) else [])
  }

  /** What the reader looks up: an empty path, or one of slashes only, still asks for the empty name. */
  function OpenParts(path: seq<byte>): (r: seq<seq<byte>>)
    ensures r != []
  {
    var all := AllParts(path, SkipSlashes(path, 0, |path|));
    if all == [] then [[]] else all
  }

  /** Follow long names from a directory to an entry. */
  ghost function Find(tree: Tree, cur: nat, parts: seq<seq<byte>>): Option<Entry>
    requires parts != [] && Findable(tree, cur, parts)
    decreases |parts|
  {
    var x := Lookup(tree[cur], parts[0]);
    if x.None? || |parts| == 1 then x else Find(tree, x.value.first, parts[1..])
  }

  /** No component on the way names a plain file: the code would read that file as a directory. */
  ghost predicate Findable(tree: Tree, cur: nat, parts: seq<seq<byte>>)
    requires parts != []
    decreases |parts|
  {
    && cur in tree
    && (Lookup(tree[cur], parts[0]).Some? && |parts| > 1 ==>
        Findable(tree, Lookup(tree[cur], parts[0]).value.first, parts[1..]))
  }

  /** One component of the path the reader takes apart. */
  method NextName(path: seq<byte>, pos: nat) returns (name: seq<byte>, next: nat)
    requires pos < |path| && NoNul(path) && path[pos] != SLASH
    ensures forall i | 0 <= i < |name| :: name[i] != 47
    ensures NoNul(name) && name != [] && name == path[pos..EndOf(path, pos, |path|)]
    ensures next == SkipSlashes(path, EndOf(path, pos, |path|), |path|) && pos < next <= |path|
    ensures next < |path| ==> path[next] != SLASH
    ensures AllParts(path, pos) == [name] + AllParts(path, next)
  {
    var i := pos;
    while i < |path| && path[i] != SLASH
      invariant pos <= i <= |path| && EndOf(path, pos, |path|) == EndOf(path, i, |path|)
      invariant forall j | pos <= j < i :: path[j] != 47
    {
      i := i + 1;
    }
    name := path[pos..i];
    next := i;
    while next < |path| && path[next] == SLASH
      invariant i <= next <= |path| && SkipSlashes(path, i, |path|) == SkipSlashes(path, next, |path|)
    {
      next := next + 1;
    }
  }

  /** `fat32_open`: a handle at position 0 on the entry the components lead to, or null when one is missing. */
  method OpenPath(v: Volume, path: seq<byte>, ghost tree: Tree) returns (f: OpenFile?)
    requires FsOk(v, tree) && NoNul(path) && |path| < 256 && Findable(tree, v.g.root, OpenParts(path))
    modifies v.wbuf
    ensures FsOk(v, tree)
    ensures var x := Find(tree, v.g.root, OpenParts(path));
            && (f == null <==> x.None?)
            && (f != null ==>
                fresh(f) && f.pos == 0 && FileOk(v, f) && f.first == x.value.first && f.size == x.value.size)
    ensures f != null ==> exists h, k, i {:trigger NamedBy(tree, h, k, i, LastOf(OpenParts(path)))} ::
      && NamedBy(tree, h, k, i, LastOf(OpenParts(path)))
      && f.first == tree[h][k][i].first && f.size == tree[h][k][i].size
  {
    var pos := 0;
    while pos < |path| && path[pos] == SLASH
      invariant 0 <= pos <= |path| && SkipSlashes(path, 0, |path|) == SkipSlashes(path, pos, |path|)
    {
      pos := pos + 1;
    }
    assert OpenParts(path) == if AllParts(path, pos) == [] then [[]] else AllParts(path, pos);
    f := OpenFrom(v, path, pos, tree);
    if f != null {
      FindPlace(tree, v.g.root, OpenParts(path));
    }
  }

  function LastOf(parts: seq<seq<byte>>): seq<byte>
    requires parts != []
  {
    parts[|parts| - 1]
  }

  /** Entry `i` of cluster `k` of a directory answers for the name. */
  ghost predicate NamedBy(tree: Tree, h: int, k: int, i: int, name: seq<byte>) {
    h >= 0 && h in tree && Answers(tree[h], k, i, name)
  }

  /** What a path leads to is an entry that answers for its last component. */
  lemma {:induction false} FindPlace(tree: Tree, cur: nat, parts: seq<seq<byte>>)
    requires parts != [] && Findable(tree, cur, parts) && Find(tree, cur, parts).Some?
    ensures exists h, k, i {:trigger NamedBy(tree, h, k, i, LastOf(parts))} ::
      NamedBy(tree, h, k, i, LastOf(parts)) && tree[h][k][i] == Find(tree, cur, parts).value
    decreases |parts|
  {
    if |parts| == 1 {
      LookupPlace(tree[cur], parts[0]);
      var k, i :| Answers(tree[cur], k, i, parts[0]) && tree[cur][k][i] == Find(tree, cur, parts).value;
      assert NamedBy(tree, cur, k, i, LastOf(parts));
    } else {
      FindPlace(tree, Lookup(tree[cur], parts[0]).value.first, parts[1..]);
      assert LastOf(parts[1..]) == LastOf(parts);
    }
  }

  method OpenFrom(v: Volume, path: seq<byte>, start: nat, ghost tree: Tree) returns (f: OpenFile?)
    requires FsOk(v, tree) && NoNul(path) && start <= |path| && (start < |path| ==> path[start] != SLASH)
    requires Findable(tree, v.g.root, if AllParts(path, start) == [] then [[]] else AllParts(path, start))
    modifies v.wbuf
    ensures FsOk(v, tree)
    ensures var x := Find(tree, v.g.root, if AllParts(path, start) == [] then [[]] else AllParts(path, start));
            && (f == null <==> x.None?)
            && (f != null ==>
                fresh(f) && f.pos == 0 && FileOk(v, f) && f.first == x.value.first && f.size == x.value.size)
  {
    ghost var goal := Find(tree, v.g.root, if AllParts(path, start) == [] then [[]] else AllParts(path, start));
    var name, pos := [], start;
    if start < |path| {
      name, pos := NextName(path, start);
    }
    var dir := v.g.root;
    var entry := FindIn(v, dir, name, tree);
    while entry.Some? && pos < |path|
      invariant FsOk(v, tree) && dir in tree && pos <= |path| && (pos < |path| ==> path[pos] != SLASH)
      invariant Findable(tree, dir, [name] + AllParts(path, pos))
                && Find(tree, dir, [name] + AllParts(path, pos)) == goal
      invariant EntrySlot(entry, Lookup(tree[dir], name))
      decreases |path| - pos
    {
      ghost var parts, x := [name] + AllParts(path, pos), Lookup(tree[dir], name).value;
      SfnSlotFields(x);
      var next;
      name, next := NextName(path, pos);
      assert parts[1..] == [name] + AllParts(path, next);
      dir := SlotFirst(entry.value);
      pos := next;
      entry := FindIn(v, dir, name, tree);
    }
    if entry.None? {
      return null;
    }
    ghost var x := Lookup(tree[dir], name).value;
    SfnSlotFields(x);
    EntryIsFile(v, tree, dir, name);
    f := new OpenFile(SlotFirst(entry.value), SlotSize(entry.value));
  }

  ghost predicate EntrySlot(entry: Option<Slot>, x: Option<Entry>) {
    entry == match x { case None => None case Some(e) => Some(SfnSlot(e)) }
  }

  lemma EntryIsFile(v: Volume, tree: Tree, dir: nat, name: seq<byte>)
    requires FsOk(v, tree) && dir in tree && Lookup(tree[dir], name).Some?
    ensures var x := Lookup(tree[dir], name).value; Extent(v.g, v.chains, x.first, x.size)
  {
    LookupSound(tree[dir], name);
    assert RefOk(v.g, v.chains, tree, Lookup(tree[dir], name).value);
  }

  /** `fat32_lookup_in_dir` in a directory of the tree. */
  method FindIn(v: Volume, dir: nat, name: seq<byte>, ghost tree: Tree) returns (entry: Option<Slot>)
    requires FsOk(v, tree) && dir in tree && NoNul(name)
    modifies v.wbuf
    ensures FsOk(v, tree) && EntrySlot(entry, Lookup(tree[dir], name))
    ensures entry.None? <==> NoneNamed(tree[dir], name)
  {
    TreeDirOk(v, tree, dir);
    entry := LookupInDir(v, dir, name, ChainFrom(v.chains, dir), tree[dir]);
    LookupPlace(tree[dir], name);
  }

  // ---- the two ways to take a path apart ----

  predicate FitsAt(path: seq<byte>, i: nat)
    requires i <= |path|
  {
    EndOf(path, i, |path|) - i <= 63
  }

  /** The components of the directory part. */
  function DirParts(path: seq<byte>): seq<seq<byte>> {
    if LastSlash(path) <= 0 then [] else Parts(path, 1, LastSlash(path))
  }

  /** No component is longer than 63 bytes. */
  ghost predicate ShortParts(path: seq<byte>) {
    forall i {:trigger FitsAt(path, i)} | 0 <= i < |path| :: FitsAt(path, i)
  }

  /** Both calls see the same components exactly when the path is absolute or a bare name: the creating calls skip the
      first byte of a directory part, whatever it is. */
  lemma SameParts(path: seq<byte>)
    requires NameOf(path) != [] && ShortParts(path)
    ensures OpenParts(path) == DirParts(path) + [NameOf(path)] <==> path[0] == SLASH || LastSlash(path) < 0
  {
    if LastSlash(path) < 0 {
      BareName(path);
    } else if path[0] == SLASH {
      AbsoluteParts(path);
    } else {
      LastSlashIs(path, |path|);
      PartsEnd(path, 1, LastSlash(path));
      FirstByteMatters(path);
    }
  }

  lemma BareName(path: seq<byte>)
    requires path != [] && LastSlash(path) < 0
    ensures OpenParts(path) == [path] && NameOf(path) == path && DirParts(path) == []
  {
    LastSlashIs(path, |path|);
    NoSlashToEnd(path, 0);
    assert SkipSlashes(path, |path|, |path|) == |path|;
    assert path[0..|path|] == path;
    assert AllParts(path, 0) == [path] + AllParts(path, |path|);
  }

  lemma AbsoluteParts(path: seq<byte>)
    requires path != [] && path[0] == SLASH && NameOf(path) != [] && ShortParts(path)
    ensures OpenParts(path) == DirParts(path) + [NameOf(path)]
  {
    SlashIsAfter(path, 0);
    var last, s := LastSlash(path), SkipSlashes(path, 0, |path|);
    assert s == SkipSlashes(path, 1, |path|);
    PartsEnd(path, 1, last);
    if s > 1 {
      SkipStarts(path, 1);
      assert AllParts(path, 1) == AllParts(path, s);
    }
  }

  /** Components written out as a path, byte 47 before each. */
  function Joined(parts: seq<seq<byte>>): seq<byte> {
    if parts == [] then [] else [47] + parts[0] + Joined(parts[1..])
  }

  ghost predicate Names(parts: seq<seq<byte>>) {
    forall k | 0 <= k < |parts| :: Name(parts[k])
  }

  ghost predicate Name(c: seq<byte>) {
    c != [] && forall i | 0 <= i < |c| :: c[i] != 47
  }

  /** Taking a joined path apart gives its components back, and so does splitting it when none is too long. */
  lemma TakenApart(parts: seq<seq<byte>>)
    requires parts != [] && Names(parts)
    ensures OpenParts(Joined(parts)) == parts
    ensures ShortParts(Joined(parts)) ==>
      NameOf(Joined(parts)) == parts[|parts| - 1] && DirParts(Joined(parts)) == parts[..|parts| - 1]
  {
    var path := Joined(parts);
    assert path[0..] == path;
    JoinedParts(path, 0, parts);
    if ShortParts(path) {
      JoinedEnd(parts);
      LastSlashIs(path, |path|);
      AbsoluteParts(path);
    }
  }

  lemma {:induction false} JoinedParts(path: seq<byte>, pos: nat, parts: seq<seq<byte>>)
    requires pos <= |path| && path[pos..] == Joined(parts) && Names(parts)
    ensures AllParts(path, SkipSlashes(path, pos, |path|)) == parts
    decreases |parts|
  {
    if parts != [] {
      var c, e := parts[0], pos + 1 + |parts[0]|;
      JoinedHead(path, pos, parts, e);
      EndIs(path, pos + 1, e);
      JoinedParts(path, e, parts[1..]);
    }
  }

  /** Where the first component of the rest of the path lies. */
  lemma JoinedHead(path: seq<byte>, pos: nat, parts: seq<seq<byte>>, e: nat)
    requires pos <= |path| && parts != [] && path[pos..] == Joined(parts) && Names(parts) && e == pos + 1 + |parts[0]|
    ensures pos + 1 < e <= |path| && path[pos] == 47 && path[pos + 1..e] == parts[0] && path[e..] == Joined(parts[1..])
    ensures Name(path[pos + 1..e]) && (e < |path| ==> path[e] == 47)
  {
    var c, rest := parts[0], Joined(parts[1..]);
    assert Name(c);
    assert path[pos..][0] == 47 && path[pos..][1..1 + |c|] == c && path[pos..][1 + |c|..] == rest;
    assert path[pos..][1..1 + |c|] == path[pos + 1..e] && path[pos..][1 + |c|..] == path[e..];
    if e < |path| {
      assert path[e..][0] == path[e] && rest[0] == 47;
    }
  }

  lemma {:induction false} EndIs(path: seq<byte>, pos: nat, e: nat)
    requires pos <= e <= |path| && (forall i | pos <= i < e :: path[i] != 47) && (e < |path| ==> path[e] == 47)
    ensures EndOf(path, pos, |path|) == e
    decreases e - pos
  {
    if pos < e {
      EndIs(path, pos + 1, e);
    }
  }

  lemma {:induction false} JoinedEnd(parts: seq<seq<byte>>)
    requires parts != [] && Names(parts)
    ensures Joined(parts) != [] && Joined(parts)[|Joined(parts)| - 1] != 47
  {
    var c, rest := parts[0], Joined(parts[1..]);
    assert Name(c);
    if |parts| > 1 {
      JoinedEnd(parts[1..]);
      assert Joined(parts)[|Joined(parts)| - 1] == rest[|rest| - 1];
    } else {
      assert Joined(parts) == [47] + c;
    }
  }

  /** Dropping the first byte of a component changes the list of components. */
  lemma FirstByteMatters(path: seq<byte>)
    requires |path| > 1 && path[0] != SLASH
    ensures AllParts(path, 0) != AllParts(path, 1)
  {
    var e := EndOf(path, 1, |path|);
    var n := SkipSlashes(path, e, |path|);
    var rest := if n > 0 then AllParts(path, n) else [];
    assert AllParts(path, 0) == [path[0..e]] + rest;
    if e == 1 {
      assert |AllParts(path, 0)| == |AllParts(path, 1)| + 1;
    } else {
      assert AllParts(path, 1) == [path[1..e]] + rest;
      assert |AllParts(path, 0)[0]| == |AllParts(path, 1)[0]| + 1;
    }
  }

  lemma SlashIsAfter(path: seq<byte>, i: nat)
    requires i < |path| && path[i] == SLASH
    ensures i <= LastSlash(path)
  {
    LastSlashIs(path, |path|);
  }

  lemma SkipStarts(path: seq<byte>, i: nat)
    requires i < |path| && SkipSlashes(path, i, |path|) > i
    ensures path[i] == SLASH
  {
  }

  /** The components before the last slash, then the name. */
  lemma {:induction false} PartsEnd(path: seq<byte>, pos: nat, last: nat)
    requires last == LastSlash(path) && last + 1 < |path| && 1 <= pos <= last + 1
    requires ShortParts(path)
    ensures AllParts(path, pos) == Parts(path, pos, last) + [NameOf(path)]
    decreases |path| - pos
  {
    if pos == last + 1 {
      NameAlone(path, last);
    } else if pos == last {
      AtLast(path, last);
      PartsEnd(path, last + 1, last);
    } else {
      AllPartsStep(path, pos, last);
      WalkedStep(path, pos, last);
      PartsEnd(path, AfterPart(path, pos, last), last);
    }
  }

  /** Where the walk goes on after one component: past the last slash when that was the last directory. */
  function AfterPart(path: seq<byte>, pos: nat, last: nat): (n: nat)
    requires pos < last < |path|
    ensures pos < n <= last + 1
  {
    StepForward(path, pos, last);
    var n := SkipSlashes(path, EndOf(path, pos, last), last);
    if n < last then n else last + 1
  }

  /** The component at `pos`, if it is not empty. */
  function HeadPart(path: seq<byte>, pos: nat, last: nat): seq<seq<byte>>
    requires pos < last < |path|
  {
    var e := EndOf(path, pos, last);
    if e == pos then [] else [path[pos..e]]
  }

  lemma AllPartsStep(path: seq<byte>, pos: nat, last: nat)
    requires last == LastSlash(path) && last + 1 < |path| && 1 <= pos < last
    ensures AllParts(path, pos) == HeadPart(path, pos, last) + AllParts(path, AfterPart(path, pos, last))
  {
    LastSlashIs(path, |path|);
    EndSame(path, pos, last);
    SkipSame(path, EndOf(path, pos, last), last);
    StepForward(path, pos, last);
  }

  lemma WalkedStep(path: seq<byte>, pos: nat, last: nat)
    requires last == LastSlash(path) && last + 1 < |path| && 1 <= pos < last
    requires ShortParts(path)
    ensures Parts(path, pos, last) == HeadPart(path, pos, last) + Parts(path, AfterPart(path, pos, last), last)
  {
    LastSlashIs(path, |path|);
    EndSame(path, pos, last);
    assert FitsAt(path, pos);
    StepForward(path, pos, last);
  }

  lemma StepForward(path: seq<byte>, pos: nat, last: nat)
    requires pos < last < |path|
    ensures SkipSlashes(path, EndOf(path, pos, last), last) > pos
  {
  }

  lemma AtLast(path: seq<byte>, last: nat)
    requires last == LastSlash(path) && 1 <= last && last + 1 < |path|
    ensures AllParts(path, last) == AllParts(path, last + 1)
    ensures Parts(path, last, last) == Parts(path, last + 1, last)
  {
    LastSlashIs(path, |path|);
    SkipLast(path, last, last);
  }

  lemma NameAlone(path: seq<byte>, last: nat)
    requires last == LastSlash(path) && last + 1 < |path|
    ensures AllParts(path, last + 1) == [NameOf(path)] && Parts(path, last + 1, last) == []
  {
    LastSlashIs(path, |path|);
    NoSlashToEnd(path, last + 1);
    assert path[last + 1..|path|] == NameOf(path);
  }

  lemma {:induction false} NoSlashToEnd(path: seq<byte>, i: nat)
    requires i <= |path| && forall j | i <= j < |path| :: path[j] != SLASH
    ensures EndOf(path, i, |path|) == |path|
    decreases |path| - i
  {
    if i < |path| {
      NoSlashToEnd(path, i + 1);
    }
  }

  lemma {:induction false} EndSame(path: seq<byte>, pos: nat, last: nat)
    requires pos <= last < |path| && path[last] == SLASH
    ensures EndOf(path, pos, |path|) == EndOf(path, pos, last)
    decreases last - pos
  {
    if pos < last && path[pos] != SLASH {
      EndSame(path, pos + 1, last);
    }
  }

  lemma {:induction false} SkipLast(path: seq<byte>, i: nat, last: nat)
    requires i <= last && last + 1 < |path| && path[last + 1] != SLASH && forall j | i <= j <= last :: path[j] == SLASH
    ensures SkipSlashes(path, i, |path|) == last + 1
    decreases last - i
  {
    if i < last {
      SkipLast(path, i + 1, last);
    }
  }

  lemma {:induction false} SkipSame(path: seq<byte>, i: nat, last: nat)
    requires i <= last && last + 1 < |path| && path[last] == SLASH && path[last + 1] != SLASH
    ensures SkipSlashes(path, i, |path|) == if SkipSlashes(path, i, last) < last then SkipSlashes(path, i, last)
            else last + 1
    decreases last - i
  {
    if i < last && path[i] == SLASH {
      SkipSame(path, i + 1, last);
    }
  }

  // ---- writing and opening the same path ----

  /** Follow long names from directory to directory. */
  ghost function LongWalk(tree: Tree, cur: nat, parts: seq<seq<byte>>): Option<nat>
    requires LongOk(tree, cur, parts)
    decreases |parts|
  {
    if parts == [] then Some(cur)
    else if Lookup(tree[cur], parts[0]).None? then None
    else LongWalk(tree, Lookup(tree[cur], parts[0]).value.first, parts[1..])
  }

  ghost predicate LongOk(tree: Tree, cur: nat, parts: seq<seq<byte>>)
    decreases |parts|
  {
    && cur in tree
    && (parts != [] && Lookup(tree[cur], parts[0]).Some? ==>
        LongOk(tree, Lookup(tree[cur], parts[0]).value.first, parts[1..]))
  }

  lemma {:induction false} FindSplit(tree: Tree, cur: nat, parts: seq<seq<byte>>, name: seq<byte>)
    requires LongOk(tree, cur, parts)
    ensures Findable(tree, cur, parts + [name])
    ensures LongWalk(tree, cur, parts).Some? ==>
      && LongWalk(tree, cur, parts).value in tree
      && Find(tree, cur, parts + [name]) == Lookup(tree[LongWalk(tree, cur, parts).value], name)
    ensures LongWalk(tree, cur, parts).None? ==> Find(tree, cur, parts + [name]).None?
    decreases |parts|
  {
    var all := parts + [name];
    if parts == [] {
      assert all == [name];
    } else {
      assert all[0] == parts[0] && all[1..] == parts[1..] + [name];
      if Lookup(tree[cur], parts[0]).Some? {
        FindSplit(tree, Lookup(tree[cur], parts[0]).value.first, parts[1..], name);
      }
    }
  }

  /** The walk does not look for the new name in the directory that gets it. */
  ghost predicate Clear(tree: Tree, cur: nat, parts: seq<seq<byte>>, parent: nat, name: seq<byte>)
    requires LongOk(tree, cur, parts)
    decreases |parts|
  {
    parts != [] ==>
      && (cur != parent || Fold(parts[0]) != Fold(name))
      && (Lookup(tree[cur], parts[0]).Some? ==>
          Clear(tree, Lookup(tree[cur], parts[0]).value.first, parts[1..], parent, name))
  }

  /** A new entry changes no such walk. */
  lemma {:induction false} WalkSame(tree: Tree, cur: nat, parts: seq<seq<byte>>, parent: nat, e: Entry, cap: nat)
    requires LongOk(tree, cur, parts) && Clear(tree, cur, parts, parent, e.name)
    requires parent in tree && DirOk(tree[parent]) && EntryOk(e)
    ensures var tree' := tree[parent := Insert(tree[parent], e, cap)];
            LongOk(tree', cur, parts) && LongWalk(tree', cur, parts) == LongWalk(tree, cur, parts)
    decreases |parts|
  {
    if parts != [] {
      InsertLookup(tree[parent], e, cap, parts[0]);
      if Lookup(tree[cur], parts[0]).Some? {
        WalkSame(tree, Lookup(tree[cur], parts[0]).value.first, parts[1..], parent, e, cap);
      }
    }
  }

  /** What the path leads to after an entry was added at it. */
  lemma EntryAfter(g: Geometry, tree: Tree, parts: seq<seq<byte>>, parent: nat, e: Entry)
    requires parent in tree && DirOk(tree[parent]) && EntryOk(e)
    requires LongOk(tree, g.root, parts) && Clear(tree, g.root, parts, parent, e.name)
    ensures var tree' := tree[parent := Insert(tree[parent], e, Slots(g))];
            && Findable(tree', g.root, parts + [e.name])
            && (LongWalk(tree, g.root, parts) == Some(parent) && !Shadowed(g, tree, parent, e.name) ==>
                Find(tree', g.root, parts + [e.name]) == Some(e))
  {
    var tree' := tree[parent := Insert(tree[parent], e, Slots(g))];
    WalkSame(tree, g.root, parts, parent, e, Slots(g));
    FindSplit(tree', g.root, parts, e.name);
    InsertLookup(tree[parent], e, Slots(g), e.name);
  }

  /** Which file the path opens after a new file was written at it. */
  lemma FoundAfter(g: Geometry, d: seq<Sector>, f: Fat, s: set<seq<nat>>, tree: Tree, parts: seq<seq<byte>>,
                   parent: nat, e: Entry)
    requires g.Good(|d|) && |f| == g.Clusters() && Represents(f, s) && TreeOk(g, d, s, tree)
    requires parent in tree && DirOk(tree[parent]) && EntryOk(e) && 2 <= e.first < |f| && Free(f, e.first)
    requires LongOk(tree, g.root, parts) && Clear(tree, g.root, parts, parent, e.name)
    ensures var tree' := tree[parent := Insert(tree[parent], e, Slots(g))];
            && Findable(tree', g.root, parts + [e.name])
            && var x := Find(tree', g.root, parts + [e.name]);
               (x.Some? && x.value.first == e.first
                <==> LongWalk(tree, g.root, parts) == Some(parent) && !Shadowed(g, tree, parent, e.name))
               && (x.Some? && x.value.first == e.first ==> x.value == e)
  {
    var tree' := tree[parent := Insert(tree[parent], e, Slots(g))];
    WalkSame(tree, g.root, parts, parent, e, Slots(g));
    FindSplit(tree', g.root, parts, e.name);
    InsertLookup(tree[parent], e, Slots(g), e.name);
    FreeUnnamed(g, d, f, s, tree, e.first);
    if LongWalk(tree, g.root, parts).Some? {
      var h := LongWalk(tree, g.root, parts).value;
      LookupSound(tree[h], e.name);
      LookupSound(tree[parent], e.name);
    }
  }

  /** What the path leads to after `fat32_write_file`, which loses an empty file's entry when there is no space for
      it. */
  ghost predicate Leads(g: Geometry, tree: Tree, tree': Tree, parts: seq<seq<byte>>, parent: nat, name: seq<byte>,
                        data: seq<byte>, full: bool, e: Entry)
    requires LongOk(tree, g.root, parts) && parent in tree && DirOk(tree[parent])
  {
    && Findable(tree', g.root, parts + [name])
    && var x := Find(tree', g.root, parts + [name]);
       && (data != [] ==>
             (x.Some? && x.value.first == e.first <==>
                LongWalk(tree, g.root, parts) == Some(parent) && !Shadowed(g, tree, parent, name)))
       && (data != [] && x.Some? && x.value.first == e.first ==> x.value == e)
       && (data == [] && LongWalk(tree, g.root, parts) == Some(parent) && Found(g, tree[parent], name, data, full) ==>
             x == Some(e))
  }

  lemma AfterWrite(g: Geometry, d: seq<Sector>, f: Fat, s: set<seq<nat>>, tree: Tree, tree': Tree,
                   parts: seq<seq<byte>>,
                   parent: nat, name: seq<byte>, data: seq<byte>, e: Entry)
    requires g.Good(|d|) && |f| == g.Clusters() && Represents(f, s) && TreeOk(g, d, s, tree)
    requires parent in tree && DirOk(tree[parent]) && EntryOk(e) && e.name == name
    requires data != [] ==> 2 <= e.first < |f| && Free(f, e.first)
    requires tree' == if data != [] || HasRoom(g, tree[parent], name) || !Full(f)
                        then tree[parent := Insert(tree[parent], e, Slots(g))] else tree
    requires LongOk(tree, g.root, parts) && Clear(tree, g.root, parts, parent, name)
    ensures Leads(g, tree, tree', parts, parent, name, data, Full(f), e)
  {
    if data != [] {
      FoundAfter(g, d, f, s, tree, parts, parent, e);
    } else if tree' == tree {
      FindSplit(tree, g.root, parts, name);
      InsertChanges(tree[parent], e, Slots(g));
    } else {
      EntryAfter(g, tree, parts, parent, e);
    }
  }

  /** Write a file at a path and open the same path: the handle is on the new file, with exactly the data, if and
      only if the long names lead to the directory the short names led to, and no older entry hides the new one. */
  method WriteOpenPath(v: Volume, path: seq<byte>, data: seq<byte>, ghost tree: Tree)
    returns (r: int, f: OpenFile?, ghost tree': Tree, ghost e: Entry)
    requires FsOk(v, tree) && PathOk(v.g, tree, path) && !NoTarget(v.g, tree, path) && NameOk(NameOf(path))
    requires |data| < 0x1_0000_0000 && |path| < 256
    requires ShortParts(path) && (path[0] == SLASH || LastSlash(path) < 0)
    requires LongOk(tree, v.g.root, DirParts(path))
    requires Clear(tree, v.g.root, DirParts(path), ParentOf(v.g, tree, path), NameOf(path))
    modifies v, v.fat, v.cbuf, v.wbuf
    ensures FsOk(v, tree') && (r == |data| || r == -1)
    ensures r == -1 ==> tree' == tree && f == null
    ensures f != null ==> FileOk(v, f) && f.pos == 0
    ensures ParentOf(v.g, tree, path) in tree && DirOk(tree[ParentOf(v.g, tree, path)])
    ensures r >= 0 && data != [] ==>
      (f != null && f.first == e.first
       <==> LongWalk(tree, v.g.root, DirParts(path)) == Some(ParentOf(v.g, tree, path))
            && !Shadowed(v.g, tree, ParentOf(v.g, tree, path), NameOf(path)))
    ensures r >= 0 && data != [] && f != null && f.first == e.first ==> Contents(v, f) == data
    ensures data == [] && LongWalk(tree, v.g.root, DirParts(path)) == Some(ParentOf(v.g, tree, path))
            && Found(v.g, tree[ParentOf(v.g, tree, path)], NameOf(path), data, Full(old(v.fat[..]))) ==>
      f != null && Contents(v, f) == []
  {
    ghost var d, s, f0, parts, parent := v.disk, v.chains, v.fat[..], DirParts(path), ParentOf(v.g, tree, path);
    r, tree', e := WriteFileAt(v, path, data, tree);
    f := null;
    if r < 0 {
      ParentDir(v, tree, path);
      return;
    }
    AfterWrite(v.g, d, f0, s, tree, tree', parts, parent, NameOf(path), data, e);
    SameParts(path);
    f := OpenPath(v, path, tree');
  }

  lemma ParentDir(v: Volume, tree: Tree, path: seq<byte>)
    requires FsOk(v, tree) && PathOk(v.g, tree, path) && ParentOf(v.g, tree, path) != 0
    ensures ParentOf(v.g, tree, path) in tree && DirOk(tree[ParentOf(v.g, tree, path)])
  {
    TreeDirOk(v, tree, ParentOf(v.g, tree, path));
  }
}
