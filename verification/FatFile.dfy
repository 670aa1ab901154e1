/** Open files of the FAT32 driver: reading and writing through a handle, proved to be reading
    and writing a byte sequence. */
module FatFiles {
  import opened Bytes
  import opened FatChains
  import opened Geometry
  import opened Volumes

  /** A handle: the fields of its private directory-entry copy that matter, and the position. */
  class OpenFile {
    var first: nat
    var size: nat
    var pos: nat

    constructor (first: nat, size: nat)
      ensures this.first == first && this.size == size && pos == 0
    {
      this.first, this.size, pos := first, size, 0;
    }
  }

  // ---- what a handle denotes ----

  ghost predicate IsHead(s: set<seq<nat>>, first: nat) {
    exists p :: p in s && p != [] && p[0] == first
  }

  ghost function ChainFrom(s: set<seq<nat>>, first: nat): (p: seq<nat>)
    requires IsHead(s, first)
    ensures p in s && p != [] && p[0] == first
  {
    var p :| p in s && p != [] && p[0] == first; p
  }

  /** `first` and `size` describe a file: no cluster and no bytes, or a chain long enough. */
  ghost predicate Extent(g: Geometry, s: set<seq<nat>>, first: nat, size: nat) {
    if first < 2 then size == 0
    else IsHead(s, first) && size <= g.Capacity(|ChainFrom(s, first)|)
  }

  /** The bytes of the file with first cluster `first` and length `size`. */
  ghost function FileBytes(g: Geometry, d: seq<Sector>, s: set<seq<nat>>, first: nat, size: nat): (b: seq<byte>)
    requires g.Good(|d|) && ChainsOk(g, s) && Extent(g, s, first, size)
    ensures |b| == size
  {
    if first < 2 then [] else ChainBytes(g, d, ChainFrom(s, first))[..size]
  }

  /** Every chain of the set names clusters of the volume. */
  ghost predicate ChainsOk(g: Geometry, s: set<seq<nat>>) {
    forall p {:trigger InRange(g, p)} | p in s :: p != [] && InRange(g, p)
  }

  ghost predicate FileOk(v: Volume, f: OpenFile)
    reads v, v.fat, f
  {
    && v.Valid()
    && f.pos <= f.size
    && Extent(v.g, v.chains, f.first, f.size)
  }

  ghost function Contents(v: Volume, f: OpenFile): seq<byte>
    requires FileOk(v, f)
    reads v, v.fat, f
  {
    ChainsInRange(v.g, |v.disk|, v.fat[..], v.chains);
    FileBytes(v.g, v.disk, v.chains, f.first, f.size)
  }

  lemma ChainsInRange(g: Geometry, sectors: nat, f: Fat, s: set<seq<nat>>)
    requires g.Good(sectors) && |f| == g.Clusters() && Represents(f, s)
    ensures ChainsOk(g, s)
  {
    forall p | p in s ensures p != [] && InRange(g, p) {
      assert Chain(f, p);
    }
  }

  /** The chain with a given first cluster is unique, so `ChainFrom` names it. */
  lemma ChainFromIs(f: Fat, s: set<seq<nat>>, p: seq<nat>)
    requires Represents(f, s) && p in s
    ensures p != [] && IsHead(s, p[0]) && ChainFrom(s, p[0]) == p
  {
    assert Chain(f, p);
    assert Chain(f, ChainFrom(s, p[0]));
    SameCluster(f, s, p, 0, ChainFrom(s, p[0]), 0);
  }

  ghost predicate StartsAt(p: seq<nat>, first: nat) {
    p != [] && p[0] == first
  }

  /** Chain `q` is still there, with the same data. */
  ghost predicate KeptChain(g: Geometry, d: seq<Sector>, e: seq<Sector>, t: set<seq<nat>>, q: seq<nat>)
    requires g.Good(|d|) && |e| == |d|
  {
    q in t && InRange(g, q) && SameData(g, d, e, q)
  }

  /** Every chain other than the one headed by `first` is still there with the same data. */
  ghost predicate OthersKept(g: Geometry, d: seq<Sector>, e: seq<Sector>, s: set<seq<nat>>, t: set<seq<nat>>,
                             first: nat)
    requires g.Good(|d|) && |e| == |d|
  {
    forall q {:trigger KeptChain(g, d, e, t, q)} | q in s && !StartsAt(q, first) :: KeptChain(g, d, e, t, q)
  }

  /** Chain `p` became chain `q` and every other chain is the same. */
  ghost predicate Replaced(s: set<seq<nat>>, t: set<seq<nat>>, p: seq<nat>, q: seq<nat>) {
    t == s - {p} + {q}
  }

  /** A chain of `m` clusters became one of `n`, and exactly the clusters it gained are no longer free. */
  ghost predicate Traded(f: Fat, g: Fat, m: nat, n: nat) {
    m <= n && FreeCount(g) + n == FreeCount(f) + m
  }

  // ---- the chain walk shared by every write ----

  /** Follow `idx` links from `first`, allocating past the end of the chain. */
  method WalkTo(v: Volume, first: nat, idx: nat, ghost p: seq<nat>) returns (ok: bool, cur: nat, ghost q: seq<nat>)
    requires v.Valid() && v.HasChain(p, first) && idx <= |p|
    modifies v`chains, v.fat
    ensures v.Valid() && v.HasChain(q, first)
    ensures ok ==> idx < |q| && cur == q[idx] && p <= q
    ensures !ok || idx < |p| ==> q == p && v.fat[..] == old(v.fat[..]) && v.chains == old(v.chains)
    ensures !ok ==> idx == |p| && Full(v.fat[..])
    ensures ok ==> |q| == if idx < |p| then |p| else |p| + 1
    ensures Replaced(old(v.chains), v.chains, p, q) && Traded(old(v.fat[..]), v.fat[..], |p|, |q|)
    ensures OthersKept(v.g, v.disk, v.disk, old(v.chains), v.chains, first)
    ensures Grows(old(v.fat[..]), v.fat[..])
  {
    ghost var f0, s0 := v.fat[..], v.chains;
    ChainsInRange(v.g, |v.disk|, v.fat[..], v.chains);
    cur, q := first, p;
    assert Chain(v.fat[..], p);
    var i := 0;
    while i < idx
      invariant 0 <= i <= idx && i < |q| && cur == q[i] && v.Valid() && v.HasChain(q, first)
      invariant i < |p| ==> q == p && v.fat[..] == f0 && v.chains == s0
      invariant i == |p| ==> q == p + [cur] && Replaced(s0, v.chains, p, q) && Traded(f0, v.fat[..], |p|, |q|)
      invariant Grows(f0, v.fat[..])
    {
      var next := v.fat[cur] % 0x1000_0000;
      if next >= EOC_MIN {
        ChainAllocated(v.fat[..], p, i);
        var newc := v.ExtendChain(cur, p);
        if newc == 0 {
          WalkKept(v.g, v.disk, s0, v.chains, p, first);
          return false, cur, q;
        }
        q := p + [newc];
        cur := newc;
      } else {
        assert i < |p| - 1;
        assert Next(v.fat[..], p[i]) == p[i + 1];
        cur := next;
      }
      i := i + 1;
    }
    WalkKept(v.g, v.disk, s0, v.chains, p, first);
    ok := true;
  }

  // ---- byte-level steps ----

  lemma SpliceInSlice(b: seq<byte>, at: nat, x: seq<byte>, off: nat, pos: nat, piece: seq<byte>)
    requires at + |x| <= |b| && off + |piece| <= |x| && b[at..at + |x|] == x && pos == at + off
    ensures Splice(b, at, Splice(x, off, piece)) == Splice(b, pos, piece)
  {
    var l, r := Splice(b, at, Splice(x, off, piece)), Splice(b, pos, piece);
    forall i | 0 <= i < |b| ensures l[i] == r[i] {
      if at <= i < at + |x| {
        assert b[i] == x[i - at];
      }
    }
  }

  /** One round of the write loop advances the file from `buffer[..w]` to `buffer[..w + n]`. */
  lemma WriteStep(b: seq<byte>, c0: seq<byte>, pos0: nat, buffer: seq<byte>, w: nat, n: nat, pos: nat)
    requires pos0 <= |c0| && w + n <= |buffer| && pos == pos0 + w && pos + n <= |b|
    requires Overwrite(c0, pos0, buffer[..w]) <= b
    ensures Overwrite(c0, pos0, buffer[..w + n]) <= Splice(b, pos, buffer[w..w + n])
  {
    var l, r := Splice(b, pos, buffer[w..w + n]), Overwrite(c0, pos0, buffer[..w + n]);
    forall i | 0 <= i < |r| ensures l[i] == r[i] {
      if i < pos || pos + n <= i {
        assert b[i] == Overwrite(c0, pos0, buffer[..w])[i];
      }
    }
  }

  lemma RoundDone(g: Geometry, d: seq<Sector>, e: seq<Sector>, p: seq<nat>, q: seq<nat>,
                  c0: seq<byte>, pos0: nat, buffer: seq<byte>, w: nat, n: nat, pos: nat, piece: seq<byte>)
    requires g.Good(|d|) && |e| == |d| && InRange(g, p) && InRange(g, q) && p <= q
    requires pos0 <= |c0| && w + n <= |buffer| && pos == pos0 + w && pos + n <= |ChainBytes(g, d, q)|
    requires Overwrite(c0, pos0, buffer[..w]) <= ChainBytes(g, d, p)
    requires piece == buffer[w..w + n] && ChainBytes(g, e, q) == Splice(ChainBytes(g, d, q), pos, piece)
    ensures Overwrite(c0, pos0, buffer[..w + n]) <= ChainBytes(g, e, q)
  {
    ChainBytesPrefix(g, d, p, q);
    WriteStep(ChainBytes(g, d, q), c0, pos0, buffer, w, n, pos);
  }

  // ---- positions ----

  /** Cluster index and offset of a position within, or just past, `n` clusters. */
  method Position(g: Geometry, pos: nat, ghost n: nat) returns (idx: nat, off: nat)
    requires g.spc > 0 && pos <= g.Capacity(n)
    ensures idx <= n && off < g.ClusterBytes() && pos == g.Capacity(idx) + off
    ensures idx == n ==> pos == g.Capacity(n)
  {
    Locate(g, n, pos);
    idx := pos / g.ClusterBytes();
    off := pos % g.ClusterBytes();
  }

  /** The reader's way to the same two numbers. */
  method SkippedClusters(g: Geometry, pos: nat, ghost n: nat) returns (idx: nat, off: nat)
    requires g.spc > 0 && pos < g.Capacity(n)
    ensures idx < n && off < g.ClusterBytes() && pos == g.Capacity(idx) + off
  {
    Locate(g, n, pos);
    idx := pos / g.ClusterBytes();
    RepeatIsProduct(g.ClusterBytes(), idx);
    off := pos - idx * g.ClusterBytes();
  }

  // ---- fat32_write ----

  /** Read a cluster into the buffer, copy `piece` over part of it, write it back. */
  method ModifyCluster(v: Volume, c: nat, off: nat, piece: seq<byte>)
    requires v.Valid() && 2 <= c < v.g.Clusters() && off + |piece| <= v.g.ClusterBytes()
    modifies v`disk, v.tmp
    ensures v.Valid() && |v.disk| == |old(v.disk)|
    ensures ClusterData(v.g, v.disk, c) == Splice(ClusterData(v.g, old(v.disk), c), off, piece)
    ensures forall e | 2 <= e < v.g.Clusters() && e != c ::
      ClusterData(v.g, v.disk, e) == ClusterData(v.g, old(v.disk), e)
  {
    GoodBounds(v.g, |v.disk|);
    var csize := v.g.ClusterBytes();
    v.ReadCluster(c, v.tmp);
    ghost var was := v.tmp[..csize];
    Memcpy(v.tmp, off, piece);
    assert v.tmp[..csize] == Splice(was, off, piece);
    v.WriteCluster(c, v.tmp);
  }

  /** One round of the write loop: find the cluster of `pos`, then read, modify and write it. */
  method WriteRound(v: Volume, first: nat, pos: nat, buffer: seq<byte>, written: nat, ghost p: seq<nat>)
    returns (ok: bool, n: nat, ghost q: seq<nat>, ghost piece: seq<byte>)
    requires v.Valid() && v.HasChain(p, first) && pos <= |ChainBytes(v.g, v.disk, p)| && written < |buffer|
    modifies v, v.fat, v.tmp
    ensures v.Valid() && |v.disk| == |old(v.disk)| && v.HasChain(q, first) && p <= q
    ensures Grows(old(v.fat[..]), v.fat[..])
    ensures OthersKept(v.g, old(v.disk), v.disk, old(v.chains), v.chains, first)
    ensures !ok ==> q == p && v.disk == old(v.disk) && v.chains == old(v.chains) && v.fat[..] == old(v.fat[..])
                    && pos == |ChainBytes(v.g, v.disk, p)|
                    && Full(v.fat[..])
    ensures Replaced(old(v.chains), v.chains, p, q) && Traded(old(v.fat[..]), v.fat[..], |p|, |q|)
    ensures q == p || (|q| == |p| + 1 && pos == v.g.Capacity(|p|))
    ensures ok ==> 0 < n <= |buffer| - written && piece == buffer[written..written + n]
    ensures ok ==> pos + |piece| <= |ChainBytes(v.g, old(v.disk), q)|
                   && ChainBytes(v.g, v.disk, q) == Splice(ChainBytes(v.g, old(v.disk), q), pos, piece)
  {
    ghost var s0, d0 := v.chains, v.disk;
    var idx, off := Position(v.g, pos, |p|);
    n, piece := 1, [];
    var cur;
    ok, cur, q := WalkTo(v, first, idx, p);
    if !ok {
      return;
    }
    ghost var f := v.fat[..];
    n, piece := WritePiece(v, first, cur, idx, off, pos, buffer, written, q);
    assert v.fat[..] == f;
    OthersKeptChain(v.g, d0, d0, v.disk, s0, v.chains, v.chains, first);
  }

  /** As much of the buffer as fits the cluster from the offset on. */
  method WritePiece(v: Volume, first: nat, cur: nat, ghost idx: nat, off: nat, ghost pos: nat, buffer: seq<byte>,
                    written: nat, ghost q: seq<nat>) returns (n: nat, ghost piece: seq<byte>)
    requires v.Valid() && v.HasChain(q, first) && idx < |q| && cur == q[idx] && written < |buffer|
    requires off < v.g.ClusterBytes() && pos == v.g.Capacity(idx) + off
    modifies v`disk, v.tmp
    ensures v.Valid() && |v.disk| == |old(v.disk)|
    ensures 0 < n <= |buffer| - written && piece == buffer[written..written + n]
    ensures pos + |piece| <= |ChainBytes(v.g, old(v.disk), q)|
    ensures ChainBytes(v.g, v.disk, q) == Splice(ChainBytes(v.g, old(v.disk), q), pos, piece)
    ensures OthersKept(v.g, old(v.disk), v.disk, v.chains, v.chains, first)
  {
    n := v.g.ClusterBytes() - off;
    if n > |buffer| - written {
      n := |buffer| - written;
    }
    piece := buffer[written..written + n];
    ModifyInChain(v, first, cur, off, buffer[written..written + n], q, idx, pos);
  }

  lemma WalkKept(g: Geometry, d: seq<Sector>, s: set<seq<nat>>, t: set<seq<nat>>, p: seq<nat>, first: nat)
    requires g.Good(|d|) && ChainsOk(g, s) && p != [] && p[0] == first
    requires forall r | r in s && r != p :: r in t
    ensures OthersKept(g, d, d, s, t, first)
  {
    forall q | q in s && !StartsAt(q, first) ensures KeptChain(g, d, d, t, q) {
      assert InRange(g, q);
    }
  }

  /** Rewrite part of cluster `idx` of chain `q`: the chain's bytes change there and nowhere else. */
  method ModifyInChain(v: Volume, first: nat, c: nat, off: nat, piece: seq<byte>, ghost q: seq<nat>, ghost idx: nat,
                       ghost pos: nat)
    requires v.Valid() && v.HasChain(q, first) && idx < |q| && c == q[idx]
    requires off + |piece| <= v.g.ClusterBytes() && pos == v.g.Capacity(idx) + off
    modifies v`disk, v.tmp
    ensures v.Valid() && |v.disk| == |old(v.disk)|
    ensures pos + |piece| <= |ChainBytes(v.g, old(v.disk), q)|
    ensures ChainBytes(v.g, v.disk, q) == Splice(ChainBytes(v.g, old(v.disk), q), pos, piece)
    ensures OthersKept(v.g, old(v.disk), v.disk, v.chains, v.chains, first)
  {
    ghost var d0 := v.disk;
    ChainsInRange(v.g, |v.disk|, v.fat[..], v.chains);
    ModifyCluster(v, c, off, piece);
    assert Chain(v.fat[..], q);
    RoundBytes(v.g, v.fat[..], d0, v.disk, q, idx, off, pos, piece);
    RoundOthers(v.g, v.fat[..], d0, v.disk, v.chains, v.chains, q, q, idx);
  }

  lemma RoundBytes(g: Geometry, f: Fat, d: seq<Sector>, e: seq<Sector>, q: seq<nat>, idx: nat, off: nat, pos: nat,
                   piece: seq<byte>)
    requires g.Good(|d|) && |e| == |d| && |f| == g.Clusters() <= MAX_CLUSTERS && Chain(f, q) && InRange(g, q)
             && idx < |q|
    requires off + |piece| <= g.ClusterBytes() && pos == g.Capacity(idx) + off
    requires ClusterData(g, e, q[idx]) == Splice(ClusterData(g, d, q[idx]), off, piece)
    requires forall c | 2 <= c < g.Clusters() && c != q[idx] :: ClusterData(g, e, c) == ClusterData(g, d, c)
    ensures pos + |piece| <= |ChainBytes(g, d, q)| && ChainBytes(g, e, q) == Splice(ChainBytes(g, d, q), pos, piece)
  {
    forall j | 0 <= j < |q| && j != idx ensures ClusterData(g, d, q[j]) == ClusterData(g, e, q[j]) {
      ChainDistinct(f, q, j, idx);
    }
    ChainBytesUpdate(g, d, e, q, idx);
    ChainBytesSlice(g, d, q, idx);
    SpliceInSlice(ChainBytes(g, d, q), g.Capacity(idx), ClusterData(g, d, q[idx]), off, pos, piece);
  }

  lemma RoundOthers(g: Geometry, f: Fat, d: seq<Sector>, e: seq<Sector>, s: set<seq<nat>>, t: set<seq<nat>>,
                    p: seq<nat>, q: seq<nat>, idx: nat)
    requires g.Good(|d|) && |e| == |d| && Represents(f, t) && |f| == g.Clusters()
    requires ChainsOk(g, s)
    requires p in s && q in t && p <= q && p != [] && idx < |q|
    requires forall r | r in s && r != p :: r in t
    requires forall c | 2 <= c < g.Clusters() && c != q[idx] :: ClusterData(g, e, c) == ClusterData(g, d, c)
    ensures OthersKept(g, d, e, s, t, p[0])
  {
    forall r | r in s && !StartsAt(r, p[0]) ensures KeptChain(g, d, e, t, r) {
      assert r in t && r != q && InRange(g, r);
      assert Disjoint(r, q);
    }
  }

  lemma OthersKeptChain(g: Geometry, d: seq<Sector>, e: seq<Sector>, h: seq<Sector>,
                        s: set<seq<nat>>, t: set<seq<nat>>, u: set<seq<nat>>, first: nat)
    requires g.Good(|d|) && |e| == |d| == |h|
    requires OthersKept(g, d, e, s, t, first) && OthersKept(g, e, h, t, u, first)
    ensures OthersKept(g, d, h, s, u, first)
  {
    forall q | q in s && !StartsAt(q, first) ensures KeptChain(g, d, h, u, q) {
      assert KeptChain(g, d, e, t, q) && KeptChain(g, e, h, u, q);
    }
  }

  /** Where the write loop stands after `w` bytes: chain `p0` has become `p`, no longer than needed, and holds the file
      with that much of the buffer written over it; the other chains are as they were. */
  ghost predicate Wrote(g: Geometry, d0: seq<Sector>, d: seq<Sector>, s0: set<seq<nat>>, s: set<seq<nat>>, f0: Fat,
                        f: Fat,
                        p0: seq<nat>, p: seq<nat>, c0: seq<byte>, pos0: nat, buffer: seq<byte>, w: nat)
    requires p0 != []
  {
    && g.Good(|d|) && |d| == |d0| && InRange(g, p) && w <= |buffer| && pos0 <= |c0|
    && Grows(f0, f) && Replaced(s0, s, p0, p) && Traded(f0, f, |p0|, |p|) && OthersKept(g, d0, d, s0, s, p0[0])
    && p0 <= p && (p == p0 || g.Capacity(|p| - 1) < pos0 + w)
    && Overwrite(c0, pos0, buffer[..w]) <= ChainBytes(g, d, p)
  }

  lemma WroteMore(g: Geometry, d0: seq<Sector>, d1: seq<Sector>, d: seq<Sector>, s0: set<seq<nat>>, s1: set<seq<nat>>,
                  s: set<seq<nat>>, f0: Fat, f1: Fat, f: Fat, p0: seq<nat>, p: seq<nat>, q: seq<nat>, c0: seq<byte>,
                  pos0: nat, buffer: seq<byte>, w: nat, n: nat, pos: nat, piece: seq<byte>)
    requires p0 != [] && Wrote(g, d0, d1, s0, s1, f0, f1, p0, p, c0, pos0, buffer, w) && p in s1 && p0 in s0
    requires |d| == |d1| && InRange(g, q) && p <= q && 0 < n && w + n <= |buffer| && pos == pos0 + w
    requires Grows(f1, f) && Replaced(s1, s, p, q) && Traded(f1, f, |p|, |q|) && OthersKept(g, d1, d, s1, s, p0[0])
    requires q == p || (|q| == |p| + 1 && pos == g.Capacity(|p|))
    requires piece == buffer[w..w + n] && pos + |piece| <= |ChainBytes(g, d1, q)|
    requires ChainBytes(g, d, q) == Splice(ChainBytes(g, d1, q), pos, piece)
    requires p == p0 || p !in s0
    ensures Wrote(g, d0, d, s0, s, f0, f, p0, q, c0, pos0, buffer, w + n)
  {
    GrowsTransitive(f0, f1, f);
    OthersKeptChain(g, d0, d1, d, s0, s1, s, p0[0]);
    RoundDone(g, d1, d, p, q, c0, pos0, buffer, w, n, pos, piece);
  }

  /** A chain that grew is none of the old ones. */
  lemma GrownIsNew(f: Fat, s: set<seq<nat>>, t: set<seq<nat>>, g: Fat, p: seq<nat>, q: seq<nat>)
    requires Represents(f, s) && Represents(g, t) && Replaced(s, t, p, q) && p in s && p <= q && p != q
    ensures q !in s
  {
    assert Chain(f, p);
    assert Chain(f, p) && (q in s ==> Disjoint(p, q));
  }

  /** The write loop, on a chain that exists: returns how much of the buffer was written. */
  method WriteChain(v: Volume, first: nat, pos0: nat, buffer: seq<byte>, ghost p0: seq<nat>, ghost c0: seq<byte>)
    returns (written: nat, ghost p: seq<nat>)
    requires v.Valid() && v.HasChain(p0, first)
    requires pos0 <= |c0| && c0 <= ChainBytes(v.g, v.disk, p0)
    modifies v, v.fat, v.tmp
    ensures v.Valid() && v.HasChain(p, first)
    ensures Wrote(v.g, old(v.disk), v.disk, old(v.chains), v.chains, old(v.fat[..]), v.fat[..], p0, p, c0, pos0, buffer,
                  written)
    ensures written < |buffer| ==> Full(v.fat[..]) && pos0 + written == v.g.Capacity(|p|)
  {
    ghost var s0, d0 := v.chains, v.disk;
    ghost var f0: Fat := v.fat[..];
    ghost var f := f0;
    var pos := pos0;
    written, p := 0, p0;
    WroteNothing(v.g, d0, s0, f0, p0, c0, pos0, buffer);
    while written < |buffer|
      invariant v.Valid() && v.HasChain(p, first) && (p == p0 || p !in s0)
      invariant 0 <= written <= |buffer| && pos == pos0 + written
      invariant f == v.fat[..] && Wrote(v.g, d0, v.disk, s0, v.chains, f0, f, p0, p, c0, pos0, buffer, written)
    {
      var ok, n;
      ok, n, p := WriteTurn(v, first, pos, pos0, buffer, written, p, p0, c0, d0, s0, f0);
      f := v.fat[..];
      if !ok {
        break;
      }
      written := written + n;
      pos := pos + n;
    }
  }

  /** One round of the loop, and where it stands then. */
  method WriteTurn(v: Volume, first: nat, pos: nat, ghost pos0: nat, buffer: seq<byte>, written: nat, ghost p: seq<nat>,
                   ghost p0: seq<nat>, ghost c0: seq<byte>, ghost d0: seq<Sector>, ghost s0: set<seq<nat>>,
                   ghost f0: Fat)
    returns (ok: bool, n: nat, ghost q: seq<nat>)
    requires v.Valid() && v.HasChain(p, first) && (p == p0 || p !in s0) && written < |buffer| && pos == pos0 + written
    requires p0 in s0 && p0 != [] && p0[0] == first && Represents(f0, s0)
    requires Wrote(v.g, d0, v.disk, s0, v.chains, f0, v.fat[..], p0, p, c0, pos0, buffer, written)
    modifies v, v.fat, v.tmp
    ensures v.Valid() && v.HasChain(q, first) && (q == p0 || q !in s0)
    ensures if ok then 0 < n && written + n <= |buffer|
            else n == 0 && Full(v.fat[..]) && pos == v.g.Capacity(|q|)
    ensures Wrote(v.g, d0, v.disk, s0, v.chains, f0, v.fat[..], p0, q, c0, pos0, buffer, written + n)
  {
    ghost var s1, d1 := v.chains, v.disk;
    ghost var f1: Fat := v.fat[..];
    assert pos <= |Overwrite(c0, pos0, buffer[..written])| <= |ChainBytes(v.g, v.disk, p)|;
    ghost var piece;
    ok, n, q, piece := WriteRound(v, first, pos, buffer, written, p);
    if !ok {
      return false, 0, p;
    }
    ghost var f: Fat := v.fat[..];
    WroteMore(v.g, d0, d1, v.disk, s0, s1, v.chains, f0, f1, f, p0, p, q, c0, pos0, buffer, written, n, pos, piece);
    if q != p0 {
      GrownIsNew(f0, s0, v.chains, f, p0, q);
    }
  }

  lemma WroteNothing(g: Geometry, d: seq<Sector>, s: set<seq<nat>>, f: Fat, p: seq<nat>, c: seq<byte>, pos: nat,
                     buffer: seq<byte>)
    requires g.Good(|d|) && |f| == g.Clusters() && Represents(f, s) && p in s && InRange(g, p) && p != []
    requires pos <= |c| && c <= ChainBytes(g, d, p)
    ensures Wrote(g, d, d, s, s, f, f, p, p, c, pos, buffer, 0)
  {
    ChainsInRange(g, |d|, f, s);
    AllKeptBut(g, d, s, p[0]);
    assert Overwrite(c, pos, buffer[..0]) == c;
    assert s == s - {p} + {p};
  }

  lemma AllKeptBut(g: Geometry, d: seq<Sector>, s: set<seq<nat>>, first: nat)
    requires g.Good(|d|) && ChainsOk(g, s)
    ensures OthersKept(g, d, d, s, s, first)
  {
    forall q | q in s && !StartsAt(q, first) ensures KeptChain(g, d, d, s, q) {
      assert InRange(g, q);
    }
  }

  /** The chain of a file, which is empty while the file has no cluster. */
  ghost function ChainOf(s: set<seq<nat>>, first: nat): seq<nat>
    requires first < 2 || IsHead(s, first)
  {
    if first < 2 then [] else ChainFrom(s, first)
  }

  /** How many bytes the file can hold once it has all free clusters. */
  ghost function MostBytes(v: Volume, f: OpenFile): nat
    requires FileOk(v, f)
    reads v, v.fat, f
  {
    v.g.Capacity(|ChainOf(v.chains, f.first)| + FreeCount(v.fat[..]))
  }

  /** Writing `n` bytes does not take the position past the 32 bits it has, because the write ends before or because the
      volume does. */
  ghost predicate InLimit(v: Volume, f: OpenFile, n: nat)
    requires FileOk(v, f)
    reads v, v.fat, f
  {
    f.pos + n < 0x1_0000_0000 || MostBytes(v, f) < 0x1_0000_0000
  }

  /** Chain `p` became chain `q`, taking from the free clusters no more than a file that ends at `end` needs. */
  ghost predicate Lengthened(g: Geometry, f: Fat, h: Fat, s: set<seq<nat>>, t: set<seq<nat>>, p: seq<nat>, q: seq<nat>,
                             end: nat)
  {
    && Replaced(s, t, p, q) && Traded(f, h, |p|, |q|) && p <= q
    && (p == q || g.Capacity(|q| - 1) < end)
  }

  /** Give a file that has no cluster its first one. */
  method EnsureFirst(v: Volume, f: OpenFile) returns (ok: bool)
    requires FileOk(v, f)
    modifies v`chains, v.fat, f`first
    ensures FileOk(v, f) && old(v.chains) <= v.chains && Contents(v, f) == old(Contents(v, f))
    ensures Grows(old(v.fat[..]), v.fat[..])
    ensures ok <==> old(f.first) >= 2 || !Full(old(v.fat[..]))
    ensures ok ==> f.first >= 2 && MostBytes(v, f) == old(MostBytes(v, f))
    ensures ok ==> FirstThere(old(v.fat[..]), v.fat[..], old(v.chains), v.chains, old(ChainOf(v.chains, f.first)),
                              ChainFrom(v.chains, f.first))
    ensures !ok || old(f.first) >= 2 ==>
      v.fat[..] == old(v.fat[..]) && v.chains == old(v.chains) && f.first == old(f.first)
    ensures ok && old(f.first) < 2 ==>
      f.first < v.fat.Length && Free(old(v.fat[..]), f.first) && forall q | q in old(v.chains) :: f.first !in q
  {
    ChainsInRange(v.g, |v.disk|, v.fat[..], v.chains);
    ghost var s0 := v.chains;
    assert [] in s0 ==> Chain(v.fat[..], []);
    if f.first < 2 {
      var first := v.AllocCluster();
      if first == 0 {
        return false;
      }
      ChainFromIs(v.fat[..], v.chains, [first]);
      f.first := first;
      assert first in [first];
    } else {
      assert v.chains == v.chains - {ChainFrom(v.chains, f.first)} + {ChainFrom(v.chains, f.first)};
    }
    ok := true;
  }

  /** The file has its chain `p0`, or got a first cluster. */
  ghost predicate FirstThere(f0: Fat, f: Fat, s0: set<seq<nat>>, s: set<seq<nat>>, p0: seq<nat>, p: seq<nat>) {
    && Replaced(s0, s, p0, p) && Traded(f0, f, |p0|, |p|)
    && (p == p0 || (p0 == [] && |p| == 1 && p !in s0))
  }

  /** How far a write gets: up to where the file has every cluster that was free. */
  lemma WriteAmount(g: Geometry, f: Fat, h: Fat, m: nat, n: nat, pos: nat, len: nat, w: nat)
    requires Traded(f, h, m, n) && w <= len && pos + w <= g.Capacity(n)
    requires w < len ==> Full(h) && pos + w == g.Capacity(n)
    ensures w == if pos + len <= g.Capacity(m + FreeCount(f)) then len else g.Capacity(m + FreeCount(f)) - pos
  {
    FullExactly(h);
    CapacityGrows(g, n, m + FreeCount(f));
  }

  /** `fat32_write`, once the file has a cluster. */
  method WriteFrom(v: Volume, f: OpenFile, buffer: seq<byte>) returns (written: nat)
    requires FileOk(v, f) && f.first >= 2
    modifies v, v.fat, v.tmp, f`pos, f`size
    ensures FileOk(v, f) && |v.disk| == |old(v.disk)| && Grows(old(v.fat[..]), v.fat[..]) && v.Synced()
    ensures written == if old(f.pos) + |buffer| <= old(MostBytes(v, f)) then |buffer|
                       else old(MostBytes(v, f)) - old(f.pos)
    ensures f.pos == old(f.pos) + written
    ensures Contents(v, f) == Overwrite(old(Contents(v, f)), old(f.pos), buffer[..written])
    ensures Lengthened(v.g, old(v.fat[..]), v.fat[..], old(v.chains), v.chains, old(ChainFrom(v.chains, f.first)),
                       ChainFrom(v.chains, f.first), f.pos)
    ensures OthersKept(v.g, old(v.disk), v.disk, old(v.chains), v.chains, f.first)
  {
    ghost var f0, c0, p := v.fat[..], Contents(v, f), ChainFrom(v.chains, f.first);
    ChainsInRange(v.g, |v.disk|, v.fat[..], v.chains);
    ghost var q;
    written, q := WriteAndFlush(v, f.first, f.pos, buffer, p, c0);
    var pos := f.pos + written;
    f.pos := pos;
    if pos > f.size {
      f.size := pos;
    }
    WriteAmount(v.g, f0, v.fat[..], |p|, |q|, old(f.pos), |buffer|, written);
    WriteResult(v.g, v.fat[..], v.chains, v.disk, q, c0, old(f.pos), buffer[..written], f.first, f.size);
  }

  /** The loop and the flush. */
  method WriteAndFlush(v: Volume, first: nat, pos: nat, buffer: seq<byte>, ghost p: seq<nat>, ghost c0: seq<byte>)
    returns (written: nat, ghost q: seq<nat>)
    requires v.Valid() && v.HasChain(p, first) && pos <= |c0| && c0 <= ChainBytes(v.g, v.disk, p)
    modifies v, v.fat, v.tmp
    ensures v.Valid() && v.HasChain(q, first) && v.Synced()
    ensures Wrote(v.g, old(v.disk), v.disk, old(v.chains), v.chains, old(v.fat[..]), v.fat[..], p, q, c0, pos, buffer,
                  written)
    ensures written < |buffer| ==> Full(v.fat[..]) && pos + written == v.g.Capacity(|q|)
  {
    ghost var d0, s0 := v.disk, v.chains;
    written, q := WriteChain(v, first, pos, buffer, p, c0);
    ghost var d1 := v.disk;
    v.FlushFat();
    KeptAfterFlush(v.g, d0, d1, v.disk, s0, v.chains, first);
    SameDataSameBytes(v.g, d1, v.disk, q);
  }

  lemma KeptAfterFlush(g: Geometry, d: seq<Sector>, d1: seq<Sector>, e: seq<Sector>, s: set<seq<nat>>, t: set<seq<nat>>,
                       first: nat)
    requires g.Good(|d|) && |e| == |d1| == |d| && OthersKept(g, d, d1, s, t, first)
    requires forall c | 2 <= c < g.Clusters() :: ClusterData(g, e, c) == ClusterData(g, d1, c)
    ensures OthersKept(g, d, e, s, t, first)
  {
    forall q | q in s && !StartsAt(q, first) ensures KeptChain(g, d, e, t, q) {
      assert KeptChain(g, d, d1, t, q);
    }
  }

  /** `fat32_write`: the bytes at the position become a prefix of the buffer, the rest of the file and every other
      chain stay. The write stops short exactly where the file has all clusters that were free, and takes no cluster it
      does not need. */
  method Write(v: Volume, f: OpenFile, buffer: seq<byte>) returns (r: int)
    requires FileOk(v, f) && InLimit(v, f, |buffer|)
    modifies v, v.fat, v.tmp, f
    ensures FileOk(v, f) && |v.disk| == |old(v.disk)|
    ensures Grows(old(v.fat[..]), v.fat[..])
    ensures r == if buffer == [] || (old(f.first) < 2 && Full(old(v.fat[..]))) then -1
                 else if old(f.pos) + |buffer| <= old(MostBytes(v, f)) then |buffer|
                 else old(MostBytes(v, f)) - old(f.pos)
    ensures r == -1 ==> v.fat[..] == old(v.fat[..]) && v.disk == old(v.disk) && v.chains == old(v.chains)
                        && f.first == old(f.first) && f.size == old(f.size) && f.pos == old(f.pos)
    ensures r != -1 ==> 0 <= r <= |buffer| && f.pos == old(f.pos) + r
    ensures r != -1 ==> Contents(v, f) == Overwrite(old(Contents(v, f)), old(f.pos), buffer[..r])
    ensures r != -1 ==>
      Lengthened(v.g, old(v.fat[..]), v.fat[..], old(v.chains), v.chains, old(ChainOf(v.chains, f.first)),
                 ChainOf(v.chains, f.first), f.pos)
    ensures r != -1 ==> v.Synced()
    ensures old(f.first) >= 2 ==> f.first == old(f.first)
    ensures old(f.first) < 2 && r != -1 ==> 2 <= f.first < v.fat.Length && Free(old(v.fat[..]), f.first)
    ensures OthersKept(v.g, old(v.disk), v.disk, old(v.chains), v.chains, old(f.first))
  {
    ghost var s0, d0, f0, p0 := v.chains, v.disk, v.fat[..], ChainOf(v.chains, f.first);
    ChainsInRange(v.g, |v.disk|, v.fat[..], v.chains);
    AllKeptBut(v.g, d0, s0, f.first);
    if |buffer| == 0 {
      return -1;
    }
    var ok := EnsureFirst(v, f);
    if !ok {
      return -1;
    }
    ghost var s1, f1, p1 := v.chains, v.fat[..], ChainFrom(v.chains, f.first);
    var written := WriteFrom(v, f, buffer);
    GrowsTransitive(f0, f1, v.fat[..]);
    LengthenedTwice(v.g, f0, f1, v.fat[..], s0, s1, v.chains, p0, p1, ChainFrom(v.chains, f.first), f.pos);
    KeptFromBefore(v.g, d0, v.disk, s0, s1, v.chains, old(f.first), f.first);
    r := written;
  }

  lemma LengthenedTwice(g: Geometry, f0: Fat, f1: Fat, f: Fat, s0: set<seq<nat>>, s1: set<seq<nat>>, s: set<seq<nat>>,
                        p0: seq<nat>, p1: seq<nat>, q: seq<nat>, end: nat)
    requires 0 < end && Lengthened(g, f1, f, s1, s, p1, q, end) && FirstThere(f0, f1, s0, s1, p0, p1)
    ensures Lengthened(g, f0, f, s0, s, p0, q, end)
  {
  }

  /** What the loop leaves behind, read as a file of the new size. */
  lemma WriteResult(g: Geometry, f: Fat, s: set<seq<nat>>, d: seq<Sector>, q: seq<nat>, c0: seq<byte>, pos0: nat,
                    x: seq<byte>, first: nat, size: nat)
    requires g.Good(|d|) && Represents(f, s) && |f| == g.Clusters() && q in s && pos0 <= |c0|
    requires InRange(g, q) && Overwrite(c0, pos0, x) <= ChainBytes(g, d, q)
    requires q != [] && q[0] == first && size == if pos0 + |x| <= |c0| then |c0| else pos0 + |x|
    ensures ChainsOk(g, s) && Extent(g, s, first, size) && ChainFrom(s, first) == q
    ensures FileBytes(g, d, s, first, size) == Overwrite(c0, pos0, x)
  {
    ChainsInRange(g, |d|, f, s);
    ChainFromIs(f, s, q);
  }

  lemma KeptFromBefore(g: Geometry, d: seq<Sector>, e: seq<Sector>, s0: set<seq<nat>>, s1: set<seq<nat>>,
                       t: set<seq<nat>>, was: nat, first: nat)
    requires g.Good(|d|) && |e| == |d| && s0 <= s1 && (was == first || forall p | p in s0 :: first !in p)
    requires OthersKept(g, d, e, s1, t, first)
    ensures OthersKept(g, d, e, s0, t, was)
  {
    forall q | q in s0 && !StartsAt(q, was) ensures KeptChain(g, d, e, t, q) {
      assert q in s1;
    }
  }

  // ---- fat32_read ----

  /** Follow `idx` links from `first` within its chain. */
  method SkipTo(v: Volume, first: nat, idx: nat, ghost p: seq<nat>) returns (cur: nat)
    requires v.Valid() && v.HasChain(p, first) && idx < |p|
    ensures cur == p[idx]
  {
    cur := first;
    assert Chain(v.fat[..], p);
    var i := 0;
    while i < idx
      invariant 0 <= i <= idx && cur == p[i]
    {
      assert Next(v.fat[..], p[i]) == p[i + 1];
      cur := v.fat[cur] % 0x1000_0000;
      i := i + 1;
    }
  }

  lemma ReadStep(g: Geometry, d: seq<Sector>, p: seq<nat>, k: nat, off: nat, n: nat, at: nat, at': nat)
    requires g.Good(|d|) && InRange(g, p) && k < |p| && off + n <= g.ClusterBytes() && at == g.Capacity(k) + off
             && at' == at + n
    ensures at' <= |ChainBytes(g, d, p)|
    ensures ClusterData(g, d, p[k])[off..off + n] == ChainBytes(g, d, p)[at..at']
  {
    ChainBytesSlice(g, d, p, k);
    var b, x, base := ChainBytes(g, d, p), ClusterData(g, d, p[k]), g.Capacity(k);
    assert b[base..base + g.ClusterBytes()] == x;
    assert b[at..at'] == b[base..base + g.ClusterBytes()][off..off + n];
  }

  /** One more piece copied out: the buffer now starts with a longer slice of `b`. */
  lemma CopiedOut(buf0: seq<byte>, was: seq<byte>, now: seq<byte>, b: seq<byte>, pos: nat, at: nat, at': nat, done: nat,
                  piece: seq<byte>)
    requires pos <= at <= at' <= |b| && done == at - pos && at' - pos <= |buf0|
    requires was == Splice(buf0, 0, b[pos..at]) && piece == b[at..at'] && now == Splice(was, done, piece)
    ensures now == Splice(buf0, 0, b[pos..at'])
  {
  }

  lemma SubSlice(s: seq<byte>, n: nat, a: nat, b: nat)
    requires a <= b <= n <= |s|
    ensures s[..n][a..b] == s[a..b]
  {
  }

  /** Read one cluster and copy part of it out. */
  method CopyOut(v: Volume, c: nat, off: nat, m: nat, buffer: array<byte>, done: nat)
    requires v.Valid() && 2 <= c < v.g.Clusters() && off + m <= v.g.ClusterBytes() && done + m <= buffer.Length
    requires buffer != v.wbuf && buffer as object != v.fat
    modifies buffer, v.wbuf
    ensures v.Valid() && buffer[..] == Splice(old(buffer[..]), done, ClusterData(v.g, v.disk, c)[off..off + m])
  {
    var csize := v.g.ClusterBytes();
    v.ReadCluster(c, v.wbuf);
    SubSlice(v.wbuf[..], csize, off, off + m);
    Memcpy(buffer, done, v.wbuf[off..off + m]);
  }

  /** The read loop, from cluster `k0` of chain `p` at `offset0`. */
  method ReadLoop(v: Volume, ghost first: nat, cur0: nat, offset0: nat, n: nat, buffer: array<byte>,
                  ghost p: seq<nat>, ghost k0: nat, ghost pos: nat) returns (done: nat)
    requires v.Valid() && v.HasChain(p, first) && k0 < |p| && cur0 == p[k0]
    requires offset0 < v.g.ClusterBytes() && pos == v.g.Capacity(k0) + offset0
    requires pos + n <= |ChainBytes(v.g, v.disk, p)| && n <= buffer.Length
    requires buffer != v.wbuf && buffer as object != v.fat
    modifies buffer, v.wbuf
    ensures v.Valid() && done == n && Copied(buffer[..], old(buffer[..]), ChainBytes(v.g, v.disk, p), pos, pos + n)
  {
    ghost var b, k: nat, buf0, f := ChainBytes(v.g, v.disk, p), k0, buffer[..], v.fat[..];
    var cur: nat, offset: nat := cur0, offset0;
    var csize := v.g.ClusterBytes();
    ghost var at: nat := pos;
    done := 0;
    assert Chain(f, p);
    while cur < EOC_MIN && done < n
      invariant 0 <= done <= n && k <= |p| && v.Valid() && v.fat[..] == f
      invariant if k < |p| then cur == p[k] else cur >= EOC_MIN
      invariant done < n ==> k < |p| && offset < csize && at == v.g.Capacity(k) + offset
      invariant at == pos + done && Copied(buffer[..], buf0, b, pos, at)
      decreases n - done
    {
      var m, next := ReadTurn(v, cur, offset, n, buffer, done, p, k, pos, at, buf0, b);
      assert v.fat[..] == f;
      at, done, offset, cur, k := at + m, done + m, 0, next, k + 1;
    }
  }

  /** The buffer starts with the bytes `b[pos..at]`, and is as it was after them. */
  ghost predicate Copied(now: seq<byte>, buf0: seq<byte>, b: seq<byte>, pos: nat, at: nat) {
    pos <= at <= |b| && at - pos <= |buf0| && now == Splice(buf0, 0, b[pos..at])
  }

  /** Copy out of one cluster and take the link to the next. */
  method ReadTurn(v: Volume, cur: nat, offset: nat, n: nat, buffer: array<byte>, done: nat, ghost p: seq<nat>,
                  ghost k: nat, ghost pos: nat, ghost at: nat, ghost buf0: seq<byte>, ghost b: seq<byte>)
    returns (m: nat, next: nat)
    requires v.Valid() && Chain(v.fat[..], p) && InRange(v.g, p) && k < |p| && cur == p[k]
             && offset < v.g.ClusterBytes()
    requires done < n && at == v.g.Capacity(k) + offset == pos + done && pos + n <= |b|
             && b == ChainBytes(v.g, v.disk, p)
    requires n <= buffer.Length == |buf0| && buffer != v.wbuf && buffer as object != v.fat
    requires Copied(buffer[..], buf0, b, pos, at)
    modifies buffer, v.wbuf
    ensures v.Valid() && v.fat[..] == old(v.fat[..]) && 0 < m <= n - done
    ensures done + m < n ==> m == v.g.ClusterBytes() - offset
    ensures Copied(buffer[..], buf0, b, pos, at + m)
    ensures if k + 1 < |p| then next == p[k + 1] else next >= EOC_MIN
    ensures done + m < n ==> k + 1 < |p| && at + m == v.g.Capacity(k + 1)
  {
    ghost var was := buffer[..];
    m := v.g.ClusterBytes() - offset;
    m := if m + done > n then n - done else m;
    CopyOut(v, cur, offset, m, buffer, done);
    ReadStep(v.g, v.disk, p, k, offset, m, at, at + m);
    CopiedOut(buf0, was, buffer[..], b, pos, at, at + m, done, b[at..at + m]);
    assert k < |p| - 1 ==> Next(v.fat[..], p[k]) == p[k + 1];
    next := v.fat[cur] % 0x1000_0000;
  }

  lemma SliceOfPrefix(b: seq<byte>, m: nat, i: nat, j: nat)
    requires i <= j <= m <= |b|
    ensures b[..m][i..j] == b[i..j]
  {
  }

  /** `fat32_read`: the slice of the file at the position, cut at its end; at the end of the file -1. */
  method Read(v: Volume, f: OpenFile, buffer: array<byte>, count: nat) returns (r: int)
    requires FileOk(v, f) && count <= buffer.Length
    requires buffer != v.wbuf && buffer as object != v.fat
    modifies f`pos, buffer, v.wbuf
    ensures FileOk(v, f) && v.fat[..] == old(v.fat[..])
    ensures old(f.pos) >= f.size ==> r == -1 && f.pos == old(f.pos) && buffer[..] == old(buffer[..])
    ensures old(f.pos) < f.size ==> r == (if old(f.pos) + count > f.size then f.size - old(f.pos) else count)
                                    && f.pos == old(f.pos) + r
                                    && buffer[..] == Splice(old(buffer[..]), 0, Contents(v, f)[old(f.pos)..f.pos])
  {
    if f.pos >= f.size {
      return -1;
    }
    ghost var p, pos, c := ChainFrom(v.chains, f.first), f.pos, Contents(v, f);
    ChainsInRange(v.g, |v.disk|, v.fat[..], v.chains);
    var n := if f.pos + count > f.size then f.size - f.pos else count;
    var skipped, offset := SkippedClusters(v.g, f.pos, |p|);
    var cur := SkipTo(v, f.first, skipped, p);
    r := ReadLoop(v, f.first, cur, offset, n, buffer, p, skipped, f.pos);
    SliceOfPrefix(ChainBytes(v.g, v.disk, p), f.size, pos, pos + n);
    f.pos := f.pos + r;
  }
}
