/** The file allocation table as a value, and the theory of its cluster chains.

    The table is a sequence of 32-bit entries of which only the low 28 bits count
    (FAT32 File System Specification, section "FAT Data Structure").  Everything the
    driver needs from it is stated here once, on values; `Volume` ties its array to it. */
module FatChains {

  type Fat = seq<nat>

  const EOC_MIN: nat := 0x0FFF_FFF8     // at or above this an entry ends a chain
  const EOC: nat := 0x0FFF_FFFF         // what the driver writes to end a chain
  const MAX_CLUSTERS: nat := 0x0FFF_FFF0

  /** Entries are read `& 0x0FFFFFFF`. */
  function Next(f: Fat, c: nat): nat
    requires c < |f|
  {
    f[c] % 0x1000_0000
  }

  predicate Free(f: Fat, c: nat)
    requires c < |f|
  {
    Next(f, c) == 0
  }

  predicate Last(f: Fat, c: nat)
    requires c < |f|
  {
    Next(f, c) >= EOC_MIN
  }

  /** How many clusters are free. */
  ghost function FreeCount(f: Fat): nat { |FreeSet(f)| }

  ghost function FreeSet(f: Fat): set<nat> {
    set c | 2 <= c < |f| && Free(f, c)
  }

  ghost predicate Full(f: Fat) {
    forall c | 2 <= c < |f| :: !Free(f, c)
  }

  lemma FullExactly(f: Fat)
    ensures Full(f) <==> FreeCount(f) == 0
  {
    if Full(f) {
      assert FreeSet(f) == {};
    } else {
      var c :| 2 <= c < |f| && Free(f, c);
      assert c in FreeSet(f);
    }
  }

  /** Taking a free cluster, and possibly linking a taken one to it, leaves one fewer. */
  lemma OneTaken(f: Fat, g: Fat, n: nat)
    requires |g| == |f| && 2 <= n < |f| && Free(f, n) && !Free(g, n)
    requires forall c | 2 <= c < |f| && c != n :: Free(g, c) <==> Free(f, c)
    ensures FreeCount(g) == FreeCount(f) - 1
  {
    assert FreeSet(f) == FreeSet(g) + {n};
  }

  /** `p` lists, in order, the clusters of one complete chain of `f`. */
  ghost predicate Chain(f: Fat, p: seq<nat>) {
    && p != []
    && (forall k | 0 <= k < |p| :: 2 <= p[k] < |f|)
    && (forall k {:trigger Next(f, p[k])} | 0 <= k < |p| - 1 :: Next(f, p[k]) == p[k + 1])
    && Last(f, p[|p| - 1])
  }

  ghost predicate Disjoint(p: seq<nat>, q: seq<nat>) {
    forall i, j | 0 <= i < |p| && 0 <= j < |q| :: p[i] != q[j]
  }

  /** The table is exactly the set `s` of pairwise disjoint chains. */
  ghost predicate Represents(f: Fat, s: set<seq<nat>>) {
    && 2 < |f| <= MAX_CLUSTERS
    && (forall p {:trigger Chain(f, p)} | p in s :: Chain(f, p))
    && (forall p, q {:trigger Disjoint(p, q)} | p in s && q in s && p != q :: Disjoint(p, q))
    && (forall c {:trigger Covered(s, c)} | 2 <= c < |f| && !Free(f, c) :: Covered(s, c))
  }

  ghost predicate Covered(s: set<seq<nat>>, c: nat) {
    exists p :: p in s && c in p
  }

  /** What a run may do to a table: an allocated entry stays allocated, and an entry changes only
      if it was free or ended a chain, and then it links only to a cluster that was free. */
  ghost predicate Grows(f: Fat, g: Fat) {
    |f| == |g| && forall c {:trigger GrowsAt(f, g, c)} | 2 <= c < |f| :: GrowsAt(f, g, c)
  }

  ghost predicate GrowsAt(f: Fat, g: Fat, c: nat)
    requires c < |f| == |g|
  {
    (!Free(f, c) ==> !Free(g, c)) && (g[c] == f[c] || Extended(f, g, c))
  }

  ghost predicate Extended(f: Fat, g: Fat, c: nat)
    requires c < |f| == |g|
  {
    && (Free(f, c) || Last(f, c))
    && (Free(g, c) || Last(g, c) || (2 <= Next(g, c) < |f| && Free(f, Next(g, c))))
  }

  lemma GrowsTransitive(f: Fat, g: Fat, h: Fat)
    requires Grows(f, g) && Grows(g, h)
    ensures Grows(f, h)
  {
    forall c | 2 <= c < |f| ensures GrowsAt(f, h, c) {
      assert GrowsAt(f, g, c) && GrowsAt(g, h, c);
      if g[c] != h[c] && 2 <= Next(h, c) < |f| {
        assert GrowsAt(f, g, Next(h, c));
      }
    }
  }

  /** Following links from a cluster is deterministic: there is one chain per first cluster. */
  lemma {:induction false} ChainUnique(f: Fat, p: seq<nat>, q: seq<nat>)
    requires |f| <= MAX_CLUSTERS
    requires Chain(f, p) && Chain(f, q) && p[0] == q[0]
    ensures p == q
    decreases |p|
  {
    assert |p| > 1 ==> Next(f, p[0]) == p[1];
    assert |q| > 1 ==> Next(f, q[0]) == q[1];
    if |p| > 1 && |q| > 1 {
      ChainTail(f, p);
      ChainTail(f, q);
      ChainUnique(f, p[1..], q[1..]);
      assert p == [p[0]] + p[1..] && q == [q[0]] + q[1..];
    }
  }

  lemma ChainTail(f: Fat, p: seq<nat>)
    requires Chain(f, p) && |p| > 1
    ensures Chain(f, p[1..])
  {
    var t := p[1..];
    forall k | 0 <= k < |t| - 1 ensures Next(f, t[k]) == t[k + 1] {
      assert Next(f, p[k + 1]) == p[k + 2];
    }
  }

  lemma {:induction false} ChainSuffix(f: Fat, p: seq<nat>, i: nat)
    requires Chain(f, p) && i < |p|
    ensures Chain(f, p[i..])
    decreases i
  {
    if i == 0 {
      assert p[0..] == p;
    } else {
      ChainTail(f, p);
      ChainSuffix(f, p[1..], i - 1);
      assert p[1..][i - 1..] == p[i..];
    }
  }

  /** Chains are acyclic: no cluster occurs twice. */
  lemma ChainDistinct(f: Fat, p: seq<nat>, i: nat, j: nat)
    requires |f| <= MAX_CLUSTERS && Chain(f, p) && i < |p| && j < |p|
    ensures p[i] == p[j] <==> i == j
  {
    ChainSuffix(f, p, i);
    ChainSuffix(f, p, j);
    if p[i] == p[j] {
      ChainUnique(f, p[i..], p[j..]);
    }
  }

  /** A cluster lies in at most one chain, at one place. */
  lemma SameCluster(f: Fat, s: set<seq<nat>>, p: seq<nat>, i: nat, q: seq<nat>, j: nat)
    requires Represents(f, s) && p in s && q in s && i < |p| && j < |q| && p[i] == q[j]
    ensures p == q && i == j
  {
    assert p != q ==> Disjoint(p, q);
    assert Chain(f, p);
    ChainDistinct(f, p, i, j);
  }

  lemma ChainAllocated(f: Fat, p: seq<nat>, i: nat)
    requires |f| <= MAX_CLUSTERS && Chain(f, p) && i < |p|
    ensures !Free(f, p[i])
    ensures i < |p| - 1 ==> !Last(f, p[i])
  {
    if i < |p| - 1 {
      assert Next(f, p[i]) == p[i + 1];
    }
  }

  /** An entry is free, or marks the end of a chain, by its low 28 bits. */
  lemma EntryMarks(f: Fat, c: nat)
    requires c < |f|
    ensures Free(f, c) <==> f[c] as int % 0x1000_0000 == 0
    ensures Last(f, c) <==> f[c] as int % 0x1000_0000 >= 0x0FFF_FFF8
  {
  }

  /** Entry by entry: the low 28 bits of each name the next cluster, and those of the last mark the end. */
  lemma ChainEntries(f: Fat, p: seq<nat>, i: nat)
    requires |f| <= MAX_CLUSTERS && Chain(f, p) && i < |p|
    ensures var low := f[p[i]] as int % 0x1000_0000; if i < |p| - 1 then low == p[i + 1] else low >= 0x0FFF_FFF8
  {
    if i < |p| - 1 {
      assert Next(f, p[i]) == p[i + 1];
    }
  }

  /** A chain whose entries do not change is still a chain. */
  lemma ChainKept(f: Fat, g: Fat, p: seq<nat>)
    requires Chain(f, p) && |g| == |f| && forall k | 0 <= k < |p| :: g[p[k]] == f[p[k]]
    ensures Chain(g, p)
  {
    forall k | 0 <= k < |p| - 1 ensures Next(g, p[k]) == p[k + 1] {
      assert Next(f, p[k]) == p[k + 1];
    }
  }

  /** Marking a free cluster as the end of a chain adds a one-cluster chain. */
  lemma AllocateChain(f: Fat, s: set<seq<nat>>, n: nat)
    requires Represents(f, s) && 2 <= n < |f| && Free(f, n)
    ensures Represents(f[n := EOC], s + {[n]})
    ensures Grows(f, f[n := EOC])
    ensures forall p | p in s :: n !in p
  {
    var g, t := f[n := EOC], s + {[n]};
    assert Chain(g, [n]);
    forall p | p in s ensures Chain(g, p) && n !in p {
      forall i | 0 <= i < |p| ensures p[i] != n {
        ChainAllocated(f, p, i);
      }
      ChainKept(f, g, p);
    }
    forall c | 2 <= c < |g| && !Free(g, c) ensures Covered(t, c) {
      if c == n {
        assert [n] in t && n in [n];
      } else {
        assert Covered(s, c);
        var p :| p in s && c in p;
        assert p in t;
      }
    }
    forall c | 2 <= c < |f| ensures GrowsAt(f, g, c) {
      assert c != n ==> g[c] == f[c];
    }
  }

  /** Linking the last cluster of one chain to a fresh one-cluster chain joins the two. */
  lemma LinkChain(f: Fat, s: set<seq<nat>>, p: seq<nat>, n: nat)
    requires Represents(f, s) && p in s && p != [] && [n] in s && p != [n]
    ensures p[|p| - 1] < |f|
    ensures Represents(f[p[|p| - 1] := n], s - {p, [n]} + {p + [n]})
  {
    assert Chain(f, [n]) && Chain(f, p);
    var last := p[|p| - 1];
    var g, t := f[last := n], s - {p, [n]} + {p + [n]};
    assert Disjoint(p, [n]);
    LinkedChain(f, p, n);
    forall q | q in t && q != p + [n] ensures Chain(g, q) && Disjoint(q, p + [n]) && Disjoint(p + [n], q) {
      assert q in s && q != p && q != [n];
      assert Disjoint(q, p) && Disjoint(q, [n]);
      assert last !in q;
      ChainKept(f, g, q);
    }
    forall c | 2 <= c < |g| && !Free(g, c) ensures Covered(t, c) {
      if c == last || c == n {
        assert p + [n] in t && c in p + [n];
      } else {
        assert Covered(s, c);
        var q :| q in s && c in q;
        if q == p {
          assert p + [n] in t && c in p + [n];
        } else {
          assert q in t;
        }
      }
    }
  }

  lemma LinkedChain(f: Fat, p: seq<nat>, n: nat)
    requires |f| <= MAX_CLUSTERS && Chain(f, p) && Chain(f, [n]) && n !in p
    ensures Chain(f[p[|p| - 1] := n], p + [n])
  {
    var last, m := p[|p| - 1], |p| - 1;
    var g, q := f[last := n], p + [n];
    forall k | 0 <= k < |q| - 1 ensures Next(g, q[k]) == q[k + 1] {
      if k < m {
        ChainDistinct(f, p, k, m);
        assert Next(f, p[k]) == p[k + 1];
      }
    }
  }

  /** Allocating a cluster and linking the end of chain `p` to it lengthens that one chain. */
  lemma ExtendRepresents(f: Fat, s: set<seq<nat>>, p: seq<nat>, n: nat)
    requires Represents(f, s) && p in s && p != [] && 2 <= n < |f| && Free(f, n)
    ensures p[|p| - 1] < |f| && n !in p
    ensures Represents(f[n := EOC][p[|p| - 1] := n], s - {p} + {p + [n]})
    ensures Grows(f, f[n := EOC][p[|p| - 1] := n])
  {
    AllocateChain(f, s, n);
    LinkChain(f[n := EOC], s + {[n]}, p, n);
    SameSet(s, p, n);
    ExtendGrows(f, p, n);
  }

  lemma SameSet(s: set<seq<nat>>, p: seq<nat>, n: nat)
    requires forall q | q in s :: n !in q
    ensures s + {[n]} - {p, [n]} + {p + [n]} == s - {p} + {p + [n]}
  {
    assert n in [n];
    assert [n] !in s;
  }

  lemma ExtendGrows(f: Fat, p: seq<nat>, n: nat)
    requires |f| <= MAX_CLUSTERS && Chain(f, p) && 2 <= n < |f| && Free(f, n)
    ensures Grows(f, f[n := EOC][p[|p| - 1] := n])
  {
    var last, g := p[|p| - 1], f[n := EOC][p[|p| - 1] := n];
    assert Last(f, last) && last != n;
    forall c | 2 <= c < |f| ensures GrowsAt(f, g, c) {
      assert c != last && c != n ==> g[c] == f[c];
    }
  }

  /** A table cannot lose, reroute or merge old chains by growing: each old chain is a prefix of
      one chain of the grown table, and everything after the prefix was free before. */
  lemma GrowsExtends(f: Fat, s: set<seq<nat>>, g: Fat, t: set<seq<nat>>, p: seq<nat>) returns (q: seq<nat>)
    requires Represents(f, s) && Represents(g, t) && Grows(f, g) && p in s
    ensures q in t && Chain(g, q) && p <= q
    ensures forall k | |p| <= k < |q| :: Free(f, q[k])
  {
    assert Chain(f, p);
    ChainAllocated(f, p, 0);
    assert GrowsAt(f, g, p[0]) && Covered(t, p[0]);
    q :| q in t && p[0] in q;
    assert Chain(g, q);
    var i :| 0 <= i < |q| && q[i] == p[0];
    HeadStays(f, s, g, p, q, i);
    PrefixStep(f, g, p, q, |p| - 1);
    assert q[..|p|] == p;
    forall k | |p| <= k < |q| ensures Free(f, q[k]) {
      TailFresh(f, g, p, q, k);
    }
  }

  lemma HeadStays(f: Fat, s: set<seq<nat>>, g: Fat, p: seq<nat>, q: seq<nat>, i: nat)
    requires Represents(f, s) && p in s && Chain(f, p) && Grows(f, g) && Chain(g, q) && i < |q| && q[i] == p[0]
    ensures i == 0
  {
    if i > 0 {
      var c := q[i - 1];
      assert Next(g, c) == q[i - 1 + 1] == p[0];
      ChainAllocated(f, p, 0);
      assert GrowsAt(f, g, c);
      assert g[c] == f[c] && !Free(f, c);
      assert Covered(s, c);
      var r :| r in s && c in r;
      assert Chain(f, r);
      var j :| 0 <= j < |r| && r[j] == c;
      assert j < |r| - 1;
      assert Next(f, r[j]) == r[j + 1] == p[0];
      SameCluster(f, s, r, j + 1, p, 0);
    }
  }

  lemma {:induction false} PrefixStep(f: Fat, g: Fat, p: seq<nat>, q: seq<nat>, k: nat)
    requires |f| <= MAX_CLUSTERS && Grows(f, g) && Chain(f, p) && Chain(g, q) && q[0] == p[0] && k < |p|
    ensures k < |q| && q[..k + 1] == p[..k + 1]
    decreases k
  {
    if k > 0 {
      PrefixStep(f, g, p, q, k - 1);
      assert q[k - 1] == q[..k][k - 1] == p[k - 1];
      ChainAllocated(f, p, k - 1);
      assert Next(f, p[k - 1]) == p[k - 1 + 1];
      assert GrowsAt(f, g, p[k - 1]);
      assert g[p[k - 1]] == f[p[k - 1]];
      assert k < |q|;
      assert Next(g, q[k - 1]) == q[k - 1 + 1];
      assert q[..k + 1] == q[..k] + [q[k]] && p[..k + 1] == p[..k] + [p[k]];
    }
  }

  lemma {:induction false} TailFresh(f: Fat, g: Fat, p: seq<nat>, q: seq<nat>, k: nat)
    requires |f| <= MAX_CLUSTERS && Grows(f, g) && Chain(f, p) && Chain(g, q) && p <= q && |p| <= k < |q|
    ensures Free(f, q[k])
    decreases k
  {
    assert Next(g, q[k - 1]) == q[k - 1 + 1];
    assert GrowsAt(f, g, q[k - 1]);
    if k > |p| {
      TailFresh(f, g, p, q, k - 1);
      assert Free(f, q[k - 1]) && 2 <= q[k - 1] < |f|;
    } else {
      assert q[k - 1] == p[|p| - 1];
    }
  }
}
