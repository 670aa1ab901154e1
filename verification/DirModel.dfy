/** A directory as the list, cluster by cluster, of the entries written into it; what inserting and
    looking up mean on that list; and how the list lies in the bytes of the clusters. */
module DirModel {
  import opened Bytes
  import opened DirFormat

  type Dir = seq<seq<Entry>>

  // ---- lookup and insertion on the model ----

  /** The reader stops after the first cluster with a match and keeps the last match in it. */
  function Lookup(dir: Dir, q: seq<byte>): Option<Entry> {
    if dir == [] then None
    else if LastMatch(dir[0], q).Some? then LastMatch(dir[0], q)
    else Lookup(dir[1..], q)
  }

  ghost predicate DirOk(dir: Dir) {
    forall k | 0 <= k < |dir| :: EntriesOk(dir[k])
  }

  function Room(es: seq<Entry>, n: nat, cap: nat): bool
    requires EntriesOk(es)
  {
    |Groups(es)| + n <= cap
  }

  /** The first cluster with room for `n` slots, or the number of clusters. */
  ghost function FirstRoom(dir: Dir, n: nat, cap: nat): (k: nat)
    requires DirOk(dir)
    ensures k <= |dir|
    ensures k < |dir| ==> Room(dir[k], n, cap)
    ensures forall j | 0 <= j < k :: !Room(dir[j], n, cap)
  {
    if dir == [] || Room(dir[0], n, cap) then 0 else 1 + FirstRoom(dir[1..], n, cap)
  }

  /** The writer appends to the first cluster with room, or to one new cluster. */
  ghost function Insert(dir: Dir, e: Entry, cap: nat): (r: Dir)
    requires DirOk(dir) && EntryOk(e)
    ensures DirOk(r)
  {
    var k := FirstRoom(dir, |Group(e)|, cap);
    var r := if k < |dir| then dir[k := dir[k] + [e]] else dir + [[e]];
    forall j | 0 <= j < |r| ensures EntriesOk(r[j]) {
      if j < |dir| { assert EntriesOk(dir[j]); }
    }
    r
  }

  lemma RoomFound(dir: Dir, dir': Dir, k: nat, e: Entry, cap: nat)
    requires DirOk(dir) && EntryOk(e) && cap >= 6 && k == FirstRoom(dir, |Group(e)|, cap)
    requires dir' == if k < |dir| then dir else dir + [[]]
    ensures k < |dir'| && EntriesOk(dir'[k]) && Room(dir'[k], |Group(e)|, cap)
  {
  }

  lemma InsertedIs(dir: Dir, dir': Dir, k: nat, e: Entry, cap: nat)
    requires DirOk(dir) && EntryOk(e) && k == FirstRoom(dir, |Group(e)|, cap)
    requires dir' == if k < |dir| then dir else dir + [[]]
    ensures dir'[k := dir'[k] + [e]] == Insert(dir, e, cap)
  {
    if k == |dir| {
      assert dir'[k] + [e] == [e];
    }
  }

  ghost predicate In(e: Entry, dir: Dir) {
    exists k :: 0 <= k < |dir| && e in dir[k]
  }

  lemma {:induction false} LookupSound(dir: Dir, q: seq<byte>)
    ensures Lookup(dir, q).None? <==> forall e | In(e, dir) :: Fold(e.name) != Fold(q)
    ensures Lookup(dir, q).Some? ==> In(Lookup(dir, q).value, dir) && Fold(Lookup(dir, q).value.name) == Fold(q)
  {
    if dir != [] {
      LookupSound(dir[1..], q);
      forall e | In(e, dir[1..]) ensures In(e, dir) {
        var k :| 0 <= k < |dir[1..]| && e in dir[1..][k];
        assert e in dir[k + 1];
      }
      forall e | In(e, dir) && e !in dir[0] ensures In(e, dir[1..]) {
        var k :| 0 <= k < |dir| && e in dir[k];
        assert e in dir[1..][k - 1];
      }
      if LastMatch(dir[0], q).Some? {
        assert In(LastMatch(dir[0], q).value, dir);
      } else {
        forall e | e in dir[0] ensures In(e, dir) {
          assert e in dir[0];
        }
      }
    }
  }

  lemma InsertIn(dir: Dir, e: Entry, cap: nat)
    requires DirOk(dir) && EntryOk(e)
    ensures forall x :: In(x, Insert(dir, e, cap)) <==> In(x, dir) || x == e
  {
    var k, r := FirstRoom(dir, |Group(e)|, cap), Insert(dir, e, cap);
    forall x | In(x, dir) ensures In(x, r) {
      var j :| 0 <= j < |dir| && x in dir[j];
      assert x in r[j];
    }
    assert e in r[k];
    assert In(e, r);
    forall x | In(x, r) && x != e ensures In(x, dir) {
      var j :| 0 <= j < |r| && x in r[j];
      assert j < |dir| && x in dir[j];
    }
  }

  /** An entry with this name stands in a cluster before the one where a new entry of this size would go. */
  ghost predicate Hidden(dir: Dir, name: seq<byte>, n: nat, cap: nat)
    requires DirOk(dir)
  {
    Lookup(dir[..FirstRoom(dir, n, cap)], name).Some?
  }

  /** What every lookup gives after an insertion: the new entry for its name, unless an older one hides it. */
  lemma InsertLookup(dir: Dir, e: Entry, cap: nat, q: seq<byte>)
    requires DirOk(dir) && EntryOk(e)
    ensures Lookup(Insert(dir, e, cap), q)
         == if Fold(q) == Fold(e.name) && !Hidden(dir, e.name, |Group(e)|, cap) then Some(e) else Lookup(dir, q)
  {
    var k := FirstRoom(dir, |Group(e)|, cap);
    var before, after := dir[..k], if k < |dir| then dir[k + 1..] else [];
    var here := if k < |dir| then dir[k] else [];
    InsertParts(dir, e, cap, k, before, here, after);
    AppendLookup(before, here, after, e, q);
    if k == |dir| {
      LookupSplit(dir, [here] + after, q);
      LookupFirst(here, after, q);
    }
  }

  lemma InsertParts(dir: Dir, e: Entry, cap: nat, k: nat, before: Dir, here: seq<Entry>, after: Dir)
    requires DirOk(dir) && EntryOk(e) && k == FirstRoom(dir, |Group(e)|, cap)
    requires before == dir[..k]
             && if k < |dir| then here == dir[k] && after == dir[k + 1..] else here == [] && after == []
    ensures Insert(dir, e, cap) == before + ([here + [e]] + after)
    ensures if k < |dir| then dir == before + ([here] + after) else dir == before
  {
    if k < |dir| {
      assert Insert(dir, e, cap) == before + ([here + [e]] + after);
    } else {
      assert here + [e] == [e];
      assert [[e]] + after == [[e]];
    }
  }

  lemma AppendLookup(before: Dir, here: seq<Entry>, after: Dir, e: Entry, q: seq<byte>)
    ensures Lookup(before + ([here + [e]] + after), q)
         == if Fold(q) == Fold(e.name) && Lookup(before, e.name).None? then Some(e)
             else Lookup(before + ([here] + after), q)
  {
    LookupSplit(before, [here + [e]] + after, q);
    LookupSplit(before, [here] + after, q);
    LookupFirst(here + [e], after, q);
    LookupFirst(here, after, q);
    assert (here + [e])[..|here|] == here;
    if Fold(q) == Fold(e.name) {
      LookupFold(before, q, e.name);
    }
  }

  lemma LookupFirst(es: seq<Entry>, rest: Dir, q: seq<byte>)
    ensures Lookup([es] + rest, q) == if LastMatch(es, q).Some? then LastMatch(es, q) else Lookup(rest, q)
  {
    assert ([es] + rest)[1..] == rest;
  }

  lemma {:induction false} LookupSplit(a: Dir, b: Dir, q: seq<byte>)
    ensures Lookup(a + b, q) == if Lookup(a, q).Some? then Lookup(a, q) else Lookup(b, q)
  {
    if a == [] {
      assert a + b == b;
    } else {
      assert (a + b)[1..] == a[1..] + b;
      LookupSplit(a[1..], b, q);
    }
  }

  lemma LookupFold(dir: Dir, q: seq<byte>, r: seq<byte>)
    requires Fold(q) == Fold(r)
    ensures Lookup(dir, q).Some? <==> Lookup(dir, r).Some?
  {
    LookupSound(dir, q);
    LookupSound(dir, r);
  }

  /** Inserting a new name is a map update: it is found, and every other name is as before. */
  lemma InsertIsUpdate(dir: Dir, e: Entry, cap: nat, q: seq<byte>)
    requires DirOk(dir) && EntryOk(e)
    requires Lookup(dir, e.name).None?
    ensures Lookup(Insert(dir, e, cap), q) == if Fold(q) == Fold(e.name) then Some(e) else Lookup(dir, q)
  {
    NotHidden(dir, e.name, |Group(e)|, cap);
    InsertLookup(dir, e, cap, q);
  }

  lemma NotHidden(dir: Dir, name: seq<byte>, n: nat, cap: nat)
    requires DirOk(dir) && Lookup(dir, name).None?
    ensures !Hidden(dir, name, n, cap)
  {
    var k := FirstRoom(dir, n, cap);
    assert dir == dir[..k] + dir[k..];
    LookupSplit(dir[..k], dir[k..], name);
  }

  /** Entry `i` of cluster `k` answers for the name: the last one with it in the first cluster that has one. */
  ghost predicate Answers(dir: Dir, k: int, i: int, q: seq<byte>) {
    && 0 <= k < |dir| && 0 <= i < |dir[k]| && SameName(dir[k][i].name, q)
    && (forall j | i < j < |dir[k]| :: !SameName(dir[k][j].name, q))
    && forall h, j | 0 <= h < k && 0 <= j < |dir[h]| :: !SameName(dir[h][j].name, q)
  }

  lemma {:induction false} LastMatchPlace(es: seq<Entry>, q: seq<byte>) returns (i: nat)
    requires LastMatch(es, q).Some?
    ensures i < |es| && es[i] == LastMatch(es, q).value && SameName(es[i].name, q)
    ensures forall j | i < j < |es| :: !SameName(es[j].name, q)
  {
    var m := |es| - 1;
    FoldSame(es[m].name, q);
    if SameName(es[m].name, q) {
      i := m;
    } else {
      i := LastMatchPlace(es[..m], q);
      forall j | i < j < |es| ensures !SameName(es[j].name, q) {
        assert j < m ==> es[..m][j] == es[j];
      }
    }
  }

  /** Attributes, first cluster and size, and zeros between them, in the bytes of a short entry's slot. */
  predicate SlotSays(s: Slot, x: Entry) {
    && s[11] == x.attr
    && s[26] as int + 0x100 * s[27] as int + 0x1_0000 * s[20] as int + 0x100_0000 * s[21] as int == x.first
    && s[28] as int + 0x100 * s[29] as int + 0x1_0000 * s[30] as int + 0x100_0000 * s[31] as int == x.size
    && (forall j | 12 <= j < 20 :: s[j] == 0) && forall j | 22 <= j < 26 :: s[j] == 0
  }

  lemma SaysEntry(x: Entry)
    ensures SlotSays(SfnSlot(x), x)
  {
    var s := SfnSlot(x);
    assert s[20..22] == Le16(x.first / 0x1_0000) && s[26..28] == Le16(x.first % 0x1_0000) && s[28..32] == Le32(x.size);
    assert s[20] == s[20..22][0] && s[21] == s[20..22][1] && s[26] == s[26..28][0] && s[27] == s[26..28][1];
    assert s[28] == s[28..32][0] && s[29] == s[28..32][1] && s[30] == s[28..32][2] && s[31] == s[28..32][3];
  }

  /** No entry has the name. */
  ghost predicate NoneNamed(dir: Dir, q: seq<byte>) {
    forall k, i | 0 <= k < |dir| && 0 <= i < |dir[k]| :: !SameName(dir[k][i].name, q)
  }

  /** Which entry a lookup finds, said without folding. */
  lemma {:induction false} LookupPlace(dir: Dir, q: seq<byte>)
    ensures Lookup(dir, q).Some? ==>
      exists k, i {:trigger Answers(dir, k, i, q)} :: Answers(dir, k, i, q) && dir[k][i] == Lookup(dir, q).value
    ensures Lookup(dir, q).None? <==> NoneNamed(dir, q)
  {
    if dir != [] {
      NoneHere(dir[0], q);
      if LastMatch(dir[0], q).Some? {
        var i := LastMatchPlace(dir[0], q);
        assert Answers(dir, 0, i, q);
      } else {
        LookupPlace(dir[1..], q);
        if Lookup(dir, q).Some? {
          var k, i :| Answers(dir[1..], k, i, q) && dir[1..][k][i] == Lookup(dir, q).value;
          LaterAnswers(dir, k, i, q);
        } else {
          forall k, i | 0 <= k < |dir| && 0 <= i < |dir[k]| ensures !SameName(dir[k][i].name, q) {
            assert k > 0 ==> dir[1..][k - 1] == dir[k];
          }
        }
      }
    }
  }

  lemma NoneHere(es: seq<Entry>, q: seq<byte>)
    ensures LastMatch(es, q).None? ==> forall i | 0 <= i < |es| :: !SameName(es[i].name, q)
  {
    forall i | 0 <= i < |es| ensures SameName(es[i].name, q) <==> Fold(es[i].name) == Fold(q) {
      FoldSame(es[i].name, q);
    }
  }

  lemma LaterAnswers(dir: Dir, k: int, i: int, q: seq<byte>)
    requires dir != [] && Answers(dir[1..], k, i, q) && forall j | 0 <= j < |dir[0]| :: !SameName(dir[0][j].name, q)
    ensures Answers(dir, k + 1, i, q) && dir[k + 1][i] == dir[1..][k][i]
  {
    assert dir[1..][k] == dir[k + 1];
    forall h, j | 0 <= h < k + 1 && 0 <= j < |dir[h]| ensures !SameName(dir[h][j].name, q) {
      assert h > 0 ==> dir[1..][h - 1] == dir[h];
    }
  }

  // ---- runs of insertions ----

  ghost predicate Distinct(es: seq<Entry>) {
    forall i, j | 0 <= i < j < |es| :: Fold(es[i].name) != Fold(es[j].name)
  }

  /** The directory after writing `es`, in order, into a new one. */
  ghost function InsertAll(es: seq<Entry>, cap: nat): (r: Dir)
    requires EntriesOk(es)
    ensures DirOk(r)
  {
    if es == [] then [[]] else Insert(InsertAll(es[..|es| - 1], cap), es[|es| - 1], cap)
  }

  lemma {:induction false} InsertAllIn(es: seq<Entry>, cap: nat, x: Entry)
    requires EntriesOk(es)
    ensures In(x, InsertAll(es, cap)) <==> x in es
    decreases |es|
  {
    if es == [] {
      var d: Dir := [[]];
      assert forall k | 0 <= k < |d| :: x !in d[k];
    } else {
      var m := |es| - 1;
      InsertAllIn(es[..m], cap, x);
      InsertIn(InsertAll(es[..m], cap), es[m], cap);
      assert es == es[..m] + [es[m]];
    }
  }

  /** After any run of insertions of distinct names, whatever clusters they landed in, a directory
      is the map from names, up to case, to entries. */
  lemma {:induction false} DirectoryIsMap(es: seq<Entry>, cap: nat, q: seq<byte>)
    requires EntriesOk(es) && Distinct(es)
    ensures forall e :: Lookup(InsertAll(es, cap), q) == Some(e) <==> e in es && Fold(e.name) == Fold(q)
    ensures Lookup(InsertAll(es, cap), q).None? <==> forall e | e in es :: Fold(e.name) != Fold(q)
  {
    var dir := InsertAll(es, cap);
    LookupSound(dir, q);
    forall x ensures In(x, dir) <==> x in es {
      InsertAllIn(es, cap, x);
    }
    forall e | e in es && Fold(e.name) == Fold(q) ensures Lookup(dir, q) == Some(e) {
      assert In(e, dir);
      var r := Lookup(dir, q).value;
      assert In(r, dir);
      var i :| 0 <= i < |es| && es[i] == e;
      var j :| 0 <= j < |es| && es[j] == r;
    }
  }

  // ---- the model in bytes ----

  function SlotsOf(buf: seq<byte>): (r: seq<Slot>)
    ensures |r| == |buf| / 32
  {
    seq(|buf| / 32, i requires 0 <= i < |buf| / 32 => buf[32 * i..32 * i + 32])
  }

  ghost predicate DirCluster(data: seq<byte>, es: seq<Entry>) {
    EntriesOk(es) && |Groups(es)| <= |data| / 32 && SlotsOf(data) == DirSlots(es, |data| / 32)
  }

  lemma NothingIn(y: Entry)
    ensures !In(y, [[]])
  {
    var d: Dir := [[]];
    assert forall k | 0 <= k < |d| :: y !in d[k];
  }

  lemma EmptyCluster(data: seq<byte>)
    requires forall i | 0 <= i < |data| :: data[i] == 0
    ensures DirCluster(data, [])
  {
    var s, t := SlotsOf(data), DirSlots([], |data| / 32);
    forall i | 0 <= i < |s| ensures s[i] == t[i] {
      var x := data[32 * i..32 * i + 32];
      assert forall j | 0 <= j < 32 :: x[j] == 0;
    }
  }

  // ---- free slots ----

  predicate FreeSlot(s: Slot) { s[0] == 0 || s[0] == 0xE5 }

  ghost predicate FreeRun(s: seq<Slot>, i: nat, n: nat) {
    i + n <= |s| && forall j | i <= j < i + n :: FreeSlot(s[j])
  }

  lemma GroupBusy(e: Entry, k: nat)
    requires EntryOk(e) && k < |Group(e)|
    ensures !FreeSlot(Group(e)[k])
  {
    var n := LfnCount(e.name);
    if k < n {
      assert Group(e)[k][0] == LfnByte(e.name, n - 1 - k, OrderByte(k, n), Checksum(ShortName(e.name)), 0);
    } else {
      ShortNameFirstByte(e.name);
      assert Group(e)[k] == SfnSlot(e);
      assert SfnSlot(e)[0] == ShortName(e.name)[0];
    }
  }

  lemma {:induction false} GroupsBusy(es: seq<Entry>, k: nat)
    requires EntriesOk(es) && k < |Groups(es)|
    ensures !FreeSlot(Groups(es)[k])
    decreases |es|
  {
    var m := |es| - 1;
    if k < |Groups(es[..m])| {
      GroupsBusy(es[..m], k);
    } else {
      GroupBusy(es[m], k - |Groups(es[..m])|);
    }
  }

  /** In a directory cluster the free slots are exactly those after the entries. */
  lemma FreeRunIs(es: seq<Entry>, cap: nat, i: nat, n: nat)
    requires EntriesOk(es) && |Groups(es)| <= cap && 0 < n && i + n <= cap
    ensures FreeRun(DirSlots(es, cap), i, n) <==> |Groups(es)| <= i
  {
    if i < |Groups(es)| {
      GroupsBusy(es, i);
      assert DirSlots(es, cap)[i] == Groups(es)[i];
    }
  }

  // ---- appending a group ----

  function PutRun(s: seq<Slot>, i: nat, g: seq<Slot>): (r: seq<Slot>)
    requires i + |g| <= |s|
    ensures |r| == |s|
  {
    s[..i] + g + s[i + |g|..]
  }

  lemma AppendGroup(es: seq<Entry>, e: Entry, cap: nat)
    requires EntriesOk(es) && EntryOk(e) && |Groups(es)| + |Group(e)| <= cap
    ensures EntriesOk(es + [e]) && |Groups(es + [e])| <= cap
    ensures DirSlots(es + [e], cap) == PutRun(DirSlots(es, cap), |Groups(es)|, Group(e))
  {
    assert (es + [e])[..|es|] == es;
    assert Groups(es + [e]) == Groups(es) + Group(e);
  }
}
