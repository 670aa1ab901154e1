/** The directory reader: the long-name state machine with its variables updated in place, and the
    two lookups built on it. */
module DirRead {
  import opened Bytes
  import opened FatChains
  import opened Geometry
  import opened Volumes
  import opened FatFiles
  import opened DirFormat
  import opened DirNames
  import opened DirModel
  import opened Directories

  /** A chunk with this order byte lies inside the reader's 256-byte name buffer. */
  predicate Fits(order: byte) {
    StoreOffset(order) + 13 <= 256
  }

  /** A slot whose characters, if the reader stores them, stay inside that buffer. */
  predicate Readable(s: Slot) {
    IsLfnAttr(s[11]) ==> Fits(s[0]) && Fits(s[0] % 0x40)
  }

  /** The reader's local variables. */
  class Reader {
    var lfn: bool
    var order: byte
    var sum: byte
    const name: array<byte>
    var found: Option<Slot>

    ghost function State(): Scan
      reads this, name
    {
      Scan(lfn, order, sum, name[..], found)
    }

    ghost predicate Valid()
      reads this
    {
      name.Length == 256
    }

    constructor ()
      ensures Valid() && fresh(name) && State() == START
    {
      lfn, order, sum, found := false, 0, 0, None;
      name := new byte[256](i => 0);
    }

    /** Copy the thirteen characters of a slot to its chunk of the name. */
    method StoreChars(e: Slot)
      requires Valid() && Fits(order)
      modifies name
      ensures name[..] == Store(old(name[..]), order, e)
    {
      var offset := StoreOffset(order);
      Memcpy(name, offset, Chars(e));
    }

    method VisitNormal(e: Slot, q: seq<byte>)
      requires Valid() && !lfn && NoNul(q) && Readable(e)
      modifies this, name
      ensures Valid() && State() == NormalStep(old(State()), e, q)
    {
      if IsLfnAttr(e[11]) {
        if e[0] / 0x40 % 2 == 0 {
          return;
        }
        lfn := true;
        Memset(name, 0, 0, 256);
        order := e[0] % 0x40;
        sum := e[13];
        assert name[..] == Zeros(256);
        StoreChars(e);
      } else {
        var fatname := StringToFatname(q);
        if e[..11] == fatname[..11] {
          found := Some(e);
        }
      }
    }

    /** The short entry at the end of a long name. */
    method VisitShort(e: Slot, q: seq<byte>)
      requires Valid() && !lfn && NoNul(q) && Readable(e)
      modifies this, name
      ensures Valid() && State() == ShortStep(old(State()), e, q)
    {
      var c := LfnSum(e[..11]);
      if sum != c {
        VisitNormal(e, q);
      } else {
        var eq := StrCaseEq(name[..], q);
        if eq {
          found := Some(e);
        }
      }
    }

    /** One slot of the scan. */
    method Visit(e: Slot, q: seq<byte>)
      requires Valid() && NoNul(q) && Readable(e)
      modifies this, name
      ensures Valid() && State() == Step(old(State()), e, q)
    {
      if !lfn {
        VisitNormal(e, q);
        return;
      }
      order := (order + 0xFF) % 0x100;
      var isLfn := IsLfnAttr(e[11]);
      if order == 0 && isLfn {
        lfn := false;
      } else if order != 0 && !isLfn {
        lfn := false;
        VisitNormal(e, q);
      } else if order == 0 {
        lfn := false;
        VisitShort(e, q);
      } else if e[0] != order {
        lfn := false;
      } else {
        StoreChars(e);
      }
    }
  }

  // ---- every slot a directory holds is readable ----

  lemma GroupReadable(e: Entry, k: nat)
    requires EntryOk(e) && k < |Group(e)|
    ensures Readable(Group(e)[k])
  {
    var n := LfnCount(e.name);
    if k < n {
      var s := Group(e)[k];
      assert s[0] == LfnByte(e.name, n - 1 - k, OrderByte(k, n), Checksum(ShortName(e.name)), 0);
    } else {
      assert Group(e)[k] == SfnSlot(e);
      assert SfnSlot(e)[11] == e.attr;
    }
  }

  lemma {:induction false} GroupsReadable(es: seq<Entry>, k: nat)
    requires EntriesOk(es) && k < |Groups(es)|
    ensures Readable(Groups(es)[k])
    decreases |es|
  {
    var m := |es| - 1;
    if k < |Groups(es[..m])| {
      GroupsReadable(es[..m], k);
    } else {
      GroupReadable(es[m], k - |Groups(es[..m])|);
    }
  }

  ghost predicate AllReadable(slots: seq<Slot>) {
    forall k | 0 <= k < |slots| :: Readable(slots[k])
  }

  lemma DirSlotsReadable(es: seq<Entry>, cap: nat)
    requires EntriesOk(es) && |Groups(es)| <= cap
    ensures AllReadable(DirSlots(es, cap))
  {
    forall k | 0 <= k < cap ensures Readable(DirSlots(es, cap)[k]) {
      if k < |Groups(es)| {
        GroupsReadable(es, k);
        assert DirSlots(es, cap)[k] == Groups(es)[k];
      } else {
        assert DirSlots(es, cap)[k] == ZERO_SLOT;
      }
    }
  }

  // ---- fat32_lookup_in_dir ----

  /** Read one directory cluster and feed its slots to the reader. */
  method ReadSlots(v: Volume, r: Reader, c: nat, q: seq<byte>, ghost es: seq<Entry>)
    requires v.Valid() && 2 <= c < v.g.Clusters() && r.Valid() && !r.lfn && NoNul(q)
    requires DirCluster(ClusterData(v.g, v.disk, c), es)
    requires r.name != v.wbuf && r.name as object != v.fat
    modifies v.wbuf, r, r.name
    ensures v.Valid() && r.Valid() && !r.lfn
    ensures r.found == FoundSlot(LastMatch(es, q), old(r.found))
  {
    v.ReadCluster(c, v.wbuf);
    var count := v.g.ClusterBytes() / 32;
    ghost var slots, s0 := DirSlots(es, count), r.State();
    assert SlotsOf(v.wbuf[..]) == slots by { assert v.wbuf[..] == v.wbuf[..v.g.ClusterBytes()]; }
    DirSlotsReadable(es, count);
    VisitAll(r, v.wbuf, count, q, slots);
    RunCluster(s0, es, count, q);
  }

  lemma SlotAt(b: seq<byte>, i: nat, e: Slot)
    requires 32 * i + 32 <= |b| && e == b[32 * i..32 * i + 32]
    ensures SlotsOf(b)[i] == e
  {
  }

  lemma RunNext(s: Scan, slots: seq<Slot>, i: nat, q: seq<byte>)
    requires i < |slots|
    ensures Run(s, slots[..i + 1], q) == Step(Run(s, slots[..i], q), slots[i], q)
  {
    assert slots[..i + 1][..i] == slots[..i];
  }

  /** Slot `i` of the buffer. */
  method VisitSlot(r: Reader, buf: array<byte>, i: nat, q: seq<byte>, ghost slots: seq<Slot>, ghost s0: Scan)
    requires i < |slots| && r.State() == Run(s0, slots[..i], q)
    requires r.Valid() && NoNul(q) && r.name != buf && i < |slots| && 32 * i + 32 <= buf.Length
    requires AllReadable(slots) && SlotsOf(buf[..]) == slots
    modifies r, r.name
    ensures r.Valid() && r.State() == Run(s0, slots[..i + 1], q)
  {
    var e: Slot := buf[32 * i..32 * i + 32];
    SlotAt(buf[..], i, e);
    r.Visit(e, q);
    RunNext(s0, slots, i, q);
  }

  method VisitAll(r: Reader, buf: array<byte>, count: nat, q: seq<byte>, ghost slots: seq<Slot>)
    requires r.Valid() && NoNul(q) && r.name != buf && buf.Length == 32 * count
    requires AllReadable(slots) && SlotsOf(buf[..]) == slots
    modifies r, r.name
    ensures r.Valid() && r.State() == Run(old(r.State()), slots, q)
  {
    ghost var s0 := r.State();
    var i := 0;
    assert slots[..0] == [];
    while i < count
      modifies r, r.name
      invariant 0 <= i <= count && r.Valid() && r.State() == Run(s0, slots[..i], q)
    {
      VisitSlot(r, buf, i, q, slots, s0);
      i := i + 1;
    }
    assert slots[..count] == slots;
  }

  /** `fat32_lookup_in_dir`: exactly the slot the model's lookup names. */
  method LookupInDir(v: Volume, head: nat, q: seq<byte>, ghost p: seq<nat>, ghost dir: Dir)
    returns (entry: Option<Slot>)
    requires v.Valid() && v.HasChain(p, head) && DirRep(v.g, v.disk, p, dir) && NoNul(q)
    modifies v.wbuf
    ensures v.Valid() && entry == FoundSlot(Lookup(dir, q), None)
    ensures entry.Some? <==> exists x :: In(x, dir) && |x.name| == |q| && forall i | 0 <= i < |q| ::
      var c := x.name[i];
      c == q[i] || (65 <= c <= 90 && q[i] as int == c as int + 32) || (65 <= q[i] <= 90 && c as int == q[i] as int + 32)
    ensures entry.Some? ==> exists k, i {:trigger Answers(dir, k, i, q)} ::
      Answers(dir, k, i, q) && SlotSays(entry.value, dir[k][i])
  {
    entry := ScanDir(v, head, q, p, dir);
    AnswerIs(dir, q);
  }

  /** What a lookup finds, in the bytes of the slot it returns. */
  lemma AnswerIs(dir: Dir, q: seq<byte>)
    ensures Lookup(dir, q).Some? <==> exists x :: In(x, dir) && |x.name| == |q| && forall i | 0 <= i < |q| ::
      var c := x.name[i];
      c == q[i] || (65 <= c <= 90 && q[i] as int == c as int + 32) || (65 <= q[i] <= 90 && c as int == q[i] as int + 32)
    ensures Lookup(dir, q).Some? ==> exists k, i {:trigger Answers(dir, k, i, q)} ::
      Answers(dir, k, i, q) && SlotSays(SfnSlot(Lookup(dir, q).value), dir[k][i])
  {
    LookupPlace(dir, q);
    if Lookup(dir, q).Some? {
      var k, i :| Answers(dir, k, i, q) && dir[k][i] == Lookup(dir, q).value;
      assert dir[k][i] in dir[k] && In(dir[k][i], dir);
      SaysEntry(dir[k][i]);
    } else {
      forall x | In(x, dir) ensures !SameName(x.name, q) {
        var k :| 0 <= k < |dir| && x in dir[k];
        var i :| 0 <= i < |dir[k]| && dir[k][i] == x;
      }
    }
  }

  method ScanDir(v: Volume, head: nat, q: seq<byte>, ghost p: seq<nat>, ghost dir: Dir)
    returns (entry: Option<Slot>)
    requires v.Valid() && v.HasChain(p, head) && DirRep(v.g, v.disk, p, dir) && NoNul(q)
    modifies v.wbuf
    ensures v.Valid() && entry == FoundSlot(Lookup(dir, q), None)
  {
    var r := new Reader();
    var cur := head;
    ghost var k := 0;
    assert Chain(v.fat[..], p);
    ghost var f := v.fat[..];
    assert dir[0..] == dir;
    while true
      invariant k < |p| && cur == p[k] && v.Valid() && v.fat[..] == f
      invariant r.Valid() && !r.lfn && r.found == None && fresh(r) && fresh(r.name)
      invariant Lookup(dir, q) == Lookup(dir[k..], q)
      decreases |p| - k
    {
      assert DirCluster(ClusterData(v.g, v.disk, p[k]), dir[k]);
      ReadSlots(v, r, cur, q, dir[k]);
      ChainAllocated(f, p, k);
      assert k < |p| - 1 ==> Next(f, p[k]) == p[k + 1];
      cur := v.fat[cur] % 0x1000_0000;
      assert dir[k..][1..] == dir[k + 1..];
      if cur >= EOC_MIN || r.found.Some? {
        assert cur >= EOC_MIN ==> k + 1 == |p|;
        break;
      }
      k := k + 1;
    }
    entry := r.found;
  }

  // ---- runs of insertions on the disk ----

  /** Write entries into a new directory, one after the other, until the disk is full. */
  method FillDirectory(v: Volume, head: nat, es: seq<Entry>, ghost p: seq<nat>)
    returns (n: nat, ghost q: seq<nat>, ghost dir: Dir)
    requires v.Valid() && v.HasChain(p, head) && DirRep(v.g, v.disk, p, [[]]) && EntriesOk(es)
    modifies v, v.fat, v.cbuf
    ensures v.Valid() && v.HasChain(q, head) && DirRep(v.g, v.disk, q, dir)
    ensures n <= |es| && dir == InsertAll(es[..n], Slots(v.g))
    ensures n < |es| ==> Full(v.fat[..]) && FirstRoom(dir, |Group(es[n])|, Slots(v.g)) == |dir|
  {
    n, q, dir := 0, p, [[]];
    assert es[..0] == [];
    while n < |es|
      invariant 0 <= n <= |es| && v.Valid() && v.HasChain(q, head) && DirRep(v.g, v.disk, q, dir)
      invariant dir == InsertAll(es[..n], Slots(v.g))
    {
      var ok;
      ok, q, dir := WriteNext(v, head, es, n, q, dir);
      if !ok {
        return;
      }
      n := n + 1;
    }
  }

  method WriteNext(v: Volume, head: nat, es: seq<Entry>, n: nat, ghost p: seq<nat>, ghost dir: Dir)
    returns (ok: bool, ghost q: seq<nat>, ghost dir': Dir)
    requires v.Valid() && v.HasChain(p, head) && DirRep(v.g, v.disk, p, dir) && EntriesOk(es) && n < |es|
    requires dir == InsertAll(es[..n], Slots(v.g))
    modifies v, v.fat, v.cbuf
    ensures v.Valid() && v.HasChain(q, head) && DirRep(v.g, v.disk, q, dir')
    ensures dir' == InsertAll(es[..if ok then n + 1 else n], Slots(v.g))
    ensures !ok ==> Full(v.fat[..]) && FirstRoom(dir', |Group(es[n])|, Slots(v.g)) == |dir'|
  {
    ok, q, dir' := Insertion(v, head, es[n], p, dir);
    assert es[..n + 1][..n] == es[..n];
  }

  /** A directory on the disk is a map: write entries with distinct names into a new one, in however many clusters they
      land, and a lookup finds the one with the name, up to case, or nothing when there is none. */
  method FillAndFind(v: Volume, head: nat, es: seq<Entry>, name: seq<byte>, ghost p: seq<nat>)
    returns (n: nat, entry: Option<Slot>)
    requires v.Valid() && v.HasChain(p, head) && DirRep(v.g, v.disk, p, [[]])
    requires EntriesOk(es) && Distinct(es) && NoNul(name)
    modifies v, v.fat, v.cbuf, v.wbuf
    ensures v.Valid() && n <= |es| && (n < |es| ==> Full(v.fat[..]))
    ensures forall e | e in es[..n] && Fold(e.name) == Fold(name) :: entry == Some(SfnSlot(e))
    ensures entry.None? <==> forall e | e in es[..n] :: Fold(e.name) != Fold(name)
  {
    ghost var q, dir;
    n, q, dir := FillDirectory(v, head, es, p);
    DirectoryIsMap(es[..n], Slots(v.g), name);
    entry := LookupInDir(v, head, name, q, dir);
  }
}
