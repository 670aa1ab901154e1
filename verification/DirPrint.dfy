/** Printing one entry, all its slots, into the cluster buffer. */
module DirPrint {
  import opened Bytes
  import opened DirFormat
  import opened DirNames
  import opened DirModel

  lemma PutSlotSlots(b: seq<byte>, i: nat, s: Slot)
    requires 32 * i + 32 <= |b|
    ensures i < |SlotsOf(b)| && SlotsOf(PutSlot(b, i, s)) == SlotsOf(b)[i := s]
  {
    var l, r := SlotsOf(PutSlot(b, i, s)), SlotsOf(b)[i := s];
    forall j | 0 <= j < |l| ensures l[j] == r[j] {
      var x, y := PutSlot(b, i, s)[32 * j..32 * j + 32], b[32 * j..32 * j + 32];
      if j == i {
        assert x == s;
      } else {
        assert x == y;
      }
    }
  }

  lemma SlotsOfPrefix(b: seq<byte>, n: nat)
    requires 32 * n <= |b|
    ensures SlotsOf(b[..32 * n]) == SlotsOf(b)[..n]
  {
    var l, r := SlotsOf(b[..32 * n]), SlotsOf(b)[..n];
    forall j | 0 <= j < n ensures l[j] == r[j] {
      assert b[..32 * n][32 * j..32 * j + 32] == b[32 * j..32 * j + 32];
    }
  }

  /** The short entry, field by field. */
  method PrintSfn(buf: array<byte>, i: nat, e: Entry, sfn: seq<byte>)
    requires sfn == ShortName(e.name) && 32 * i + 32 <= buf.Length
    modifies buf
    ensures buf[..] == PutSlot(old(buf[..]), i, SfnSlot(e))
  {
    var l := 32 * i;
    ghost var b0 := buf[..];
    Memset(buf, l, 0, 32);
    ghost var b1 := buf[..];
    Memcpy(buf, l, sfn);
    ghost var b2 := buf[..];
    Memcpy(buf, l + 11, [e.attr]);
    ghost var b3 := buf[..];
    Memcpy(buf, l + 26, Le16(e.first % 0x1_0000));
    ghost var b4 := buf[..];
    Memcpy(buf, l + 20, Le16(e.first / 0x1_0000 % 0x1_0000));
    ghost var b5 := buf[..];
    Memcpy(buf, l + 28, Le32(e.size));
    SfnPrinted(b0, b1, b2, b3, b4, b5, buf[..], l, sfn, [e.attr],
               Le16(e.first % 0x1_0000), Le16(e.first / 0x1_0000), Le32(e.size), SfnSlot(e));
  }

  lemma SfnPrinted(b0: seq<byte>, b1: seq<byte>, b2: seq<byte>, b3: seq<byte>, b4: seq<byte>, b5: seq<byte>,
                   b6: seq<byte>,
                   l: nat, sfn: seq<byte>, attr: seq<byte>, lo: seq<byte>, hi: seq<byte>, size: seq<byte>, s: Slot)
    requires l + 32 <= |b0| == |b1|
    requires forall j | 0 <= j < |b0| :: b1[j] == if l <= j < l + 32 then 0 else b0[j]
    requires |sfn| == 11 && |attr| == 1 && |lo| == |hi| == 2 && |size| == 4
    requires b2 == Splice(b1, l, sfn) && b3 == Splice(b2, l + 11, attr) && b4 == Splice(b3, l + 26, lo)
    requires b5 == Splice(b4, l + 20, hi) && b6 == Splice(b5, l + 28, size)
    requires s == sfn + attr + Zeros(8) + hi + Zeros(4) + lo + size
    ensures b6 == Splice(b0, l, s)
  {
    forall x | 0 <= x < 32
      ensures s[x] == if x < 11 then sfn[x] else if x < 12 then attr[x - 11] else if x < 20 then 0
                      else if x < 22 then hi[x - 20] else if x < 26 then 0
                      else if x < 28 then lo[x - 26] else size[x - 28]
    {
    }
  }

  lemma NextPrinted(s: seq<Slot>, b: seq<byte>, c: seq<byte>, i: nat, g: seq<Slot>, k: nat, j: nat, x: Slot)
    requires i + |g| <= |s| && k < |g| && j == i + k && x == g[k] && 32 * j + 32 <= |b|
    requires SlotsOf(b) == PutRun(s, i, g[..k]) && c == PutSlot(b, j, x)
    ensures SlotsOf(c) == PutRun(s, i, g[..k + 1])
  {
    PutSlotSlots(b, j, x);
    assert g[..k + 1] == g[..k] + [g[k]];
  }

  // ---- what an entry looks like in bytes ----

  /** A long-name slot: order byte, attribute 0x0F, checksum, and thirteen 16-bit characters of the name from `from` on,
      then a zero and filler 0xFFFF. */
  ghost predicate LongSays(s: seq<byte>, order: int, sum: byte, name: seq<byte>, from: int) {
    && |s| == 32 && s[0] as int == order && s[11] == 0x0F && s[12] == 0 && s[13] == sum && s[26] == 0 && s[27] == 0
    && forall j | 0 <= j < 13 :: CharSays(s, if j < 5 then 1 + 2 * j else if j < 11 then 4 + 2 * j else 6 + 2 * j,
                                          name, from + j)
  }

  /** Character `i` of the name lies at byte `x`, low byte first. */
  ghost predicate CharSays(s: seq<byte>, x: int, name: seq<byte>, i: int) {
    && 0 <= x && x + 1 < |s| && 0 <= i
    && s[x] == (if i < |name| then name[i] else if i == |name| then 0 else 255)
    && s[x + 1] == if i <= |name| then 0 else 255
  }

  /** Slot `i + k` of `b` is the `k`-th of the entry's `n` long-name slots. */
  ghost predicate LongAt(b: seq<byte>, i: int, k: int, e: Entry, n: int) {
    && 0 <= i + k && 32 * (i + k) + 32 <= |b|
    && LongSays(b[32 * (i + k)..32 * (i + k) + 32], if k == 0 then 0x40 + n else n - k, Checksum(ShortName(e.name)),
                e.name, 13 * (n - 1 - k))
  }

  /** Slot `j` of `b` is the entry's short one. */
  ghost predicate ShortAt(b: seq<byte>, j: int, e: Entry) {
    && 0 <= j && 32 * j + 32 <= |b| && b[32 * j..32 * j + 11] == ShortName(e.name)
    && SlotSays(b[32 * j..32 * j + 32], e)
  }

  /** `b` is `b0` with the entry in it: `n` long-name slots from slot `i` on, as many as the name fills with thirteen
      characters each, the last part first and marked 0x40, then the short entry; everything else is as it was. */
  ghost predicate EntryAt(b: seq<byte>, b0: seq<byte>, i: nat, e: Entry, n: nat) {
    && |b| == |b0| && 32 * (i + n + 1) <= |b| && 1 <= n && 13 * (n - 1) < |e.name| <= 13 * n
    && (forall k | 0 <= k < n :: LongAt(b, i, k, e, n))
    && ShortAt(b, i + n, e)
    && forall j | 0 <= j < |b| / 32 * 32 && !(32 * i <= j < 32 * (i + n + 1)) :: b[j] == b0[j]
  }

  lemma LongIs(name: seq<byte>, k: nat, n: nat, sum: byte)
    requires k < n <= 5
    ensures LongSays(LfnSlot(name, k, n, sum), if k == 0 then 0x40 + n else n - k, sum, name, 13 * (n - 1 - k))
  {
    var s, c := LfnSlot(name, k, n, sum), n - 1 - k;
    forall j | 0 <= j < 13
      ensures CharSays(s, if j < 5 then 1 + 2 * j else if j < 11 then 4 + 2 * j else 6 + 2 * j, name, 13 * c + j)
    {
      CharIs(s, name, c, j, OrderByte(k, n), sum, if j < 5 then 1 + 2 * j else if j < 11 then 4 + 2 * j else 6 + 2 * j);
    }
  }

  lemma CharIs(s: Slot, name: seq<byte>, c: nat, j: nat, order: byte, sum: byte, x: nat)
    requires j < 13 && x == if j < 5 then 1 + 2 * j else if j < 11 then 4 + 2 * j else 6 + 2 * j
    requires forall i | 0 <= i < 32 :: s[i] == LfnByte(name, c, order, sum, i)
    ensures CharSays(s, x, name, 13 * c + j)
  {
    UnitBytesSplit(name, c, j, order, sum, x);
    LowHigh(name, 13 * c + j);
  }

  lemma UnitBytesSplit(name: seq<byte>, c: nat, j: nat, order: byte, sum: byte, x: nat)
    requires j < 13 && x == if j < 5 then 1 + 2 * j else if j < 11 then 4 + 2 * j else 6 + 2 * j
    ensures LfnByte(name, c, order, sum, x) == Le16(NameUnit(name, c * 13 + j))[0]
    ensures LfnByte(name, c, order, sum, x + 1) == Le16(NameUnit(name, c * 13 + j))[1]
  {
  }

  lemma LowHigh(name: seq<byte>, i: nat)
    ensures Le16(NameUnit(name, i))[0] == if i < |name| then name[i] else if i == |name| then 0 else 255
    ensures Le16(NameUnit(name, i))[1] == if i <= |name| then 0 else 255
  {
  }

  lemma SlotBytes(b: seq<byte>, j: nat)
    requires 32 * j + 32 <= |b|
    ensures SlotsOf(b)[j] == b[32 * j..32 * j + 32]
  {
  }

  /** A printed group in bytes. */
  lemma EntryBytes(b: seq<byte>, b0: seq<byte>, i: nat, e: Entry)
    requires EntryOk(e) && |b| == |b0| && i + |Group(e)| <= |b0| / 32
    requires SlotsOf(b) == PutRun(SlotsOf(b0), i, Group(e))
    ensures EntryAt(b, b0, i, e, LfnCount(e.name))
  {
    var n := LfnCount(e.name);
    forall k | 0 <= k < n ensures LongAt(b, i, k, e, n) {
      PrintedIs(b, b0, i, Group(e), k, i + k);
      GroupAt(e, k, Checksum(ShortName(e.name)));
      LongBytes(b, i, e, k, n, Group(e)[k]);
    }
    PrintedIs(b, b0, i, Group(e), n, i + n);
    ShortBytes(b, i + n, e);
    OtherBytes(b, b0, i, Group(e));
  }

  lemma PrintedIs(b: seq<byte>, b0: seq<byte>, i: nat, g: seq<Slot>, k: nat, j: nat)
    requires |b| == |b0| && i + |g| <= |b0| / 32 && k < |g| && j == i + k
    requires SlotsOf(b) == PutRun(SlotsOf(b0), i, g)
    ensures 32 * j + 32 <= |b| && b[32 * j..32 * j + 32] == g[k]
  {
    SlotBytes(b, j);
    assert PutRun(SlotsOf(b0), i, g)[j] == g[k];
  }

  lemma LongBytes(b: seq<byte>, i: nat, e: Entry, k: nat, n: nat, s: Slot)
    requires EntryOk(e) && k < n == LfnCount(e.name) && 32 * (i + k) + 32 <= |b|
    requires s == LfnSlot(e.name, k, n, Checksum(ShortName(e.name))) == b[32 * (i + k)..32 * (i + k) + 32]
    ensures LongAt(b, i, k, e, n)
  {
    LongIs(e.name, k, n, Checksum(ShortName(e.name)));
  }

  lemma ShortBytes(b: seq<byte>, j: nat, e: Entry)
    requires 32 * j + 32 <= |b| && b[32 * j..32 * j + 32] == SfnSlot(e)
    ensures ShortAt(b, j, e)
  {
    SaysEntry(e);
    assert b[32 * j..32 * j + 11] == b[32 * j..32 * j + 32][..11] == SfnSlot(e)[..11];
  }

  lemma OtherBytes(b: seq<byte>, b0: seq<byte>, i: nat, g: seq<Slot>)
    requires |b| == |b0| && i + |g| <= |b0| / 32 && SlotsOf(b) == PutRun(SlotsOf(b0), i, g)
    ensures forall j | 0 <= j < |b| / 32 * 32 && !(32 * i <= j < 32 * (i + |g|)) :: b[j] == b0[j]
  {
    forall j | 0 <= j < |b| / 32 * 32 && !(32 * i <= j < 32 * (i + |g|)) ensures b[j] == b0[j] {
      var k := j / 32;
      SlotBytes(b, k);
      SlotBytes(b0, k);
      assert SlotsOf(b)[k] == SlotsOf(b0)[k];
      assert b[j] == b[32 * k..32 * k + 32][j % 32] && b0[j] == b0[32 * k..32 * k + 32][j % 32];
    }
  }

  /** The slots of a directory cluster before the first free one are taken; that one and all behind it start with 0. */
  lemma FirstFree(b: seq<byte>, es: seq<Entry>)
    requires DirCluster(b, es)
    ensures forall j | |Groups(es)| <= j < |b| / 32 :: SlotStart(b, j) == 0
    ensures forall j | 0 <= j < |Groups(es)| :: SlotStart(b, j) != 0 && SlotStart(b, j) != 0xE5
  {
    forall j: nat | j < |b| / 32
      ensures j < |Groups(es)| ==> SlotStart(b, j) != 0 && SlotStart(b, j) != 0xE5
      ensures j >= |Groups(es)| ==> SlotStart(b, j) == 0
    {
      StartIs(b, j);
      if j < |Groups(es)| {
        GroupsBusy(es, j);
      } else {
        assert DirSlots(es, |b| / 32)[j] == ZERO_SLOT;
      }
    }
  }

  lemma StartIs(b: seq<byte>, j: nat)
    requires j < |b| / 32
    ensures SlotStart(b, j) == SlotsOf(b)[j][0]
  {
    SlotBytes(b, j);
  }

  ghost function SlotStart(b: seq<byte>, j: int): byte
    requires 0 <= j < |b| / 32
  {
    b[32 * j]
  }

  /** Long-name slots, then the short entry, starting at slot `i`. */
  method PrintGroup(buf: array<byte>, i: nat, e: Entry, sfn: seq<byte>, csum: byte)
    requires EntryOk(e) && i + |Group(e)| <= buf.Length / 32
    requires sfn == ShortName(e.name) && csum == Checksum(sfn)
    modifies buf
    ensures SlotsOf(buf[..]) == PutRun(SlotsOf(old(buf[..])), i, Group(e))
    ensures exists n :: EntryAt(buf[..], old(buf[..]), i, e, n)
  {
    ghost var s0, g := SlotsOf(buf[..]), Group(e);
    var n := PrintLfns(buf, i, e, csum, g);
    ghost var b := buf[..];
    PrintSfn(buf, i + n, e, sfn);
    NextPrinted(s0, b, buf[..], i, g, n, i + n, SfnSlot(e));
    assert g[..n + 1] == g;
    EntryBytes(buf[..], old(buf[..]), i, e);
  }

  /** The long-name slots. */
  method PrintLfns(buf: array<byte>, i: nat, e: Entry, csum: byte, ghost g: seq<Slot>) returns (n: nat)
    requires EntryOk(e) && g == Group(e) && i + |g| <= buf.Length / 32 && csum == Checksum(ShortName(e.name))
    modifies buf
    ensures n == LfnCount(e.name) && n < |g| && SlotsOf(buf[..]) == PutRun(SlotsOf(old(buf[..])), i, g[..n])
  {
    ghost var s0 := SlotsOf(buf[..]);
    var uname := PrepareUnits(e.name);
    n := LfnCount(e.name);
    var k := 0;
    assert PutRun(s0, i, g[..0]) == s0;
    while k < n
      modifies buf
      invariant 0 <= k <= n && SlotsOf(buf[..]) == PutRun(s0, i, g[..k])
    {
      GroupAt(e, k, csum);
      PrintNth(buf, i, e, uname, csum, k, s0, g);
      k := k + 1;
    }
  }

  lemma GroupAt(e: Entry, k: nat, sum: byte)
    requires EntryOk(e) && k < LfnCount(e.name) && sum == Checksum(ShortName(e.name))
    ensures Group(e)[k] == LfnSlot(e.name, k, LfnCount(e.name), sum)
  {
  }

  method PrintNth(buf: array<byte>, i: nat, e: Entry, uname: array<u16>, csum: byte, k: nat, ghost s0: seq<Slot>,
                  ghost g: seq<Slot>)
    requires EntryOk(e) && i + |g| <= |s0| && k < LfnCount(e.name) && k < |g|
    requires g[k] == LfnSlot(e.name, k, LfnCount(e.name), csum)
    requires uname.Length == 128 && forall j | 0 <= j < LfnCount(e.name) * 13 :: uname[j] == NameUnit(e.name, j)
    requires buf as object != uname && |s0| == buf.Length / 32 && SlotsOf(buf[..]) == PutRun(s0, i, g[..k])
    modifies buf
    ensures SlotsOf(buf[..]) == PutRun(s0, i, g[..k + 1])
  {
    ghost var b := buf[..];
    PrintLfn(buf, i + k, e.name, uname, k, csum);
    NextPrinted(s0, b, buf[..], i, g, k, i + k, g[k]);
  }

  /** The scan of one cluster for `n` consecutive free slots. */
  method FindRun(buf: array<byte>, cap: nat, n: nat) returns (i: int)
    requires 0 < n <= cap && 32 * cap <= buf.Length
    ensures -1 <= i <= cap - n
    ensures i >= 0 ==> FreeRun(SlotsOf(buf[..32 * cap]), i, n)
    ensures forall j | 0 <= j < (if i < 0 then cap - n + 1 else i) :: !FreeRun(SlotsOf(buf[..32 * cap]), j, n)
  {
    ghost var s := SlotsOf(buf[..32 * cap]);
    i := 0;
    while i <= cap - n
      invariant 0 <= i <= cap - n + 1
      invariant forall j | 0 <= j < i :: !FreeRun(s, j, n)
    {
      var ok := true;
      var j := 0;
      while j < n && ok
        invariant 0 <= j <= n
        invariant ok ==> forall k | i <= k < i + j :: FreeSlot(s[k])
        invariant !ok ==> !FreeRun(s, i, n)
      {
        var f := buf[32 * (i + j)];
        assert s[i + j][0] == f;
        if f != 0x00 && f != 0xE5 {
          ok := false;
        }
        j := j + 1;
      }
      if ok {
        return;
      }
      i := i + 1;
    }
    i := -1;
  }
}
