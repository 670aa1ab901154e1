/** Directory entries on bytes: what the directory writer prints for a long name, the state machine
    with which the reader parses it back, and the proof that the two undo each other
    (FAT32 File System Specification, section "FAT Long Directory Entries"). */
module DirFormat {
  import opened Bytes

  type Slot = s: seq<byte> | |s| == 32 witness Zeros(32)

  const ZERO_SLOT: Slot := Zeros(32)

  datatype Option<T> = None | Some(value: T)

  /** A directory entry as a caller of the writer sees it. */
  datatype Entry = Entry(name: seq<byte>, first: u32, size: u32, attr: byte)

  predicate NoNul(s: seq<byte>) {
    forall i | 0 <= i < |s| :: s[i] != 0
  }

  const SLASH: byte := 47

  predicate NoSlash(s: seq<byte>) {
    forall i | 0 <= i < |s| :: s[i] != SLASH
  }

  /** 1 to 63 bytes, none of them NUL; a leading 0xE5 would read as a deleted entry. */
  predicate NameOk(n: seq<byte>) {
    1 <= |n| <= 63 && NoNul(n) && n[0] != 0xE5
  }

  predicate IsLfnAttr(attr: byte) { attr % 16 == 0x0F }

  predicate EntryOk(e: Entry) {
    NameOk(e.name) && !IsLfnAttr(e.attr)
  }

  // ---- names ----

  function Upper(c: byte): byte {
    if 'a' as int <= c <= 'z' as int then c - 32 else c
  }

  /** Two bytes are the same letter, whatever its case, or the same byte. */
  predicate SameLetter(c: byte, d: byte) {
    c == d || (65 <= c <= 90 && d == c + 32) || (65 <= d <= 90 && c == d + 32)
  }

  predicate SameName(a: seq<byte>, b: seq<byte>) {
    |a| == |b| && forall i | 0 <= i < |a| :: SameLetter(a[i], b[i])
  }

  lemma FoldSame(a: seq<byte>, b: seq<byte>)
    ensures Fold(a) == Fold(b) <==> SameName(a, b)
  {
    if Fold(a) == Fold(b) {
      forall i | 0 <= i < |a| ensures SameLetter(a[i], b[i]) {
        assert Fold(a)[i] == Fold(b)[i];
      }
    }
  }

  function Fold(s: seq<byte>): (r: seq<byte>)
    ensures |r| == |s| && forall i | 0 <= i < |s| :: r[i] == Upper(s[i])
  {
    seq(|s|, i requires 0 <= i < |s| => Upper(s[i]))
  }

  /** Index of the last dot, or -1. */
  function LastDot(s: seq<byte>): (d: int)
    ensures -1 <= d < |s|
    ensures d >= 0 ==> s[d] == '.' as int
    ensures forall i | d < i < |s| :: s[i] != '.' as int
  {
    if s == [] then -1
    else if s[|s| - 1] == '.' as int then |s| - 1
    else LastDot(s[..|s| - 1])
  }

  /** `d` is the place of the last dot, or -1. */
  predicate LastDotAt(s: seq<byte>, d: int) {
    -1 <= d < |s| && (d >= 0 ==> s[d] == 46) && forall i | d < i < |s| :: s[i] != 46
  }

  /** Where the extension starts, or 11 when there is none (and also when it does start at 11). */
  function ExtAt(s: seq<byte>): nat {
    if LastDot(s) == -1 then 11 else LastDot(s)
  }

  function FatNameByte(s: seq<byte>, i: nat): byte
    requires i < 12
  {
    var ext := ExtAt(s);
    if i < 8 then (if i < |s| && i < ext then Upper(s[i]) else 0x20)
    else if i < 11 then (if ext != 11 && ext + 1 + (i - 8) < |s| then Upper(s[ext + 1 + (i - 8)]) else 0x20)
    else 0
  }

  function FatName(s: seq<byte>): (r: seq<byte>)
    ensures |r| == 12 && forall i | 0 <= i < 12 :: r[i] == FatNameByte(s, i)
  {
    seq(12, i requires 0 <= i < 12 => FatNameByte(s, i))
  }

  /** The short name the writer stores: extension bytes zero when the name has no dot. */
  function ShortName(s: seq<byte>): (r: seq<byte>)
    ensures |r| == 11 && forall i | 0 <= i < 11 :: r[i] == if i >= 8 && LastDot(s) == -1 then 0 else FatNameByte(s, i)
  {
    seq(11, i requires 0 <= i < 11 => if i >= 8 && LastDot(s) == -1 then 0 else FatNameByte(s, i))
  }

  function SumStep(s: byte, c: byte): byte {
    ((if s % 2 == 1 then 0x80 else 0) + s / 2 + c) % 0x100
  }

  function Checksum(fn: seq<byte>): byte {
    if fn == [] then 0 else SumStep(Checksum(fn[..|fn| - 1]), fn[|fn| - 1])
  }

  // ---- printing ----

  function LfnCount(name: seq<byte>): nat { (|name| + 12) / 13 }

  /** UTF-16 unit `i` of the printed name: its bytes, a terminator, then filler. */
  function NameUnit(name: seq<byte>, i: nat): u16 {
    if i < |name| then name[i] else if i == |name| then 0 else 0xFFFF
  }

  /** Byte offset of the `j`-th of the thirteen units of a long-name slot. */
  function UnitOffset(j: nat): nat
    requires j < 13
    ensures UnitOffset(j) < 31
  {
    if j < 5 then 1 + 2 * j else if j < 11 then 4 + 2 * j else 6 + 2 * j
  }

  function LfnByte(name: seq<byte>, chunk: nat, order: byte, sum: byte, i: nat): byte
    requires i < 32
  {
    if i == 0 then order
    else if i < 11 then Le16(NameUnit(name, chunk * 13 + (i - 1) / 2))[(i - 1) % 2]
    else if i == 11 then 0x0F
    else if i == 12 then 0
    else if i == 13 then sum
    else if i < 26 then Le16(NameUnit(name, chunk * 13 + (i - 4) / 2))[(i - 4) % 2]
    else if i < 28 then 0
    else Le16(NameUnit(name, chunk * 13 + (i - 6) / 2))[(i - 6) % 2]
  }

  function OrderByte(k: nat, n: nat): byte
    requires k < n <= 20
  {
    if k == 0 then n + 0x40 else n - k
  }

  /** Long-name slot `k` of `n`; the first one printed holds the last chunk and carries 0x40. */
  function LfnSlot(name: seq<byte>, k: nat, n: nat, sum: byte): (r: Slot)
    requires k < n <= 20
    ensures forall i | 0 <= i < 32 :: r[i] == LfnByte(name, n - 1 - k, OrderByte(k, n), sum, i)
  {
    seq(32, i requires 0 <= i < 32 => LfnByte(name, n - 1 - k, OrderByte(k, n), sum, i))
  }

  function SfnSlot(e: Entry): (r: Slot) {
    ShortName(e.name) + [e.attr] + Zeros(8) + Le16(e.first / 0x1_0000) + Zeros(4)
    + Le16(e.first % 0x1_0000) + Le32(e.size)
  }

  function SlotFirst(s: Slot): u32 { Get16(s, 26) + Get16(s, 20) * 0x1_0000 }

  function SlotSize(s: Slot): u32 { Get32(s, 28) }

  function SlotAttr(s: Slot): byte { s[11] }

  /** All slots of one entry, in disk order. */
  function Group(e: Entry): (g: seq<Slot>)
    requires EntryOk(e)
    ensures |g| == LfnCount(e.name) + 1 <= 6
  {
    var n := LfnCount(e.name);
    seq(n, k requires 0 <= k < n => LfnSlot(e.name, k, n, Checksum(ShortName(e.name)))) + [SfnSlot(e)]
  }

  // ---- parsing ----

  /** The variables of the reader's loop. */
  datatype Scan = Scan(lfn: bool, order: byte, sum: byte, buf: seq<byte>, found: Option<Slot>)

  const START := Scan(false, 0, 0, Zeros(256), None)

  function Chars(s: Slot): (r: seq<byte>)
    ensures |r| == 13 && forall j | 0 <= j < 13 :: r[j] == s[UnitOffset(j)]
  {
    seq(13, j requires 0 <= j < 13 => s[UnitOffset(j)])
  }

  /** The offset of a chunk in the name buffer is an 8-bit variable. */
  function StoreOffset(order: byte): (off: byte)
    ensures 1 <= order <= 20 ==> off == (order - 1) * 13
  {
    ((order - 1) * 13) % 0x100
  }

  /** Store a slot's characters at its chunk of the name buffer. */
  function Store(buf: seq<byte>, order: byte, s: Slot): (r: seq<byte>) {
    var off := StoreOffset(order);
    if off + 13 <= |buf| then Splice(buf, off, Chars(s)) else buf
  }

  /** A NUL-terminated buffer as a string. */
  function CStr(buf: seq<byte>): (r: seq<byte>)
    ensures NoNul(r) && r <= buf
    ensures |r| < |buf| ==> buf[|r|] == 0
  {
    if buf == [] || buf[0] == 0 then [] else [buf[0]] + CStr(buf[1..])
  }

  function NormalStep(s: Scan, e: Slot, q: seq<byte>): Scan {
    if IsLfnAttr(e[11]) then
      if e[0] / 0x40 % 2 == 0 then s
      else Scan(true, e[0] % 0x40, e[13], Store(Zeros(256), e[0] % 0x40, e), s.found)
    else if e[..11] == FatName(q)[..11] then s.(found := Some(e))
    else s
  }

  /** The short entry at the end of a long name. */
  function ShortStep(t: Scan, e: Slot, q: seq<byte>): Scan {
    if t.sum != Checksum(e[..11]) then NormalStep(t, e, q)
    else if Fold(CStr(t.buf)) == Fold(q) then t.(found := Some(e))
    else t
  }

  /** One slot seen by `fat32_lookup_in_dir` looking for `q`. */
  function Step(s: Scan, e: Slot, q: seq<byte>): Scan {
    if !s.lfn then NormalStep(s, e, q)
    else
      var o := (s.order + 0xFF) % 0x100;
      if o == 0 && IsLfnAttr(e[11]) then s.(lfn := false, order := o)
      else if o != 0 && !IsLfnAttr(e[11]) then NormalStep(s.(lfn := false, order := o), e, q)
      else if o == 0 then ShortStep(s.(lfn := false, order := o), e, q)
      else if e[0] != o then s.(lfn := false, order := o)
      else s.(order := o, buf := Store(s.buf, o, e))
  }

  function Run(s: Scan, slots: seq<Slot>, q: seq<byte>): Scan {
    if slots == [] then s else Step(Run(s, slots[..|slots| - 1], q), slots[|slots| - 1], q)
  }

  lemma {:induction false} RunConcat(s: Scan, a: seq<Slot>, b: seq<Slot>, q: seq<byte>)
    ensures Run(s, a + b, q) == Run(Run(s, a, q), b, q)
    decreases |b|
  {
    if b == [] {
      assert a + b == a;
    } else {
      var m := |b| - 1;
      assert (a + b)[..|a + b| - 1] == a + b[..m];
      RunConcat(s, a, b[..m], q);
    }
  }

  // ---- the parser undoes the printer ----

  lemma ShortNameFirstByte(name: seq<byte>)
    requires NoNul(name)
    ensures FatName(name)[0] != 0
    ensures NameOk(name) ==> ShortName(name)[0] != 0 && ShortName(name)[0] != 0xE5
  {
  }

  /** `s` is a long-name slot holding chunk `c` of `name`. */
  ghost predicate IsChunk(s: Slot, name: seq<byte>, c: nat, order: byte, sum: byte) {
    && s[11] == 0x0F && s[13] == sum && s[0] == order
    && forall j | 0 <= j < 13 :: Chars(s)[j] == NameUnit(name, c * 13 + j) % 0x100
  }

  lemma LfnSlotIsChunk(name: seq<byte>, k: nat, n: nat, sum: byte)
    requires k < n <= 5
    ensures IsChunk(LfnSlot(name, k, n, sum), name, n - 1 - k, OrderByte(k, n), sum)
  {
    var s, c := LfnSlot(name, k, n, sum), n - 1 - k;
    forall j | 0 <= j < 13 ensures Chars(s)[j] == NameUnit(name, c * 13 + j) % 0x100 {
      var i := UnitOffset(j);
      assert s[i] == LfnByte(name, c, OrderByte(k, n), sum, i);
    }
  }

  /** The name buffer once the chunks from `k` up have been stored. */
  ghost predicate Filled(buf: seq<byte>, name: seq<byte>, k: nat, n: nat) {
    |buf| == 256 && forall i | 0 <= i < 256 :: buf[i] == if k * 13 <= i < n * 13 then NameUnit(name, i) % 0x100 else 0
  }

  lemma StoreFills(buf: seq<byte>, name: seq<byte>, k: nat, n: nat, s: Slot)
    requires k < n <= 5 && Filled(buf, name, k + 1, n)
    requires forall j | 0 <= j < 13 :: Chars(s)[j] == NameUnit(name, k * 13 + j) % 0x100
    ensures Filled(Store(buf, k + 1, s), name, k, n)
  {
    var t, off := Store(buf, k + 1, s), StoreOffset(k + 1);
    assert off == k * 13;
    assert t == Splice(buf, off, Chars(s));
    forall i | 0 <= i < 256
      ensures t[i] == if k * 13 <= i < n * 13 then NameUnit(name, i) % 0x100 else 0
    {
      var j := i - k * 13;
      if 0 <= j < 13 {
        assert k * 13 + j == i;
        assert t[i] == Chars(s)[j];
        assert NameUnit(name, k * 13 + j) == NameUnit(name, i);
      } else {
        assert t[i] == buf[i];
      }
    }
  }

  /** The first printed slot starts a name. */
  lemma StepFirst(s: Scan, e: Slot, name: seq<byte>, n: nat, sum: byte, q: seq<byte>)
    requires 1 <= n <= 5 && !s.lfn && IsChunk(e, name, n - 1, n + 0x40, sum)
    ensures var t := Step(s, e, q);
            t.lfn && t.order == n && t.sum == sum && t.found == s.found && Filled(t.buf, name, n - 1, n)
  {
    StoreFills(Zeros(256), name, n - 1, n, e);
    OrderOfFirst(n);
  }

  lemma OrderOfFirst(n: nat)
    requires 1 <= n <= 20
    ensures (n + 0x40) / 0x40 % 2 == 1 && (n + 0x40) % 0x40 == n
  {
  }

  /** Every later one continues it, down to chunk `c`. */
  lemma StepNext(s: Scan, e: Slot, name: seq<byte>, c: nat, n: nat, sum: byte, q: seq<byte>)
    requires c + 1 < n <= 5 && IsChunk(e, name, c, c + 1, sum)
    requires s.lfn && s.order == c + 2 && s.sum == sum && Filled(s.buf, name, c + 1, n)
    ensures var t := Step(s, e, q);
            t.lfn && t.order == c + 1 && t.sum == sum && t.found == s.found && Filled(t.buf, name, c, n)
  {
    StoreFills(s.buf, name, c, n, e);
    assert (s.order + 0xFF) % 0x100 == c + 1;
  }

  lemma {:induction false} RunLfn(s: Scan, name: seq<byte>, c: nat, sum: byte, q: seq<byte>, slots: seq<Slot>)
    requires NameOk(name) && c < LfnCount(name) && !s.lfn
    requires |slots| == LfnCount(name) - c
    requires forall j | 0 <= j < |slots| :: slots[j] == LfnSlot(name, j, LfnCount(name), sum)
    ensures var t := Run(s, slots, q);
            && t.lfn && t.order == c + 1 && t.sum == sum && t.found == s.found
            && Filled(t.buf, name, c, LfnCount(name))
    decreases |slots|
  {
    var n, m := LfnCount(name), |slots| - 1;
    var prev, e := slots[..m], slots[m];
    assert e == LfnSlot(name, m, n, sum);
    LfnSlotIsChunk(name, m, n, sum);
    if m == 0 {
      StepFirst(s, e, name, n, sum, q);
    } else {
      RunLfn(s, name, c + 1, sum, q, prev);
      StepNext(Run(s, prev, q), e, name, c, n, sum, q);
    }
  }

  lemma FilledIsName(buf: seq<byte>, name: seq<byte>)
    requires NameOk(name) && Filled(buf, name, 0, LfnCount(name))
    ensures CStr(buf) == name
  {
    assert forall i | 0 <= i < |name| :: buf[i] == name[i];
    assert buf[|name|] == 0;
    CStrIs(buf, name);
  }

  lemma {:induction false} CStrIs(buf: seq<byte>, name: seq<byte>)
    requires NoNul(name) && name <= buf && |name| < |buf| && buf[|name|] == 0
    ensures CStr(buf) == name
    decreases |name|
  {
    if name != [] {
      CStrIs(buf[1..], name[1..]);
    }
  }

  /** Reading one printed entry: found exactly when the names agree up to case. */
  lemma RunGroup(s: Scan, e: Entry, q: seq<byte>)
    requires EntryOk(e) && !s.lfn
    ensures var t := Run(s, Group(e), q);
            !t.lfn && t.found == if Fold(e.name) == Fold(q) then Some(SfnSlot(e)) else s.found
  {
    var n, g := LfnCount(e.name), Group(e);
    RunLfn(s, e.name, 0, Checksum(ShortName(e.name)), q, g[..n]);
    assert g[..|g| - 1] == g[..n];
    StepSfn(Run(s, g[..n], q), e, q);
  }

  lemma StepSfn(t: Scan, e: Entry, q: seq<byte>)
    requires EntryOk(e) && t.lfn && t.order == 1 && t.sum == Checksum(ShortName(e.name))
    requires Filled(t.buf, e.name, 0, LfnCount(e.name))
    ensures var u := Step(t, SfnSlot(e), q);
            !u.lfn && u.found == if Fold(e.name) == Fold(q) then Some(SfnSlot(e)) else t.found
  {
    var r := SfnSlot(e);
    FilledIsName(t.buf, e.name);
    assert r[..11] == ShortName(e.name);
    assert r[11] == e.attr;
  }

  lemma {:induction false} RunZeros(s: Scan, n: nat, q: seq<byte>)
    requires !s.lfn && NoNul(q)
    ensures Run(s, seq(n, i => ZERO_SLOT), q) == s
  {
    if n > 0 {
      var z := seq(n, i => ZERO_SLOT);
      assert z[..n - 1] == seq(n - 1, i => ZERO_SLOT);
      RunZeros(s, n - 1, q);
      ShortNameFirstByte(q);
      assert ZERO_SLOT[..11][0] != FatName(q)[..11][0];
    }
  }

  // ---- whole clusters ----

  ghost predicate EntriesOk(es: seq<Entry>) {
    forall i | 0 <= i < |es| :: EntryOk(es[i])
  }

  function Groups(es: seq<Entry>): seq<Slot>
    requires EntriesOk(es)
  {
    if es == [] then [] else Groups(es[..|es| - 1]) + Group(es[|es| - 1])
  }

  /** A directory cluster of `cap` slots holding `es`. */
  function DirSlots(es: seq<Entry>, cap: nat): (r: seq<Slot>)
    requires EntriesOk(es) && |Groups(es)| <= cap
    ensures |r| == cap
  {
    Groups(es) + seq(cap - |Groups(es)|, i => ZERO_SLOT)
  }

  function LastMatch(es: seq<Entry>, q: seq<byte>): (r: Option<Entry>)
    ensures r.None? <==> forall e | e in es :: Fold(e.name) != Fold(q)
    ensures r.Some? ==> r.value in es && Fold(r.value.name) == Fold(q)
  {
    if es == [] then None
    else if Fold(es[|es| - 1].name) == Fold(q) then Some(es[|es| - 1])
    else LastMatch(es[..|es| - 1], q)
  }

  function FoundSlot(o: Option<Entry>, before: Option<Slot>): Option<Slot> {
    if o.Some? then Some(SfnSlot(o.value)) else before
  }

  lemma {:induction false} RunGroups(s: Scan, es: seq<Entry>, q: seq<byte>)
    requires EntriesOk(es) && !s.lfn
    ensures var t := Run(s, Groups(es), q);
            !t.lfn && t.found == FoundSlot(LastMatch(es, q), s.found)
    decreases |es|
  {
    if es != [] {
      var m := |es| - 1;
      RunGroups(s, es[..m], q);
      RunConcat(s, Groups(es[..m]), Group(es[m]), q);
      RunGroup(Run(s, Groups(es[..m]), q), es[m], q);
    }
  }

  /** Reading a whole cluster finds the last entry in it whose name matches. */
  lemma RunCluster(s: Scan, es: seq<Entry>, cap: nat, q: seq<byte>)
    requires EntriesOk(es) && |Groups(es)| <= cap && !s.lfn && NoNul(q)
    ensures var t := Run(s, DirSlots(es, cap), q);
            !t.lfn && t.found == FoundSlot(LastMatch(es, q), s.found)
  {
    var z := cap - |Groups(es)|;
    RunConcat(s, Groups(es), seq(z, i => ZERO_SLOT), q);
    RunGroups(s, es, q);
    RunZeros(Run(s, Groups(es), q), z, q);
  }

  /** The fields a caller takes from the slot it gets back are the ones that were written. */
  lemma SfnSlotFields(e: Entry)
    ensures SlotFirst(SfnSlot(e)) == e.first && SlotSize(SfnSlot(e)) == e.size && SlotAttr(SfnSlot(e)) == e.attr
  {
    var s := SfnSlot(e);
    assert s[20..22] == Le16(e.first / 0x1_0000);
    assert s[26..28] == Le16(e.first % 0x1_0000);
    assert s[28..32] == Le32(e.size);
  }
}
