/** Shared memory regions: reference counts, physical frames, page tables and the shared range allocator. */
module SharedMemory {

  const MAX_SHM := 64
  const MAX_PAGES := 64
  const MAX_PROCS := 32

  type Frames = s: seq<nat> | |s| == MAX_PAGES witness seq(MAX_PAGES, i => 0)
  type Addresses = s: seq<nat> | |s| == MAX_PROCS witness seq(MAX_PROCS, i => 0)
  function NoAddresses(): Addresses { seq(MAX_PROCS, i => 0) }
  type PageCount = n: nat | n <= MAX_PAGES

  /** One entry of the region table. `virt[pid]` is where process `pid` has it attached, 0 if it has not. */
  datatype Region = Region(used: bool, id: nat, refs: int, pageCount: PageCount, pages: Frames, virt: Addresses)

  /** A page of one process's address space. */
  datatype Page = Page(pid: nat, va: nat)

  /** A range of virtual addresses handed out once. */
  datatype Range = Range(lo: nat, hi: nat)

  function AlignUp(x: nat): (r: nat)
    ensures x <= r < x + 4096 && r % 4096 == 0
  {
    (x + 4095) / 4096 * 4096
  }

  /** Number of processes a region is attached to. */
  function Attached(virt: seq<nat>): nat {
    if virt == [] then 0 else Attached(virt[..|virt| - 1]) + if virt[|virt| - 1] != 0 then 1 else 0
  }

  lemma {:induction false} AttachedUpdate(virt: seq<nat>, p: nat, x: nat)
    requires p < |virt|
    ensures Attached(virt[p := x]) == Attached(virt) - (if virt[p] != 0 then 1 else 0) + (if x != 0 then 1 else 0)
  {
    var m := |virt| - 1;
    if p == m {
      assert virt[p := x][..m] == virt[..m];
    } else {
      assert virt[p := x][..m] == virt[..m][p := x];
      AttachedUpdate(virt[..m], p, x);
    }
  }

  lemma {:induction false} AttachedNone(virt: seq<nat>)
    ensures Attached(virt) == 0 <==> forall p | 0 <= p < |virt| :: virt[p] == 0
  {
    if virt != [] {
      AttachedNone(virt[..|virt| - 1]);
      assert forall p | 0 <= p < |virt| - 1 :: virt[p] == virt[..|virt| - 1][p];
    }
  }

  lemma LastOut(virt: seq<nat>, p: nat, refs: int)
    requires p < |virt| && virt[p] != 0 && refs == Attached(virt)
    ensures refs >= 1 && (refs == 1 ==> forall q | 0 <= q < |virt| && q != p :: virt[q] == 0)
  {
    var rest := virt[p := 0];
    AttachedUpdate(virt, p, 0);
    AttachedNone(rest);
    assert forall q | 0 <= q < |virt| && q != p :: rest[q] == virt[q];
  }

  /** Page `page` is one of the first `n` pages of the run at `virt` in process `pid`. */
  predicate InRun(page: Page, pid: nat, virt: nat, n: nat) {
    page.pid == pid && virt <= page.va < virt + n * 4096 && (page.va - virt) % 4096 == 0
  }

  /** One more page of the run. */
  lemma InRunNext(pid: nat, virt: nat, k: nat, page: Page)
    requires page == Page(pid, virt + k * 4096)
    ensures forall q :: InRun(q, pid, virt, k + 1) <==> InRun(q, pid, virt, k) || q == page
    ensures Index(page, virt) == k
  {
    forall q | InRun(q, pid, virt, k + 1) && !InRun(q, pid, virt, k) ensures q == page {
      var d := q.va - virt;
      assert d == d / 4096 * 4096;
    }
  }

  function Index(page: Page, virt: nat): nat
    requires virt <= page.va
  {
    (page.va - virt) / 4096
  }

  ghost function SetOf(s: seq<nat>): set<nat> {
    set x | x in s
  }

  lemma {:induction false} Members(s: seq<nat>)
    ensures |SetOf(s)| <= |s|
  {
    if s == [] {
      assert SetOf(s) == {};
    } else {
      Members(s[..|s| - 1]);
      assert SetOf(s) == SetOf(s[..|s| - 1]) + {s[|s| - 1]};
    }
  }

  lemma {:induction false} DistinctFit(s: seq<nat>, t: set<nat>)
    requires forall k | 0 <= k < |s| :: s[k] in t
    requires forall k, l | 0 <= k < l < |s| :: s[k] != s[l]
    ensures |s| <= |t|
  {
    if s != [] {
      var n := |s| - 1;
      DistinctFit(s[..n], t - {s[n]});
    }
  }

  // ---- what each call does ----

  /** The region table, the next id, the address space handed out and the free frames. */
  datatype Snap = Snap(slots: seq<Region>, counter: nat, space: nat, free: set<nat>)

  ghost predicate Known(slots: seq<Region>, i: nat, id: nat) {
    i < |slots| && slots[i].used && slots[i].id == id
  }

  /** Slot `at` holds a new region of `n` frames that were free, attached nowhere. */
  ghost predicate NewAt(a: Snap, b: Snap, at: nat, n: nat) {
    && at < |a.slots| == |b.slots| && 0 < n <= 64 && !a.slots[at].used
    && b.slots == a.slots[at := Region(true, a.counter, 0, n, b.slots[at].pages, NoAddresses())]
    && (forall k | 0 <= k < n :: b.slots[at].pages[k] in a.free)
    && (forall k, l | 0 <= k < l < n :: b.slots[at].pages[k] != b.slots[at].pages[l])
    && (forall f :: f in b.free <==> f in a.free && f !in b.slots[at].pages[..n])
  }

  ghost predicate DidCreate(a: Snap, b: Snap, n: nat, r: nat) {
    && b.space == a.space && |b.slots| == |a.slots|
    && if n == 0 || n > 64 || (forall i | 0 <= i < |a.slots| :: a.slots[i].used) || |a.free| < n then
         && r == 0 && b.counter == a.counter && b.free == a.free
         && forall i | 0 <= i < |a.slots| :: if a.slots[i].used then b.slots[i] == a.slots[i] else !b.slots[i].used
       else
         r == a.counter && b.counter == r + 1 && exists at {:trigger NewAt(a, b, at, n)} :: NewAt(a, b, at, n)
  }

  /** Attaching the region in slot `i`: the same address again, or a new range after everything handed out before. */
  ghost predicate AttachAt(a: Snap, b: Snap, i: nat, pid: nat, r: nat) {
    && i < |a.slots| && pid < 32
    && var was := a.slots[i];
       if was.virt[pid] != 0 then r == was.virt[pid] && b == a
       else
         && r == AlignUp(a.space) && b.space == r + was.pageCount * 4096 && 0 < was.pageCount
         && b.slots == a.slots[i := was.(virt := was.virt[pid := r], refs := was.refs + 1)]
  }

  ghost predicate DidAttach(a: Snap, b: Snap, pid: nat, id: nat, r: nat) {
    && b.counter == a.counter && b.free == a.free
    && if pid >= 32 || (forall i | 0 <= i < |a.slots| :: !Known(a.slots, i, id)) then r == 0 && b == a
       else exists i :: Known(a.slots, i, id) && AttachAt(a, b, i, pid, r)
  }

  /** A region before and after process `pid` left it; the last to leave frees it. */
  ghost predicate Left(was: Region, now: Region, pid: nat)
    requires pid < 32
  {
    if !was.used || was.virt[pid] == 0 then now == was
    else if was.refs > 1 then now == was.(virt := was.virt[pid := 0], refs := was.refs - 1)
    else !now.used
  }

  ghost predicate DidDetach(a: Snap, b: Snap, pid: nat, id: nat) {
    && b.counter == a.counter && b.space == a.space && |b.slots| == |a.slots|
    && (pid >= 32 ==> b == a)
    && (pid < 32 ==> forall i | 0 <= i < |a.slots| ::
          if Known(a.slots, i, id) then Left(a.slots[i], b.slots[i], pid) else b.slots[i] == a.slots[i])
  }

  ghost predicate DidDetachAll(a: Snap, b: Snap, pid: nat) {
    && b.counter == a.counter && b.space == a.space && |b.slots| == |a.slots|
    && (pid >= 32 ==> b == a)
    && (pid < 32 ==> forall i | 0 <= i < |a.slots| :: Left(a.slots[i], b.slots[i], pid))
  }

  /** Three ranges, one after the other. */
  ghost predicate DidProcess(a: Snap, b: Snap, r: nat) {
    && r == AlignUp(a.space) && b.slots == a.slots && b.counter == a.counter && b.free == a.free
    && b.space == AlignUp(AlignUp(r + 0x10_0000) + 0x100_0000) + 0x1_0000
  }

  ghost predicate Did(op: Op, a: Snap, b: Snap, r: nat) {
    match op
    case OpProcess => DidProcess(a, b, r)
    case OpCreate(n) => DidCreate(a, b, n, r)
    case OpAttach(pid, id) => DidAttach(a, b, pid, id, r)
    case OpDetach(pid, id) => DidDetach(a, b, pid, id)
    case OpDetachAll(pid) => DidDetachAll(a, b, pid)
  }

  /** The first `n` calls of a run: snapshot `j` is the state before call `j`, and `log[j]` what it returned. */
  ghost predicate Ran(ops: seq<Op>, log: seq<nat>, snaps: seq<Snap>, n: nat) {
    && n <= |ops| && |log| == n && |snaps| == n + 1
    && forall j {:trigger RanAt(ops, log, snaps, j)} | 0 <= j < n :: RanAt(ops, log, snaps, j)
  }

  ghost predicate RanAt(ops: seq<Op>, log: seq<nat>, snaps: seq<Snap>, j: nat) {
    j < |ops| && j < |log| && j + 1 < |snaps| && Did(ops[j], snaps[j], snaps[j + 1], log[j])
  }

  lemma RanMore(ops: seq<Op>, log: seq<nat>, snaps: seq<Snap>, n: nat, r: nat, b: Snap)
    requires Ran(ops, log, snaps, n) && n < |ops| && Did(ops[n], snaps[n], b, r)
    ensures Ran(ops, log + [r], snaps + [b], n + 1)
  {
    forall j | 0 <= j < n ensures RanAt(ops, log + [r], snaps + [b], j) {
      assert RanAt(ops, log, snaps, j);
    }
  }

  lemma DidGrows(op: Op, a: Snap, b: Snap, r: nat)
    requires Did(op, a, b, r)
    ensures a.counter <= b.counter && a.space <= b.space
  {
  }

  lemma {:induction false} RanGrows(ops: seq<Op>, log: seq<nat>, snaps: seq<Snap>, n: nat, i: nat, j: nat)
    requires Ran(ops, log, snaps, n) && i <= j <= n
    ensures snaps[i].counter <= snaps[j].counter && snaps[i].space <= snaps[j].space
    decreases j
  {
    if i < j {
      RanGrows(ops, log, snaps, n, i, j - 1);
      assert RanAt(ops, log, snaps, j - 1);
      DidGrows(ops[j - 1], snaps[j - 1], snaps[j], log[j - 1]);
    }
  }

  /** Over any run, no id is given out twice. */
  lemma IdsIncrease(ops: seq<Op>, log: seq<nat>, snaps: seq<Snap>, n: nat, i: nat, j: nat)
    requires Ran(ops, log, snaps, n) && i < j < n && ops[i].OpCreate? && ops[j].OpCreate?
    requires log[i] != 0 && log[j] != 0
    ensures log[i] < log[j]
  {
    assert RanAt(ops, log, snaps, i) && RanAt(ops, log, snaps, j);
    RanGrows(ops, log, snaps, n, i + 1, j);
  }

  /** A call that moves the end of the shared address space hands out memory from `log[i]` up to the new end. Over
      any run such memory is never handed out again: not to the same process, nor to another. */
  lemma RangesNeverReturn(ops: seq<Op>, log: seq<nat>, snaps: seq<Snap>, n: nat, i: nat, j: nat)
    requires Ran(ops, log, snaps, n) && i < j < n
    requires snaps[i].space < snaps[i + 1].space && snaps[j].space < snaps[j + 1].space
    ensures snaps[i].space <= log[i] < snaps[i + 1].space <= log[j] < snaps[j + 1].space
  {
    assert RanAt(ops, log, snaps, i) && RanAt(ops, log, snaps, j);
    RanGrows(ops, log, snaps, n, i + 1, j);
  }

  datatype Op = OpProcess | OpCreate(pages: nat) | OpAttach(pid: nat, id: nat) | OpDetach(pid: nat, id: nat)
              | OpDetachAll(pid: nat)

  class Shm {
    var slots: seq<Region>
    var counter: nat
    var spaceUsed: nat               // user_space_used
    var free: set<nat>               // the frames the physical allocator holds
    var tables: map<Page, nat>       // the page tables: which frame a page maps to
    ghost var frames: set<nat>       // all frames there are
    ghost var handed: set<Range>     // every virtual range ever handed out
    ghost var owner: map<Page, nat>  // the slot a mapping was made for

    // ---- the invariant ----

    ghost predicate FramesOk(i: nat)
      requires i < |slots|
      reads this
    {
      var r := slots[i];
      r.used ==>
        && 0 < r.pageCount && 0 < r.id < counter && r.refs == Attached(r.virt)
        && (forall k | 0 <= k < r.pageCount :: r.pages[k] in frames && r.pages[k] !in free)
        && (forall k, l | 0 <= k < l < r.pageCount :: r.pages[k] != r.pages[l])
    }

    /** Two live regions differ in name and share no frame. */
    ghost predicate Apart(i: nat, j: nat)
      requires i < |slots| && j < |slots|
      reads this
    {
      slots[i].used && slots[j].used && i != j ==>
        && slots[i].id != slots[j].id
        && forall k, l | 0 <= k < slots[i].pageCount && 0 <= l < slots[j].pageCount ::
           slots[i].pages[k] != slots[j].pages[l]
    }

    /** An attachment has a range of its own, and every page of it is mapped to the region's frame. */
    ghost predicate AttachmentOk(i: nat, p: nat)
      requires i < |slots| && p < MAX_PROCS
      reads this
    {
      var r := slots[i];
      r.used && r.virt[p] != 0 ==>
        && r.virt[p] % 4096 == 0 && Range(r.virt[p], r.virt[p] + r.pageCount * 4096) in handed
        && forall page {:trigger page in tables} {:trigger InRun(page, p, r.virt[p], r.pageCount)} |
             InRun(page, p, r.virt[p], r.pageCount) ::
             page in tables && page in owner && owner[page] == i
             && tables[page] == r.pages[Index(page, r.virt[p])]
    }

    /** A mapping belongs to an attachment of a live region. */
    ghost predicate MappingOk(page: Page)
      requires page in tables
      reads this
    {
      && page in owner && owner[page] < |slots|
      && var r := slots[owner[page]];
         && r.used && page.pid < MAX_PROCS && r.virt[page.pid] != 0
         && InRun(page, page.pid, r.virt[page.pid], r.pageCount)
    }

    ghost predicate RangesOk() reads this {
      && (forall r {:trigger r in handed} | r in handed :: 0 < r.lo < r.hi <= spaceUsed)
      && (forall r, s {:trigger r in handed, s in handed} | r in handed && s in handed && r != s ::
          r.hi <= s.lo || s.hi <= r.lo)
    }

    /** Every frame is free or owned by a live region. */
    ghost predicate Owns(i: nat, f: nat)
      requires i < |slots|
      reads this
    {
      slots[i].used && f in slots[i].pages[..slots[i].pageCount]
    }

    ghost predicate FrameKept(f: nat) reads this {
      f in free || exists i {:trigger Owns(i, f)} :: 0 <= i < |slots| && Owns(i, f)
    }

    ghost predicate Inv()
      reads this
    {
      && |slots| == MAX_SHM && 0 < counter && 0 < spaceUsed && free <= frames && 0 !in frames
      && (forall i {:trigger FramesOk(i)} | 0 <= i < MAX_SHM :: FramesOk(i))
      && (forall i, j {:trigger Apart(i, j)} | 0 <= i < MAX_SHM && 0 <= j < MAX_SHM :: Apart(i, j))
      && (forall i, p {:trigger AttachmentOk(i, p)} | 0 <= i < MAX_SHM && 0 <= p < MAX_PROCS :: AttachmentOk(i, p))
      && (forall page {:trigger MappingOk(page)} | page in tables :: MappingOk(page))
      && (forall f {:trigger FrameKept(f)} | f in frames :: FrameKept(f))
      && RangesOk()
    }

    ghost function Now(): Snap
      reads this
    {
      Snap(slots, counter, spaceUsed, free)
    }

    // ---- the physical allocator, the shared range allocator ----

    /** One frame, or 0 when none is left. */
    method AllocFrame() returns (f: nat)
      requires 0 !in free
      modifies this`free
      ensures f == 0 ==> free == old(free) == {}
      ensures f != 0 ==> f in old(free) && free == old(free) - {f}
    {
      if free == {} {
        return 0;
      }
      f :| f in free;
      free := free - {f};
    }

    method FreeFrame(f: nat)
      modifies this`free
      ensures free == old(free) + {f}
    {
      free := free + {f};
    }

    /** Round `user_space_used` up to a page and take `size` bytes from there. */
    method TakeRange(size: nat) returns (lo: nat)
      requires Inv() && 0 < size
      modifies this`spaceUsed, this`handed
      ensures Inv() && lo == AlignUp(old(spaceUsed)) && spaceUsed == lo + size
      ensures handed == old(handed) + {Range(lo, lo + size)}
      ensures forall r | r in old(handed) :: r.hi <= lo
    {
      lo := AlignUp(spaceUsed);
      spaceUsed := lo + size;
      handed := handed + {Range(lo, lo + size)};
      SameTables();
    }

    twostate lemma SameTables()
      requires old(Inv()) && slots == old(slots) && counter == old(counter) && free == old(free)
               && tables == old(tables)
      requires frames == old(frames) && owner == old(owner) && old(handed) <= handed && 0 < spaceUsed && RangesOk()
      ensures Inv()
    {
      forall i | 0 <= i < MAX_SHM ensures FramesOk(i) { assert old(FramesOk(i)); }
      forall i, j | 0 <= i < MAX_SHM && 0 <= j < MAX_SHM ensures Apart(i, j) { assert old(Apart(i, j)); }
      forall i, p | 0 <= i < MAX_SHM && 0 <= p < MAX_PROCS ensures AttachmentOk(i, p) {
        assert old(AttachmentOk(i, p));
      }
      forall page | page in tables ensures MappingOk(page) { assert old(MappingOk(page)); }
      forall f | f in frames ensures FrameKept(f) {
        assert old(FrameKept(f));
        if f !in free {
          var i :| 0 <= i < MAX_SHM && old(Owns(i, f));
          assert Owns(i, f);
        }
      }
    }

    /** The address ranges of a new process: 1 MB of code, 16 MB of heap, 64 KB of stack. */
    method ProcRanges() returns (code: nat, heap: nat, stack: nat)
      requires Inv()
      modifies this`spaceUsed, this`handed
      ensures Inv()
      ensures handed == old(handed) + {Range(code, code + 0x10_0000), Range(heap, heap + 0x100_0000),
              Range(stack, stack + 0x1_0000)}
      ensures forall r | r in old(handed) :: r.hi <= code
      ensures code + 0x10_0000 <= heap && heap + 0x100_0000 <= stack && stack + 0x1_0000 == spaceUsed
      ensures DidProcess(old(Now()), Now(), code)
    {
      code := TakeRange(0x10_0000);
      heap := TakeRange(0x100_0000);
      stack := TakeRange(0x1_0000);
    }

    // ---- shm_create ----

    method FindSlot() returns (i: int)
      ensures -1 <= i < |slots| && (i >= 0 ==> !slots[i].used)
      ensures i < 0 ==> forall j | 0 <= j < |slots| :: slots[j].used
    {
      i := 0;
      while i < |slots|
        invariant 0 <= i <= |slots| && forall j | 0 <= j < i :: slots[j].used
      {
        if !slots[i].used {
          return;
        }
        i := i + 1;
      }
      i := -1;
    }

    /** The first `n` frames of slot `at` were just taken from the allocator. */
    twostate predicate Taken(at: nat, n: nat)
      reads this
    {
      && |slots| == |old(slots)| && at < |slots| && n <= MAX_PAGES
      && slots == old(slots)[at := old(slots)[at].(pages := slots[at].pages)]
      && (forall k | 0 <= k < n :: slots[at].pages[k] in old(free))
      && (forall k, l | 0 <= k < l < n :: slots[at].pages[k] != slots[at].pages[l])
      && (forall f :: f in free <==> f in old(free) && f !in slots[at].pages[..n])
    }

    /** Take `n` frames for slot `at`, all or none. */
    method TakeFrames(at: nat, n: nat) returns (ok: bool)
      requires at < |slots| && n <= MAX_PAGES && 0 !in free
      modifies this`slots, this`free
      ensures ok ==> Taken(at, n)
      ensures !ok ==> |old(free)| < n
      ensures !ok ==> free == old(free) && |slots| == |old(slots)|
                      && slots == old(slots)[at := old(slots)[at].(pages := slots[at].pages)]
    {
      var i := 0;
      while i < n
        invariant 0 <= i <= n && Taken(at, i)
      {
        var f := AllocFrame();
        if f == 0 {
          assert old(free) == SetOf(slots[at].pages[..i]);
          Members(slots[at].pages[..i]);
          GiveBack(at, i);
          assert free == old(free);
          return false;
        }
        ghost var was := slots[at].pages;
        slots := slots[at := slots[at].(pages := slots[at].pages[i := f])];
        assert slots[at].pages[..i + 1] == was[..i] + [f];
        i := i + 1;
      }
      ok := true;
    }

    method GiveBack(at: nat, n: nat)
      requires at < |slots| && n <= MAX_PAGES
      modifies this`free
      ensures forall f :: f in free <==> f in old(free) || f in slots[at].pages[..n]
    {
      var j := 0;
      while j < n
        invariant 0 <= j <= n
        invariant forall f :: f in free <==> f in old(free) || f in slots[at].pages[..j]
      {
        FreeFrame(slots[at].pages[j]);
        assert slots[at].pages[..j + 1] == slots[at].pages[..j] + [slots[at].pages[j]];
        j := j + 1;
      }
    }

    twostate lemma CreatedOk(new at: nat, new n: nat)
      requires old(Inv()) && n <= MAX_PAGES && NewAt(old(Now()), Now(), at, n) && counter == old(counter) + 1
      requires tables == old(tables) && frames == old(frames) && owner == old(owner) && handed == old(handed)
               && spaceUsed == old(spaceUsed)
      ensures Inv()
    {
      assert old(FramesOk(at));
      AttachedNone(slots[at].virt);
      forall i | 0 <= i < MAX_SHM ensures FramesOk(i) { assert old(FramesOk(i)); }
      forall i, j | 0 <= i < MAX_SHM && 0 <= j < MAX_SHM ensures Apart(i, j) {
        assert old(Apart(i, j)) && old(FramesOk(i)) && old(FramesOk(j));
      }
      forall i, p | 0 <= i < MAX_SHM && 0 <= p < MAX_PROCS ensures AttachmentOk(i, p) {
        assert old(AttachmentOk(i, p));
      }
      forall page | page in tables ensures MappingOk(page) { assert old(MappingOk(page)); }
      forall f | f in frames ensures FrameKept(f) {
        assert old(FrameKept(f));
        if f !in old(free) {
          var i :| 0 <= i < MAX_SHM && old(Owns(i, f));
          assert Owns(i, f);
        } else if f !in free {
          assert Owns(at, f);
        }
      }
    }

    /** Nothing depends on the frame list of an unused slot. */
    twostate lemma UnusedChange(new at: nat)
      requires old(Inv()) && at < MAX_SHM && |slots| == MAX_SHM && !old(slots)[at].used
      requires slots == old(slots)[at := old(slots)[at].(pages := slots[at].pages)]
      requires counter == old(counter) && spaceUsed == old(spaceUsed) && free == old(free) && tables == old(tables)
      requires frames == old(frames) && owner == old(owner) && handed == old(handed)
      ensures Inv()
    {
      assert old(FramesOk(at));
      forall i | 0 <= i < MAX_SHM ensures FramesOk(i) { assert old(FramesOk(i)); }
      forall i, j | 0 <= i < MAX_SHM && 0 <= j < MAX_SHM ensures Apart(i, j) { assert old(Apart(i, j)); }
      forall i, p | 0 <= i < MAX_SHM && 0 <= p < MAX_PROCS ensures AttachmentOk(i, p) {
        assert old(AttachmentOk(i, p));
      }
      forall page | page in tables ensures MappingOk(page) { assert old(MappingOk(page)); }
      forall f | f in frames ensures FrameKept(f) {
        assert old(FrameKept(f));
        if f !in free {
          var i :| 0 <= i < MAX_SHM && old(Owns(i, f));
          assert Owns(i, f);
        }
      }
    }

    /** `shm_create`: a fresh id and `pages` frames of its own, or nothing at all. */
    method Create(pages: nat) returns (id: nat)
      requires Inv()
      modifies this`slots, this`free, this`counter
      ensures Inv()
      ensures DidCreate(old(Now()), Now(), pages, id)
    {
      if pages == 0 || pages > MAX_PAGES {
        return 0;
      }
      var at := FindSlot();
      if at < 0 {
        return 0;
      }
      assert FramesOk(at);
      var ok := TakeFrames(at, pages);
      if !ok {
        UnusedChange(at);
        return 0;
      }
      id := counter;
      counter := counter + 1;
      slots := slots[at := slots[at].(id := id, pageCount := pages, refs := 0, used := true, virt := NoAddresses())];
      assert NewAt(old(Now()), Now(), at, pages);
      DistinctFit(slots[at].pages[..pages], old(free));
      CreatedOk(at, pages);
    }

    // ---- shm_attach ----

    method Find(id: nat) returns (i: int)
      ensures -1 <= i < |slots| && (i >= 0 ==> slots[i].used && slots[i].id == id)
      ensures i < 0 ==> forall j | 0 <= j < |slots| :: !(slots[j].used && slots[j].id == id)
    {
      i := 0;
      while i < |slots|
        invariant 0 <= i <= |slots| && forall j | 0 <= j < i :: !(slots[j].used && slots[j].id == id)
      {
        if slots[i].used && slots[i].id == id {
          return;
        }
        i := i + 1;
      }
      i := -1;
    }

    /** The first `n` pages at `virt` are mapped to the frames of slot `i`, and no other page changed. */
    twostate predicate MappedRun(i: nat, pid: nat, virt: nat, n: nat)
      reads this
    {
      && i < |slots| && n <= MAX_PAGES
      && (forall page :: page in tables <==> page in old(tables) || InRun(page, pid, virt, n))
      && (forall page :: page in owner <==> page in old(owner) || InRun(page, pid, virt, n))
      && (forall page | page in tables ::
            tables[page] == if InRun(page, pid, virt, n) then slots[i].pages[Index(page, virt)] else old(tables)[page])
      && (forall page | page in owner :: owner[page] == if InRun(page, pid, virt, n) then i else old(owner)[page])
    }

    method MapRun(i: nat, pid: nat, virt: nat, n: nat)
      requires i < |slots| && n <= MAX_PAGES
      modifies this`tables, this`owner
      ensures MappedRun(i, pid, virt, n)
    {
      var k := 0;
      while k < n
        invariant 0 <= k <= n && MappedRun(i, pid, virt, k)
      {
        var page := Page(pid, virt + k * 4096);
        InRunNext(pid, virt, k, page);
        tables := tables[page := slots[i].pages[k]];
        owner := owner[page := i];
        k := k + 1;
      }
    }

    /** What attaching region `id`, in slot `i`, at `virt` did. */
    twostate predicate AttachedAt(i: nat, id: nat, pid: nat, virt: nat)
      reads this
    {
      && i < |old(slots)| && old(slots)[i].used && old(slots)[i].id == id && pid < MAX_PROCS
      && var was := old(slots)[i];
         if was.virt[pid] != 0 then virt == was.virt[pid] && slots == old(slots) && tables == old(tables)
         else
           && virt == AlignUp(old(spaceUsed)) && MappedRun(i, pid, virt, was.pageCount)
           && slots == old(slots)[i := was.(virt := was.virt[pid := virt], refs := was.refs + 1)]
    }

    /** `shm_attach`: the same address again if already attached, otherwise a new range mapped to the region's
        frames. */
    method Attach(pid: nat, id: nat) returns (virt: nat)
      requires Inv()
      modifies this`slots, this`spaceUsed, this`handed, this`tables, this`owner
      ensures Inv()
      ensures old(handed) <= handed && DidAttach(old(Now()), Now(), pid, id, virt)
      ensures virt == 0 <==> pid >= 32 || forall i | 0 <= i < 64 ::
              !(old(slots)[i].used && old(slots)[i].id == id)
      ensures virt != 0 ==> exists i {:trigger AttachedAt(i, id, pid, virt)} :: AttachedAt(i, id, pid, virt)
    {
      var i := Find(id);
      if i < 0 {
        return 0;
      }
      if pid >= MAX_PROCS {
        return 0;
      }
      assert FramesOk(i) && AttachmentOk(i, pid) && Known(slots, i, id);
      if slots[i].virt[pid] != 0 {
        assert AttachAt(old(Now()), Now(), i, pid, slots[i].virt[pid]);
        virt := slots[i].virt[pid];
        assert AttachedAt(i, id, pid, virt);
        return;
      }
      virt := TakeRange(slots[i].pageCount * 4096);
      MapRun(i, pid, virt, slots[i].pageCount);
      var r := slots[i];
      slots := slots[i := r.(virt := r.virt[pid := virt], refs := r.refs + 1)];
      assert AttachedAt(i, id, pid, virt) && AttachAt(old(Now()), Now(), i, pid, virt);
      AttachedOk(i, pid, virt);
    }

    twostate lemma AttachedOk(new i: nat, new pid: nat, new virt: nat)
      requires old(Inv()) && i < MAX_SHM && pid < MAX_PROCS && |old(slots)| == MAX_SHM && |slots| == MAX_SHM
      requires old(slots)[i].used && old(slots)[i].virt[pid] == 0
      requires slots == old(slots)[i := old(slots)[i].(virt := old(slots)[i].virt[pid := virt],
               refs := old(slots)[i].refs + 1)]
      requires MappedRun(i, pid, virt, slots[i].pageCount)
      requires virt % 4096 == 0 && old(spaceUsed) <= virt && spaceUsed == virt + slots[i].pageCount * 4096
      requires handed == old(handed) + {Range(virt, spaceUsed)} && RangesOk()
      requires counter == old(counter) && free == old(free) && frames == old(frames)
      ensures Inv()
    {
      AttachedUpdate(old(slots)[i].virt, pid, virt);
      forall j | 0 <= j < MAX_SHM ensures FramesOk(j) { assert old(FramesOk(j)); }
      forall j, l | 0 <= j < MAX_SHM && 0 <= l < MAX_SHM ensures Apart(j, l) { assert old(Apart(j, l)); }
      forall j, p | 0 <= j < MAX_SHM && 0 <= p < MAX_PROCS ensures AttachmentOk(j, p) {
        assert old(AttachmentOk(j, p)) && old(FramesOk(j));
      }
      forall page | page in tables ensures MappingOk(page) { assert page in old(tables) ==> old(MappingOk(page)); }
      forall f | f in frames ensures FrameKept(f) {
        assert old(FrameKept(f));
        if f !in free {
          var j :| 0 <= j < MAX_SHM && old(Owns(j, f));
          assert Owns(j, f);
        }
      }
    }

    // ---- shm_detach ----

    /** The first `n` pages at `virt` are unmapped, and no other page changed. */
    twostate predicate UnmappedRun(pid: nat, virt: nat, n: nat)
      reads this
    {
      && (forall page :: page in tables <==> page in old(tables) && !InRun(page, pid, virt, n))
      && (forall page | page in tables :: tables[page] == old(tables)[page])
    }

    method UnmapRun(pid: nat, virt: nat, n: nat)
      modifies this`tables
      ensures UnmappedRun(pid, virt, n)
    {
      var k := 0;
      while k < n
        invariant 0 <= k <= n && UnmappedRun(pid, virt, k)
      {
        var page := Page(pid, virt + k * 4096);
        InRunNext(pid, virt, k, page);
        tables := tables - {page};
        k := k + 1;
      }
    }

    /** `shm_free_phys`: the frames of a region go back to the allocator and the slot is unused. */
    method FreePhys(i: nat)
      requires Inv() && i < MAX_SHM && slots[i].used && slots[i].refs == 0
      modifies this`slots, this`free
      ensures Inv() && !slots[i].used
      ensures forall j | 0 <= j < 64 && j != i :: slots[j] == old(slots)[j]
      ensures forall f :: f in free <==> f in old(free) || f in old(slots)[i].pages[..old(slots)[i].pageCount]
    {
      assert FramesOk(i);
      ghost var was := slots[i];
      var k := 0;
      while k < slots[i].pageCount
        invariant 0 <= k <= was.pageCount && |slots| == MAX_SHM
        invariant slots == old(slots)[i := was.(pages := slots[i].pages)]
        invariant forall l | k <= l < MAX_PAGES :: slots[i].pages[l] == was.pages[l]
        invariant forall f :: f in free <==> f in old(free) || f in was.pages[..k]
      {
        assert slots[i].pages[k] != 0;
        if slots[i].pages[k] != 0 {
          FreeFrame(slots[i].pages[k]);
          slots := slots[i := slots[i].(pages := slots[i].pages[k := 0])];
        }
        assert was.pages[..k + 1] == was.pages[..k] + [was.pages[k]];
        k := k + 1;
      }
      slots := slots[i := slots[i].(used := false, refs := 0)];
      FreedOk(i);
    }

    twostate lemma FreedOk(new i: nat)
      requires old(Inv()) && i < MAX_SHM && |slots| == MAX_SHM && old(slots)[i].used && old(slots)[i].refs == 0
      requires !slots[i].used
      requires forall j | 0 <= j < MAX_SHM && j != i :: slots[j] == old(slots)[j]
      requires forall f :: f in free <==> f in old(free) || f in old(slots)[i].pages[..old(slots)[i].pageCount]
      requires counter == old(counter) && spaceUsed == old(spaceUsed) && tables == old(tables) && frames == old(frames)
      requires owner == old(owner) && handed == old(handed)
      ensures Inv()
    {
      assert old(FramesOk(i));
      AttachedNone(old(slots)[i].virt);
      forall j | 0 <= j < MAX_SHM ensures FramesOk(j) { assert old(FramesOk(j)) && old(Apart(i, j)); }
      forall j, l | 0 <= j < MAX_SHM && 0 <= l < MAX_SHM ensures Apart(j, l) { assert old(Apart(j, l)); }
      forall j, p | 0 <= j < MAX_SHM && 0 <= p < MAX_PROCS ensures AttachmentOk(j, p) {
        assert old(AttachmentOk(j, p));
      }
      forall page | page in tables ensures MappingOk(page) { assert old(MappingOk(page)); }
      forall f | f in frames ensures FrameKept(f) {
        assert old(FrameKept(f));
        if f !in free {
          var j :| 0 <= j < MAX_SHM && old(Owns(j, f));
          assert Owns(j, f);
        }
      }
    }

    /** Whatever other processes have attached stays attached where it was. */
    twostate predicate OthersKept(pid: nat)
      reads this
    {
      && |slots| == |old(slots)|
      && forall j, q {:trigger old(slots)[j].virt[q]} | 0 <= j < |slots| && 0 <= q < MAX_PROCS && q != pid
                                                        && old(slots)[j].used :: (
           old(slots)[j].virt[q] != 0 ==> slots[j].used && slots[j].virt[q] == old(slots)[j].virt[q])
    }

    /** `shm_detach`: the process's pages of the region are unmapped, and the last one to leave frees the frames. */
    method Detach(pid: nat, id: nat)
      requires Inv()
      modifies this`slots, this`free, this`tables
      ensures Inv()
      ensures pid >= 32 || (forall i | 0 <= i < 64 && old(slots)[i].used && old(slots)[i].id == id ::
              old(slots)[i].virt[pid] == 0)
              ==> slots == old(slots) && free == old(free) && tables == old(tables)
      ensures forall i | 0 <= i < 64 :: !old(slots)[i].used || old(slots)[i].id != id ==> slots[i] == old(slots)[i]
      ensures forall i | 0 <= i < 64 && pid < 32 && old(slots)[i].used && old(slots)[i].id == id
              && old(slots)[i].virt[pid] != 0 ::
                DetachedAt(i, pid)
      ensures OthersKept(pid) && DidDetach(old(Now()), Now(), pid, id)
    {
      var i := Find(id);
      if i < 0 {
        return;
      }
      if pid >= MAX_PROCS {
        return;
      }
      assert FramesOk(i) && AttachmentOk(i, pid);
      forall j | 0 <= j < MAX_SHM && slots[j].used && slots[j].id == id ensures j == i { assert Apart(i, j); }
      if slots[i].virt[pid] == 0 {
        return;
      }
      var virt := slots[i].virt[pid];
      UnmapRun(pid, virt, slots[i].pageCount);
      var r := slots[i];
      slots := slots[i := r.(virt := r.virt[pid := 0], refs := r.refs - 1)];
      DetachedOk(i, pid, virt);
      assert FramesOk(i);
      LastOut(r.virt, pid, r.refs);
      if slots[i].refs <= 0 {
        FreePhys(i);
      }
    }

    /** What detaching process `pid` from the region in slot `i` did. */
    twostate predicate DetachedAt(i: nat, pid: nat)
      reads this
    {
      && i < |old(slots)| && i < |slots| && pid < MAX_PROCS
      && var was := old(slots)[i];
         && UnmappedRun(pid, was.virt[pid], was.pageCount)
         && (slots[i].used <==> was.refs > 1)
         && (if was.refs > 1 then free == old(free)
             && slots[i] == was.(virt := was.virt[pid := 0], refs := was.refs - 1)
             else forall f :: f in free <==> f in old(free) || f in was.pages[..was.pageCount])
    }

    twostate lemma DetachedOk(new i: nat, new pid: nat, new virt: nat)
      requires old(Inv()) && i < MAX_SHM && pid < MAX_PROCS && |old(slots)| == MAX_SHM && |slots| == MAX_SHM
      requires old(slots)[i].used && old(slots)[i].virt[pid] == virt != 0
      requires slots == old(slots)[i := old(slots)[i].(virt := old(slots)[i].virt[pid := 0],
               refs := old(slots)[i].refs - 1)]
      requires UnmappedRun(pid, virt, slots[i].pageCount)
      requires spaceUsed == old(spaceUsed) && handed == old(handed) && counter == old(counter) && free == old(free)
      requires frames == old(frames) && owner == old(owner)
      ensures Inv()
    {
      AttachedUpdate(old(slots)[i].virt, pid, 0);
      forall j | 0 <= j < MAX_SHM ensures FramesOk(j) { assert old(FramesOk(j)); }
      forall j, l | 0 <= j < MAX_SHM && 0 <= l < MAX_SHM ensures Apart(j, l) { assert old(Apart(j, l)); }
      forall j, p | 0 <= j < MAX_SHM && 0 <= p < MAX_PROCS ensures AttachmentOk(j, p) {
        assert old(AttachmentOk(j, p)) && old(AttachmentOk(i, pid));
        if j != i || p != pid {
          var n, a, m := slots[i].pageCount, slots[j].virt[p], slots[j].pageCount;
          assert forall page | InRun(page, p, a, m) && slots[j].used && a != 0 :: !InRun(page, pid, virt, n);
        }
      }
      forall page | page in tables ensures MappingOk(page) { assert old(MappingOk(page)); }
      forall f | f in frames ensures FrameKept(f) {
        assert old(FrameKept(f));
        if f !in free {
          var j :| 0 <= j < MAX_SHM && old(Owns(j, f));
          assert Owns(j, f);
        }
      }
    }

    /** `shm_detach_all`: afterwards nothing of any region is attached to, or mapped in, the process. */
    method DetachAll(pid: nat)
      requires Inv()
      modifies this`slots, this`free, this`tables
      ensures Inv() && OthersKept(pid) && DidDetachAll(old(Now()), Now(), pid)
      ensures pid >= 32 ==> slots == old(slots) && free == old(free) && tables == old(tables)
      ensures pid < 32 ==> forall i | 0 <= i < 64 :: slots[i].used ==> slots[i].virt[pid] == 0
      ensures pid < 32 ==> forall page | page in tables :: page.pid != pid
    {
      if pid >= MAX_PROCS {
        return;
      }
      var i := 0;
      while i < MAX_SHM
        invariant 0 <= i <= MAX_SHM && Inv() && OthersKept(pid)
        invariant forall j | 0 <= j < i :: slots[j].used ==> slots[j].virt[pid] == 0
        invariant |old(slots)| == MAX_SHM && counter == old(counter) && spaceUsed == old(spaceUsed)
        invariant forall j | 0 <= j < MAX_SHM ::
          if j < i then Left(old(slots)[j], slots[j], pid) else slots[j] == old(slots)[j]
      {
        if slots[i].used && slots[i].virt[pid] != 0 {
          forall j | 0 <= j < MAX_SHM && slots[j].used && slots[j].id == slots[i].id ensures j == i {
            assert Apart(i, j);
          }
          Detach(pid, slots[i].id);
        }
        i := i + 1;
      }
      forall page | page in tables ensures page.pid != pid { assert MappingOk(page); }
    }

    // ---- whole runs ----

    constructor (all: set<nat>)
      requires 0 !in all
      ensures Inv() && free == frames == all && tables == map[] && handed == {}
    {
      slots := seq(MAX_SHM, i => Region(false, 0, 0, 0, seq(MAX_PAGES, j => 0), NoAddresses()));
      counter, spaceUsed, free, tables := 1, 0x4000_0000, all, map[];
      frames, handed, owner := all, {}, map[];
    }

    /** What the invariant promises about the machine: no page table maps a free frame, two mappings of one frame
        are the same page of the same region, a region counts its attachments, and a frame is free or in a live region,
        never both. */
    lemma Safe()
      requires Inv()
      ensures forall page | page in tables :: tables[page] in frames && tables[page] !in free
      ensures forall i | 0 <= i < 64 && slots[i].used :: slots[i].refs == Attached(slots[i].virt)
      ensures forall p, q | p in tables && q in tables && tables[p] == tables[q] :: SamePage(p, q)
      ensures forall f | f in frames :: (f in free <==> forall i | 0 <= i < 64 :: !Owns(i, f))
      ensures forall i, j, f | 0 <= i < 64 && 0 <= j < 64 && Owns(i, f) && Owns(j, f) :: i == j
    {
      forall page | page in tables ensures MappedFrame(page) { MappingFrame(page); }
      forall i | 0 <= i < MAX_SHM && slots[i].used ensures slots[i].refs == Attached(slots[i].virt) {
        assert FramesOk(i);
      }
      forall p, q | p in tables && q in tables && tables[p] == tables[q] ensures SamePage(p, q) {
        OneFrameOnePage(p, q);
      }
      forall i, j, f | 0 <= i < MAX_SHM && 0 <= j < MAX_SHM && Owns(i, f) && Owns(j, f) ensures i == j {
        assert Apart(i, j);
      }
      forall f | f in frames ensures f in free <==> forall i | 0 <= i < MAX_SHM :: !Owns(i, f) {
        assert FrameKept(f);
        forall i | 0 <= i < MAX_SHM && Owns(i, f) ensures f !in free { assert FramesOk(i); }
      }
    }

    /** Where page `p` lies in the region it was mapped for. */
    ghost predicate PageOf(p: Page, i: nat, k: nat)
      requires i < |slots| && p.pid < MAX_PROCS
      reads this
    {
      var r := slots[i];
      r.used && r.virt[p.pid] != 0 && InRun(p, p.pid, r.virt[p.pid], r.pageCount) && Index(p, r.virt[p.pid]) == k
    }

    /** Both are mapped to the same page of the same live region. */
    ghost predicate SamePage(p: Page, q: Page)
      reads this
    {
      && p.pid < MAX_PROCS && q.pid < MAX_PROCS
      && exists i, k {:trigger PageOf(p, i, k)} :: 0 <= i < |slots| && 0 <= k && PageOf(p, i, k) && PageOf(q, i, k)
    }

    lemma OneFrameOnePage(p: Page, q: Page)
      requires Inv() && p in tables && q in tables && tables[p] == tables[q]
      ensures SamePage(p, q)
    {
      MappingFrame(p);
      MappingFrame(q);
      assert MappedFrame(p) && MappedFrame(q) && Apart(owner[p], owner[q]);
      var i := owner[p];
      assert MappingOk(p) && MappingOk(q) && AttachmentOk(i, p.pid) && AttachmentOk(i, q.pid) && FramesOk(i);
      var r := slots[i];
      var k, l := Index(p, r.virt[p.pid]), Index(q, r.virt[q.pid]);
      assert r.pages[k] == tables[p] == tables[q] == r.pages[l];
      assert PageOf(p, i, k) && PageOf(q, i, k);
    }

    ghost predicate MappedFrame(page: Page)
      requires page in tables
      reads this
    {
      && page in owner && owner[page] < |slots| && slots[owner[page]].used
      && tables[page] in frames && tables[page] !in free
      && tables[page] in slots[owner[page]].pages[..slots[owner[page]].pageCount]
    }

    lemma MappingFrame(page: Page)
      requires Inv() && page in tables
      ensures MappedFrame(page)
    {
      assert MappingOk(page) && AttachmentOk(owner[page], page.pid) && FramesOk(owner[page]);
      var r := slots[owner[page]];
      assert r.pages[..r.pageCount][Index(page, r.virt[page.pid])] == tables[page];
    }

    method Call(op: Op) returns (r: nat)
      requires Inv()
      modifies this
      ensures Inv() && old(handed) <= handed && frames == old(frames) && Did(op, old(Now()), Now(), r)
    {
      r := 0;
      match op {
        case OpProcess =>
          var heap, stack;
          r, heap, stack := ProcRanges();
        case OpCreate(n) => r := Create(n);
        case OpAttach(pid, id) => r := Attach(pid, id);
        case OpDetach(pid, id) => Detach(pid, id);
        case OpDetachAll(pid) => DetachAll(pid);
      }
    }

    /** Over any run every call does and returns exactly what it should in the state the calls before it left, and the
        invariant holds. */
    method Run(ops: seq<Op>) returns (log: seq<nat>, ghost snaps: seq<Snap>)
      requires Inv()
      modifies this
      ensures Inv() && old(handed) <= handed && frames == old(frames)
      ensures Ran(ops, log, snaps, |ops|) && snaps[0] == old(Now()) && snaps[|ops|] == Now()
    {
      log, snaps := [], [Now()];
      for i := 0 to |ops|
        invariant Inv() && old(handed) <= handed && frames == old(frames)
        invariant Ran(ops, log, snaps, i) && snaps[0] == old(Now()) && snaps[i] == Now()
      {
        var r := Call(ops[i]);
        RanMore(ops, log, snaps, i, r, Now());
        log, snaps := log + [r], snaps + [Now()];
      }
    }
  }
}
