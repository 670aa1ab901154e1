/** Processes, tasks and register files, and the arithmetic of the scheduler. */
module Processes {

  type u64 = x: int | 0 <= x < 0x1_0000_0000_0000_0000

  const MAX_TASKS := 64
  const MAX_WAITERS := 16
  const USER_CS: u64 := 0x23
  const USER_SS: u64 := 0x1B

  datatype Status = Created | Ready | Running | Blocked | Zombie

  /** The frame the timer interrupt saves. */
  datatype Regs = Regs(
    r15: u64, r14: u64, r13: u64, r12: u64, r11: u64, r10: u64, r9: u64, r8: u64,
    rbp: u64, rdi: u64, rsi: u64, rdx: u64, rcx: u64, rbx: u64, rax: u64,
    rip: u64, cs: u64, rflags: u64, rsp: u64, ss: u64)

  datatype Proc = Proc(
    priority: u64, entry: u64, entryRsp: u64, stackBase: u64, stackSize: u64, pml4: u64, status: Status)

  datatype Task = Task(pid: nat, ctx: Regs, saved: bool, valid: bool)

  /** An entry of the list of blocked parents: who, the registers the resume path restores, and for which child. */
  datatype Waiter = Waiter(
    pid: nat, rip: u64, rsp: u64, r11: u64, cr3: u64,
    rbx: u64, rbp: u64, r12: u64, r13: u64, r14: u64, r15: u64, target: nat)

  /** What `scheduler_pick_next` looks for. */
  predicate CanRun(procs: map<nat, Proc>, t: Task) {
    t.valid && t.pid in procs && procs[t.pid].status in {Ready, Created, Running}
  }

  // ---- register files ----

  function DefaultRsp(p: Proc): u64 {
    (p.stackBase + p.stackSize - 16) % 0x1_0000_0000_0000_0000 / 16 * 16
  }

  function CleanRegs(rip: u64, rsp: u64): Regs {
    Regs(0, 0, 0, 0, 0, 0, 0, 0, 0, 0, 0, 0, 0, 0, 0, rip, USER_CS, 0x202, rsp, USER_SS)
  }

  /** How `mt_start` and `JumpToUserspace` enter a process. */
  function EntryRegs(p: Proc): Regs {
    CleanRegs(p.entry, if p.entryRsp != 0 then p.entryRsp else DefaultRsp(p))
  }

  /** How `mt_preempt` enters a task that never ran. */
  function FirstRegs(p: Proc): Regs {
    CleanRegs(p.entry, DefaultRsp(p))
  }

  /** The stack starts at the highest multiple of 16 not above its end less 16. */
  lemma DefaultRspIs(p: Proc)
    ensures var top := (p.stackBase + p.stackSize - 16) % 0x1_0000_0000_0000_0000;
            DefaultRsp(p) % 16 == 0 && DefaultRsp(p) <= top < DefaultRsp(p) + 16
  {
  }

  /** No general register but the stack pointer holds anything. */
  predicate Clear(r: Regs) {
    && r.rax == r.rbx == r.rcx == r.rdx == r.rsi == r.rdi == r.rbp == 0
    && r.r8 == r.r9 == r.r10 == r.r11 == r.r12 == r.r13 == r.r14 == r.r15 == 0
  }

  /** How a process is entered, register by register. */
  lemma EntryIs(p: Proc)
    ensures EntryRegs(p).rip == FirstRegs(p).rip == p.entry
    ensures FirstRegs(p).rsp == DefaultRsp(p)
    ensures EntryRegs(p).rsp == if p.entryRsp != 0 then p.entryRsp else DefaultRsp(p)
    ensures EntryRegs(p).rflags == FirstRegs(p).rflags == 0x202
    ensures EntryRegs(p).cs == FirstRegs(p).cs == 0x23 && EntryRegs(p).ss == FirstRegs(p).ss == 0x1B
    ensures Clear(EntryRegs(p)) && Clear(FirstRegs(p))
  {
  }

  /** Both ways in agree. */
  predicate EntryAgrees(p: Proc) {
    p.entryRsp == 0 || p.entryRsp == DefaultRsp(p)
  }

  lemma EntryAgreesExactly(p: Proc)
    ensures EntryRegs(p) == FirstRegs(p) <==> EntryAgrees(p)
  {
    assert EntryRegs(p).rsp == FirstRegs(p).rsp <==> EntryAgrees(p);
  }

  /** `resume_parent_sysret`: what the CPU holds after the system-call return. */
  function Sysret(rip: u64, rsp: u64, flags: u64, rbx: u64, rbp: u64, r12: u64, r13: u64, r14: u64, r15: u64): Regs {
    Regs(r15 := r15, r14 := r14, r13 := r13, r12 := r12, r11 := flags, r10 := 0, r9 := 0, r8 := 0,
         rbp := rbp, rdi := 0, rsi := 0, rdx := 0, rcx := rip, rbx := rbx, rax := 0,
         rip := rip, cs := USER_CS, rflags := flags, rsp := rsp, ss := USER_SS)
  }

  function WaiterRegs(w: Waiter): Regs {
    Sysret(w.rip, w.rsp, w.r11, w.rbx, w.rbp, w.r12, w.r13, w.r14, w.r15)
  }

  /** A waiter comes back at its place with its stack, flags and preserved registers, and with 0 in rax. */
  lemma WaiterIs(w: Waiter)
    ensures var r := WaiterRegs(w);
            && r.rip == w.rip && r.rsp == w.rsp && r.rflags == w.r11 && r.cs == 0x23 && r.ss == 0x1B
            && r.rbx == w.rbx && r.rbp == w.rbp && r.r12 == w.r12 && r.r13 == w.r13 && r.r14 == w.r14 && r.r15 == w.r15
            && r.rcx == w.rip && r.r11 == w.r11
            && r.rax == r.rdx == r.rsi == r.rdi == r.r8 == r.r9 == r.r10 == 0
  {
  }

  /** What is left of a register file that is resumed through `resume_parent_sysret`. */
  function Scrub(r: Regs): Regs {
    Sysret(r.rip, r.rsp, r.rflags, r.rbx, r.rbp, r.r12, r.r13, r.r14, r.r15)
  }

  /** A task stopped by the timer and resumed that way gets its registers back exactly when it had nothing to lose. */
  lemma ScrubLoses(r: Regs)
    ensures Scrub(r) == r <==>
      && r.rax == r.rdi == r.rsi == r.rdx == r.r8 == r.r9 == r.r10 == 0
      && r.rcx == r.rip && r.r11 == r.rflags && r.cs == USER_CS && r.ss == USER_SS
  {
    var s := Scrub(r);
    assert s == r <==>
      s.rax == r.rax && s.rdi == r.rdi && s.rsi == r.rsi && s.rdx == r.rdx && s.r8 == r.r8 && s.r9 == r.r9
                       && s.r10 == r.r10 && s.rcx == r.rcx && s.r11 == r.r11 && s.cs == r.cs && s.ss == r.ss;
  }

  // ---- quanta ----

  function QuantumForPriority(priority: u64): u64 {
    var p := if priority == 0 then 1 else priority;
    var q := (p * 2) % 0x1_0000_0000_0000_0000 / 128;
    if q < 1 then 1 else if q > 16 then 16 else q
  }

  lemma QuantumBounds(p: u64)
    ensures 1 <= QuantumForPriority(p) <= 16
  {
  }

  /** Higher priority never means a shorter quantum, until the doubling overflows. */
  lemma QuantumMonotone(p: u64, q: u64)
    requires p <= q < 0x8000_0000_0000_0000
    ensures QuantumForPriority(p) <= QuantumForPriority(q)
  {
  }

  /** Quanta grow with priority up to a bound exactly when the bound is below 2^63, where the doubling wraps. */
  lemma QuantumMonotoneExactly(b: u64)
    ensures (forall p: u64, q: u64 | p <= q <= b :: QuantumForPriority(p) <= QuantumForPriority(q))
       <==> b < 0x8000_0000_0000_0000
  {
    if b < 0x8000_0000_0000_0000 {
      forall p: u64, q: u64 | p <= q <= b ensures QuantumForPriority(p) <= QuantumForPriority(q) {
        QuantumMonotone(p, q);
      }
    } else {
      assert QuantumForPriority(0x7FFF_FFFF_FFFF_FFFF) == 16 && QuantumForPriority(0x8000_0000_0000_0000) == 1;
    }
  }

  /** The quantum is the priority over 64, rounded down, but at least 1 and at most 16; from 2^63 on the highest bit of
      the priority is lost. */
  lemma QuantumIs(p: u64)
    ensures p < 128 ==> QuantumForPriority(p) == 1
    ensures 128 <= p < 1024 ==> 64 * QuantumForPriority(p) <= p < 64 * QuantumForPriority(p) + 64
    ensures 1024 <= p < 0x8000_0000_0000_0000 ==> QuantumForPriority(p) == 16
    ensures 0x8000_0000_0000_0000 <= p ==> QuantumForPriority(p) == QuantumForPriority(p - 0x8000_0000_0000_0000)
  {
    if p < 1024 {
      QuantumBelow(p);
    } else if p >= 0x8000_0000_0000_0000 {
      assert (p * 2) % 0x1_0000_0000_0000_0000 == (p - 0x8000_0000_0000_0000) * 2;
    }
  }

  lemma QuantumBelow(p: u64)
    requires p < 1024
    ensures p < 128 ==> QuantumForPriority(p) == 1
    ensures 128 <= p ==> 64 * QuantumForPriority(p) <= p < 64 * QuantumForPriority(p) + 64
  {
  }

  // ---- picking ----

  /** The loop of `scheduler_pick_next`: at most `left` steps from `i`, wrapping around. */
  function Scan(r: seq<bool>, i: nat, left: nat): int
    requires i < |r|
    decreases left
  {
    if left == 0 then -1 else if r[i] then i else Scan(r, Wrap(i + 1, |r|), left - 1)
  }

  function Wrap(i: nat, n: nat): (j: nat)
    requires i <= n && 0 < n
    ensures j < n && j == i % n
  {
    if i == n then 0 else i
  }

  function PickNext(r: seq<bool>, current: int): int
    requires -1 <= current < |r|
  {
    if |r| == 0 then -1 else Scan(r, Wrap(current + 1, |r|), |r|)
  }

  /** Steps from `i` forward to `j`, going around a table of `n`. */
  function Ahead(i: nat, j: nat, n: nat): nat
    requires i < n && j < n
  {
    if i <= j then j - i else j + n - i
  }

  lemma {:induction false} ScanFirst(r: seq<bool>, i: nat, left: nat)
    requires i < |r| && left <= |r|
    ensures var k := Scan(r, i, left);
            if k == -1 then forall j | 0 <= j < |r| && Ahead(i, j, |r|) < left :: !r[j]
            else 0 <= k < |r| && r[k] && forall j | 0 <= j < |r| && Ahead(i, j, |r|) < Ahead(i, k, |r|) :: !r[j]
    decreases left
  {
    if left > 0 && !r[i] {
      var i' := Wrap(i + 1, |r|);
      ScanFirst(r, i', left - 1);
      assert forall j | 0 <= j < |r| && j != i :: Ahead(i, j, |r|) == Ahead(i', j, |r|) + 1;
    }
  }

  /** The pick is the first runnable task in cyclic order after the current one (the current one comes last),
      and -1 exactly when nothing is runnable. */
  lemma PickIsFirst(r: seq<bool>, current: int)
    requires -1 <= current < |r|
    ensures var k := PickNext(r, current);
            && -1 <= k < |r|
            && (k == -1 <==> forall j | 0 <= j < |r| :: !r[j])
            && (k != -1 ==> r[k])
            && (k != -1 ==>
                var s := Wrap(current + 1, |r|);
                forall j | 0 <= j < |r| && Ahead(s, j, |r|) < Ahead(s, k, |r|) :: !r[j])
  {
    if |r| > 0 {
      ScanFirst(r, Wrap(current + 1, |r|), |r|);
    }
  }

  // ---- ticks ----

  /** What the scheduler sees of the machine. */
  datatype Sched = Sched(runnable: seq<bool>, priorities: seq<u64>, current: int, quantum: nat, ticks: nat)
  {
    predicate Ok() {
      && |runnable| == |priorities| && 0 <= current < |runnable|
      && 1 <= quantum <= 16 && ticks < quantum
    }

    /** One user-mode timer tick. */
    function Tick(): Sched
      requires Ok()
    {
      if |runnable| < 2 then this
      else if ticks + 1 < quantum then this.(ticks := ticks + 1)
      else
        var k := PickNext(runnable, current);
        PickIsFirst(runnable, current);
        if k < 0 || k == current then this.(ticks := 0)
        else this.(ticks := 0, current := k, quantum := QuantumForPriority(priorities[k]))
    }

    function Ticks(t: nat): (s: Sched)
      requires Ok()
      ensures s.Ok() && s.runnable == runnable && s.priorities == priorities
      decreases t
    {
      if t == 0 then this else TickOk(this); Tick().Ticks(t - 1)
    }

    /** An upper bound on the ticks before task `j` runs. */
    ghost function Wait(j: nat): nat
      requires Ok() && j < |runnable|
    {
      if j == current then 0 else 16 * (Ahead(current, j, |runnable|) - 1) + (quantum - ticks)
    }
  }

  lemma TickOk(s: Sched)
    requires s.Ok()
    ensures s.Tick().Ok() && s.Tick().runnable == s.runnable && s.Tick().priorities == s.priorities
  {
    PickIsFirst(s.runnable, s.current);
  }

  lemma {:induction false} TicksMore(s: Sched, t: nat)
    requires s.Ok()
    ensures s.Ticks(t).Tick() == s.Ticks(t + 1)
    decreases t
  {
    TickOk(s);
    if t > 0 {
      TicksMore(s.Tick(), t - 1);
    }
  }

  /** Every tick brings a runnable task that is not running closer to the CPU. */
  lemma TickCloser(s: Sched, j: nat)
    requires s.Ok() && j < |s.runnable| && s.runnable[j] && j != s.current
    ensures s.Tick().Ok() && s.Tick().Wait(j) < s.Wait(j)
  {
    TickOk(s);
    PickIsFirst(s.runnable, s.current);
    var n, c, k := |s.runnable|, s.current, s.Tick().current;
    if s.ticks + 1 >= s.quantum {
      var from := Wrap(c + 1, n);
      assert Ahead(from, k, n) <= Ahead(from, j, n);
      assert Ahead(from, c, n) == n - 1;
      assert Ahead(c, j, n) == Ahead(from, j, n) + 1;
      assert k != c;
      assert k != j ==> Ahead(k, j, n) <= Ahead(c, j, n) - 1;
    }
  }

  /** No starvation: among `n` tasks with a fixed runnable set, every runnable task runs within 16 * (n - 1) ticks. */
  lemma {:induction false} NoStarvation(s: Sched, j: nat) returns (t: nat)
    requires s.Ok() && j < |s.runnable| && s.runnable[j]
    ensures t <= s.Wait(j) <= 16 * (|s.runnable| - 1)
    ensures s.Ticks(t).current == j
    decreases s.Wait(j)
  {
    if j == s.current {
      t := 0;
    } else {
      TickCloser(s, j);
      TickOk(s);
      t := NoStarvation(s.Tick(), j);
      t := t + 1;
    }
  }
}
