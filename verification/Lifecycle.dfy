/** fork, execve, exit and waitpid: processes come and go, block and are resumed. */
module Lifecycle {
  import opened Processes
  import opened Multitask

  // ---- system-call frames ----

  /** A system call that returns normally: the hardware left the return address in rcx and the flags in r11,
      the entry stub restores what a C function preserves, and the other registers hold what C left there. */
  function SyscallReturn(r: Regs, result: u64, left: Regs): Regs {
    Regs(r15 := r.r15, r14 := r.r14, r13 := r.r13, r12 := r.r12, r11 := r.r11, r10 := left.r10, r9 := left.r9,
        r8 := left.r8,
         rbp := r.rbp, rdi := left.rdi, rsi := left.rsi, rdx := left.rdx, rcx := r.rcx, rbx := r.rbx, rax := result,
         rip := r.rcx, cs := USER_CS, rflags := r.r11, rsp := r.rsp, ss := USER_SS)
  }

  /** The entry for a process that blocks in a system call. */
  function WaiterFor(pid: nat, r: Regs, cr3: u64, target: nat): Waiter {
    Waiter(pid := pid, rip := r.rcx, rsp := r.rsp, r11 := r.r11, cr3 := cr3, rbx := r.rbx, rbp := r.rbp,
           r12 := r.r12, r13 := r.r13, r14 := r.r14, r15 := r.r15, target := target)
  }

  /** A process that blocks in a call comes back as if the call had returned 0 to it. */
  lemma BlockedReturns(pid: nat, r: Regs, cr3: u64, target: nat)
    ensures WaiterRegs(WaiterFor(pid, r, cr3, target)) == SyscallReturn(r, 0, CleanRegs(0, 0))
  {
  }

  /** The frame `fork` gives the child; what it does not set is what the slot's memory held. */
  function ForkFrame(r: Regs, junk: Regs): Regs {
    junk.(rip := r.rcx, rsp := r.rsp, cs := USER_CS, rflags := 0x202, ss := USER_SS, rax := 0,
          rbx := r.rbx, rbp := r.rbp, r12 := r.r12, r13 := r.r13, r14 := r.r14, r15 := r.r15)
  }

  /** Parent and child leave `fork` at the same place with the same preserved registers, and tell each other apart
      by rax. */
  lemma ForkTwins(r: Regs, junk: Regs, left: Regs, child: u64)
    requires child > 0
    ensures var p, c := SyscallReturn(r, child, left), ForkFrame(r, junk);
            && p.rip == c.rip && p.rsp == c.rsp && p.cs == c.cs && p.ss == c.ss && p.rbx == c.rbx && p.rbp == c.rbp
            && p.r12 == c.r12 && p.r13 == c.r13 && p.r14 == c.r14 && p.r15 == c.r15
            && p.rax == child && c.rax == 0 && p.rax != c.rax
  {
  }

  /** A call returns behind the instruction that made it, with the caller's stack, flags and preserved registers and the
      result in rax. */
  lemma ReturnIs(r: Regs, result: u64, left: Regs)
    ensures var s := SyscallReturn(r, result, left);
            && s.rip == r.rcx && s.rsp == r.rsp && s.rflags == r.r11 && s.cs == 0x23 && s.ss == 0x1B && s.rax == result
            && s.rbx == r.rbx && s.rbp == r.rbp && s.r12 == r.r12 && s.r13 == r.r13 && s.r14 == r.r14 && s.r15 == r.r15
            && s.rcx == r.rcx && s.r11 == r.r11
  {
  }

  /** So does the child of `fork`, with 0 in rax and the flags of a new process. */
  lemma ForkFrameIs(r: Regs, junk: Regs)
    ensures var s := ForkFrame(r, junk);
            && s.rip == r.rcx && s.rsp == r.rsp && s.rflags == 0x202 && s.cs == 0x23 && s.ss == 0x1B && s.rax == 0
            && s.rbx == r.rbx && s.rbp == r.rbp && s.r12 == r.r12 && s.r13 == r.r13 && s.r14 == r.r14 && s.r15 == r.r15
  {
  }

  /** What has exited stays so. */
  twostate predicate ZombiesStay(k: Kernel)
    reads k
  {
    forall q | q in old(k.procs) && old(k.procs)[q].status == Zombie :: q in k.procs && k.procs[q].status == Zombie
  }

  // ---- the pieces the system calls share ----

  /** Entry `w` was added to the list, if there was room, and its process will come back with the registers it holds. */
  twostate predicate Listed(k: Kernel, w: Waiter)
    reads k
  {
    if |old(k.waiters)| < 16
    then k.waiters == old(k.waiters) + [w] && k.files == old(k.files)[w.pid := WaiterRegs(w)]
    else k.waiters == old(k.waiters) && k.files == old(k.files)
  }

  method AddWaiter(k: Kernel, w: Waiter)
    modifies k`waiters, k`files
    ensures Listed(k, w)
  {
    if |k.waiters| < MAX_WAITERS {
      k.waiters := k.waiters + [w];
      k.files := k.files[w.pid := WaiterRegs(w)];
    }
  }

  /** Put the running process on the list, if there is room, and block it. */
  method BlockCaller(k: Kernel, target: nat)
    requires k.Inv() && k.mode == User && target in k.procs
    modifies k`waiters, k`procs, k`files, k`mode
    ensures k.Inv() && k.mode == Idle
    ensures k.procs == old(k.procs)[k.running := old(k.procs)[k.running].(status := Blocked)]
    ensures Listed(k, WaiterFor(k.running, k.regs, k.cr3, target))
  {
    AddWaiter(k, WaiterFor(k.running, k.regs, k.cr3, target));
    k.procs := k.procs[k.running := k.procs[k.running].(status := Blocked)];
    k.mode := Idle;
    BlockedOk(k, target);
  }

  twostate lemma BlockedOk(k: Kernel, new target: nat)
    requires old(k.Inv()) && old(k.mode) == User && k.mode == Idle && target in old(k.procs)
    requires k.nextPid == old(k.nextPid) && k.tasks == old(k.tasks) && k.current == old(k.current)
             && k.running == old(k.running)
    requires k.procs == old(k.procs)[k.running := old(k.procs)[k.running].(status := Blocked)]
    requires k.quantum == old(k.quantum) && k.ticks == old(k.ticks) && k.regs == old(k.regs) && k.cr3 == old(k.cr3)
    requires Listed(k, WaiterFor(k.running, k.regs, k.cr3, target))
    ensures k.Inv()
  {
    forall i | 0 <= i < |k.tasks| ensures k.TaskOk(i) && k.Parked(i) {
      assert old(k.TaskOk(i)) && old(k.Parked(i)) && old(k.TaskOk(k.current));
    }
    forall i | 0 <= i < |k.waiters| ensures k.WaiterOk(i) {
      assert i < |old(k.waiters)| ==> old(k.WaiterOk(i));
      forall j | 0 <= j < |old(k.waiters)| ensures old(k.waiters)[j].pid != k.running { assert old(k.WaiterOk(j)); }
      assert k.tasks[k.current].pid == k.running;
    }
    forall q | q in k.procs ensures k.ProcOk(q) { assert old(k.ProcOk(q)); }
  }

  /** The running process becomes a zombie and its task slot is dropped. */
  method Retire(k: Kernel)
    requires k.Inv() && k.mode == User
    modifies k`procs, k`tasks, k`mode
    ensures k.Inv() && k.mode == Idle
    ensures k.procs == old(k.procs)[k.running := old(k.procs)[k.running].(status := Zombie)]
    ensures k.tasks == old(k.tasks)[k.current := old(k.tasks)[k.current].(valid := false)]
  {
    assert k.TaskOk(k.current);
    k.procs := k.procs[k.running := k.procs[k.running].(status := Zombie)];
    var i := FindTask(k, k.running);
    assert i == k.current;
    if i >= 0 {
      k.tasks := k.tasks[i := k.tasks[i].(valid := false)];
    }
    k.mode := Idle;
    RetiredOk(k);
  }

  twostate lemma RetiredOk(k: Kernel)
    requires old(k.Inv()) && old(k.mode) == User && k.mode == Idle
    requires k.nextPid == old(k.nextPid) && k.current == old(k.current) && k.running == old(k.running)
             && k.waiters == old(k.waiters)
    requires k.procs == old(k.procs)[k.running := old(k.procs)[k.running].(status := Zombie)]
    requires k.tasks == old(k.tasks)[k.current := old(k.tasks)[k.current].(valid := false)]
    requires k.quantum == old(k.quantum) && k.ticks == old(k.ticks) && k.files == old(k.files)
    ensures k.Inv()
  {
    forall i | 0 <= i < |k.tasks| ensures k.TaskOk(i) && k.Parked(i) {
      assert old(k.TaskOk(i)) && old(k.Parked(i)) && old(k.TaskOk(k.current));
    }
    forall i | 0 <= i < |k.waiters| ensures k.WaiterOk(i) {
      assert old(k.WaiterOk(i));
      var j :| 0 <= j < |old(k.tasks)| && old(k.tasks)[j].pid == k.waiters[i].pid;
      assert k.tasks[j].pid == k.waiters[i].pid;
    }
    forall q | q in k.procs ensures k.ProcOk(q) { assert old(k.ProcOk(q)); }
  }

  /** The first task of process `pid`, or -1. */
  method FindTask(k: Kernel, pid: nat) returns (i: int)
    ensures -1 <= i < |k.tasks|
    ensures i >= 0 ==> k.tasks[i].pid == pid && forall j | 0 <= j < i :: k.tasks[j].pid != pid
    ensures i < 0 ==> forall j | 0 <= j < |k.tasks| :: k.tasks[j].pid != pid
  {
    i := 0;
    while i < |k.tasks|
      invariant 0 <= i <= |k.tasks| && forall j | 0 <= j < i :: k.tasks[j].pid != pid
    {
      if k.tasks[i].pid == pid {
        return;
      }
      i := i + 1;
    }
    i := -1;
  }

  // ---- giving the CPU to someone else ----

  /** How the list of waiters drops entry `i`: the last entry takes its place. */
  function SwapRemove<T>(s: seq<T>, i: nat): (r: seq<T>)
    requires i < |s|
    ensures |r| == |s| - 1
  {
    s[i := s[|s| - 1]][..|s| - 1]
  }

  lemma SwapRemoveKeeps<T>(s: seq<T>, i: nat)
    requires i < |s|
    ensures multiset(SwapRemove(s, i)) == multiset(s) - multiset{s[i]}
  {
    var n := |s| - 1;
    var r, last := SwapRemove(s, i), s[n];
    if i == n {
      assert s == r + [last];
    } else {
      var a, m := s[..i], s[i + 1..n];
      assert s == a + [s[i]] + m + [last];
      assert r == a + [last] + m;
    }
  }

  /** Take entry `i` off the list and resume its process where it blocked. */
  method ResumeWaiter(k: Kernel, i: nat)
    requires k.Inv() && k.mode == Idle && i < |k.waiters|
    modifies k`waiters, k`procs, k`running, k`current, k`regs, k`cr3, k`mode
    ensures k.Inv() && k.mode == User && k.waiters == SwapRemove(old(k.waiters), i)
    ensures k.running == old(k.waiters)[i].pid && k.running in old(k.procs)
    ensures k.procs == old(k.procs)[k.running := old(k.procs)[k.running].(status := Running)]
  {
    var w := k.waiters[i];
    assert k.WaiterOk(i);
    k.waiters := SwapRemove(k.waiters, i);
    k.procs := k.procs[w.pid := k.procs[w.pid].(status := Running)];
    k.running := w.pid;
    var at := FindTask(k, w.pid);
    assert old(k.TaskOk(at));
    k.current := at;
    k.regs, k.cr3 := WaiterRegs(w), w.cr3;
    k.mode := User;
    ResumedOk(k, i, at);
  }

  twostate lemma ResumedOk(k: Kernel, new x: nat, new at: nat)
    requires old(k.Inv()) && old(k.mode) == Idle && k.mode == User && x < |old(k.waiters)|
    requires k.waiters == SwapRemove(old(k.waiters), x) && k.running == old(k.waiters)[x].pid
             && k.running in old(k.procs)
    requires k.procs == old(k.procs)[k.running := old(k.procs)[k.running].(status := Running)]
    requires k.current == at < |k.tasks| && k.tasks[at].pid == k.running && k.tasks == old(k.tasks)
    requires k.regs == WaiterRegs(old(k.waiters)[x]) && k.cr3 == old(k.waiters)[x].cr3
    requires k.nextPid == old(k.nextPid) && k.quantum == old(k.quantum) && k.ticks == old(k.ticks)
             && k.files == old(k.files)
    ensures k.Inv()
  {
    assert old(k.WaiterOk(x)) && old(k.TaskOk(at));
    forall i | 0 <= i < |k.tasks| ensures k.TaskOk(i) && k.Parked(i) { assert old(k.TaskOk(i)) && old(k.Parked(i)); }
    forall i | 0 <= i < |k.waiters| ensures k.WaiterOk(i) {
      assert old(k.WaiterOk(i)) && old(k.WaiterOk(|k.waiters| - 1));
    }
    forall q | q in k.procs ensures k.ProcOk(q) { assert old(k.ProcOk(q)); }
  }

  /** The register file of a process that is picked without having been waited for. */
  ghost function Picked(t: Task, r: Regs): Regs {
    if t.saved then Scrub(r) else r
  }

  /** The machine between two calls. */
  datatype Snap = Snap(procs: map<nat, Proc>, nextPid: nat, tasks: seq<Task>, current: int, running: nat,
                       quantum: nat, ticks: nat, waiters: seq<Waiter>, files: map<nat, Regs>, mode: Mode)

  ghost function Now(k: Kernel): Snap
    reads k
  {
    Snap(k.procs, k.nextPid, k.tasks, k.current, k.running, k.quantum, k.ticks, k.waiters, k.files, k.mode)
  }

  /** The first task that can run, and could before, has the CPU; or there is none and nobody has it. */
  ghost predicate Took(b: Snap, procs: map<nat, Proc>, files: map<nat, Regs>) {
    if b.mode == User then
      && 0 <= b.current < |b.tasks| && CanRun(procs, b.tasks[b.current])
      && (forall j | 0 <= j < b.current :: !CanRun(b.procs, b.tasks[j]))
      && b.running == b.tasks[b.current].pid && b.running in files && b.running in procs
      && b.procs == procs[b.running := procs[b.running].(status := Running)]
      && b.files == files[b.running := Picked(b.tasks[b.current], files[b.running])]
    else
      b.files == files && b.procs == procs && forall t | t in b.tasks :: !CanRun(b.procs, t)
  }

  ghost predicate TookFirst(k: Kernel, procs: map<nat, Proc>, files: map<nat, Regs>)
    reads k
  {
    Took(Now(k), procs, files)
  }

  /** The search both `exit` and `waitpid` end with: the first task that is not blocked gets the CPU. */
  method ResumeFirst(k: Kernel)
    requires k.Inv() && k.mode == Idle
    modifies k`procs, k`running, k`current, k`regs, k`cr3, k`mode, k`files
    ensures k.Inv()
    ensures k.mode != Booting && TookFirst(k, old(k.procs), old(k.files))
  {
    var i := 0;
    while i < |k.tasks|
      invariant 0 <= i <= |k.tasks| && forall j | 0 <= j < i :: !CanRun(k.procs, k.tasks[j])
    {
      var t := k.tasks[i];
      assert k.TaskOk(i) && k.ProcOk(t.pid);
      if t.valid && k.procs[t.pid].status != Zombie && k.procs[t.pid].status != Blocked {
        RunTask(k, i);
        return;
      }
      i := i + 1;
    }
  }

  /** Put a task that can run on the CPU. */
  method RunTask(k: Kernel, i: nat)
    requires k.Inv() && k.mode == Idle && i < |k.tasks| && CanRun(k.procs, k.tasks[i])
    requires forall j | 0 <= j < i :: !CanRun(k.procs, k.tasks[j])
    modifies k`procs, k`running, k`current, k`regs, k`cr3, k`mode, k`files
    ensures k.Inv() && k.mode == User && TookFirst(k, old(k.procs), old(k.files))
  {
    var t := k.tasks[i];
    assert k.TaskOk(i) && k.Parked(i);
    StaysBlocked(k, i);
    LoadResumed(k, i);
    PickedOk(k, i);
  }

  /** The tasks before the first that can run belong to other processes. */
  lemma StaysBlocked(k: Kernel, i: nat)
    requires k.Inv() && i < |k.tasks| && CanRun(k.procs, k.tasks[i])
    requires forall j | 0 <= j < i :: !CanRun(k.procs, k.tasks[j])
    ensures var pid := k.tasks[i].pid;
            forall j | 0 <= j < i ::
              !CanRun(k.procs[pid := k.procs[pid].(status := Running)], k.tasks[j])
  {
    assert k.TaskOk(i) && forall j | 0 <= j < i :: k.TaskOk(j);
  }

  /** What `resume_parent_sysret` and the jump to a new process load. */
  method LoadResumed(k: Kernel, i: nat)
    requires i < |k.tasks| && k.tasks[i].pid in k.procs && k.tasks[i].pid in k.files
    requires k.files[k.tasks[i].pid] == if k.tasks[i].saved then k.tasks[i].ctx else EntryRegs(k.procs[k.tasks[i].pid])
    modifies k`procs, k`running, k`current, k`regs, k`cr3, k`mode, k`files
    ensures k.current == i && k.running == k.tasks[i].pid && k.mode == User
    ensures k.procs == old(k.procs)[k.running := old(k.procs)[k.running].(status := Running)]
    ensures k.cr3 == k.procs[k.running].pml4 && k.regs.cs == USER_CS && k.regs.ss == USER_SS
    ensures k.regs == Picked(k.tasks[i], old(k.files)[k.running]) && k.files == old(k.files)[k.running := k.regs]
  {
    var t := k.tasks[i];
    var p := k.procs[t.pid];
    k.current, k.running := i, t.pid;
    k.procs := k.procs[t.pid := p.(status := Running)];
    if t.saved {
      var c := t.ctx;
      k.regs, k.cr3 := Sysret(c.rip, c.rsp, c.rflags, c.rbx, c.rbp, c.r12, c.r13, c.r14, c.r15), p.pml4;
    } else {
      k.regs, k.cr3 := EntryRegs(p), p.pml4;
    }
    k.files := k.files[t.pid := k.regs];
    k.mode := User;
  }

  twostate lemma PickedOk(k: Kernel, new at: nat)
    requires old(k.Inv()) && old(k.mode) == Idle && k.mode == User && k.tasks == old(k.tasks)
    requires k.current == at < |k.tasks| && k.running == k.tasks[at].pid && CanRun(old(k.procs), k.tasks[at])
             && k.tasks[at].valid
    requires k.procs == old(k.procs)[k.running := old(k.procs)[k.running].(status := Running)]
    requires k.files == old(k.files)[k.running := k.regs] && k.cr3 == k.procs[k.running].pml4
    requires k.regs.cs == USER_CS && k.regs.ss == USER_SS
    requires k.nextPid == old(k.nextPid) && k.quantum == old(k.quantum) && k.ticks == old(k.ticks)
             && k.waiters == old(k.waiters)
    ensures k.Inv()
  {
    forall i | 0 <= i < |k.tasks| ensures k.TaskOk(i) && k.Parked(i) {
      assert old(k.TaskOk(i)) && old(k.Parked(i)) && old(k.TaskOk(at));
    }
    forall i | 0 <= i < |k.waiters| ensures k.WaiterOk(i) { assert old(k.WaiterOk(i)); }
    forall q | q in k.procs ensures k.ProcOk(q) { assert old(k.ProcOk(q)); }
  }

  // ---- exit ----

  /** The first entry waiting for process `pid`, or -1. */
  function FirstWaiter(ws: seq<Waiter>, pid: nat): (i: int)
    ensures -1 <= i < |ws|
    ensures i >= 0 ==> ws[i].target == pid && forall j | 0 <= j < i :: ws[j].target != pid
    ensures i == -1 <==> forall j | 0 <= j < |ws| :: ws[j].target != pid
  {
    if ws == [] then -1
    else
      var i := FirstWaiter(ws[..|ws| - 1], pid);
      if i >= 0 then i else if ws[|ws| - 1].target == pid then |ws| - 1 else -1
  }

  method FindWaiter(k: Kernel, pid: nat) returns (i: int)
    ensures i == FirstWaiter(k.waiters, pid)
  {
    i := 0;
    while i < |k.waiters|
      invariant 0 <= i <= |k.waiters| && forall j | 0 <= j < i :: k.waiters[j].target != pid
    {
      if k.waiters[i].target == pid {
        return;
      }
      i := i + 1;
    }
    i := -1;
  }

  /** At least two processes wait for `pid`. */
  ghost predicate Twice(ws: seq<Waiter>, pid: nat) {
    exists i, j :: 0 <= i < j < |ws| && ws[i].target == ws[j].target == pid
  }

  ghost predicate Awaited(ws: seq<Waiter>, pid: nat) {
    exists i :: 0 <= i < |ws| && ws[i].target == pid
  }

  /** Taking the first waiter for a process leaves another one exactly when there were two. */
  lemma OneLeft(ws: seq<Waiter>, i: nat, pid: nat)
    requires FirstWaiter(ws, pid) == i
    ensures Awaited(SwapRemove(ws, i), pid) <==> Twice(ws, pid)
  {
    var n, r := |ws| - 1, SwapRemove(ws, i);
    if Awaited(r, pid) {
      var k :| 0 <= k < |r| && r[k].target == pid;
      assert ws[i].target == ws[if k == i then n else k].target == pid;
    }
    if Twice(ws, pid) {
      var a, b :| 0 <= a < b < |ws| && ws[a].target == ws[b].target == pid;
      assert b > i;
      assert r[if b == n then i else b].target == pid;
    }
  }

  /** Give the CPU to the first waiter for process `pid`, else to the first task that can run, else to nobody. */
  method Leave(k: Kernel, pid: nat)
    requires k.Inv() && k.mode == Idle
    modifies k`waiters, k`procs, k`running, k`current, k`regs, k`cr3, k`mode, k`files
    ensures k.Inv() && k.mode != Booting && k.procs.Keys == old(k.procs.Keys)
    ensures forall q | q in old(k.procs) && old(k.procs)[q].status == Zombie :: k.procs[q].status == Zombie
    ensures Awaited(k.waiters, pid) <==> Twice(old(k.waiters), pid)
    ensures var i := FirstWaiter(old(k.waiters), pid);
            if i >= 0 then
              && k.mode == User && k.running == old(k.waiters)[i].pid && k.files == old(k.files)
              && k.regs == WaiterRegs(old(k.waiters)[i]) && k.running in old(k.procs)
              && k.procs == old(k.procs)[k.running := old(k.procs)[k.running].(status := Running)]
              && k.waiters == SwapRemove(old(k.waiters), i)
              && multiset(k.waiters) == multiset(old(k.waiters)) - multiset{old(k.waiters)[i]}
            else
              k.waiters == old(k.waiters) && TookFirst(k, old(k.procs), old(k.files))
  {
    var i := FindWaiter(k, pid);
    if i >= 0 {
      assert k.WaiterOk(i);
      SwapRemoveKeeps(k.waiters, i);
      OneLeft(k.waiters, i, pid);
      ResumeWaiter(k, i);
    } else {
      ResumeFirst(k);
    }
  }

  /** `exit`: the first waiter for this process resumes with exactly the registers it blocked with, and all other
      waiters stay; without a waiter the first task that can run does; without that the machine stops. Somebody is left
      waiting for the process exactly when two were. */
  method Exit(k: Kernel)
    requires k.Inv() && k.mode == User
    modifies k
    ensures ZombiesStay(k)
    ensures k.Inv() && k.mode != Booting && k.procs.Keys == old(k.procs.Keys)
            && k.procs[old(k.running)].status == Zombie
    ensures k.tasks == old(k.tasks)[old(k.current) := old(k.tasks)[old(k.current)].(valid := false)]
    ensures Awaited(k.waiters, old(k.running)) <==> Twice(old(k.waiters), old(k.running))
    ensures var i := FirstWaiter(old(k.waiters), old(k.running));
            var procs := old(k.procs)[old(k.running) := old(k.procs)[old(k.running)].(status := Zombie)];
            if i >= 0 then
              && k.mode == User && k.running == old(k.waiters)[i].pid && k.files == old(k.files)
              && k.regs == WaiterRegs(old(k.waiters)[i]) && k.running in procs
              && k.procs == procs[k.running := procs[k.running].(status := Running)]
              && k.waiters == SwapRemove(old(k.waiters), i)
              && multiset(k.waiters) == multiset(old(k.waiters)) - multiset{old(k.waiters)[i]}
            else
              k.waiters == old(k.waiters) && TookFirst(k, procs, old(k.files))
  {
    var pid := k.running;
    Retire(k);
    Leave(k, pid);
  }

  // ---- waitpid ----

  /** `waitpid`: an unknown pid fails, a zombie is reported at once, and otherwise the caller blocks until the
      process exits. */
  method Waitpid(k: Kernel, pid: u64, left: Regs)
    requires k.Inv() && k.mode == User
    modifies k
    ensures ZombiesStay(k)
    ensures k.Inv() && k.mode != Booting && k.procs.Keys == old(k.procs.Keys) && k.tasks == old(k.tasks)
    ensures |old(k.waiters)| == 16 ==> k.waiters == old(k.waiters)
    ensures pid in old(k.procs) && old(k.procs)[pid].status != Zombie && |old(k.waiters)| == 16 ==>
      TookFirst(k, old(k.procs)[old(k.running) := old(k.procs)[old(k.running)].(status := Blocked)], old(k.files))
    ensures pid !in old(k.procs) || old(k.procs)[pid].status == Zombie ==>
      && k.mode == User && k.running == old(k.running) && k.waiters == old(k.waiters) && k.procs == old(k.procs)
      && k.files == old(k.files)[k.running :=
           SyscallReturn(old(k.regs), if pid in old(k.procs) then pid else 0xFFFF_FFFF_FFFF_FFFF, left)]
    ensures pid in old(k.procs) && old(k.procs)[pid].status != Zombie && |old(k.waiters)| < 16 ==>
      var w := WaiterFor(old(k.running), old(k.regs), old(k.cr3), pid);
      var files := old(k.files)[w.pid := WaiterRegs(w)];
      && k.waiters == old(k.waiters) + [w] && k.procs[w.pid].status == Blocked
      && TookFirst(k, old(k.procs)[w.pid := old(k.procs)[w.pid].(status := Blocked)], files)
  {
    if pid !in k.procs {
      Return(k, 0xFFFF_FFFF_FFFF_FFFF, left);
    } else if k.procs[pid].status == Zombie {
      Return(k, pid, left);
    } else {
      BlockAndLeave(k, pid);
    }
  }

  method BlockAndLeave(k: Kernel, pid: nat)
    requires k.Inv() && k.mode == User && pid in k.procs
    modifies k`waiters, k`procs, k`running, k`current, k`regs, k`cr3, k`mode, k`files
    ensures ZombiesStay(k)
    ensures k.Inv() && k.mode != Booting && k.procs.Keys == old(k.procs.Keys)
            && k.procs[old(k.running)].status == Blocked
    ensures |old(k.waiters)| == 16 ==>
      && k.waiters == old(k.waiters)
      && TookFirst(k, old(k.procs)[old(k.running) := old(k.procs)[old(k.running)].(status := Blocked)], old(k.files))
    ensures |old(k.waiters)| < 16 ==>
      var w := WaiterFor(old(k.running), old(k.regs), old(k.cr3), pid);
      && k.waiters == old(k.waiters) + [w]
      && TookFirst(k, old(k.procs)[w.pid := old(k.procs)[w.pid].(status := Blocked)],
         old(k.files)[w.pid := WaiterRegs(w)])
  {
    BlockCaller(k, pid);
    NobodyRuns(k);
    ResumeFirst(k);
  }

  method NobodyRuns(k: Kernel)
    requires k.Inv() && k.mode == Idle
    modifies k`running
    ensures k.Inv()
  {
    k.running := 0;
    StillOk(k);
  }

  /** What ptr_proc_curr holds does not matter while no process is on the CPU. */
  twostate lemma StillOk(k: Kernel)
    requires old(k.Inv()) && old(k.mode) == Idle && k.mode == Idle
    requires k.nextPid == old(k.nextPid) && k.tasks == old(k.tasks) && k.current == old(k.current)
             && k.procs == old(k.procs)
    requires k.quantum == old(k.quantum) && k.ticks == old(k.ticks) && k.waiters == old(k.waiters)
             && k.files == old(k.files)
    ensures k.Inv()
  {
    forall i | 0 <= i < |k.tasks| ensures k.TaskOk(i) && k.Parked(i) { assert old(k.TaskOk(i)) && old(k.Parked(i)); }
    forall i | 0 <= i < |k.waiters| ensures k.WaiterOk(i) { assert old(k.WaiterOk(i)); }
    forall q | q in k.procs ensures k.ProcOk(q) { assert old(k.ProcOk(q)); }
  }

  /** Go back to the caller with a result. */
  method Return(k: Kernel, result: u64, left: Regs)
    requires k.Inv() && k.mode == User
    modifies k`regs, k`files
    ensures k.Inv() && k.regs == SyscallReturn(old(k.regs), result, left)
            && k.files == old(k.files)[k.running := k.regs]
  {
    var r := k.regs;
    k.UserStep(x => if x == r then SyscallReturn(r, result, left) else x);
  }

  // ---- fork ----

  /** `fork`: the child, if the table has a slot for it, owns a register file that leaves the call where the parent
      does; no other process is touched. `made` is the process the manager built, or nothing. */
  method Fork(k: Kernel, made: Proc, ok: bool, junk: Regs, left: Regs)
    requires k.Inv() && k.mode == User && made.status == Created && k.nextPid < 0xFFFF_FFFF_FFFF_FFFF
    modifies k
    ensures ZombiesStay(k)
    ensures k.Inv() && k.mode == User && k.running == old(k.running) && k.waiters == old(k.waiters)
    ensures forall q | q in old(k.procs) :: q in k.procs && k.procs[q] == old(k.procs)[q]
    ensures var child, parent := old(k.nextPid), old(k.running);
            if ok && |old(k.tasks)| < 64 then
              && k.tasks == old(k.tasks) + [Task(child, ForkFrame(old(k.regs), junk), true, true)]
              && k.procs.Keys == old(k.procs).Keys + {child} && k.procs[child].status == Created
              && k.files == old(k.files)[child := ForkFrame(old(k.regs), junk)]
                                        [parent := SyscallReturn(old(k.regs), child, left)]
            else
              && k.tasks == old(k.tasks)
              && k.files == old(k.files)[parent := SyscallReturn(old(k.regs), 0xFFFF_FFFF_FFFF_FFFF, left)]
  {
    if !ok {
      Return(k, 0xFFFF_FFFF_FFFF_FFFF, left);
      return;
    }
    FreshPid(k);
    var p := made.(priority := k.procs[k.running].priority, entry := k.regs.rcx, entryRsp := k.regs.rsp);
    var child := k.CreateProc(p);
    var added := AddChild(k, child, junk);
    Return(k, if added then child else 0xFFFF_FFFF_FFFF_FFFF, left);
  }

  /** Add a task for the child that continues where the parent called. */
  method AddChild(k: Kernel, child: nat, junk: Regs) returns (added: bool)
    requires k.Inv() && k.mode == User && child in k.procs && k.procs[child].status == Created
    requires forall i | 0 <= i < |k.tasks| :: k.tasks[i].pid != child
    requires forall i | 0 <= i < |k.waiters| :: k.waiters[i].pid != child
    modifies k`tasks, k`files
    ensures k.Inv() && (added <==> |old(k.tasks)| < 64)
    ensures !added ==> k.tasks == old(k.tasks) && k.files == old(k.files)
    ensures added ==>
      && k.tasks == old(k.tasks) + [Task(child, ForkFrame(k.regs, junk), true, true)]
      && k.files == old(k.files)[child := ForkFrame(k.regs, junk)]
  {
    var idx := k.AppendTask(child, junk);
    added := idx >= 0;
    if added {
      k.tasks := k.tasks[idx := k.tasks[idx].(ctx := ForkFrame(k.regs, junk), saved := true)];
      k.files := k.files[child := ForkFrame(k.regs, junk)];
      ForkedOk(k, child);
    }
  }

  lemma FreshPid(k: Kernel)
    requires k.Inv()
    ensures k.nextPid !in k.procs
    ensures forall i | 0 <= i < |k.tasks| :: k.tasks[i].pid != k.nextPid
    ensures forall i | 0 <= i < |k.waiters| :: k.waiters[i].pid != k.nextPid
  {
    assert k.nextPid in k.procs ==> k.ProcOk(k.nextPid);
    forall i | 0 <= i < |k.tasks| ensures k.tasks[i].pid != k.nextPid {
      assert k.TaskOk(i) && k.ProcOk(k.tasks[i].pid);
    }
    forall i | 0 <= i < |k.waiters| ensures k.waiters[i].pid != k.nextPid {
      assert k.WaiterOk(i) && k.ProcOk(k.waiters[i].pid);
    }
  }

  twostate lemma ForkedOk(k: Kernel, new child: nat)
    requires old(k.Inv()) && old(k.mode) == User && child in k.procs && k.procs[child].status == Created
    requires forall i | 0 <= i < |old(k.tasks)| :: old(k.tasks)[i].pid != child
    requires |k.tasks| <= 64 && |k.tasks| > 0 && k.tasks[..|k.tasks| - 1] == old(k.tasks)
    requires var t := k.tasks[|k.tasks| - 1];
             t.pid == child && t.saved && t.valid && t.ctx.cs == USER_CS && t.ctx.ss == USER_SS
             && k.files == old(k.files)[child := t.ctx]
    requires k.nextPid == old(k.nextPid) && k.current == old(k.current) && k.running == old(k.running)
             && k.procs == old(k.procs)
    requires k.quantum == old(k.quantum) && k.ticks == old(k.ticks) && k.regs == old(k.regs) && k.cr3 == old(k.cr3)
    requires k.mode == old(k.mode) && k.waiters == old(k.waiters)
    ensures k.Inv()
  {
    forall i | 0 <= i < |k.tasks| ensures k.TaskOk(i) && k.Parked(i) {
      assert i < |k.tasks| - 1 ==> k.tasks[i] == old(k.tasks)[i] && old(k.TaskOk(i)) && old(k.Parked(i));
    }
    forall i | 0 <= i < |k.waiters| ensures k.WaiterOk(i) { WaiterStays(k, i); }
    forall q | q in k.procs ensures k.ProcOk(q) { assert old(k.ProcOk(q)); }
  }

  /** A new task slot does not disturb a waiter. */
  twostate lemma WaiterStays(k: Kernel, new i: nat)
    requires i < |k.waiters| && old(i < |k.waiters| && k.WaiterOk(i)) && k.waiters == old(k.waiters)
    requires |old(k.tasks)| <= |k.tasks| && k.tasks[..|old(k.tasks)|] == old(k.tasks)
    requires var q := k.waiters[i].pid;
             q in k.procs && k.procs[q] == old(k.procs)[q] && q in k.files && k.files[q] == old(k.files)[q]
    requires k.waiters[i].target in k.procs
    ensures k.WaiterOk(i)
  {
    var w := k.waiters[i];
    var j :| 0 <= j < |old(k.tasks)| && old(k.tasks)[j].pid == w.pid;
    assert k.tasks[j] == k.tasks[..|old(k.tasks)|][j];
  }

  // ---- execve ----

  /** The frame `execve` prepares in the new task's slot. */
  function ExecFrame(p: Proc, junk: Regs): Regs {
    junk.(rip := p.entry, rsp := EntryRegs(p).rsp, rflags := 0x202, cs := USER_CS, ss := USER_SS, rax := 0,
          rbx := 0, rbp := 0, r12 := 0, r13 := 0, r14 := 0, r15 := 0)
  }

  /** `execve`: the caller blocks until the new process exits, and the new process starts from clean registers at its
      entry point. With a full task table the new process runs without a task, and the invariant is lost. */
  method Execve(k: Kernel, p: Proc, ok: bool, junk: Regs, left: Regs)
    requires k.Inv() && k.mode == User && p.status == Created
    modifies k
    ensures ZombiesStay(k)
    ensures !ok ==> k.Inv() && k.procs == old(k.procs) && k.tasks == old(k.tasks) && k.waiters == old(k.waiters)
                    && k.running == old(k.running)
                    && k.files == old(k.files)[k.running := SyscallReturn(old(k.regs), 0xFFFF_FFFF_FFFF_FFFF, left)]
    ensures k.mode == User
    ensures ok ==> (k.Inv() <==> |old(k.tasks)| < 64)
    ensures ok ==>
      && k.running == old(k.nextPid) && k.procs.Keys == old(k.procs).Keys + {k.running} && k.regs == EntryRegs(p)
      && k.cr3 == p.pml4
      && k.procs[old(k.running)].status == Blocked
    ensures |old(k.waiters)| == 16 ==>
      k.waiters == old(k.waiters) && (ok ==> k.files == old(k.files)[k.running := EntryRegs(p)])
    ensures ok && |old(k.tasks)| < 64 ==>
      k.current == |old(k.tasks)| && k.tasks == old(k.tasks) + [Task(k.running, ExecFrame(p, junk), true, true)]
    ensures ok && |old(k.waiters)| < 16 ==>
      var w := WaiterFor(old(k.running), old(k.regs), old(k.cr3), k.running);
      && k.waiters == old(k.waiters) + [w]
      && k.files == old(k.files)[w.pid := WaiterRegs(w)][k.running := EntryRegs(p)]
    ensures ok ==>
      && k.regs.rip == p.entry && k.regs.rflags == 0x202 && k.regs.cs == 0x23 && k.regs.ss == 0x1B && Clear(k.regs)
      && if p.entryRsp != 0 then k.regs.rsp == p.entryRsp else
           k.regs.rsp % 16 == 0
           && k.regs.rsp <= (p.stackBase + p.stackSize - 16) % 0x1_0000_0000_0000_0000 < k.regs.rsp + 16
    ensures ok && |old(k.tasks)| < 64 ==>
      var c := k.tasks[k.current].ctx;
      && c.rip == p.entry && c.rsp == k.regs.rsp && c.rflags == 0x202 && c.cs == 0x23 && c.ss == 0x1B
      && c.rax == c.rbx == c.rbp == c.r12 == c.r13 == c.r14 == c.r15 == 0
  {
    if !ok {
      Return(k, 0xFFFF_FFFF_FFFF_FFFF, left);
      return;
    }
    ExecNew(k, p, junk);
    EntryIs(p);
    DefaultRspIs(p);
  }

  /** The part of `execve` after the image is loaded. */
  method ExecNew(k: Kernel, p: Proc, junk: Regs)
    requires k.Inv() && k.mode == User && p.status == Created
    modifies k
    ensures ZombiesStay(k)
    ensures k.mode == User && (k.Inv() <==> |old(k.tasks)| < 64)
    ensures k.running == old(k.nextPid) && k.procs.Keys == old(k.procs).Keys + {k.running} && k.regs == EntryRegs(p)
            && k.cr3 == p.pml4
    ensures k.procs[old(k.running)].status == Blocked
    ensures |old(k.waiters)| == 16 ==>
      k.waiters == old(k.waiters) && k.files == old(k.files)[k.running := EntryRegs(p)]
    ensures |old(k.tasks)| < 64 ==>
      k.current == |old(k.tasks)| && k.tasks == old(k.tasks) + [Task(k.running, ExecFrame(p, junk), true, true)]
    ensures |old(k.waiters)| < 16 ==>
      var w := WaiterFor(old(k.running), old(k.regs), old(k.cr3), k.running);
      k.waiters == old(k.waiters) + [w] && k.files == old(k.files)[w.pid := WaiterRegs(w)][k.running := EntryRegs(p)]
  {
    FreshPid(k);
    var pid := k.CreateProc(p);
    BlockCaller(k, pid);
    StartNew(k, pid, p, junk);
  }

  /** Add a task for the new process and jump into it. */
  method StartNew(k: Kernel, pid: nat, p: Proc, junk: Regs)
    requires k.Inv() && k.mode == Idle && pid in k.procs && k.procs[pid] == p && p.status == Created
    requires forall i | 0 <= i < |k.tasks| :: k.tasks[i].pid != pid
    requires forall i | 0 <= i < |k.waiters| :: k.waiters[i].pid != pid
    modifies k`tasks, k`procs, k`running, k`current, k`regs, k`cr3, k`mode, k`files
    ensures k.Inv() <==> |old(k.tasks)| < 64
    ensures k.mode == User && k.running == pid && k.procs == old(k.procs)[pid := p.(status := Running)]
    ensures k.regs == EntryRegs(p) && k.cr3 == p.pml4 && k.files == old(k.files)[pid := k.regs]
    ensures |old(k.tasks)| < 64 ==>
      k.current == |old(k.tasks)| && k.tasks == old(k.tasks) + [Task(pid, ExecFrame(p, junk), true, true)]
  {
    k.running := pid;
    var idx := AddStarted(k, pid, p, junk);
    k.procs := k.procs[pid := p.(status := Running)];
    k.regs, k.cr3 := EntryRegs(p), p.pml4;
    k.files := k.files[pid := k.regs];
    k.mode := User;
    if idx >= 0 {
      StartedOk(k, pid, p);
    } else {
      NoTask(k);
    }
  }

  /** Add the task, find it again and fill in its frame. */
  method AddStarted(k: Kernel, pid: nat, p: Proc, junk: Regs) returns (idx: int)
    requires forall i | 0 <= i < |k.tasks| :: k.tasks[i].pid != pid
    modifies k`tasks, k`current
    ensures |old(k.tasks)| >= 64 ==> idx == -1 && k.tasks == old(k.tasks) && k.current == old(k.current)
    ensures |old(k.tasks)| < 64 ==>
      idx == k.current == |old(k.tasks)| && k.tasks == old(k.tasks) + [Task(pid, ExecFrame(p, junk), true, true)]
  {
    idx := k.AppendTask(pid, junk);
    var at := FindTask(k, pid);
    assert idx >= 0 ==> k.tasks[idx].pid == pid && at == idx;
    if at >= 0 {
      k.current := at;
      k.tasks := k.tasks[at := k.tasks[at].(ctx := ExecFrame(p, junk), saved := true)];
    }
  }

  lemma NoTask(k: Kernel)
    requires k.mode == User && forall i | 0 <= i < |k.tasks| :: k.tasks[i].pid != k.running
    ensures !k.Inv()
  {
  }

  twostate lemma StartedOk(k: Kernel, new pid: nat, new p: Proc)
    requires old(k.Inv()) && old(k.mode) == Idle && pid in old(k.procs) && old(k.procs)[pid] == p && p.status == Created
    requires forall i | 0 <= i < |old(k.tasks)| :: old(k.tasks)[i].pid != pid
    requires forall i | 0 <= i < |old(k.waiters)| :: old(k.waiters)[i].pid != pid
    requires |k.tasks| <= 64 && |k.tasks| > 0 && k.tasks[..|k.tasks| - 1] == old(k.tasks)
             && k.current == |k.tasks| - 1
    requires var t := k.tasks[k.current]; t.pid == pid && t.saved && t.valid
    requires k.mode == User && k.running == pid && k.procs == old(k.procs)[pid := p.(status := Running)]
    requires k.regs == EntryRegs(p) && k.cr3 == p.pml4 && k.files == old(k.files)[pid := k.regs]
    requires k.nextPid == old(k.nextPid) && k.quantum == old(k.quantum) && k.ticks == old(k.ticks)
             && k.waiters == old(k.waiters)
    ensures k.Inv()
  {
    forall i | 0 <= i < |k.tasks| ensures k.TaskOk(i) && k.Parked(i) {
      assert i < |k.tasks| - 1 ==> k.tasks[i] == old(k.tasks)[i] && old(k.TaskOk(i)) && old(k.Parked(i));
    }
    forall i | 0 <= i < |k.waiters| ensures k.WaiterOk(i) {
      assert old(k.WaiterOk(i));
      WaiterStays(k, i);
    }
    forall q | q in k.procs ensures k.ProcOk(q) { assert old(k.ProcOk(q)); }
  }

  // ---- whole runs ----

  /** What the invariant says of a reachable state: at most one process is RUNNING, and the task table, `ptr_proc_curr`,
      the register file and the page table agree on it; every listed waiter is BLOCKED and listed once. */
  lemma OneRunning(k: Kernel, p: nat)
    requires k.Inv() && p in k.procs && k.procs[p].status == Running
    ensures k.mode == User && p == k.running && 0 <= k.current < |k.tasks| && k.tasks[k.current].pid == p
            && k.tasks[k.current].valid
    ensures p in k.files && k.regs == k.files[p] && k.cr3 == k.procs[p].pml4
    ensures forall q | q in k.procs && k.procs[q].status == Running :: q == p
    ensures forall i | 0 <= i < |k.waiters| ::
      k.waiters[i].pid in k.procs && k.procs[k.waiters[i].pid].status == Blocked
    ensures forall i, j | 0 <= i < |k.waiters| && 0 <= j < |k.waiters| && k.waiters[i].pid == k.waiters[j].pid :: i == j
  {
    assert k.ProcOk(p);
    forall q | q in k.procs && k.procs[q].status == Running ensures q == p { assert k.ProcOk(q); }
    forall i | 0 <= i < |k.waiters|
      ensures k.waiters[i].pid in k.procs && k.procs[k.waiters[i].pid].status == Blocked
      ensures forall j | 0 <= j < |k.waiters| && k.waiters[j].pid == k.waiters[i].pid :: j == i
    {
      assert k.WaiterOk(i);
    }
  }

  /** The processes a list of waiters waits for in vain. */
  ghost predicate Stuck(k: Kernel, w: Waiter)
    reads k
  {
    w in k.waiters && w.target in k.procs && k.procs[w.target].status == Zombie
  }

  // ---- two waiters for one process ----

  const PLAIN: Proc := Proc(1, 0, 0, 0, 0, 0, Created)

  method AddPlain(k: Kernel, frame: Regs)
    requires k.Inv() && k.mode == Booting && |k.tasks| < 64
    modifies k`procs, k`nextPid, k`tasks, k`files
    ensures k.Inv() && k.nextPid == old(k.nextPid) + 1
    ensures k.procs == old(k.procs)[old(k.nextPid) := PLAIN]
    ensures k.tasks == old(k.tasks) + [Task(old(k.nextPid), frame, false, true)]
  {
    FreshPid(k);
    var a := k.CreateProc(PLAIN);
    var _ := k.AddTask(a, frame);
  }

  method BuildThree(frame: Regs) returns (k: Kernel)
    ensures fresh(k) && k.Inv() && k.mode == Booting
    ensures k.tasks == [Task(1, frame, false, true), Task(2, frame, false, true), Task(3, frame, false, true)]
    ensures k.procs == map[1 := PLAIN, 2 := PLAIN, 3 := PLAIN]
  {
    k := new Kernel(frame);
    AddPlain(k, frame);
    AddPlain(k, frame);
    AddPlain(k, frame);
  }

  function StatusAt(i: nat, n: nat): Status {
    if i < n then Blocked else if i == n then Running else Created
  }

  /** Process `n + 1` of three runs, and those before it wait for the third. */
  ghost predicate Scene(k: Kernel, n: nat, frame: Regs)
    reads k
  {
    && k.Inv() && k.mode == User && k.running == n + 1 && k.current == n
    && k.tasks == [Task(1, frame, false, true), Task(2, frame, false, true), Task(3, frame, false, true)]
    && k.procs == map[1 := PLAIN.(status := StatusAt(0, n)), 2 := PLAIN.(status := StatusAt(1, n)),
       3 := PLAIN.(status := StatusAt(2, n))]
    && |k.waiters| == n && forall i | 0 <= i < n :: k.waiters[i].pid == i + 1 && k.waiters[i].target == 3
  }

  method ThreeProcesses(frame: Regs) returns (k: Kernel)
    ensures fresh(k) && Scene(k, 0, frame) && k.quantum == QuantumForPriority(1) && k.ticks == 0
  {
    k := BuildThree(frame);
    assert k.Runnable(0) && k.RunnableSet()[0];
    PickIsFirst(k.RunnableSet(), -1);
    k.Start();
  }

  method NextWaits(k: Kernel, n: nat, frame: Regs)
    requires n < 2 && Scene(k, n, frame)
    modifies k
    ensures Scene(k, n + 1, frame)
  {
    ghost var next := k.tasks[n + 1];
    Waitpid(k, 3, frame);
    assert next in k.tasks;
    assert k.mode == User && k.current == n + 1;
  }

  /** A run that leaves a process waiting for one that has exited: 1 and 2 wait for 3, and 3 exits. */
  method LeaveOneStuck(frame: Regs) returns (k: Kernel, ghost w: Waiter)
    ensures fresh(k) && k.Inv() && k.mode == User && k.running == 1 && w.pid == 2 && Stuck(k, w)
  {
    k := ThreeProcesses(frame);
    NextWaits(k, 0, frame);
    NextWaits(k, 1, frame);
    w := k.waiters[1];
    Exit(k);
    assert w in multiset(k.waiters);
  }

  // ---- registers lost on the resume path ----

  /** One tick takes the first of three tasks off the CPU when its quantum is 1. */
  method SwitchAway(k: Kernel, frame: Regs)
    requires Scene(k, 0, frame) && k.quantum == 1 && k.ticks == 0
    modifies k
    ensures k.Inv() && k.mode == User && k.current == 1 && k.Pids() == old(k.Pids()) && k.files == old(k.files)
    ensures k.waiters == old(k.waiters) && k.SchedView().runnable == [true, true, true]
  {
    ghost var s := k.SchedView();
    assert s.runnable == [true, true, true];
    assert PickNext(s.runnable, 0) == Scan(s.runnable, 1, 3) == 1;
    k.SchedOk();
    k.Preempt();
  }

  /** The timer takes process 1 off the CPU just after it put 1 into rax. */
  method StepAndTick(frame: Regs) returns (k: Kernel)
    ensures fresh(k) && k.Inv() && k.mode == User && k.current == 1 && k.Pids() == [1, 2, 3] && k.waiters == []
    ensures k.SchedView().runnable == [true, true, true] && 1 in k.files && k.files[1].rax == 1
  {
    k := ThreeProcesses(frame);
    k.UserStep((r: Regs) => r.(rax := 1));
    SwitchAway(k, frame);
  }

  /** A run that loses registers: process 1 is stopped by the timer with 1 in rax, process 2 exits, and process 1 goes
      on with 0 in rax. */
  method LoseRegisters(frame: Regs) returns (k: Kernel, ghost was: Regs)
    ensures fresh(k) && k.Inv() && k.mode == User && k.running == 1
    ensures was.rax == 1 && k.regs == Scrub(was) && k.regs.rax == 0
  {
    k := StepAndTick(frame);
    was := k.files[1];
    ghost var t := k.tasks[0];
    assert k.Runnable(0) && k.Parked(0) && k.TaskOk(0) && k.TaskOk(1) && k.Pids()[0] == 1 && k.Pids()[1] == 2;
    Exit(k);
    assert k.tasks[0] == t && CanRun(k.procs, t);
  }

  // ---- a wake-up from message passing ----

  /** Process `pid` is on the list of blocked parents. */
  ghost predicate OnList(k: Kernel, pid: nat)
    reads k
  {
    exists i :: 0 <= i < |k.waiters| && k.waiters[i].pid == pid
  }

  /** Whoever is BLOCKED is on the list: it never overflowed. */
  ghost predicate AllListed(k: Kernel)
    reads k
  {
    forall q | q in k.procs && k.procs[q].status == Blocked :: OnList(k, q)
  }

  /** The frame kept for a blocked process is the one it should continue with. Only the register file says which one
      that is: the kernel itself has lost the registers of a process that blocked without being listed. */
  ghost predicate FrameKept(k: Kernel, pid: nat)
    reads k
  {
    forall i {:trigger k.tasks[i]} | 0 <= i < |k.tasks| && k.tasks[i].pid == pid && k.tasks[i].valid && pid in k.procs
        && pid in k.files ::
      k.files[pid] == if k.tasks[i].saved then k.tasks[i].ctx else EntryRegs(k.procs[pid])
  }

  /** `send_msg` makes its receiver READY if it is BLOCKED, whatever it blocked for. That is sound exactly when the
      receiver is not waiting for a process and its kept frame is current; while the list has never overflowed, exactly
      when the receiver is not BLOCKED at all. */
  method WakeReceiver(k: Kernel, pid: nat)
    requires k.Inv() && pid in k.procs
    modifies k`procs
    ensures k.procs == if old(k.procs)[pid].status == Blocked
            then old(k.procs)[pid := old(k.procs)[pid].(status := Ready)] else old(k.procs)
    ensures old(k.procs)[pid].status != Blocked ==> k.Inv()
    ensures old(k.procs)[pid].status == Blocked ==> (k.Inv() <==> !OnList(k, pid) && old(FrameKept(k, pid)))
    ensures old(AllListed(k)) ==> (k.Inv() <==> old(k.procs)[pid].status != Blocked)
  {
    assert AllListed(k) && k.procs[pid].status == Blocked ==> OnList(k, pid);

    if k.procs[pid].status == Blocked {
      k.procs := k.procs[pid := k.procs[pid].(status := Ready)];
      WokenOk(k, pid);
    }
  }

  twostate lemma WokenOk(k: Kernel, new pid: nat)
    requires old(k.Inv()) && pid in old(k.procs) && old(k.procs)[pid].status == Blocked
    requires k.procs == old(k.procs)[pid := old(k.procs)[pid].(status := Ready)]
    requires k.nextPid == old(k.nextPid) && k.tasks == old(k.tasks) && k.current == old(k.current)
             && k.running == old(k.running)
    requires k.quantum == old(k.quantum) && k.ticks == old(k.ticks) && k.waiters == old(k.waiters)
             && k.files == old(k.files)
    requires k.regs == old(k.regs) && k.cr3 == old(k.cr3) && k.mode == old(k.mode)
    ensures k.Inv() <==> !OnList(k, pid) && old(FrameKept(k, pid))
  {
    if !OnList(k, pid) && old(FrameKept(k, pid)) {
      forall i | 0 <= i < |k.tasks| ensures k.TaskOk(i) && k.Parked(i) { assert old(k.TaskOk(i)) && old(k.Parked(i)); }
      forall i | 0 <= i < |k.waiters| ensures k.WaiterOk(i) { assert old(k.WaiterOk(i)); }
      forall q | q in k.procs ensures k.ProcOk(q) { assert old(k.ProcOk(q)); }
    } else if OnList(k, pid) {
      var i :| 0 <= i < |k.waiters| && k.waiters[i].pid == pid;
      assert !k.WaiterOk(i);
    } else {
      var i :| 0 <= i < |k.tasks| && k.tasks[i].pid == pid && k.tasks[i].valid && pid in k.files
        && k.files[pid] != if k.tasks[i].saved then k.tasks[i].ctx else EntryRegs(old(k.procs)[pid]);
      assert old(k.TaskOk(i)) && !k.Parked(i);
    }
  }

  /** A run in which a message makes the state unsound: process 1 waits for process 3 and is sent a message. */
  method WakeAWaiter(frame: Regs) returns (k: Kernel)
    ensures fresh(k) && !k.Inv()
    ensures OnList(k, 1) && 1 in k.procs && k.procs[1].status == Ready
  {
    k := ThreeProcesses(frame);
    NextWaits(k, 0, frame);
    assert k.waiters[0].pid == 1;
    WakeReceiver(k, 1);
  }
}
