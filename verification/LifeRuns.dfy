/** Whole runs of ticks, user steps and process calls, and what becomes of each process's registers. */
module LifeRuns {
  import opened Processes
  import opened Multitask
  import opened Lifecycle

  datatype Action =
    | Timer
    | Code(f: Regs -> Regs)
    | CallFork(made: Proc, ok: bool, junk: Regs, left: Regs)
    | CallExecve(made: Proc, ok: bool, junk: Regs, left: Regs)
    | CallExit
    | CallWaitpid(pid: u64, left: Regs)

  ghost predicate ActionOk(a: Action) {
    match a
    case Code(f) => UserCode(f)
    case CallFork(made, _, _, _) => made.status == Created
    case CallExecve(made, _, _, _) => made.status == Created
    case _ => true
  }

  // ---- what each action does ----

  /** The machine as the scheduler sees it. */
  ghost function SchedOf(s: Snap): Sched {
    Sched(seq(|s.tasks|, i requires 0 <= i < |s.tasks| => CanRun(s.procs, s.tasks[i])),
          seq(|s.tasks|, i requires 0 <= i < |s.tasks| =>
            if s.tasks[i].pid in s.procs then s.procs[s.tasks[i].pid].priority else 0),
          s.current, s.quantum, s.ticks)
  }

  ghost predicate DidTick(a: Snap, b: Snap) {
    && b.files == a.files && b.waiters == a.waiters && b.nextPid == a.nextPid && b.mode == a.mode
    && SchedOf(a).Ok() && SchedOf(b) == SchedOf(a).Tick()
  }

  /** The caller's register file becomes `r`, and nothing else changes. */
  ghost predicate CallerGets(a: Snap, b: Snap, r: Regs) {
    b == a.(files := a.files[a.running := r])
  }

  /** With no free pid left the action is not taken. */
  ghost predicate DidFork(a: Snap, b: Snap, ok: bool, junk: Regs, left: Regs)
    requires a.running in a.files
  {
    var r := a.files[a.running];
    if a.nextPid >= 0xFFFF_FFFF_FFFF_FFFF then b == a
    else
      && b.mode == User && b.running == a.running && b.waiters == a.waiters
      && if ok && |a.tasks| < 64 then
           && b.tasks == a.tasks + [Task(a.nextPid, ForkFrame(r, junk), true, true)]
           && b.files == a.files[a.nextPid := ForkFrame(r, junk)][a.running := SyscallReturn(r, a.nextPid, left)]
         else
           && b.tasks == a.tasks
           && b.files == a.files[a.running := SyscallReturn(r, 0xFFFF_FFFF_FFFF_FFFF, left)]
  }

  /** With a full task table the action is not taken. */
  ghost predicate DidExecve(a: Snap, b: Snap, p: Proc, ok: bool, junk: Regs, left: Regs)
    requires a.running in a.files && a.running in a.procs
  {
    var r := a.files[a.running];
    var w := WaiterFor(a.running, r, a.procs[a.running].pml4, a.nextPid);
    if |a.tasks| == 64 then b == a
    else if !ok then
      && b.mode == User && b.running == a.running && b.waiters == a.waiters && b.tasks == a.tasks
      && b.files == a.files[a.running := SyscallReturn(r, 0xFFFF_FFFF_FFFF_FFFF, left)]
    else
      && b.mode == User && b.running == a.nextPid && b.current == |a.tasks|
      && b.tasks == a.tasks + [Task(a.nextPid, ExecFrame(p, junk), true, true)]
      && if |a.waiters| < 16 then
           b.waiters == a.waiters + [w] && b.files == a.files[a.running := WaiterRegs(w)][a.nextPid := EntryRegs(p)]
         else
           b.waiters == a.waiters && b.files == a.files[a.nextPid := EntryRegs(p)]
  }

  ghost predicate DidExit(a: Snap, b: Snap)
    requires a.running in a.procs && 0 <= a.current < |a.tasks|
  {
    var procs := a.procs[a.running := a.procs[a.running].(status := Zombie)];
    var i := FirstWaiter(a.waiters, a.running);
    && b.tasks == a.tasks[a.current := a.tasks[a.current].(valid := false)]
    && if i >= 0 then
         && b.mode == User && b.running == a.waiters[i].pid && b.running in procs && b.files == a.files
         && b.waiters == SwapRemove(a.waiters, i)
         && b.procs == procs[b.running := procs[b.running].(status := Running)]
       else
         b.waiters == a.waiters && Took(b, procs, a.files)
  }

  ghost predicate DidWaitpid(a: Snap, b: Snap, pid: u64, left: Regs)
    requires a.running in a.files && a.running in a.procs
  {
    var r := a.files[a.running];
    var w := WaiterFor(a.running, r, a.procs[a.running].pml4, pid);
    var procs := a.procs[a.running := a.procs[a.running].(status := Blocked)];
    && b.tasks == a.tasks
    && if pid !in a.procs || a.procs[pid].status == Zombie then
         && b.mode == User && b.running == a.running && b.waiters == a.waiters && b.procs == a.procs
         && b.files == a.files[a.running :=
              SyscallReturn(r, if pid in a.procs then pid else 0xFFFF_FFFF_FFFF_FFFF, left)]
       else if |a.waiters| < 16 then
         b.waiters == a.waiters + [w] && Took(b, procs, a.files[a.running := WaiterRegs(w)])
       else
         b.waiters == a.waiters && Took(b, procs, a.files)
  }

  /** What the machine looks like while a process runs. */
  ghost predicate Live(a: Snap) {
    && a.mode == User && a.running in a.procs && a.procs[a.running].status == Running
    && a.running in a.files && 0 <= a.current < |a.tasks|
    && |a.tasks| <= 64 && (forall q | q in a.procs :: 0 < q < a.nextPid)
  }

  /** Action `x` of the running process took the machine from `a` to `b`. */
  ghost predicate Did(x: Action, a: Snap, b: Snap) {
    && Live(a) && a.procs.Keys <= b.procs.Keys
    && match x
       case Timer => DidTick(a, b)
       case Code(f) => CallerGets(a, b, f(a.files[a.running]))
       case CallFork(_, ok, junk, left) => DidFork(a, b, ok, junk, left)
       case CallExecve(p, ok, junk, left) => DidExecve(a, b, p, ok, junk, left)
       case CallExit => DidExit(a, b)
       case CallWaitpid(pid, left) => DidWaitpid(a, b, pid, left)
  }

  lemma LiveNow(k: Kernel)
    requires k.Inv() && k.mode == User
    ensures Live(Now(k)) && k.regs == k.files[k.running] && k.cr3 == k.procs[k.running].pml4
    ensures SchedOf(Now(k)) == k.SchedView()
  {
    forall q | q in k.procs ensures 0 < q < k.nextPid { assert k.ProcOk(q); }
  }

  /** One action. */
  method Act(k: Kernel, x: Action)
    requires k.Inv() && k.mode == User && ActionOk(x)
    modifies k
    ensures k.Inv() && k.mode != Booting && ZombiesStay(k)
    ensures Did(x, old(Now(k)), Now(k))
    ensures forall w | old(Stuck(k, w)) :: Stuck(k, w)
  {
    LiveNow(k);
    match x {
      case Timer => Tick(k);
      case Code(f) => k.UserStep(f);
      case CallFork(made, ok, junk, left) =>
        if k.nextPid < 0xFFFF_FFFF_FFFF_FFFF {
          Fork(k, made, ok, junk, left);
        }
      case CallExecve(made, ok, junk, left) =>
        if |k.tasks| < 64 {
          Execve(k, made, ok, junk, left);
        }
      case CallExit => Leave(k);
      case CallWaitpid(pid, left) => Waitpid(k, pid, left);
    }
  }

  method Leave(k: Kernel)
    requires k.Inv() && k.mode == User
    modifies k
    ensures k.Inv() && k.mode != Booting && ZombiesStay(k) && k.procs.Keys == old(k.procs.Keys)
    ensures old(Live(Now(k))) && DidExit(old(Now(k)), Now(k))
    ensures forall w | old(Stuck(k, w)) :: Stuck(k, w)
  {
    LiveNow(k);
    ghost var ws, pid := k.waiters, k.running;
    Exit(k);
    forall w | w in ws && w.target != pid ensures w in k.waiters {
      assert w in multiset(ws) && w in multiset(k.waiters);
    }
  }

  method Tick(k: Kernel)
    requires k.Inv() && k.mode == User
    modifies k
    ensures k.Inv() && k.mode == User && ZombiesStay(k) && DidTick(old(Now(k)), Now(k))
    ensures k.procs.Keys == old(k.procs.Keys) && k.waiters == old(k.waiters)
  {
    LiveNow(k);
    k.SchedOk();
    k.Preempt();
    LiveNow(k);
  }

  // ---- runs ----

  ghost predicate Ran(xs: seq<Action>, snaps: seq<Snap>) {
    |snaps| <= |xs| + 1 && forall j {:trigger RanAt(xs, snaps, j)} | 0 <= j < |snaps| - 1 :: RanAt(xs, snaps, j)
  }

  ghost predicate RanAt(xs: seq<Action>, snaps: seq<Snap>, j: nat) {
    j < |xs| && j + 1 < |snaps| && Did(xs[j], snaps[j], snaps[j + 1])
  }

  lemma RanMore(xs: seq<Action>, snaps: seq<Snap>, b: Snap)
    requires Ran(xs, snaps) && 0 < |snaps| <= |xs| && Did(xs[|snaps| - 1], snaps[|snaps| - 1], b)
    ensures Ran(xs, snaps + [b])
  {
    forall j | 0 <= j < |snaps| ensures RanAt(xs, snaps + [b], j) {
      assert j < |snaps| - 1 ==> RanAt(xs, snaps, j);
    }
  }

  /** Over any run every action does exactly what it should in the state the ones before it left, until no process can
      run; the invariant holds, what has exited stays so, and a process left waiting for one that has exited never runs
      again. */
  method RunAll(k: Kernel, xs: seq<Action>) returns (ghost snaps: seq<Snap>)
    requires k.Inv() && k.mode == User
    requires forall i | 0 <= i < |xs| :: ActionOk(xs[i])
    modifies k
    ensures k.Inv() && ZombiesStay(k)
    ensures Ran(xs, snaps) && snaps != [] && snaps[0] == old(Now(k)) && snaps[|snaps| - 1] == Now(k)
    ensures k.mode == User ==> |snaps| == |xs| + 1
    ensures forall w | old(Stuck(k, w)) :: Stuck(k, w) && w.pid in k.procs && k.procs[w.pid].status == Blocked
  {
    var i := 0;
    snaps := [Now(k)];
    while i < |xs| && k.mode == User
      invariant 0 <= i <= |xs| && k.Inv() && ZombiesStay(k)
      invariant |snaps| == i + 1 && Ran(xs, snaps) && snaps[0] == old(Now(k)) && snaps[i] == Now(k)
      invariant forall w | old(Stuck(k, w)) :: Stuck(k, w)
    {
      Act(k, xs[i]);
      RanMore(xs, snaps, Now(k));
      snaps := snaps + [Now(k)];
      i := i + 1;
    }
    forall w | old(Stuck(k, w)) ensures w.pid in k.procs && k.procs[w.pid].status == Blocked {
      var j :| 0 <= j < |k.waiters| && k.waiters[j] == w;
      assert k.WaiterOk(j);
    }
  }

  // ---- what becomes of a process's registers ----

  /** What an action makes of the registers of the process that takes it. */
  ghost function Own(x: Action, a: Snap): Regs
    requires a.running in a.files
  {
    var r := a.files[a.running];
    match x
    case Timer => r
    case Code(f) => f(r)
    case CallFork(_, ok, _, left) =>
      if a.nextPid >= 0xFFFF_FFFF_FFFF_FFFF then r
      else SyscallReturn(r, if ok && |a.tasks| < 64 then a.nextPid else 0xFFFF_FFFF_FFFF_FFFF, left)
    case CallExecve(_, ok, _, left) =>
      if |a.tasks| == 64 then r
      else if !ok then SyscallReturn(r, 0xFFFF_FFFF_FFFF_FFFF, left)
      else Blocking(a, r)
    case CallExit => r
    case CallWaitpid(pid, left) =>
      if pid !in a.procs then SyscallReturn(r, 0xFFFF_FFFF_FFFF_FFFF, left)
      else if a.procs[pid].status == Zombie then SyscallReturn(r, pid, left)
      else Blocking(a, r)
  }

  /** A caller that blocks will come back as from a call that returned 0, if there is room on the list. */
  ghost function Blocking(a: Snap, r: Regs): Regs {
    if |a.waiters| < 16 then SyscallReturn(r, 0, CleanRegs(0, 0)) else r
  }

  /** Process `q`, stopped by the timer or new from fork, goes on through `resume_parent_sysret`. */
  ghost predicate Scrubbed(x: Action, a: Snap, b: Snap, q: nat) {
    && q != a.running && b.mode == User && b.running == q && 0 <= b.current < |b.tasks| && b.tasks[b.current].saved
    && match x
       case CallExit => FirstWaiter(a.waiters, a.running) < 0
       case CallWaitpid(pid, _) => pid in a.procs && a.procs[pid].status != Zombie
       case _ => false
  }

  lemma OwnStep(x: Action, a: Snap, b: Snap)
    requires Did(x, a, b)
    ensures a.running in b.procs && a.running in b.files && b.files[a.running] == Own(x, a)
  {
    var r := a.files[a.running];
    BlockedReturns(a.running, r, a.procs[a.running].pml4, a.nextPid);
    match x {
      case CallWaitpid(pid, _) => BlockedReturns(a.running, r, a.procs[a.running].pml4, pid);
      case _ =>
    }
  }

  /** After a fork that succeeds, parent and child stand at the same place with the same stack and preserved registers,
      and tell each other apart by rax; nobody else's registers changed. */
  lemma ForkedTwins(made: Proc, junk: Regs, left: Regs, a: Snap, b: Snap)
    requires Did(CallFork(made, true, junk, left), a, b) && |a.tasks| < 64 && a.nextPid < 0xFFFF_FFFF_FFFF_FFFF
    ensures a.running in b.files && a.nextPid in b.files
    ensures var p, c := b.files[a.running], b.files[a.nextPid];
            && p.rip == c.rip == a.files[a.running].rcx && p.rsp == c.rsp == a.files[a.running].rsp
            && p.rbx == c.rbx && p.rbp == c.rbp && p.r12 == c.r12 && p.r13 == c.r13 && p.r14 == c.r14 && p.r15 == c.r15
            && p.rax == a.nextPid && c.rax == 0 && p.rax != c.rax
    ensures forall q | q in a.files && q != a.running && q != a.nextPid :: q in b.files && b.files[q] == a.files[q]
  {
    ForkTwins(a.files[a.running], junk, left, a.nextPid);
  }

  /** An action of another process leaves a process's registers alone, except that being resumed can scrub them. */
  lemma OffStep(x: Action, a: Snap, b: Snap, q: nat)
    requires Did(x, a, b) && q in a.procs && q in a.files && q != a.running
    ensures q in b.procs && q in b.files
    ensures b.files[q] == if Scrubbed(x, a, b, q) then Scrub(a.files[q]) else a.files[q]
  {
  }

  /** What process `q` makes of its registers over the first `n` actions of a run: what its own steps and its own calls
      make of them, and a scrub each time it is resumed that way. Nothing else. */
  ghost function Plays(xs: seq<Action>, snaps: seq<Snap>, q: nat, n: nat): Regs
    requires Ran(xs, snaps) && n < |snaps| && q in snaps[0].procs && q in snaps[0].files
  {
    if n == 0 then snaps[0].files[q]
    else
      assert RanAt(xs, snaps, n - 1);
      var x, a, b := xs[n - 1], snaps[n - 1], snaps[n];
      var r := Plays(xs, snaps, q, n - 1);
      if q == a.running then Own(x, a) else if Scrubbed(x, a, b, q) then Scrub(r) else r
  }

  lemma {:induction false} RegistersOver(xs: seq<Action>, snaps: seq<Snap>, q: nat, n: nat)
    requires Ran(xs, snaps) && n < |snaps| && q in snaps[0].procs && q in snaps[0].files
    ensures q in snaps[n].procs && q in snaps[n].files && snaps[n].files[q] == Plays(xs, snaps, q, n)
  {
    if n > 0 {
      RegistersOver(xs, snaps, q, n - 1);
      assert RanAt(xs, snaps, n - 1);
      if q == snaps[n - 1].running {
        OwnStep(xs[n - 1], snaps[n - 1], snaps[n]);
      } else {
        OffStep(xs[n - 1], snaps[n - 1], snaps[n], q);
      }
    }
  }

  /** A process that does not run between two points of a run has kept its registers, or they were scrubbed, which only
      happens when it is put on the CPU. So it always keeps its place, its stack, its flags and the registers a call
      preserves. */
  lemma {:induction false} OffTheCpu(xs: seq<Action>, snaps: seq<Snap>, q: nat, i: nat, n: nat)
    requires Ran(xs, snaps) && i <= n < |snaps| && q in snaps[i].procs && q in snaps[i].files
    requires forall j | i <= j < n :: snaps[j].running != q
    ensures q in snaps[n].procs && q in snaps[n].files
    ensures var r, t := snaps[i].files[q], snaps[n].files[q];
            && (t == r || (t == Scrub(r) && snaps[n].running == q))
            && t.rip == r.rip && t.rsp == r.rsp && t.rflags == r.rflags && t.rbx == r.rbx && t.rbp == r.rbp
            && t.r12 == r.r12 && t.r13 == r.r13 && t.r14 == r.r14 && t.r15 == r.r15
    decreases n
  {
    if i < n {
      OffTheCpu(xs, snaps, q, i, n - 1);
      assert RanAt(xs, snaps, n - 1);
      OffStep(xs[n - 1], snaps[n - 1], snaps[n], q);
    }
  }
}
