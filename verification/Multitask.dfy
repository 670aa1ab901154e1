/** Timer-driven multitasking: one CPU, many register files. */
module Multitask {
  import opened Processes

  /** What the machine is doing: not started yet, running user code, or in the kernel with no process on the CPU. */
  datatype Mode = Booting | User | Idle

  /** What the hardware does next: the timer fires, or the process on the CPU takes a step. */
  datatype Event = Tick | Step(f: Regs -> Regs)

  /** A step some process took. */
  datatype Ran = Ran(pid: nat, f: Regs -> Regs)

  ghost predicate UserCode(f: Regs -> Regs) {
    forall r :: f(r).cs == r.cs && f(r).ss == r.ss
  }

  /** The machine the processes are meant to see: one register file each, and nothing shared. */
  ghost function Play(files: map<nat, Regs>, trace: seq<Ran>): (r: map<nat, Regs>)
    ensures r.Keys == files.Keys
  {
    if trace == [] then files else
      var before := Play(files, trace[..|trace| - 1]);
      var x := trace[|trace| - 1];
      if x.pid in before then before[x.pid := x.f(before[x.pid])] else before
  }

  /** The steps process `pid` took, in order. */
  ghost function Own(trace: seq<Ran>, pid: nat): seq<Regs -> Regs> {
    if trace == [] then [] else
      var before := Own(trace[..|trace| - 1], pid);
      var x := trace[|trace| - 1];
      if x.pid == pid then before + [x.f] else before
  }

  ghost function Apply(r: Regs, fs: seq<Regs -> Regs>): Regs {
    if fs == [] then r else fs[|fs| - 1](Apply(r, fs[..|fs| - 1]))
  }

  /** A register file depends on its own process's steps alone. */
  lemma {:induction false} PlayOwn(files: map<nat, Regs>, trace: seq<Ran>, pid: nat)
    requires pid in files
    ensures Play(files, trace)[pid] == Apply(files[pid], Own(trace, pid))
  {
    if trace != [] {
      var x := trace[|trace| - 1];
      PlayOwn(files, trace[..|trace| - 1], pid);
      var before := Own(trace[..|trace| - 1], pid);
      assert (before + [x.f])[..|before|] == before;
    }
  }

  function TicksIn(events: seq<Event>): nat {
    if events == [] then 0 else TicksIn(events[..|events| - 1]) + if events[|events| - 1].Tick? then 1 else 0
  }

  /** The steps a run of events makes the processes take: each step belongs to the task that the ticks before it have
      brought onto the CPU, whatever the steps do. */
  ghost function Scheduled(s: Sched, pids: seq<nat>, events: seq<Event>): seq<Ran>
    requires s.Ok() && |pids| == |s.runnable|
  {
    if events == [] then [] else
      var i := |events| - 1;
      var before := Scheduled(s, pids, events[..i]);
      match events[i]
      case Tick => before
      case Step(f) => before + [Ran(pids[s.Ticks(TicksIn(events[..i])).current], f)]
  }

  lemma PlayNext(files: map<nat, Regs>, s: Sched, pids: seq<nat>, events: seq<Event>, i: nat)
    requires s.Ok() && |pids| == |s.runnable| && i < |events|
    ensures var now := Play(files, Scheduled(s, pids, events[..i]));
            Play(files, Scheduled(s, pids, events[..i + 1])) ==
            match events[i]
            case Tick => now
            case Step(f) =>
              var pid := pids[s.Ticks(TicksIn(events[..i])).current];
              if pid in now then now[pid := f(now[pid])] else now
  {
    assert events[..i + 1][..i] == events[..i];
    var trace := Scheduled(s, pids, events[..i]);
    if events[i].Step? {
      var x := Ran(pids[s.Ticks(TicksIn(events[..i])).current], events[i].f);
      assert (trace + [x])[..|trace|] == trace;
    }
  }

  class Kernel {
    var procs: map<nat, Proc>   // the process list, by pid
    var nextPid: nat
    var tasks: seq<Task>        // the first task_count entries of the task table
    var current: int            // current_idx
    var running: nat            // the pid of ptr_proc_curr, 0 for NULL
    var quantum: nat
    var ticks: nat
    var rounds: nat
    var waiters: seq<Waiter>    // the first blocked_count entries of blocked_list
    var regs: Regs              // the CPU
    var cr3: u64
    var mode: Mode
    ghost var files: map<nat, Regs>   // the register file each process owns

    // ---- the invariant of every reachable state ----

    ghost predicate TaskOk(i: nat)
      requires i < |tasks|
      reads this
    {
      var pid := tasks[i].pid;
      && pid in procs && pid in files && files[pid].cs == USER_CS && files[pid].ss == USER_SS
      && (tasks[i].valid <==> procs[pid].status != Zombie)
      && (!tasks[i].saved ==> EntryAgrees(procs[pid])) && (tasks[i].saved ==> mode != Booting)
      && forall j | 0 <= j < |tasks| && tasks[j].pid == pid :: j == i
    }

    /** A task that is neither on the CPU nor blocked: where its register file is kept. */
    ghost predicate Parked(i: nat)
      requires i < |tasks|
      reads this
    {
      var t := tasks[i];
      && t.pid in procs && t.pid in files && (i != current || mode != User)
      && t.valid && procs[t.pid].status != Blocked ==>
        files[t.pid] == if t.saved then t.ctx else EntryRegs(procs[t.pid])
    }

    ghost predicate WaiterOk(i: nat)
      requires i < |waiters|
      reads this
    {
      var w := waiters[i];
      && w.pid in procs && w.pid in files && procs[w.pid].status == Blocked
      && w.cr3 == procs[w.pid].pml4 && files[w.pid] == WaiterRegs(w)
      && (exists k :: 0 <= k < |tasks| && tasks[k].pid == w.pid)
      && w.target in procs
      && forall j | 0 <= j < |waiters| && waiters[j].pid == w.pid :: j == i
    }

    /** The one process on the CPU. */
    ghost predicate OnCpu()
      reads this
    {
      && 0 <= current < |tasks| && tasks[current].valid && tasks[current].pid == running
      && running in procs && procs[running].status == Running && running in files
      && files[running] == regs && cr3 == procs[running].pml4
      && regs.cs == USER_CS && regs.ss == USER_SS
    }

    ghost predicate ProcOk(pid: nat)
      requires pid in procs
      reads this
    {
      && 0 < pid < nextPid
      && (procs[pid].status == Running ==> mode == User && pid == running)
    }

    ghost predicate Inv()
      reads this
    {
      && 0 < nextPid && |tasks| <= MAX_TASKS && -1 <= current < |tasks| && |waiters| <= MAX_WAITERS
      && (forall i {:trigger TaskOk(i)} | 0 <= i < |tasks| :: TaskOk(i))
      && (forall i {:trigger Parked(i)} | 0 <= i < |tasks| :: Parked(i))
      && (forall i {:trigger WaiterOk(i)} | 0 <= i < |waiters| :: WaiterOk(i))
      && (forall pid {:trigger ProcOk(pid)} | pid in procs :: ProcOk(pid))
      && (mode == User ==> OnCpu())
      && (mode != Booting ==> 1 <= quantum <= 16 && ticks < quantum)
      && (mode == Booting ==> current == -1 && running == 0 && waiters == [])
    }

    constructor (frame: Regs)
      ensures Inv() && mode == Booting && tasks == [] && procs == map[] && waiters == [] && nextPid == 1
    {
      procs, nextPid, tasks, current, running := map[], 1, [], -1, 0;
      quantum, ticks, rounds := 2, 0, 0;
      waiters, regs, cr3, mode, files := [], frame, 0, Booting, map[];
    }

    // ---- picking a task ----

    predicate Runnable(i: nat)
      requires i < |tasks|
      reads this
    {
      CanRun(procs, tasks[i])
    }

    ghost function RunnableSet(): (r: seq<bool>)
      reads this
      ensures |r| == |tasks| && forall i | 0 <= i < |tasks| :: r[i] == Runnable(i)
    {
      seq(|tasks|, i requires 0 <= i < |tasks| reads this => Runnable(i))
    }

    ghost function PriorityOf(i: nat): u64
      requires i < |tasks|
      reads this
    {
      if tasks[i].pid in procs then procs[tasks[i].pid].priority else 0
    }

    ghost function Priorities(): (r: seq<u64>)
      reads this
      ensures |r| == |tasks| && forall i | 0 <= i < |tasks| :: r[i] == PriorityOf(i)
    {
      seq(|tasks|, i requires 0 <= i < |tasks| reads this => PriorityOf(i))
    }

    /** The machine as the scheduler sees it. */
    ghost function SchedView(): Sched
      reads this
      requires Inv()
    {
      Sched(RunnableSet(), Priorities(), current, quantum, ticks)
    }

    lemma SchedOk()
      requires Inv() && mode == User
      ensures SchedView().Ok()
    {
    }

    /** What one timer tick should do to the scheduler's view. */
    ghost function Ticked(): Sched
      reads this
      requires Inv() && mode == User
    {
      SchedOk();
      SchedView().Tick()
    }

    /** The pick in terms of the processes' states. */
    lemma PickStatus()
      requires -1 <= current < |tasks|
      ensures var k := PickNext(RunnableSet(), current);
              && -1 <= k < |tasks|
              && (k >= 0 ==>
                    && tasks[k].valid && tasks[k].pid in procs
                    && procs[tasks[k].pid].status != Blocked && procs[tasks[k].pid].status != Zombie)
              && (k < 0 ==> forall i | 0 <= i < |tasks| && tasks[i].valid && tasks[i].pid in procs ::
                    procs[tasks[i].pid].status == Blocked || procs[tasks[i].pid].status == Zombie)
    {
      PickIsFirst(RunnableSet(), current);
      var k := PickNext(RunnableSet(), current);
      assert k >= 0 ==> Runnable(k);
      forall i: nat | k < 0 && i < |tasks| && tasks[i].valid && tasks[i].pid in procs
        ensures procs[tasks[i].pid].status == Blocked || procs[tasks[i].pid].status == Zombie
      {
        assert !RunnableSet()[i] && !Runnable(i);
      }
    }

    /** `scheduler_pick_next`. */
    method PickNextTask() returns (k: int)
      requires -1 <= current < |tasks|
      ensures k == PickNext(RunnableSet(), current)
      ensures 0 <= k < |tasks| ==>
        && tasks[k].valid && tasks[k].pid in procs
        && procs[tasks[k].pid].status != Blocked && procs[tasks[k].pid].status != Zombie
      ensures !(0 <= k < |tasks|) ==>
        k == -1 && forall i | 0 <= i < |tasks| && tasks[i].valid && tasks[i].pid in procs ::
        procs[tasks[i].pid].status == Blocked || procs[tasks[i].pid].status == Zombie
    {
      PickStatus();
      var n := |tasks|;
      if n == 0 {
        return -1;
      }
      ghost var r, left := RunnableSet(), n;
      var start := (current + 1) % n;
      assert start == Wrap(current + 1, n);
      var i := start;
      while true
        invariant 0 <= i < n && 1 <= left <= n && Ahead(start, i, n) + left == n
        invariant PickNext(r, current) == Scan(r, i, left)
        decreases left
      {
        if Runnable(i) {
          return i;
        }
        assert (i + 1) % n == Wrap(i + 1, n);
        i := (i + 1) % n;
        left := left - 1;
        if i == start {
          break;
        }
      }
      k := -1;
    }

    // ---- adding and starting tasks ----

    /** A new process in state CREATED that no task runs yet. */
    method CreateProc(p: Proc) returns (pid: nat)
      requires Inv() && p.status == Created
      modifies this`procs, this`nextPid
      ensures Inv() && pid == old(nextPid) && nextPid == pid + 1
      ensures pid !in old(procs) && procs == old(procs)[pid := p]
    {
      pid := nextPid;
      assert forall q | q in procs :: ProcOk(q);
      procs := procs[pid := p];
      nextPid := nextPid + 1;
      forall i | 0 <= i < |tasks| ensures TaskOk(i) && Parked(i) { assert old(TaskOk(i)) && old(Parked(i)); }
      forall i | 0 <= i < |waiters| ensures WaiterOk(i) { assert old(WaiterOk(i)); }
      forall q | q in procs ensures ProcOk(q) { assert q != pid ==> old(ProcOk(q)); }
    }

    /** The table part of `mt_add_task`. */
    method AppendTask(pid: nat, junk: Regs) returns (idx: int)
      modifies this`tasks
      ensures old(|tasks|) >= 64 ==> idx == -1 && tasks == old(tasks)
      ensures old(|tasks|) < 64 ==> idx == old(|tasks|) && tasks == old(tasks) + [Task(pid, junk, false, true)]
    {
      if |tasks| >= MAX_TASKS {
        return -1;
      }
      idx := |tasks|;
      tasks := tasks + [Task(pid, junk, false, true)];
    }

    /** `mt_add_task`: the new slot's saved frame is whatever the memory held. The invariant survives exactly when a
        tick may enter the process as `mt_start` would. */
    method AddTask(pid: nat, junk: Regs) returns (idx: int)
      requires Inv() && pid in procs && procs[pid].status == Created
      requires forall i | 0 <= i < |tasks| :: tasks[i].pid != pid
      requires forall i | 0 <= i < |waiters| :: waiters[i].pid != pid
      modifies this`tasks, this`files
      ensures Inv() <==> old(|tasks|) == 64 || EntryAgrees(procs[pid])
      ensures old(|tasks|) == 64 ==> idx == -1 && tasks == old(tasks) && files == old(files)
      ensures old(|tasks|) < 64 ==>
        && idx == old(|tasks|) && tasks == old(tasks) + [Task(pid, junk, false, true)]
        && files == old(files)[pid := EntryRegs(procs[pid])]
      ensures idx >= 0 ==>
        && files[pid].rip == procs[pid].entry && files[pid].rflags == 0x202 && files[pid].cs == 0x23
        && files[pid].ss == 0x1B && Clear(files[pid])
        && var p, rsp := procs[pid], files[pid].rsp;
           if p.entryRsp != 0 then rsp == p.entryRsp else
             rsp % 16 == 0 && rsp <= (p.stackBase + p.stackSize - 16) % 0x1_0000_0000_0000_0000 < rsp + 16
    {
      EntryIs(procs[pid]);
      DefaultRspIs(procs[pid]);
      idx := AppendTask(pid, junk);
      if idx < 0 {
        return;
      }
      files := files[pid := EntryRegs(procs[pid])];
      if EntryAgrees(procs[pid]) {
        AddedOk(pid, junk);
      } else {
        assert !TaskOk(idx);
      }
    }

    twostate lemma AddedOk(new pid: nat, new junk: Regs)
      requires old(Inv()) && pid in procs && procs[pid].status == Created && EntryAgrees(procs[pid])
               && |old(tasks)| < MAX_TASKS
      requires forall i | 0 <= i < |old(tasks)| :: old(tasks)[i].pid != pid
      requires forall i | 0 <= i < |old(waiters)| :: old(waiters)[i].pid != pid
      requires tasks == old(tasks) + [Task(pid, junk, false, true)] && files == old(files)[pid := EntryRegs(procs[pid])]
      requires procs == old(procs) && nextPid == old(nextPid) && current == old(current) && running == old(running)
      requires quantum == old(quantum) && ticks == old(ticks) && waiters == old(waiters) && regs == old(regs)
      requires cr3 == old(cr3) && mode == old(mode)
      ensures Inv()
    {
      assert old(ProcOk(pid));
      forall i | 0 <= i < |tasks| ensures TaskOk(i) && Parked(i) {
        assert i < |old(tasks)| ==> old(TaskOk(i)) && old(Parked(i));
      }
      forall i | 0 <= i < |waiters| ensures WaiterOk(i) {
        assert old(WaiterOk(i));
        var k :| 0 <= k < |old(tasks)| && old(tasks)[k].pid == waiters[i].pid;
        assert tasks[k].pid == waiters[i].pid;
      }
      forall q | q in procs ensures ProcOk(q) { assert old(ProcOk(q)); }
    }

    // ---- running user code ----

    /** One step of the process on the CPU. */
    method UserStep(f: Regs -> Regs)
      requires Inv() && mode == User
      requires forall r :: f(r).cs == r.cs && f(r).ss == r.ss
      modifies this`regs, this`files
      ensures Inv() && regs == f(old(regs)) && files == old(files)[running := f(old(files)[running])]
      ensures SchedView() == old(SchedView())
    {
      regs := f(regs);
      files := files[running := regs];
      forall i | 0 <= i < |tasks| ensures TaskOk(i) && Parked(i) {
        assert old(TaskOk(i)) && old(Parked(i)) && old(TaskOk(current));
      }
      forall i | 0 <= i < |waiters| ensures WaiterOk(i) { assert old(WaiterOk(i)); }
      forall q | q in procs ensures ProcOk(q) { assert old(ProcOk(q)); }
      SameView();
    }

    twostate lemma SameView()
      requires procs == old(procs) && tasks == old(tasks)
      ensures RunnableSet() == old(RunnableSet()) && Priorities() == old(Priorities())
    {
      assert forall i | 0 <= i < |tasks| :: Runnable(i) == old(Runnable(i)) && PriorityOf(i) == old(PriorityOf(i));
    }

    // ---- switching ----

    /** Save the live frame into the task that leaves the CPU; a RUNNING process becomes READY. */
    method SaveCurrent()
      requires 0 <= current < |tasks| && tasks[current].pid == running
      requires running in procs && procs[running].status == Running
      modifies this`tasks, this`procs
      ensures tasks == old(tasks)[current := old(tasks)[current].(ctx := regs, saved := true)]
      ensures procs == old(procs)[running := old(procs)[running].(status := Ready)]
    {
      var c := regs;
      var frame := Regs(
        r15 := c.r15, r14 := c.r14, r13 := c.r13, r12 := c.r12, r11 := c.r11, r10 := c.r10, r9 := c.r9, r8 := c.r8,
        rbp := c.rbp, rdi := c.rdi, rsi := c.rsi, rdx := c.rdx, rcx := c.rcx, rbx := c.rbx, rax := c.rax,
        rip := c.rip, cs := c.cs, rflags := c.rflags, rsp := c.rsp, ss := c.ss);
      var t := tasks[current];
      tasks := tasks[current := t.(ctx := frame, saved := true)];
      if procs[t.pid].status == Running {
        procs := procs[t.pid := procs[t.pid].(status := Ready)];
      }
    }

    /** Load task `k`: its saved frame, or a clean one at its entry point. */
    method LoadTask(k: nat)
      requires k < |tasks| && tasks[k].pid in procs
      modifies this`regs, this`procs, this`current, this`running, this`quantum, this`cr3
      ensures regs == if tasks[k].saved then tasks[k].ctx else FirstRegs(old(procs)[tasks[k].pid])
      ensures current == k && running == tasks[k].pid
              && procs == old(procs)[running := old(procs)[running].(status := Running)]
      ensures quantum == QuantumForPriority(procs[running].priority) && cr3 == procs[running].pml4
      ensures !tasks[k].saved ==>
        && regs.rip == procs[running].entry && regs.rflags == 0x202 && regs.cs == 0x23 && regs.ss == 0x1B && Clear(regs)
        && var p := procs[running];
           regs.rsp % 16 == 0
           && regs.rsp <= (p.stackBase + p.stackSize - 16) % 0x1_0000_0000_0000_0000 < regs.rsp + 16
    {
      var t := tasks[k];
      var p := procs[t.pid];
      EntryIs(p);
      DefaultRspIs(p);
      if t.saved {
        var n := t.ctx;
        regs := Regs(
          r15 := n.r15, r14 := n.r14, r13 := n.r13, r12 := n.r12, r11 := n.r11, r10 := n.r10, r9 := n.r9, r8 := n.r8,
          rbp := n.rbp, rdi := n.rdi, rsi := n.rsi, rdx := n.rdx, rcx := n.rcx, rbx := n.rbx, rax := n.rax,
          rip := n.rip, cs := n.cs, rflags := n.rflags, rsp := n.rsp, ss := n.ss);
      } else {
        regs := CleanRegs(p.entry, DefaultRsp(p));
      }
      procs := procs[t.pid := p.(status := Running)];
      current, running := k, t.pid;
      quantum := QuantumForPriority(p.priority);
      cr3 := p.pml4;
    }

    /** Tick counting touches nothing the invariant speaks of. */
    twostate lemma OnlyTicks()
      requires old(Inv()) && old(mode) == User && ticks < quantum
      requires procs == old(procs) && nextPid == old(nextPid) && tasks == old(tasks) && current == old(current)
      requires running == old(running) && quantum == old(quantum) && waiters == old(waiters) && regs == old(regs)
      requires cr3 == old(cr3) && mode == old(mode) && files == old(files)
      ensures Inv() && SchedView() == old(SchedView()).(ticks := ticks)
    {
      forall i | 0 <= i < |tasks| ensures TaskOk(i) && Parked(i) { assert old(TaskOk(i)) && old(Parked(i)); }
      forall i | 0 <= i < |waiters| ensures WaiterOk(i) { assert old(WaiterOk(i)); }
      forall q | q in procs ensures ProcOk(q) { assert old(ProcOk(q)); }
      SameView();
    }

    /** A process going from RUNNING to READY or back stays runnable. */
    twostate lemma SameRunnable()
      requires |tasks| == |old(tasks)| && procs.Keys == old(procs.Keys)
      requires forall i | 0 <= i < |tasks| :: tasks[i].pid == old(tasks)[i].pid && tasks[i].valid == old(tasks)[i].valid
      requires forall q | q in procs :: procs[q].priority == old(procs)[q].priority
      requires forall q | q in procs :: (procs[q].status == old(procs)[q].status
                                         || (procs[q].status in {Ready, Running}
                                             && old(procs)[q].status in {Ready, Created, Running}))
      ensures RunnableSet() == old(RunnableSet()) && Priorities() == old(Priorities())
    {
      assert forall i | 0 <= i < |tasks| :: Runnable(i) == old(Runnable(i)) && PriorityOf(i) == old(PriorityOf(i));
    }

    twostate lemma SwitchedOk(new c: nat, new k: nat)
      requires old(Inv()) && old(mode) == User && old(current) == c && c != k && k < |old(tasks)| && c < |old(tasks)|
      requires CanRun(old(procs), old(tasks)[k])
      requires tasks == old(tasks)[c := old(tasks)[c].(ctx := old(regs), saved := true)]
      requires current == k && running == tasks[k].pid && old(running) in old(procs) && running in old(procs)
      requires procs == old(procs)[old(running) := old(procs)[old(running)].(status := Ready)]
                                  [running := old(procs)[running].(status := Running)]
      requires regs == if tasks[k].saved then tasks[k].ctx else FirstRegs(old(procs)[running])
      requires quantum == QuantumForPriority(procs[running].priority) && ticks == 0 && cr3 == procs[running].pml4
      requires mode == old(mode) && files == old(files) && nextPid == old(nextPid) && waiters == old(waiters)
      ensures Inv()
    {
      assert old(TaskOk(k)) && old(TaskOk(c)) && old(Parked(k));
      forall i | 0 <= i < |tasks| ensures TaskOk(i) && Parked(i) { assert old(TaskOk(i)) && old(Parked(i)); }
      forall i | 0 <= i < |waiters| ensures WaiterOk(i) {
        assert old(WaiterOk(i));
        var j :| 0 <= j < |old(tasks)| && old(tasks)[j].pid == waiters[i].pid;
        assert tasks[j].pid == waiters[i].pid;
      }
      forall q | q in procs ensures ProcOk(q) { assert old(ProcOk(q)); }
    }

    /** Put task `k` on the CPU in place of the current one. */
    method SwitchTo(k: nat)
      requires Inv() && mode == User && k < |tasks| && k != current && Runnable(k)
      modifies this`tasks, this`procs, this`regs, this`current, this`running, this`quantum, this`cr3, this`ticks
      ensures Inv() && current == k && ticks == 0
      ensures SchedView() == old(SchedView()).(ticks := 0, current := k,
              quantum := QuantumForPriority(old(PriorityOf(k))))
      ensures procs.Keys == old(procs.Keys) && |tasks| == |old(tasks)|
      ensures forall q | q in procs :: (procs[q].status == Zombie <==> old(procs)[q].status == Zombie)
      ensures forall i | 0 <= i < |tasks| :: tasks[i].pid == old(tasks)[i].pid && tasks[i].valid == old(tasks)[i].valid
    {
      ghost var c := current;
      Exchange(k);
      SwitchedOk(c, k);
      SameRunnable();
    }

    /** Save the live frame, load the other task's. */
    method Exchange(k: nat)
      requires Inv() && mode == User && k < |tasks| && k != current && Runnable(k)
      modifies this`tasks, this`procs, this`regs, this`current, this`running, this`quantum, this`cr3, this`ticks
      ensures tasks == old(tasks)[old(current) := old(tasks)[old(current)].(ctx := old(regs), saved := true)]
      ensures current == k && running == tasks[k].pid && old(running) in old(procs) && running in old(procs)
      ensures procs == old(procs)[old(running) := old(procs)[old(running)].(status := Ready)]
                                 [running := old(procs)[running].(status := Running)]
      ensures regs == if tasks[k].saved then tasks[k].ctx else FirstRegs(old(procs)[running])
      ensures quantum == QuantumForPriority(procs[running].priority) && ticks == 0 && cr3 == procs[running].pml4
    {
      assert TaskOk(k) && TaskOk(current);
      ticks := 0;
      SaveCurrent();
      LoadTask(k);
    }

    /** A user-mode timer tick. No register file changes, whichever task is on the CPU afterwards. */
    method Preempt()
      requires Inv() && mode == User
      modifies this`tasks, this`procs, this`regs, this`current, this`running, this`quantum, this`cr3, this`ticks,
               this`rounds
      ensures Inv()
      ensures SchedView() == old(Ticked())
      ensures procs.Keys == old(procs.Keys) && |tasks| == |old(tasks)|
      ensures forall q | q in procs :: (procs[q].status == Zombie <==> old(procs)[q].status == Zombie)
      ensures forall i | 0 <= i < |tasks| :: tasks[i].pid == old(tasks)[i].pid && tasks[i].valid == old(tasks)[i].valid
    {
      SchedOk();
      if |tasks| < 2 {
        return;
      }
      ticks := ticks + 1;
      if ticks < quantum {
        OnlyTicks();
        return;
      }
      ticks := 0;
      rounds := rounds + 1;
      OnlyTicks();
      var k := PickNextTask();
      PickIsFirst(RunnableSet(), current);
      if k < 0 || k == current {
        return;
      }
      SwitchTo(k);
    }

    twostate lemma StartedOk(new k: nat)
      requires old(Inv()) && old(mode) == Booting && mode == User && k < |tasks| && tasks == old(tasks)
      requires current == k && running == tasks[k].pid && CanRun(old(procs), tasks[k])
      requires procs == old(procs)[running := old(procs)[running].(status := Running)]
      requires regs == EntryRegs(old(procs)[running]) && cr3 == old(procs)[running].pml4
      requires 1 <= quantum <= 16 && ticks == 0
      requires files == old(files) && nextPid == old(nextPid) && waiters == old(waiters)
      ensures Inv()
    {
      assert old(TaskOk(k)) && old(Parked(k));
      forall i | 0 <= i < |tasks| ensures TaskOk(i) && Parked(i) { assert old(TaskOk(i)) && old(Parked(i)); }
      forall q | q in procs ensures ProcOk(q) { assert old(ProcOk(q)); }
    }

    /** `mt_start`: enter the first task that is ready; nothing happens if none is. */
    method Start()
      requires Inv() && mode == Booting
      modifies this`procs, this`regs, this`current, this`running, this`quantum, this`ticks, this`cr3, this`mode
      ensures Inv()
      ensures PickNext(old(RunnableSet()), -1) == -1 ==> mode == Booting && procs == old(procs) && regs == old(regs)
      ensures PickNext(old(RunnableSet()), -1) >= 0 ==>
        mode == User && current == PickNext(old(RunnableSet()), -1) && ticks == 0
        && quantum == QuantumForPriority(procs[running].priority) && regs == EntryRegs(procs[running])
        && running == tasks[current].pid && running in old(procs)
        && procs == old(procs)[running := old(procs)[running].(status := Running)]
      ensures mode == User ==>
        && regs.rip == procs[running].entry && regs.rflags == 0x202 && regs.cs == 0x23 && regs.ss == 0x1B && Clear(regs)
        && var p := procs[running];
           if p.entryRsp != 0 then regs.rsp == p.entryRsp else
             regs.rsp % 16 == 0
             && regs.rsp <= (p.stackBase + p.stackSize - 16) % 0x1_0000_0000_0000_0000 < regs.rsp + 16
    {
      var k := PickNextTask();
      PickIsFirst(RunnableSet(), -1);
      if k < 0 {
        return;
      }
      EnterFirst(k);
      EntryIs(procs[running]);
      DefaultRspIs(procs[running]);
    }

    /** Jump into task `k` at its entry point. */
    method EnterFirst(k: nat)
      requires Inv() && mode == Booting && k < |tasks| && CanRun(procs, tasks[k])
      modifies this`procs, this`regs, this`current, this`running, this`quantum, this`ticks, this`cr3, this`mode
      ensures Inv() && mode == User && current == k && ticks == 0
      ensures quantum == QuantumForPriority(procs[running].priority) && regs == EntryRegs(procs[running])
      ensures running == tasks[k].pid && procs == old(procs)[running := old(procs)[running].(status := Running)]
    {
      var pid := tasks[k].pid;
      var p := procs[pid];
      current, running, mode := k, pid, User;
      procs := procs[pid := p.(status := Running)];
      quantum, ticks := QuantumForPriority(p.priority), 0;
      regs := EntryRegs(p);
      cr3 := p.pml4;
      StartedOk(k);
    }

    /** Which process each task belongs to. */
    ghost function Pids(): (r: seq<nat>)
      reads this
      ensures |r| == |tasks| && forall i | 0 <= i < |tasks| :: r[i] == tasks[i].pid
    {
      seq(|tasks|, i requires 0 <= i < |tasks| reads this => tasks[i].pid)
    }

    /** One event. */
    method Happen(e: Event)
      requires Inv() && mode == User && (e.Step? ==> UserCode(e.f))
      modifies this
      ensures Inv() && mode == User && Pids() == old(Pids())
      ensures old(SchedView()).Ok() && SchedView() == if e.Tick? then old(SchedView()).Tick() else old(SchedView())
      ensures match e
              case Tick => files == old(files)
              case Step(f) =>
                var pid := old(Pids()[current]); pid in old(files) && files == old(files)[pid := f(old(files)[pid])]
    {
      SchedOk();
      match e {
        case Tick => Preempt();
        case Step(f) => UserStep(f);
      }
    }

    /** Preemption is invisible: over any interleaving of ticks and user steps, every process's registers are what
        its own steps alone make of them, no step is lost or given to another process, and the CPU always holds the
        running process's registers and page table. Which process runs depends on the ticks alone. */
    method RunTimed(events: seq<Event>)
      requires Inv() && mode == User
      requires forall i | 0 <= i < |events| && events[i].Step? :: UserCode(events[i].f)
      modifies this
      ensures Inv() && mode == User && Pids() == old(Pids())
      ensures old(SchedView()).Ok() && SchedView() == old(SchedView()).Ticks(TicksIn(events))
      ensures files == Play(old(files), Scheduled(old(SchedView()), old(Pids()), events))
      ensures forall pid | pid in old(files) ::
        files[pid] == Apply(old(files)[pid], Own(Scheduled(old(SchedView()), old(Pids()), events), pid))
      ensures running == Pids()[current] && regs == files[running] && cr3 == procs[running].pml4
    {
      SchedOk();
      ghost var s, pids := SchedView(), Pids();
      var i := 0;
      assert events[..0] == [];
      while i < |events|
        invariant 0 <= i <= |events| && Inv() && mode == User && Pids() == pids
        invariant files == Play(old(files), Scheduled(s, pids, events[..i]))
        invariant SchedView() == s.Ticks(TicksIn(events[..i]))
      {
        assert events[..i + 1][..i] == events[..i];
        TicksMore(s, TicksIn(events[..i]));
        Happen(events[i]);
        PlayNext(old(files), s, pids, events, i);
        i := i + 1;
      }
      assert events[..i] == events;
      ghost var trace := Scheduled(s, pids, events);
      forall pid | pid in old(files) ensures files[pid] == Apply(old(files)[pid], Own(trace, pid)) {
        PlayOwn(old(files), trace, pid);
      }
    }
  }
}
