/** The process table, the scheduler and the spin locks as a transition system with any number of CPUs.
    A step is what one CPU does between two points at which another may interfere: memory changed under
    ptable.lock can still meet the unlocked stores of fork. */
module ProcMachine {
  import opened Common

  datatype PState = UNUSED | EMBRYO | SLEEPING | RUNNABLE | RUNNING | ZOMBIE

  /** A sleep channel: none, the address of a process (the channel of wait), or something else. */
  datatype Chan = NoChan | OfProc(p: nat) | Other(id: nat)

  /** Where a saved context resumes. */
  datatype Resume = AtForkret | AtYield | AtSleep(lk: nat) | AtWait | AtZombie

  datatype Proc = Proc(state: PState, pid: int, parent: Option<nat>, chan: Chan, killed: bool, resume: Resume)

  /** The program counter of a CPU.  The first four run on the CPU's scheduler context, the others on
      the kernel context of the process in `proc`. */
  datatype Pc =
    | Idle                               // outside the table loop
    | Scan                               // in the table loop
    | Picked                             // chosen, state set, about to swtch to it
    | Back                               // swtch returned, proc not cleared yet
    | Kernel                             // user code, or kernel code that is not below
    | YieldSet
    | YieldBack
    | SleepDrop(chan: Chan, lk: nat)
    | SleepSet(chan: Chan, lk: nat)
    | SleepBack(lk: nat)
    | SleepRelease(lk: nat)
    | SleepReacquire(lk: nat)
    | WakeSet(chan: Chan)
    | KillSet(pid: int)
    | ExitWake
    | ExitAdopt(i: nat)
    | WaitScan(i: nat, havekids: bool)
    | WaitBack
    | ForkFind
    | ForkGot(q: nat)
    | ForkInit(q: nat)
    | ForkReady(q: nat)
    | ForkretRelease
    | Release                            // about to release ptable.lock and return
    | Sched(resume: Resume)              // in sched(), about to swtch to the scheduler

  /** `held` are the spin locks this CPU has acquired and not released. */
  datatype Cpu = Cpu(pc: Pc, proc: Option<nat>, ncli: int, held: set<nat>)

  /** `owner` gives lk->cpu of every locked lock.  `exited` and `reaped` record the pids that have called
      exit and those that wait has returned. */
  datatype State = State(
    cpus: seq<Cpu>,
    procs: seq<Proc>,
    owner: map<nat, nat>,
    nextpid: int,
    exited: set<int>,
    reaped: set<int>)

  /** ptable.lock */
  const PTABLE: nat := 0

  datatype Act =
    | Step                               // the one thing the CPU does next
    | Pick(p: nat)
    | Leave                              // end of the table loop
    | Acquire(l: nat) | Drop(l: nat)     // a spin lock other than ptable.lock
    | CallYield
    | CallSleep(id: nat, lk: nat)
    | CallWakeup(id: nat)
    | CallKill(pid: int)
    | CallExit
    | CallWait
    | CallFork
    | ForkFail                           // kalloc or copyuvm failed in fork

  // ----- Locks -----

  predicate CanAcquire(s: State, l: nat) { l !in s.owner }

  function DoAcquire(s: State, c: nat, l: nat): State
    requires c < |s.cpus|
  {
    var u := s.cpus[c];
    s.(owner := s.owner[l := c],
       cpus := s.cpus[c := u.(held := u.held + {l}, ncli := u.ncli + 1)])
  }

  predicate Holding(s: State, c: nat, l: nat) { l in s.owner && s.owner[l] == c }

  function DoRelease(s: State, c: nat, l: nat): State
    requires c < |s.cpus|
  {
    var u := s.cpus[c];
    s.(owner := s.owner - {l}, cpus := s.cpus[c := u.(held := u.held - {l}, ncli := u.ncli - 1)])
  }

  function Goto(s: State, c: nat, pc: Pc): State
    requires c < |s.cpus|
  {
    s.(cpus := s.cpus[c := s.cpus[c].(pc := pc)])
  }

  // ----- The process table -----

  function Wakened(p: Proc, chan: Chan): Proc {
    if p.state == SLEEPING && p.chan == chan then p.(state := RUNNABLE) else p
  }

  /** wakeup1 */
  function Wakeup1(procs: seq<Proc>, chan: Chan): seq<Proc> {
    seq(|procs|, i requires 0 <= i < |procs| => Wakened(procs[i], chan))
  }

  function SetProc(s: State, p: nat, x: Proc): State
    requires p < |s.procs|
  {
    s.(procs := s.procs[p := x])
  }

  function Cleared(p: Proc): Proc {
    p.(pid := 0, parent := None, killed := false, state := UNUSED)
  }

  // ----- Steps -----

  predicate OnProc(pc: Pc) {
    !pc.Idle? && !pc.Scan? && !pc.Picked? && !pc.Back?
  }

  /** The process whose kernel context the CPU is executing on. */
  predicate On(s: State, c: nat, p: nat) {
    c < |s.cpus| && OnProc(s.cpus[c].pc) && s.cpus[c].proc == Some(p)
  }

  ghost predicate FirstUnused(s: State, q: nat) {
    q < |s.procs| && s.procs[q].state == UNUSED && forall j :: 0 <= j < q ==> s.procs[j].state != UNUSED
  }

  ghost predicate HasPid(s: State, q: nat, pid: int) {
    q < |s.procs| && s.procs[q].pid == pid && forall j :: 0 <= j < q ==> s.procs[j].pid != pid
  }

  ghost predicate Enabled(s: State, init: nat, c: nat, a: Act) {
    c < |s.cpus| &&
    var u := s.cpus[c];
    (OnProc(u.pc) || u.pc.Picked? ==> u.proc.Some? && u.proc.value < |s.procs|) &&
    match a
    case Step =>
      (match u.pc
       case Idle => CanAcquire(s, PTABLE)
       case Scan => false
       case Kernel => false
       case SleepReacquire(lk) => CanAcquire(s, lk)
       case _ => true)
    case Pick(p) => u.pc.Scan? && p < |s.procs| && s.procs[p].state == RUNNABLE
    case Leave => u.pc.Scan?
    case Acquire(l) => u.pc.Kernel? && l != PTABLE && CanAcquire(s, l)
    case Drop(l) => u.pc.Kernel? && l != PTABLE && l in u.held
    case CallYield => u.pc.Kernel? && u.held == {} && CanAcquire(s, PTABLE)
    case CallSleep(_, lk) => u.pc.Kernel? && u.held == {lk} && lk != PTABLE && CanAcquire(s, PTABLE)
    case CallWakeup(_) => u.pc.Kernel? && CanAcquire(s, PTABLE)
    case CallKill(_) => u.pc.Kernel? && CanAcquire(s, PTABLE)
    case CallExit => u.pc.Kernel? && u.held == {} && u.proc != Some(init) && CanAcquire(s, PTABLE)
    case CallWait => u.pc.Kernel? && u.held == {} && CanAcquire(s, PTABLE)
    case CallFork => u.pc.Kernel? && u.held == {} && CanAcquire(s, PTABLE)
    case ForkFail => u.pc.ForkInit? && u.pc.q < |s.procs|
  }

  function Enter(s: State, c: nat, pc: Pc): State
    requires c < |s.cpus|
  {
    Goto(DoAcquire(s, c, PTABLE), c, pc)
  }

  function ResumePc(r: Resume): Pc {
    match r
    case AtForkret => ForkretRelease
    case AtYield => YieldBack
    case AtSleep(lk) => SleepBack(lk)
    case AtWait => WaitBack
    case AtZombie => Kernel
  }

  ghost function Do(s: State, init: nat, c: nat, a: Act): State
    requires Enabled(s, init, c, a)
  {
    match a
    case Step => DoStep(s, init, c)
    case Pick(p) =>
      var s := SetProc(s, p, s.procs[p].(state := RUNNING));
      s.(cpus := s.cpus[c := s.cpus[c].(pc := Picked, proc := Some(p))])
    case Leave => Goto(DoRelease(s, c, PTABLE), c, Idle)
    case Acquire(l) => DoAcquire(s, c, l)
    case Drop(l) => DoRelease(s, c, l)
    case CallYield => Enter(s, c, YieldSet)
    case CallSleep(id, lk) => Enter(s, c, SleepDrop(Other(id), lk))
    case CallWakeup(id) => Enter(s, c, WakeSet(Other(id)))
    case CallKill(pid) => Enter(s, c, KillSet(pid))
    case CallExit => Enter(s, c, ExitWake)
    case CallWait => Enter(s, c, WaitScan(0, false))
    case CallFork => Enter(s, c, ForkFind)
    case ForkFail =>
      var q := s.cpus[c].pc.q;
      Goto(SetProc(s, q, s.procs[q].(state := UNUSED)), c, Kernel)
  }

  ghost function DoStep(s: State, init: nat, c: nat): State
    requires Enabled(s, init, c, Step)
  {
    var u := s.cpus[c];
    match u.pc
    case Idle => Enter(s, c, Scan)
    case Scan => s
    case Kernel => s
    case Back => s.(cpus := s.cpus[c := u.(pc := Scan, proc := None)])
    case Picked => Goto(s, c, ResumePc(s.procs[u.proc.value].resume))
    case _ => DoProc(s, init, c, u.proc.value)
  }

  /** One step of process `p` on CPU `c`. */
  ghost function DoProc(s: State, init: nat, c: nat, p: nat): State
    requires c < |s.cpus| && p < |s.procs|
  {
    var x := s.procs[p];
    match s.cpus[c].pc
    case YieldSet => Goto(SetProc(s, p, x.(state := RUNNABLE)), c, Sched(AtYield))
    case SleepDrop(chan, lk) => Goto(DoRelease(s, c, lk), c, SleepSet(chan, lk))
    case SleepSet(chan, lk) => Goto(SetProc(s, p, x.(state := SLEEPING, chan := chan)), c, Sched(AtSleep(lk)))
    case SleepBack(lk) => Goto(SetProc(s, p, x.(chan := NoChan)), c, SleepRelease(lk))
    case SleepRelease(lk) => Goto(DoRelease(s, c, PTABLE), c, SleepReacquire(lk))
    case SleepReacquire(lk) => Goto(DoAcquire(s, c, lk), c, Kernel)
    case WakeSet(chan) => Goto(s.(procs := Wakeup1(s.procs, chan)), c, Release)
    case KillSet(pid) => Goto(DoKill(s, pid), c, Release)
    case ExitWake =>
      Goto(s.(procs := if x.parent.Some? then Wakeup1(s.procs, OfProc(x.parent.value)) else s.procs), c, ExitAdopt(0))
    case ExitAdopt(i) => DoAdopt(s, init, c, p, i)
    case WaitScan(i, havekids) => DoWait(s, c, p, i, havekids)
    case WaitBack => Goto(SetProc(s, p, x.(chan := NoChan)), c, WaitScan(0, false))
    case ForkFind => DoFind(s, c)
    case ForkGot(q) => Goto(DoRelease(s, c, PTABLE), c, ForkInit(q))
    case ForkInit(q) =>
      if q < |s.procs| then
        Goto(SetProc(s, q, s.procs[q].(parent := Some(p), resume := AtForkret)), c, ForkReady(q))
      else s
    case ForkReady(q) =>
      if q < |s.procs| then Goto(SetProc(s, q, s.procs[q].(state := RUNNABLE)), c, Kernel) else s
    case Sched(r) => Goto(SetProc(s, p, x.(resume := r)), c, Back)
    case _ => Goto(DoRelease(s, c, PTABLE), c, Kernel)   // YieldBack, ForkretRelease, Release
  }

  /** kill marks the first process with the pid, and wakes it from any sleep. */
  ghost function DoKill(s: State, pid: int): State {
    if exists q: nat :: HasPid(s, q, pid) then
      var q: nat :| HasPid(s, q, pid);
      var x := s.procs[q];
      SetProc(s, q, x.(killed := true, state := if x.state == SLEEPING then RUNNABLE else x.state))
    else s
  }

  /** One turn of exit's loop over the table, and the end of exit. */
  ghost function DoAdopt(s: State, init: nat, c: nat, p: nat, i: nat): State
    requires c < |s.cpus| && p < |s.procs|
  {
    if i < |s.procs| then
      var y := s.procs[i];
      if y.parent == Some(p) then
        var s1 := SetProc(s, i, y.(parent := Some(init)));
        Goto(if y.state == ZOMBIE then s1.(procs := Wakeup1(s1.procs, OfProc(init))) else s1, c, ExitAdopt(i + 1))
      else Goto(s, c, ExitAdopt(i + 1))
    else
      var s1 := SetProc(s, p, s.procs[p].(state := ZOMBIE));
      Goto(s1.(exited := s1.exited + {s1.procs[p].pid}), c, Sched(AtZombie))
  }

  /** One turn of wait's loop over the table, and what follows the loop. */
  ghost function DoWait(s: State, c: nat, p: nat, i: nat, havekids: bool): State
    requires c < |s.cpus| && p < |s.procs|
  {
    if i < |s.procs| then
      var y := s.procs[i];
      if y.parent != Some(p) then Goto(s, c, WaitScan(i + 1, havekids))
      else if y.state == ZOMBIE then
        Goto(SetProc(s, i, Cleared(y)).(reaped := s.reaped + {y.pid}), c, Release)
      else Goto(s, c, WaitScan(i + 1, true))
    else if !havekids || s.procs[p].killed then Goto(s, c, Release)
    else Goto(SetProc(s, p, s.procs[p].(state := SLEEPING, chan := OfProc(p))), c, Sched(AtWait))
  }

  /** allocproc under the lock: the first unused slot becomes an embryo with the next pid. */
  ghost function DoFind(s: State, c: nat): State
    requires c < |s.cpus|
  {
    if exists q: nat :: FirstUnused(s, q) then
      var q: nat :| FirstUnused(s, q);
      Goto(SetProc(s, q, s.procs[q].(state := EMBRYO, pid := s.nextpid)).(nextpid := s.nextpid + 1), c, ForkGot(q))
    else Goto(s, c, Release)
  }

  // ----- Runs -----

  datatype Event = Event(c: nat, a: Act)

  ghost predicate ValidRun(s: State, init: nat, run: seq<Event>) {
    run == [] ||
    (var k := |run| - 1;
     ValidRun(s, init, run[..k]) && Enabled(Last(s, init, run[..k]), init, run[k].c, run[k].a))
  }

  ghost function Last(s: State, init: nat, run: seq<Event>): State {
    if run == [] then s
    else
      var m := Last(s, init, run[..|run| - 1]);
      var e := run[|run| - 1];
      if Enabled(m, init, e.c, e.a) then Do(m, init, e.c, e.a) else m
  }
}
