/** What every step of the process table, the scheduler and the locks keeps. */
module ProcInvariant {
  import opened Common
  import opened ProcMachine

  predicate Live(p: Proc) { p.state == SLEEPING || p.state == RUNNABLE || p.state == RUNNING }

  predicate AsleepInWait(t: seq<Proc>, p: nat) {
    p < |t| && t[p].state == SLEEPING && t[p].chan == OfProc(p)
  }

  predicate HasZombie(t: seq<Proc>, q: nat, p: nat) {
    q < |t| && t[q].parent == Some(p) && t[q].state == ZOMBIE
  }

  /** Some entry below `i` has parent `p`. */
  ghost predicate ChildBelow(t: seq<Proc>, i: nat, p: nat) {
    exists j: nat :: j < i && j < |t| && t[j].parent == Some(p)
  }

  // ----- Locks -----

  ghost predicate LocksOk(s: State) {
    && (forall l :: l in s.owner ==> s.owner[l] < |s.cpus| && l in s.cpus[s.owner[l]].held)
    && (forall c, l :: 0 <= c < |s.cpus| && l in s.cpus[c].held ==> Holding(s, c, l))
    && (forall c :: 0 <= c < |s.cpus| ==> s.cpus[c].ncli == |s.cpus[c].held|)
  }

  /** Which locks a CPU holds at each point. */
  predicate HeldOk(u: Cpu) {
    match u.pc
    case Idle => u.held == {}
    case Kernel => PTABLE !in u.held
    case ForkInit(_) => PTABLE !in u.held
    case ForkReady(_) => PTABLE !in u.held
    case SleepDrop(_, lk) => lk != PTABLE && u.held == {PTABLE, lk}
    case SleepSet(_, lk) => lk != PTABLE && u.held == {PTABLE}
    case SleepBack(lk) => lk != PTABLE && u.held == {PTABLE}
    case SleepRelease(lk) => lk != PTABLE && u.held == {PTABLE}
    case SleepReacquire(lk) => lk != PTABLE && u.held == {}
    case WakeSet(_) => PTABLE in u.held
    case KillSet(_) => PTABLE in u.held
    case Release => PTABLE in u.held
    case _ => u.held == {PTABLE}
  }

  // ----- CPUs -----

  predicate SchedState(r: Resume, st: PState) {
    match r
    case AtForkret => false
    case AtYield => st == RUNNABLE
    case AtSleep(lk) => st == SLEEPING && lk != PTABLE
    case AtWait => st == SLEEPING
    case AtZombie => st == ZOMBIE
  }

  predicate Uses(s: State, c: nat, p: nat) {
    c < |s.cpus| && (OnProc(s.cpus[c].pc) || s.cpus[c].pc.Picked?) && s.cpus[c].proc == Some(p)
  }

  predicate Forking(s: State, c: nat, q: nat) {
    c < |s.cpus| && (s.cpus[c].pc == ForkGot(q) || s.cpus[c].pc == ForkInit(q) || s.cpus[c].pc == ForkReady(q))
  }

  ghost predicate CpuOk(s: State, init: nat, c: nat)
    requires c < |s.cpus|
  {
    var u := s.cpus[c];
    && HeldOk(u)
    && (u.proc.None? <==> u.pc.Idle? || u.pc.Scan?)
    && (u.proc.Some? ==> u.proc.value < |s.procs| && PcOk(s.procs, init, u.pc, u.proc.value))
  }

  ghost predicate PcOk(t: seq<Proc>, init: nat, pc: Pc, p: nat)
    requires p < |t|
  {
    && (pc.Sched? ==> SchedState(pc.resume, t[p].state))
    && (!pc.Sched? && !pc.Back? ==> t[p].state == RUNNING)
    && (match pc
        case ForkGot(q) => q < |t| && t[q].state == EMBRYO && t[q].parent == None
        case ForkInit(q) => q < |t| && t[q].state == EMBRYO && t[q].parent == None
        case ForkReady(q) =>
          q < |t| && t[q].state == EMBRYO && t[q].parent == Some(p) && t[q].resume == AtForkret
        case SleepDrop(chan, _) => chan.Other?
        case SleepSet(chan, _) => chan.Other?
        case ExitWake => p != init
        case ExitAdopt(i) =>
          && p != init
          && (t[p].parent.Some? ==> !AsleepInWait(t, t[p].parent.value))
          && (forall j :: 0 <= j < i && j < |t| ==> t[j].parent != Some(p))
        case WaitScan(i, havekids) =>
          (forall j :: 0 <= j < i ==> !HasZombie(t, j, p)) && (havekids <==> ChildBelow(t, i, p))
        case _ => true)
  }

  ghost predicate Exclusive(s: State) {
    && (forall c: nat, d: nat, p: nat :: Uses(s, c, p) && Uses(s, d, p) ==> c == d)
    && (forall c: nat, d: nat, q: nat :: Forking(s, c, q) && Forking(s, d, q) ==> c == d)
  }

  // ----- The table -----

  ghost predicate TableOk(t: seq<Proc>, init: nat) {
    && init < |t| && Live(t[init]) && t[init].parent == None
    && (forall q :: 0 <= q < |t| ==> ProcOk(t, init, q))
  }

  ghost predicate ProcOk(t: seq<Proc>, init: nat, q: nat)
    requires q < |t|
  {
    var x := t[q];
    && (x.parent.Some? ==>
          x.parent.value < |t| && x.parent.value != q && Live(t[x.parent.value]) && x.state != UNUSED)
    && (q != init && (Live(x) || x.state == ZOMBIE) ==> x.parent.Some?)
    && (Live(x) ==> x.resume != AtZombie)
    && (x.resume.AtSleep? ==> x.resume.lk != PTABLE)
  }

  /** No process asleep in wait has a zombie child. */
  ghost predicate WaitsOk(t: seq<Proc>) {
    forall p: nat, q: nat :: AsleepInWait(t, p) ==> !HasZombie(t, q, p)
  }

  ghost predicate PidsOk(s: State) {
    && 0 < s.nextpid
    && (forall q :: 0 <= q < |s.procs| && s.procs[q].state != UNUSED ==>
          0 < s.procs[q].pid < s.nextpid && s.procs[q].pid !in s.reaped)
    && (forall q, r :: 0 <= q < r < |s.procs| && s.procs[q].state != UNUSED && s.procs[r].state != UNUSED ==>
          s.procs[q].pid != s.procs[r].pid)
    && (forall q :: 0 <= q < |s.procs| && s.procs[q].state != UNUSED ==>
          (s.procs[q].state == ZOMBIE <==> s.procs[q].pid in s.exited))
    && (forall x :: x in s.exited ==> x < s.nextpid)
    && s.reaped <= s.exited
  }

  ghost predicate Inv(s: State, init: nat) {
    && LocksOk(s)
    && (forall c :: 0 <= c < |s.cpus| ==> CpuOk(s, init, c))
    && Exclusive(s) && TableOk(s.procs, init) && WaitsOk(s.procs) && PidsOk(s)
  }

  // ----- Locks change hands -----

  lemma AcquireLocks(s: State, c: nat, l: nat, pc: Pc)
    requires LocksOk(s) && c < |s.cpus| && CanAcquire(s, l)
    ensures LocksOk(Goto(DoAcquire(s, c, l), c, pc))
  {
    assert l !in s.cpus[c].held;
  }

  lemma ReleaseLocks(s: State, c: nat, l: nat, pc: Pc)
    requires LocksOk(s) && c < |s.cpus| && l in s.cpus[c].held
    ensures LocksOk(Goto(DoRelease(s, c, l), c, pc)) && Holding(s, c, l)
  {
  }

  /** A CPU that does not hold the table lock is at one of few points. */
  lemma Elsewhere(s: State, init: nat, c: nat, d: nat)
    requires Inv(s, init) && c < |s.cpus| && d < |s.cpus| && c != d && PTABLE in s.cpus[c].held
    ensures var pc := s.cpus[d].pc;
            PTABLE !in s.cpus[d].held && (pc.Idle? || pc.Kernel? || pc.ForkInit? || pc.ForkReady? || pc.SleepReacquire?)
  {
    hide Exclusive, TableOk, WaitsOk, PidsOk, PcOk;
    assert CpuOk(s, init, d);
    assert Holding(s, c, PTABLE);
  }

  // ----- Steps that leave the table alone -----

  /** CPU `c` moved to another point, possibly taking or giving up a lock. */
  ghost predicate Moved(s: State, s': State, c: nat) {
    && c < |s.cpus| == |s'.cpus|
    && (forall d :: 0 <= d < |s.cpus| && d != c ==> s'.cpus[d] == s.cpus[d])
  }

  ghost predicate SameTable(s: State, s': State) {
    s'.procs == s.procs && s'.nextpid == s.nextpid && s'.exited == s.exited && s'.reaped == s.reaped
  }

  /** `c` uses no process and forks into no slot that it did not before. */
  ghost predicate NoNewUse(s: State, s': State, c: nat) {
    && (forall p: nat :: Uses(s', c, p) ==> Uses(s, c, p))
    && (forall q: nat :: Forking(s', c, q) ==> Forking(s, c, q))
  }

  lemma StillExclusive(s: State, s': State, c: nat)
    requires Exclusive(s) && Moved(s, s', c) && NoNewUse(s, s', c)
    ensures Exclusive(s')
  {
    forall d: nat, p: nat | Uses(s', d, p) ensures Uses(s, d, p) {}
    forall d: nat, q: nat | Forking(s', d, q) ensures Forking(s, d, q) {}
  }

  lemma MoveKeeps(s: State, init: nat, c: nat, s': State)
    requires Inv(s, init) && Moved(s, s', c) && SameTable(s, s') && NoNewUse(s, s', c)
    requires LocksOk(s') && CpuOk(s', init, c)
    ensures Inv(s', init)
  {
    hide LocksOk, HeldOk, NoNewUse;
    StillExclusive(s, s', c);
    forall d | 0 <= d < |s'.cpus| ensures CpuOk(s', init, d) {
      if d != c {
        assert CpuOk(s, init, d);
      }
    }
  }

  lemma EnterKeeps(s: State, init: nat, c: nat, pc: Pc)
    requires Inv(s, init) && c < |s.cpus| && CanAcquire(s, PTABLE)
    requires s.cpus[c].pc.Kernel? || (s.cpus[c].pc.Idle? && pc.Scan?)
    requires match pc
             case Scan => s.cpus[c].pc.Idle?
             case YieldSet => s.cpus[c].held == {}
             case SleepDrop(chan, lk) => s.cpus[c].held == {lk} && lk != PTABLE && chan.Other?
             case WakeSet(_) => true
             case KillSet(_) => true
             case ExitWake => s.cpus[c].held == {} && s.cpus[c].proc != Some(init)
             case WaitScan(i, havekids) => i == 0 && !havekids && s.cpus[c].held == {}
             case ForkFind => s.cpus[c].held == {}
             case _ => false
    ensures Inv(Enter(s, c, pc), init)
  {
    hide LocksOk, Exclusive, TableOk, WaitsOk, PidsOk;
    var s' := Enter(s, c, pc);
    AcquireLocks(s, c, PTABLE, pc);
    assert CpuOk(s, init, c);
    MoveKeeps(s, init, c, s');
  }

  /** Giving up a lock on the way to a point with nothing to prove. */
  lemma ReleaseKeeps(s: State, init: nat, c: nat, l: nat, pc: Pc)
    requires Inv(s, init) && c < |s.cpus| && l in s.cpus[c].held
    requires HeldOk(s.cpus[c].(held := s.cpus[c].held - {l}, pc := pc))
    requires pc.Kernel? || pc.SleepReacquire? || pc.SleepSet? ==>
               OnProc(s.cpus[c].pc) && !s.cpus[c].pc.Sched?
    requires pc.Idle? ==> s.cpus[c].pc.Scan?
    requires pc.ForkInit? ==> s.cpus[c].pc == ForkGot(pc.q)
    requires pc.SleepSet? ==> pc.chan.Other?
    requires pc.Kernel? || pc.SleepReacquire? || pc.SleepSet? || pc.Idle? || pc.ForkInit?
    ensures Inv(Goto(DoRelease(s, c, l), c, pc), init) && Holding(s, c, l)
  {
    hide LocksOk, Exclusive, TableOk, WaitsOk, PidsOk;
    ReleaseLocks(s, c, l, pc);
    assert CpuOk(s, init, c);
    MoveKeeps(s, init, c, Goto(DoRelease(s, c, l), c, pc));
  }

  lemma AcquireKeeps(s: State, init: nat, c: nat, l: nat)
    requires Inv(s, init) && c < |s.cpus| && l != PTABLE && CanAcquire(s, l)
    requires s.cpus[c].pc.Kernel? || s.cpus[c].pc == SleepReacquire(l)
    ensures Inv(Goto(DoAcquire(s, c, l), c, Kernel), init)
  {
    hide LocksOk, Exclusive, TableOk, WaitsOk, PidsOk;
    AcquireLocks(s, c, l, Kernel);
    assert CpuOk(s, init, c);
    MoveKeeps(s, init, c, Goto(DoAcquire(s, c, l), c, Kernel));
  }

  /** Going to another point with the same locks. */
  lemma GotoKeeps(s: State, init: nat, c: nat, pc: Pc)
    requires Inv(s, init) && c < |s.cpus| && s.cpus[c].proc.Some?
    requires OnProc(s.cpus[c].pc) && !s.cpus[c].pc.Sched? && HeldOk(s.cpus[c].(pc := pc))
    requires OnProc(pc) && !pc.Sched? && !pc.ForkGot? && !pc.ForkInit? && !pc.ForkReady?
    requires s.cpus[c].proc.value < |s.procs| && PcOk(s.procs, init, pc, s.cpus[c].proc.value)
    ensures Inv(Goto(s, c, pc), init)
  {
    hide LocksOk, Exclusive, TableOk, WaitsOk, PidsOk, PcOk;
    var s' := Goto(s, c, pc);
    assert LocksOk(s') by { SameLocks(s, s', c, pc); }
    assert CpuOk(s, init, c);
    MoveKeeps(s, init, c, s');
  }

  lemma SameLocks(s: State, s': State, c: nat, pc: Pc)
    requires LocksOk(s) && Moved(s, s', c) && s'.owner == s.owner
    requires s'.cpus[c].held == s.cpus[c].held && s'.cpus[c].ncli == s.cpus[c].ncli
    ensures LocksOk(s')
  {
  }

  /** The scheduler clears proc, or switches to the process it picked. */
  lemma SwitchKeeps(s: State, init: nat, c: nat)
    requires Inv(s, init) && c < |s.cpus| && (s.cpus[c].pc.Back? || s.cpus[c].pc.Picked?) && Enabled(s, init, c, Step)
    ensures Inv(DoStep(s, init, c), init)
    ensures s.cpus[c].pc.Picked? ==> s.procs[s.cpus[c].proc.value].resume != AtZombie
  {
    hide LocksOk, Exclusive, WaitsOk, PidsOk;
    var s' := DoStep(s, init, c);
    assert CpuOk(s, init, c);
    var p := s.cpus[c].proc.value;
    assert ProcOk(s.procs, init, p);
    SameLocks(s, s', c, s'.cpus[c].pc);
    assert CpuOk(s', init, c);
    MoveKeeps(s, init, c, s');
  }

  // ----- Steps that change the table under its lock -----

  /** What the other CPUs can be doing meanwhile. */
  lemma OthersAre(s: State, init: nat, c: nat)
    requires Inv(s, init) && c < |s.cpus| && PTABLE in s.cpus[c].held
    ensures forall d: nat, x: nat :: d != c && Uses(s, d, x) ==>
              x < |s.procs| && s.procs[x].state == RUNNING && !Uses(s, c, x)
    ensures forall d: nat, q: nat :: d != c && Forking(s, d, q) ==>
              && q < |s.procs| && s.procs[q].state == EMBRYO && !Forking(s, c, q)
              && (s.procs[q].parent.Some? ==> !Uses(s, c, s.procs[q].parent.value))
  {
    hide LocksOk, TableOk, WaitsOk, PidsOk;
    forall d: nat, x: nat | d != c && Uses(s, d, x)
      ensures x < |s.procs| && s.procs[x].state == RUNNING && !Uses(s, c, x)
    {
      Elsewhere(s, init, c, d);
      assert CpuOk(s, init, d);
    }
    forall d: nat, q: nat | d != c && Forking(s, d, q)
      ensures && q < |s.procs| && s.procs[q].state == EMBRYO && !Forking(s, c, q)
              && (s.procs[q].parent.Some? ==> !Uses(s, c, s.procs[q].parent.value))
    {
      Elsewhere(s, init, c, d);
      assert CpuOk(s, init, d);
      assert Uses(s, d, s.cpus[d].proc.value);
    }
  }

  /** Equal in all that matters to the process that is filling the slot in. */
  predicate SameSlot(x: Proc, y: Proc) {
    x.state == y.state && x.parent == y.parent && x.resume == y.resume
  }

  lemma OthersKept(s: State, init: nat, c: nat, s': State, d: nat)
    requires Inv(s, init) && Moved(s, s', c) && PTABLE in s.cpus[c].held && |s'.procs| == |s.procs|
    requires forall d: nat, x: nat :: d != c && Uses(s, d, x) ==> x < |s.procs| && s'.procs[x].state == RUNNING
    requires forall d: nat, q: nat :: d != c && Forking(s, d, q) ==> q < |s.procs| && SameSlot(s'.procs[q], s.procs[q])
    requires d < |s.cpus| && d != c
    ensures CpuOk(s', init, d)
  {
    hide LocksOk, TableOk, WaitsOk, PidsOk, Exclusive;
    Elsewhere(s, init, c, d);
    assert CpuOk(s, init, d);
    if s.cpus[d].proc.Some? {
      assert Uses(s, d, s.cpus[d].proc.value);
      var pc := s.cpus[d].pc;
      assert pc.ForkInit? || pc.ForkReady? ==> Forking(s, d, pc.q);
    }
  }

  /** A step under the table lock keeps everything if it keeps these. */
  lemma LockedKeeps(s: State, init: nat, c: nat, s': State)
    requires Inv(s, init) && Moved(s, s', c) && PTABLE in s.cpus[c].held && |s'.procs| == |s.procs|
    requires s'.owner == s.owner && s'.cpus[c].held == s.cpus[c].held && s'.cpus[c].ncli == s.cpus[c].ncli
    requires forall d: nat, x: nat :: d != c && Uses(s, d, x) ==> x < |s.procs| && s'.procs[x].state == RUNNING
    requires forall d: nat, q: nat :: d != c && Forking(s, d, q) ==> q < |s.procs| && SameSlot(s'.procs[q], s.procs[q])
    requires CpuOk(s', init, c) && Exclusive(s') && TableOk(s'.procs, init) && WaitsOk(s'.procs) && PidsOk(s')
    ensures Inv(s', init)
  {
    hide HeldOk, PcOk, TableOk, WaitsOk, PidsOk;
    SameLocks(s, s', c, s'.cpus[c].pc);
    forall d | 0 <= d < |s'.cpus| ensures CpuOk(s', init, d) {
      if d != c { OthersKept(s, init, c, s', d); }
    }
  }

  // ----- The current process changes its own entry -----

  /** Entry `p` of the table gets another state, channel or resumption point. */
  ghost predicate OwnChange(t: seq<Proc>, t': seq<Proc>, p: nat) {
    && p < |t| && |t'| == |t|
    && (forall q :: 0 <= q < |t| && q != p ==> t'[q] == t[q])
    && t'[p].(state := t[p].state, chan := t[p].chan, resume := t[p].resume) == t[p]
  }

  lemma OwnTable(t: seq<Proc>, t': seq<Proc>, init: nat, p: nat)
    requires TableOk(t, init) && OwnChange(t, t', p)
    requires Live(t[p]) || t[p].state == ZOMBIE
    requires t'[p].state == t[p].state || (Live(t[p]) && (Live(t'[p]) || t'[p].state == ZOMBIE))
    requires t'[p].state == ZOMBIE && t[p].state != ZOMBIE ==>
               p != init && forall q :: 0 <= q < |t| ==> t[q].parent != Some(p)
    requires Live(t'[p]) ==> t'[p].resume != AtZombie
    requires t'[p].resume.AtSleep? ==> t'[p].resume.lk != PTABLE
    ensures TableOk(t', init)
  {
    forall q | 0 <= q < |t'| ensures ProcOk(t', init, q) { assert ProcOk(t, init, q); }
    assert ProcOk(t, init, p);
  }

  lemma OwnWaits(t: seq<Proc>, t': seq<Proc>, p: nat)
    requires WaitsOk(t) && OwnChange(t, t', p)
    requires AsleepInWait(t', p) ==> forall q :: 0 <= q < |t| ==> !HasZombie(t, q, p)
    requires t'[p].state == ZOMBIE && t[p].parent.Some? ==>
               t[p].parent.value != p && !AsleepInWait(t, t[p].parent.value)
    ensures WaitsOk(t')
  {
    forall x: nat, q: nat | AsleepInWait(t', x) ensures !HasZombie(t', q, x) {
      assert x != p ==> AsleepInWait(t, x);
      assert x != p ==> !HasZombie(t, q, x);
      assert x == p && q < |t| ==> !HasZombie(t, q, p);
    }
  }

  lemma OwnPids(s: State, s': State, p: nat)
    requires PidsOk(s) && OwnChange(s.procs, s'.procs, p) && s'.nextpid == s.nextpid && s'.reaped == s.reaped
    requires s.procs[p].state != UNUSED && s'.procs[p].state != UNUSED
    requires s'.exited == if s'.procs[p].state == ZOMBIE then s.exited + {s.procs[p].pid} else s.exited
    requires s'.procs[p].state != ZOMBIE ==> s.procs[p].state != ZOMBIE
    ensures PidsOk(s')
  {
  }

  /** The current process of `c`, under the table lock, changes its own entry and goes on. */
  lemma OwnKeeps(s: State, init: nat, c: nat, p: nat, s': State)
    requires Inv(s, init) && Moved(s, s', c) && PTABLE in s.cpus[c].held && On(s, c, p)
    requires s'.owner == s.owner && s'.nextpid == s.nextpid && s'.reaped == s.reaped
    requires s'.cpus[c] == s.cpus[c].(pc := s'.cpus[c].pc) && NoNewUse(s, s', c)
    requires OwnChange(s.procs, s'.procs, p) && CpuOk(s', init, c)
    requires s'.exited == if s'.procs[p].state == ZOMBIE then s.exited + {s.procs[p].pid} else s.exited
    requires TableOk(s'.procs, init) && WaitsOk(s'.procs) && s'.procs[p].state != UNUSED
    requires s.procs[p].state == ZOMBIE ==> s'.procs[p].state == ZOMBIE
    ensures Inv(s', init)
  {
    hide LocksOk, HeldOk, PcOk, TableOk, WaitsOk, PidsOk, Exclusive;
    StillExclusive(s, s', c);
    OthersAre(s, init, c);
    assert Uses(s, c, p);
    CurrentState(s, init, c, p);
    forall d: nat, x: nat | d != c && Uses(s, d, x)
      ensures x < |s.procs| && s'.procs[x].state == RUNNING
    {
      assert x != p;
    }
    forall d: nat, q: nat | d != c && Forking(s, d, q)
      ensures q < |s.procs| && s'.procs[q] == s.procs[q]
    {
      assert q != p;
    }
    OwnPids(s, s', p);
    LockedKeeps(s, init, c, s');
  }

  lemma CurrentState(s: State, init: nat, c: nat, p: nat)
    requires Inv(s, init) && On(s, c, p)
    ensures p < |s.procs| && (Live(s.procs[p]) || s.procs[p].state == ZOMBIE)
    ensures PcOk(s.procs, init, s.cpus[c].pc, p) && HeldOk(s.cpus[c])
  {
    hide LocksOk, TableOk, WaitsOk, PidsOk, Exclusive;
    assert CpuOk(s, init, c);
  }

  /** yield, sleep and the end of wait's scan: set the state, then call sched. */
  lemma SetStateKeeps(s: State, init: nat, c: nat, p: nat, s': State)
    requires Inv(s, init) && On(s, c, p) && p < |s.procs|
    requires match s.cpus[c].pc
             case YieldSet => s' == Goto(SetProc(s, p, s.procs[p].(state := RUNNABLE)), c, Sched(AtYield))
             case SleepSet(chan, lk) =>
               s' == Goto(SetProc(s, p, s.procs[p].(state := SLEEPING, chan := chan)), c, Sched(AtSleep(lk)))
             case WaitScan(i, _) =>
               i >= |s.procs| &&
               s' == Goto(SetProc(s, p, s.procs[p].(state := SLEEPING, chan := OfProc(p))), c, Sched(AtWait))
             case _ => false
    ensures Inv(s', init)
  {
    hide LocksOk, PidsOk, Exclusive, WaitsOk;
    CurrentState(s, init, c, p);
    assert ProcOk(s.procs, init, p);
    OwnTable(s.procs, s'.procs, init, p);
    OwnWaits(s.procs, s'.procs, p);
    OwnKeeps(s, init, c, p, s');
  }

  /** The end of exit: the process becomes a zombie, its parent awake and its children passed on. */
  lemma ZombieKeeps(s: State, init: nat, c: nat, p: nat, s': State)
    requires Inv(s, init) && On(s, c, p) && p < |s.procs| && s.cpus[c].pc.ExitAdopt? && s.cpus[c].pc.i >= |s.procs|
    requires s' == Goto(SetProc(s, p, s.procs[p].(state := ZOMBIE)).(exited := s.exited + {s.procs[p].pid}), c,
                        Sched(AtZombie))
    ensures Inv(s', init)
  {
    hide LocksOk, PidsOk, Exclusive, WaitsOk;
    CurrentState(s, init, c, p);
    assert ProcOk(s.procs, init, p);
    OwnTable(s.procs, s'.procs, init, p);
    OwnWaits(s.procs, s'.procs, p);
    OwnKeeps(s, init, c, p, s');
  }

  /** After sleep: clear the channel.  In sched: save the context. */
  lemma ResumeKeeps(s: State, init: nat, c: nat, p: nat, s': State)
    requires Inv(s, init) && On(s, c, p) && p < |s.procs|
    requires match s.cpus[c].pc
             case SleepBack(lk) => s' == Goto(SetProc(s, p, s.procs[p].(chan := NoChan)), c, SleepRelease(lk))
             case WaitBack => s' == Goto(SetProc(s, p, s.procs[p].(chan := NoChan)), c, WaitScan(0, false))
             case Sched(r) => s' == Goto(SetProc(s, p, s.procs[p].(resume := r)), c, Back)
             case _ => false
    ensures Inv(s', init)
  {
    hide LocksOk, PidsOk, Exclusive;
    CurrentState(s, init, c, p);
    assert ProcOk(s.procs, init, p);
    OwnTable(s.procs, s'.procs, init, p);
    ResumeWaits(s.procs, s'.procs, p);
    ResumeExited(s, p);
    OwnKeeps(s, init, c, p, s');
  }

  lemma ResumeExited(s: State, p: nat)
    requires PidsOk(s) && p < |s.procs|
    ensures s.procs[p].state == ZOMBIE ==> s.exited == s.exited + {s.procs[p].pid}
  {
  }

  lemma ResumeWaits(t: seq<Proc>, t': seq<Proc>, p: nat)
    requires WaitsOk(t) && OwnChange(t, t', p) && t'[p].state == t[p].state
    requires t'[p].chan == t[p].chan || t'[p].chan == NoChan
    ensures WaitsOk(t')
  {
    forall x: nat, q: nat | AsleepInWait(t', x) ensures !HasZombie(t', q, x) {
      assert AsleepInWait(t, x);
      assert !HasZombie(t, q, x);
    }
  }

  // ----- Picking a process -----

  lemma PickKeeps(s: State, init: nat, c: nat, p: nat)
    requires Inv(s, init) && Enabled(s, init, c, Pick(p))
    ensures Inv(Do(s, init, c, Pick(p)), init)
    ensures forall d: nat :: !Uses(s, d, p)
  {
    hide LocksOk, WaitsOk, PidsOk, TableOk;
    var s' := Do(s, init, c, Pick(p));
    assert CpuOk(s, init, c);
    OthersAre(s, init, c);
    forall d: nat ensures !Uses(s, d, p) {}
    PickTable(s.procs, s'.procs, init, p);
    PickPids(s, s', p);
    assert Exclusive(s') by { PickExclusive(s, s', c, p); }
    LockedKeeps(s, init, c, s');
  }

  lemma PickExclusive(s: State, s': State, c: nat, p: nat)
    requires Exclusive(s) && Moved(s, s', c) && (forall d: nat :: !Uses(s, d, p))
    requires s'.cpus[c].pc == Picked && s'.cpus[c].proc == Some(p)
    ensures Exclusive(s')
  {
    forall d: nat, x: nat | Uses(s', d, x) ensures (d == c && x == p) || (d != c && Uses(s, d, x)) {}
    forall d: nat, q: nat | Forking(s', d, q) ensures Forking(s, d, q) {}
  }

  lemma PickTable(t: seq<Proc>, t': seq<Proc>, init: nat, p: nat)
    requires p < |t| && t[p].state == RUNNABLE && t' == t[p := t[p].(state := RUNNING)]
    ensures TableOk(t, init) ==> TableOk(t', init)
    ensures WaitsOk(t) ==> WaitsOk(t')
  {
    if TableOk(t, init) {
      forall q | 0 <= q < |t'| ensures ProcOk(t', init, q) { assert ProcOk(t, init, q); }
    }
    if WaitsOk(t) {
      forall x: nat, q: nat | AsleepInWait(t', x) ensures !HasZombie(t', q, x) {
        assert AsleepInWait(t, x);
        assert !HasZombie(t, q, x);
      }
    }
  }

  lemma PickPids(s: State, s': State, p: nat)
    requires PidsOk(s) && p < |s.procs| && s.procs[p].state == RUNNABLE
    requires s'.procs == s.procs[p := s.procs[p].(state := RUNNING)]
    requires s'.nextpid == s.nextpid && s'.exited == s.exited && s'.reaped == s.reaped
    ensures PidsOk(s')
  {
  }

  // ----- Waking -----

  /** Some sleepers have become runnable, and kill flags may have been set. */
  ghost predicate Woken(t: seq<Proc>, t': seq<Proc>) {
    && |t'| == |t|
    && forall q :: 0 <= q < |t| ==>
         && t'[q].(state := t[q].state, killed := t[q].killed) == t[q]
         && (t'[q].state == t[q].state || (t[q].state == SLEEPING && t'[q].state == RUNNABLE))
  }

  lemma WokenKeeps(s: State, init: nat, c: nat, p: nat, s': State)
    requires Inv(s, init) && On(s, c, p) && Moved(s, s', c) && PTABLE in s.cpus[c].held
    requires s' == Goto(s.(procs := s'.procs), c, s'.cpus[c].pc) && Woken(s.procs, s'.procs)
    requires CpuOk(s', init, c) && NoNewUse(s, s', c)
    ensures Inv(s', init)
  {
    hide LocksOk, HeldOk, PcOk, Exclusive;
    StillExclusive(s, s', c);
    OthersAre(s, init, c);
    forall q | 0 <= q < |s'.procs| ensures ProcOk(s'.procs, init, q) { assert ProcOk(s.procs, init, q); }
    forall x: nat, q: nat | AsleepInWait(s'.procs, x) ensures !HasZombie(s'.procs, q, x) {
      assert AsleepInWait(s.procs, x);
      assert !HasZombie(s.procs, q, x);
    }
    LockedKeeps(s, init, c, s');
  }

  lemma WakenedAll(t: seq<Proc>, chan: Chan)
    ensures Woken(t, Wakeup1(t, chan))
    ensures forall p: nat :: chan == OfProc(p) ==> !AsleepInWait(Wakeup1(t, chan), p)
    ensures forall q :: 0 <= q < |t| && t[q].state == RUNNING ==> Wakeup1(t, chan)[q] == t[q]
  {
  }

  /** wakeup, and the wakeup of the parent in exit. */
  lemma WakeupKeeps(s: State, init: nat, c: nat, p: nat, chan: Chan, pc: Pc)
    requires Inv(s, init) && On(s, c, p) && p < |s.procs|
    requires (s.cpus[c].pc == WakeSet(chan) && pc == Release) ||
             (s.cpus[c].pc == ExitWake && pc == ExitAdopt(0) && s.procs[p].parent.Some? &&
              chan == OfProc(s.procs[p].parent.value))
    ensures Inv(Goto(s.(procs := Wakeup1(s.procs, chan)), c, pc), init)
  {
    hide LocksOk, TableOk, WaitsOk, PidsOk, Exclusive;
    CurrentState(s, init, c, p);
    WakenedAll(s.procs, chan);
    WokenKeeps(s, init, c, p, Goto(s.(procs := Wakeup1(s.procs, chan)), c, pc));
  }

  lemma KillKeeps(s: State, init: nat, c: nat, p: nat, pid: int)
    requires Inv(s, init) && On(s, c, p) && p < |s.procs| && s.cpus[c].pc == KillSet(pid)
    ensures Inv(Goto(DoKill(s, pid), c, Release), init)
  {
    hide LocksOk, TableOk, WaitsOk, PidsOk, Exclusive;
    CurrentState(s, init, c, p);
    WokenKeeps(s, init, c, p, Goto(DoKill(s, pid), c, Release));
  }

  // ----- Passing children to init -----

  lemma AdoptTable(t: seq<Proc>, t1: seq<Proc>, init: nat, p: nat, i: nat)
    requires TableOk(t, init) && i < |t| && t[i].parent == Some(p) && p < |t| && p != init
    requires t1 == t[i := t[i].(parent := Some(init))]
    ensures TableOk(t1, init)
  {
    forall q | 0 <= q < |t1| ensures ProcOk(t1, init, q) { assert ProcOk(t, init, q); }
  }

  lemma AdoptWaits(t: seq<Proc>, t1: seq<Proc>, t2: seq<Proc>, init: nat, i: nat)
    requires WaitsOk(t) && i < |t| && t1 == t[i := t[i].(parent := Some(init))]
    requires t2 == if t[i].state == ZOMBIE then Wakeup1(t1, OfProc(init)) else t1
    ensures WaitsOk(t2)
  {
    WakenedAll(t1, OfProc(init));
    forall x: nat, q: nat | AsleepInWait(t2, x) ensures !HasZombie(t2, q, x) {
      assert AsleepInWait(t, x);
      assert !HasZombie(t, q, x);
    }
  }

  lemma WokenTable(t: seq<Proc>, t': seq<Proc>, init: nat)
    requires TableOk(t, init) && Woken(t, t')
    ensures TableOk(t', init)
  {
    forall q | 0 <= q < |t'| ensures ProcOk(t', init, q) { assert ProcOk(t, init, q); }
  }

  lemma AdoptKeeps(s: State, init: nat, c: nat, p: nat, i: nat)
    requires Inv(s, init) && On(s, c, p) && p < |s.procs| && s.cpus[c].pc == ExitAdopt(i)
    requires i < |s.procs| && s.procs[i].parent == Some(p)
    ensures Inv(DoAdopt(s, init, c, p, i), init)
  {
    hide LocksOk, TableOk, WaitsOk, Exclusive;
    var s' := DoAdopt(s, init, c, p, i);
    var t1 := s.procs[i := s.procs[i].(parent := Some(init))];
    CurrentState(s, init, c, p);
    AdoptTable(s.procs, t1, init, p, i);
    AdoptWaits(s.procs, t1, s'.procs, init, i);
    WakenedAll(t1, OfProc(init));
    WokenTable(t1, Wakeup1(t1, OfProc(init)), init);
    StillExclusive(s, s', c);
    OthersAre(s, init, c);
    assert Uses(s, c, p);
    NotOwnParent(s.procs, init, p);
    AdoptPc(s.procs, t1, s'.procs, init, p, i);
    LockedKeeps(s, init, c, s');
  }

  lemma NotOwnParent(t: seq<Proc>, init: nat, p: nat)
    requires TableOk(t, init) && p < |t|
    ensures t[p].parent != Some(p)
  {
    assert ProcOk(t, init, p);
  }

  lemma AdoptPc(t: seq<Proc>, t1: seq<Proc>, t2: seq<Proc>, init: nat, p: nat, i: nat)
    requires p < |t| && i < |t| && t1 == t[i := t[i].(parent := Some(init))] && PcOk(t, init, ExitAdopt(i), p)
    requires t2 == if t[i].state == ZOMBIE then Wakeup1(t1, OfProc(init)) else t1
    requires t[p].parent != Some(p) && t[i].parent == Some(p)
    ensures PcOk(t2, init, ExitAdopt(i + 1), p)
  {
  }

  // ----- Reaping -----

  lemma ReapTable(t: seq<Proc>, t': seq<Proc>, init: nat, p: nat, i: nat)
    requires TableOk(t, init) && HasZombie(t, i, p) && t' == t[i := Cleared(t[i])]
    ensures TableOk(t', init)
  {
    forall q | 0 <= q < |t'| ensures ProcOk(t', init, q) { assert ProcOk(t, init, q); }
  }

  lemma ReapWaits(t: seq<Proc>, t': seq<Proc>, i: nat)
    requires WaitsOk(t) && i < |t| && t' == t[i := Cleared(t[i])]
    ensures WaitsOk(t')
  {
    forall x: nat, q: nat | AsleepInWait(t', x) ensures !HasZombie(t', q, x) {
      assert AsleepInWait(t, x);
      assert !HasZombie(t, q, x);
    }
  }

  lemma ReapPids(s: State, s': State, i: nat)
    requires PidsOk(s) && i < |s.procs| && s.procs[i].state == ZOMBIE
    requires s'.procs == s.procs[i := Cleared(s.procs[i])] && s'.reaped == s.reaped + {s.procs[i].pid}
    requires s'.nextpid == s.nextpid && s'.exited == s.exited
    ensures PidsOk(s')
    ensures s.procs[i].pid in s.exited && s.procs[i].pid !in s.reaped
  {
  }

  /** wait returns a child that has exited, for the first time, and no CPU is on its kernel stack. */
  lemma ReapKeeps(s: State, init: nat, c: nat, p: nat, i: nat, havekids: bool)
    requires Inv(s, init) && On(s, c, p) && p < |s.procs| && s.cpus[c].pc == WaitScan(i, havekids)
    requires HasZombie(s.procs, i, p)
    ensures Inv(DoWait(s, c, p, i, havekids), init)
    ensures s.procs[i].pid in s.exited && s.procs[i].pid !in s.reaped
    ensures forall d: nat :: !Uses(s, d, i)
  {
    hide LocksOk, TableOk, WaitsOk, PidsOk, Exclusive;
    var s' := DoWait(s, c, p, i, havekids);
    CurrentState(s, init, c, p);
    ReapTable(s.procs, s'.procs, init, p, i);
    ReapWaits(s.procs, s'.procs, i);
    ReapPids(s, s', i);
    StillExclusive(s, s', c);
    OthersAre(s, init, c);
    LockedKeeps(s, init, c, s');
  }

  // ----- Forking -----

  lemma FindKeeps(s: State, init: nat, c: nat, p: nat, q: nat)
    requires Inv(s, init) && On(s, c, p) && p < |s.procs| && s.cpus[c].pc == ForkFind && FirstUnused(s, q)
    ensures var s1 := SetProc(s, q, s.procs[q].(state := EMBRYO, pid := s.nextpid)).(nextpid := s.nextpid + 1);
            Inv(Goto(s1, c, ForkGot(q)), init)
  {
    hide LocksOk, TableOk, WaitsOk, PidsOk, Exclusive;
    var s' := Goto(SetProc(s, q, s.procs[q].(state := EMBRYO, pid := s.nextpid)).(nextpid := s.nextpid + 1), c,
                   ForkGot(q));
    CurrentState(s, init, c, p);
    OthersAre(s, init, c);
    FindTable(s.procs, s'.procs, init, q, s.nextpid);
    FindPids(s, s', q);
    FindExclusive(s, s', c, q);
    LockedKeeps(s, init, c, s');
  }

  lemma FindTable(t: seq<Proc>, t': seq<Proc>, init: nat, q: nat, pid: int)
    requires TableOk(t, init) && WaitsOk(t) && q < |t| && t[q].state == UNUSED
    requires t' == t[q := t[q].(state := EMBRYO, pid := pid)]
    ensures TableOk(t', init) && WaitsOk(t') && t[q].parent == None
  {
    forall x | 0 <= x < |t'| ensures ProcOk(t', init, x) { assert ProcOk(t, init, x); }
    assert ProcOk(t, init, q);
    forall x: nat, y: nat | AsleepInWait(t', x) ensures !HasZombie(t', y, x) {
      assert AsleepInWait(t, x);
      assert !HasZombie(t, y, x);
    }
  }

  lemma FindPids(s: State, s': State, q: nat)
    requires PidsOk(s) && q < |s.procs| && s.procs[q].state == UNUSED
    requires s'.procs == s.procs[q := s.procs[q].(state := EMBRYO, pid := s.nextpid)]
    requires s'.nextpid == s.nextpid + 1 && s'.exited == s.exited && s'.reaped == s.reaped
    ensures PidsOk(s')
  {
  }

  lemma FindExclusive(s: State, s': State, c: nat, q: nat)
    requires Exclusive(s) && Moved(s, s', c) && c < |s.cpus| && OnProc(s.cpus[c].pc)
    requires s'.cpus[c] == s.cpus[c].(pc := ForkGot(q))
    requires forall d: nat :: d != c ==> !Forking(s, d, q)
    ensures Exclusive(s')
  {
    forall d: nat, x: nat | Uses(s', d, x) ensures Uses(s, d, x) {}
    forall d: nat, x: nat | Forking(s', d, x) ensures (d == c && x == q) || (d != c && Forking(s, d, x)) {}
  }

  /** The unlocked stores of fork touch only the slot that this process is filling in. */
  ghost predicate SlotChange(t: seq<Proc>, t': seq<Proc>, q: nat) {
    && q < |t| && |t'| == |t| && t[q].state == EMBRYO
    && (forall x :: 0 <= x < |t| && x != q ==> t'[x] == t[x])
    && (t'[q].state == EMBRYO || t'[q].state == RUNNABLE || t'[q].state == UNUSED)
    && t'[q].pid == t[q].pid
  }

  /** Another CPU, wherever it is, even scanning the table under the lock, is not disturbed. */
  lemma SlotOthers(s: State, init: nat, c: nat, p: nat, q: nat, s': State, d: nat)
    requires Inv(s, init) && Moved(s, s', c) && On(s, c, p) && Forking(s, c, q) && SlotChange(s.procs, s'.procs, q)
    requires s'.procs[q].parent == s.procs[q].parent ||
             (s.procs[q].parent == None && s'.procs[q].parent == Some(p))
    requires d < |s.cpus| && d != c
    ensures CpuOk(s', init, d)
  {
    hide LocksOk, TableOk, WaitsOk, PidsOk;
    assert CpuOk(s, init, d);
    if s.cpus[d].proc.Some? {
      var pc, x := s.cpus[d].pc, s.cpus[d].proc.value;
      assert !pc.Back? ==> Uses(s, d, x);
      assert Uses(s, c, p);
      assert pc.ForkGot? || pc.ForkInit? || pc.ForkReady? ==> Forking(s, d, pc.q);
      assert !Forking(s, d, q);
      SlotPc(s.procs, s'.procs, init, pc, x, p, q);
    }
  }

  /** A child that another process adds or fills in is no child of `x`. */
  lemma SlotChildren(t: seq<Proc>, t': seq<Proc>, i: nat, x: nat, p: nat, q: nat)
    requires SlotChange(t, t', q) && x != p
    requires t'[q].parent == t[q].parent || (t[q].parent == None && t'[q].parent == Some(p))
    ensures ChildBelow(t', i, x) <==> ChildBelow(t, i, x)
  {
    forall j: nat | j < |t| ensures t'[j].parent == Some(x) <==> t[j].parent == Some(x) {}
    if ChildBelow(t, i, x) {
      var j: nat :| j < i && j < |t| && t[j].parent == Some(x);
      assert t'[j].parent == Some(x);
    }
    if ChildBelow(t', i, x) {
      var j: nat :| j < i && j < |t'| && t'[j].parent == Some(x);
      assert t[j].parent == Some(x);
    }
  }

  lemma SlotPc(t: seq<Proc>, t': seq<Proc>, init: nat, pc: Pc, x: nat, p: nat, q: nat)
    requires x < |t| && PcOk(t, init, pc, x) && SlotChange(t, t', q)
    requires t'[q].parent == t[q].parent || (t[q].parent == None && t'[q].parent == Some(p))
    requires !pc.Back? ==> x != p
    requires pc.ForkGot? || pc.ForkInit? || pc.ForkReady? ==> pc.q != q
    ensures PcOk(t', init, pc, x)
  {
    assert x == q ==> pc.Back?;
    if pc.WaitScan? {
      forall j | 0 <= j < pc.i ensures !HasZombie(t', j, x) { assert !HasZombie(t, j, x); }
      SlotChildren(t, t', pc.i, x, p, q);
    }
  }

  lemma SlotTable(t: seq<Proc>, t': seq<Proc>, init: nat, q: nat)
    requires TableOk(t, init) && WaitsOk(t) && SlotChange(t, t', q)
    requires t'[q].parent.Some? ==> t'[q].parent.value < |t| && t'[q].parent.value != q && Live(t[t'[q].parent.value])
    requires t'[q].state == UNUSED ==> t'[q].parent.None?
    requires t'[q].state == RUNNABLE ==> t'[q].parent.Some? && t'[q].resume == AtForkret
    requires t'[q].resume == t[q].resume || t'[q].resume == AtForkret
    requires AsleepInWait(t', q) ==> false
    ensures TableOk(t', init) && WaitsOk(t')
  {
    forall x | 0 <= x < |t'| ensures ProcOk(t', init, x) { assert ProcOk(t, init, x); }
    forall x: nat, y: nat | AsleepInWait(t', x) ensures !HasZombie(t', y, x) {
      assert AsleepInWait(t, x);
      assert !HasZombie(t, y, x);
    }
  }

  lemma SlotPids(s: State, s': State, q: nat)
    requires PidsOk(s) && SlotChange(s.procs, s'.procs, q)
    requires s'.nextpid == s.nextpid && s'.exited == s.exited && s'.reaped == s.reaped
    ensures PidsOk(s')
  {
  }

  lemma SlotKeeps(s: State, init: nat, c: nat, p: nat, q: nat, s': State)
    requires Inv(s, init) && On(s, c, p) && p < |s.procs| && q < |s.procs|
    requires (s.cpus[c].pc == ForkInit(q) &&
              (s' == Goto(SetProc(s, q, s.procs[q].(parent := Some(p), resume := AtForkret)), c, ForkReady(q)) ||
               s' == Goto(SetProc(s, q, s.procs[q].(state := UNUSED)), c, Kernel))) ||
             (s.cpus[c].pc == ForkReady(q) && s' == Goto(SetProc(s, q, s.procs[q].(state := RUNNABLE)), c, Kernel))
    ensures Inv(s', init)
  {
    hide TableOk, WaitsOk, PidsOk, Exclusive, LocksOk;
    CurrentState(s, init, c, p);
    SlotTable(s.procs, s'.procs, init, q);
    SlotPids(s, s', q);
    StillExclusive(s, s', c);
    SameLocks(s, s', c, s'.cpus[c].pc);
    forall d | 0 <= d < |s'.cpus| ensures CpuOk(s', init, d) {
      if d != c { SlotOthers(s, init, c, p, q, s', d); }
    }
  }
}
