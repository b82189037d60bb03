/** Safety of the process table, for every run on any number of CPUs. */
module ProcTheorems {
  import opened Common
  import opened ProcMachine
  import opened ProcInvariant

  // ----- Every step -----

  lemma ChildMore(t: seq<Proc>, i: nat, p: nat)
    requires i < |t|
    ensures ChildBelow(t, i + 1, p) <==> ChildBelow(t, i, p) || t[i].parent == Some(p)
  {
  }

  lemma WaitKeeps(s: State, init: nat, c: nat, p: nat, i: nat, havekids: bool)
    requires Inv(s, init) && On(s, c, p) && p < |s.procs| && s.cpus[c].pc == WaitScan(i, havekids)
    ensures Inv(DoWait(s, c, p, i, havekids), init)
  {
    hide LocksOk, TableOk, WaitsOk, PidsOk, Exclusive;
    CurrentState(s, init, c, p);
    if i < |s.procs| {
      if HasZombie(s.procs, i, p) {
        ReapKeeps(s, init, c, p, i, havekids);
      } else {
        ChildMore(s.procs, i, p);
        GotoKeeps(s, init, c, WaitScan(i + 1, havekids || s.procs[i].parent == Some(p)));
      }
    } else if !havekids || s.procs[p].killed {
      GotoKeeps(s, init, c, Release);
    } else {
      SetStateKeeps(s, init, c, p, DoWait(s, c, p, i, havekids));
    }
  }

  lemma ExitKeeps(s: State, init: nat, c: nat, p: nat, i: nat)
    requires Inv(s, init) && On(s, c, p) && p < |s.procs| && s.cpus[c].pc == ExitAdopt(i)
    ensures Inv(DoAdopt(s, init, c, p, i), init)
  {
    hide LocksOk, TableOk, WaitsOk, PidsOk, Exclusive;
    CurrentState(s, init, c, p);
    if i < |s.procs| {
      if s.procs[i].parent == Some(p) {
        AdoptKeeps(s, init, c, p, i);
      } else {
        GotoKeeps(s, init, c, ExitAdopt(i + 1));
      }
    } else {
      ZombieKeeps(s, init, c, p, DoAdopt(s, init, c, p, i));
    }
  }

  lemma ExitWakeKeeps(s: State, init: nat, c: nat, p: nat)
    requires Inv(s, init) && On(s, c, p) && p < |s.procs| && s.cpus[c].pc == ExitWake
    ensures Inv(DoProc(s, init, c, p), init)
  {
    hide LocksOk, WaitsOk, PidsOk, Exclusive;
    CurrentState(s, init, c, p);
    assert ProcOk(s.procs, init, p);
    WakeupKeeps(s, init, c, p, OfProc(s.procs[p].parent.value), ExitAdopt(0));
  }

  lemma ForkFindKeeps(s: State, init: nat, c: nat, p: nat)
    requires Inv(s, init) && On(s, c, p) && p < |s.procs| && s.cpus[c].pc == ForkFind
    ensures Inv(DoFind(s, c), init)
  {
    hide LocksOk, TableOk, WaitsOk, PidsOk, Exclusive;
    CurrentState(s, init, c, p);
    if exists q: nat :: FirstUnused(s, q) {
      forall q: nat | FirstUnused(s, q)
        ensures var s1 := SetProc(s, q, s.procs[q].(state := EMBRYO, pid := s.nextpid)).(nextpid := s.nextpid + 1);
                Inv(Goto(s1, c, ForkGot(q)), init)
      {
        FindKeeps(s, init, c, p, q);
      }
    } else {
      GotoKeeps(s, init, c, Release);
    }
  }

  lemma ProcStepKeeps(s: State, init: nat, c: nat, p: nat)
    requires Inv(s, init) && On(s, c, p) && p < |s.procs| && Enabled(s, init, c, Step)
    ensures Inv(DoProc(s, init, c, p), init)
  {
    hide LocksOk, TableOk, WaitsOk, PidsOk, Exclusive, PcOk, DoKill, DoAdopt, DoWait, DoFind, Inv;
    CurrentState(s, init, c, p);
    match s.cpus[c].pc
    case YieldSet => SetStateKeeps(s, init, c, p, DoProc(s, init, c, p));
    case SleepDrop(chan, lk) => SleepDropKeeps(s, init, c, p, chan, lk);
    case SleepSet(_, _) => SetStateKeeps(s, init, c, p, DoProc(s, init, c, p));
    case SleepBack(_) => ResumeKeeps(s, init, c, p, DoProc(s, init, c, p));
    case SleepRelease(lk) => ReleaseKeeps(s, init, c, PTABLE, SleepReacquire(lk));
    case SleepReacquire(lk) => AcquireKeeps(s, init, c, lk);
    case WakeSet(chan) => WakeupKeeps(s, init, c, p, chan, Release);
    case KillSet(pid) => KillKeeps(s, init, c, p, pid);
    case ExitWake => ExitWakeKeeps(s, init, c, p);
    case ExitAdopt(i) => ExitKeeps(s, init, c, p, i);
    case WaitScan(i, havekids) => WaitKeeps(s, init, c, p, i, havekids);
    case WaitBack => ResumeKeeps(s, init, c, p, DoProc(s, init, c, p));
    case ForkFind => ForkFindKeeps(s, init, c, p);
    case ForkGot(q) => ReleaseKeeps(s, init, c, PTABLE, ForkInit(q));
    case ForkInit(q) => ForkSlotKeeps(s, init, c, p, q);
    case ForkReady(q) => ForkSlotKeeps(s, init, c, p, q);
    case Sched(_) => ResumeKeeps(s, init, c, p, DoProc(s, init, c, p));
    case YieldBack => ReleaseKeeps(s, init, c, PTABLE, Kernel);
    case ForkretRelease => ReleaseKeeps(s, init, c, PTABLE, Kernel);
    case Release => ReleaseKeeps(s, init, c, PTABLE, Kernel);
  }

  lemma SleepDropKeeps(s: State, init: nat, c: nat, p: nat, chan: Chan, lk: nat)
    requires Inv(s, init) && On(s, c, p) && p < |s.procs| && s.cpus[c].pc == SleepDrop(chan, lk)
    ensures Inv(DoProc(s, init, c, p), init)
  {
    hide LocksOk, TableOk, WaitsOk, PidsOk, Exclusive;
    CurrentState(s, init, c, p);
    ReleaseKeeps(s, init, c, lk, SleepSet(chan, lk));
  }

  lemma ForkSlotKeeps(s: State, init: nat, c: nat, p: nat, q: nat)
    requires Inv(s, init) && On(s, c, p) && p < |s.procs|
    requires (s.cpus[c].pc == ForkInit(q) || s.cpus[c].pc == ForkReady(q))
    ensures Inv(DoProc(s, init, c, p), init)
  {
    hide LocksOk, TableOk, WaitsOk, PidsOk, Exclusive;
    CurrentState(s, init, c, p);
    SlotKeeps(s, init, c, p, q, DoProc(s, init, c, p));
  }

  lemma LeaveKeeps(s: State, init: nat, c: nat)
    requires Inv(s, init) && Enabled(s, init, c, Leave)
    ensures Inv(Do(s, init, c, Leave), init)
  {
    hide LocksOk, TableOk, WaitsOk, PidsOk, Exclusive;
    assert CpuOk(s, init, c);
    ReleaseKeeps(s, init, c, PTABLE, Idle);
  }

  lemma ForkFailKeeps(s: State, init: nat, c: nat)
    requires Inv(s, init) && Enabled(s, init, c, ForkFail)
    ensures Inv(Do(s, init, c, ForkFail), init)
  {
    hide LocksOk, TableOk, WaitsOk, PidsOk, Exclusive;
    var p, q := s.cpus[c].proc.value, s.cpus[c].pc.q;
    SlotKeeps(s, init, c, p, q, Do(s, init, c, ForkFail));
  }

  lemma PlainStepKeeps(s: State, init: nat, c: nat)
    requires Inv(s, init) && Enabled(s, init, c, Step)
    ensures Inv(DoStep(s, init, c), init)
  {
    hide LocksOk, TableOk, WaitsOk, PidsOk, Exclusive, PcOk, DoProc, Inv;
    if s.cpus[c].pc.Idle? {
      EnterKeeps(s, init, c, Scan);
    } else if s.cpus[c].pc.Back? || s.cpus[c].pc.Picked? {
      SwitchKeeps(s, init, c);
    } else {
      ProcStepKeeps(s, init, c, s.cpus[c].proc.value);
    }
  }

  lemma DropKeeps(s: State, init: nat, c: nat, l: nat)
    requires Inv(s, init) && Enabled(s, init, c, Drop(l))
    ensures Inv(Do(s, init, c, Drop(l)), init)
  {
    hide LocksOk, TableOk, WaitsOk, PidsOk, Exclusive;
    assert CpuOk(s, init, c);
    ReleaseKeeps(s, init, c, l, Kernel);
    assert Goto(DoRelease(s, c, l), c, Kernel) == DoRelease(s, c, l);
  }

  lemma GrabKeeps(s: State, init: nat, c: nat, l: nat)
    requires Inv(s, init) && Enabled(s, init, c, Acquire(l))
    ensures Inv(Do(s, init, c, Acquire(l)), init)
  {
    hide LocksOk, TableOk, WaitsOk, PidsOk, Exclusive;
    AcquireKeeps(s, init, c, l);
    assert Goto(DoAcquire(s, c, l), c, Kernel) == DoAcquire(s, c, l);
  }

  lemma StepKeeps(s: State, init: nat, c: nat, a: Act)
    requires Inv(s, init) && Enabled(s, init, c, a)
    ensures Inv(Do(s, init, c, a), init)
  {
    hide LocksOk, TableOk, WaitsOk, PidsOk, Exclusive, PcOk, DoStep, Inv;
    match a
    case Step => PlainStepKeeps(s, init, c);
    case Pick(p) => PickKeeps(s, init, c, p);
    case Leave => LeaveKeeps(s, init, c);
    case Acquire(l) => GrabKeeps(s, init, c, l);
    case Drop(l) => DropKeeps(s, init, c, l);
    case CallYield => EnterKeeps(s, init, c, YieldSet);
    case CallSleep(id, lk) => EnterKeeps(s, init, c, SleepDrop(Other(id), lk));
    case CallWakeup(id) => EnterKeeps(s, init, c, WakeSet(Other(id)));
    case CallKill(pid) => EnterKeeps(s, init, c, KillSet(pid));
    case CallExit => EnterKeeps(s, init, c, ExitWake);
    case CallWait => EnterKeeps(s, init, c, WaitScan(0, false));
    case CallFork => EnterKeeps(s, init, c, ForkFind);
    case ForkFail => ForkFailKeeps(s, init, c);
  }

  // ----- Every run -----

  /** The machine when the CPUs enter their schedulers: userinit has made the one process. */
  ghost predicate Booted(s: State, init: nat) {
    && s.owner == map[] && s.exited == {} && s.reaped == {} && s.nextpid == 2
    && (forall c :: 0 <= c < |s.cpus| ==> s.cpus[c] == Cpu(Idle, None, 0, {}))
    && init < |s.procs| && s.procs[init] == Proc(RUNNABLE, 1, None, NoChan, false, AtForkret)
    && (forall q :: 0 <= q < |s.procs| && q != init ==> s.procs[q] == Proc(UNUSED, 0, None, NoChan, false, AtForkret))
  }

  lemma BootedOk(s: State, init: nat)
    requires Booted(s, init)
    ensures Inv(s, init)
  {
  }

  lemma {:induction false} RunKeeps(s: State, init: nat, run: seq<Event>)
    requires Booted(s, init) && ValidRun(s, init, run)
    ensures Inv(Last(s, init, run), init)
  {
    hide Inv;
    if run == [] {
      BootedOk(s, init);
    } else {
      var k := |run| - 1;
      RunKeeps(s, init, run[..k]);
      StepKeeps(Last(s, init, run[..k]), init, run[k].c, run[k].a);
    }
  }

  /** No two CPUs execute on one process's kernel context, and none on that of a free or unfinished slot. */
  lemma ContextExclusivity(s: State, init: nat, run: seq<Event>, c: nat, p: nat)
    requires Booted(s, init) && ValidRun(s, init, run)
    requires On(Last(s, init, run), c, p)
    ensures p < |Last(s, init, run).procs|
    ensures Last(s, init, run).procs[p].state !in {UNUSED, EMBRYO}
    ensures forall d: nat :: On(Last(s, init, run), d, p) ==> d == c
  {
    hide Booted, LocksOk, TableOk, WaitsOk, PidsOk;
    RunKeeps(s, init, run);
    var t := Last(s, init, run);
    assert CpuOk(t, init, c);
    assert Uses(t, c, p);
    forall d: nat | On(t, d, p) ensures d == c {
      assert Uses(t, d, p);
    }
  }

  /** The lock that the next step of a CPU releases. */
  function Releases(u: Cpu, a: Act): Option<nat> {
    match a
    case Leave => Some(PTABLE)
    case Drop(l) => Some(l)
    case Step =>
      (match u.pc
       case SleepDrop(_, lk) => Some(lk)
       case SleepRelease(_) => Some(PTABLE)
       case ForkGot(_) => Some(PTABLE)
       case YieldBack => Some(PTABLE)
       case ForkretRelease => Some(PTABLE)
       case Release => Some(PTABLE)
       case _ => None)
    case _ => None
  }

  /** No step of any run meets a panic: release is by the recorded holder, nobody takes ptable.lock or, in
      sleep, its own lock while holding it, sched has the table lock and no other and the process is not
      running, and no zombie is resumed. */
  lemma NoPanic(s: State, init: nat, run: seq<Event>, c: nat, a: Act)
    requires Booted(s, init) && ValidRun(s, init, run) && Enabled(Last(s, init, run), init, c, a)
    ensures var t := Last(s, init, run); var u := t.cpus[c];
            && (Releases(u, a).Some? ==> Holding(t, c, Releases(u, a).value) && 0 < u.ncli)
            && (u.pc.Sched? ==> Holding(t, c, PTABLE) && u.ncli == 1 && t.procs[u.proc.value].state != RUNNING)
            && (u.pc.Picked? ==> t.procs[u.proc.value].resume != AtZombie)
            && (u.pc.Picked? ==> Holding(t, c, PTABLE) && t.procs[u.proc.value].state == RUNNING)
            && (u.pc.Idle? || u.pc.Kernel? ==> !Holding(t, c, PTABLE))
            && (u.pc.SleepReacquire? ==> !Holding(t, c, u.pc.lk))
  {
    hide Booted, WaitsOk, PidsOk, Exclusive;
    RunKeeps(s, init, run);
    var t := Last(s, init, run);
    assert CpuOk(t, init, c);
    if t.cpus[c].pc.Picked? {
      assert ProcOk(t.procs, init, t.cpus[c].proc.value);
    }
  }

  lemma Zombies(t: seq<Proc>, init: nat)
    requires TableOk(t, init) && WaitsOk(t)
    ensures forall p: nat, q: nat :: HasZombie(t, q, p) ==> p < |t| && Live(t[p]) && !AsleepInWait(t, p)
    ensures forall q: nat :: q < |t| && t[q].state == ZOMBIE ==> t[q].parent.Some? && HasZombie(t, q, t[q].parent.value)
    ensures init < |t| && Live(t[init])
  {
    forall p: nat, q: nat | HasZombie(t, q, p) ensures p < |t| && Live(t[p]) && !AsleepInWait(t, p) {
      assert ProcOk(t, init, q);
    }
    forall q: nat | q < |t| && t[q].state == ZOMBIE
      ensures t[q].parent.Some? && HasZombie(t, q, t[q].parent.value)
    {
      assert ProcOk(t, init, q);
    }
  }

  /** In every reachable state: no process sleeps in wait with a zombie child, a zombie that is not init
      has a live parent, and init is alive. */
  lemma NoMissedZombie(s: State, init: nat, run: seq<Event>)
    requires Booted(s, init) && ValidRun(s, init, run)
    ensures var t := Last(s, init, run).procs;
            && (forall p: nat, q: nat :: HasZombie(t, q, p) ==> p < |t| && Live(t[p]) && !AsleepInWait(t, p))
            && (forall q: nat :: q < |t| && t[q].state == ZOMBIE ==>
                  t[q].parent.Some? && HasZombie(t, q, t[q].parent.value))
            && init < |t| && Live(t[init])
  {
    hide Booted, LocksOk, PidsOk, Exclusive, TableOk, WaitsOk, HasZombie, AsleepInWait, Last, ValidRun, CpuOk;
    RunKeeps(s, init, run);
    Zombies(Last(s, init, run).procs, init);
  }

  /** When a wakeup has run, nobody sleeps on its channel and nobody is between deciding to and sleeping. */
  lemma NoLostWakeup(s: State, init: nat, run: seq<Event>, c: nat, id: nat)
    requires Booted(s, init) && ValidRun(s, init, run)
    requires c < |Last(s, init, run).cpus| && Last(s, init, run).cpus[c].pc == WakeSet(Other(id))
    requires Enabled(Last(s, init, run), init, c, Step)
    ensures var t := Do(Last(s, init, run), init, c, Step);
            && (forall p :: 0 <= p < |t.procs| ==> t.procs[p].state != SLEEPING || t.procs[p].chan != Other(id))
            && (forall d, lk :: 0 <= d < |t.cpus| ==>
                  t.cpus[d].pc != SleepDrop(Other(id), lk) && t.cpus[d].pc != SleepSet(Other(id), lk))
  {
    hide Booted, LocksOk, WaitsOk, PidsOk, Exclusive, TableOk;
    RunKeeps(s, init, run);
    var t := Last(s, init, run);
    assert CpuOk(t, init, c);
    forall d: nat | d < |t.cpus| && d != c
      ensures !t.cpus[d].pc.SleepDrop? && !t.cpus[d].pc.SleepSet?
    {
      Elsewhere(t, init, c, d);
    }
  }

  // ----- wait returns each exited pid once -----

  /** The pid that a step of wait returns. */
  ghost function Returned(s: State, e: Event): Option<int> {
    if e.c < |s.cpus| && e.a == Step && s.cpus[e.c].pc.WaitScan? && s.cpus[e.c].proc.Some? &&
       HasZombie(s.procs, s.cpus[e.c].pc.i, s.cpus[e.c].proc.value)
    then Some(s.procs[s.cpus[e.c].pc.i].pid)
    else None
  }

  /** Every step either returns a pid and records it, or leaves the record alone; nothing leaves `exited`. */
  lemma ReapRecord(s: State, init: nat, e: Event)
    requires Enabled(s, init, e.c, e.a)
    ensures var s' := Do(s, init, e.c, e.a);
            && s.exited <= s'.exited
            && s'.reaped == if Returned(s, e).Some? then s.reaped + {Returned(s, e).value} else s.reaped
  {
  }

  lemma {:induction false} ReapedGrows(s: State, init: nat, run: seq<Event>, i: nat)
    requires i <= |run| && ValidRun(s, init, run)
    ensures ValidRun(s, init, run[..i])
    ensures Last(s, init, run[..i]).reaped <= Last(s, init, run).reaped
    decreases |run|
  {
    if i < |run| {
      var k := |run| - 1;
      assert run[..k][..i] == run[..i];
      ReapedGrows(s, init, run[..k], i);
      ReapRecord(Last(s, init, run[..k]), init, run[k]);
    } else {
      assert run[..i] == run;
    }
  }

  /** A returned pid belongs to a process that has exited and was not returned before. */
  lemma ReturnedIsNew(s: State, init: nat, run: seq<Event>, e: Event)
    requires Booted(s, init) && ValidRun(s, init, run) && Returned(Last(s, init, run), e).Some?
    ensures Returned(Last(s, init, run), e).value in Last(s, init, run).exited - Last(s, init, run).reaped
  {
    hide Booted, LocksOk, WaitsOk, Exclusive, TableOk;
    RunKeeps(s, init, run);
  }

  /** In no run does wait return one pid twice. */
  lemma WaitReturnsOnce(s: State, init: nat, run: seq<Event>, i: nat, j: nat)
    requires Booted(s, init) && ValidRun(s, init, run) && i < j < |run|
    requires Returned(Last(s, init, run[..i]), run[i]).Some? && Returned(Last(s, init, run[..j]), run[j]).Some?
    ensures Returned(Last(s, init, run[..i]), run[i]).value != Returned(Last(s, init, run[..j]), run[j]).value
  {
    hide Booted, Returned, Do, Enabled;
    ReapedGrows(s, init, run, j);
    ReapedGrows(s, init, run, i + 1);
    ReapedGrows(s, init, run[..j], i + 1);
    assert run[..j][..i + 1] == run[..i + 1];
    assert run[..i + 1][..i] == run[..i];
    ReapRecord(Last(s, init, run[..i]), init, run[i]);
    ReturnedIsNew(s, init, run[..j], run[j]);
  }
}
