/** What every step of the logging layer keeps, and what it does to the durable state and to
    the state that running operations see. */
module LogInvariant {
  import opened Common
  import opened LogDisk
  import opened LogMachine

  // ----- The invariant -----

  ghost predicate Shape(c: Layout, s: State) {
    && WfDisk(c, s.disk) && EntriesOk(c, s.lh)
    && forall b :: b in s.cache ==> 0 <= b < c.nblocks
  }

  /** The counter of open operations, and the commit that waits for it to be zero. */
  predicate Counted(s: State) {
    && s.outstanding == Count(s.procs)
    && (s.committing <==> s.phase.WritingLog? || s.phase.Installing? || s.phase.Finishing?)
    && (!s.phase.Running? ==> s.outstanding == 0)
  }

  ghost predicate OpsOk(c: Layout, s: State) {
    && Counted(s)
    && (forall p :: 0 <= p < |s.procs| && s.procs[p].Inside? && s.procs[p].checked.Some? ==>
          IsHome(c, s.procs[p].checked.value) && Holds(s, p, s.procs[p].checked.value))
  }

  /** A logged block whose content is not home yet. */
  ghost predicate Pinned(s: State, b: int) {
    match s.phase
    case Running => b in s.lh
    case WritingLog(_) => b in s.lh
    case Installing(t) => b in s.lh && t <= IndexOf(s.lh, b)
    case _ => false
  }

  ghost predicate BufOk(c: Layout, s: State, b: int)
    requires b in s.cache && 0 <= b < |s.disk|
  {
    var buf := s.cache[b];
    && (buf.dirty <==> Pinned(s, b))
    && (buf.changed ==> buf.holder.Some? && buf.holder.value < |s.procs| && s.procs[buf.holder.value].Inside?)
    && (!buf.dirty && !buf.changed ==> buf.data == s.disk[b])
    && (!IsHome(c, b) ==> buf.holder.None?)
  }

  ghost predicate CacheOk(c: Layout, s: State)
    requires Shape(c, s)
  {
    && (forall b :: b in s.cache ==> BufOk(c, s, b))
    && (forall b :: Pinned(s, b) ==> b in s.cache)
  }

  /** Log block `i` holds what the cache holds for the block it is a copy of. */
  ghost predicate Copied(c: Layout, s: State, i: int)
    requires Shape(c, s) && 0 <= i < |s.lh|
  {
    s.lh[i] in s.cache && s.disk[c.start + 1 + i] == s.cache[s.lh[i]].data
  }

  ghost predicate Installed(c: Layout, s: State, i: int)
    requires Shape(c, s) && 0 <= i < |s.lh|
  {
    AtHome(c, s.disk, s.lh, i)
  }

  ghost predicate PhaseOk(c: Layout, s: State)
    requires Shape(c, s)
  {
    var es := Entries(s.disk[c.start]);
    match s.phase
    case Running => es == []
    case WritingLog(t) => t <= |s.lh| && es == [] && forall i :: 0 <= i < t ==> Copied(c, s, i)
    case Installing(t) =>
      && t <= |s.lh| && es == s.lh
      && (forall i :: 0 <= i < t ==> Installed(c, s, i))
      && (forall i :: t <= i < |s.lh| ==> Copied(c, s, i))
    case Finishing => es == [] && s.lh == []
    case ReadingHead => s.cache == map[] && s.lh == []
    case Reinstalling(t) =>
      t <= |s.lh| && es == s.lh && forall i :: 0 <= i < t ==> Installed(c, s, i)
  }

  ghost predicate Inv(c: Layout, s: State) {
    Shape(c, s) && OpsOk(c, s) && CacheOk(c, s) && PhaseOk(c, s)
  }

  // ----- The two abstract states -----

  /** What operations see: the cached copy, else the disk; during recovery nothing runs and
      the durable state is what will be seen. */
  ghost function Current(c: Layout, s: State): map<int, Block>
    requires Shape(c, s)
  {
    if Up(s) then map b | 0 <= b < c.nblocks && IsHome(c, b) :: View(s, b)
    else Durable(c, s.disk)
  }

  /** The header write that commits a transaction. */
  predicate CommitPoint(s: State, step: Step) {
    step.LogStep? && s.phase.WritingLog? && s.phase.tail >= |s.lh|
  }

  /** The list of logged blocks fits the header and the log area. */
  predicate Fits(c: Layout, es: seq<int>) { |es| <= LOGSIZE && |es| < c.size }

  ghost predicate Effect(c: Layout, s: State, step: Step, s': State)
    requires Shape(c, s) && Shape(c, s')
  {
    && Durable(c, s'.disk) == (if CommitPoint(s, step) then Current(c, s) else Durable(c, s.disk))
    && Current(c, s') == (
         if step.Modify? then Current(c, s)[step.b := step.data]
         else if step.Crash? then Durable(c, s.disk)
         else Current(c, s))
  }

  lemma SameView(c: Layout, s: State, s': State)
    requires Shape(c, s) && Shape(c, s') && Up(s) && Up(s')
    requires forall b :: IsHome(c, b) ==> View(s', b) == View(s, b)
    ensures Current(c, s') == Current(c, s)
  {
  }

  // ----- The counter, whatever is on the disk -----

  /** Every step of every layout keeps the counter, and no step that ends an operation panics. */
  lemma StepCounted(c: Layout, s: State, step: Step)
    requires Counted(s) && Enabled(c, s, step)
    ensures Counted(Do(c, s, step))
    ensures step.EndOp? ==> !Do(c, s, step).panicked
  {
    NoneInside(s.procs);
    match step
    case BeginOp(p) => UpdateProc(s.procs, p, Inside(0, 0, None));
    case EndOp(p) => UpdateProc(s.procs, p, Outside);
    case CheckLog(p, b) => UpdateProc(s.procs, p, s.procs[p].(checked := Some(b)));
    case Absorb(p) => UpdateProc(s.procs, p, Charged(s.procs[p], s.procs[p].checked.value in s.lh));
    case Crash => NoneInside(Do(c, s, step).procs);
    case _ =>
  }

  // ----- Steps of processes -----

  lemma BeginKeeps(c: Layout, s: State, step: Step)
    requires Inv(c, s) && Enabled(c, s, step) && step.BeginOp?
    ensures Inv(c, Do(c, s, step)) && Effect(c, s, step, Do(c, s, step))
  {
    var s' := Do(c, s, step);
    UpdateProc(s.procs, step.p, Inside(0, 0, None));
    assert CacheOk(c, s') by {
      forall b | b in s'.cache ensures BufOk(c, s', b) { assert BufOk(c, s, b); }
    }
  }

  lemma EndKeeps(c: Layout, s: State, step: Step)
    requires Inv(c, s) && Enabled(c, s, step) && step.EndOp?
    ensures Inv(c, Do(c, s, step)) && Effect(c, s, step, Do(c, s, step))
  {
    hide Durable, Entries;
    var s' := Do(c, s, step);
    UpdateProc(s.procs, step.p, Outside);
    NoneInside(s'.procs);
    NoneInside(s.procs);
    assert CacheOk(c, s') by {
      forall b | b in s'.cache ensures BufOk(c, s', b) {
        assert BufOk(c, s, b);
        assert Holds(s, step.p, b) ==> !s.cache[b].changed;
      }
    }
  }

  lemma AcquireKeeps(c: Layout, s: State, step: Step)
    requires Inv(c, s) && Enabled(c, s, step) && step.Acquire?
    ensures Inv(c, Do(c, s, step)) && Effect(c, s, step, Do(c, s, step))
  {
    var s' := Do(c, s, step);
    assert CacheOk(c, s') by {
      forall b | b in s'.cache ensures BufOk(c, s', b) { assert b in s.cache ==> BufOk(c, s, b); }
    }
    forall i | 0 <= i < |s.lh| && Copied(c, s, i) ensures Copied(c, s', i) {}
    forall i | 0 <= i < |s.lh| && Installed(c, s, i) ensures Installed(c, s', i) {}
    forall b | IsHome(c, b) ensures View(s', b) == View(s, b) {}
  }

  lemma ModifyKeeps(c: Layout, s: State, step: Step)
    requires Inv(c, s) && Enabled(c, s, step) && step.Modify?
    ensures Inv(c, Do(c, s, step)) && Effect(c, s, step, Do(c, s, step))
  {
    var s' := Do(c, s, step);
    NoneInside(s.procs);
    assert s.phase.Running?;
    assert BufOk(c, s, step.b);
    assert CacheOk(c, s') by {
      forall b | b in s'.cache ensures BufOk(c, s', b) { assert BufOk(c, s, b); }
    }
    forall b | IsHome(c, b)
      ensures View(s', b) == if b == step.b then step.data else View(s, b) {}
    assert Current(c, s') == Current(c, s)[step.b := step.data];
  }

  lemma CheckKeeps(c: Layout, s: State, step: Step)
    requires Inv(c, s) && Enabled(c, s, step) && step.CheckLog?
    ensures Inv(c, Do(c, s, step)) && Effect(c, s, step, Do(c, s, step))
  {
    var s' := Do(c, s, step);
    NoneInside(s.procs);
    UpdateProc(s.procs, step.p, s.procs[step.p].(checked := Some(step.b)));
    assert BufOk(c, s, step.b);
    assert CacheOk(c, s') by {
      forall b | b in s'.cache ensures BufOk(c, s', b) { assert BufOk(c, s, b); }
    }
  }

  lemma AbsorbKeeps(c: Layout, s: State, step: Step)
    requires Inv(c, s) && Enabled(c, s, step) && step.Absorb? && Fits(c, Do(c, s, step).lh)
    ensures Inv(c, Do(c, s, step)) && Effect(c, s, step, Do(c, s, step))
  {
    hide Durable, Entries;
    var s' := Do(c, s, step);
    var p, b := step.p, s.procs[step.p].checked.value;
    NoneInside(s.procs);
    UpdateProc(s.procs, p, Charged(s.procs[p], b in s.lh));
    assert s.phase.Running?;
    assert forall x :: x in s'.lh <==> x == b || x in s.lh;
    if b !in s.lh { DistinctAppend(s.lh, b); }
    assert CacheOk(c, s') by {
      forall x | x in s'.cache ensures BufOk(c, s', x) { assert BufOk(c, s, x); }
    }
    forall x | IsHome(c, x) ensures View(s', x) == View(s, x) {}
  }

  lemma ReleaseKeeps(c: Layout, s: State, step: Step)
    requires Inv(c, s) && Enabled(c, s, step) && step.Release?
    ensures Inv(c, Do(c, s, step)) && Effect(c, s, step, Do(c, s, step))
  {
    hide Durable, Entries, Count, Unspent;
    var s' := Do(c, s, step);
    assert CacheOk(c, s') by {
      forall b | b in s'.cache ensures BufOk(c, s', b) { assert BufOk(c, s, b); }
    }
    forall i | 0 <= i < |s.lh| && Copied(c, s, i) ensures Copied(c, s', i) {}
    forall i | 0 <= i < |s.lh| && Installed(c, s, i) ensures Installed(c, s', i) {}
    forall b | IsHome(c, b) ensures View(s', b) == View(s, b) {}
  }

  lemma EvictKeeps(c: Layout, s: State, step: Step)
    requires Inv(c, s) && Enabled(c, s, step) && step.Evict?
    ensures Inv(c, Do(c, s, step)) && Effect(c, s, step, Do(c, s, step))
  {
    hide Count, Unspent, Durable, Current;
    var s' := Do(c, s, step);
    assert BufOk(c, s, step.b);
    assert CacheOk(c, s') by {
      forall b | b in s'.cache ensures BufOk(c, s', b) { assert BufOk(c, s, b); }
    }
    assert !Pinned(s, step.b);
    forall i | 0 <= i < |s.lh| && Pinned(s, s.lh[i]) && Copied(c, s, i) ensures Copied(c, s', i) {}
    forall i | 0 <= i < |s.lh| && Installed(c, s, i) ensures Installed(c, s', i) {}
    forall b | IsHome(c, b) ensures View(s', b) == View(s, b) {}
    if Up(s) {
      SameView(c, s, s');
    } else {
      RecoveryView(c, s, s');
    }
  }

  lemma RecoveryView(c: Layout, s: State, s': State)
    requires Shape(c, s) && Shape(c, s') && !Up(s) && !Up(s') && s'.disk == s.disk
    ensures Current(c, s') == Current(c, s)
  {
  }

  lemma CrashKeeps(c: Layout, s: State)
    requires Inv(c, s)
    ensures Inv(c, Do(c, s, Crash)) && Effect(c, s, Crash, Do(c, s, Crash))
  {
    NoneInside(Do(c, s, Crash).procs);
  }

  // ----- Steps of the committing or recovering process -----

  lemma WriteLogKeeps(c: Layout, s: State)
    requires Inv(c, s) && Enabled(c, s, LogStep) && s.phase.WritingLog? && s.phase.tail < |s.lh|
    ensures Inv(c, Do(c, s, LogStep)) && Effect(c, s, LogStep, Do(c, s, LogStep))
  {
    hide Count, Unspent, Current;
    var s', t := Do(c, s, LogStep), s.phase.tail;
    NoneInside(s.procs);
    assert Pinned(s, s.lh[t]);
    UnnamedLogWrite(c, s.disk, t, View(s, s.lh[t]));
    assert CacheOk(c, s') by {
      forall b | b in s'.cache ensures BufOk(c, s', b) { assert b in s.cache ==> BufOk(c, s, b); }
    }
    forall i | 0 <= i < t ensures Copied(c, s', i) { assert Copied(c, s, i); }
    assert Copied(c, s', t);
    forall b | IsHome(c, b) ensures View(s', b) == View(s, b) {}
    SameView(c, s, s');
  }

  /** Once the log is complete, its blocks are what operations see. */
  lemma LogIsCurrent(c: Layout, s: State, b: int)
    requires Inv(c, s) && s.phase.WritingLog? && s.phase.tail == |s.lh| && IsHome(c, b)
    ensures View(s, b) == LoggedBlock(c, s.disk, s.lh, b)
  {
    NoneInside(s.procs);
    if b in s.lh {
      assert Copied(c, s, IndexOf(s.lh, b));
    } else if b in s.cache {
      assert BufOk(c, s, b);
    }
  }

  lemma CommitIsDurable(c: Layout, s: State)
    requires Inv(c, s) && s.phase.WritingLog? && s.phase.tail == |s.lh|
    ensures var d' := Do(c, s, LogStep).disk;
            WfDisk(c, d') && Durable(c, d') == Current(c, s) && Entries(d'[c.start]) == s.lh
  {
    var h := PutEntries(View(s, c.start), s.lh);
    HeaderRoundTrip(View(s, c.start), s.lh);
    forall b | IsHome(c, b) ensures View(s, b) == LoggedBlock(c, s.disk, s.lh, b) {
      LogIsCurrent(c, s, b);
    }
    HeaderWrite(c, s.disk, h, s.lh);
    assert Do(c, s, LogStep).disk == s.disk[c.start := h];
  }

  lemma CommitInv(c: Layout, s: State)
    requires Inv(c, s) && Enabled(c, s, LogStep) && s.phase.WritingLog? && s.phase.tail == |s.lh|
    ensures Inv(c, Do(c, s, LogStep))
  {
    hide Count, Unspent, Durable;
    var s' := Do(c, s, LogStep);
    NoneInside(s.procs);
    CommitIsDurable(c, s);
    assert CacheOk(c, s') by {
      forall b | b in s'.cache ensures BufOk(c, s', b) { assert b in s.cache ==> BufOk(c, s, b); }
    }
    forall i | 0 <= i < |s.lh| ensures Copied(c, s', i) { assert Copied(c, s, i); }
  }

  lemma CommitKeeps(c: Layout, s: State)
    requires Inv(c, s) && Enabled(c, s, LogStep) && s.phase.WritingLog? && s.phase.tail == |s.lh|
    ensures Inv(c, Do(c, s, LogStep)) && Effect(c, s, LogStep, Do(c, s, LogStep))
  {
    hide Count, Unspent, Durable, CacheOk, OpsOk, Current;
    CommitInv(c, s);
    CommitIsDurable(c, s);
    var s' := Do(c, s, LogStep);
    forall b | IsHome(c, b) ensures View(s', b) == View(s, b) {}
    SameView(c, s, s');
  }

  /** Copying log block `t` home: the same write in a commit and in recovery. */
  lemma InstallWrite(c: Layout, s: State)
    requires Inv(c, s) && (s.phase.Installing? || s.phase.Reinstalling?) && s.phase.tail < |s.lh|
    ensures var d', t := Do(c, s, LogStep).disk, s.phase.tail;
            && d' == s.disk[s.lh[t] := s.disk[c.start + 1 + t]]
            && WfDisk(c, d') && Durable(c, d') == Durable(c, s.disk)
    ensures var s', t := Do(c, s, LogStep), s.phase.tail;
            s'.cache == s.cache[s.lh[t] := Buf(s.disk[c.start + 1 + t], false, None, false)]
  {
    hide Count, Unspent, Durable;
    var t := s.phase.tail;
    assert c.start + 1 + t in s.cache ==> BufOk(c, s, c.start + 1 + t) by {
      assert !IsHome(c, c.start + 1 + t);
    }
    assert c.start + 1 + t !in s.lh;
    NoneInside(s.procs);
    assert View(s, c.start + 1 + t) == s.disk[c.start + 1 + t];
    HomeWrite(c, s.disk, s.lh, t);
  }

  lemma InstalledStays(c: Layout, s: State, i: nat)
    requires Inv(c, s) && (s.phase.Installing? || s.phase.Reinstalling?) && i <= s.phase.tail < |s.lh|
    ensures Shape(c, Do(c, s, LogStep)) && Installed(c, Do(c, s, LogStep), i)
  {
    hide Count, Unspent, Durable, CacheOk, OpsOk;
    InstallWrite(c, s);
    assert i < s.phase.tail ==> Installed(c, s, i);
  }

  lemma CopiedStays(c: Layout, s: State, i: nat)
    requires Inv(c, s) && s.phase.Installing? && s.phase.tail < i < |s.lh|
    ensures Shape(c, Do(c, s, LogStep)) && Copied(c, Do(c, s, LogStep), i)
  {
    InstallWrite(c, s);
    assert Copied(c, s, i);
  }

  lemma InstallBuf(c: Layout, s: State, x: int)
    requires Inv(c, s) && (s.phase.Installing? || s.phase.Reinstalling?) && s.phase.tail < |s.lh|
    ensures var s' := Do(c, s, LogStep);
            && Shape(c, s')
            && (Pinned(s', x) ==> x in s'.cache)
            && (x in s'.cache ==> BufOk(c, s', x))
  {
    hide Count, Unspent, Durable, OpsOk, PhaseOk;
    InstallWrite(c, s);
    var b := s.lh[s.phase.tail];
    assert IndexOf(s.lh, b) == s.phase.tail;
    if x != b {
      assert x in s.lh ==> IndexOf(s.lh, x) != s.phase.tail;
      assert x in s.cache ==> BufOk(c, s, x);
    }
  }

  lemma InstallCache(c: Layout, s: State)
    requires Inv(c, s) && (s.phase.Installing? || s.phase.Reinstalling?) && s.phase.tail < |s.lh|
    ensures Shape(c, Do(c, s, LogStep)) && CacheOk(c, Do(c, s, LogStep))
  {
    var s' := Do(c, s, LogStep);
    InstallBuf(c, s, 0);
    forall x | x in s'.cache ensures BufOk(c, s', x) { InstallBuf(c, s, x); }
    forall x | Pinned(s', x) ensures x in s'.cache { InstallBuf(c, s, x); }
  }

  lemma InstallPhase(c: Layout, s: State)
    requires Inv(c, s) && s.phase.Installing? && s.phase.tail < |s.lh|
    ensures Shape(c, Do(c, s, LogStep)) && PhaseOk(c, Do(c, s, LogStep))
  {
    var s', t := Do(c, s, LogStep), s.phase.tail;
    InstallWrite(c, s);
    forall i | 0 <= i <= t ensures Installed(c, s', i) { InstalledStays(c, s, i); }
    forall i | t < i < |s.lh| ensures Copied(c, s', i) { CopiedStays(c, s, i); }
  }

  lemma InstallViews(c: Layout, s: State, s': State, b: int)
    requires Shape(c, s) && Shape(c, s') && Up(s) && Up(s') && IsHome(c, b)
    requires s'.disk == s.disk[b := View(s, b)]
    requires s'.cache == s.cache[b := Buf(View(s, b), false, None, false)]
    ensures Current(c, s') == Current(c, s)
  {
    forall x | IsHome(c, x) ensures View(s', x) == View(s, x) {}
  }

  lemma InstallKeeps(c: Layout, s: State)
    requires Inv(c, s) && Enabled(c, s, LogStep) && s.phase.Installing? && s.phase.tail < |s.lh|
    ensures Inv(c, Do(c, s, LogStep)) && Effect(c, s, LogStep, Do(c, s, LogStep))
  {
    InstallPhase(c, s);
    InstallCache(c, s);
    InstallWrite(c, s);
    assert Copied(c, s, s.phase.tail);
    InstallViews(c, s, Do(c, s, LogStep), s.lh[s.phase.tail]);
    NoneInside(s.procs);
  }

  lemma EraseKeeps(c: Layout, s: State)
    requires Inv(c, s) && Enabled(c, s, LogStep) && s.phase.Installing? && s.phase.tail == |s.lh|
    ensures Inv(c, Do(c, s, LogStep)) && Effect(c, s, LogStep, Do(c, s, LogStep))
  {
    hide Count, Unspent;
    var s' := Do(c, s, LogStep);
    NoneInside(s.procs);
    HeaderRoundTrip(View(s, c.start), []);
    forall i | 0 <= i < |s.lh| ensures AtHome(c, s.disk, s.lh, i) { assert Installed(c, s, i); }
    HeaderErase(c, s.disk, PutEntries(View(s, c.start), []));
    assert CacheOk(c, s') by {
      forall x | x in s'.cache ensures BufOk(c, s', x) { assert x in s.cache ==> BufOk(c, s, x); }
    }
    forall x | IsHome(c, x) ensures View(s', x) == View(s, x) {}
  }

  lemma FinishKeeps(c: Layout, s: State)
    requires Inv(c, s) && Enabled(c, s, LogStep) && s.phase.Finishing?
    ensures Inv(c, Do(c, s, LogStep)) && Effect(c, s, LogStep, Do(c, s, LogStep))
  {
    var s' := Do(c, s, LogStep);
    assert CacheOk(c, s') by {
      forall x | x in s'.cache ensures BufOk(c, s', x) { assert BufOk(c, s, x); }
    }
  }

  lemma ReadHeadKeeps(c: Layout, s: State)
    requires Inv(c, s) && Enabled(c, s, LogStep) && s.phase.ReadingHead?
    ensures Inv(c, Do(c, s, LogStep)) && Effect(c, s, LogStep, Do(c, s, LogStep))
  {
    NoneInside(s.procs);
  }

  lemma ReinstallKeeps(c: Layout, s: State)
    requires Inv(c, s) && Enabled(c, s, LogStep) && s.phase.Reinstalling? && s.phase.tail < |s.lh|
    ensures Inv(c, Do(c, s, LogStep)) && Effect(c, s, LogStep, Do(c, s, LogStep))
  {
    var s', t := Do(c, s, LogStep), s.phase.tail;
    NoneInside(s.procs);
    InstallWrite(c, s);
    InstallCache(c, s);
    forall i | 0 <= i <= t ensures Installed(c, s', i) { InstalledStays(c, s, i); }
  }

  lemma RecoveredKeeps(c: Layout, s: State)
    requires Inv(c, s) && Enabled(c, s, LogStep) && s.phase.Reinstalling? && s.phase.tail == |s.lh|
    ensures Inv(c, Do(c, s, LogStep)) && Effect(c, s, LogStep, Do(c, s, LogStep))
  {
    var s' := Do(c, s, LogStep);
    NoneInside(s.procs);
    HeaderRoundTrip(View(s, c.start), []);
    forall i | 0 <= i < |s.lh| ensures AtHome(c, s.disk, s.lh, i) { assert Installed(c, s, i); }
    HeaderErase(c, s.disk, PutEntries(View(s, c.start), []));
    EmptyHeader(c, s'.disk);
    assert CacheOk(c, s') by {
      forall x | x in s'.cache ensures BufOk(c, s', x) { assert x in s.cache ==> BufOk(c, s, x); }
    }
    forall x | IsHome(c, x) ensures View(s', x) == s'.disk[x] {
      assert x in s'.cache ==> BufOk(c, s', x);
    }
  }

  // ----- Every step -----

  lemma LogStepKeeps(c: Layout, s: State)
    requires Inv(c, s) && Enabled(c, s, LogStep)
    ensures Inv(c, Do(c, s, LogStep)) && Effect(c, s, LogStep, Do(c, s, LogStep))
  {
    match s.phase
    case WritingLog(t) => if t < |s.lh| { WriteLogKeeps(c, s); } else { CommitKeeps(c, s); }
    case Installing(t) => if t < |s.lh| { InstallKeeps(c, s); } else { EraseKeeps(c, s); }
    case Finishing => FinishKeeps(c, s);
    case ReadingHead => ReadHeadKeeps(c, s);
    case Reinstalling(t) => if t < |s.lh| { ReinstallKeeps(c, s); } else { RecoveredKeeps(c, s); }
  }

  /** Every step after which the log still fits keeps the invariant; only the commit point changes what
      is durable, and it makes durable exactly what operations saw. */
  lemma StepKeeps(c: Layout, s: State, step: Step)
    requires Inv(c, s) && Enabled(c, s, step) && Fits(c, Do(c, s, step).lh)
    ensures Inv(c, Do(c, s, step)) && Effect(c, s, step, Do(c, s, step))
  {
    match step
    case BeginOp(_) => BeginKeeps(c, s, step);
    case EndOp(_) => EndKeeps(c, s, step);
    case Acquire(_, _) => AcquireKeeps(c, s, step);
    case Modify(_, _, _) => ModifyKeeps(c, s, step);
    case CheckLog(_, _) => CheckKeeps(c, s, step);
    case Absorb(_) => AbsorbKeeps(c, s, step);
    case Release(_, _) => ReleaseKeeps(c, s, step);
    case Evict(_) => EvictKeeps(c, s, step);
    case LogStep => LogStepKeeps(c, s);
    case Crash => CrashKeeps(c, s);
  }
}
