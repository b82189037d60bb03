/** Commit isolation, for every run, and crash atomicity, for every run in which the log does not outgrow
    its area. */
module LogTheorems {
  import opened Common
  import opened LogDisk
  import opened LogMachine
  import opened LogInvariant

  /** In no state of the run has the list of logged blocks outgrown the log. */
  ghost predicate FittingRun(c: Layout, s: State, steps: seq<Step>) {
    forall k :: 0 <= k <= |steps| ==> Fits(c, Last(c, s, steps[..k]).lh)
  }

  // ----- What happened: events, and those that a commit has made permanent -----

  datatype Event = Began(p: nat) | Wrote(p: nat, b: int, data: Block) | Ended(p: nat)

  datatype History = History(committed: seq<Event>, pending: seq<Event>)

  ghost function Record(s: State, h: History, step: Step): History {
    match step
    case BeginOp(p) => h.(pending := h.pending + [Began(p)])
    case EndOp(p) => h.(pending := h.pending + [Ended(p)])
    case Modify(p, b, data) => h.(pending := h.pending + [Wrote(p, b, data)])
    case LogStep => if CommitPoint(s, step) then History(h.committed + h.pending, []) else h
    case Crash => History(h.committed, [])
    case _ => h
  }

  ghost function HistoryOf(c: Layout, s: State, steps: seq<Step>): History {
    if steps == [] then History([], [])
    else
      var k := |steps| - 1;
      Record(Last(c, s, steps[..k]), HistoryOf(c, s, steps[..k]), steps[k])
  }

  /** The effect of the writes among `events`, in order. */
  ghost function Replay(m: map<int, Block>, events: seq<Event>): map<int, Block> {
    if events == [] then m
    else
      var k := |events| - 1;
      var m' := Replay(m, events[..k]);
      if events[k].Wrote? then m'[events[k].b := events[k].data] else m'
  }

  /** The processes with an operation open after `events`. */
  ghost function OpenOps(events: seq<Event>): set<nat> {
    if events == [] then {}
    else
      var k := |events| - 1;
      match events[k]
      case Began(p) => OpenOps(events[..k]) + {p}
      case Ended(p) => OpenOps(events[..k]) - {p}
      case Wrote(_, _, _) => OpenOps(events[..k])
  }

  /** Every write lies between the start and the end of an operation of its process. */
  ghost predicate Bracketed(events: seq<Event>) {
    events == [] ||
    (var k := |events| - 1;
     && Bracketed(events[..k])
     && (events[k].Began? <==> events[k].p !in OpenOps(events[..k])))
  }

  /** Only whole operations. */
  ghost predicate Whole(events: seq<Event>) {
    Bracketed(events) && OpenOps(events) == {}
  }

  ghost function InsideOps(s: State): set<nat> {
    set p: nat | p < |s.procs| && s.procs[p].Inside?
  }

  // ----- Every run -----

  /** How a history explains a durable state, a current state and a set of open operations. */
  ghost predicate Framed(h: History, open: set<nat>) {
    && Whole(h.committed)
    && Bracketed(h.committed + h.pending)
    && OpenOps(h.committed + h.pending) == open
  }

  ghost predicate Explains(base: map<int, Block>, h: History, durable: map<int, Block>,
                           current: map<int, Block>, open: set<nat>) {
    && durable == Replay(base, h.committed)
    && current == Replay(base, h.committed + h.pending)
    && Framed(h, open)
  }

  ghost predicate Tracks(c: Layout, base: map<int, Block>, s: State, h: History) {
    && Inv(c, s)
    && Explains(base, h, Durable(c, s.disk), Current(c, s), InsideOps(s))
  }

  lemma FramedAppend(h: History, open: set<nat>, e: Event)
    requires Framed(h, open) && (e.Began? <==> e.p !in open)
    ensures Framed(h.(pending := h.pending + [e]),
                   if e.Began? then open + {e.p} else if e.Ended? then open - {e.p} else open)
  {
    var all := h.committed + h.pending;
    assert h.committed + (h.pending + [e]) == all + [e];
    assert (all + [e])[..|all|] == all;
  }

  lemma FramedCommit(h: History)
    requires Framed(h, {})
    ensures Framed(History(h.committed + h.pending, []), {})
  {
    assert h.committed + h.pending + [] == h.committed + h.pending;
  }

  lemma FramedCrash(h: History, open: set<nat>)
    requires Framed(h, open)
    ensures Framed(History(h.committed, []), {})
  {
    assert h.committed + [] == h.committed;
  }

  /** In every step the open operations are those the history has open; a commit finds none. */
  lemma FramedStep(c: Layout, s: State, h: History, step: Step)
    requires Counted(s) && Framed(h, InsideOps(s)) && Enabled(c, s, step)
    ensures Framed(Record(s, h, step), InsideOps(Do(c, s, step)))
  {
    hide Framed;
    InsideAfter(c, s, step);
    match step
    case BeginOp(p) => FramedAppend(h, InsideOps(s), Began(p));
    case EndOp(p) => FramedAppend(h, InsideOps(s), Ended(p));
    case Modify(p, b, data) => FramedAppend(h, InsideOps(s), Wrote(p, b, data));
    case Crash => FramedCrash(h, InsideOps(s));
    case LogStep =>
      if CommitPoint(s, step) {
        NoneInside(s.procs);
        assert InsideOps(s) == {};
        FramedCommit(h);
      }
    case _ =>
  }

  lemma ExplainsAppend(base: map<int, Block>, h: History, durable: map<int, Block>,
                       current: map<int, Block>, open: set<nat>, e: Event)
    requires Explains(base, h, durable, current, open)
    requires e.Began? <==> e.p !in open
    ensures Explains(base, h.(pending := h.pending + [e]), durable,
                     if e.Wrote? then current[e.b := e.data] else current,
                     if e.Began? then open + {e.p} else if e.Ended? then open - {e.p} else open)
  {
    var all := h.committed + h.pending;
    FramedAppend(h, open, e);
    assert h.committed + (h.pending + [e]) == all + [e];
    assert (all + [e])[..|all|] == all;
  }

  lemma ExplainsCommit(base: map<int, Block>, h: History, durable: map<int, Block>, current: map<int, Block>)
    requires Explains(base, h, durable, current, {})
    ensures Explains(base, History(h.committed + h.pending, []), current, current, {})
  {
    assert h.committed + h.pending + [] == h.committed + h.pending;
  }

  lemma ExplainsCrash(base: map<int, Block>, h: History, durable: map<int, Block>,
                      current: map<int, Block>, open: set<nat>)
    requires Explains(base, h, durable, current, open)
    ensures Explains(base, History(h.committed, []), durable, durable, {})
  {
    assert h.committed + [] == h.committed;
  }

  /** Only opening and closing an operation, and a crash, change which operations are open. */
  lemma InsideAfter(c: Layout, s: State, step: Step)
    requires Enabled(c, s, step)
    ensures InsideOps(Do(c, s, step)) ==
            match step
            case BeginOp(p) => InsideOps(s) + {p}
            case EndOp(p) => InsideOps(s) - {p}
            case Crash => {}
            case _ => InsideOps(s)
  {
  }

  lemma TracksStep(c: Layout, base: map<int, Block>, s: State, h: History, step: Step)
    requires Tracks(c, base, s, h) && Enabled(c, s, step) && Fits(c, Do(c, s, step).lh)
    ensures Tracks(c, base, Do(c, s, step), Record(s, h, step))
  {
    StepKeeps(c, s, step);
    InsideAfter(c, s, step);
    var d, now, open := Durable(c, s.disk), Current(c, s), InsideOps(s);
    match step
    case BeginOp(p) => ExplainsAppend(base, h, d, now, open, Began(p));
    case EndOp(p) => ExplainsAppend(base, h, d, now, open, Ended(p));
    case Modify(p, b, data) => ExplainsAppend(base, h, d, now, open, Wrote(p, b, data));
    case Crash => ExplainsCrash(base, h, d, now, open);
    case LogStep =>
      if CommitPoint(s, step) {
        NoneInside(s.procs);
        ExplainsCommit(base, h, d, now);
      }
    case _ =>
  }

  lemma FittingPrefix(c: Layout, s0: State, steps: seq<Step>)
    requires steps != [] && FittingRun(c, s0, steps)
    ensures var k := |steps| - 1; FittingRun(c, s0, steps[..k]) && Fits(c, Last(c, s0, steps).lh)
  {
    var k := |steps| - 1;
    assert steps[..|steps|] == steps;
    forall i | 0 <= i <= k ensures Fits(c, Last(c, s0, steps[..k][..i]).lh) {
      assert steps[..k][..i] == steps[..i];
    }
  }

  lemma {:induction false} TracksRun(c: Layout, s0: State, steps: seq<Step>)
    requires Boot(c, s0) && ValidRun(c, s0, steps) && FittingRun(c, s0, steps)
    ensures Tracks(c, Durable(c, s0.disk), Last(c, s0, steps), HistoryOf(c, s0, steps))
  {
    if steps == [] {
      NoneInside(s0.procs);
    } else {
      var k := |steps| - 1;
      FittingPrefix(c, s0, steps);
      TracksRun(c, s0, steps[..k]);
      TracksStep(c, Durable(c, s0.disk), Last(c, s0, steps[..k]), HistoryOf(c, s0, steps[..k]), steps[k]);
    }
  }

  /** Crash atomicity.  After any run in which the log never outgrows its area, with crashes anywhere
      and any number of times, what recovery makes of the disk is the boot image with exactly the writes
      of the committed operations, all of them whole. */
  lemma FittingAtomicity(c: Layout, s0: State, steps: seq<Step>)
    requires Boot(c, s0) && ValidRun(c, s0, steps) && FittingRun(c, s0, steps)
    ensures Atomic(c, s0, steps)
  {
    TracksRun(c, s0, steps);
  }

  /** What recovery makes of the disk is the boot image with exactly the writes of the committed
      operations, all of them whole. */
  ghost predicate Atomic(c: Layout, s0: State, steps: seq<Step>)
    requires WfDisk(c, s0.disk)
  {
    var s, h := Last(c, s0, steps), HistoryOf(c, s0, steps);
    && WfDisk(c, s.disk)
    && Durable(c, s.disk) == Replay(Durable(c, s0.disk), h.committed)
    && Whole(h.committed)
  }

  /** Whenever recovery has completed and no transaction is being installed, the home blocks
      on the disk are the boot image with exactly the committed writes, and what operations
      read adds exactly the writes of operations that began since. */
  lemma RecoveredHomeBlocks(c: Layout, s0: State, steps: seq<Step>)
    requires Boot(c, s0) && ValidRun(c, s0, steps) && FittingRun(c, s0, steps)
    requires Up(Last(c, s0, steps)) && !Last(c, s0, steps).phase.Installing?
    ensures var s, h := Last(c, s0, steps), HistoryOf(c, s0, steps);
            && WfDisk(c, s.disk)
            && HomeBlocks(c, s.disk) == Replay(Durable(c, s0.disk), h.committed)
            && (forall b :: IsHome(c, b) ==>
                  var m := Replay(Durable(c, s0.disk), h.committed + h.pending);
                  b in m && View(s, b) == m[b])
  {
    TracksRun(c, s0, steps);
    EmptyHeader(c, Last(c, s0, steps).disk);
    var s := Last(c, s0, steps);
    forall b | IsHome(c, b) ensures b in Current(c, s) && View(s, b) == Current(c, s)[b] {}
  }

  // ----- Commit isolation -----

  lemma {:induction false} CountedRun(c: Layout, s0: State, steps: seq<Step>)
    requires Boot(c, s0) && ValidRun(c, s0, steps)
    ensures Counted(Last(c, s0, steps)) && Framed(HistoryOf(c, s0, steps), InsideOps(Last(c, s0, steps)))
  {
    if steps == [] {
      NoneInside(s0.procs);
    } else {
      var k := |steps| - 1;
      CountedRun(c, s0, steps[..k]);
      StepCounted(c, Last(c, s0, steps[..k]), steps[k]);
      FramedStep(c, Last(c, s0, steps[..k]), HistoryOf(c, s0, steps[..k]), steps[k]);
    }
  }

  /** In every run of every layout, also one whose log overflows: a commit runs only with no operation
      open, no end_op meets its panic, and what is committed is whole operations. */
  lemma CommitIsolation(c: Layout, s0: State, steps: seq<Step>)
    requires Boot(c, s0) && ValidRun(c, s0, steps)
    ensures var s, h := Last(c, s0, steps), HistoryOf(c, s0, steps);
            && s.outstanding == Count(s.procs) && (s.committing ==> s.outstanding == 0)
            && (forall p: nat :: Enabled(c, s, EndOp(p)) ==> !Do(c, s, EndOp(p)).panicked)
            && Whole(h.committed) && Bracketed(h.committed + h.pending)
            && OpenOps(h.committed + h.pending) == InsideOps(s)
  {
    hide ValidRun, Do, Enabled, HistoryOf;
    CountedRun(c, s0, steps);
    var s := Last(c, s0, steps);
    forall p: nat | Enabled(c, s, EndOp(p)) ensures !Do(c, s, EndOp(p)).panicked {
      StepCounted(c, s, EndOp(p));
    }
  }

  /** In every run a home block changes on the disk only when the commit record naming it is on the disk,
      and then it takes its durable content. */
  lemma HomeOnlyAfterCommit(c: Layout, s0: State, steps: seq<Step>, step: Step, b: int)
    requires Boot(c, s0) && ValidRun(c, s0, steps) && FittingRun(c, s0, steps)
    requires Enabled(c, Last(c, s0, steps), step) && IsHome(c, b)
    requires var s := Last(c, s0, steps);
             b < |s.disk| == |Do(c, s, step).disk| && Do(c, s, step).disk[b] != s.disk[b]
    ensures var s := Last(c, s0, steps);
            WfDisk(c, s.disk) && b in Entries(s.disk[c.start]) && Do(c, s, step).disk[b] == Durable(c, s.disk)[b]
  {
    hide ValidRun, FittingRun;
    TracksRun(c, s0, steps);
    HomeOnlyInstalled(c, Last(c, s0, steps), step, b);
  }

  lemma HomeOnlyInstalled(c: Layout, s: State, step: Step, b: int)
    requires Inv(c, s) && Enabled(c, s, step) && IsHome(c, b)
    requires |Do(c, s, step).disk| == |s.disk| && Do(c, s, step).disk[b] != s.disk[b]
    ensures b in Entries(s.disk[c.start])
    ensures Do(c, s, step).disk[b] == Durable(c, s.disk)[b]
  {
    hide CacheOk, OpsOk, BufOk, Durable, Count;
    assert step.LogStep?;
    if (s.phase.Installing? || s.phase.Reinstalling?) && s.phase.tail < |s.lh| {
      InstallWrite(c, s);
      InstalledIsDurable(c, s.disk, s.lh, s.phase.tail);
    }
  }

  lemma InstalledIsDurable(c: Layout, d: Disk, es: seq<int>, i: nat)
    requires WfDisk(c, d) && es == Entries(d[c.start]) && i < |es|
    ensures es[i] in Durable(c, d) && Durable(c, d)[es[i]] == d[c.start + 1 + i]
  {
    assert IndexOf(es, es[i]) == i;
  }

  /** In every run a logged block stays in the cache until it has been installed. */
  lemma LoggedNotRecycled(c: Layout, s0: State, steps: seq<Step>, b: int)
    requires Boot(c, s0) && ValidRun(c, s0, steps) && FittingRun(c, s0, steps)
    requires Pinned(Last(c, s0, steps), b)
    ensures b in Last(c, s0, steps).cache && !Enabled(c, Last(c, s0, steps), Evict(b))
  {
    hide ValidRun, FittingRun;
    TracksRun(c, s0, steps);
    assert BufOk(c, Last(c, s0, steps), b);
  }
}
