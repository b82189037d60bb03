/** The logging layer as a transition system.  Processes open and close operations and
    change buffers; one of them commits; a crash may happen between any two steps, and the
    grain of a step is one single-block disk write. */
module LogMachine {
  import opened Common
  import opened LogDisk

  /** A cached block: `holder` is the process that holds its sleep lock, and `changed` says
      that the holder has modified `data` since it last called `log_write`. */
  datatype Buf = Buf(data: Block, dirty: bool, holder: Option<nat>, changed: bool)

  /** Where the committing (or recovering) process stands. */
  datatype Phase =
    | Running
    | WritingLog(tail: nat)     // write_log, and write_head once tail == n
    | Installing(tail: nat)     // install_trans, and the erasing write_head once tail == n
    | Finishing                 // commit() has returned, committing is still set
    | ReadingHead               // booted, about to read_head
    | Reinstalling(tail: nat)   // recovery's install_trans and erasing write_head

  /** A process outside any operation, or inside one: how many blocks it has added to the log, the
      number of its `log_write` calls, and the block of a call that has passed its unlocked test and
      awaits the lock. */
  datatype Op = Outside | Inside(spent: nat, calls: nat, checked: Option<int>)

  datatype State = State(
    disk: Disk,
    cache: map<int, Buf>,
    lh: seq<int>,
    outstanding: int,
    committing: bool,
    phase: Phase,
    procs: seq<Op>,
    panicked: bool)

  datatype Step =
    | BeginOp(p: nat)
    | EndOp(p: nat)
    | Acquire(p: nat, b: int)                 // bread
    | Modify(p: nat, b: int, data: Block)     // change b->data
    | CheckLog(p: nat, b: int)                // log_write, before the lock
    | Absorb(p: nat)                          // log_write, under the lock
    | Release(p: nat, b: int)                 // brelse
    | Evict(b: int)                           // bget recycles a buffer
    | LogStep                                 // commit or recovery makes one disk write
    | Crash

  // ----- Reading and writing through the cache -----

  function Get(d: Disk, b: int): Block {
    if 0 <= b < |d| then d[b] else seq(WORDS, i => 0)
  }

  function Put(d: Disk, b: int, x: Block): Disk {
    if 0 <= b < |d| then d[b := x] else d
  }

  function View(s: State, b: int): Block {
    if b in s.cache then s.cache[b].data else Get(s.disk, b)
  }

  /** `bread`, change all of the data, `bwrite`, `brelse`. */
  function WriteThrough(s: State, b: int, x: Block): State {
    s.(disk := Put(s.disk, b, x), cache := s.cache[b := Buf(x, false, None, false)])
  }

  predicate Unheld(s: State, b: int) {
    b in s.cache ==> s.cache[b].holder.None?
  }

  predicate Free(s: State, p: nat) {
    p < |s.procs| && (s.procs[p].Inside? ==> s.procs[p].checked.None?)
  }

  predicate Up(s: State) {
    !s.phase.ReadingHead? && !s.phase.Reinstalling?
  }

  predicate Holds(s: State, p: nat, b: int) {
    b in s.cache && s.cache[b].holder == Some(p)
  }

  // ----- Steps -----

  ghost predicate Enabled(c: Layout, s: State, step: Step) {
    step.Crash? ||
    (!s.panicked &&
     match step
     case BeginOp(p) =>
       && Up(s) && p < |s.procs| && s.procs[p].Outside?
       && !s.committing
       && |s.lh| + (s.outstanding + 1) * MAXOPBLOCKS <= LOGSIZE
     case EndOp(p) =>
       && Up(s) && Free(s, p) && s.procs[p].Inside?
       && forall b :: Holds(s, p, b) ==> !s.cache[b].changed
     case Acquire(p, b) =>
       Up(s) && Free(s, p) && IsHome(c, b) && Unheld(s, b)
     case Modify(p, b, data) =>
       Up(s) && Free(s, p) && s.procs[p].Inside? && Holds(s, p, b)
     case CheckLog(p, b) =>
       Up(s) && Free(s, p) && s.procs[p].Inside? && Holds(s, p, b)
     case Absorb(p) =>
       Up(s) && p < |s.procs| && s.procs[p].Inside? && s.procs[p].checked.Some?
     case Release(p, b) =>
       Up(s) && Free(s, p) && Holds(s, p, b) && !s.cache[b].changed
     case Evict(b) =>
       b in s.cache && s.cache[b].holder.None? && !s.cache[b].dirty
     case LogStep =>
       (match s.phase
        case Running => false
        case WritingLog(t) => t < |s.lh| ==> Unheld(s, s.lh[t])
        case Installing(t) => t < |s.lh| ==> Unheld(s, s.lh[t])
        case _ => true)
     case Crash => true)
  }

  function Do(c: Layout, s: State, step: Step): State {
    match step
    case BeginOp(p) => DoBegin(s, p)
    case EndOp(p) => DoEnd(s, p)
    case Acquire(p, b) => s.(cache := s.cache[b := AcquiredBuf(s, p, b)])
    case Modify(p, b, data) =>
      if b in s.cache then s.(cache := s.cache[b := s.cache[b].(data := data, changed := true)]) else s
    case CheckLog(p, b) => DoCheck(c, s, p, b)
    case Absorb(p) => DoAbsorb(s, p)
    case Release(p, b) =>
      if b in s.cache then s.(cache := s.cache[b := s.cache[b].(holder := None)]) else s
    case Evict(b) => s.(cache := s.cache - {b})
    case LogStep => DoLog(c, s)
    case Crash =>
      State(s.disk, map[], [], 0, false, ReadingHead, seq(|s.procs|, i => Outside), false)
  }

  function AcquiredBuf(s: State, p: nat, b: int): Buf {
    if b in s.cache then s.cache[b].(holder := Some(p)) else Buf(Get(s.disk, b), false, Some(p), false)
  }

  function DoBegin(s: State, p: nat): State {
    if p < |s.procs| then
      s.(outstanding := s.outstanding + 1, procs := s.procs[p := Inside(0, 0, None)])
    else s
  }

  function DoEnd(s: State, p: nat): State {
    if p >= |s.procs| then s else
    var s := s.(outstanding := s.outstanding - 1, procs := s.procs[p := Outside]);
    if s.committing then s.(panicked := true)
    else if s.outstanding == 0 then
      s.(committing := true, phase := if |s.lh| > 0 then WritingLog(0) else Finishing)
    else s
  }

  predicate TooBig(c: Layout, s: State) {
    |s.lh| >= LOGSIZE || |s.lh| >= c.size - 1
  }

  function DoCheck(c: Layout, s: State, p: nat, b: int): State {
    if TooBig(c, s) || s.outstanding < 1 then s.(panicked := true)
    else if p < |s.procs| && s.procs[p].Inside? then
      s.(procs := s.procs[p := s.procs[p].(checked := Some(b))])
    else s
  }

  /** The operation after a call: a block that is in the log already costs nothing. */
  function Charged(o: Op, absorbed: bool): Op
    requires o.Inside?
  {
    Inside(if absorbed then o.spent else o.spent + 1, o.calls + 1, None)
  }

  function DoAbsorb(s: State, p: nat): State {
    if p < |s.procs| && s.procs[p].Inside? && s.procs[p].checked.Some? then
      var b := s.procs[p].checked.value;
      s.(lh := if b in s.lh then s.lh else s.lh + [b],
         cache := if b in s.cache then s.cache[b := s.cache[b].(dirty := true, changed := false)] else s.cache,
         procs := s.procs[p := Charged(s.procs[p], b in s.lh)])
    else s
  }

  function WriteHead(c: Layout, s: State, es: seq<int>): State {
    if |es| <= LOGSIZE then WriteThrough(s, c.start, PutEntries(View(s, c.start), es)) else s
  }

  function DoLog(c: Layout, s: State): State {
    match s.phase
    case Running => s
    case WritingLog(t) =>
      if t < |s.lh| then
        WriteThrough(s, c.start + 1 + t, View(s, s.lh[t])).(phase := WritingLog(t + 1))
      else WriteHead(c, s, s.lh).(phase := Installing(0))
    case Installing(t) =>
      if t < |s.lh| then
        WriteThrough(s, s.lh[t], View(s, c.start + 1 + t)).(phase := Installing(t + 1))
      else WriteHead(c, s, []).(lh := [], phase := Finishing)
    case Finishing => s.(committing := false, phase := Running)
    case ReadingHead => s.(lh := Entries(View(s, c.start)), phase := Reinstalling(0))
    case Reinstalling(t) =>
      if t < |s.lh| then
        WriteThrough(s, s.lh[t], View(s, c.start + 1 + t)).(phase := Reinstalling(t + 1))
      else WriteHead(c, s, []).(lh := [], phase := Running)
  }

  // ----- Runs -----

  ghost predicate ValidRun(c: Layout, s: State, steps: seq<Step>) {
    steps == [] ||
    (var k := |steps| - 1;
     ValidRun(c, s, steps[..k]) && Enabled(c, Last(c, s, steps[..k]), steps[k]))
  }

  function Last(c: Layout, s: State, steps: seq<Step>): State {
    if steps == [] then s else Do(c, Last(c, s, steps[..|steps| - 1]), steps[|steps| - 1])
  }

  /** The machine has just been switched on, with any well-formed disk. */
  ghost predicate Boot(c: Layout, s: State) {
    && WfDisk(c, s.disk)
    && s.cache == map[] && s.lh == [] && s.outstanding == 0 && !s.committing
    && s.phase == ReadingHead && !s.panicked
    && forall p :: 0 <= p < |s.procs| ==> s.procs[p] == Outside
  }

  // ----- Reservation counters -----

  function Count(procs: seq<Op>): nat {
    if procs == [] then 0
    else Count(procs[..|procs| - 1]) + if procs[|procs| - 1].Inside? then 1 else 0
  }

  /** The part of each open operation's budget of blocks that it has not used. */
  function Unspent(procs: seq<Op>): int {
    if procs == [] then 0
    else Unspent(procs[..|procs| - 1]) + Left(procs[|procs| - 1])
  }

  function Left(o: Op): int {
    if o.Inside? then MAXOPBLOCKS - o.spent else 0
  }

  lemma {:induction false} UpdateProc(procs: seq<Op>, p: nat, o: Op)
    requires p < |procs|
    ensures Count(procs[p := o]) ==
            Count(procs) - (if procs[p].Inside? then 1 else 0) + (if o.Inside? then 1 else 0)
    ensures Unspent(procs[p := o]) == Unspent(procs) - Left(procs[p]) + Left(o)
  {
    var k := |procs| - 1;
    if p == k {
      assert procs[p := o][..k] == procs[..k];
    } else {
      UpdateProc(procs[..k], p, o);
      assert procs[p := o][..k] == procs[..k][p := o];
    }
  }

  lemma {:induction false} NoneInside(procs: seq<Op>)
    ensures Count(procs) == 0 <==> forall p :: 0 <= p < |procs| ==> procs[p].Outside?
    ensures Count(procs) == 0 ==> Unspent(procs) == 0
  {
    if procs != [] {
      NoneInside(procs[..|procs| - 1]);
    }
  }

  /** A lower bound for the unspent budget, when no operation overspends. */
  lemma {:induction false} UnspentAtLeast(procs: seq<Op>, p: nat)
    requires p < |procs|
    requires forall q :: 0 <= q < |procs| ==> Left(procs[q]) >= 0
    ensures 0 <= Unspent(procs) && Left(procs[p]) <= Unspent(procs)
  {
    var k := |procs| - 1;
    if k > 0 {
      UnspentAtLeast(procs[..k], if p < k then p else 0);
    }
  }

  lemma {:induction false} UnspentAtMost(procs: seq<Op>)
    requires forall q :: 0 <= q < |procs| ==> Left(procs[q]) >= 0
    ensures 0 <= Unspent(procs) <= Count(procs) * MAXOPBLOCKS
  {
    if procs != [] {
      UnspentAtMost(procs[..|procs| - 1]);
    }
  }
}
