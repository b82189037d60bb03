/** Any number of processes writing to, reading from and closing one pipe, in every interleaving. */
module PipeMachine {
  import opened Common
  import opened PipeRing

  /** Where a process is.  The `Want` points wait for the pipe's lock. */
  datatype Pc =
    | Out
    | WantWrite(src: seq<char>, i: nat)
    | Writing(src: seq<char>, i: nat)
    | WriteAsleep(src: seq<char>, i: nat)
    | WantRead(n: nat)
    | ReadTest(n: nat)
    | ReadAsleep(n: nat)
    | Copying(n: nat, got: seq<char>)
    | WantClose(writable: bool)
    | Closing(writable: bool)

  datatype Proc = Proc(pc: Pc, killed: bool)

  /** `written` and `taken` are all bytes ever put into the buffer and taken out of it.  `missed` are the
      readers that have been asleep ever since a writer left by the error return. */
  datatype State = State(
    ring: Ring,
    readopen: bool,
    writeopen: bool,
    lock: Option<nat>,
    procs: seq<Proc>,
    written: seq<char>,
    taken: seq<char>,
    missed: set<nat>)

  datatype Act = CallWrite(src: seq<char>) | CallRead(n: nat) | CallClose(writable: bool) | Acquire | Step | Kill

  predicate Holds(pc: Pc) { pc.Writing? || pc.ReadTest? || pc.Copying? || pc.Closing? }

  predicate Enabled(s: State, p: nat, a: Act) {
    p < |s.procs| &&
    var pc := s.procs[p].pc;
    match a
    case CallWrite(_) => pc.Out?
    case CallRead(_) => pc.Out?
    case CallClose(_) => pc.Out?
    case Acquire => (pc.WantWrite? || pc.WantRead? || pc.WantClose?) && s.lock.None?
    case Step => Holds(pc) && Ok(s.ring)
    case Kill => true
  }

  function At(s: State, p: nat, pc: Pc): State
    requires p < |s.procs|
  {
    s.(procs := s.procs[p := s.procs[p].(pc := pc)])
  }

  function Woken(pc: Pc): Pc {
    match pc case WriteAsleep(src, i) => WantWrite(src, i) case ReadAsleep(n) => WantRead(n) case _ => pc
  }

  function WakeWriters(s: State): State {
    s.(procs := seq(|s.procs|, q requires 0 <= q < |s.procs| =>
                      if s.procs[q].pc.WriteAsleep? then s.procs[q].(pc := Woken(s.procs[q].pc)) else s.procs[q]))
  }

  function WakeReaders(s: State): State {
    s.(missed := {},
       procs := seq(|s.procs|, q requires 0 <= q < |s.procs| =>
                      if s.procs[q].pc.ReadAsleep? then s.procs[q].(pc := Woken(s.procs[q].pc)) else s.procs[q]))
  }

  function Release(s: State, p: nat, pc: Pc): State
    requires p < |s.procs|
  {
    At(s.(lock := None), p, pc)
  }

  function Do(s: State, p: nat, a: Act): State
    requires Enabled(s, p, a)
  {
    var x := s.procs[p];
    match a
    case CallWrite(src) => At(s, p, WantWrite(src, 0))
    case CallRead(n) => At(s, p, WantRead(n))
    case CallClose(w) => At(s, p, WantClose(w))
    case Acquire =>
      At(s.(lock := Some(p)), p,
         match x.pc case WantWrite(src, i) => Writing(src, i) case WantRead(n) => ReadTest(n)
                    case WantClose(w) => Closing(w) case _ => x.pc)
    case Kill => s.(procs := s.procs[p := Proc(Woken(x.pc), true)], missed := s.missed - {p})
    case Step =>
      match x.pc
      case Writing(src, i) => DoWrite(s, p, src, i)
      case ReadTest(n) => DoTest(s, p, n)
      case Copying(n, got) => DoCopy(s, p, n, got)
      case Closing(w) => DoClose(s, p, w)
      case _ => s
  }

  function SleepingReaders(s: State): set<nat> {
    set q: nat | q < |s.procs| && s.procs[q].pc.ReadAsleep?
  }

  /** One turn of pipewrite's loop, or its end. */
  function DoWrite(s: State, p: nat, src: seq<char>, i: nat): State
    requires p < |s.procs| && Ok(s.ring)
  {
    if i >= |src| then Release(WakeReaders(s), p, Out)
    else if Full(s.ring) then
      if !s.readopen || s.procs[p].killed then Release(s.(missed := SleepingReaders(s)), p, Out)
      else Release(WakeReaders(s), p, WriteAsleep(src, i))
    else At(s.(ring := Put(s.ring, src[i]), written := s.written + [src[i]]), p, Writing(src, i + 1))
  }

  /** piperead's first loop. */
  function DoTest(s: State, p: nat, n: nat): State
    requires p < |s.procs|
  {
    if Empty(s.ring) && s.writeopen then Release(s, p, if s.procs[p].killed then Out else ReadAsleep(n))
    else At(s, p, Copying(n, []))
  }

  /** One turn of piperead's second loop, or its end. */
  function DoCopy(s: State, p: nat, n: nat, got: seq<char>): State
    requires p < |s.procs| && Ok(s.ring)
  {
    if |got| >= n || Empty(s.ring) then Release(WakeWriters(s), p, Out)
    else
      var b := Oldest(s.ring);
      At(s.(ring := Get(s.ring), taken := s.taken + [b]), p, Copying(n, got + [b]))
  }

  function DoClose(s: State, p: nat, writable: bool): State
    requires p < |s.procs|
  {
    if writable then Release(WakeReaders(s.(writeopen := false)), p, Out)
    else Release(WakeWriters(s.(readopen := false)), p, Out)
  }

  // ----- What every step keeps -----

  /** The bytes: what was taken, then what is buffered, is what was written, and the counters are its
      lengths modulo 2^32. */
  ghost predicate BytesOk(s: State) {
    && Ok(s.ring) && s.taken + Contents(s.ring) == s.written
    && s.ring.nwrite == |s.written| % WRAP && s.ring.nread == |s.taken| % WRAP
  }

  ghost predicate LockOk(s: State) {
    forall q :: 0 <= q < |s.procs| && Holds(s.procs[q].pc) ==> s.lock == Some(q)
  }

  /** Some process at such a point holds the lock. */
  predicate WriterIn(s: State) { s.lock.Some? && s.lock.value < |s.procs| && s.procs[s.lock.value].pc.Writing? }
  predicate ReaderIn(s: State) { s.lock.Some? && s.lock.value < |s.procs| && s.procs[s.lock.value].pc.Copying? }

  ghost predicate ProcOk(s: State, q: nat)
    requires q < |s.procs|
  {
    match s.procs[q].pc
    case WriteAsleep(_, _) => (Full(s.ring) && s.readopen) || ReaderIn(s)
    case ReadAsleep(_) => (Empty(s.ring) && s.writeopen) || WriterIn(s) || q in s.missed
    case Copying(n, got) =>
      && Latest(s.taken, got)
      && (got == [] ==> !Empty(s.ring) || !s.writeopen)
    case _ => true
  }

  ghost predicate Inv(s: State) {
    && BytesOk(s) && LockOk(s) && s.missed <= SleepingReaders(s)
    && forall q :: 0 <= q < |s.procs| ==> ProcOk(s, q)
  }

  lemma WriteByteKeeps(s: State, p: nat, src: seq<char>, i: nat)
    requires Inv(s) && p < |s.procs| && s.procs[p].pc == Writing(src, i) && i < |src| && !Full(s.ring)
    ensures Inv(DoWrite(s, p, src, i))
  {
    hide Ok, Contents, Full, Latest, Empty;
    var s' := DoWrite(s, p, src, i);
    PutContents(s.ring, src[i]);
    assert s'.taken + Contents(s'.ring) == s'.written;
    forall q | 0 <= q < |s'.procs| ensures ProcOk(s', q) {
      assert ProcOk(s, q);
      assert q != p ==> !Holds(s.procs[q].pc);
    }
  }

  lemma WriteKeeps(s: State, p: nat, src: seq<char>, i: nat)
    requires Inv(s) && p < |s.procs| && s.procs[p].pc == Writing(src, i)
    ensures Inv(DoWrite(s, p, src, i))
  {
    if i < |src| && !Full(s.ring) {
      WriteByteKeeps(s, p, src, i);
    } else {
      hide Ok, Contents, Full, Latest, Empty, BytesOk;
      var s' := DoWrite(s, p, src, i);
      assert BytesOk(s') by { SameBytes(s, s'); }
      forall q | 0 <= q < |s'.procs| ensures ProcOk(s', q) {
        assert ProcOk(s, q);
      }
    }
  }

  lemma TestKeeps(s: State, p: nat, n: nat)
    requires Inv(s) && p < |s.procs| && s.procs[p].pc == ReadTest(n)
    ensures Inv(DoTest(s, p, n))
  {
    var s' := DoTest(s, p, n);
    forall q | 0 <= q < |s'.procs| ensures ProcOk(s', q) {
      assert ProcOk(s, q);
    }
  }

  /** The bytes a reader has taken since it got the lock are the last ones taken. */
  predicate Latest(taken: seq<char>, got: seq<char>) {
    |got| <= |taken| && taken[|taken| - |got|..] == got
  }

  lemma LatestMore(taken: seq<char>, got: seq<char>, b: char)
    requires Latest(taken, got)
    ensures Latest(taken + [b], got + [b])
  {
    var all := taken + [b];
    assert all[|all| - |got + [b]|..] == taken[|taken| - |got|..] + [b];
  }

  lemma CopyByteKeeps(s: State, p: nat, n: nat, got: seq<char>)
    requires Inv(s) && p < |s.procs| && s.procs[p].pc == Copying(n, got) && |got| < n && !Empty(s.ring)
    ensures Inv(DoCopy(s, p, n, got))
  {
    hide Ok, Contents, Full, Oldest, Latest, Empty;
    var s' := DoCopy(s, p, n, got);
    assert ProcOk(s, p);
    GetContents(s.ring);
    assert s'.taken + Contents(s'.ring) == s'.written;
    LatestMore(s.taken, got, Oldest(s.ring));
    forall q | 0 <= q < |s'.procs| ensures ProcOk(s', q) {
      assert ProcOk(s, q);
      CopySleepers(s, s', q);
    }
  }

  /** While a reader copies, no reader sleeps on an empty buffer. */
  lemma CopySleepers(s: State, s': State, q: nat)
    requires q < |s.procs| && ProcOk(s, q) && !Empty(s.ring) && ReaderIn(s) && s'.missed == s.missed
    ensures s.procs[q].pc.ReadAsleep? ==> q in s'.missed
  {
  }

  lemma CopyKeeps(s: State, p: nat, n: nat, got: seq<char>)
    requires Inv(s) && p < |s.procs| && s.procs[p].pc == Copying(n, got)
    ensures Inv(DoCopy(s, p, n, got))
  {
    if |got| < n && !Empty(s.ring) {
      CopyByteKeeps(s, p, n, got);
    } else {
      hide Ok, Contents, Full, Oldest, Latest, Empty, BytesOk;
      var s' := DoCopy(s, p, n, got);
      assert BytesOk(s') by { SameBytes(s, s'); }
      forall q | 0 <= q < |s'.procs| ensures ProcOk(s', q) {
        assert ProcOk(s, q);
      }
    }
  }

  lemma SameBytes(s: State, s': State)
    requires BytesOk(s) && s'.ring == s.ring && s'.written == s.written && s'.taken == s.taken
    ensures BytesOk(s')
  {
  }

  lemma CloseKeeps(s: State, p: nat, writable: bool)
    requires Inv(s) && p < |s.procs| && s.procs[p].pc == Closing(writable)
    ensures Inv(DoClose(s, p, writable))
  {
    var s' := DoClose(s, p, writable);
    forall q | 0 <= q < |s'.procs| ensures ProcOk(s', q) {
      assert ProcOk(s, q);
    }
  }

  lemma OtherKeeps(s: State, p: nat, a: Act)
    requires Inv(s) && Enabled(s, p, a) && a != Step
    ensures Inv(Do(s, p, a))
  {
    var s' := Do(s, p, a);
    assert ProcOk(s, p);
    forall q | 0 <= q < |s'.procs| ensures ProcOk(s', q) {
      assert ProcOk(s, q);
    }
  }

  lemma StepKeeps(s: State, p: nat, a: Act)
    requires Inv(s) && Enabled(s, p, a)
    ensures Inv(Do(s, p, a))
  {
    hide Inv, DoWrite, DoTest, DoCopy, DoClose;
    if a == Step {
      match s.procs[p].pc
      case Writing(src, i) => WriteKeeps(s, p, src, i);
      case ReadTest(n) => TestKeeps(s, p, n);
      case Copying(n, got) => CopyKeeps(s, p, n, got);
      case Closing(w) => CloseKeeps(s, p, w);
    } else {
      OtherKeeps(s, p, a);
    }
  }

  // ----- Every run -----

  datatype Event = Event(p: nat, a: Act)

  /** pipealloc's pipe, used by processes that are doing something else. */
  predicate Fresh(s: State) {
    && |s.ring.data| == PIPESIZE && s.ring.nread == 0 && s.ring.nwrite == 0
    && s.readopen && s.writeopen && s.lock.None? && s.written == [] && s.taken == [] && s.missed == {}
    && (forall q :: 0 <= q < |s.procs| ==> s.procs[q].pc == Out)
  }

  predicate ValidRun(s: State, run: seq<Event>)
    decreases |run|
  {
    run == [] || (Enabled(s, run[0].p, run[0].a) && ValidRun(Do(s, run[0].p, run[0].a), run[1..]))
  }

  function Last(s: State, run: seq<Event>): State
    requires ValidRun(s, run)
    decreases |run|
  {
    if run == [] then s else Last(Do(s, run[0].p, run[0].a), run[1..])
  }

  lemma {:induction false} RunKeeps(s: State, run: seq<Event>)
    requires Inv(s) && ValidRun(s, run)
    ensures Inv(Last(s, run))
    decreases |run|
  {
    hide Inv, Do;
    if run != [] {
      StepKeeps(s, run[0].p, run[0].a);
      RunKeeps(Do(s, run[0].p, run[0].a), run[1..]);
    }
  }

  /** The bytes taken, then the bytes buffered, are the bytes written, and at most PIPESIZE are buffered,
      however often the counters have wrapped. */
  lemma PipeIsFifo(s: State, run: seq<Event>)
    requires Fresh(s) && ValidRun(s, run)
    ensures var t := Last(s, run);
            && Ok(t.ring) && t.taken + Contents(t.ring) == t.written && |Contents(t.ring)| <= PIPESIZE
            && (Full(t.ring) <==> |t.written| - |t.taken| == PIPESIZE)
            && (Empty(t.ring) <==> t.written == t.taken)
  {
    assert Contents(s.ring) == [];
    RunKeeps(s, run);
    var t := Last(s, run);
    FullIs(t.ring);
    assert Contents(t.ring) == [] ==> t.written == t.taken;
  }

  /** Whenever the lock is free, a sleeping writer faces a full buffer with a reader's end open, and a
      sleeping reader an empty one with a writer's end open, unless a writer has left by the error return
      while it slept. */
  lemma SleepersMustWait(s: State, run: seq<Event>, p: nat)
    requires Fresh(s) && ValidRun(s, run) && p < |Last(s, run).procs| && Last(s, run).lock.None?
    ensures var t := Last(s, run);
            && (t.procs[p].pc.WriteAsleep? ==> Full(t.ring) && t.readopen)
            && (t.procs[p].pc.ReadAsleep? ==> (Empty(t.ring) && t.writeopen) || p in t.missed)
  {
    assert Contents(s.ring) == [];
    RunKeeps(s, run);
    assert ProcOk(Last(s, run), p);
  }

  /** So without such an error return no reader and writer ever sleep on each other. */
  lemma NoMutualSleep(s: State, run: seq<Event>, p: nat, q: nat)
    requires Fresh(s) && ValidRun(s, run) && Last(s, run).lock.None? && q !in Last(s, run).missed
    requires p < |Last(s, run).procs| && q < |Last(s, run).procs|
    ensures !(Last(s, run).procs[p].pc.WriteAsleep? && Last(s, run).procs[q].pc.ReadAsleep?)
  {
    SleepersMustWait(s, run, p);
    SleepersMustWait(s, run, q);
    PipeIsFifo(s, run);
  }

  predicate SegmentAt(s: seq<char>, k: nat, got: seq<char>) { k + |got| <= |s| && s[k..k + |got|] == got }

  /** A read returns consecutive bytes of the stream, and returns none only when none were asked for or
      the write end is closed and everything was read. */
  lemma ReadReturns(s: State, run: seq<Event>, p: nat)
    requires Fresh(s) && ValidRun(s, run) && p < |Last(s, run).procs| && Last(s, run).procs[p].pc.Copying?
    ensures Enabled(Last(s, run), p, Step)
    ensures var t := Last(s, run); var n, got := t.procs[p].pc.n, t.procs[p].pc.got;
            && (exists k: nat :: SegmentAt(t.written, k, got))
            && (Do(t, p, Step).procs[p].pc.Out? && got == [] && n > 0 ==> !t.writeopen && t.taken == t.written)
  {
    assert Contents(s.ring) == [];
    RunKeeps(s, run);
    var t := Last(s, run);
    PipeIsFifo(s, run);
    assert ProcOk(t, p);
    var got := t.procs[p].pc.got;
    var k := |t.taken| - |got|;
    assert t.written[k..k + |got|] == t.taken[k..];
    assert SegmentAt(t.written, k, got);
  }

  // ----- The exception, exactly -----

  /** An error return leaves a process asleep in a read beside a full buffer exactly when it was asleep
      in one before, and exactly those are recorded. */
  lemma ErrorReturnExactly(s: State, run: seq<Event>, p: nat)
    requires Fresh(s) && ValidRun(s, run) && p < |Last(s, run).procs| && Last(s, run).procs[p].pc.Writing?
    requires var t := Last(s, run); var w := t.procs[p].pc;
             w.i < |w.src| && Full(t.ring) && (!t.readopen || t.procs[p].killed)
    ensures Enabled(Last(s, run), p, Step)
    ensures var t := Last(s, run); var u := Do(t, p, Step);
            && u.procs[p].pc == Out && u.lock.None? && Full(u.ring) && u.ring == t.ring && |u.procs| == |t.procs|
            && (forall q: nat :: q < |t.procs| ==> (u.procs[q].pc.ReadAsleep? <==> t.procs[q].pc.ReadAsleep?))
            && (forall q: nat :: q in u.missed <==> q < |t.procs| && t.procs[q].pc.ReadAsleep?)
  {
    assert Contents(s.ring) == [];
    RunKeeps(s, run);
  }

  function Line(n: nat): seq<char> { seq(n, _ => 'x') }

  function Start(): State {
    State(Ring(Line(PIPESIZE), 0, 0), true, true, None, [Proc(Out, false), Proc(Out, false)], [], [], {})
  }

  function Steps(k: nat): seq<Event> {
    if k == 0 then [] else [Event(1, Step)] + Steps(k - 1)
  }

  /** A killed writer that fills the buffer leaves by the error return, and wakes nobody. */
  lemma {:induction false} FillAndFail(s: State, i: nat)
    requires |s.procs| == 2 && s.procs[0].pc == ReadAsleep(1)
    requires s.procs[1] == Proc(Writing(Line(PIPESIZE + 1), i), true)
    requires Ok(s.ring) && Occupancy(s.ring) == i <= PIPESIZE
    ensures ValidRun(s, Steps(PIPESIZE + 1 - i))
    ensures var t := Last(s, Steps(PIPESIZE + 1 - i));
            |t.procs| == 2 && t.procs[0].pc == ReadAsleep(1) && t.lock.None? && Ok(t.ring) && Full(t.ring)
    decreases PIPESIZE - i
  {
    FullIs(s.ring);
    var run := Steps(PIPESIZE + 1 - i);
    assert run[0] == Event(1, Step) && run[1..] == Steps(PIPESIZE - i);
    var t := Do(s, 1, Step);
    if i < PIPESIZE {
      PutContents(s.ring, 'x');
      FillAndFail(t, i + 1);
    } else {
      assert run[1..] == [];
    }
  }

  /** The error return can leave a reader asleep beside a full buffer. */
  lemma ErrorReturnMissesReader() returns (s: State, run: seq<Event>)
    ensures Fresh(s) && ValidRun(s, run) && Last(s, run).lock.None?
    ensures |Last(s, run).procs| == 2 && Last(s, run).procs[0].pc.ReadAsleep? && Full(Last(s, run).ring)
  {
    s := Start();
    var s1 := Do(s, 0, CallRead(1));
    var s2 := Do(s1, 0, Acquire);
    var s3 := Do(s2, 0, Step);
    run := WriterFails(s3);
    hide ValidRun, Last;
    run := Before(s2, Event(0, Step), run);
    run := Before(s1, Event(0, Acquire), run);
    run := Before(s, Event(0, CallRead(1)), run);
  }

  lemma WriterFails(s: State) returns (run: seq<Event>)
    requires |s.procs| == 2 && s.procs[0].pc == ReadAsleep(1) && s.procs[1] == Proc(Out, false)
    requires Ok(s.ring) && Occupancy(s.ring) == 0 && s.lock.None?
    ensures ValidRun(s, run)
    ensures var t := Last(s, run);
            |t.procs| == 2 && t.procs[0].pc == ReadAsleep(1) && t.lock.None? && Ok(t.ring) && Full(t.ring)
  {
    var s1 := Do(s, 1, CallWrite(Line(PIPESIZE + 1)));
    var s2 := Do(s1, 1, Acquire);
    FillAndFail(Do(s2, 1, Kill), 0);
    hide ValidRun, Last;
    run := Before(s2, Event(1, Kill), Steps(PIPESIZE + 1));
    run := Before(s1, Event(1, Acquire), run);
    run := Before(s, Event(1, CallWrite(Line(PIPESIZE + 1))), run);
  }

  lemma Before(s: State, e: Event, run: seq<Event>) returns (all: seq<Event>)
    requires Enabled(s, e.p, e.a) && ValidRun(Do(s, e.p, e.a), run)
    ensures ValidRun(s, all) && Last(s, all) == Last(Do(s, e.p, e.a), run)
  {
    all := [e] + run;
    assert all[1..] == run;
  }
}
