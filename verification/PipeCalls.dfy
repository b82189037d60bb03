/** What the calls on a pipe do, in every run: which end a close closes and whom it wakes, what a write puts
    into the pipe, and what a read takes once the other end is closed. */
module PipeCalls {
  import opened Common
  import opened PipeRing
  import opened PipeMachine

  lemma FreshOk(s: State)
    requires Fresh(s)
    ensures Inv(s)
  {
    assert Contents(s.ring) == [];
  }

  // ----- Closing -----

  /** Some step of the run completes a close of the write end, or of the read end. */
  ghost predicate Closed(s: State, run: seq<Event>, writable: bool)
    requires ValidRun(s, run)
    decreases |run|
  {
    run != [] &&
    ((run[0].a == Step && s.procs[run[0].p].pc == Closing(writable)) ||
     Closed(Do(s, run[0].p, run[0].a), run[1..], writable))
  }

  /** In every run an end is closed exactly if a close of that end has completed. */
  lemma {:induction false} ClosedExactly(s: State, run: seq<Event>)
    requires ValidRun(s, run)
    ensures Last(s, run).writeopen <==> s.writeopen && !Closed(s, run, true)
    ensures Last(s, run).readopen <==> s.readopen && !Closed(s, run, false)
    decreases |run|
  {
    if run != [] {
      ClosedExactly(Do(s, run[0].p, run[0].a), run[1..]);
    }
  }

  /** A close wakes everybody who sleeps at the other end, and changes nothing but its own end. */
  lemma CloseWakes(s: State, run: seq<Event>, p: nat, writable: bool)
    requires Fresh(s) && ValidRun(s, run) && p < |Last(s, run).procs| && Last(s, run).procs[p].pc == Closing(writable)
    ensures Enabled(Last(s, run), p, Step)
    ensures var t := Last(s, run); var u := Do(t, p, Step);
            && u.writeopen == (t.writeopen && !writable) && u.readopen == (t.readopen && writable)
            && u.ring == t.ring && u.written == t.written && u.taken == t.taken && u.lock == None
            && |u.procs| == |t.procs| && u.procs[p].pc == Out
            && (forall q :: 0 <= q < |t.procs| && q != p ==>
                  u.procs[q].pc ==
                  if writable && t.procs[q].pc.ReadAsleep? then WantRead(t.procs[q].pc.n)
                  else if !writable && t.procs[q].pc.WriteAsleep? then WantWrite(t.procs[q].pc.src, t.procs[q].pc.i)
                  else t.procs[q].pc)
  {
    FreshOk(s);
    RunKeeps(s, run);
  }

  /** Nobody sleeps at an end whose other end is closed. */
  ghost predicate AwakeOk(s: State) {
    forall q :: 0 <= q < |s.procs| ==>
      (s.procs[q].pc.ReadAsleep? ==> s.writeopen) && (s.procs[q].pc.WriteAsleep? ==> s.readopen)
  }

  lemma AwakeStep(s: State, p: nat, a: Act)
    requires AwakeOk(s) && Enabled(s, p, a)
    ensures AwakeOk(Do(s, p, a))
  {
    hide Ok, Full, Empty, Put, Get, Oldest;
  }

  lemma {:induction false} AwakeRun(s: State, run: seq<Event>)
    requires AwakeOk(s) && ValidRun(s, run)
    ensures AwakeOk(Last(s, run))
    decreases |run|
  {
    hide Do, AwakeOk;
    if run != [] {
      AwakeStep(s, run[0].p, run[0].a);
      AwakeRun(Do(s, run[0].p, run[0].a), run[1..]);
    }
  }

  /** Once the write end is closed, no read sleeps, now or later; once the read end is, no write does. */
  lemma ClosedNeverSleeps(s: State, run: seq<Event>, q: nat)
    requires Fresh(s) && ValidRun(s, run) && q < |Last(s, run).procs|
    ensures Closed(s, run, true) ==> !Last(s, run).procs[q].pc.ReadAsleep?
    ensures Closed(s, run, false) ==> !Last(s, run).procs[q].pc.WriteAsleep?
  {
    ClosedExactly(s, run);
    AwakeRun(s, run);
  }

  // ----- Reading -----

  /** Under the lock a read goes to sleep exactly if the buffer is empty, the write end is open and the process
      was not killed, gives up exactly if it was, and otherwise goes on to copy. */
  lemma ReadWaits(s: State, run: seq<Event>, p: nat, n: nat)
    requires Fresh(s) && ValidRun(s, run) && p < |Last(s, run).procs| && Last(s, run).procs[p].pc == ReadTest(n)
    ensures Enabled(Last(s, run), p, Step)
    ensures var t := Last(s, run); var u := Do(t, p, Step);
            && |u.procs| == |t.procs| && u.ring == t.ring && u.written == t.written && u.taken == t.taken
            && var waits := t.taken == t.written && t.writeopen;
            && (u.procs[p].pc == ReadAsleep(n) <==> waits && !t.procs[p].killed)
            && (u.procs[p].pc == Out <==> waits && t.procs[p].killed)
            && (u.procs[p].pc == Copying(n, []) <==> !waits)
  {
    FreshOk(s);
    RunKeeps(s, run);
    PipeIsFifo(s, run);
  }

  /** It then takes the oldest byte there is, until it has enough or there is none, and wakes the writers. */
  lemma ReadTakes(s: State, run: seq<Event>, p: nat, n: nat, got: seq<char>)
    requires Fresh(s) && ValidRun(s, run) && p < |Last(s, run).procs| && Last(s, run).procs[p].pc == Copying(n, got)
    ensures Enabled(Last(s, run), p, Step)
    ensures var t := Last(s, run); var u := Do(t, p, Step);
            && |u.procs| == |t.procs| && |t.taken| <= |t.written| && u.written == t.written
            && (if |got| < n && t.taken != t.written then
                  && |t.taken| < |t.written| && u.taken == t.taken + [t.written[|t.taken|]]
                  && u.procs[p].pc == Copying(n, got + [t.written[|t.taken|]])
                else
                  && u.taken == t.taken && u.procs[p].pc == Out && u.lock == None
                  && (forall q :: 0 <= q < |u.procs| ==> !u.procs[q].pc.WriteAsleep?))
  {
    hide Full;
    FreshOk(s);
    RunKeeps(s, run);
    PipeIsFifo(s, run);
    var t := Last(s, run);
    if |got| < n && t.taken != t.written {
      GetContents(t.ring);
      assert t.written[|t.taken|] == Contents(t.ring)[0];
    }
  }

  // ----- Arguments -----

  /** The call that a process is inside of, as it goes by its own argument. */
  function Inside(pc: Pc): Option<Act> {
    match pc
    case Out => None
    case WantWrite(src, _) => Some(CallWrite(src))
    case Writing(src, _) => Some(CallWrite(src))
    case WriteAsleep(src, _) => Some(CallWrite(src))
    case WantRead(n) => Some(CallRead(n))
    case ReadTest(n) => Some(CallRead(n))
    case ReadAsleep(n) => Some(CallRead(n))
    case Copying(n, _) => Some(CallRead(n))
    case WantClose(w) => Some(CallClose(w))
    case Closing(w) => Some(CallClose(w))
  }

  predicate IsCall(a: Act) { a.CallWrite? || a.CallRead? || a.CallClose? }

  /** The last call that process `p` made in the run, `before` being that before it. */
  function LastCall(run: seq<Event>, p: nat, before: Option<Act>): Option<Act> {
    if run == [] then before
    else LastCall(run[1..], p, if run[0].p == p && IsCall(run[0].a) then Some(run[0].a) else before)
  }

  ghost predicate InsideOk(s: State, p: nat, call: Option<Act>) {
    p < |s.procs| && (Inside(s.procs[p].pc) == None || Inside(s.procs[p].pc) == call)
  }

  /** From `s` to `t` every process stays inside its call, or `p` leaves it. */
  ghost predicate Stays(s: State, t: State, p: nat) {
    && p < |s.procs| == |t.procs|
    && (forall q :: 0 <= q < |s.procs| && q != p ==> Inside(t.procs[q].pc) == Inside(s.procs[q].pc))
    && (Inside(t.procs[p].pc) == Inside(s.procs[p].pc) || Inside(t.procs[p].pc) == None)
  }

  lemma WriteStays(s: State, p: nat, src: seq<char>, i: nat)
    requires p < |s.procs| && Ok(s.ring) && s.procs[p].pc == Writing(src, i)
    ensures Stays(s, DoWrite(s, p, src, i), p)
  {
    hide Ok, Full, Empty, Put, Get, Oldest;
  }

  lemma CopyStays(s: State, p: nat, n: nat, got: seq<char>)
    requires p < |s.procs| && Ok(s.ring) && s.procs[p].pc == Copying(n, got)
    ensures Stays(s, DoCopy(s, p, n, got), p)
  {
    hide Ok, Full, Empty, Put, Get, Oldest;
  }

  lemma RestStays(s: State, p: nat)
    requires p < |s.procs|
    ensures s.procs[p].pc.ReadTest? ==> Stays(s, DoTest(s, p, s.procs[p].pc.n), p)
    ensures s.procs[p].pc.Closing? ==> Stays(s, DoClose(s, p, s.procs[p].pc.writable), p)
  {
    hide Ok, Full, Empty, Put, Get, Oldest;
  }

  lemma StepStays(s: State, p: nat)
    requires Enabled(s, p, Step)
    ensures Stays(s, Do(s, p, Step), p)
  {
    hide Ok, Full, DoWrite, DoTest, DoCopy, DoClose, Stays;
    match s.procs[p].pc
    case Writing(src, i) => WriteStays(s, p, src, i);
    case Copying(n, got) => CopyStays(s, p, n, got);
    case _ => RestStays(s, p);
  }

  lemma CallStays(s: State, p: nat, a: Act)
    requires Enabled(s, p, a) && a != Step
    ensures var t := Do(s, p, a);
            if IsCall(a) then
              && |t.procs| == |s.procs| && Inside(t.procs[p].pc) == Some(a)
              && (forall q :: 0 <= q < |s.procs| && q != p ==> Inside(t.procs[q].pc) == Inside(s.procs[q].pc))
            else Stays(s, t, p)
  {
  }

  lemma InsideStep(s: State, p: nat, call: Option<Act>, e: Event)
    requires InsideOk(s, p, call) && Enabled(s, e.p, e.a)
    ensures InsideOk(Do(s, e.p, e.a), p, if e.p == p && IsCall(e.a) then Some(e.a) else call)
  {
    hide Do, Inside;
    if e.a == Step { StepStays(s, e.p); } else { CallStays(s, e.p, e.a); }
  }

  lemma {:induction false} InsideRun(s: State, run: seq<Event>, p: nat, call: Option<Act>)
    requires InsideOk(s, p, call) && ValidRun(s, run)
    ensures InsideOk(Last(s, run), p, LastCall(run, p, call))
    decreases |run|
  {
    hide Do, InsideOk;
    if run != [] {
      var e := run[0];
      InsideStep(s, p, call, e);
      InsideRun(Do(s, e.p, e.a), run[1..], p, if e.p == p && IsCall(e.a) then Some(e.a) else call);
    }
  }

  /** In every run a process inside write, read or close works on the arguments of its last call. */
  lemma WorksOnItsCall(s: State, run: seq<Event>, p: nat)
    requires Fresh(s) && ValidRun(s, run) && p < |Last(s, run).procs| && Last(s, run).procs[p].pc != Out
    ensures LastCall(run, p, None) == Inside(Last(s, run).procs[p].pc)
  {
    hide Do;
    ProcsStay(s, run);
    InsideRun(s, run, p, None);
  }

  // ----- Writing -----

  /** The bytes that process `p` has put into the pipe since it last called write, `sent` being those before
      the run. */
  ghost function Sent(s: State, run: seq<Event>, p: nat, sent: seq<char>): seq<char>
    requires ValidRun(s, run)
    decreases |run|
  {
    if run == [] then sent
    else
      var e := run[0];
      var t := Do(s, e.p, e.a);
      Sent(t, run[1..], p,
           if e.p != p then sent
           else if e.a.CallWrite? then []
           else if |s.written| <= |t.written| then sent + t.written[|s.written|..] else sent)
  }

  /** Where a process is in its argument, if it is inside write. */
  function Place(pc: Pc): Option<(seq<char>, nat)> {
    match pc
    case WantWrite(src, i) => Some((src, i))
    case Writing(src, i) => Some((src, i))
    case WriteAsleep(src, i) => Some((src, i))
    case _ => None
  }

  /** It has sent the bytes before that place. */
  ghost predicate SentOk(s: State, p: nat, sent: seq<char>) {
    p < |s.procs| &&
    match Place(s.procs[p].pc)
    case Some((src, i)) => i <= |src| && sent == src[..i]
    case None => true
  }

  predicate Puts(s: State, e: Event) {
    && e.p < |s.procs| && e.a == Step && s.procs[e.p].pc.Writing?
    && s.procs[e.p].pc.i < |s.procs[e.p].pc.src| && !Full(s.ring)
  }

  lemma PutStep(s: State, e: Event)
    requires Enabled(s, e.p, e.a)
    ensures Do(s, e.p, e.a).written ==
            if Puts(s, e) then s.written + [s.procs[e.p].pc.src[s.procs[e.p].pc.i]] else s.written
  {
    hide Ok, Full, Empty, Put, Get, Oldest;
  }

  /** From `s` to `t` the others keep their places, and `p` keeps its own, leaves, or is one byte further. */
  ghost predicate Placed(s: State, t: State, p: nat, further: bool) {
    && p < |s.procs| == |t.procs|
    && (forall q :: 0 <= q < |s.procs| && q != p ==> Place(t.procs[q].pc) == Place(s.procs[q].pc))
    && var w, w' := Place(s.procs[p].pc), Place(t.procs[p].pc);
    if further then w.Some? && w' == Some((w.value.0, w.value.1 + 1)) else w' == w || w' == None
  }

  lemma WritePlaced(s: State, p: nat, src: seq<char>, i: nat)
    requires p < |s.procs| && Ok(s.ring) && s.procs[p].pc == Writing(src, i)
    ensures Placed(s, DoWrite(s, p, src, i), p, Puts(s, Event(p, Step)))
  {
    hide Ok, Full, Empty, Put, Get, Oldest;
  }

  lemma CopyPlaced(s: State, p: nat, n: nat, got: seq<char>)
    requires p < |s.procs| && Ok(s.ring) && s.procs[p].pc == Copying(n, got)
    ensures Placed(s, DoCopy(s, p, n, got), p, false)
  {
    hide Ok, Full, Empty, Put, Get, Oldest;
  }

  lemma RestPlaced(s: State, p: nat)
    requires p < |s.procs|
    ensures s.procs[p].pc.ReadTest? ==> Placed(s, DoTest(s, p, s.procs[p].pc.n), p, false)
    ensures s.procs[p].pc.Closing? ==> Placed(s, DoClose(s, p, s.procs[p].pc.writable), p, false)
  {
    hide Ok, Full, Empty, Put, Get, Oldest;
  }

  lemma StepPlaced(s: State, p: nat)
    requires Enabled(s, p, Step)
    ensures Placed(s, Do(s, p, Step), p, Puts(s, Event(p, Step)))
  {
    hide Ok, Full, DoWrite, DoTest, DoCopy, DoClose, Placed;
    match s.procs[p].pc
    case Writing(src, i) => WritePlaced(s, p, src, i);
    case Copying(n, got) => CopyPlaced(s, p, n, got);
    case _ => RestPlaced(s, p);
  }

  lemma CallPlaced(s: State, p: nat, a: Act)
    requires Enabled(s, p, a) && a != Step
    ensures var t := Do(s, p, a);
            if a.CallWrite? then
              && |t.procs| == |s.procs| && Place(t.procs[p].pc) == Some((a.src, 0))
              && (forall q :: 0 <= q < |s.procs| && q != p ==> Place(t.procs[q].pc) == Place(s.procs[q].pc))
            else Placed(s, t, p, false)
  {
  }

  lemma SentStep(s: State, p: nat, sent: seq<char>, e: Event)
    requires SentOk(s, p, sent) && Enabled(s, e.p, e.a)
    ensures var t := Do(s, e.p, e.a);
            && s.written <= t.written
            && SentOk(t, p,
                      if e.p != p then sent else if e.a.CallWrite? then [] else sent + t.written[|s.written|..])
  {
    hide Do, Full;
    PutStep(s, e);
    if e.a == Step { StepPlaced(s, e.p); } else { CallPlaced(s, e.p, e.a); }
  }

  lemma {:induction false} SentRun(s: State, run: seq<Event>, p: nat, sent: seq<char>)
    requires SentOk(s, p, sent) && ValidRun(s, run)
    ensures SentOk(Last(s, run), p, Sent(s, run, p, sent))
    decreases |run|
  {
    hide Do, SentOk;
    if run != [] {
      var e := run[0];
      var t := Do(s, e.p, e.a);
      SentStep(s, p, sent, e);
      SentRun(t, run[1..], p,
              if e.p != p then sent else if e.a.CallWrite? then [] else sent + t.written[|s.written|..]);
    }
  }

  /** In every run a write puts the bytes of its argument into the pipe, in order and each once, and when it
      returns without error it has put all of them. */
  lemma WriteSends(s: State, run: seq<Event>, p: nat, src: seq<char>, i: nat)
    requires Fresh(s) && ValidRun(s, run) && p < |Last(s, run).procs| && Last(s, run).procs[p].pc == Writing(src, i)
    ensures Enabled(Last(s, run), p, Step)
    ensures var t := Last(s, run); var u := Do(t, p, Step);
            && LastCall(run, p, None) == Some(CallWrite(src)) && |u.procs| == |t.procs|
            && i <= |src| && Sent(s, run, p, []) == src[..i]
            && (if i == |src| then
                  && u.procs[p].pc == Out && u.written == t.written && u.lock == None
                  && (forall q :: 0 <= q < |u.procs| ==> !u.procs[q].pc.ReadAsleep?)
                else if |t.written| - |t.taken| < PIPESIZE then
                  u.procs[p].pc == Writing(src, i + 1) && u.written == t.written + [src[i]]
                else
                  && u.written == t.written && u.lock == None
                  && u.procs[p].pc == (if !t.readopen || t.procs[p].killed then Out else WriteAsleep(src, i)))
  {
    FreshOk(s);
    RunKeeps(s, run);
    PipeIsFifo(s, run);
    ProcsStay(s, run);
    SentRun(s, run, p, []);
    WorksOnItsCall(s, run, p);
  }

  lemma {:induction false} ProcsStay(s: State, run: seq<Event>)
    requires ValidRun(s, run)
    ensures |Last(s, run).procs| == |s.procs|
    decreases |run|
  {
    if run != [] {
      ProcsStay(Do(s, run[0].p, run[0].a), run[1..]);
    }
  }

  // ----- Killing -----

  /** A killed process is awake, and stays marked. */
  lemma KillWakes(s: State, p: nat)
    requires p < |s.procs|
    ensures Enabled(s, p, Kill)
    ensures var u := Do(s, p, Kill);
            && |u.procs| == |s.procs| && u.procs[p].killed && !u.procs[p].pc.ReadAsleep? && !u.procs[p].pc.WriteAsleep?
            && (forall q :: 0 <= q < |s.procs| && q != p ==> u.procs[q] == s.procs[q])
            && u.ring == s.ring && u.written == s.written && u.taken == s.taken
  {
  }
}
