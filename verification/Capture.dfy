/**
 The Lisp capture protocol of crates/neomacs-diagnostics/src/server.rs: any
 number of requests, one capture lock, blocking jobs that outlive a dropped
 request, one task channel, and the single CPU profiler of the Lisp thread,
 which the user drives too. A run is a sequence of events in any interleaving.
 */
module Capture {
  import opened Text

  type Req = int

  // ----------------------------------------------------------------- profiler

  /** Who started the session that is running. */
  datatype Session = User | Diag(r: Req)

  /** `cpu_running` and `cpu_diagnostics_owned`, with the session for the record. */
  datatype Profiler = Profiler(running: bool, owned: bool, session: Session)
  {
    predicate Diagnosing() { running && session.Diag? }

    predicate Interactive() { running && session.User? }

    /** `diagnostics_cpu_profile_start`: a session it owns is reclaimed, any
        other running session refuses. */
    function Start(r: Req): (Profiler, bool)
    {
      if running && !owned then (this, false) else (Profiler(true, true, Diag(r)), true)
    }

    /** `diagnostics_cpu_profile_stop_fold` and `..._abort`: unconditional. */
    function Stop(): Profiler { Profiler(false, false, session) }

    /** `profiler-cpu-start` and `profiler-cpu-stop`: the ownership mark stays. */
    function UserStart(): Profiler { if running then this else Profiler(true, owned, User) }

    function UserStop(): Profiler { Profiler(false, owned, session) }
  }

  /** The profiler as the Lisp thread mutates it. */
  class CpuProfiler {
    var cpuRunning: bool
    var cpuDiagnosticsOwned: bool
    ghost var session: Session

    ghost function View(): Profiler
      reads this
    {
      Profiler(cpuRunning, cpuDiagnosticsOwned, session)
    }

    constructor ()
      ensures View() == Profiler(false, false, User)
    {
      cpuRunning, cpuDiagnosticsOwned, session := false, false, User;
    }

    method CpuStart(ghost who: Session) returns (started: bool)
      modifies this`cpuRunning, this`session
      ensures started == !old(cpuRunning)
      ensures View() == if old(cpuRunning) then old(View()) else Profiler(true, old(cpuDiagnosticsOwned), who)
    {
      if cpuRunning { return false; }
      cpuRunning, session := true, who;
      started := true;
    }

    method CpuStop() returns (stopped: bool)
      modifies this`cpuRunning
      ensures stopped == old(cpuRunning) && View() == old(View()).UserStop()
      ensures !cpuRunning && session == old(session)
    {
      if !cpuRunning { return false; }
      cpuRunning := false;
      stopped := true;
    }

    method DiagnosticsStart(ghost r: Req) returns (started: bool)
      modifies this
      ensures (View(), started) == old(View()).Start(r)
      ensures started <==> !old(cpuRunning) || old(cpuDiagnosticsOwned)
      ensures started ==> cpuRunning && cpuDiagnosticsOwned && session == Diag(r)
      ensures !started ==> View() == old(View())
    {
      if cpuRunning {
        if cpuDiagnosticsOwned {
          var stopped := CpuStop();
        } else {
          return false;
        }
      }
      started := CpuStart(Diag(r));
      cpuDiagnosticsOwned := started;
    }

    /** Also the abort, which differs only in discarding the log. */
    method DiagnosticsStop()
      modifies this
      ensures View() == old(View()).Stop()
      ensures !cpuRunning && !cpuDiagnosticsOwned && session == old(session)
    {
      var stopped := CpuStop();
      cpuDiagnosticsOwned := false;
    }
  }

  // -------------------------------------------------------------------- state

  datatype Task = StartTask(r: Req) | StopTask(r: Req) | AbortTask(r: Req)

  /** A request's future. From `Sampling` on the cleanup guard is armed. */
  datatype Phase = Waiting | Starting | Sampling | Stopping | Releasing | Done

  /** The blocking job a request awaits; it runs on if the request is dropped. */
  datatype Job = Unsent(task: Task) | Queued(task: Task) | Answered(task: Task, ok: bool)

  datatype State = State(
    phase: map<Req, Phase>,
    lock: Option<Req>,
    job: map<Req, Job>,
    queue: seq<Task>,
    profiler: Profiler,
    // What has happened so far:
    userStopped: bool,     // a diagnostics task stopped an interactive session
    metLeftover: bool,     // a start found a diagnostics session running
    stopped: set<Req>,     // sessions ended by their clean stop
    aborted: set<Req>)     // requests whose abort ran

  function Init(): State
  {
    State(map[], None, map[], [], Profiler(false, false, User), false, false, {}, {})
  }

  predicate In(s: State, r: Req, p: Phase) { r in s.phase && s.phase[r] == p }

  predicate Holds(s: State, r: Req)
  {
    r in s.phase && (s.phase[r].Starting? || s.phase[r].Sampling? || s.phase[r].Stopping? || s.phase[r].Releasing?)
  }

  // ------------------------------------------------------------------- events

  datatype Event =
    | Arrive(r: Req)    // a live controller; the request waits for the lock
    | Acquire(r: Req)   // lock taken, the start job is spawned
    | Send(r: Req)      // a blocking job puts its task on the channel
    | Lisp              // the Lisp thread runs the next task
    | Reply(r: Req)     // the awaited answer reaches the request
    | Wake(r: Req)      // the sampling sleep ends, the stop job is spawned
    | Cancel(r: Req)    // the request future is dropped
    | Timeout(r: Req)   // the awaited answer does not come in time
    | Release(r: Req)   // the lock guard is dropped, after the cleanup guard
    | UserStart         // M-x profiler-start
    | UserStop          // M-x profiler-stop

  predicate Enabled(s: State, e: Event)
  {
    match e
    case Arrive(r) => r !in s.phase
    case Acquire(r) => In(s, r, Waiting) && s.lock == None
    case Send(r) => r in s.job && s.job[r].Unsent?
    case Lisp => s.queue != []
    case Reply(r) => (In(s, r, Starting) || In(s, r, Stopping)) && r in s.job && s.job[r].Answered?
    case Wake(r) => In(s, r, Sampling)
    case Cancel(r) => r in s.phase && !s.phase[r].Releasing? && !s.phase[r].Done?
    case Timeout(r) => (In(s, r, Starting) || In(s, r, Stopping)) && r in s.job && s.job[r].Queued?
    case Release(r) => In(s, r, Releasing)
    case UserStart => true
    case UserStop => true
  }

  /** One task on the Lisp thread. */
  function RunTask(s: State): State
    requires s.queue != []
  {
    var task, rest, p := s.queue[0], s.queue[1..], s.profiler;
    match task
    case StartTask(r) =>
      var (p', ok) := p.Start(r);
      s.(queue := rest, profiler := p', job := s.job[r := Answered(task, ok)],
         userStopped := s.userStopped || (ok && p.Interactive()),
         metLeftover := s.metLeftover || p.Diagnosing())
    case StopTask(r) =>
      s.(queue := rest, profiler := p.Stop(), job := s.job[r := Answered(task, true)],
         userStopped := s.userStopped || p.Interactive(),
         stopped := s.stopped + {r})
    case AbortTask(r) =>
      s.(queue := rest, profiler := p.Stop(),
         userStopped := s.userStopped || p.Interactive(),
         aborted := s.aborted + {r})
  }

  /** Dropping the locals of a request that holds the lock: an armed cleanup
      guard aborts first; the lock guard goes last. */
  function Drop(s: State, r: Req): State
  {
    if In(s, r, Sampling) || In(s, r, Stopping) then
      s.(queue := s.queue + [AbortTask(r)], phase := s.phase[r := Releasing])
    else if In(s, r, Starting) then s.(phase := s.phase[r := Releasing])
    else s.(phase := s.phase[r := Done])
  }

  function Apply(s: State, e: Event): State
    requires Enabled(s, e)
  {
    match e
    case Arrive(r) => s.(phase := s.phase[r := Waiting])
    case Acquire(r) =>
      s.(phase := s.phase[r := Starting], lock := Some(r), job := s.job[r := Unsent(StartTask(r))])
    case Send(r) =>
      s.(queue := s.queue + [s.job[r].task], job := s.job[r := Queued(s.job[r].task)])
    case Lisp => RunTask(s)
    case Reply(r) =>
      if In(s, r, Stopping) then s.(phase := s.phase[r := Releasing])
      else if s.job[r].ok then s.(phase := s.phase[r := Sampling])
      else s.(phase := s.phase[r := Releasing])
    case Wake(r) => s.(phase := s.phase[r := Stopping], job := s.job[r := Unsent(StopTask(r))])
    case Cancel(r) => Drop(s, r)
    case Timeout(r) => Drop(s, r)
    case Release(r) => s.(phase := s.phase[r := Done], lock := None)
    case UserStart => s.(profiler := s.profiler.UserStart())
    case UserStop => s.(profiler := s.profiler.UserStop())
  }

  // --------------------------------------------------------------------- runs

  /** The state after a run, if every event was possible when it happened. */
  function Exec(es: seq<Event>): Option<State>
  {
    if es == [] then Some(Init())
    else match Exec(es[..|es| - 1])
      case None => None
      case Some(s) => if Enabled(s, es[|es| - 1]) then Some(Apply(s, es[|es| - 1])) else None
  }

  /** The user stops only sessions of their own. */
  predicate UserRespects(s: State, e: Event) { e == UserStop ==> !s.profiler.Diagnosing() }

  /** A request is not dropped, and does not give up, while its stop is awaited. */
  predicate StopUndisturbed(s: State, e: Event) { (e.Cancel? || e.Timeout?) ==> !In(s, e.r, Stopping) }

  /** The same while its start is awaited. */
  predicate StartUndisturbed(s: State, e: Event) { (e.Cancel? || e.Timeout?) ==> !In(s, e.r, Starting) }

  /** Runs that keep the chosen rules at every step. */
  predicate Obeys(es: seq<Event>, user: bool, stop: bool, start: bool)
  {
    es != [] ==>
      && Obeys(es[..|es| - 1], user, stop, start)
      && var s, e := Exec(es[..|es| - 1]), es[|es| - 1];
         s.Some? ==>
           && (user ==> UserRespects(s.value, e))
           && (stop ==> StopUndisturbed(s.value, e))
           && (start ==> StartUndisturbed(s.value, e))
  }

  // --------------------------------------------------------------- in any run

  predicate Terminates(t: Task) { t.StopTask? || t.AbortTask? }

  /** One request: it holds the lock exactly when its phase says so, and its job
      is the one its phase awaits. */
  predicate ReqOk(s: State, r: Req)
  {
    && (Holds(s, r) <==> s.lock == Some(r))
    && (r in s.job ==> r in s.phase && !In(s, r, Waiting)
                       && (s.job[r].task == StartTask(r) || s.job[r].task == StopTask(r)))
    && (In(s, r, Starting) ==> r in s.job && s.job[r].task == StartTask(r))
    && (In(s, r, Stopping) ==> r in s.job && s.job[r].task == StopTask(r))
    && (In(s, r, Sampling) ==> r in s.job && s.job[r] == Answered(StartTask(r), true))
  }

  /** A start or stop on the channel belongs to a job that is waiting for it. */
  predicate TaskOk(s: State, t: Task)
  {
    !t.AbortTask? ==> t.r in s.job && s.job[t.r] == Queued(t)
  }

  ghost predicate NoRepeats(queue: seq<Task>)
  {
    forall i, j :: 0 <= i < j < |queue| && !queue[i].AbortTask? ==> queue[i] != queue[j]
  }

  ghost predicate AnyInv(s: State)
  {
    && (forall r :: ReqOk(s, r))
    && (forall i :: 0 <= i < |s.queue| ==> TaskOk(s, s.queue[i]))
    && NoRepeats(s.queue)
  }

  lemma {:induction false} AnyLisp(s: State)
    requires AnyInv(s) && s.queue != []
    ensures AnyInv(RunTask(s))
  {
    var s', t := RunTask(s), s.queue[0];
    assert TaskOk(s, t);
    forall r ensures ReqOk(s', r) { assert ReqOk(s, r); }
    forall i | 0 <= i < |s'.queue| ensures TaskOk(s', s'.queue[i]) {
      assert s'.queue[i] == s.queue[i + 1] && TaskOk(s, s.queue[i + 1]);
    }
  }

  lemma {:induction false} AnySend(s: State, r: Req)
    requires AnyInv(s) && Enabled(s, Send(r))
    ensures AnyInv(Apply(s, Send(r)))
  {
    var s' := Apply(s, Send(r));
    assert ReqOk(s, r);
    forall q ensures ReqOk(s', q) { assert ReqOk(s, q); }
    forall i | 0 <= i < |s.queue| ensures TaskOk(s', s.queue[i]) && s.queue[i] != s.job[r].task {
      assert TaskOk(s, s.queue[i]);
    }
  }

  lemma {:induction false} AnyDrop(s: State, r: Req)
    requires AnyInv(s) && r in s.phase && !s.phase[r].Releasing?
    ensures AnyInv(Drop(s, r))
  {
    var s' := Drop(s, r);
    forall q ensures ReqOk(s', q) { assert ReqOk(s, q); }
    forall i | 0 <= i < |s.queue| ensures TaskOk(s', s.queue[i]) { assert TaskOk(s, s.queue[i]); }
  }

  lemma {:induction false} AnyStep(s: State, e: Event)
    requires AnyInv(s) && Enabled(s, e)
    ensures AnyInv(Apply(s, e))
  {
    match e
    case Lisp => AnyLisp(s);
    case Send(r) => AnySend(s, r);
    case Cancel(r) => AnyDrop(s, r);
    case Timeout(r) => AnyDrop(s, r);
    case UserStart => AnyFrame(s, Apply(s, e));
    case UserStop => AnyFrame(s, Apply(s, e));
    case _ => AnyRequest(s, e);
  }

  lemma {:induction false} AnyFrame(s: State, s': State)
    requires AnyInv(s) && s'.phase == s.phase && s'.lock == s.lock && s'.job == s.job && s'.queue == s.queue
    ensures AnyInv(s')
  {
    forall r ensures ReqOk(s', r) { assert ReqOk(s, r); }
    forall i | 0 <= i < |s.queue| ensures TaskOk(s', s.queue[i]) { assert TaskOk(s, s.queue[i]); }
  }

  lemma {:induction false} AnyRequest(s: State, e: Event)
    requires AnyInv(s) && Enabled(s, e)
    requires e.Arrive? || e.Acquire? || e.Reply? || e.Wake? || e.Release?
    ensures AnyInv(Apply(s, e))
  {
    var s' := Apply(s, e);
    assert ReqOk(s, e.r);
    forall r ensures ReqOk(s', r) { assert ReqOk(s, r); }
    forall i | 0 <= i < |s.queue| ensures TaskOk(s', s.queue[i]) { assert TaskOk(s, s.queue[i]); }
  }

  /** In every run, whatever is cancelled or times out, at most one request is
      inside the protocol, and it is the one that holds the lock. */
  lemma {:induction false} LockExclusive(es: seq<Event>)
    requires Exec(es).Some?
    ensures AnyInv(Exec(es).value)
    ensures forall r, q :: Holds(Exec(es).value, r) && Holds(Exec(es).value, q) ==> r == q
  {
    forall r, q | Exec(es).Some? && AnyInv(Exec(es).value) && Holds(Exec(es).value, r) && Holds(Exec(es).value, q)
      ensures r == q
    {
      assert ReqOk(Exec(es).value, r) && ReqOk(Exec(es).value, q);
    }
    if es != [] {
      LockExclusive(es[..|es| - 1]);
      AnyStep(Exec(es[..|es| - 1]).value, es[|es| - 1]);
    }
  }

  // --------------------------------------------------- interactive sessions

  /** No terminator follows position `i` of the channel. */
  ghost predicate QuietAfter(queue: seq<Task>, i: int)
  {
    forall j :: 0 <= j < |queue| && i < j ==> !Terminates(queue[j])
  }

  /** What the lock holder relies on. */
  ghost predicate HolderOk(s: State, r: Req)
  {
    && ((In(s, r, Sampling) || (In(s, r, Stopping) && r in s.job && s.job[r].Unsent?)
         || (In(s, r, Starting) && r in s.job && s.job[r].Answered? && s.job[r].ok)) ==>
          s.profiler.Diagnosing() && QuietAfter(s.queue, -1))
    && (In(s, r, Starting) && r in s.job && s.job[r].Queued? ==>
          forall i :: 0 <= i < |s.queue| && s.queue[i] == StartTask(r) ==> QuietAfter(s.queue, i))
    && (r in s.job && s.job[r] == Unsent(StopTask(r)) ==> In(s, r, Stopping))
  }

  ghost predicate PoliteInv(s: State)
  {
    && AnyInv(s) && !s.userStopped
    && s.profiler.owned == s.profiler.Diagnosing()
    && (forall i :: 0 <= i < |s.queue| && Terminates(s.queue[i]) ==>
          s.profiler.Diagnosing() && QuietAfter(s.queue, i))
    && (forall r :: HolderOk(s, r))
  }

  lemma {:induction false} PoliteLisp(s: State)
    requires PoliteInv(s) && s.queue != []
    ensures PoliteInv(RunTask(s))
  {
    var s', t := RunTask(s), s.queue[0];
    AnyLisp(s);
    assert forall i :: 0 <= i < |s'.queue| ==> s'.queue[i] == s.queue[i + 1];
    assert TaskOk(s, t);
    assert Terminates(t) ==> QuietAfter(s'.queue, -1);
    forall r ensures HolderOk(s', r) {
      assert HolderOk(s, r) && ReqOk(s, r) && ReqOk(s, t.r);
      if Terminates(t) {
        PoliteHolderTerminated(s, r);
      } else if r == t.r && In(s, r, Starting) {
        assert QuietAfter(s.queue, 0);
      }
    }
  }

  /** While a terminator is at the head, the holder's start is still behind it
      or its own stop is this one. */
  lemma {:induction false} PoliteHolderTerminated(s: State, r: Req)
    requires PoliteInv(s) && s.queue != [] && Terminates(s.queue[0])
    ensures HolderOk(RunTask(s), r)
  {
    var s', t := RunTask(s), s.queue[0];
    assert HolderOk(s, r) && ReqOk(s, r) && TaskOk(s, t);
    assert forall i :: 0 <= i < |s'.queue| ==> s'.queue[i] == s.queue[i + 1];
    assert !QuietAfter(s.queue, -1);
  }

  /** A task that is still to be sent is not on the channel. */
  lemma {:induction false} NotYetSent(s: State, r: Req)
    requires AnyInv(s) && Enabled(s, Send(r)) && !s.job[r].task.AbortTask?
    ensures forall i :: 0 <= i < |s.queue| ==> s.queue[i] != s.job[r].task
  {
    assert ReqOk(s, r);
    forall i | 0 <= i < |s.queue| ensures s.queue[i] != s.job[r].task { assert TaskOk(s, s.queue[i]); }
  }

  lemma {:induction false} PoliteSend(s: State, r: Req)
    requires PoliteInv(s) && Enabled(s, Send(r))
    ensures PoliteInv(Apply(s, Send(r)))
  {
    var s' := Apply(s, Send(r));
    AnySend(s, r);
    assert ReqOk(s, r) && HolderOk(s, r);
    assert forall i :: 0 <= i < |s.queue| ==> s'.queue[i] == s.queue[i];
    forall i | 0 <= i < |s'.queue| && Terminates(s'.queue[i])
      ensures s'.profiler.Diagnosing() && QuietAfter(s'.queue, i)
    {
      if i < |s.queue| && Terminates(s'.queue[|s.queue|]) { assert false; }
    }
    forall q ensures HolderOk(s', q) {
      assert HolderOk(s, q) && ReqOk(s, q);
      if q == r && In(s, r, Starting) {
        NotYetSent(s, r);
        assert forall i :: 0 <= i < |s'.queue| && s'.queue[i] == StartTask(r) ==> i == |s.queue|;
      }
    }
  }

  lemma {:induction false} PoliteDrop(s: State, r: Req)
    requires PoliteInv(s) && r in s.phase && !s.phase[r].Releasing? && !s.phase[r].Stopping?
    ensures PoliteInv(Drop(s, r))
  {
    var s' := Drop(s, r);
    AnyDrop(s, r);
    assert ReqOk(s, r) && HolderOk(s, r);
    assert forall i :: 0 <= i < |s.queue| ==> s'.queue[i] == s.queue[i];
    forall i | 0 <= i < |s'.queue| && Terminates(s'.queue[i])
      ensures s'.profiler.Diagnosing() && QuietAfter(s'.queue, i)
    {
      if i < |s.queue| && In(s, r, Sampling) { assert false; }
    }
    forall q ensures HolderOk(s', q) { assert HolderOk(s, q) && ReqOk(s, q); }
  }

  lemma {:induction false} PoliteStep(s: State, e: Event)
    requires PoliteInv(s) && Enabled(s, e) && UserRespects(s, e) && StopUndisturbed(s, e)
    ensures PoliteInv(Apply(s, e))
  {
    match e
    case Lisp => PoliteLisp(s);
    case Send(r) => PoliteSend(s, r);
    case Cancel(r) => PoliteDrop(s, r);
    case Timeout(r) => PoliteDrop(s, r);
    case _ => PoliteOther(s, e);
  }

  lemma {:induction false} PoliteOther(s: State, e: Event)
    requires PoliteInv(s) && Enabled(s, e) && UserRespects(s, e)
    requires !e.Lisp? && !e.Send? && !e.Cancel? && !e.Timeout?
    ensures PoliteInv(Apply(s, e))
  {
    var s' := Apply(s, e);
    AnyStep(s, e);
    if !e.UserStart? && !e.UserStop? { assert ReqOk(s, e.r) && HolderOk(s, e.r); }
    forall q ensures HolderOk(s', q) { assert HolderOk(s, q) && ReqOk(s, q) && ReqOk(s', q); }
  }

  lemma {:induction false} PoliteRun(es: seq<Event>)
    requires Exec(es).Some? && Obeys(es, true, true, false)
    ensures PoliteInv(Exec(es).value)
  {
    if es == [] {
      assert forall r :: ReqOk(Init(), r) && HolderOk(Init(), r);
    } else {
      PoliteRun(es[..|es| - 1]);
      PoliteStep(Exec(es[..|es| - 1]).value, es[|es| - 1]);
    }
  }

  /** No interactive session is ever stopped by diagnostics, in any interleaving
      of any number of requests, cancellations and start timeouts included, as
      long as stops are undisturbed and the user stops only their own. */
  lemma {:induction false} InteractiveSessionsSurvive(es: seq<Event>)
    requires Exec(es).Some? && Obeys(es, true, true, false)
    ensures !Exec(es).value.userStopped
  {
    PoliteRun(es);
  }

  // ------------------------------------------------------------ who is refused

  /** The Lisp thread runs the start of `r`: it is refused, and changes nothing, exactly
      when a session without the ownership mark runs; otherwise the session that runs
      afterwards is its own. */
  lemma {:induction false} StartTakesOrLeaves(es: seq<Event>, r: Req)
    requires Exec(es).Some? && Exec(es).value.queue != [] && Exec(es).value.queue[0] == StartTask(r)
    ensures Enabled(Exec(es).value, Lisp)
    ensures var p, s := Exec(es).value.profiler, Apply(Exec(es).value, Lisp);
      if p.running && !p.owned then
        s.profiler == p && r in s.job && s.job[r] == Answered(StartTask(r), false)
      else
        s.profiler == Profiler(true, true, Diag(r)) && r in s.job && s.job[r] == Answered(StartTask(r), true)
  {
  }

  /** The Lisp thread runs the stop or the abort of a request: nothing runs afterwards
      and nothing is marked. */
  lemma {:induction false} TerminatorEndsAll(es: seq<Event>)
    requires Exec(es).Some? && Exec(es).value.queue != [] && Terminates(Exec(es).value.queue[0])
    ensures Enabled(Exec(es).value, Lisp)
    ensures var s := Apply(Exec(es).value, Lisp); !s.profiler.running && !s.profiler.owned
  {
  }

  /** Capturing never hijacks: with stops undisturbed and a user who stops only their
      own sessions, a start is refused exactly when an interactive session runs. */
  lemma {:induction false} RefusedExactlyWhenInteractive(es: seq<Event>, r: Req)
    requires Exec(es).Some? && Exec(es).value.queue != [] && Exec(es).value.queue[0] == StartTask(r)
    requires Obeys(es, true, true, false)
    ensures Enabled(Exec(es).value, Lisp) && r in Apply(Exec(es).value, Lisp).job
    ensures Apply(Exec(es).value, Lisp).job[r] == Answered(StartTask(r), !Exec(es).value.profiler.Interactive())
  {
    PoliteRun(es);
  }

  /** The start of `r` was granted. */
  predicate Granted(s: State, r: Req)
  {
    r in s.job && (s.job[r].task == StopTask(r) || s.job[r] == Answered(StartTask(r), true))
  }

  /** Whatever ends a session on behalf of `r` comes after its start was granted. */
  predicate EndsGranted(s: State, r: Req)
  {
    (r in s.stopped || r in s.aborted || StopTask(r) in s.queue || AbortTask(r) in s.queue) ==> Granted(s, r)
  }

  lemma {:induction false} GrantedLisp(s: State, r: Req)
    requires AnyInv(s) && s.queue != [] && EndsGranted(s, r)
    ensures EndsGranted(RunTask(s), r)
  {
    var t := s.queue[0];
    assert TaskOk(s, t) && t in s.queue;
    assert forall x :: x in s.queue[1..] ==> x in s.queue;
  }

  lemma {:induction false} GrantedSend(s: State, q: Req, r: Req)
    requires AnyInv(s) && Enabled(s, Send(q)) && EndsGranted(s, r)
    ensures EndsGranted(Apply(s, Send(q)), r)
  {
    assert ReqOk(s, q) && ReqOk(s, r);
  }

  lemma {:induction false} GrantedDrop(s: State, q: Req, r: Req)
    requires AnyInv(s) && q in s.phase && EndsGranted(s, r)
    ensures EndsGranted(Drop(s, q), r)
  {
    assert ReqOk(s, q);
  }

  lemma {:induction false} GrantedOther(s: State, e: Event, r: Req)
    requires AnyInv(s) && Enabled(s, e) && EndsGranted(s, r)
    requires !e.Lisp? && !e.Send? && !e.Cancel? && !e.Timeout?
    ensures EndsGranted(Apply(s, e), r)
  {
    assert ReqOk(s, r);
  }

  lemma {:induction false} GrantedRun(es: seq<Event>, r: Req)
    requires Exec(es).Some?
    ensures EndsGranted(Exec(es).value, r)
  {
    if es != [] {
      var s, e := Exec(es[..|es| - 1]).value, es[|es| - 1];
      GrantedRun(es[..|es| - 1], r);
      LockExclusive(es[..|es| - 1]);
      match e
      case Lisp => GrantedLisp(s, r);
      case Send(q) => GrantedSend(s, q, r);
      case Cancel(q) => GrantedDrop(s, q, r);
      case Timeout(q) => GrantedDrop(s, q, r);
      case _ => GrantedOther(s, e, r);
    }
  }

  /** A request that was refused never ends a session: in no run is one stopped or
      aborted on its behalf, and nothing that would do so waits on the channel. */
  lemma {:induction false} RefusedEndsNothing(es: seq<Event>, r: Req)
    requires Exec(es).Some? && r in Exec(es).value.job && Exec(es).value.job[r] == Answered(StartTask(r), false)
    ensures var s := Exec(es).value;
      r !in s.stopped && r !in s.aborted && StopTask(r) !in s.queue && AbortTask(r) !in s.queue
  {
    GrantedRun(es, r);
  }

  // --------------------------------------------------------- disciplined runs

  /** Nothing on the channel and no capture running, or one abort, which will end the
      session it belongs to if the user has not. */
  predicate Settling(s: State)
  {
    || (s.queue == [] && !s.profiler.Diagnosing())
    || (|s.queue| == 1 && s.queue[0].AbortTask? && Owns(s, s.queue[0].r))
  }

  /** A capture that is running is that of `r`. */
  predicate Owns(s: State, r: Req) { s.profiler.Diagnosing() ==> s.profiler.session == Diag(r) }

  /** Where the channel and the profiler are, phase by phase of the lock holder. */
  predicate Shape(s: State)
  {
    if s.lock.None? then Settling(s)
    else
      var h := s.lock.value;
      && h in s.phase && h in s.job
      && match s.phase[h]
         case Starting =>
           (match s.job[h]
            case Unsent(_) => Settling(s)
            case Queued(_) =>
              || (s.queue == [StartTask(h)] && !s.profiler.Diagnosing())
              || (|s.queue| == 2 && s.queue[0].AbortTask? && s.queue[1] == StartTask(h) && Owns(s, s.queue[0].r))
            case Answered(_, ok) => s.queue == [] && (if ok then Owns(s, h) else !s.profiler.Diagnosing()))
         case Sampling => s.queue == [] && Owns(s, h)
         case Stopping =>
           (match s.job[h]
            case Unsent(_) => s.queue == [] && Owns(s, h)
            case Queued(_) => s.queue == [StopTask(h)] && Owns(s, h)
            case Answered(_, _) => s.queue == [] && !s.profiler.Diagnosing())
         case Releasing => Settling(s)
         case _ => false
  }

  /** How request `r` has ended, or will. */
  predicate EndOk(s: State, r: Req)
  {
    && (r in s.stopped ==>
          && AbortTask(r) !in s.queue
          && ((In(s, r, Stopping) && r in s.job && s.job[r].Answered?) || In(s, r, Releasing) || In(s, r, Done)))
    && (r in s.aborted ==> r !in s.stopped && (In(s, r, Releasing) || In(s, r, Done)))
    && (AbortTask(r) in s.queue ==> In(s, r, Releasing) || In(s, r, Done))
    && (r in s.job && !s.job[r].Answered? ==> In(s, r, Starting) || In(s, r, Stopping))
  }

  ghost predicate DisciplinedInv(s: State)
  {
    && AnyInv(s) && Shape(s) && !s.metLeftover
    && (s.profiler.Diagnosing() ==> s.profiler.owned)
    && forall r :: EndOk(s, r)
  }

  lemma {:induction false} DisciplinedLisp(s: State)
    requires DisciplinedInv(s) && s.queue != []
    ensures DisciplinedInv(RunTask(s))
  {
    var s', t := RunTask(s), s.queue[0];
    AnyLisp(s);
    assert TaskOk(s, t) && ReqOk(s, t.r) && EndOk(s, t.r);
    if s.lock.Some? { assert ReqOk(s, s.lock.value); }
    assert forall x :: x in s'.queue ==> x in s.queue;
    forall r ensures EndOk(s', r) { assert EndOk(s, r) && ReqOk(s, r); }
  }

  lemma {:induction false} DisciplinedSend(s: State, r: Req)
    requires DisciplinedInv(s) && Enabled(s, Send(r))
    ensures DisciplinedInv(Apply(s, Send(r)))
  {
    var s' := Apply(s, Send(r));
    AnySend(s, r);
    assert ReqOk(s, r) && EndOk(s, r);
    assert s.queue == [] ==> s'.queue == [s.job[r].task];
    forall q ensures EndOk(s', q) { assert EndOk(s, q) && ReqOk(s, q); }
  }

  lemma {:induction false} DisciplinedDrop(s: State, r: Req)
    requires DisciplinedInv(s) && (In(s, r, Waiting) || In(s, r, Sampling))
    ensures DisciplinedInv(Drop(s, r))
  {
    var s' := Drop(s, r);
    AnyDrop(s, r);
    assert ReqOk(s, r) && EndOk(s, r);
    forall q ensures EndOk(s', q) { assert EndOk(s, q) && ReqOk(s, q); }
  }

  lemma {:induction false} DisciplinedOther(s: State, e: Event)
    requires DisciplinedInv(s) && Enabled(s, e)
    requires !e.Lisp? && !e.Send? && !e.Cancel? && !e.Timeout?
    ensures DisciplinedInv(Apply(s, e))
  {
    var s' := Apply(s, e);
    AnyStep(s, e);
    if !e.UserStart? && !e.UserStop? { assert ReqOk(s, e.r) && EndOk(s, e.r); }
    forall q ensures EndOk(s', q) { assert EndOk(s, q) && ReqOk(s, q); }
  }

  lemma {:induction false} DisciplinedRun(es: seq<Event>)
    requires Exec(es).Some? && Obeys(es, false, true, true)
    ensures DisciplinedInv(Exec(es).value)
  {
    if es == [] {
      assert forall r :: ReqOk(Init(), r) && EndOk(Init(), r);
    } else {
      var s, e := Exec(es[..|es| - 1]).value, es[|es| - 1];
      DisciplinedRun(es[..|es| - 1]);
      match e
      case Lisp => DisciplinedLisp(s);
      case Send(r) => DisciplinedSend(s, r);
      case Cancel(r) => DisciplinedDrop(s, r);
      case Timeout(r) =>
      case _ => DisciplinedOther(s, e);
    }
  }

  /** With starts and stops undisturbed, whatever the user does: no start ever meets a
      leftover session; a running capture belongs to the lock holder, or its abort is
      next on the channel, ahead of any start of a later holder; and no session that
      was cleanly stopped is also aborted. */
  lemma {:induction false} CapturesAreIsolated(es: seq<Event>)
    requires Exec(es).Some? && Obeys(es, false, true, true)
    ensures var s := Exec(es).value;
      && !s.metLeftover && s.stopped !! s.aborted
      && (s.profiler.Diagnosing() && s.lock != Some(s.profiler.session.r) ==>
            s.queue != [] && s.queue[0] == AbortTask(s.profiler.session.r))
  {
    DisciplinedRun(es);
    var s := Exec(es).value;
    forall r | r in s.aborted ensures r !in s.stopped { assert EndOk(s, r); }
  }

  // ----------------------------------------------- each assumption is needed

  /** One more event of a run. */
  lemma {:induction false} Then(es: seq<Event>, s: State, e: Event, user: bool, stop: bool, start: bool)
    returns (es': seq<Event>)
    requires Exec(es) == Some(s) && Enabled(s, e) && Obeys(es, user, stop, start)
    requires (user ==> UserRespects(s, e)) && (stop ==> StopUndisturbed(s, e)) && (start ==> StartUndisturbed(s, e))
    ensures Exec(es') == Some(Apply(s, e)) && Obeys(es', user, stop, start)
  {
    es' := es + [e];
    assert es'[..|es|] == es;
  }

  /** Request 0 has the lock and has put its start on the channel. */
  function StartSent(): State
  {
    Init().(phase := map[0 := Starting], lock := Some(0),
            job := map[0 := Queued(StartTask(0))], queue := [StartTask(0)])
  }

  /** Request 0 is sampling. */
  function SamplingState(): State
  {
    Init().(phase := map[0 := Sampling], lock := Some(0), job := map[0 := Answered(StartTask(0), true)],
            profiler := Profiler(true, true, Diag(0)))
  }

  lemma {:induction false} ReachStartSent(user: bool, stop: bool, start: bool) returns (es: seq<Event>)
    ensures Exec(es) == Some(StartSent()) && Obeys(es, user, stop, start)
  {
    es := [];
    var s := Init();
    es := Then(es, s, Arrive(0), user, stop, start);
    s := Apply(s, Arrive(0));
    es := Then(es, s, Acquire(0), user, stop, start);
    s := Apply(s, Acquire(0));
    es := Then(es, s, Send(0), user, stop, start);
    assert Apply(s, Send(0)) == StartSent();
  }

  lemma {:induction false} ReachSampling(user: bool, stop: bool, start: bool) returns (es: seq<Event>)
    ensures Exec(es) == Some(SamplingState()) && Obeys(es, user, stop, start)
  {
    es := ReachStartSent(user, stop, start);
    var s := StartSent();
    es := Then(es, s, Lisp, user, stop, start);
    s := Apply(s, Lisp);
    es := Then(es, s, Reply(0), user, stop, start);
    assert Apply(s, Reply(0)) == SamplingState();
  }

  /** Request 0 has put its stop on the channel. */
  function StopSent(): State
  {
    SamplingState().(phase := map[0 := Stopping], job := map[0 := Queued(StopTask(0))], queue := [StopTask(0)])
  }

  lemma {:induction false} ReachStopSent(user: bool, stop: bool, start: bool) returns (es: seq<Event>)
    ensures Exec(es) == Some(StopSent()) && Obeys(es, user, stop, start)
  {
    es := ReachSampling(user, stop, start);
    var s := SamplingState();
    es := Then(es, s, Wake(0), user, stop, start);
    s := Apply(s, Wake(0));
    es := Then(es, s, Send(0), user, stop, start);
    assert Apply(s, Send(0)) == StopSent();
  }

  /** Request 0 has been dropped while it waited to start; its start is still queued. */
  function Dropped(): State
  {
    Init().(phase := map[0 := Done], job := map[0 := Queued(StartTask(0))], queue := [StartTask(0)])
  }

  lemma {:induction false} ReachDropped() returns (es: seq<Event>)
    ensures Exec(es) == Some(Dropped()) && Obeys(es, true, true, false)
  {
    es := ReachStartSent(true, true, false);
    var s := StartSent();
    es := Then(es, s, Cancel(0), true, true, false);
    s := Apply(s, Cancel(0));
    es := Then(es, s, Release(0), true, true, false);
    assert Apply(s, Release(0)) == Dropped();
  }

  /** The session that it started runs. */
  function Orphaned(): State
  {
    Init().(phase := map[0 := Done], job := map[0 := Answered(StartTask(0), true)],
            profiler := Profiler(true, true, Diag(0)))
  }

  lemma {:induction false} ReachOrphaned() returns (es: seq<Event>)
    ensures Exec(es) == Some(Orphaned()) && Obeys(es, true, true, false)
  {
    es := ReachDropped();
    es := Then(es, Dropped(), Lisp, true, true, false);
    assert Apply(Dropped(), Lisp) == Orphaned();
  }

  lemma {:induction false} ObeysLess(es: seq<Event>, stop: bool, start: bool)
    requires Obeys(es, true, stop, start)
    ensures Obeys(es, false, stop, start)
  {
    if es != [] { ObeysLess(es[..|es| - 1], stop, start); }
  }

  /** After the user has stopped such a session and started one of their own, the next
      start takes that one over: the mark was left standing. */
  lemma {:induction false} StaleMarkHijacks()
    ensures exists es :: Exec(es).Some? && Obeys(es, false, true, false) && Exec(es).value.profiler.Interactive()
                         && Exec(es).value.queue == [StartTask(1)]
                         && Apply(Exec(es).value, Lisp).profiler == Profiler(true, true, Diag(1))
  {
    var es := ReachOrphaned();
    ObeysLess(es, true, false);
    var s := Orphaned();
    es := Then(es, s, UserStop, false, true, false);
    s := Apply(s, UserStop);
    es := Then(es, s, UserStart, false, true, false);
    s := Apply(s, UserStart);
    es := Then(es, s, Arrive(1), false, true, false);
    s := Apply(s, Arrive(1));
    es := Then(es, s, Acquire(1), false, true, false);
    s := Apply(s, Acquire(1));
    es := Then(es, s, Send(1), false, true, false);
    s := Apply(s, Send(1));
    assert s.queue == [StartTask(1)];
  }

  /** If the user stops a capture and starts a session of their own, the capture's
      stop ends it: the ownership mark was left standing. */
  lemma {:induction false} OwnershipMarkGoesStale()
    ensures exists es :: Exec(es).Some? && Obeys(es, false, true, true) && Exec(es).value.userStopped
  {
    var es := ReachSampling(false, true, true);
    var s := SamplingState();
    es := Then(es, s, UserStop, false, true, true);
    s := Apply(s, UserStop);
    es := Then(es, s, UserStart, false, true, true);
    s := Apply(s, UserStart);
    es := Then(es, s, Wake(0), false, true, true);
    s := Apply(s, Wake(0));
    es := Then(es, s, Send(0), false, true, true);
    s := Apply(s, Send(0));
    es := Then(es, s, Lisp, false, true, true);
    s := Apply(s, Lisp);
  }

  /** If a stop times out, its abort runs after it and can end a session the user
      started in between. */
  lemma {:induction false} LateAbortStopsUser()
    ensures exists es :: Exec(es).Some? && Obeys(es, true, false, true) && Exec(es).value.userStopped
  {
    var es := ReachStopSent(true, false, true);
    var s := StopSent();
    es := Then(es, s, Timeout(0), true, false, true);
    s := Apply(s, Timeout(0));
    assert s.queue == [StopTask(0), AbortTask(0)];
    es := Then(es, s, Lisp, true, false, true);
    s := Apply(s, Lisp);
    es := Then(es, s, UserStart, true, false, true);
    s := Apply(s, UserStart);
    es := Then(es, s, Lisp, true, false, true);
    s := Apply(s, Lisp);
  }

  /** If a request is dropped while its start is awaited, the session it starts is
      left for the next start to meet. */
  lemma {:induction false} CancelledStartLeavesSession()
    ensures exists es :: Exec(es).Some? && Obeys(es, true, true, false) && Exec(es).value.metLeftover
  {
    var es := ReachOrphaned();
    var s := Orphaned();
    es := Then(es, s, Arrive(1), true, true, false);
    s := Apply(s, Arrive(1));
    es := Then(es, s, Acquire(1), true, true, false);
    s := Apply(s, Acquire(1));
    es := Then(es, s, Send(1), true, true, false);
    s := Apply(s, Send(1));
    es := Then(es, s, Lisp, true, true, false);
    s := Apply(s, Lisp);
  }

  /** If a request is dropped while its stop is awaited, its session is stopped and
      then aborted as well. */
  lemma {:induction false} CancelledStopAborts()
    ensures exists es :: Exec(es).Some? && Obeys(es, true, false, true)
                         && 0 in Exec(es).value.stopped * Exec(es).value.aborted
  {
    var es := ReachStopSent(true, false, true);
    var s := StopSent();
    es := Then(es, s, Cancel(0), true, false, true);
    s := Apply(s, Cancel(0));
    assert s.queue == [StopTask(0), AbortTask(0)];
    es := Then(es, s, Lisp, true, false, true);
    s := Apply(s, Lisp);
    es := Then(es, s, Lisp, true, false, true);
    s := Apply(s, Lisp);
  }
}
