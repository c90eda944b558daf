/**
 `capture_native` of crates/neomacs-diagnostics/src/server.rs: native captures
 serialized by a mutex that is held inside the blocking task. A run is a sequence
 of events of any number of requests.
 */
module NativeCapture {
  import opened Text

  type Req = int

  /** The blocking task. `Reported`: the profiler guard is gone, the lock is not. */
  datatype Task = Spawned | Locked | Installed | Reported | Finished

  /** `awaiting` are the requests whose future is alive. `around` is the design
      the code rejects: the lock around the await, released when the future is
      dropped. */
  datatype State = State(around: bool, task: map<Req, Task>, awaiting: set<Req>, lock: Option<Req>)

  datatype Event =
    | Spawn(r: Req)      // spawn_blocking
    | DropFuture(r: Req) // the client disconnects
    | TakeLock(r: Req)   // a poisoned lock is taken all the same
    | Install(r: Req)    // the SIGPROF profiler is built
    | Refuse(r: Req)     // building it fails
    | Report(r: Req)     // sampling is over, the profiler guard is dropped
    | Panic(r: Req)      // unwinding drops the profiler guard
    | Release(r: Req)    // the mutex guard is dropped, last

  function Init(around: bool): State { State(around, map[], {}, None) }

  predicate Is(s: State, r: Req, t: Task) { r in s.task && s.task[r] == t }

  predicate Enabled(s: State, e: Event)
  {
    match e
    case Spawn(r) => r !in s.task
    case DropFuture(r) => r in s.awaiting
    case TakeLock(r) => Is(s, r, Spawned) && s.lock == None
    case Install(r) => Is(s, r, Locked)
    case Refuse(r) => Is(s, r, Locked)
    case Report(r) => Is(s, r, Installed)
    case Panic(r) => Is(s, r, Locked) || Is(s, r, Installed)
    case Release(r) => Is(s, r, Reported)
  }

  function Apply(s: State, e: Event): State
    requires Enabled(s, e)
  {
    match e
    case Spawn(r) => s.(task := s.task[r := Spawned], awaiting := s.awaiting + {r})
    case DropFuture(r) =>
      s.(awaiting := s.awaiting - {r}, lock := if s.around && s.lock == Some(r) then None else s.lock)
    case TakeLock(r) => s.(task := s.task[r := Locked], lock := Some(r))
    case Install(r) => s.(task := s.task[r := Installed])
    case Refuse(r) => s.(task := s.task[r := Reported])
    case Report(r) => s.(task := s.task[r := Reported])
    case Panic(r) => s.(task := s.task[r := Reported])
    case Release(r) => s.(task := s.task[r := Finished], lock := if s.lock == Some(r) then None else s.lock)
  }

  function Exec(around: bool, es: seq<Event>): Option<State>
  {
    if es == [] then Some(Init(around))
    else match Exec(around, es[..|es| - 1])
      case None => None
      case Some(s) => if Enabled(s, es[|es| - 1]) then Some(Apply(s, es[|es| - 1])) else None
  }

  /** A task past its lock and not yet past its release holds the lock. */
  predicate TaskOk(s: State, r: Req)
  {
    (Is(s, r, Locked) || Is(s, r, Installed) || Is(s, r, Reported)) <==> s.lock == Some(r)
  }

  ghost predicate Inv(s: State) { !s.around && forall r :: TaskOk(s, r) }

  lemma {:induction false} Step(s: State, e: Event)
    requires Inv(s) && Enabled(s, e)
    ensures Inv(Apply(s, e))
  {
    var s' := Apply(s, e);
    assert TaskOk(s, e.r);
    forall r ensures TaskOk(s', r) { assert TaskOk(s, r); }
  }

  lemma {:induction false} Runs(es: seq<Event>)
    requires Exec(false, es).Some?
    ensures Inv(Exec(false, es).value)
  {
    if es == [] {
      assert forall r :: TaskOk(Init(false), r);
    } else {
      Runs(es[..|es| - 1]);
      Step(Exec(false, es[..|es| - 1]).value, es[|es| - 1]);
    }
  }

  /** At most one profiler is installed in every reachable state, whichever
      futures are dropped and whichever tasks panic. */
  lemma {:induction false} OneProfiler(es: seq<Event>, r: Req, q: Req)
    requires Exec(false, es).Some?
    requires Is(Exec(false, es).value, r, Installed) && Is(Exec(false, es).value, q, Installed)
    ensures r == q && Exec(false, es).value.lock == Some(r)
  {
    Runs(es);
    assert TaskOk(Exec(false, es).value, r) && TaskOk(Exec(false, es).value, q);
  }

  lemma {:induction false} Then(es: seq<Event>, s: State, e: Event) returns (es': seq<Event>)
    requires Exec(true, es) == Some(s) && Enabled(s, e)
    ensures Exec(true, es') == Some(Apply(s, e))
  {
    es' := es + [e];
    assert es'[..|es|] == es;
  }

  /** With the lock around the await, a dropped future lets a second profiler in. */
  lemma {:induction false} LockAroundAwaitRaces()
    ensures exists es :: Exec(true, es).Some?
                         && Is(Exec(true, es).value, 0, Installed) && Is(Exec(true, es).value, 1, Installed)
  {
    var es, s := [], Init(true);
    es := Then(es, s, Spawn(0));
    s := Apply(s, Spawn(0));
    es := Then(es, s, TakeLock(0));
    s := Apply(s, TakeLock(0));
    es := Then(es, s, Install(0));
    s := Apply(s, Install(0));
    es := Then(es, s, DropFuture(0));
    s := Apply(s, DropFuture(0));
    es := Then(es, s, Spawn(1));
    s := Apply(s, Spawn(1));
    es := Then(es, s, TakeLock(1));
    s := Apply(s, TakeLock(1));
    es := Then(es, s, Install(1));
  }
}
