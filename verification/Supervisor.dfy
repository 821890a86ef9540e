/**
 * One tracer under its supervisor.  Manager calls run under a mutex; the worker
 * goroutine reads and writes the tracer's fields without it.  Every read or
 * write of a shared field is a step of its own, and steps interleave freely.
 */
module Supervisor {
  import opened Options

  // Where a worker goroutine is: about to do what is said, unless it is waiting.
  datatype Pc =
    | Check                // test the exit flag before a round
    | Arm                  // make a context and publish its cancel function
    | Serve(ctx: nat)      // the tracer is at work under the context
    | Refuse(ctx: nat)     // set the exit flag of an unsupported tracer
    | CountRead            // read the hit count
    | CountWrite(was: int) // write it back, one more
    | Recheck              // test the exit flag after a round
    | Nap                  // wait between rounds
    | Leave                // clear the running flag
    | Gone

  // Where the manager call holding the mutex is: about to do what is said.
  datatype MgrPc =
    | StartTest            // refuse to start a running tracer
    | StartFlag            // set the running flag
    | StartClear           // clear the exit flag
    | StartSpawn           // launch the worker
    | StopTest             // refuse to stop a tracer that is not running
    | StopFlag             // set the exit flag
    | StopCancel           // call the published cancel function

  datatype State = State(
    isRunning: bool, exit: bool, hitCount: int,
    cancelCtx: Option<nat>, contexts: nat, cancelled: set<nat>,
    workers: map<nat, Pc>, spawned: nat,
    holder: Option<MgrPc>, rounds: int, crashed: bool)

  const INIT := State(false, false, 0, None, 0, {}, map[], 0, None, 0, false)

  datatype Action =
    | LockStart
    | LockStop
    | Manager
    | Worker(id: nat, unsupported: bool)

  predicate Live(s: State, w: nat) {
    w in s.workers && !s.workers[w].Gone?
  }

  // A crash, the call of a nil cancel function, ends the process.
  predicate Enabled(s: State, a: Action) {
    !s.crashed &&
    match a
    case LockStart => s.holder.None?
    case LockStop => s.holder.None?
    case Manager => s.holder.Some?
    case Worker(w, _) => Live(s, w)
  }

  function ManagerStep(s: State): State
    requires s.holder.Some?
  {
    match s.holder.value
    case StartTest => s.(holder := if s.isRunning then None else Some(StartFlag))
    case StartFlag => s.(isRunning := true, holder := Some(StartClear))
    case StartClear => s.(exit := false, holder := Some(StartSpawn))
    case StartSpawn => s.(workers := s.workers[s.spawned := Check], spawned := s.spawned + 1, holder := None)
    case StopTest => s.(holder := if s.isRunning then Some(StopFlag) else None)
    case StopFlag => s.(exit := true, holder := Some(StopCancel))
    case StopCancel =>
      if s.cancelCtx.None? then s.(crashed := true)
      else s.(cancelled := s.cancelled + {s.cancelCtx.value}, holder := None)
  }

  function Move(s: State, w: nat, pc: Pc): State {
    s.(workers := s.workers[w := pc])
  }

  // The round is over: its own deferred cancel is called.
  function Finish(s: State, w: nat, ctx: nat): State {
    Move(s, w, CountRead).(cancelled := s.cancelled + {ctx}, rounds := s.rounds + 1)
  }

  function WorkerStep(s: State, w: nat, unsupported: bool): State
    requires Live(s, w)
  {
    match s.workers[w]
    case Check => Move(s, w, if s.exit then Leave else Arm)
    case Arm => Move(s, w, Serve(s.contexts)).(cancelCtx := Some(s.contexts), contexts := s.contexts + 1)
    case Serve(ctx) =>
      if unsupported then Move(s, w, Refuse(ctx)) else Finish(s, w, ctx)
    case Refuse(ctx) => Finish(s, w, ctx).(exit := true)
    case CountRead => Move(s, w, CountWrite(s.hitCount))
    case CountWrite(was) => Move(s, w, Recheck).(hitCount := was + 1)
    case Recheck => Move(s, w, if s.exit then Leave else Nap)
    case Nap => Move(s, w, Check)
    case Leave => Move(s, w, Gone).(isRunning := false)
  }

  function Step(s: State, a: Action): State
    requires Enabled(s, a)
  {
    match a
    case LockStart => s.(holder := Some(StartTest))
    case LockStop => s.(holder := Some(StopTest))
    case Manager => ManagerStep(s)
    case Worker(w, unsupported) => WorkerStep(s, w, unsupported)
  }

  // A schedule is a list of actions each enabled when its turn comes.
  predicate Runs(s: State, acts: seq<Action>)
    decreases |acts|
  {
    acts == [] || (Enabled(s, acts[0]) && Runs(Step(s, acts[0]), acts[1..]))
  }

  function Exec(s: State, acts: seq<Action>): State
    requires Runs(s, acts)
    decreases |acts|
  {
    if acts == [] then s else Exec(Step(s, acts[0]), acts[1..])
  }

  // ------------------------------------------------------------------ invariant

  predicate Starting(s: State) {
    s.holder == Some(StartClear) || s.holder == Some(StartSpawn)
  }

  ghost predicate Idle(s: State) {
    forall w :: !Live(s, w)
  }

  // What a worker's position says about the shared fields.
  predicate Consistent(s: State, pc: Pc) {
    match pc
    case Serve(ctx) => s.cancelCtx == Some(ctx) && s.rounds == s.hitCount
    case Refuse(ctx) => s.cancelCtx == Some(ctx) && s.rounds == s.hitCount
    case CountRead => s.rounds == s.hitCount + 1 && Closed(s)
    case CountWrite(was) => was == s.hitCount && s.rounds == s.hitCount + 1 && Closed(s)
    case _ => s.rounds == s.hitCount && Closed(s)
  }

  // The latest context has been cancelled.
  predicate Closed(s: State) {
    s.cancelCtx.Some? ==> s.cancelCtx.value in s.cancelled
  }

  // So have all before it.
  predicate Released(s: State) {
    forall c: nat | c < s.contexts && s.cancelCtx != Some(c) :: c in s.cancelled
  }

  ghost predicate Inv(s: State) {
    (forall v, w | Live(s, v) && Live(s, w) :: v == w) &&
    (forall w | w in s.workers :: w < s.spawned) &&
    (Starting(s) || s.holder == Some(StartFlag) ==> Idle(s)) &&
    (s.holder == Some(StartFlag) ==> !s.isRunning) &&
    (Starting(s) ==> s.isRunning) &&
    (!Starting(s) ==> (s.isRunning <==> exists w :: Live(s, w))) &&
    (forall w | Live(s, w) :: Consistent(s, s.workers[w])) &&
    (Idle(s) ==> s.rounds == s.hitCount && Closed(s)) && Released(s) &&
    (s.holder == Some(StartSpawn) ==> !s.exit) &&
    (s.holder == Some(StopCancel) ==> s.exit) &&
    (s.cancelCtx.Some? <==> 0 < s.contexts) && (s.cancelCtx.Some? ==> s.cancelCtx.value < s.contexts) &&
    (s.crashed ==> s.cancelCtx.None?) &&
    (forall ctx | ctx in s.cancelled :: ctx < s.contexts)
  }

  lemma SpawnKeeps(s: State)
    requires Inv(s) && s.holder == Some(StartSpawn) && !s.crashed
    ensures Inv(ManagerStep(s))
  {
    var t := ManagerStep(s);
    assert Live(t, s.spawned);
    assert Idle(s);
    assert forall w | w != s.spawned :: Live(t, w) <==> Live(s, w);
  }

  lemma ManagerKeeps(s: State)
    requires Inv(s) && s.holder.Some? && !s.crashed
    ensures Inv(ManagerStep(s))
  {
    if s.holder.value.StartSpawn? {
      SpawnKeeps(s);
    } else {
      var t := ManagerStep(s);
      assert t.workers == s.workers;
      assert forall w :: Live(t, w) <==> Live(s, w);
    }
  }

  lemma LeaveKeeps(s: State, w: nat)
    requires Inv(s) && Live(s, w) && s.workers[w].Leave? && !s.crashed
    ensures Inv(WorkerStep(s, w, false))
  {
    var t := WorkerStep(s, w, false);
    assert forall v | v != w :: Live(t, v) <==> Live(s, v);
    assert Idle(t);
  }

  // The invariant while worker w is the live one.
  ghost predicate Sole(s: State, w: nat) {
    Live(s, w) && (forall v | v in s.workers :: v < s.spawned && (v == w || s.workers[v].Gone?)) &&
    s.isRunning && !Starting(s) && s.holder != Some(StartFlag) && Consistent(s, s.workers[w]) && Released(s) &&
    (s.holder == Some(StopCancel) ==> s.exit) &&
    (s.cancelCtx.Some? <==> 0 < s.contexts) && (s.cancelCtx.Some? ==> s.cancelCtx.value < s.contexts) &&
    !s.crashed && forall ctx | ctx in s.cancelled :: ctx < s.contexts
  }

  lemma SoleIsInv(s: State, w: nat)
    requires Live(s, w) && !s.crashed
    ensures Inv(s) <==> Sole(s, w)
  {
    if Inv(s) {
      assert forall v | v in s.workers && v != w :: !Live(s, v);
    }
  }

  // Beginning, serving and ending a round ...
  lemma RoundKeeps(s: State, w: nat, unsupported: bool)
    requires Sole(s, w) && (s.workers[w].Arm? || s.workers[w].Serve? || s.workers[w].Refuse?)
    ensures Sole(WorkerStep(s, w, unsupported), w)
  {
  }

  // ... and what lies between rounds.
  lemma BetweenKeeps(s: State, w: nat, unsupported: bool)
    requires Sole(s, w) && !s.workers[w].Arm? && !s.workers[w].Serve? && !s.workers[w].Refuse? && !s.workers[w].Leave?
    ensures Sole(WorkerStep(s, w, unsupported), w)
  {
  }

  lemma WorkerKeeps(s: State, w: nat, unsupported: bool)
    requires Inv(s) && Live(s, w) && !s.crashed
    ensures Inv(WorkerStep(s, w, unsupported))
  {
    if s.workers[w].Leave? {
      LeaveKeeps(s, w);
    } else {
      hide Inv;
      SoleIsInv(s, w);
      if s.workers[w].Arm? || s.workers[w].Serve? || s.workers[w].Refuse? {
        RoundKeeps(s, w, unsupported);
      } else {
        BetweenKeeps(s, w, unsupported);
      }
      hide WorkerStep;
      SoleIsInv(WorkerStep(s, w, unsupported), w);
    }
  }

  lemma StepKeeps(s: State, a: Action)
    requires Inv(s) && Enabled(s, a)
    ensures Inv(Step(s, a))
  {
    match a
    case LockStart => assert forall w :: Live(Step(s, a), w) <==> Live(s, w);
    case LockStop => assert forall w :: Live(Step(s, a), w) <==> Live(s, w);
    case Manager => ManagerKeeps(s);
    case Worker(w, unsupported) => WorkerKeeps(s, w, unsupported);
  }

  lemma {:induction false} RunKeeps(s: State, acts: seq<Action>)
    requires Inv(s) && Runs(s, acts)
    ensures Inv(Exec(s, acts))
    decreases |acts|
  {
    if acts != [] {
      StepKeeps(s, acts[0]);
      RunKeeps(Step(s, acts[0]), acts[1..]);
    }
  }

  // Under every interleaving: one worker at most; running exactly while it is
  // live, save while a start that has raised the flag is about to spawn it; and
  // the hit count equals the rounds finished, save inside the increment.
  lemma AlwaysOneWorker(acts: seq<Action>)
    requires Runs(INIT, acts)
    ensures var s := Exec(INIT, acts);
            (forall v, w | Live(s, v) && Live(s, w) :: v == w) &&
            (s.isRunning <==> Starting(s) || exists w :: Live(s, w)) &&
            (Starting(s) ==> Idle(s)) && (s.holder == Some(StartSpawn) ==> !s.exit) &&
            s.hitCount <= s.rounds <= s.hitCount + 1 &&
            (s.rounds == s.hitCount + 1 <==>
               exists w :: Live(s, w) && (s.workers[w].CountRead? || s.workers[w].CountWrite?))
  {
    RunKeeps(INIT, acts);
    var s := Exec(INIT, acts);
    hide Exec, Runs;
    if exists w :: Live(s, w) {
      var w :| Live(s, w);
      assert Consistent(s, s.workers[w]);
    } else {
      assert Idle(s);
    }
  }

  // ------------------------------------------------------------------ after Stop

  // A worker told to exit while it is live, and past the point of beginning a
  // round, serves nothing but contexts already cancelled.
  predicate Doomed(s: State, w: nat) {
    s.exit && Live(s, w) && !s.workers[w].Arm? &&
    (s.workers[w].Serve? ==> s.workers[w].ctx in s.cancelled)
  }

  // Once set under a live worker, exit stays set until that worker is gone.
  lemma ExitSticks(s: State, a: Action, w: nat)
    requires Inv(s) && Enabled(s, a) && s.exit && Live(s, w)
    ensures var t := Step(s, a); t.exit || !Live(t, w)
    ensures Doomed(s, w) ==> var t := Step(s, a); Doomed(t, w) || !Live(t, w)
  {
  }

  lemma GoneStays(s: State, a: Action, w: nat)
    requires Inv(s) && Enabled(s, a) && w in s.workers && !Live(s, w)
    ensures w in Step(s, a).workers && !Live(Step(s, a), w)
  {
  }

  lemma {:induction false} GoneForGood(s: State, acts: seq<Action>, w: nat)
    requires Inv(s) && Runs(s, acts) && w in s.workers && !Live(s, w)
    ensures !Live(Exec(s, acts), w) && Begun(s, acts, w) == 0 == OwnSteps(s, acts, w)
    ensures w in Exec(s, acts).workers
    decreases |acts|
  {
    if acts != [] {
      hide Inv, Step;
      StepKeeps(s, acts[0]);
      GoneStays(s, acts[0], w);
      GoneForGood(Step(s, acts[0]), acts[1..], w);
    }
  }

  // The rounds worker w begins in the schedule.
  function Begun(s: State, acts: seq<Action>, w: nat): nat
    requires Runs(s, acts)
    decreases |acts|
  {
    if acts == [] then 0
    else
      (if acts[0].Worker? && acts[0].id == w && s.workers[w].Arm? then 1 else 0) +
      Begun(Step(s, acts[0]), acts[1..], w)
  }

  // The steps worker w takes in the schedule.
  function OwnSteps(s: State, acts: seq<Action>, w: nat): nat
    requires Runs(s, acts)
    decreases |acts|
  {
    if acts == [] then 0
    else (if acts[0].Worker? && acts[0].id == w then 1 else 0) + OwnSteps(Step(s, acts[0]), acts[1..], w)
  }

  // The steps a worker that must exit has left.
  function Left(pc: Pc): nat {
    match pc
    case Arm => 7
    case Serve(_) => 6
    case Refuse(_) => 5
    case CountRead => 4
    case CountWrite(_) => 3
    case Nap => 3
    case Recheck => 2
    case Check => 2
    case Leave => 1
    case Gone => 0
  }

  lemma LeftShrinks(s: State, a: Action, w: nat)
    requires Inv(s) && Enabled(s, a) && s.exit && Live(s, w)
    ensures var t := Step(s, a);
            w in t.workers &&
            (if a.Worker? && a.id == w then Left(t.workers[w]) < Left(s.workers[w])
             else t.workers[w] == s.workers[w]) &&
            (t.workers[w].Arm? ==> s.workers[w].Arm? && !(a.Worker? && a.id == w))
  {
  }

  // After exit is set, whatever runs in between: the worker keeps seeing it, it
  // begins no round unless it had already passed its check, and each of its own
  // steps is one fewer of the seven at most it has left before it is gone.
  lemma {:induction false} StopHolds(s: State, acts: seq<Action>, w: nat)
    requires Inv(s) && Runs(s, acts) && s.exit && Live(s, w)
    ensures Live(Exec(s, acts), w) ==> Exec(s, acts).exit
    ensures Begun(s, acts, w) <= if s.workers[w].Arm? then 1 else 0
    ensures w in Exec(s, acts).workers
    ensures OwnSteps(s, acts, w) + Left(Exec(s, acts).workers[w]) <= Left(s.workers[w])
    decreases |acts|
  {
    if acts != [] {
      hide Inv, Step, Left;
      var t := Step(s, acts[0]);
      StepKeeps(s, acts[0]);
      ExitSticks(s, acts[0], w);
      LeftShrinks(s, acts[0], w);
      if Live(t, w) {
        StopHolds(t, acts[1..], w);
      } else {
        GoneForGood(t, acts[1..], w);
      }
    }
  }

  lemma {:induction false} DoomedStays(s: State, acts: seq<Action>, w: nat)
    requires Inv(s) && Runs(s, acts) && Doomed(s, w)
    ensures Live(Exec(s, acts), w) ==> Doomed(Exec(s, acts), w)
    decreases |acts|
  {
    if acts != [] {
      hide Inv, Step, Doomed;
      var t := Step(s, acts[0]);
      StepKeeps(s, acts[0]);
      DoomedLives(s, w);
      ExitSticks(s, acts[0], w);
      if Live(t, w) {
        DoomedStays(t, acts[1..], w);
      } else {
        LeftShrinks(s, acts[0], w);
        GoneForGood(t, acts[1..], w);
      }
    }
  }

  lemma DoomedLives(s: State, w: nat)
    requires Doomed(s, w)
    ensures s.exit && Live(s, w)
  {
  }

  // At the end of the schedule the worker is not serving an uncancelled context.
  predicate ServesCancelled(s: State, acts: seq<Action>, w: nat)
    requires Runs(s, acts)
  {
    var e := Exec(s, acts);
    Live(e, w) && e.workers[w].Serve? ==> e.workers[w].ctx in e.cancelled
  }

  // Stop's cancel reaches the worker exactly when the worker is not between its
  // exit check and the setting of its next cancel function: otherwise every
  // context it serves from then on is cancelled, and in that gap the round it is
  // about to begin runs under a context nobody has cancelled.
  lemma StopReachesWorker(s: State, w: nat)
    requires Inv(s) && s.holder == Some(StopCancel) && s.cancelCtx.Some? && !s.crashed && Live(s, w)
    ensures (forall acts | Runs(Step(s, Manager), acts) :: ServesCancelled(Step(s, Manager), acts, w))
            <==> !s.workers[w].Arm?
  {
    var t := Step(s, Manager);
    StepKeeps(s, Manager);
    if s.workers[w].Arm? {
      var acts := [Worker(w, false)];
      var e := Step(t, Worker(w, false));
      assert acts[1..] == [] && Runs(e, acts[1..]);
      assert Runs(t, acts) && Exec(t, acts) == e;
      assert e.workers[w] == Serve(s.contexts) && s.contexts !in e.cancelled;
      assert !ServesCancelled(t, acts, w);
    } else {
      assert Doomed(t, w) by { assert Consistent(s, s.workers[w]); }
      forall acts | Runs(t, acts) ensures ServesCancelled(t, acts, w) {
        DoomedStays(t, acts, w);
      }
    }
  }

  // Stop calls a nil cancel function exactly when no round has ever been begun ...
  lemma StopCrashes(acts: seq<Action>)
    requires Runs(INIT, acts) && Exec(INIT, acts).holder == Some(StopCancel) && !Exec(INIT, acts).crashed
    ensures Step(Exec(INIT, acts), Manager).crashed <==> Exec(INIT, acts).contexts == 0
  {
    RunKeeps(INIT, acts);
  }

  // ------------------------------------------------------- unsupported tracers, and starts

  lemma OthersLeaveIt(s: State, a: Action, w: nat)
    requires Inv(s) && Enabled(s, a) && Live(s, w) && !(a.Worker? && a.id == w)
    ensures Live(Step(s, a), w) && Step(s, a).workers[w] == s.workers[w]
  {
  }

  // A worker whose tracer has turned out to be unsupported begins no other round,
  // whatever runs in between, and is gone after five of its own steps.
  lemma {:induction false} RefusedLeaves(s: State, acts: seq<Action>, w: nat)
    requires Inv(s) && Runs(s, acts) && Live(s, w) && s.workers[w].Refuse?
    ensures Begun(s, acts, w) == 0 && OwnSteps(s, acts, w) <= 5
    ensures OwnSteps(s, acts, w) == 5 ==> !Live(Exec(s, acts), w)
    decreases |acts|
  {
    if acts != [] {
      StepKeeps(s, acts[0]);
      var t := Step(s, acts[0]);
      if acts[0].Worker? && acts[0].id == w {
        assert t.exit && Live(t, w) && t.workers[w] == CountRead;
        hide Inv, Step;
        StopHolds(t, acts[1..], w);
      } else {
        hide Inv, Step;
        OthersLeaveIt(s, acts[0], w);
        RefusedLeaves(t, acts[1..], w);
      }
    }
  }

  // That is where a round that ends with an unsupported tracer leads.
  lemma UnsupportedLeaves(s: State, acts: seq<Action>, w: nat)
    requires Inv(s) && Live(s, w) && s.workers[w].Serve? && Enabled(s, Worker(w, true))
    requires Runs(Step(s, Worker(w, true)), acts)
    ensures var t := Step(s, Worker(w, true));
            Begun(t, acts, w) == 0 && OwnSteps(t, acts, w) <= 5 &&
            (OwnSteps(t, acts, w) == 5 ==> !Live(Exec(t, acts), w))
  {
    StepKeeps(s, Worker(w, true));
    RefusedLeaves(Step(s, Worker(w, true)), acts, w);
  }

  // No step of the schedule is that of a stop setting the exit flag.
  predicate NoStop(s: State, acts: seq<Action>)
    requires Runs(s, acts)
    decreases |acts|
  {
    acts == [] ||
    (!(acts[0].Manager? && s.holder == Some(StopFlag)) && NoStop(Step(s, acts[0]), acts[1..]))
  }

  lemma StaysClear(s: State, a: Action, w: nat)
    requires Inv(s) && Enabled(s, a) && Live(s, w) && !(a.Worker? && a.id == w) && !s.exit
    requires !(a.Manager? && s.holder == Some(StopFlag))
    ensures !Step(s, a).exit
  {
  }

  lemma {:induction false} StandsStill(s: State, acts: seq<Action>, w: nat)
    requires Inv(s) && Runs(s, acts) && Live(s, w) && OwnSteps(s, acts, w) == 0
    ensures Live(Exec(s, acts), w) && Exec(s, acts).workers[w] == s.workers[w]
    decreases |acts|
  {
    if acts != [] {
      hide Inv, Step;
      StepKeeps(s, acts[0]);
      OthersLeaveIt(s, acts[0], w);
      StandsStill(Step(s, acts[0]), acts[1..], w);
    }
  }

  lemma {:induction false} CheckPasses(s: State, acts: seq<Action>, w: nat)
    requires Inv(s) && Runs(s, acts) && Live(s, w) && s.workers[w].Check? && !s.exit
    requires NoStop(s, acts) && OwnSteps(s, acts, w) == 1
    ensures w in Exec(s, acts).workers && Exec(s, acts).workers[w].Arm?
    decreases |acts|
  {
    StepKeeps(s, acts[0]);
    var t := Step(s, acts[0]);
    if acts[0].Worker? && acts[0].id == w {
      assert Live(t, w) && t.workers[w] == Arm;
      hide Inv, Step;
      StandsStill(t, acts[1..], w);
    } else {
      hide Inv, Step;
      OthersLeaveIt(s, acts[0], w);
      StaysClear(s, acts[0], w);
      CheckPasses(t, acts[1..], w);
    }
  }

  // A worker that a start launches, the tracer's first or a later one, goes on to
  // a round at its first check, unless a stop has set the exit flag before.
  lemma StartBegins(s: State, acts: seq<Action>)
    requires Inv(s) && s.holder == Some(StartSpawn) && !s.crashed && Runs(Step(s, Manager), acts)
    requires var t := Step(s, Manager); NoStop(t, acts) && OwnSteps(t, acts, s.spawned) == 1
    ensures var end := Exec(Step(s, Manager), acts); s.spawned in end.workers && end.workers[s.spawned].Arm?
  {
    StepKeeps(s, Manager);
    CheckPasses(Step(s, Manager), acts, s.spawned);
  }

  // A start is refused exactly when a worker is live, and a stop exactly when none
  // is; a refused call changes nothing.
  lemma CallsRefused(s: State)
    requires Inv(s) && !s.crashed && (s.holder == Some(StartTest) || s.holder == Some(StopTest))
    ensures var refused := Step(s, Manager).holder.None?;
            (refused <==> (s.holder == Some(StartTest) <==> !Idle(s))) &&
            (refused ==> Step(s, Manager) == s.(holder := None))
  {
  }

  // Under every interleaving, every context made has been cancelled, save that of
  // a round under way.
  lemma ContextsReleased(acts: seq<Action>, c: nat)
    requires Runs(INIT, acts) && c < Exec(INIT, acts).contexts
    ensures var s := Exec(INIT, acts);
            c in s.cancelled || exists w :: Live(s, w) && (s.workers[w] == Serve(c) || s.workers[w] == Refuse(c))
  {
    RunKeeps(INIT, acts);
    var s := Exec(INIT, acts);
    hide Exec, Runs;
    if !Idle(s) {
      var w :| Live(s, w);
      assert Consistent(s, s.workers[w]);
    }
  }

  // ------------------------------------------------------------ schedules that fail

  const START := [LockStart, Manager, Manager, Manager, Manager]
  const STOP := [LockStop, Manager, Manager]

  // A whole round, the wait after it, and the check before the next one.
  const ROUND := seq(8, _ => Worker(0, false))

  // A tracer just started.
  const STARTED := INIT.(isRunning := true, workers := map[0 := Check], spawned := 1)

  // The same one round later, past the check before its next one.
  const AROUND := STARTED.(hitCount := 1, cancelCtx := Some(0), contexts := 1, cancelled := {0},
                           workers := map[0 := Arm], rounds := 1)

  lemma RunsMore(s: State, a: Action, rest: seq<Action>)
    requires Enabled(s, a) && Runs(Step(s, a), rest)
    ensures Runs(s, [a] + rest) && Exec(s, [a] + rest) == Exec(Step(s, a), rest)
  {
    assert ([a] + rest)[1..] == rest;
  }

  lemma RunsOne(s: State, a: Action)
    requires Enabled(s, a)
    ensures Runs(s, [a]) && Exec(s, [a]) == Step(s, a)
  {
    RunsMore(s, a, []);
  }

  lemma {:induction false} RunsThen(s: State, first: seq<Action>, rest: seq<Action>)
    requires Runs(s, first) && Runs(Exec(s, first), rest)
    ensures Runs(s, first + rest) && Exec(s, first + rest) == Exec(Exec(s, first), rest)
    decreases |first|
  {
    if first == [] {
      assert first + rest == rest;
    } else {
      hide Step;
      RunsThen(Step(s, first[0]), first[1..], rest);
      assert first + rest == [first[0]] + (first[1..] + rest);
      RunsMore(s, first[0], first[1..] + rest);
    }
  }

  lemma StartRuns()
    ensures Runs(INIT, START) && Exec(INIT, START) == STARTED
  {
    var s1 := INIT.(holder := Some(StartTest));
    var s2 := s1.(holder := Some(StartFlag));
    var s3 := s2.(isRunning := true, holder := Some(StartClear));
    var s4 := s3.(holder := Some(StartSpawn));
    assert Step(INIT, LockStart) == s1 && Step(s1, Manager) == s2 && Step(s2, Manager) == s3;
    assert Step(s3, Manager) == s4 && Step(s4, Manager) == STARTED;
    hide Step;
    RunsMore(s4, Manager, []);
    RunsMore(s3, Manager, [Manager]);
    RunsMore(s2, Manager, [Manager, Manager]);
    RunsMore(s1, Manager, [Manager, Manager, Manager]);
    RunsMore(INIT, LockStart, [Manager, Manager, Manager, Manager]);
  }

  lemma StopRuns(s: State)
    requires !s.crashed && s.holder.None? && s.isRunning
    ensures Runs(s, STOP) && Exec(s, STOP) == s.(exit := true, holder := Some(StopCancel))
  {
    var s1 := s.(holder := Some(StopTest));
    var s2 := s1.(holder := Some(StopFlag));
    RunsMore(s2, Manager, []);
    RunsMore(s1, Manager, [Manager]);
    RunsMore(s, LockStop, [Manager, Manager]);
  }

  // Half a round: the worker has read the hit count it is about to raise.
  const SERVED := STARTED.(cancelCtx := Some(0), contexts := 1, cancelled := {0},
                           workers := map[0 := CountWrite(0)], rounds := 1)

  lemma ServeRuns(a: Action)
    requires a == Worker(0, false)
    ensures Runs(STARTED, [a, a, a, a]) && Exec(STARTED, [a, a, a, a]) == SERVED
  {
    var s1 := Move(STARTED, 0, Arm);
    var s2 := Move(STARTED, 0, Serve(0)).(cancelCtx := Some(0), contexts := 1);
    var s3 := Move(s2, 0, CountRead).(cancelled := {0}, rounds := 1);
    assert Step(STARTED, a) == s1 && Step(s1, a) == s2 && Step(s2, a) == s3 && Step(s3, a) == SERVED;
    hide Step, Exec, Runs;
    RunsOne(s3, a);
    RunsMore(s2, a, [a]);
    RunsMore(s1, a, [a, a]);
    RunsMore(STARTED, a, [a, a, a]);
  }

  lemma CountRuns(a: Action)
    requires a == Worker(0, false)
    ensures Runs(SERVED, [a, a, a, a]) && Exec(SERVED, [a, a, a, a]) == AROUND
  {
    var s1 := Move(SERVED, 0, Recheck).(hitCount := 1);
    var s2 := Move(s1, 0, Nap);
    var s3 := Move(s2, 0, Check);
    assert Step(SERVED, a) == s1 && Step(s1, a) == s2 && Step(s2, a) == s3 && Step(s3, a) == AROUND;
    hide Step, Exec, Runs;
    RunsOne(s3, a);
    RunsMore(s2, a, [a]);
    RunsMore(s1, a, [a, a]);
    RunsMore(SERVED, a, [a, a, a]);
  }

  lemma RoundRuns()
    ensures Runs(STARTED, ROUND) && Exec(STARTED, ROUND) == AROUND
  {
    hide Exec, Runs;
    var a := Worker(0, false);
    ServeRuns(a);
    CountRuns(a);
    RunsThen(STARTED, [a, a, a, a], [a, a, a, a]);
    assert ROUND == [a, a, a, a] + [a, a, a, a];
  }

  // The crash can happen: start, then stop before the worker gets to run.
  lemma EarlyStopCrashes()
    ensures var acts := START + (STOP + [Manager]);
            Runs(INIT, acts) && Exec(INIT, acts).crashed
  {
    hide Exec, Runs;
    StartRuns();
    StopRuns(STARTED);
    var s := STARTED.(exit := true, holder := Some(StopCancel));
    RunsOne(s, Manager);
    RunsThen(STARTED, STOP, [Manager]);
    RunsThen(INIT, START, STOP + [Manager]);
  }

  // And so can the lost cancel: stop a worker that has served a round and passed
  // the check before its next one. The cancel is called, on the context of the
  // round before, and the worker goes on to serve a new one.
  lemma LateStopMisses()
    ensures var acts := START + (ROUND + STOP);
            Runs(INIT, acts) &&
            var s := Exec(INIT, acts);
            s.holder == Some(StopCancel) && s.cancelCtx.Some? && !s.crashed &&
            Live(s, 0) && s.workers[0].Arm? &&
            Runs(Step(s, Manager), [Worker(0, false)]) &&
            !ServesCancelled(Step(s, Manager), [Worker(0, false)], 0)
  {
    hide Exec, Runs;
    StartRuns();
    RoundRuns();
    StopRuns(AROUND);
    RunsThen(STARTED, ROUND, STOP);
    RunsThen(INIT, START, ROUND + STOP);
    var s := AROUND.(exit := true, holder := Some(StopCancel));
    var t := s.(holder := None);
    assert Step(s, Manager) == t;
    RunsOne(t, Worker(0, false));
  }
}
