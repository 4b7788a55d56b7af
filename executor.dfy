/**
 * The use-case interpreter (internal/executor/executor.go): ExecuteUseCase
 * checks a use case's trigger, runs its steps and puts it on cooldown;
 * runStep runs one step, part after part (click, action, wait, if,
 * long tap, push), and reports whether it asks its caller to stop.
 *
 * The device, the area lookup, the trigger evaluator, the analyzer, the
 * state-field setter and the use-case loader are not part of this model;
 * they are the oracles of an `ExecEnv`. The context is a count of the polls
 * that still find it live: the poll after the last of them finds it
 * cancelled. Every loop iteration, every step and every wait polls it, so
 * each run ends. Tracing, logging and metrics are left out.
 */
module Executor {
  import opened Wrappers
  import opened Cel
  import opened UseCases
  import opened Gamers
  import opened RedisQueue
  import Navigator
  import Preloader

  type Action = Navigator.Action

  /**
   * The interpreter's collaborators: the region names the area lookup
   * knows, whether the device fails an action after a given history, the
   * trigger evaluator, SetStateFieldByPath, the analyzer's reading of the
   * screen after a history, the loader's GetByName, and which Redis round
   * trips fail.
   */
  datatype ExecEnv = ExecEnv(
    regions: set<string>,
    deviceFails: (seq<Action>, Action) -> bool,
    eval: (string, GamerRecord) -> Result<bool>,
    setField: (GamerRecord, string, Val) -> Result<GamerRecord>,
    analyze: (seq<Action>, GamerRecord, seq<AnalyzeRule>) -> Result<GamerRecord>,
    byName: string -> UseCase,
    fails: nat -> bool)

  /** The queue the executor was built with: its gamer's key and the encoding Push uses. */
  datatype Sink = Sink(gamerID: int, codec: Codec)

  /** What a run reads and writes: the gamer, the live polls left, the device history, the server. */
  datatype ExecState = ExecState(rec: GamerRecord, budget: nat, actions: seq<Action>, store: Store)

  /** runStep's answer, whether to stop, and the state after it. */
  datatype StepRun = StepRun(stop: bool, st: ExecState)

  /** How a loop ends: its context was cancelled, a nested step stopped, or its trigger let it go. */
  datatype LoopEnd = Cancelled | Stopped | Exited

  datatype LoopRun = LoopRun(end: LoopEnd, st: ExecState)

  /** A device action the interpreter may issue: a click or a long tap only on a region the lookup knows. */
  predicate Permitted(env: ExecEnv, a: Action) {
    (a.Click? || a.LongTap?) ==> a.region in env.regions
  }

  /**
   * What every run keeps: polls are only used up, the device history only
   * grows, by permitted actions, the cooldowns and the clock stay, and no
   * queue but the executor's own changes (none at all without one).
   */
  ghost predicate Advances(env: ExecEnv, q: Option<Sink>, st: ExecState, r: ExecState) {
    r.budget <= st.budget &&
    |st.actions| <= |r.actions| && r.actions[..|st.actions|] == st.actions &&
    (forall k :: |st.actions| <= k < |r.actions| ==> Permitted(env, r.actions[k])) &&
    r.store.cooldowns == st.store.cooldowns && r.store.now == st.store.now &&
    (q.None? ==> r.store == st.store) &&
    (q.Some? ==> forall id :: id != q.value.gamerID ==> Get(r.store.zsets, id) == Get(st.store.zsets, id))
  }

  lemma AdvancesTrans(env: ExecEnv, q: Option<Sink>, a: ExecState, b: ExecState, c: ExecState)
    requires Advances(env, q, a, b) && Advances(env, q, b, c)
    ensures Advances(env, q, a, c)
  {
    assert c.actions[..|a.actions|] == c.actions[..|b.actions|][..|a.actions|];
    forall k | |a.actions| <= k < |c.actions|
      ensures Permitted(env, c.actions[k])
    {
      if k < |b.actions| {
        assert c.actions[k] == c.actions[..|b.actions|][k];
      }
    }
  }

  /** Appending one permitted action, then advancing, advances. */
  lemma AdvancesAfterAction(env: ExecEnv, q: Option<Sink>, st: ExecState, a: Action, r: ExecState)
    requires Permitted(env, a) && Advances(env, q, st.(actions := st.actions + [a]), r)
    ensures Advances(env, q, st, r)
  {
    var mid := st.(actions := st.actions + [a]);
    assert mid.actions[..|st.actions|] == st.actions;
    AdvancesTrans(env, q, st, mid, r);
  }

  // ---------------------------------------------------------------------
  // The interpreter, as functions of the state
  // ---------------------------------------------------------------------

  /** GetByName of every listed use case, in order. */
  function Originals(env: ExecEnv, list: seq<UseCase>): (r: seq<UseCase>)
    ensures |r| == |list| && forall i :: 0 <= i < |list| ==> r[i] == env.byName(list[i].name)
  {
    if list == [] then [] else [env.byName(list[0].name)] + Originals(env, list[1..])
  }

  /** Whether a push directive fires: no trigger, or one that evaluates to true. */
  predicate Fires(env: ExecEnv, p: PushUsecase, rec: GamerRecord) {
    p.trigger == "" || env.eval(p.trigger, rec) == Ok(true)
  }

  /** The use cases a step's push directives enqueue, directive by directive. */
  function Triggered(env: ExecEnv, pushes: seq<PushUsecase>, rec: GamerRecord): seq<UseCase> {
    if pushes == [] then []
    else (if Fires(env, pushes[0], rec) then Originals(env, pushes[0].list) else []) + Triggered(env, pushes[1..], rec)
  }

  /** runStep. */
  function Interp(env: ExecEnv, q: Option<Sink>, step: Step, st: ExecState): (r: StepRun)
    ensures Advances(env, q, st, r.st)
    decreases st.budget, 0, 0
  {
    if st.budget == 0 then StepRun(true, st)
    else
      var st1 := st.(budget := st.budget - 1);
      if step.click == "" then InterpAction(env, q, step, st1)
      else if step.click !in env.regions || env.deviceFails(st1.actions, Navigator.Click(step.click)) then StepRun(true, st1)
      else
        var r := InterpAction(env, q, step, st1.(actions := st1.actions + [Navigator.Click(step.click)]));
        AdvancesAfterAction(env, q, st1, Navigator.Click(step.click), r.st);
        r
  }

  /** The action part of runStep, then the rest. */
  function InterpAction(env: ExecEnv, q: Option<Sink>, step: Step, st: ExecState): (r: StepRun)
    ensures Advances(env, q, st, r.st)
    decreases st.budget, 4, 0
  {
    if step.action == "reset" then
      if step.setPath == "" then StepRun(false, st)
      else
        var written := env.setField(st.rec, step.setPath, step.to);
        InterpWait(env, q, step, if written.Ok? then st.(rec := written.value) else st)
    else if step.action == "loop" then
      if step.trigger == "" then StepRun(false, st)
      else
        var l := InterpLoop(env, q, step, st);
        if l.end == Cancelled then StepRun(true, l.st)
        else if l.end == Stopped then StepRun(false, l.st)
        else
          var r := InterpWait(env, q, step, l.st);
          AdvancesTrans(env, q, st, l.st, r.st);
          r
    else if step.action == "loop_stop" then StepRun(true, st)
    else if step.action == "screenshot" && |step.analyze| > 0 then
      var a := env.analyze(st.actions, st.rec, step.analyze);
      InterpWait(env, q, step, if a.Ok? then st.(rec := a.value) else st)
    else InterpWait(env, q, step, st)
  }

  /** A loop action: poll, check the trigger, run the body, again. */
  function InterpLoop(env: ExecEnv, q: Option<Sink>, step: Step, st: ExecState): (r: LoopRun)
    ensures Advances(env, q, st, r.st)
    decreases st.budget, 1, 0
  {
    if st.budget == 0 then LoopRun(Cancelled, st)
    else
      var st1 := st.(budget := st.budget - 1);
      var go := env.eval(step.trigger, st1.rec);
      if go.Err? || !go.value then LoopRun(Exited, st1)
      else
        var b := InterpSeq(env, q, step.steps, st1);
        if b.stop then LoopRun(Stopped, b.st)
        else
          var r := InterpLoop(env, q, step, b.st);
          AdvancesTrans(env, q, st1, b.st, r.st);
          r
  }

  /** Nested steps in order, up to the first that stops; whether one did. */
  function InterpSeq(env: ExecEnv, q: Option<Sink>, steps: seq<Step>, st: ExecState): (r: StepRun)
    ensures Advances(env, q, st, r.st)
    decreases st.budget, 1, |steps|
  {
    if steps == [] then StepRun(false, st)
    else
      var h := Interp(env, q, steps[0], st);
      if h.stop then StepRun(true, h.st)
      else
        var t := InterpSeq(env, q, steps[1..], h.st);
        AdvancesTrans(env, q, st, h.st, t.st);
        t
  }

  /** The wait part: a positive wait polls the context. */
  function InterpWait(env: ExecEnv, q: Option<Sink>, step: Step, st: ExecState): (r: StepRun)
    ensures Advances(env, q, st, r.st)
    decreases st.budget, 3, 0
  {
    if step.wait > 0 then
      if st.budget == 0 then StepRun(true, st)
      else InterpIf(env, q, step, st.(budget := st.budget - 1))
    else InterpIf(env, q, step, st)
  }

  /** The if part: a failed condition ends the step; a stop in the branch taken is passed on. */
  function InterpIf(env: ExecEnv, q: Option<Sink>, step: Step, st: ExecState): (r: StepRun)
    ensures Advances(env, q, st, r.st)
    decreases st.budget, 2, 0
  {
    if step.ifStep.None? then InterpTail(env, q, step, st)
    else
      var cond := env.eval(step.ifStep.value.trigger, st.rec);
      if cond.Err? then StepRun(false, st)
      else if cond.value || |step.ifStep.value.elseSteps| > 0 then
        var branch := if cond.value then step.ifStep.value.thenSteps else step.ifStep.value.elseSteps;
        var b := InterpSeq(env, q, branch, st);
        if b.stop then StepRun(true, b.st)
        else
          var r := InterpTail(env, q, step, b.st);
          AdvancesTrans(env, q, st, b.st, r.st);
          r
      else InterpTail(env, q, step, st)
  }

  /** The long-tap part, held for the step's wait, then the push part, which needs the executor's queue. */
  function InterpTail(env: ExecEnv, q: Option<Sink>, step: Step, st: ExecState): (r: StepRun)
    ensures Advances(env, q, st, r.st)
  {
    var tap := Navigator.LongTap(step.longtap, step.wait);
    if step.longtap != "" && (step.longtap !in env.regions || env.deviceFails(st.actions, tap)) then StepRun(true, st)
    else
      var st1 := if step.longtap != "" then st.(actions := st.actions + [tap]) else st;
      assert Advances(env, q, st, st1) by {
        assert st1.actions[..|st.actions|] == st.actions;
      }
      if |step.pushUsecase| > 0 && q.Some? then
        var us := Triggered(env, step.pushUsecase, st1.rec);
        var store := Preloader.Fill(env.fails, q.value.codec, st1.store, q.value.gamerID, us);
        Preloader.FillOnlyAdds(env.fails, q.value.codec, st1.store, q.value.gamerID, us);
        AdvancesTrans(env, q, st, st1, st1.(store := store));
        StepRun(false, st1.(store := store))
      else StepRun(false, st1)
  }

  /** The top-level steps of a use case, each run whatever the one before answered. */
  function InterpAll(env: ExecEnv, q: Option<Sink>, steps: seq<Step>, st: ExecState): (r: ExecState)
    ensures Advances(env, q, st, r)
    decreases |steps|
  {
    if steps == [] then st
    else
      var h := Interp(env, q, steps[0], st);
      var r := InterpAll(env, q, steps[1..], h.st);
      AdvancesTrans(env, q, st, h.st, r);
      r
  }

  /** Whether ExecuteUseCase gets past the use case's own trigger. */
  predicate Admitted(env: ExecEnv, uc: UseCase, rec: GamerRecord) {
    uc.trigger == "" || env.eval(uc.trigger, rec) == Ok(true)
  }

  /**
   * ExecuteUseCase: the trigger, every step, then, for a use case with a
   * TTL and a given queue, the cooldown under the gamer's ID as it is after the steps.
   */
  function Execution(env: ExecEnv, q: Option<Sink>, queueGiven: bool, uc: UseCase, st: ExecState): (r: ExecState)
    ensures r.budget <= st.budget && r.store.now == st.store.now
  {
    if !Admitted(env, uc, st.rec) then st
    else
      var st1 := InterpAll(env, q, uc.steps, st);
      if uc.ttl > 0 && queueGiven then st1.(store := SetLastExecutedS(env.fails, st1.store, st1.rec.id, uc.name, uc.ttl))
      else st1
  }

  // ---------------------------------------------------------------------
  // The interpreter on the objects
  // ---------------------------------------------------------------------

  /** A context.Context as the interpreter sees it: each poll uses up one live answer. */
  class Context {
    var live: nat

    constructor (live: nat)
      ensures this.live == live
    {
      this.live := live;
    }

    /** Whether ctx.Done() is closed. */
    method Done() returns (done: bool)
      modifies this
      ensures done <==> old(live) == 0
      ensures live == if done then old(live) else old(live) - 1
    {
      done := live == 0;
      if !done {
        live := live - 1;
      }
    }
  }

  class UseCaseExecutor {
    const env: ExecEnv
    const rdb: Redis
    const queue: Queue?
    var actions: seq<Action>

    /** The queue lives on the server the executor talks to, whose failures the environment names. */
    ghost predicate Valid() {
      env.fails == rdb.fails && (queue != null ==> queue.rdb == rdb)
    }

    function Q(): Option<Sink> {
      if queue == null then None else Some(Sink(queue.gamerID, queue.codec))
    }

    function Snap(ctx: Context, gamer: Gamer): ExecState
      reads this, ctx, gamer, gamer.screenState, rdb
    {
      ExecState(gamer.Record(), ctx.live, actions, rdb.State())
    }

    /** NewUseCaseExecutor. */
    constructor (env: ExecEnv, rdb: Redis, queue: Queue?)
      requires env.fails == rdb.fails && (queue != null ==> queue.rdb == rdb)
      ensures Valid() && this.env == env && this.rdb == rdb && this.queue == queue && actions == []
    {
      this.env, this.rdb, this.queue := env, rdb, queue;
      actions := [];
    }

    /** ExecuteUseCase. */
    method ExecuteUseCase(ctx: Context, uc: UseCase, gamer: Gamer, queue: Queue?)
      requires Valid() && (queue != null ==> queue.rdb == rdb)
      modifies this, ctx, gamer, gamer.screenState, rdb
      ensures Snap(ctx, gamer) == Execution(env, Q(), queue != null, uc, old(Snap(ctx, gamer)))
    {
      if uc.trigger != "" {
        var ok := env.eval(uc.trigger, gamer.Record());
        if ok.Err? {
          return;
        }
        if !ok.value {
          return;
        }
      }
      ghost var done := InterpAll(env, Q(), uc.steps, Snap(ctx, gamer));
      for i := 0 to |uc.steps|
        invariant InterpAll(env, Q(), uc.steps[i..], Snap(ctx, gamer)) == done
      {
        assert uc.steps[i..][1..] == uc.steps[i + 1..];
        var _ := RunStep(ctx, uc.steps[i], gamer);
      }
      assert uc.steps[|uc.steps|..] == [];
      if uc.ttl > 0 && queue != null {
        var _ := queue.SetLastExecuted(gamer.id, uc.name, uc.ttl);
      }
    }

    /** runStep: poll, then the click part, then the rest. */
    method RunStep(ctx: Context, step: Step, gamer: Gamer) returns (stop: bool)
      requires Valid()
      modifies this, ctx, gamer, gamer.screenState, rdb
      ensures StepRun(stop, Snap(ctx, gamer)) == Interp(env, Q(), step, old(Snap(ctx, gamer)))
      decreases ctx.live, 0, 0
    {
      var done := ctx.Done();
      if done {
        return true;
      }
      if step.click != "" {
        if step.click !in env.regions {
          return true;
        }
        if env.deviceFails(actions, Navigator.Click(step.click)) {
          return true;
        }
        actions := actions + [Navigator.Click(step.click)];
      }
      stop := RunAction(ctx, step, gamer);
    }

    /** The action part. */
    method RunAction(ctx: Context, step: Step, gamer: Gamer) returns (stop: bool)
      requires Valid()
      modifies this, ctx, gamer, gamer.screenState, rdb
      ensures StepRun(stop, Snap(ctx, gamer)) == InterpAction(env, Q(), step, old(Snap(ctx, gamer)))
      decreases ctx.live, 4, 0
    {
      if step.action == "reset" {
        if step.setPath == "" {
          return false;
        }
        var written := env.setField(gamer.Record(), step.setPath, step.to);
        if written.Ok? {
          gamer.Assign(written.value);
        }
      } else if step.action == "loop" {
        if step.trigger == "" {
          return false;
        }
        var end := RunLoop(ctx, step, gamer);
        if end == Cancelled {
          return true;
        }
        if end == Stopped {
          return false;
        }
      } else if step.action == "loop_stop" {
        return true;
      } else if step.action == "screenshot" {
        if |step.analyze| > 0 {
          var newState := env.analyze(actions, gamer.Record(), step.analyze);
          if newState.Ok? {
            gamer.Assign(newState.value);
          }
        }
      }
      stop := RunWait(ctx, step, gamer);
    }

    /** The loop action. */
    method RunLoop(ctx: Context, step: Step, gamer: Gamer) returns (end: LoopEnd)
      requires Valid()
      modifies this, ctx, gamer, gamer.screenState, rdb
      ensures LoopRun(end, Snap(ctx, gamer)) == InterpLoop(env, Q(), step, old(Snap(ctx, gamer)))
      decreases ctx.live, 1, 0
    {
      ghost var final := InterpLoop(env, Q(), step, Snap(ctx, gamer));
      ghost var start := ctx.live;
      while true
        invariant ctx.live <= start
        invariant InterpLoop(env, Q(), step, Snap(ctx, gamer)) == final
        decreases ctx.live
      {
        var round := LoopRound(ctx, step, gamer);
        if round.Some? {
          return round.value;
        }
      }
    }

    /** One round of the loop action: the cancellation check, the trigger, then the body. */
    method LoopRound(ctx: Context, step: Step, gamer: Gamer) returns (end: Option<LoopEnd>)
      requires Valid()
      modifies this, ctx, gamer, gamer.screenState, rdb
      ensures end.Some? ==> LoopRun(end.value, Snap(ctx, gamer)) == InterpLoop(env, Q(), step, old(Snap(ctx, gamer)))
      ensures end.None? ==> ctx.live < old(ctx.live)
      ensures end.None? ==> InterpLoop(env, Q(), step, Snap(ctx, gamer)) == InterpLoop(env, Q(), step, old(Snap(ctx, gamer)))
      decreases ctx.live, 0, 1
    {
      ghost var s := Snap(ctx, gamer);
      var done := ctx.Done();
      if done {
        assert InterpLoop(env, Q(), step, s) == LoopRun(Cancelled, s);
        return Some(Cancelled);
      }
      assert Snap(ctx, gamer) == s.(budget := s.budget - 1);
      var go := env.eval(step.trigger, gamer.Record());
      if go.Err? || !go.value {
        assert InterpLoop(env, Q(), step, s) == LoopRun(Exited, Snap(ctx, gamer));
        return Some(Exited);
      }
      var stopped := RunSteps(ctx, step.steps, gamer);
      if stopped {
        assert InterpLoop(env, Q(), step, s) == LoopRun(Stopped, Snap(ctx, gamer));
        return Some(Stopped);
      }
      assert InterpLoop(env, Q(), step, s) == InterpLoop(env, Q(), step, Snap(ctx, gamer));
      return None;
    }

    /** Nested steps, up to the first that stops. */
    method RunSteps(ctx: Context, steps: seq<Step>, gamer: Gamer) returns (stop: bool)
      requires Valid()
      modifies this, ctx, gamer, gamer.screenState, rdb
      ensures StepRun(stop, Snap(ctx, gamer)) == InterpSeq(env, Q(), steps, old(Snap(ctx, gamer)))
      decreases ctx.live, 1, |steps|
    {
      ghost var final := InterpSeq(env, Q(), steps, Snap(ctx, gamer));
      ghost var start := ctx.live;
      for i := 0 to |steps|
        invariant ctx.live <= start
        invariant InterpSeq(env, Q(), steps[i..], Snap(ctx, gamer)) == final
      {
        assert steps[i..][1..] == steps[i + 1..];
        var stopped := RunStep(ctx, steps[i], gamer);
        if stopped {
          return true;
        }
      }
      assert steps[|steps|..] == [];
      return false;
    }

    /** The wait part. */
    method RunWait(ctx: Context, step: Step, gamer: Gamer) returns (stop: bool)
      requires Valid()
      modifies this, ctx, gamer, gamer.screenState, rdb
      ensures StepRun(stop, Snap(ctx, gamer)) == InterpWait(env, Q(), step, old(Snap(ctx, gamer)))
      decreases ctx.live, 3, 0
    {
      if step.wait > 0 {
        var done := ctx.Done();
        if done {
          return true;
        }
      }
      stop := RunIf(ctx, step, gamer);
    }

    /** The if part. */
    method RunIf(ctx: Context, step: Step, gamer: Gamer) returns (stop: bool)
      requires Valid()
      modifies this, ctx, gamer, gamer.screenState, rdb
      ensures StepRun(stop, Snap(ctx, gamer)) == InterpIf(env, Q(), step, old(Snap(ctx, gamer)))
      decreases ctx.live, 2, 0
    {
      if step.ifStep.Some? {
        var result := env.eval(step.ifStep.value.trigger, gamer.Record());
        if result.Err? {
          return false;
        }
        if result.value {
          var stopped := RunSteps(ctx, step.ifStep.value.thenSteps, gamer);
          if stopped {
            return true;
          }
        } else if |step.ifStep.value.elseSteps| > 0 {
          var stopped := RunSteps(ctx, step.ifStep.value.elseSteps, gamer);
          if stopped {
            return true;
          }
        }
      }
      stop := RunTail(ctx, step, gamer);
    }

    /** The long-tap and push parts. */
    method RunTail(ctx: Context, step: Step, gamer: Gamer) returns (stop: bool)
      requires Valid()
      modifies this, rdb
      ensures StepRun(stop, Snap(ctx, gamer)) == InterpTail(env, Q(), step, old(Snap(ctx, gamer)))
    {
      if step.longtap != "" {
        if step.longtap !in env.regions {
          return true;
        }
        var tap := Navigator.LongTap(step.longtap, step.wait);
        if env.deviceFails(actions, tap) {
          return true;
        }
        actions := actions + [tap];
      }
      if |step.pushUsecase| > 0 && queue != null {
        PushAll(step.pushUsecase, gamer.Record());
      }
      return false;
    }

    /** The push directives of a step, each checked against the gamer, every listed use case pushed. */
    method PushAll(pushes: seq<PushUsecase>, rec: GamerRecord)
      requires Valid() && queue != null
      modifies rdb
      ensures rdb.State() ==
        Preloader.Fill(env.fails, queue.codec, old(rdb.State()), queue.gamerID, Triggered(env, pushes, rec))
    {
      ghost var s0 := rdb.State();
      for i := 0 to |pushes|
        invariant rdb.State() == Preloader.Fill(env.fails, queue.codec, s0, queue.gamerID, Triggered(env, pushes[..i], rec))
      {
        TriggeredSnoc(env, pushes[..i], pushes[i], rec);
        assert pushes[..i + 1] == pushes[..i] + [pushes[i]];
        var push := pushes[i];
        ghost var before := Triggered(env, pushes[..i], rec);
        if push.trigger != "" {
          var ok := env.eval(push.trigger, rec);
          if ok.Err? {
            assert before + [] == before;
            continue;
          }
          if !ok.value {
            assert before + [] == before;
            continue;
          }
        }
        FillAppend(env.fails, queue.codec, s0, queue.gamerID, before, Originals(env, push.list));
        PushList(push.list);
      }
      assert pushes[..|pushes|] == pushes;
    }

    /** One directive's list: Push of GetByName of each name, a failed push skipped. */
    method PushList(list: seq<UseCase>)
      requires Valid() && queue != null
      modifies rdb
      ensures rdb.State() ==
        Preloader.Fill(env.fails, queue.codec, old(rdb.State()), queue.gamerID, Originals(env, list))
    {
      ghost var final := Preloader.Fill(env.fails, queue.codec, rdb.State(), queue.gamerID, Originals(env, list));
      for j := 0 to |list|
        invariant Preloader.Fill(env.fails, queue.codec, rdb.State(), queue.gamerID, Originals(env, list[j..])) == final
      {
        assert list[j..][1..] == list[j + 1..];
        var original := env.byName(list[j].name);
        var _ := queue.Push(original);
      }
      assert list[|list|..] == [];
    }
  }

  // ---------------------------------------------------------------------
  // Lemmas
  // ---------------------------------------------------------------------

  /** Adding use cases in two batches is adding them all. */
  lemma {:induction false} FillAppend(fails: nat -> bool, codec: Codec, s: Store, key: int, xs: seq<UseCase>, ys: seq<UseCase>)
    ensures Preloader.Fill(fails, codec, s, key, xs + ys) ==
            Preloader.Fill(fails, codec, Preloader.Fill(fails, codec, s, key, xs), key, ys)
    decreases |xs|
  {
    if xs != [] {
      assert (xs + ys)[1..] == xs[1..] + ys;
      FillAppend(fails, codec, ZAddS(fails, s, key, codec.encode(xs[0]), Score(xs[0])), key, xs[1..], ys);
    } else {
      assert xs + ys == ys;
    }
  }

  /** The triggered use cases of a longer directive list: those of the shorter one, then the new directive's. */
  lemma {:induction false} TriggeredSnoc(env: ExecEnv, pushes: seq<PushUsecase>, p: PushUsecase, rec: GamerRecord)
    ensures Triggered(env, pushes + [p], rec) ==
      Triggered(env, pushes, rec) + (if Fires(env, p, rec) then Originals(env, p.list) else [])
    decreases |pushes|
  {
    if pushes == [] {
      assert [p][1..] == [];
    } else {
      assert (pushes + [p])[1..] == pushes[1..] + [p];
      TriggeredSnoc(env, pushes[1..], p, rec);
    }
  }

  /** A use case is enqueued by a step's directives exactly when a directive that fires lists its name. */
  lemma {:induction false} TriggeredExactly(env: ExecEnv, pushes: seq<PushUsecase>, rec: GamerRecord, u: UseCase)
    ensures u in Triggered(env, pushes, rec) <==>
      exists j :: 0 <= j < |pushes| && Fires(env, pushes[j], rec) && u in Originals(env, pushes[j].list)
    decreases |pushes|
  {
    if pushes != [] {
      TriggeredExactly(env, pushes[1..], rec, u);
      if u in Triggered(env, pushes[1..], rec) {
        var j :| 0 <= j < |pushes[1..]| && Fires(env, pushes[1..][j], rec) && u in Originals(env, pushes[1..][j].list);
        assert pushes[j + 1] == pushes[1..][j];
      }
      if exists j :: 0 <= j < |pushes| && Fires(env, pushes[j], rec) && u in Originals(env, pushes[j].list) {
        var j :| 0 <= j < |pushes| && Fires(env, pushes[j], rec) && u in Originals(env, pushes[j].list);
        if j > 0 {
          assert pushes[1..][j - 1] == pushes[j];
        }
      }
    }
  }

  /**
   * When none of the pushes' round trips fails, every use case the
   * directives enqueue is in the executor's queue afterwards with score
   * 100 - priority, and nothing else is added.
   */
  lemma PushesLand(env: ExecEnv, s: Sink, pushes: seq<PushUsecase>, rec: GamerRecord, store: Store)
    requires ValidCodec(s.codec)
    requires forall k :: store.ops <= k < store.ops + |Triggered(env, pushes, rec)| ==> !env.fails(k)
    ensures var us := Triggered(env, pushes, rec);
      var r := Preloader.Fill(env.fails, s.codec, store, s.gamerID, us);
      (forall u :: u in us ==> s.codec.encode(u) in Get(r.zsets, s.gamerID) && Get(r.zsets, s.gamerID)[s.codec.encode(u)] == Score(u)) &&
      (forall m :: m in Get(r.zsets, s.gamerID) ==> m in Get(store.zsets, s.gamerID) || m in Preloader.Encodings(s.codec, us))
  {
    var us := Triggered(env, pushes, rec);
    forall u | u in us
      ensures var r := Preloader.Fill(env.fails, s.codec, store, s.gamerID, us);
        s.codec.encode(u) in Get(r.zsets, s.gamerID) && Get(r.zsets, s.gamerID)[s.codec.encode(u)] == Score(u)
    {
      var i :| 0 <= i < |us| && us[i] == u;
      Preloader.FillAdds(env.fails, s.codec, store, s.gamerID, us, i);
    }
    Preloader.FillOnlyAdds(env.fails, s.codec, store, s.gamerID, us);
  }

  /**
   * ExecuteUseCase: a use case whose trigger fails or does not hold runs
   * no step and changes nothing. Otherwise the cooldown ledger changes only
   * for a positive TTL with a queue given, and then, unless the write
   * fails, the use case is on cooldown for the gamer until now + TTL.
   */
  lemma ExecutionCooldown(env: ExecEnv, q: Option<Sink>, queueGiven: bool, uc: UseCase, st: ExecState)
    ensures var r := Execution(env, q, queueGiven, uc, st);
      var mid := InterpAll(env, q, uc.steps, st);
      (!Admitted(env, uc, st.rec) ==> r == st) &&
      (r.store.cooldowns != st.store.cooldowns ==> Admitted(env, uc, st.rec) && uc.ttl > 0 && queueGiven) &&
      (Admitted(env, uc, st.rec) && uc.ttl > 0 && queueGiven && !env.fails(mid.store.ops) ==>
        r.store.cooldowns == st.store.cooldowns[(mid.rec.id, uc.name) := st.store.now + uc.ttl] &&
        OnCooldown(r.store, mid.rec.id, uc.name))
  {
  }

  /** Once the context is cancelled, the top-level steps change nothing. */
  lemma {:induction false} CancelledRunsNothing(env: ExecEnv, q: Option<Sink>, steps: seq<Step>, st: ExecState)
    requires st.budget == 0
    ensures InterpAll(env, q, steps, st) == st
    decreases |steps|
  {
    if steps != [] {
      CancelledRunsNothing(env, q, steps[1..], st);
    }
  }

  /**
   * A cancelled context, an unknown click region or a failed click stops
   * the step before any later part: only the poll is used up.
   */
  lemma StopBeforeLaterParts(env: ExecEnv, q: Option<Sink>, step: Step, st: ExecState)
    ensures st.budget == 0 ==> Interp(env, q, step, st) == StepRun(true, st)
    ensures (st.budget > 0 && step.click != "" &&
             (step.click !in env.regions || env.deviceFails(st.actions, Navigator.Click(step.click)))) ==>
      Interp(env, q, step, st) == StepRun(true, st.(budget := st.budget - 1))
  {
  }

  /**
   * Actions that end the step at once: a reset without a path and a loop
   * without a trigger answer false, loop_stop answers true; no wait, if,
   * long tap or push follows.
   */
  lemma ActionsThatEndTheStep(env: ExecEnv, q: Option<Sink>, step: Step, st: ExecState)
    ensures step.action == "reset" && step.setPath == "" ==> InterpAction(env, q, step, st) == StepRun(false, st)
    ensures step.action == "loop" && step.trigger == "" ==> InterpAction(env, q, step, st) == StepRun(false, st)
    ensures step.action == "loop_stop" ==> InterpAction(env, q, step, st) == StepRun(true, st)
  {
  }

  /**
   * A loop that ends on its own leaves with its trigger false or failing
   * on the final state; one that ends by cancellation has no poll left;
   * a stop from its body is answered with false.
   */
  lemma {:induction false} LoopEnds(env: ExecEnv, q: Option<Sink>, step: Step, st: ExecState)
    ensures var l := InterpLoop(env, q, step, st);
      (l.end == Exited ==> env.eval(step.trigger, l.st.rec) != Ok(true)) &&
      (l.end == Cancelled ==> l.st.budget == 0)
    ensures step.action == "loop" && step.trigger != "" && InterpLoop(env, q, step, st).end == Stopped ==>
      InterpAction(env, q, step, st) == StepRun(false, InterpLoop(env, q, step, st).st)
    decreases st.budget
  {
    if st.budget > 0 {
      var st1 := st.(budget := st.budget - 1);
      var go := env.eval(step.trigger, st1.rec);
      if go.Ok? && go.value {
        var b := InterpSeq(env, q, step.steps, st1);
        if !b.stop {
          LoopEnds(env, q, step, b.st);
        }
      }
    }
  }

  /**
   * The if part: a condition that fails to evaluate ends the step with
   * false, running neither branch; a stop in the branch taken ends it with true.
   */
  lemma IfOutcomes(env: ExecEnv, q: Option<Sink>, step: Step, st: ExecState)
    requires step.ifStep.Some?
    ensures env.eval(step.ifStep.value.trigger, st.rec).Err? ==> InterpIf(env, q, step, st) == StepRun(false, st)
    ensures (env.eval(step.ifStep.value.trigger, st.rec) == Ok(true) &&
             InterpSeq(env, q, step.ifStep.value.thenSteps, st).stop) ==>
      InterpIf(env, q, step, st) == StepRun(true, InterpSeq(env, q, step.ifStep.value.thenSteps, st).st)
    ensures (env.eval(step.ifStep.value.trigger, st.rec) == Ok(false) &&
             InterpSeq(env, q, step.ifStep.value.elseSteps, st).stop) ==>
      InterpIf(env, q, step, st) == StepRun(true, InterpSeq(env, q, step.ifStep.value.elseSteps, st).st)
  {
  }

  /** A screenshot with rules replaces the gamer by the analysis when, and only when, the analysis succeeds. */
  lemma ScreenshotReplacesOnSuccess(env: ExecEnv, q: Option<Sink>, step: Step, st: ExecState)
    requires step.action == "screenshot" && |step.analyze| > 0
    ensures var a := env.analyze(st.actions, st.rec, step.analyze);
      InterpAction(env, q, step, st) == InterpWait(env, q, step, if a.Ok? then st.(rec := a.value) else st)
  {
  }
}
