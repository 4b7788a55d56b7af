/**
 * The navigator (internal/fsm/force_to.go, and the GameFSM constructor of
 * internal/fsm/fsm.go): drive the game from the screen it is on to a
 * target screen, step by step, checking the screen after every click.
 *
 * The device, the analyzer and the trigger evaluator are not part of this
 * model; they are the oracles of an `Env`. The device's answer to an
 * action depends on the actions it performed before, and so does what the
 * analyzer reads off the screen. Sleeps and their random jitter are left
 * out. Go's panics are the `Fatal` outcome.
 */
module Navigator {
  import opened Wrappers
  import opened Screens
  import opened Fsm
  import opened Gamers
  import opened ExpectStates

  /** What the device was asked to do; a long tap is a swipe that starts and ends on a region's point. */
  datatype Action = Click(region: string) | SwipeAction(swipe: Swipe, wait: int) | LongTap(region: string, hold: int)

  /**
   * The collaborators of the navigator: the region names the area lookup
   * knows, the trigger evaluator, whether the device fails an action after
   * a given history, the analyzer's reading of the screen after a history,
   * and the title table, the order in which the screen resolver ranges
   * over it after a history (Go's map order may change from call to call)
   * and its fuzzy matcher.
   */
  datatype Env = Env(
    regions: set<string>,
    eval: (string, GamerRecord) -> Result<bool>,
    deviceFails: (seq<Action>, Action) -> bool,
    analyze: seq<Action> -> Result<Analysis>,
    titles: TitleTable,
    order: seq<Action> -> seq<string>,
    fuzzy: Fuzzy)

  /**
   * ForceTo's outcomes: arrived, the `EventNotActive` error, another
   * returned error, a panic, and (only in this model) running out of the
   * restarts the source would keep making.
   */
  datatype NavResult = Done | EventNotActive | Failed(err: string) | Fatal(msg: string) | Diverged

  /** How one pass over the steps ends. */
  datatype Attempt = Finished | Inactive | ObserveFailed(err: string) | Panicked(msg: string) | Mismatch(actual: Screen)

  /** The state a pass leaves: its end, the device history, the gamer record and the navigator's screen. */
  datatype Run = Run(outcome: Attempt, actions: seq<Action>, rec: GamerRecord, cur: Screen)

  /** The screen expected after step `i`: the path's screen after hop `i`, or the target past the path's end. */
  function Expected(path: seq<Screen>, target: Screen, i: nat): (s: Screen)
    ensures i + 1 < |path| ==> s == path[i + 1]
    ensures i + 1 >= |path| ==> s == target
  {
    if i + 1 < |path| then path[i + 1] else target
  }

  /** The gamer record with its screen state's current screen replaced. */
  function WithScreen(rec: GamerRecord, s: Screen): GamerRecord {
    rec.(screen := rec.screen.(currentState := s))
  }

  /** How one step ends: the loop goes on with the new state, or the pass stops with the given run. */
  datatype StepEnd = Next(actions: seq<Action>, rec: GamerRecord, cur: Screen) | Stop(run: Run)

  /**
   * One step of the loop of ForceTo: the trigger, the click, the swipe,
   * and for a step without a swipe the check of the screen against
   * `expected`.
   */
  function StepOnce(env: Env, step: TransitionStep, expected: Screen,
                    actions: seq<Action>, rec: GamerRecord, cur: Screen): StepEnd
  {
    var guard := if step.trigger == "" then Ok(true) else env.eval(step.trigger, rec);
    if guard.Err? then Stop(Run(Panicked("Trigger evaluation failed"), actions, rec, cur))
    else if !guard.value then Stop(Run(Inactive, actions, rec, cur))
    else if step.click != "" && step.click !in env.regions then
      Stop(Run(Panicked("Region '" + step.click + "' not found in area.json"), actions, rec, cur))
    else if step.click != "" && env.deviceFails(actions, Click(step.click)) then
      Stop(Run(Panicked("ADB click failed for action '" + step.click + "'"), actions, rec, cur))
    else
      var clicked := if step.click != "" then actions + [Click(step.click)] else actions;
      if step.swipe.Some? then
        var swipe := SwipeAction(step.swipe.value, step.wait);
        if env.deviceFails(clicked, swipe) then Stop(Run(Panicked("ADB swipe failed"), clicked, rec, cur))
        else Next(clicked + [swipe], rec, cur)
      else
        match ExpectState(env.analyze(clicked), expected, env.titles, env.order(clicked), env.fuzzy)
        case AnalyzeError(e) => Stop(Run(ObserveFailed(e), clicked, rec, cur))
        case OutOfRange => Stop(Run(Panicked("index out of range"), clicked, rec, cur))
        case Observed(actual) =>
          if actual != expected then Stop(Run(Mismatch(actual), clicked, WithScreen(rec, actual), actual))
          else Next(clicked, WithScreen(rec, actual), actual)
  }

  /** The steps from index `i` on, as the loop of ForceTo runs them; step `i` expects Expected(path, target, i). */
  function RunFrom(env: Env, steps: seq<TransitionStep>, path: seq<Screen>, target: Screen, i: nat,
                   actions: seq<Action>, rec: GamerRecord, cur: Screen): Run
    decreases |steps| - i
  {
    if i >= |steps| then Run(Finished, actions, rec, cur)
    else
      match StepOnce(env, steps[i], Expected(path, target, i), actions, rec, cur)
      case Stop(run) => run
      case Next(actions', rec', cur') => RunFrom(env, steps, path, target, i + 1, actions', rec', cur')
  }

  /** A device action the navigator may issue: a click or a tap only on a region the lookup knows. */
  predicate Allowed(env: Env, a: Action) {
    (a.Click? || a.LongTap?) ==> a.region in env.regions
  }

  /** `after` is `before` with allowed actions appended. */
  predicate Extends(env: Env, before: seq<Action>, after: seq<Action>) {
    |before| <= |after| && after[..|before|] == before &&
    forall k :: |before| <= k < |after| ==> Allowed(env, after[k])
  }

  lemma ExtendsTransitive(env: Env, a: seq<Action>, b: seq<Action>, c: seq<Action>)
    requires Extends(env, a, b) && Extends(env, b, c)
    ensures Extends(env, a, c)
  {
    assert c[..|a|] == c[..|b|][..|a|];
  }

  /** A step only appends to the device history, and only clicks on known regions. */
  lemma StepOnceAppends(env: Env, step: TransitionStep, expected: Screen,
                        actions: seq<Action>, rec: GamerRecord, cur: Screen)
    ensures var e := StepOnce(env, step, expected, actions, rec, cur);
      Extends(env, actions, if e.Next? then e.actions else e.run.actions)
  {
    var clicked := if step.click != "" then actions + [Click(step.click)] else actions;
    assert clicked[..|actions|] == actions;
    if step.swipe.Some? {
      var next := clicked + [SwipeAction(step.swipe.value, step.wait)];
      assert next[..|actions|] == actions;
    }
  }

  /** A pass only appends to the device history, and only clicks on known regions. */
  lemma {:induction false} RunFromAppends(env: Env, steps: seq<TransitionStep>, path: seq<Screen>, target: Screen,
                                          i: nat, actions: seq<Action>, rec: GamerRecord, cur: Screen)
    ensures Extends(env, actions, RunFrom(env, steps, path, target, i, actions, rec, cur).actions)
    decreases |steps| - i
  {
    if i < |steps| {
      var e := StepOnce(env, steps[i], Expected(path, target, i), actions, rec, cur);
      StepOnceAppends(env, steps[i], Expected(path, target, i), actions, rec, cur);
      if e.Next? {
        RunFromAppends(env, steps, path, target, i + 1, e.actions, e.rec, e.cur);
        ExtendsTransitive(env, actions, e.actions, RunFrom(env, steps, path, target, i + 1, e.actions, e.rec, e.cur).actions);
      }
    } else {
      assert actions[..|actions|] == actions;
    }
  }

  /**
   * How a pass can stop: on a mismatch the navigator and the gamer are on
   * the screen seen; on an analyzer error the error is what the analyzer
   * read after the last action.
   */
  lemma {:induction false} RunFromEnds(env: Env, steps: seq<TransitionStep>, path: seq<Screen>, target: Screen,
                                       i: nat, actions: seq<Action>, rec: GamerRecord, cur: Screen)
    ensures var r := RunFrom(env, steps, path, target, i, actions, rec, cur);
      (r.outcome.Mismatch? ==> r.cur == r.outcome.actual && r.rec.screen.currentState == r.outcome.actual) &&
      (r.outcome.ObserveFailed? ==> env.analyze(r.actions) == Err(r.outcome.err))
    decreases |steps| - i
  {
    if i < |steps| {
      var e := StepOnce(env, steps[i], Expected(path, target, i), actions, rec, cur);
      if e.Next? {
        RunFromEnds(env, steps, path, target, i + 1, e.actions, e.rec, e.cur);
      }
    }
  }

  /**
   * Swipe steps are never checked against a screen: over steps that all
   * swipe, a pass is the same whatever the analyzer would read.
   */
  lemma {:induction false} SwipesAreNotObserved(env: Env, reading: seq<Action> -> Result<Analysis>,
                                                steps: seq<TransitionStep>, path: seq<Screen>, target: Screen,
                                                i: nat, actions: seq<Action>, rec: GamerRecord, cur: Screen)
    requires forall k :: i <= k < |steps| ==> steps[k].swipe.Some?
    ensures RunFrom(env, steps, path, target, i, actions, rec, cur) ==
            RunFrom(env.(analyze := reading), steps, path, target, i, actions, rec, cur)
    decreases |steps| - i
  {
    if i < |steps| {
      var e := StepOnce(env, steps[i], Expected(path, target, i), actions, rec, cur);
      assert e == StepOnce(env.(analyze := reading), steps[i], Expected(path, target, i), actions, rec, cur);
      if e.Next? {
        SwipesAreNotObserved(env, reading, steps, path, target, i + 1, e.actions, e.rec, e.cur);
      }
    }
  }

  /**
   * The step index, not the hop index, picks the expected screen: on a
   * direct entry [prev, target] every checked step expects the target.
   */
  lemma DirectEntryExpectsTarget(prev: Screen, target: Screen, i: nat)
    ensures Expected([prev, target], target, i) == target
  {
  }

  /** A step whose trigger is false ends the pass before its click or swipe: nothing more is done. */
  lemma InactiveStepDoesNothing(env: Env, steps: seq<TransitionStep>, path: seq<Screen>, target: Screen,
                                i: nat, actions: seq<Action>, rec: GamerRecord, cur: Screen)
    requires i < |steps| && steps[i].trigger != "" && env.eval(steps[i].trigger, rec) == Ok(false)
    ensures RunFrom(env, steps, path, target, i, actions, rec, cur) == Run(Inactive, actions, rec, cur)
  {
  }

  /** A step changes the gamer record only in its current screen. */
  lemma StepOnceMovesOnly(env: Env, step: TransitionStep, expected: Screen,
                          actions: seq<Action>, rec: GamerRecord, cur: Screen)
    ensures var e := StepOnce(env, step, expected, actions, rec, cur);
      var rec' := if e.Next? then e.rec else e.run.rec;
      rec' == WithScreen(rec, rec'.screen.currentState)
  {
  }

  /** A pass changes the gamer record only in its current screen. */
  lemma {:induction false} RunFromMovesOnly(env: Env, steps: seq<TransitionStep>, path: seq<Screen>, target: Screen,
                                            i: nat, actions: seq<Action>, rec: GamerRecord, cur: Screen)
    ensures var r := RunFrom(env, steps, path, target, i, actions, rec, cur);
      r.rec == WithScreen(rec, r.rec.screen.currentState)
    decreases |steps| - i
  {
    if i < |steps| {
      var e := StepOnce(env, steps[i], Expected(path, target, i), actions, rec, cur);
      StepOnceMovesOnly(env, steps[i], Expected(path, target, i), actions, rec, cur);
      if e.Next? {
        RunFromMovesOnly(env, steps, path, target, i + 1, e.actions, e.rec, e.cur);
      }
    }
  }

  /** What ForceTo works on: the device history, the gamer record and the navigator's screen. */
  datatype NavState = NavState(actions: seq<Action>, rec: GamerRecord, cur: Screen)

  /** One pass of ForceTo: the state it starts from and the route it planned from there. */
  datatype Pass = Pass(from: NavState, path: seq<Screen>, steps: Option<seq<TransitionStep>>)

  /**
   * The route of a pass from `prev`: the table's direct entry when there
   * is one; otherwise steps exactly when the path has two screens or more,
   * and then the path is a shortest walk to `target` and the steps are
   * those along it.
   */
  ghost predicate Planned(t: Table, prev: Screen, target: Screen, path: seq<Screen>, steps: Option<seq<TransitionStep>>) {
    (Edge(t, prev, target) ==> path == [prev, target] && steps == Some(t[prev][target])) &&
    (!Edge(t, prev, target) ==>
      (steps.Some? <==> |path| > 1) &&
      (steps.Some? ==> IsPath(t, path, prev, target) && Walk(t, path) &&
                       steps.value == StepsAlong(t, path) &&
                       forall p :: IsPath(t, p, prev, target) ==> |path| <= |p|))
  }

  /** The run of a pass that has steps. */
  function PassRun(env: Env, target: Screen, p: Pass): Run
    requires p.steps.Some?
  {
    RunFrom(env, p.steps.value, p.path, target, 0, p.from.actions, p.from.rec, p.from.cur)
  }

  /** The state a run leaves. */
  function RunEnd(run: Run): NavState {
    NavState(run.actions, run.rec, run.cur)
  }

  /**
   * ForceTo from `s0` with `restarts` restarts allowed makes the passes
   * `passes`, answers `r` and leaves `s1`. At the target nothing happens.
   * Without a device the navigator and the gamer are just put on the
   * target. Otherwise every pass plans a route from where it starts; the
   * first starts at `s0`, each one but the last ends in a mismatch off the
   * target and the next starts where it stopped, and the last concludes.
   */
  ghost predicate Navigates(env: Env, t: Table, hasDevice: bool, target: Screen, restarts: nat,
                            s0: NavState, passes: seq<Pass>, r: NavResult, s1: NavState)
  {
    if s0.cur == target then passes == [] && r == Done && s1 == s0
    else if !hasDevice then passes == [] && r == Done && s1 == NavState(s0.actions, WithScreen(s0.rec, target), target)
    else
      0 < |passes| <= restarts + 1 && passes[0].from == s0 &&
      AllPlanned(t, target, passes) && AllRestarted(env, target, passes) &&
      Concludes(env, target, restarts + 1 - |passes|, passes[|passes| - 1], r, s1)
  }

  /** Every pass of `passes` plans its route from where it starts. */
  ghost predicate AllPlanned(t: Table, target: Screen, passes: seq<Pass>) {
    forall k :: 0 <= k < |passes| ==> Planned(t, passes[k].from.cur, target, passes[k].path, passes[k].steps)
  }

  /** Every pass of `passes` but the last restarts into the next one. */
  predicate AllRestarted(env: Env, target: Screen, passes: seq<Pass>) {
    forall k :: 0 <= k < |passes| - 1 ==> Restarted(env, target, passes[k], passes[k + 1])
  }

  /** A planned pass in front of planned passes. */
  lemma AllPlannedCons(t: Table, target: Screen, p: Pass, more: seq<Pass>)
    requires Planned(t, p.from.cur, target, p.path, p.steps) && AllPlanned(t, target, more)
    ensures AllPlanned(t, target, [p] + more)
  {
    var passes := [p] + more;
    forall k | 0 < k < |passes|
      ensures Planned(t, passes[k].from.cur, target, passes[k].path, passes[k].steps)
    {
      assert passes[k] == more[k - 1];
    }
  }

  /** A pass that restarts into the first of passes that restart in turn. */
  lemma AllRestartedCons(env: Env, target: Screen, p: Pass, more: seq<Pass>)
    requires |more| > 0 && Restarted(env, target, p, more[0]) && AllRestarted(env, target, more)
    ensures AllRestarted(env, target, [p] + more)
  {
    var passes := [p] + more;
    forall k | 0 < k < |passes| - 1
      ensures Restarted(env, target, passes[k], passes[k + 1])
    {
      assert passes[k] == more[k - 1] && passes[k + 1] == more[k];
    }
  }

  /** The passes after the first of planned, restarting passes are planned and restart. */
  lemma AllTail(env: Env, t: Table, target: Screen, passes: seq<Pass>)
    requires |passes| > 0 && AllPlanned(t, target, passes) && AllRestarted(env, target, passes)
    ensures AllPlanned(t, target, passes[1..]) && AllRestarted(env, target, passes[1..])
  {
    var rest := passes[1..];
    forall k | 0 <= k < |rest|
      ensures Planned(t, rest[k].from.cur, target, rest[k].path, rest[k].steps)
    {
      assert rest[k] == passes[k + 1];
    }
    forall k | 0 <= k < |rest| - 1
      ensures Restarted(env, target, rest[k], rest[k + 1])
    {
      assert rest[k] == passes[k + 1] && rest[k + 1] == passes[k + 2];
    }
  }

  /** A pass whose run shows a screen other than the target restarts from there, while restarts are left. */
  predicate Restarts(run: Run, target: Screen, left: nat) {
    run.outcome.Mismatch? && run.outcome.actual != target && left > 0
  }

  /** Pass `p` ran its steps into a mismatch off the target, and `next` starts where it stopped. */
  predicate Restarted(env: Env, target: Screen, p: Pass, next: Pass) {
    p.steps.Some? &&
    var run := PassRun(env, target, p);
    run.outcome.Mismatch? && run.outcome.actual != target && next.from == RunEnd(run)
  }

  /**
   * How the last pass, with `left` restarts left, ends the navigation:
   * without a route the source panics; otherwise its run does not restart
   * and settles.
   */
  predicate Concludes(env: Env, target: Screen, left: nat, p: Pass, r: NavResult, s1: NavState) {
    if p.steps.None? then r == Fatal("FSM: no path found from '" + p.from.cur + "' to '" + target + "'") && s1 == p.from
    else
      var run := PassRun(env, target, p);
      !Restarts(run, target, left) && Settles(run, target, r, s1)
  }

  /**
   * How a last pass that ran ends the navigation: having run all its
   * steps it puts the navigator and the gamer on the target; a trigger
   * that is false, an analyzer error and a panic end it where the pass
   * stopped; a mismatch on the target itself is an arrival, any other one
   * (with no restart left) is Diverged.
   */
  predicate Settles(run: Run, target: Screen, r: NavResult, s1: NavState) {
    match run.outcome
    case Finished => r == Done && s1 == NavState(run.actions, WithScreen(run.rec, target), target)
    case Inactive => r == EventNotActive && s1 == RunEnd(run)
    case ObserveFailed(e) => r == Failed(e) && s1 == RunEnd(run)
    case Panicked(m) => r == Fatal(m) && s1 == RunEnd(run)
    case Mismatch(seen) => r == (if seen == target then Done else Diverged) && s1 == RunEnd(run)
  }

  /** A first pass that restarts, followed by a navigation from where it stopped, is a navigation. */
  lemma NavigatesCons(env: Env, t: Table, target: Screen, restarts: nat,
                      s0: NavState, p: Pass, more: seq<Pass>, r: NavResult, s1: NavState)
    requires s0.cur != target && p.from == s0 && Planned(t, s0.cur, target, p.path, p.steps) && p.steps.Some?
    requires Restarts(PassRun(env, target, p), target, restarts)
    requires Navigates(env, t, true, target, restarts - 1, RunEnd(PassRun(env, target, p)), more, r, s1)
    ensures Navigates(env, t, true, target, restarts, s0, [p] + more, r, s1)
  {
    var run := PassRun(env, target, p);
    RunFromEnds(env, p.steps.value, p.path, target, 0, s0.actions, s0.rec, s0.cur);
    assert RunEnd(run).cur != target;
    var passes := [p] + more;
    AllPlannedCons(t, target, p, more);
    AllRestartedCons(env, target, p, more);
    assert passes[|passes| - 1] == more[|more| - 1];
  }

  /** The passes after a first one that restarted are a navigation from where it stopped, with one restart fewer. */
  lemma NavigatesTail(env: Env, t: Table, hasDevice: bool, target: Screen, restarts: nat,
                      s0: NavState, passes: seq<Pass>, r: NavResult, s1: NavState)
    requires Navigates(env, t, hasDevice, target, restarts, s0, passes, r, s1) && |passes| > 1
    ensures hasDevice && s0.cur != target && restarts > 0
    ensures Restarted(env, target, passes[0], passes[1])
    ensures Navigates(env, t, hasDevice, target, restarts - 1, passes[1].from, passes[1..], r, s1)
  {
    var p := passes[0];
    assert Restarted(env, target, p, passes[1]);
    RunFromEnds(env, p.steps.value, p.path, target, 0, s0.actions, s0.rec, s0.cur);
    var rest := passes[1..];
    AllTail(env, t, target, passes);
    assert rest[|rest| - 1] == passes[|passes| - 1];
  }

  /** A single pass from `s0` that concludes is a navigation. */
  lemma NavigatesOne(env: Env, t: Table, target: Screen, restarts: nat,
                     s0: NavState, p: Pass, r: NavResult, s1: NavState)
    requires s0.cur != target && p.from == s0 && Planned(t, s0.cur, target, p.path, p.steps)
    requires Concludes(env, target, restarts, p, r, s1)
    ensures Navigates(env, t, true, target, restarts, s0, [p], r, s1)
  {
  }

  /** What the last pass leaves, from where it starts. */
  lemma ConcludesLeaves(env: Env, target: Screen, left: nat, p: Pass, r: NavResult, s1: NavState)
    requires p.from.cur != target && Concludes(env, target, left, p, r, s1)
    ensures r == Done ==> s1.cur == target && s1.rec.screen.currentState == target
    ensures s1.rec == WithScreen(p.from.rec, s1.rec.screen.currentState)
    ensures Extends(env, p.from.actions, s1.actions)
    ensures r.Failed? ==> env.analyze(s1.actions) == Err(r.err)
  {
    var s0 := p.from;
    assert s0.actions[..|s0.actions|] == s0.actions;
    if p.steps.Some? {
      RunFromAppends(env, p.steps.value, p.path, target, 0, s0.actions, s0.rec, s0.cur);
      RunFromEnds(env, p.steps.value, p.path, target, 0, s0.actions, s0.rec, s0.cur);
      RunFromMovesOnly(env, p.steps.value, p.path, target, 0, s0.actions, s0.rec, s0.cur);
    }
  }

  /**
   * What a navigation leaves: on Done the navigator is on the target, and
   * so is the gamer when it had to move; the gamer record changes at most
   * in its current screen; the device history only grows by allowed
   * actions; Failed carries what the analyzer read after the last action.
   */
  lemma {:induction false} NavigatesLeaves(env: Env, t: Table, hasDevice: bool, target: Screen, restarts: nat,
                                           s0: NavState, passes: seq<Pass>, r: NavResult, s1: NavState)
    requires Navigates(env, t, hasDevice, target, restarts, s0, passes, r, s1)
    ensures r == Done ==> s1.cur == target && s1.rec.screen.currentState == if s0.cur == target then s0.rec.screen.currentState else target
    ensures s1.rec == WithScreen(s0.rec, s1.rec.screen.currentState)
    ensures Extends(env, s0.actions, s1.actions)
    ensures r.Failed? ==> env.analyze(s1.actions) == Err(r.err)
    decreases |passes|
  {
    assert s0.actions[..|s0.actions|] == s0.actions;
    if |passes| > 1 {
      NavigatesTail(env, t, hasDevice, target, restarts, s0, passes, r, s1);
      var p := passes[0];
      RunFromAppends(env, p.steps.value, p.path, target, 0, s0.actions, s0.rec, s0.cur);
      RunFromMovesOnly(env, p.steps.value, p.path, target, 0, s0.actions, s0.rec, s0.cur);
      var mid := passes[1].from;
      NavigatesLeaves(env, t, hasDevice, target, restarts - 1, mid, passes[1..], r, s1);
      ExtendsTransitive(env, s0.actions, mid.actions, s1.actions);
    } else if |passes| == 1 {
      ConcludesLeaves(env, target, restarts, passes[0], r, s1);
    }
  }

  /** The navigator: the FSM's current screen, the device history and the gamer it keeps in step. */
  class GameFSM {
    const table: Table
    const graph: Graph
    const gamer: Gamer
    const env: Env
    const hasDevice: bool
    var current: Screen
    var previousState: Screen
    var actions: seq<Action>

    /** The graph is the one built from the table, and the table's screens are named and finitely many. */
    ghost predicate Valid() {
      GraphOf(graph, table) && "" !in Nodes(table) && |Nodes(table)| < Inf
    }

    /** The navigator's state as a value. */
    function State(): NavState
      reads this, gamer, gamer.screenState
    {
      NavState(actions, gamer.Record(), current)
    }

    /**
     * NewGame on a table that ValidateTransitionActions accepts (it panics
     * on any other): at main_city, the gamer too.
     */
    constructor (table: Table, gamer: Gamer, env: Env, hasDevice: bool)
      requires TableValid(table, env.regions)
      requires "" !in Nodes(table) && |Nodes(table)| < Inf
      modifies gamer.screenState
      ensures Valid()
      ensures this.table == table && this.gamer == gamer && this.env == env && this.hasDevice == hasDevice
      ensures current == MainCity && gamer.screenState.currentState == MainCity && actions == []
    {
      gamer.screenState.currentState := MainCity;
      var g := BuildFSMGraph(table);
      this.table, this.graph, this.gamer, this.env, this.hasDevice := table, g, gamer, env, hasDevice;
      current, previousState, actions := MainCity, "", [];
    }

    /** One step of the loop of ForceTo, on the device and the gamer. */
    method PerformStep(step: TransitionStep, expected: Screen) returns (stop: Option<Attempt>)
      modifies this, gamer.screenState
      ensures var e := StepOnce(env, step, expected, old(actions), old(gamer.Record()), old(current));
        if e.Next? then stop == None && actions == e.actions && gamer.Record() == e.rec && current == e.cur
        else stop == Some(e.run.outcome) && actions == e.run.actions && gamer.Record() == e.run.rec && current == e.run.cur
    {
      if step.trigger != "" {
        var ok := env.eval(step.trigger, gamer.Record());
        if ok.Err? {
          return Some(Panicked("Trigger evaluation failed"));
        }
        if !ok.value {
          return Some(Inactive);
        }
      }
      if step.click != "" {
        if step.click !in env.regions {
          return Some(Panicked("Region '" + step.click + "' not found in area.json"));
        }
        if env.deviceFails(actions, Click(step.click)) {
          return Some(Panicked("ADB click failed for action '" + step.click + "'"));
        }
        actions := actions + [Click(step.click)];
      }
      if step.swipe.Some? {
        var swipe := SwipeAction(step.swipe.value, step.wait);
        if env.deviceFails(actions, swipe) {
          return Some(Panicked("ADB swipe failed"));
        }
        actions := actions + [swipe];
        return None;
      }
      var seen := ExpectState(env.analyze(actions), expected, env.titles, env.order(actions), env.fuzzy);
      if seen.AnalyzeError? {
        return Some(ObserveFailed(seen.err));
      }
      if seen.OutOfRange? {
        return Some(Panicked("index out of range"));
      }
      current := seen.screen;
      gamer.screenState.currentState := seen.screen;
      if seen.screen != expected {
        return Some(Mismatch(seen.screen));
      }
      return None;
    }

    /**
     * One pass over `steps` along `path`: the loop of ForceTo. It stops at
     * the first step that is not active, fails or shows another screen.
     */
    method RunAttempt(steps: seq<TransitionStep>, path: seq<Screen>, target: Screen) returns (a: Attempt)
      modifies this, gamer.screenState
      ensures var r := RunFrom(env, steps, path, target, 0, old(actions), old(gamer.Record()), old(current));
        a == r.outcome && actions == r.actions && gamer.Record() == r.rec && current == r.cur
    {
      ghost var whole := RunFrom(env, steps, path, target, 0, actions, gamer.Record(), current);
      var i := 0;
      while i < |steps|
        invariant 0 <= i <= |steps|
        invariant RunFrom(env, steps, path, target, i, actions, gamer.Record(), current) == whole
      {
        var expected := if i + 1 < |path| then path[i + 1] else target;
        var stop := PerformStep(steps[i], expected);
        if stop.Some? {
          return stop.value;
        }
        i := i + 1;
      }
      return Finished;
    }

    /**
     * The route ForceTo takes from `prev` to `target`: the table's direct
     * entry when there is one, otherwise the steps along the path FindPath
     * returns, which is a shortest path; None when that path has fewer than
     * two screens, where the source panics.
     */
    method Plan(prev: Screen, target: Screen) returns (path: seq<Screen>, steps: Option<seq<TransitionStep>>)
      requires Valid()
      ensures Planned(table, prev, target, path, steps)
    {
      if Edge(table, prev, target) {
        return [prev, target], Some(table[prev][target]);
      }
      path := FindPath(table, graph, prev, target);
      if |path| <= 1 {
        return path, None;
      }
      assert Walk(table, path);
      steps := PathToSteps(table, path);
    }

    /**
     * ForceTo: nothing to do at the target; otherwise take the table's
     * direct entry, or the steps along a shortest path, run them, restart
     * from the screen actually seen on a mismatch, and at the end put the
     * FSM and the gamer on the target. `restarts` bounds the restarts,
     * which the source does not bound; `passes` are the passes made.
     */
    method ForceTo(target: Screen, restarts: nat) returns (r: NavResult, ghost passes: seq<Pass>)
      requires Valid()
      modifies this, gamer.screenState
      ensures Navigates(env, table, hasDevice, target, restarts, old(State()), passes, r, State())
      ensures old(current) == target ==>
        r == Done && current == target && actions == old(actions) && gamer.Record() == old(gamer.Record())
      ensures !hasDevice ==> r == Done && actions == old(actions)
      ensures r == Done ==> current == target
      ensures r == Done && old(current) != target ==> gamer.screenState.currentState == target
      ensures Extends(env, old(actions), actions)
      ensures r.Failed? ==> env.analyze(actions) == Err(r.err)
      decreases restarts, 2
    {
      var prev := current;
      previousState := prev;
      ghost var s0 := State();
      r, passes := Done, [];
      if prev != target && hasDevice {
        var path, steps := Plan(prev, target);
        if steps.None? {
          r := Fatal("FSM: no path found from '" + prev + "' to '" + target + "'");
          passes := [Pass(s0, path, steps)];
          NavigatesOne(env, table, target, restarts, s0, passes[0], r, State());
        } else {
          r, passes := Drive(target, restarts, path, steps.value);
        }
      } else if prev != target {
        current := target;
        gamer.screenState.currentState := target;
      }
      NavigatesLeaves(env, table, hasDevice, target, restarts, s0, passes, r, State());
    }

    /**
     * The passes of ForceTo from a planned route on: run the steps, and on
     * a mismatch off the target restart ForceTo from the screen seen.
     */
    method Drive(target: Screen, restarts: nat, path: seq<Screen>, steps: seq<TransitionStep>)
      returns (r: NavResult, ghost passes: seq<Pass>)
      requires Valid() && hasDevice && current != target && Planned(table, current, target, path, Some(steps))
      modifies this, gamer.screenState
      ensures Navigates(env, table, true, target, restarts, old(State()), passes, r, State())
      decreases restarts, 1
    {
      ghost var s0 := State();
      ghost var p := Pass(s0, path, Some(steps));
      var a := RunAttempt(steps, path, target);
      ghost var run := PassRun(env, target, p);
      assert a == run.outcome && State() == RunEnd(run);
      RunFromEnds(env, steps, path, target, 0, s0.actions, s0.rec, s0.cur);
      if a.Mismatch? && current != target && restarts > 0 {
        r, passes := Restart(target, restarts, p);
        return;
      }
      r := Done;
      match a {
        case Finished =>
          current := target;
          gamer.screenState.currentState := target;
        case Inactive => r := EventNotActive;
        case ObserveFailed(e) => r := Failed(e);
        case Panicked(m) => r := Fatal(m);
        case Mismatch(_) =>
          if current == target {
            previousState := target;
          } else {
            r := Diverged;
          }
      }
      passes := [p];
      NavigatesOne(env, table, target, restarts, s0, p, r, State());
    }

    /** The restart after pass `p` stopped on a screen other than the target: ForceTo again from there. */
    method Restart(target: Screen, restarts: nat, ghost p: Pass) returns (r: NavResult, ghost passes: seq<Pass>)
      requires Valid() && hasDevice && p.from.cur != target && Planned(table, p.from.cur, target, p.path, p.steps) && p.steps.Some?
      requires Restarts(PassRun(env, target, p), target, restarts) && State() == RunEnd(PassRun(env, target, p))
      modifies this, gamer.screenState
      ensures Navigates(env, table, true, target, restarts, p.from, passes, r, State())
      decreases restarts, 0
    {
      ghost var more;
      r, more := ForceTo(target, restarts - 1);
      NavigatesCons(env, table, target, restarts, p.from, p, more, r, State());
      passes := [p] + more;
    }
  }
}
