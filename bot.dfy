/**
 * The bot's play loop (internal/bot/bot.go, with updateStateFromScreen of
 * internal/bot/update_state.go): take the best use case for the current
 * screen off the gamer's queue, drop it when it is on cooldown, navigate
 * to its start screen, refresh the gamer from the screen when no switch
 * happened, run it; when the queue is empty, go back to the city.
 *
 * The context is the interpreter's poll count. The screen analysis of a
 * refresh is an oracle of the screen name and the gamer. What the loop did
 * is kept as a ghost log, one entry per round with the state before and
 * after it, so that every round can be stated against the state it found;
 * the repository save after a refresh and the sleeps are left out.
 */
module Bot {
  import opened Wrappers
  import opened Screens
  import opened Gamers
  import opened UseCases
  import opened RedisQueue
  import opened Navigator
  import Executor

  /**
   * What the loop works on: the interpreter's view (the gamer, the polls
   * left, its device history, the store) and the navigator's device
   * history and screen.
   */
  datatype BotState = BotState(exec: Executor.ExecState, navActions: seq<Navigator.Action>, cur: Screen)

  /** The navigator's part of a state. */
  function NavOf(s: BotState): NavState {
    NavState(s.navActions, s.exec.rec, s.cur)
  }

  /** `s` with the navigator's part, the gamer included, taken from `n`. */
  function WithNav(s: BotState, n: NavState): BotState {
    BotState(s.exec.(rec := n.rec), n.actions, n.cur)
  }

  /** What PopBest looked at and left: its window, the index it chose, the store after it. */
  datatype Pop = Pop(window: seq<Z>, best: int, after: Store)

  /**
   * What one iteration of Play's loop did. A taken use case records where
   * the gamer was, the navigation's result and passes, the state it
   * arrived in, whether a cooldown was written, whether the gamer was
   * refreshed, and the interpreter's run.
   */
  datatype Round =
    | Cancelled
    | PopFailed(err: string, pop: Pop)
    | Empty(pop: Pop)
    | Dropped(uc: UseCase, skip: Result<bool>, pop: Pop)
    | Taken(uc: UseCase, pop: Pop, from: Screen, nav: Option<NavResult>, passes: seq<Pass>, arrived: BotState,
            cooled: bool, refreshed: bool, run: Option<(Executor.ExecState, Executor.ExecState)>)

  /** Why Play returned: its context was cancelled, the queue had nothing to give, or a navigation did not come back. */
  datatype PlayEnd = ContextDone | QueueEmpty | NavAborted

  /** A navigation result Play does not come back from: a panic, or (in this model) running out of restarts. */
  predicate Aborts(r: NavResult) {
    r.Fatal? || r.Diverged?
  }

  /** What PopBest answered in a round that polled the queue. */
  function Popped(r: Round): Result<Option<UseCase>>
    requires !r.Cancelled?
  {
    match r
    case PopFailed(err, _) => Err(err)
    case Empty(_) => Ok(None)
    case Dropped(uc, _, _) => Ok(Some(uc))
    case Taken(uc, _, _, _, _, _, _, _, _) => Ok(Some(uc))
  }

  /** A round after which the loop goes on: a failed PopBest, a dropped use case, or a taken one whose navigation came back. */
  predicate Continues(r: Round) {
    r.PopFailed? || (r.Dropped? && (r.skip.Err? || r.skip.value)) ||
    (r.Taken? && !(r.nav.Some? && Aborts(r.nav.value)))
  }

  /** The round that ends the loop, and how: a cancelled context, an empty queue, or a navigation that does not return. */
  predicate Ends(r: Round, end: PlayEnd) {
    match end
    case ContextDone => r == Cancelled
    case QueueEmpty => r.Empty?
    case NavAborted => r.Taken? && r.nav.Some? && Aborts(r.nav.value)
  }

  /** Every round of a list goes on to the next. */
  predicate ContinuingRounds(rounds: seq<Round>) {
    forall i :: 0 <= i < |rounds| ==> Continues(rounds[i])
  }

  class Bot {
    const gamer: Gamer
    const queue: Queue
    const fsm: GameFSM
    const exec: Executor.UseCaseExecutor
    /** The screens PopBest counts as the current one. */
    const same: (Screen, Screen) -> bool
    /** AnalyzeAndUpdateState with the rules of a screen, on the gamer. */
    const refresh: (Screen, GamerRecord) -> Result<GamerRecord>
    /** How many restarts a navigation may make. */
    const restarts: nat

    /** NewBot's wiring: one gamer, its queue, shared by the interpreter, and the device's navigator on the same gamer. */
    ghost predicate Valid() {
      fsm.Valid() && fsm.gamer == gamer && exec.Valid() && exec.queue == queue && exec.rdb == queue.rdb
    }

    /** NewBot, given the queue, the interpreter and the navigator it wires together. */
    constructor (gamer: Gamer, queue: Queue, fsm: GameFSM, exec: Executor.UseCaseExecutor,
                 same: (Screen, Screen) -> bool, refresh: (Screen, GamerRecord) -> Result<GamerRecord>, restarts: nat)
      requires fsm.Valid() && fsm.gamer == gamer && exec.Valid() && exec.queue == queue && exec.rdb == queue.rdb
      ensures Valid()
      ensures this.gamer == gamer && this.queue == queue && this.fsm == fsm && this.exec == exec
      ensures this.same == same && this.refresh == refresh && this.restarts == restarts
    {
      this.gamer, this.queue, this.fsm, this.exec := gamer, queue, fsm, exec;
      this.same, this.refresh, this.restarts := same, refresh, restarts;
    }

    /** The loop's state as a value. */
    function Snap(ctx: Executor.Context): BotState
      reads ctx, gamer, gamer.screenState, exec, exec.rdb, fsm
    {
      BotState(exec.Snap(ctx, gamer), fsm.actions, fsm.current)
    }

    /** The gamer after updateStateFromScreen on `screen`: the analysed record, or the same one when the analysis fails. */
    function Refreshed(screen: Screen, rec: GamerRecord): GamerRecord {
      match refresh(screen, rec)
      case Ok(r) => r
      case Err(_) => rec
    }

    /** `s` after the refresh on `screen`. */
    function RefreshedIn(screen: Screen, s: BotState): BotState {
      s.(exec := s.exec.(rec := Refreshed(screen, s.exec.rec)))
    }

    /** `s` after SetLastExecuted of `uc` for the gamer. */
    function CooledIn(s: BotState, uc: UseCase): BotState {
      s.(exec := s.exec.(store := SetLastExecutedS(queue.rdb.fails, s.exec.store, s.exec.rec.id, uc.name, uc.ttl)))
    }

    /**
     * The end of a taken round from `a`: the refresh when asked, then the
     * interpreter's run of the use case with the bot's queue, which leaves
     * the navigator alone.
     */
    ghost predicate RanFrom(a: BotState, uc: UseCase, refreshed: bool, run: (Executor.ExecState, Executor.ExecState), post: BotState) {
      run.0 == (if refreshed then RefreshedIn(uc.node, a) else a).exec &&
      run.1 == Executor.Execution(exec.env, exec.Q(), true, uc, run.0) &&
      post == a.(exec := run.1)
    }

    /**
     * A use case taken in state `m` after its cooldown check said go:
     * navigation to its start screen exactly when the gamer is elsewhere,
     * as ForceTo does it; on EventNotActive a cooldown for its TTL and no
     * run; a navigation that does not return ends there; otherwise a
     * refresh exactly when no switch succeeded, then the run.
     */
    ghost predicate ProceedsFrom(m: BotState, r: Round, post: BotState) {
      match r
      case Taken(uc, _, from, nav, passes, arrived, cooled, refreshed, run) =>
        from == m.exec.rec.screen.currentState &&
        (nav.None? <==> from == uc.node) &&
        (nav.None? ==> passes == [] && arrived == m) &&
        (nav.Some? ==>
          Navigates(fsm.env, fsm.table, fsm.hasDevice, uc.node, restarts, NavOf(m), passes, nav.value, NavOf(arrived)) &&
          arrived == WithNav(m, NavOf(arrived))) &&
        (cooled <==> nav == Some(EventNotActive)) &&
        (cooled ==> !refreshed && run.None? && post == CooledIn(arrived, uc)) &&
        (nav.Some? && Aborts(nav.value) ==> !refreshed && run.None? && post == arrived) &&
        (!cooled && !(nav.Some? && Aborts(nav.value)) ==>
          refreshed == (nav != Some(Done)) && run.Some? && RanFrom(arrived, uc, refreshed, run.value, post))
      case _ => false
    }

    /**
     * One round of the loop from `pre` to `post`. With the context
     * cancelled nothing happens; otherwise a poll is used up and the queue
     * is polled.
     */
    ghost predicate Plays(pre: BotState, r: Round, post: BotState) {
      if pre.exec.budget == 0 then r == Cancelled && post == pre
      else Polls(pre.(exec := pre.exec.(budget := pre.exec.budget - 1)), r, post)
    }

    /**
     * PopBest on the gamer's screen from `p`; a failure or an empty answer
     * ends the round there, a use case goes to its cooldown check.
     */
    ghost predicate Polls(p: BotState, r: Round, post: BotState) {
      !r.Cancelled? &&
      queue.PopBestDid(same, p.exec.rec.screen.currentState, p.exec.store, Popped(r), r.pop.window, r.pop.best, r.pop.after) &&
      var m := p.(exec := p.exec.(store := r.pop.after));
      if r.PopFailed? || r.Empty? then post == m else Checks(m, r, post)
    }

    /**
     * The cooldown check of a popped use case from `m`, one more round
     * trip: dropped when the check fails or says skip, otherwise taken.
     */
    ghost predicate Checks(m: BotState, r: Round, post: BotState) {
      var checked := m.(exec := m.exec.(store := m.exec.store.(ops := m.exec.store.ops + 1)));
      var id := m.exec.rec.id;
      (r.Dropped? &&
       (r.skip.Err? <==> queue.rdb.fails(m.exec.store.ops)) &&
       (r.skip.Ok? ==> r.skip.value == OnCooldown(m.exec.store, id, r.uc.name)) &&
       (r.skip.Err? || r.skip.value) && post == checked) ||
      (r.Taken? &&
       !queue.rdb.fails(m.exec.store.ops) && !OnCooldown(m.exec.store, id, r.uc.name) &&
       ProceedsFrom(checked, r, post))
    }

    /** A round that ends the loop on an empty queue found the gamer's set empty, with ZRANGE working. */
    lemma EmptyRoundFoundNothing(pre: BotState, r: Round, post: BotState)
      requires Plays(pre, r, post) && r.Empty?
      ensures !queue.rdb.fails(pre.exec.store.ops) && Get(pre.exec.store.zsets, queue.gamerID) == map[]
    {
      queue.PopNothingIffEmpty(same, pre.exec.rec.screen.currentState, pre.exec.store, Popped(r), r.pop.window, r.pop.best, r.pop.after);
    }

    /**
     * A use case skipped because its event is not active is on cooldown
     * for the gamer after the round, when the write worked and its TTL is
     * positive: the next check drops it.
     */
    lemma CooledRoundPutsOnCooldown(pre: BotState, r: Round, post: BotState)
      requires Plays(pre, r, post) && r.Taken? && r.cooled
      requires !queue.rdb.fails(r.arrived.exec.store.ops) && r.uc.ttl > 0
      ensures OnCooldown(post.exec.store, pre.exec.rec.id, r.uc.name)
    {
      var m := pre.(exec := pre.exec.(budget := pre.exec.budget - 1, store := r.pop.after.(ops := r.pop.after.ops + 1)));
      NavigatesLeaves(fsm.env, fsm.table, fsm.hasDevice, r.uc.node, restarts, NavOf(m), r.passes, r.nav.value, NavOf(r.arrived));
      assert r.arrived.exec.rec.id == pre.exec.rec.id;
    }

    /** `rounds` played one after the other, each from the state in `states` the one before left. */
    ghost predicate Chain(states: seq<BotState>, rounds: seq<Round>) {
      |states| == |rounds| + 1 && forall i :: 0 <= i < |rounds| ==> Plays(states[i], rounds[i], states[i + 1])
    }

    /** A round played from the last state of a chain extends it. */
    lemma ChainGrows(states: seq<BotState>, rounds: seq<Round>, r: Round, post: BotState)
      requires Chain(states, rounds) && Plays(states[|rounds|], r, post)
      ensures Chain(states + [post], rounds + [r])
    {
      var states', rounds' := states + [post], rounds + [r];
      forall i | 0 <= i < |rounds'|
        ensures Plays(states'[i], rounds'[i], states'[i + 1])
      {
        if i < |rounds| {
          assert states'[i] == states[i] && rounds'[i] == rounds[i] && states'[i + 1] == states[i + 1];
        }
      }
    }

    /** updateStateFromScreen: on a successful analysis the gamer becomes the analysed record. */
    method Refresh(screen: Screen)
      modifies gamer, gamer.screenState
      ensures gamer.Record() == Refreshed(screen, old(gamer.Record()))
    {
      var newState := refresh(screen, gamer.Record());
      if newState.Err? {
        return;
      }
      gamer.Assign(newState.value);
    }

    /**
     * Play. `rounds` are the loop's iterations and `states` the states
     * between them, the first after the refresh on main_city; `home` is
     * the result of the navigation back to the city, made only after the
     * queue ran empty, and `homePasses` its passes.
     */
    method Play(ctx: Executor.Context)
      returns (end: PlayEnd, ghost rounds: seq<Round>, ghost states: seq<BotState>,
               ghost home: Option<NavResult>, ghost homePasses: seq<Pass>)
      requires Valid()
      modifies ctx, gamer, gamer.screenState, queue.rdb, fsm, exec
      ensures |rounds| > 0 && |states| == |rounds| + 1
      ensures states[0] == RefreshedIn(MainCity, old(Snap(ctx)))
      ensures Chain(states, rounds)
      ensures ContinuingRounds(rounds[..|rounds| - 1]) && Ends(rounds[|rounds| - 1], end)
      ensures home.Some? <==> end == QueueEmpty
      ensures home.None? ==> Snap(ctx) == states[|rounds|]
      ensures home.Some? ==>
        Navigates(fsm.env, fsm.table, fsm.hasDevice, MainCity, restarts, NavOf(states[|rounds|]), homePasses, home.value, NavOf(Snap(ctx))) &&
        Snap(ctx) == WithNav(states[|rounds|], NavOf(Snap(ctx)))
      ensures home == Some(Done) ==> fsm.current == MainCity
    {
      Refresh(MainCity);
      end, rounds, states := Rounds(ctx);
      home, homePasses := None, [];
      if end != QueueEmpty {
        return;
      }
      var nav;
      ghost var from, to;
      nav, homePasses, from, to := NavigateTo(ctx, MainCity);
      home := Some(nav);
    }

    /** Play's loop: `rounds` are its iterations and `states` the states between them. */
    method Rounds(ctx: Executor.Context) returns (end: PlayEnd, ghost rounds: seq<Round>, ghost states: seq<BotState>)
      requires Valid()
      modifies ctx, gamer, gamer.screenState, queue.rdb, fsm, exec
      ensures |rounds| > 0 && |states| == |rounds| + 1
      ensures states[0] == old(Snap(ctx)) && states[|rounds|] == Snap(ctx)
      ensures Chain(states, rounds)
      ensures ContinuingRounds(rounds[..|rounds| - 1]) && Ends(rounds[|rounds| - 1], end)
    {
      rounds, states := [], [Snap(ctx)];
      var more := true;
      end := ContextDone;
      while more
        invariant Valid()
        invariant Chain(states, rounds) && states[0] == old(Snap(ctx)) && states[|rounds|] == Snap(ctx)
        invariant more ==> ContinuingRounds(rounds)
        invariant !more ==> |rounds| > 0 && ContinuingRounds(rounds[..|rounds| - 1]) && Ends(rounds[|rounds| - 1], end)
        decreases more, ctx.live
      {
        ghost var round, pre, post;
        more, end, round, pre, post := PlayRound(ctx);
        ChainGrows(states, rounds, round, post);
        assert (rounds + [round])[..|rounds|] == rounds;
        rounds, states := rounds + [round], states + [post];
      }
    }

    /** ForceTo `target` with the bot's restarts, from state `before` to `after`. */
    method NavigateTo(ctx: Executor.Context, target: Screen)
      returns (r: NavResult, ghost passes: seq<Pass>, ghost before: BotState, ghost after: BotState)
      requires Valid()
      modifies gamer.screenState, fsm
      ensures before == old(Snap(ctx)) && after == Snap(ctx)
      ensures Navigates(fsm.env, fsm.table, fsm.hasDevice, target, restarts, NavOf(before), passes, r, NavOf(after))
      ensures after == WithNav(before, NavOf(after))
      ensures r == Done ==> fsm.current == target
    {
      before := Snap(ctx);
      r, passes := fsm.ForceTo(target, restarts);
      after := Snap(ctx);
    }

    /** One iteration of Play's loop, from state `before` to `after`; `more` says whether the loop goes on. */
    method PlayRound(ctx: Executor.Context)
      returns (more: bool, end: PlayEnd, ghost round: Round, ghost before: BotState, ghost after: BotState)
      requires Valid()
      modifies ctx, gamer, gamer.screenState, queue.rdb, fsm, exec
      ensures before == old(Snap(ctx)) && after == Snap(ctx) && Plays(before, round, after)
      ensures more ==> Continues(round) && ctx.live < old(ctx.live)
      ensures !more ==> Ends(round, end)
    {
      var done;
      ghost var polled;
      done, before, polled := Live(ctx);
      if done {
        CancelledRound(before);
        return false, ContextDone, Cancelled, before, polled;
      }
      ghost var start;
      more, end, round, start, after := Poll(ctx);
      PolledRound(before, polled, round, after);
    }

    /** ctx.Done(), from state `before` to `after`: a live context uses up one poll. */
    method Live(ctx: Executor.Context) returns (done: bool, ghost before: BotState, ghost after: BotState)
      modifies ctx
      ensures before == old(Snap(ctx)) && after == Snap(ctx)
      ensures done <==> before.exec.budget == 0
      ensures after == if done then before else before.(exec := before.exec.(budget := before.exec.budget - 1))
    {
      before := Snap(ctx);
      done := ctx.Done();
      after := Snap(ctx);
    }

    /** A round with the context cancelled does nothing. */
    lemma CancelledRound(pre: BotState)
      requires pre.exec.budget == 0
      ensures Plays(pre, Cancelled, pre)
    {
    }

    /** A round whose context was live is its poll of the queue, from one poll fewer. */
    lemma PolledRound(pre: BotState, p: BotState, r: Round, post: BotState)
      requires pre.exec.budget > 0 && p == pre.(exec := pre.exec.(budget := pre.exec.budget - 1))
      requires Polls(p, r, post)
      ensures Plays(pre, r, post)
    {
    }

    /** A round after its poll of the context, from `before` to `after`: PopBest, then the cooldown check. */
    method Poll(ctx: Executor.Context)
      returns (more: bool, end: PlayEnd, ghost round: Round, ghost before: BotState, ghost after: BotState)
      requires Valid()
      modifies ctx, gamer, gamer.screenState, queue.rdb, fsm, exec
      ensures before == old(Snap(ctx)) && after == Snap(ctx) && Polls(before, round, after)
      ensures more ==> Continues(round) && ctx.live <= old(ctx.live)
      ensures !more ==> Ends(round, end)
    {
      before := Snap(ctx);
      end := ContextDone;
      var uc, window, best := PopBest(gamer.screenState.currentState);
      ghost var pop := Pop(window, best, queue.rdb.State());
      if uc.Err? {
        return true, end, PopFailed(uc.msg, pop), before, Snap(ctx);
      }
      if uc.value.None? {
        return false, QueueEmpty, Empty(pop), before, Snap(ctx);
      }
      ghost var m;
      more, end, round, m, after := Check(ctx, uc.value.value, pop);
    }

    /** The cooldown check of a popped use case, and the rest of the round when it says go, from `before` to `after`. */
    method Check(ctx: Executor.Context, uc: UseCase, ghost pop: Pop)
      returns (more: bool, end: PlayEnd, ghost round: Round, ghost before: BotState, ghost after: BotState)
      requires Valid()
      modifies ctx, gamer, gamer.screenState, queue.rdb, fsm, exec
      ensures before == old(Snap(ctx)) && after == Snap(ctx) && Checks(before, round, after)
      ensures round.uc == uc && round.pop == pop
      ensures more ==> Continues(round) && ctx.live <= old(ctx.live)
      ensures !more ==> Ends(round, end)
    {
      end := ContextDone;
      var shouldSkip;
      ghost var checked;
      shouldSkip, before, checked := ShouldSkip(ctx, uc);
      if shouldSkip.Err? || shouldSkip.value {
        round := Dropped(uc, shouldSkip, pop);
        DroppedRound(before, checked, round);
        return true, end, round, before, checked;
      }
      var aborted;
      ghost var start;
      aborted, round, start, after := Proceed(ctx, uc, pop);
      TakenRound(before, checked, round, after);
      if aborted {
        return false, NavAborted, round, before, after;
      }
      more := true;
    }

    /** The queue's cooldown check of `uc` for the gamer, from state `before` to `after`. */
    method ShouldSkip(ctx: Executor.Context, uc: UseCase) returns (skip: Result<bool>, ghost before: BotState, ghost after: BotState)
      requires Valid()
      modifies queue.rdb
      ensures before == old(Snap(ctx)) && after == Snap(ctx)
      ensures skip.Err? <==> queue.rdb.fails(before.exec.store.ops)
      ensures skip.Ok? ==> skip.value == OnCooldown(before.exec.store, before.exec.rec.id, uc.name)
      ensures after == before.(exec := before.exec.(store := before.exec.store.(ops := before.exec.store.ops + 1)))
    {
      before := Snap(ctx);
      skip := queue.ShouldSkip(gamer.id, uc.name);
      after := Snap(ctx);
    }

    /** A use case the check dropped is a dropped round of the check's state. */
    lemma DroppedRound(m: BotState, checked: BotState, r: Round)
      requires r.Dropped? && (r.skip.Err? || r.skip.value)
      requires r.skip.Err? <==> queue.rdb.fails(m.exec.store.ops)
      requires r.skip.Ok? ==> r.skip.value == OnCooldown(m.exec.store, m.exec.rec.id, r.uc.name)
      requires checked == m.(exec := m.exec.(store := m.exec.store.(ops := m.exec.store.ops + 1)))
      ensures Checks(m, r, checked)
    {
    }

    /** A use case the check let through is a taken round of the check's state. */
    lemma TakenRound(m: BotState, checked: BotState, r: Round, post: BotState)
      requires r.Taken? && !queue.rdb.fails(m.exec.store.ops) && !OnCooldown(m.exec.store, m.exec.rec.id, r.uc.name)
      requires checked == m.(exec := m.exec.(store := m.exec.store.(ops := m.exec.store.ops + 1)))
      requires ProceedsFrom(checked, r, post)
      ensures Checks(m, r, post)
    {
    }

    /** The queue's PopBest for the gamer's screen, as the loop sees it. */
    method PopBest(node: Screen) returns (r: Result<Option<UseCase>>, ghost window: seq<Z>, ghost best: int)
      modifies queue.rdb
      ensures queue.PopBestDid(same, node, old(queue.rdb.State()), r, window, best, queue.rdb.State())
    {
      r, window, best := queue.PopBest(node, same);
    }

    /**
     * The rest of a round from `before` to `after`, for a use case that
     * passed the cooldown check: navigation when off its start screen,
     * the refresh, the run. `pop` is what PopBest did earlier in the round.
     */
    method Proceed(ctx: Executor.Context, uc: UseCase, ghost pop: Pop)
      returns (aborted: bool, ghost round: Round, ghost before: BotState, ghost after: BotState)
      requires Valid()
      modifies ctx, gamer, gamer.screenState, queue.rdb, fsm, exec
      ensures before == old(Snap(ctx)) && after == Snap(ctx) && ProceedsFrom(before, round, after)
      ensures round.uc == uc && round.pop == pop
      ensures aborted <==> round.nav.Some? && Aborts(round.nav.value)
      ensures ctx.live <= old(ctx.live)
    {
      before := Snap(ctx);
      var from := gamer.screenState.currentState;
      var switchedScreen := false;
      ghost var nav := None;
      ghost var passes := [];
      ghost var arrived := before;
      if from != uc.node {
        var errForceTo;
        ghost var start;
        errForceTo, passes, start, arrived := NavigateTo(ctx, uc.node);
        nav := Some(errForceTo);
        if errForceTo == EventNotActive {
          ghost var here;
          here, after := Cooldown(ctx, uc);
          return false, Taken(uc, pop, from, nav, passes, arrived, true, false, None), before, after;
        }
        if Aborts(errForceTo) {
          return true, Taken(uc, pop, from, nav, passes, arrived, false, false, None), before, Snap(ctx);
        }
        switchedScreen := errForceTo == Done;
      }
      ghost var run, a;
      run, a, after := RefreshAndRun(ctx, uc, !switchedScreen);
      aborted := false;
      round := Taken(uc, pop, from, nav, passes, arrived, false, !switchedScreen, Some(run));
    }

    /** SetLastExecuted of `uc` for the gamer, from state `before` to `after`; its error is only logged. */
    method Cooldown(ctx: Executor.Context, uc: UseCase) returns (ghost before: BotState, ghost after: BotState)
      requires Valid()
      modifies queue.rdb
      ensures before == old(Snap(ctx)) && after == Snap(ctx) && after == CooledIn(before, uc)
    {
      before := Snap(ctx);
      var _ := queue.SetLastExecuted(gamer.id, uc.name, uc.ttl);
      after := Snap(ctx);
    }

    /** The end of a round from `before` to `after`: the refresh unless a switch succeeded, then the interpreter on the use case. */
    method RefreshAndRun(ctx: Executor.Context, uc: UseCase, refresh: bool)
      returns (ghost run: (Executor.ExecState, Executor.ExecState), ghost before: BotState, ghost after: BotState)
      requires Valid()
      modifies ctx, gamer, gamer.screenState, queue.rdb, exec
      ensures before == old(Snap(ctx)) && after == Snap(ctx)
      ensures RanFrom(before, uc, refresh, run, after) && ctx.live <= old(ctx.live)
    {
      before := Snap(ctx);
      if refresh {
        Refresh(uc.node);
      }
      ghost var start := exec.Snap(ctx, gamer);
      exec.ExecuteUseCase(ctx, uc, gamer, queue);
      run := (start, exec.Snap(ctx, gamer));
      after := Snap(ctx);
    }
  }
}
