/**
 * The use-case refiller (internal/redis_queue/refill.go). At start it loads
 * the use cases and registers one cron job for each that has a schedule;
 * each job, when run, pushes its use case to every gamer's queue unless the
 * use case is on cooldown for that gamer.
 *
 * The cron library is not part of this model: whether it accepts a schedule
 * is a predicate, and a job run is a call of RunJob. The gamers a job sees
 * are the IDs of the configuration's gamers, as an argument.
 */
module Refill {
  import opened Wrappers
  import opened UseCases
  import opened RedisQueue

  /** The use cases that get a job, in load order. */
  function Scheduled(us: seq<UseCase>, cronValid: string -> bool): (r: seq<UseCase>)
    ensures |r| <= |us|
  {
    if us == [] then []
    else (if us[0].cron != "" && cronValid(us[0].cron) then [us[0]] else []) + Scheduled(us[1..], cronValid)
  }

  /** A use case gets a job exactly when it was loaded and has a schedule the library accepts. */
  lemma {:induction false} ScheduledMembership(us: seq<UseCase>, cronValid: string -> bool, u: UseCase)
    ensures u in Scheduled(us, cronValid) <==> u in us && u.cron != "" && cronValid(u.cron)
    decreases |us|
  {
    if us != [] {
      ScheduledMembership(us[1..], cronValid, u);
      assert us == [us[0]] + us[1..];
    }
  }

  /**
   * StartGlobalUsecaseRefiller, up to registering the jobs: the use cases
   * whose job was created. A failed load or scheduler start registers none.
   */
  method StartRefiller(loaded: Result<seq<UseCase>>, schedulerFails: bool, cronValid: string -> bool)
    returns (jobs: seq<UseCase>)
    ensures loaded.Err? || schedulerFails ==> jobs == []
    ensures loaded.Ok? && !schedulerFails ==> jobs == Scheduled(loaded.value, cronValid)
  {
    jobs := [];
    if loaded.Err? || schedulerFails {
      return;
    }
    var us := loaded.value;
    for i := 0 to |us|
      invariant jobs + Scheduled(us[i..], cronValid) == Scheduled(us, cronValid)
    {
      assert us[i..][1..] == us[i + 1..];
      ghost var rest := Scheduled(us[i + 1..], cronValid);
      assert Scheduled(us[i..], cronValid) ==
        (if us[i].cron != "" && cronValid(us[i].cron) then [us[i]] else []) + rest;
      if us[i].cron == "" {
        assert [] + rest == rest;
        continue;
      }
      if cronValid(us[i].cron) {
        assert jobs + ([us[i]] + rest) == (jobs + [us[i]]) + rest;
        jobs := jobs + [us[i]];
      } else {
        assert [] + rest == rest;
      }
    }
    assert us[|us|..] == [];
  }

  /**
   * A job run for one gamer: the cooldown check, then, unless it failed or
   * said skip, the push. One or two round trips; only that gamer's queue
   * may change, and never a cooldown.
   */
  function RefillGamer(fails: nat -> bool, codec: Codec, uc: UseCase, s: Store, id: int): (r: Store)
    ensures r.cooldowns == s.cooldowns && r.now == s.now
    ensures r.ops == s.ops + (if fails(s.ops) || OnCooldown(s, id, uc.name) then 1 else 2)
    ensures forall other :: other != id ==> Get(r.zsets, other) == Get(s.zsets, other)
  {
    var s1 := s.(ops := s.ops + 1);
    if fails(s.ops) || OnCooldown(s, id, uc.name) then s1
    else ZAddS(fails, s1, id, codec.encode(uc), Score(uc))
  }

  /**
   * A job run: every gamer in turn, with one or two round trips each and
   * the cooldowns untouched.
   */
  function RefillJob(fails: nat -> bool, codec: Codec, uc: UseCase, s: Store, ids: seq<int>): (r: Store)
    ensures r.cooldowns == s.cooldowns && r.now == s.now
    ensures s.ops + |ids| <= r.ops <= s.ops + 2 * |ids|
    decreases |ids|
  {
    if ids == [] then s
    else RefillJob(fails, codec, uc, RefillGamer(fails, codec, uc, s, ids[0]), ids[1..])
  }

  /** The job's task. */
  method RunJob(rdb: Redis, codec: Codec, uc: UseCase, ids: seq<int>)
    modifies rdb
    ensures rdb.State() == RefillJob(rdb.fails, codec, uc, old(rdb.State()), ids)
  {
    ghost var final := RefillJob(rdb.fails, codec, uc, rdb.State(), ids);
    for i := 0 to |ids|
      invariant RefillJob(rdb.fails, codec, uc, rdb.State(), ids[i..]) == final
    {
      assert ids[i..][1..] == ids[i + 1..];
      var queue := new Queue(rdb, ids[i], codec);
      var shouldSkip := queue.ShouldSkip(ids[i], uc.name);
      if shouldSkip.Err? {
        continue;
      }
      if shouldSkip.value {
        continue;
      }
      var _ := queue.Push(uc);
    }
    assert ids[|ids|..] == [];
  }

  /**
   * One gamer of a job run: the use case lands in that gamer's queue with
   * its score exactly when the cooldown check and the push both went
   * through and it was not on cooldown; no other queue and no cooldown changes.
   */
  lemma RefillGamerEffect(fails: nat -> bool, codec: Codec, uc: UseCase, s: Store, id: int)
    ensures var r := RefillGamer(fails, codec, uc, s, id);
      r.cooldowns == s.cooldowns && r.now == s.now &&
      (forall other :: other != id ==> Get(r.zsets, other) == Get(s.zsets, other)) &&
      (fails(s.ops) || OnCooldown(s, id, uc.name) || fails(s.ops + 1) ==> r.zsets == s.zsets) &&
      (!fails(s.ops) && !OnCooldown(s, id, uc.name) && !fails(s.ops + 1) ==>
        Get(r.zsets, id) == Get(s.zsets, id)[codec.encode(uc) := Score(uc)])
  {
  }

  /**
   * Once a gamer's queue holds the use case, the rest of the run keeps it:
   * a failure or a skip for a later gamer does not take it away.
   */
  lemma {:induction false} RefillJobKeeps(fails: nat -> bool, codec: Codec, uc: UseCase, s: Store, ids: seq<int>, id: int)
    requires codec.encode(uc) in Get(s.zsets, id) && Get(s.zsets, id)[codec.encode(uc)] == Score(uc)
    ensures var r := RefillJob(fails, codec, uc, s, ids);
      codec.encode(uc) in Get(r.zsets, id) && Get(r.zsets, id)[codec.encode(uc)] == Score(uc)
    decreases |ids|
  {
    if ids != [] {
      RefillGamerEffect(fails, codec, uc, s, ids[0]);
      RefillJobKeeps(fails, codec, uc, RefillGamer(fails, codec, uc, s, ids[0]), ids[1..], id);
    }
  }

  /** A job run leaves the cooldowns and every queue of a gamer it does not list as they were. */
  lemma {:induction false} RefillJobFrame(fails: nat -> bool, codec: Codec, uc: UseCase, s: Store, ids: seq<int>, other: int)
    requires other !in ids
    ensures var r := RefillJob(fails, codec, uc, s, ids);
      Get(r.zsets, other) == Get(s.zsets, other) && r.cooldowns == s.cooldowns
    decreases |ids|
  {
    if ids != [] {
      RefillGamerEffect(fails, codec, uc, s, ids[0]);
      RefillJobFrame(fails, codec, uc, RefillGamer(fails, codec, uc, s, ids[0]), ids[1..], other);
    }
  }

  /**
   * A job run with no failed round trip leaves the use case, with its
   * score, in the queue of every listed gamer that is not on cooldown.
   */
  lemma {:induction false} RefillJobReachesEveryone(fails: nat -> bool, codec: Codec, uc: UseCase, s: Store, ids: seq<int>, id: int)
    requires forall k :: s.ops <= k < s.ops + 2 * |ids| ==> !fails(k)
    requires id in ids && !OnCooldown(s, id, uc.name)
    ensures var r := RefillJob(fails, codec, uc, s, ids);
      codec.encode(uc) in Get(r.zsets, id) && Get(r.zsets, id)[codec.encode(uc)] == Score(uc)
    decreases |ids|
  {
    var s' := RefillGamer(fails, codec, uc, s, ids[0]);
    RefillGamerEffect(fails, codec, uc, s, ids[0]);
    if ids[0] == id {
      RefillJobKeeps(fails, codec, uc, s', ids[1..], id);
    } else {
      assert s'.cooldowns == s.cooldowns && s'.now == s.now;
      assert s'.ops <= s.ops + 2;
      RefillJobReachesEveryone(fails, codec, uc, s', ids[1..], id);
    }
  }
}
