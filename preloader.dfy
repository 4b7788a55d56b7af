/**
 * PreloadQueues (internal/redis_queue/preloader.go): for every gamer of
 * every profile, delete the gamer's queue, load the use cases and add each
 * one with score 100 - priority. A failed delete or load skips that gamer;
 * a failed add skips that use case. The loader's answer for each gamer is
 * an argument, keyed by the gamer's ID.
 */
module Preloader {
  import opened Wrappers
  import opened UseCases
  import opened Gamers
  import opened RedisQueue
  import Devices

  type Loader = int -> Result<seq<UseCase>>

  /** The IDs of some gamers, in order. */
  function IdsOf(gs: seq<GamerRecord>): (r: seq<int>)
    ensures |r| == |gs| && forall i :: 0 <= i < |gs| ==> r[i] == gs[i].id
  {
    if gs == [] then [] else [gs[0].id] + IdsOf(gs[1..])
  }

  /** The IDs of every gamer of every profile, profile by profile. */
  function GamerIDs(ps: seq<Devices.Profile>): seq<int> {
    if ps == [] then [] else IdsOf(ps[0].gamers) + GamerIDs(ps[1..])
  }

  /** The serialisations of some use cases, in order. */
  function Encodings(codec: Codec, us: seq<UseCase>): (r: seq<string>)
    ensures |r| == |us| && forall i :: 0 <= i < |us| ==> r[i] == codec.encode(us[i])
  {
    if us == [] then [] else [codec.encode(us[0])] + Encodings(codec, us[1..])
  }

  /** The adds for one gamer: one ZADD per use case, in order. */
  function Fill(fails: nat -> bool, codec: Codec, s: Store, key: int, us: seq<UseCase>): (r: Store)
    ensures r.ops == s.ops + |us| && r.cooldowns == s.cooldowns && r.now == s.now
    decreases |us|
  {
    if us == [] then s
    else Fill(fails, codec, ZAddS(fails, s, key, codec.encode(us[0]), Score(us[0])), key, us[1..])
  }

  /**
   * One gamer: DEL, then, if that worked and the load did too, the adds:
   * one round trip for the DEL and one per loaded use case, with the
   * cooldowns untouched.
   */
  function PreloadGamer(fails: nat -> bool, codec: Codec, load: Loader, s: Store, id: int): (r: Store)
    ensures r.cooldowns == s.cooldowns && r.now == s.now
    ensures r.ops == s.ops + 1 + (if fails(s.ops) || load(id).Err? then 0 else |load(id).value|)
  {
    var s1 := DelS(fails, s, id);
    if fails(s.ops) || load(id).Err? then s1
    else Fill(fails, codec, s1, id, load(id).value)
  }

  /** Every gamer in turn: at least one round trip each, with the cooldowns untouched. */
  function PreloadAll(fails: nat -> bool, codec: Codec, load: Loader, s: Store, ids: seq<int>): (r: Store)
    ensures r.cooldowns == s.cooldowns && r.now == s.now
    ensures r.ops >= s.ops + |ids|
    decreases |ids|
  {
    if ids == [] then s
    else PreloadAll(fails, codec, load, PreloadGamer(fails, codec, load, s, ids[0]), ids[1..])
  }

  /** PreloadQueues. */
  method PreloadQueues(rdb: Redis, profiles: seq<Devices.Profile>, codec: Codec, load: Loader)
    modifies rdb
    ensures rdb.State() == PreloadAll(rdb.fails, codec, load, old(rdb.State()), GamerIDs(profiles))
  {
    ghost var final := PreloadAll(rdb.fails, codec, load, rdb.State(), GamerIDs(profiles));
    for p := 0 to |profiles|
      invariant PreloadAll(rdb.fails, codec, load, rdb.State(), GamerIDs(profiles[p..])) == final
    {
      assert profiles[p..][1..] == profiles[p + 1..];
      PreloadProfile(rdb, codec, load, profiles[p].gamers, GamerIDs(profiles[p + 1..]));
    }
    assert profiles[|profiles|..] == [];
  }

  /** The inner loop, over the gamers of one profile; `later` is the work left after it. */
  method PreloadProfile(rdb: Redis, codec: Codec, load: Loader, gamers: seq<GamerRecord>, ghost later: seq<int>)
    modifies rdb
    ensures PreloadAll(rdb.fails, codec, load, rdb.State(), later) ==
            PreloadAll(rdb.fails, codec, load, old(rdb.State()), IdsOf(gamers) + later)
  {
    ghost var ids := IdsOf(gamers) + later;
    ghost var final := PreloadAll(rdb.fails, codec, load, rdb.State(), ids);
    for g := 0 to |gamers|
      invariant PreloadAll(rdb.fails, codec, load, rdb.State(), ids[g..]) == final
    {
      PreloadAllCons(rdb.fails, codec, load, rdb.State(), ids, g);
      PreloadOne(rdb, codec, load, gamers[g].id);
    }
    assert ids[|gamers|..] == later;
  }

  lemma PreloadAllCons(fails: nat -> bool, codec: Codec, load: Loader, s: Store, ids: seq<int>, g: int)
    requires 0 <= g < |ids|
    ensures PreloadAll(fails, codec, load, s, ids[g..]) ==
            PreloadAll(fails, codec, load, PreloadGamer(fails, codec, load, s, ids[g]), ids[g + 1..])
  {
    assert ids[g..][1..] == ids[g + 1..];
  }

  /** The body of the inner loop, for one gamer. */
  method PreloadOne(rdb: Redis, codec: Codec, load: Loader, id: int)
    modifies rdb
    ensures rdb.State() == PreloadGamer(rdb.fails, codec, load, old(rdb.State()), id)
  {
    var err := rdb.Del(id);
    if err.Some? {
      return;
    }
    var usecases := load(id);
    if usecases.Err? {
      return;
    }
    var us := usecases.value;
    ghost var final := Fill(rdb.fails, codec, rdb.State(), id, us);
    for k := 0 to |us|
      invariant Fill(rdb.fails, codec, rdb.State(), id, us[k..]) == final
    {
      assert us[k..][1..] == us[k + 1..];
      var _ := rdb.ZAdd(id, codec.encode(us[k]), Score(us[k]));
    }
    assert us[|us|..] == [];
  }

  // ---------------------------------------------------------------------
  // What preloading leaves behind
  // ---------------------------------------------------------------------

  /** An entry whose every later re-add carries the same score survives the adds. */
  lemma {:induction false} FillKeeps(fails: nat -> bool, codec: Codec, s: Store, key: int, us: seq<UseCase>, m: string)
    requires m in Get(s.zsets, key)
    requires forall j :: 0 <= j < |us| && codec.encode(us[j]) == m ==> Score(us[j]) == Get(s.zsets, key)[m]
    ensures var r := Fill(fails, codec, s, key, us);
      m in Get(r.zsets, key) && Get(r.zsets, key)[m] == Get(s.zsets, key)[m]
    decreases |us|
  {
    if us != [] {
      var s' := ZAddS(fails, s, key, codec.encode(us[0]), Score(us[0]));
      assert m in Get(s'.zsets, key) && Get(s'.zsets, key)[m] == Get(s.zsets, key)[m];
      FillKeeps(fails, codec, s', key, us[1..], m);
    }
  }

  /**
   * Every use case whose own ZADD went through is in the queue with score
   * 100 - priority, whatever happened to the other adds.
   */
  lemma {:induction false} FillAdds(fails: nat -> bool, codec: Codec, s: Store, key: int, us: seq<UseCase>, i: int)
    requires ValidCodec(codec) && 0 <= i < |us| && !fails(s.ops + i)
    ensures var r := Fill(fails, codec, s, key, us);
      codec.encode(us[i]) in Get(r.zsets, key) && Get(r.zsets, key)[codec.encode(us[i])] == Score(us[i])
    decreases |us|
  {
    var s' := ZAddS(fails, s, key, codec.encode(us[0]), Score(us[0]));
    if i == 0 {
      var m := codec.encode(us[0]);
      forall j | 0 <= j < |us[1..]| && codec.encode(us[1..][j]) == m
        ensures Score(us[1..][j]) == Get(s'.zsets, key)[m]
      {
        SameEncodingSameScore(codec, us[0], us[1..][j]);
      }
      FillKeeps(fails, codec, s', key, us[1..], m);
    } else {
      FillAdds(fails, codec, s', key, us[1..], i - 1);
    }
  }

  /** The adds bring in nothing but the serialisations of the loaded use cases, and touch no other queue. */
  lemma {:induction false} FillOnlyAdds(fails: nat -> bool, codec: Codec, s: Store, key: int, us: seq<UseCase>)
    ensures var r := Fill(fails, codec, s, key, us);
      (forall m :: m in Get(r.zsets, key) ==> m in Get(s.zsets, key) || m in Encodings(codec, us)) &&
      (forall other :: other != key ==> Get(r.zsets, other) == Get(s.zsets, other))
    decreases |us|
  {
    if us != [] {
      var s' := ZAddS(fails, s, key, codec.encode(us[0]), Score(us[0]));
      FillOnlyAdds(fails, codec, s', key, us[1..]);
      forall other | other != key
        ensures Get(s'.zsets, other) == Get(s.zsets, other)
      {
        ZAddFrame(fails, s, key, codec.encode(us[0]), Score(us[0]), other, "");
      }
      assert Encodings(codec, us) == [codec.encode(us[0])] + Encodings(codec, us[1..]);
    }
  }

  /**
   * One gamer's preload: a failed delete changes nothing; a failed load
   * leaves the queue empty; otherwise the queue holds only loaded use
   * cases, old entries gone, and each whose add went through is there with
   * its score. No other gamer's queue and no cooldown changes.
   */
  lemma PreloadGamerEffect(fails: nat -> bool, codec: Codec, load: Loader, s: Store, id: int)
    requires ValidCodec(codec)
    ensures var r := PreloadGamer(fails, codec, load, s, id);
      r.cooldowns == s.cooldowns &&
      (forall other :: other != id ==> Get(r.zsets, other) == Get(s.zsets, other)) &&
      (fails(s.ops) ==> r.zsets == s.zsets) &&
      (!fails(s.ops) && load(id).Err? ==> Get(r.zsets, id) == map[]) &&
      (!fails(s.ops) && load(id).Ok? ==>
        (forall m :: m in Get(r.zsets, id) ==> m in Encodings(codec, load(id).value)) &&
        (forall i :: 0 <= i < |load(id).value| && !fails(s.ops + 1 + i) ==>
          codec.encode(load(id).value[i]) in Get(r.zsets, id) &&
          Get(r.zsets, id)[codec.encode(load(id).value[i])] == Score(load(id).value[i])))
  {
    var s1 := DelS(fails, s, id);
    assert forall other :: other != id ==> Get(s1.zsets, other) == Get(s.zsets, other);
    if !fails(s.ops) && load(id).Ok? {
      var us := load(id).value;
      assert Get(s1.zsets, id) == map[];
      FillOnlyAdds(fails, codec, s1, id, us);
      forall i | 0 <= i < |us| && !fails(s.ops + 1 + i)
        ensures var r := Fill(fails, codec, s1, id, us);
          codec.encode(us[i]) in Get(r.zsets, id) && Get(r.zsets, id)[codec.encode(us[i])] == Score(us[i])
      {
        FillAdds(fails, codec, s1, id, us, i);
      }
    } else if !fails(s.ops) {
      FillOnlyAdds(fails, codec, DelS(fails, s, id), id, []);
    }
  }

  /** A gamer the preload does not list keeps its queue, and the cooldowns are left alone. */
  lemma {:induction false} PreloadAllFrame(fails: nat -> bool, codec: Codec, load: Loader, s: Store, ids: seq<int>, other: int)
    requires ValidCodec(codec) && other !in ids
    ensures var r := PreloadAll(fails, codec, load, s, ids);
      Get(r.zsets, other) == Get(s.zsets, other) && r.cooldowns == s.cooldowns
    decreases |ids|
  {
    if ids != [] {
      PreloadGamerEffect(fails, codec, load, s, ids[0]);
      PreloadAllFrame(fails, codec, load, PreloadGamer(fails, codec, load, s, ids[0]), ids[1..], other);
    }
  }
}
