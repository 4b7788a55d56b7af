/**
 * The per-gamer priority queue (internal/redis_queue/redis_queue.go) and the
 * Redis server it talks to.
 *
 * The server is modelled by its sorted sets and the cooldown ledger. Each
 * sorted set maps a member to its score, with Redis semantics: ZADD of a
 * member already present only changes its score, and ZRANGE lists members
 * by score and then by member bytes. The key "bot:queue:gamer:<id>" is
 * one-to-one with the gamer ID, so the sets are keyed by the ID itself.
 * A round trip to the server fails when the failure oracle says so for its
 * sequence number; a failed round trip changes nothing but that number.
 * JSON is a codec whose decoding gives back the use case without its
 * source path, which is not serialised.
 */
module RedisQueue {
  import opened Wrappers
  import opened Screens
  import opened UseCases
  import Text

  /** The score bonus of a use case for the screen group the player is on. */
  const ScreenBoost := 5
  /** How many of the lowest-ranked entries PopBest looks at. */
  const ScanWindow := 20
  /** PopBest's starting best score (1e9): an entry must score below it to be chosen. */
  const NoScore := 1000000000

  const NoDecodable := "no decodable use cases in queue window"
  const DecodeError := "cannot decode use case"
  const RedisError := "redis: request failed"

  /** A sorted-set entry, as redis.Z. */
  datatype Z = Z(score: int, member: string)

  type ZSet = map<string, int>

  /** The server state the queues use. `ops` counts round trips. */
  datatype Store = Store(
    zsets: map<int, ZSet>,
    cooldowns: map<(int, string), int>,
    now: int,
    ops: nat)

  /** The JSON encoding of a use case and its decoding of arbitrary members. */
  datatype Codec = Codec(encode: UseCase -> string, decode: string -> Option<UseCase>)

  /**
   * json.Unmarshal(json.Marshal(u)) gives u back, except for the
   * unserialised source path. Idealised: Go reads a number in `to` back as
   * a float64, a kind `Val` does not have.
   */
  ghost predicate ValidCodec(c: Codec) {
    forall u :: c.decode(c.encode(u)) == Some(Strip(u))
  }

  /** Two use cases with the same serialisation agree on everything but the source path. */
  lemma SameEncodingSameScore(c: Codec, u: UseCase, v: UseCase)
    requires ValidCodec(c) && c.encode(u) == c.encode(v)
    ensures Strip(u) == Strip(v) && u.priority == v.priority
  {
    assert Some(Strip(u)) == c.decode(c.encode(u)) == c.decode(c.encode(v)) == Some(Strip(v));
  }

  /** The score Push gives a use case: higher priority, lower score. */
  function Score(u: UseCase): int {
    100 - u.priority
  }

  /** A missing key reads as the empty set, as in Redis. */
  function Get(zs: map<int, ZSet>, key: int): ZSet {
    if key in zs then zs[key] else map[]
  }

  function Min(a: int, b: int): int {
    if a < b then a else b
  }

  // ---------------------------------------------------------------------
  // Redis order
  // ---------------------------------------------------------------------

  /** ZRANGE order: by score, then by member bytes. */
  predicate Before(z: ZSet, a: string, b: string)
    requires a in z && b in z
  {
    z[a] < z[b] || (z[a] == z[b] && Text.Less(a, b))
  }

  lemma BeforeIrreflexive(z: ZSet, a: string)
    requires a in z
    ensures !Before(z, a, a)
  {
    Text.LessIrreflexive(a);
  }

  lemma BeforeAsymmetric(z: ZSet, a: string, b: string)
    requires a in z && b in z && Before(z, a, b)
    ensures !Before(z, b, a)
  {
    if z[a] == z[b] {
      Text.LessAsymmetric(a, b);
    }
  }

  lemma BeforeTransitive(z: ZSet, a: string, b: string, c: string)
    requires a in z && b in z && c in z && Before(z, a, b) && Before(z, b, c)
    ensures Before(z, a, c)
  {
    if z[a] == z[b] == z[c] {
      Text.LessTransitive(a, b, c);
    }
  }

  lemma BeforeTotal(z: ZSet, a: string, b: string)
    requires a in z && b in z
    ensures a == b || Before(z, a, b) || Before(z, b, a)
  {
    Text.LessTotal(a, b);
  }

  /** The members of a list of entries, in order. */
  function Members(w: seq<Z>): (r: seq<string>)
    ensures |r| == |w| && forall i :: 0 <= i < |w| ==> r[i] == w[i].member
  {
    if w == [] then [] else [w[0].member] + Members(w[1..])
  }

  /**
   * `w` is a leading part of the set in ZRANGE order: its entries carry
   * their stored scores, come in order, and rank before every member left out.
   */
  ghost predicate Ranked(z: ZSet, w: seq<Z>) {
    (forall i :: 0 <= i < |w| ==> w[i].member in z && z[w[i].member] == w[i].score) &&
    (forall i, j :: 0 <= i < j < |w| ==> Before(z, w[i].member, w[j].member)) &&
    (forall i, m :: 0 <= i < |w| && m in z && m !in Members(w) ==> Before(z, w[i].member, m))
  }

  /** ZRANGE is determined by the set: two leading parts of one length are equal. */
  lemma {:induction false} RankedUnique(z: ZSet, w1: seq<Z>, w2: seq<Z>)
    requires Ranked(z, w1) && Ranked(z, w2) && |w1| == |w2|
    ensures w1 == w2
  {
    RankedAgreeBelow(z, w1, w2, |w1|);
  }

  lemma {:induction false} RankedAgreeBelow(z: ZSet, w1: seq<Z>, w2: seq<Z>, k: nat)
    requires Ranked(z, w1) && Ranked(z, w2) && |w1| == |w2| && k <= |w1|
    ensures forall j :: 0 <= j < k ==> w1[j] == w2[j]
    decreases k
  {
    if k > 0 {
      RankedAgreeBelow(z, w1, w2, k - 1);
      RankedAgreeAt(z, w1, w2, k - 1);
    }
  }

  /** The first place two leading parts could differ holds the same entry in both. */
  lemma RankedAgreeAt(z: ZSet, w1: seq<Z>, w2: seq<Z>, i: nat)
    requires Ranked(z, w1) && Ranked(z, w2) && |w1| == |w2| && i < |w1|
    requires forall j :: 0 <= j < i ==> w1[j] == w2[j]
    ensures w1[i] == w2[i]
  {
    var a, b := w1[i].member, w2[i].member;
    if a != b {
      assert Before(z, b, a) by { RankedFollows(z, w1, w2, i); }
      assert Before(z, a, b) by { RankedFollows(z, w2, w1, i); }
      BeforeAsymmetric(z, a, b);
    }
  }

  /** When two leading parts agree below i but differ at i, w2's entry at i ranks before w1's. */
  lemma RankedFollows(z: ZSet, w1: seq<Z>, w2: seq<Z>, i: nat)
    requires Ranked(z, w1) && Ranked(z, w2) && |w1| == |w2| && i < |w1|
    requires forall j :: 0 <= j < i ==> w1[j] == w2[j]
    requires w1[i].member != w2[i].member
    ensures Before(z, w2[i].member, w1[i].member)
  {
    var a := w1[i].member;
    if a in Members(w2) {
      var j :| 0 <= j < |w2| && Members(w2)[j] == a;
      if j < i {
        assert w1[j].member == a;
        BeforeIrreflexive(z, a);
      }
    }
  }

  /**
   * The member of `s` that ranks first.
   */
  method MinOf(z: ZSet, s: set<string>) returns (m: string)
    requires s != {} && s <= z.Keys
    ensures m in s && forall x :: x in s && x != m ==> Before(z, m, x)
  {
    m :| m in s;
    var todo := s - {m};
    while todo != {}
      invariant todo <= s && m in s && m !in todo
      invariant forall x :: x in s && x !in todo && x != m ==> Before(z, m, x)
      decreases todo
    {
      var x :| x in todo;
      BeforeTotal(z, x, m);
      if Before(z, x, m) {
        forall y | y in s && y !in todo && y != m
          ensures Before(z, x, y)
        {
          BeforeTransitive(z, x, m, y);
        }
        m := x;
      }
      todo := todo - {x};
      forall y | y in s && y !in todo && y != m
        ensures Before(z, m, y)
      {
        if y == x { BeforeTotal(z, x, m); }
      }
    }
  }

  /** ZRANGE 0 n-1 WITHSCORES over one set: its first min(n, |z|) entries. */
  method TopN(z: ZSet, n: nat) returns (w: seq<Z>)
    ensures Ranked(z, w) && |w| == Min(n, |z|)
  {
    w := [];
    var rest := z.Keys;
    while |w| < n && rest != {}
      invariant |w| <= n && |w| + |rest| == |z|
      invariant Unlisted(z, w, rest) && Ranked(z, w)
      decreases rest
    {
      var m := MinOf(z, rest);
      TopNStep(z, w, rest, m);
      w, rest := w + [Z(z[m], m)], rest - {m};
    }
  }

  /** `rest` holds exactly the members of z that w does not list. */
  ghost predicate Unlisted(z: ZSet, w: seq<Z>, rest: set<string>) {
    rest <= z.Keys && forall x :: x in z ==> (x in rest <==> x !in Members(w))
  }

  /** One round of TopN: moving the first unlisted member to the end of the list. */
  lemma TopNStep(z: ZSet, w: seq<Z>, rest: set<string>, m: string)
    requires Unlisted(z, w, rest) && Ranked(z, w)
    requires m in rest && forall x :: x in rest && x != m ==> Before(z, m, x)
    ensures Unlisted(z, w + [Z(z[m], m)], rest - {m}) && Ranked(z, w + [Z(z[m], m)])
    ensures |rest - {m}| == |rest| - 1
  {
    RankedAppend(z, w, m);
    assert Members(w + [Z(z[m], m)]) == Members(w) + [m];
  }

  /** Appending the first of the members not yet listed keeps a leading part. */
  lemma RankedAppend(z: ZSet, w: seq<Z>, m: string)
    requires Ranked(z, w) && m in z && m !in Members(w)
    requires forall x :: x in z && x !in Members(w) && x != m ==> Before(z, m, x)
    ensures Ranked(z, w + [Z(z[m], m)])
  {
    var w' := w + [Z(z[m], m)];
    assert Members(w') == Members(w) + [m];
    forall i, x | 0 <= i < |w'| && x in z && x !in Members(w')
      ensures Before(z, w'[i].member, x)
    {
      if i < |w| {
        assert w'[i] == w[i];
      }
    }
  }

  // ---------------------------------------------------------------------
  // Server writes, as functions of the store
  // ---------------------------------------------------------------------

  /** A round trip numbered s.ops: on failure only the counter moves, otherwise `done` is the new store. */
  function Trip(fails: nat -> bool, s: Store, done: Store): (r: Store)
    ensures r.ops == s.ops + 1
  {
    if fails(s.ops) then s.(ops := s.ops + 1) else done.(ops := s.ops + 1)
  }

  /** ZADD key score member. */
  function ZAddS(fails: nat -> bool, s: Store, key: int, m: string, score: int): Store {
    Trip(fails, s, s.(zsets := s.zsets[key := Get(s.zsets, key)[m := score]]))
  }

  /** DEL key. */
  function DelS(fails: nat -> bool, s: Store, key: int): Store {
    Trip(fails, s, s.(zsets := s.zsets - {key}))
  }

  /** The cooldown entry SetLastExecuted writes: the name is on cooldown until now + ttl. */
  function SetLastExecutedS(fails: nat -> bool, s: Store, gamerID: int, name: string, ttl: int): Store {
    Trip(fails, s, s.(cooldowns := s.cooldowns[(gamerID, name) := s.now + ttl]))
  }

  /** Whether a use case is still on cooldown for a gamer. */
  predicate OnCooldown(s: Store, gamerID: int, name: string) {
    (gamerID, name) in s.cooldowns && s.cooldowns[(gamerID, name)] > s.now
  }

  /** ZADD changes the set it names, and only that one, at one member. */
  lemma ZAddFrame(fails: nat -> bool, s: Store, key: int, m: string, score: int, other: int, x: string)
    ensures var t := ZAddS(fails, s, key, m, score);
      t.cooldowns == s.cooldowns && t.now == s.now &&
      (other != key ==> Get(t.zsets, other) == Get(s.zsets, other)) &&
      (!fails(s.ops) ==> m in Get(t.zsets, key) && Get(t.zsets, key)[m] == score &&
                         Get(t.zsets, key).Keys == Get(s.zsets, key).Keys + {m}) &&
      (x != m && x in Get(s.zsets, key) ==> x in Get(t.zsets, key) && Get(t.zsets, key)[x] == Get(s.zsets, key)[x])
  {
  }

  /** The server. Its state is `State()`; `fails` decides which round trips fail. */
  class Redis {
    var zsets: map<int, ZSet>
    var cooldowns: map<(int, string), int>
    var now: int
    var ops: nat
    const fails: nat -> bool

    function State(): Store
      reads this
    {
      Store(zsets, cooldowns, now, ops)
    }

    constructor (s: Store, fails: nat -> bool)
      ensures State() == s && this.fails == fails
    {
      zsets, cooldowns, now, ops := s.zsets, s.cooldowns, s.now, s.ops;
      this.fails := fails;
    }

    method Commit(s: Store)
      modifies this
      ensures State() == s
    {
      zsets, cooldowns, now, ops := s.zsets, s.cooldowns, s.now, s.ops;
    }

    /** A read-only round trip: whether it fails. */
    method Read() returns (failed: bool)
      modifies this
      ensures failed == fails(old(ops))
      ensures State() == old(State()).(ops := old(ops) + 1)
    {
      failed := fails(ops);
      ops := ops + 1;
    }

    method ZAdd(key: int, m: string, score: int) returns (err: Option<string>)
      modifies this
      ensures err.Some? <==> fails(old(ops))
      ensures State() == ZAddS(fails, old(State()), key, m, score)
    {
      err := if fails(ops) then Some(RedisError) else None;
      Commit(ZAddS(fails, State(), key, m, score));
    }

    /** ZREM key members... */
    method ZRem(key: int, ms: seq<string>) returns (err: Option<string>)
      modifies this
      ensures err.Some? <==> fails(old(ops))
      ensures zsets == if err.Some? then old(zsets) else old(zsets)[key := Get(old(zsets), key) - (set m | m in ms)]
      ensures cooldowns == old(cooldowns) && now == old(now) && ops == old(ops) + 1
    {
      err := if fails(ops) then Some(RedisError) else None;
      if err.None? {
        zsets := zsets[key := Get(zsets, key) - (set m | m in ms)];
      }
      ops := ops + 1;
    }

    method Del(key: int) returns (err: Option<string>)
      modifies this
      ensures err.Some? <==> fails(old(ops))
      ensures State() == DelS(fails, old(State()), key)
    {
      err := if fails(ops) then Some(RedisError) else None;
      Commit(DelS(fails, State(), key));
    }

    /** ZRANGE key 0 n-1 WITHSCORES. */
    method ZRange(key: int, n: nat) returns (r: Result<seq<Z>>)
      modifies this
      ensures r.Err? <==> fails(old(ops))
      ensures r.Ok? ==> Ranked(Get(zsets, key), r.value) && |r.value| == Min(n, |Get(zsets, key)|)
      ensures State() == old(State()).(ops := old(ops) + 1)
    {
      var failed := Read();
      if failed {
        return Err(RedisError);
      }
      var w := TopN(Get(zsets, key), n);
      return Ok(w);
    }

    /** ZPOPMIN key 1: the first entry in ZRANGE order, removed. */
    method ZPopMin(key: int) returns (r: Result<seq<Z>>)
      modifies this
      ensures r.Err? <==> fails(old(ops))
      ensures r.Ok? ==> Ranked(Get(old(zsets), key), r.value) && |r.value| == Min(1, |Get(old(zsets), key)|)
      ensures r.Ok? && r.value != [] ==>
        zsets == old(zsets)[key := Get(old(zsets), key) - {r.value[0].member}]
      ensures (r.Ok? && r.value == []) || r.Err? ==> zsets == old(zsets)
      ensures cooldowns == old(cooldowns) && now == old(now) && ops == old(ops) + 1
    {
      var failed := Read();
      if failed {
        return Err(RedisError);
      }
      var w := TopN(Get(zsets, key), 1);
      if w != [] {
        zsets := zsets[key := Get(zsets, key) - {w[0].member}];
      }
      return Ok(w);
    }

    /** ZCARD key. */
    method ZCard(key: int) returns (r: Result<int>)
      modifies this
      ensures r.Err? <==> fails(old(ops))
      ensures r.Ok? ==> r.value == |Get(zsets, key)|
      ensures State() == old(State()).(ops := old(ops) + 1)
    {
      var failed := Read();
      if failed {
        return Err(RedisError);
      }
      return Ok(|Get(zsets, key)|);
    }
  }

  // ---------------------------------------------------------------------
  // PopBest's choice
  // ---------------------------------------------------------------------

  /** An entry's score for PopBest: None when it does not decode, lowered by the boost on the player's screen group. */
  function Adjusted(codec: Codec, same: (Screen, Screen) -> bool, node: Screen, it: Z): Option<int> {
    match codec.decode(it.member)
    case None => None
    case Some(uc) => Some(if same(node, uc.node) then it.score - ScreenBoost else it.score)
  }

  /**
   * Entry k is the one PopBest takes from window w: it decodes, scores below
   * the starting best, strictly below every earlier candidate and no higher
   * than any later one.
   */
  predicate IsBest(codec: Codec, same: (Screen, Screen) -> bool, node: Screen, w: seq<Z>, k: int) {
    0 <= k < |w| &&
    var best := Adjusted(codec, same, node, w[k]);
    best.Some? && best.value < NoScore &&
    (forall j :: 0 <= j < k ==> Adjusted(codec, same, node, w[j]).None? || Adjusted(codec, same, node, w[j]).value > best.value) &&
    (forall j :: k < j < |w| ==> Adjusted(codec, same, node, w[j]).None? || Adjusted(codec, same, node, w[j]).value >= best.value)
  }

  /** No entry of w can be taken: none decodes with a score below the starting best. */
  predicate NoCandidate(codec: Codec, same: (Screen, Screen) -> bool, node: Screen, w: seq<Z>) {
    forall j :: 0 <= j < |w| ==> Adjusted(codec, same, node, w[j]).None? || Adjusted(codec, same, node, w[j]).value >= NoScore
  }

  /** The choice is well defined: at most one entry is best, and then there is a candidate. */
  lemma BestIsUnique(codec: Codec, same: (Screen, Screen) -> bool, node: Screen, w: seq<Z>, k1: int, k2: int)
    requires IsBest(codec, same, node, w, k1) && IsBest(codec, same, node, w, k2)
    ensures k1 == k2 && !NoCandidate(codec, same, node, w)
  {
  }

  /** PopBest's scan: the index of the best entry and its decoding, or -1 when there is none. */
  method ChooseBest(codec: Codec, same: (Screen, Screen) -> bool, node: Screen, w: seq<Z>)
    returns (bestIdx: int, bestUC: Option<UseCase>)
    ensures bestIdx == -1 <==> NoCandidate(codec, same, node, w)
    ensures bestIdx != -1 ==> IsBest(codec, same, node, w, bestIdx) && bestUC == codec.decode(w[bestIdx].member)
  {
    var bestScore := NoScore;
    bestIdx, bestUC := -1, None;
    for i := 0 to |w|
      invariant bestIdx == -1 ==> bestScore == NoScore && NoCandidate(codec, same, node, w[..i])
      invariant bestIdx != -1 ==> (IsBest(codec, same, node, w[..i], bestIdx) &&
        Adjusted(codec, same, node, w[bestIdx]) == Some(bestScore) && bestUC == codec.decode(w[bestIdx].member))
    {
      var uc := codec.decode(w[i].member);
      if uc.Some? {
        var score := w[i].score;
        if same(node, uc.value.node) {
          score := score - ScreenBoost;
        }
        if score < bestScore {
          bestIdx, bestScore, bestUC := i, score, uc;
        }
      }
      assert w[..i + 1][..i] == w[..i];
    }
    assert w[..|w|] == w;
    if bestIdx != -1 {
      BestIsUnique(codec, same, node, w, bestIdx, bestIdx);
    }
  }

  /**
   * What PopBest ends with, given its window w, whether the ZREM round trip
   * fails, and the queue before (`before`) and after (`after`): with no
   * candidate, the error and the window removed; otherwise the best entry
   * decoded and removed, or the ZREM error with nothing removed.
   */
  ghost predicate TakeOutcome(codec: Codec, same: (Screen, Screen) -> bool, node: Screen, w: seq<Z>, best: int,
                              remFails: bool, before: ZSet, r: Result<Option<UseCase>>, after: ZSet): (b: bool)
    ensures b ==> forall m :: m in after ==> m in before && after[m] == before[m]
    ensures b ==> (r.Ok? <==> !NoCandidate(codec, same, node, w) && !remFails)
  {
    if NoCandidate(codec, same, node, w) then
      r == Err(NoDecodable) && after == (if remFails then before else before - (set m | m in Members(w)))
    else
      IsBest(codec, same, node, w, best) &&
      (remFails ==> r.Err? && after == before) &&
      (!remFails ==> r == Ok(codec.decode(w[best].member)) && r.value.Some? && after == before - {w[best].member})
  }

  /** A queue holding one decodable entry scored below the starting best gives it back and is left empty. */
  lemma TakeSingle(codec: Codec, same: (Screen, Screen) -> bool, node: Screen, uc: UseCase, before: ZSet,
                   w: seq<Z>, best: int, remFails: bool, r: Result<Option<UseCase>>, after: ZSet)
    requires ValidCodec(codec) && Score(uc) < NoScore && before == map[codec.encode(uc) := Score(uc)] && !remFails
    requires Ranked(before, w) && |w| == Min(ScanWindow, |before|)
    requires TakeOutcome(codec, same, node, w, best, remFails, before, r, after)
    ensures r == Ok(Some(Strip(uc))) && after == map[]
  {
    var e := codec.encode(uc);
    assert w[0].member == e;
    assert !NoCandidate(codec, same, node, w);
    assert after == map[e := Score(uc)] - {e};
  }

  /** extractMembers: the members of the entries, in order. */
  method ExtractMembers(zs: seq<Z>) returns (out: seq<string>)
    ensures out == Members(zs)
  {
    out := [];
    for i := 0 to |zs|
      invariant out == Members(zs[..i])
    {
      assert Members(zs[..i + 1]) == Members(zs[..i]) + [zs[i].member];
      out := out + [zs[i].member];
    }
    assert zs[..|zs|] == zs;
  }

  /** The queue of one gamer. */
  class Queue {
    const rdb: Redis
    const gamerID: int
    const codec: Codec

    /** The sorted set under this queue's key. */
    function Items(): ZSet
      reads rdb
    {
      Get(rdb.zsets, gamerID)
    }

    /**
     * What PopBest does to the store `s`, leaving `t`: the cooldowns, the
     * clock and every other gamer's set stay; a failed ZRANGE takes
     * nothing; otherwise `window` is the first ScanWindow entries in ZRANGE
     * order, an empty set gives nothing, and from a non-empty one the best
     * entry is taken as TakeOutcome says.
     */
    ghost predicate PopBestDid(same: (Screen, Screen) -> bool, node: Screen, s: Store,
                               r: Result<Option<UseCase>>, window: seq<Z>, best: int, t: Store) {
      var before := Get(s.zsets, gamerID);
      t.cooldowns == s.cooldowns && t.now == s.now &&
      (forall id :: id != gamerID ==> Get(t.zsets, id) == Get(s.zsets, id)) &&
      (rdb.fails(s.ops) ==> r.Err? && Get(t.zsets, gamerID) == before) &&
      (!rdb.fails(s.ops) ==> Ranked(before, window) && |window| == Min(ScanWindow, |before|)) &&
      (!rdb.fails(s.ops) && before == map[] ==> r == Ok(None) && Get(t.zsets, gamerID) == before) &&
      (!rdb.fails(s.ops) && before != map[] ==>
        TakeOutcome(codec, same, node, window, best, rdb.fails(s.ops + 1), before, r, Get(t.zsets, gamerID)))
    }

    /** PopBest gives nothing exactly when ZRANGE worked and the set was empty; it never gives nothing from a non-empty set. */
    lemma PopNothingIffEmpty(same: (Screen, Screen) -> bool, node: Screen, s: Store,
                             r: Result<Option<UseCase>>, window: seq<Z>, best: int, t: Store)
      requires PopBestDid(same, node, s, r, window, best, t)
      ensures r == Ok(None) <==> !rdb.fails(s.ops) && Get(s.zsets, gamerID) == map[]
    {
    }

    /** NewGamerQueue. */
    constructor (rdb: Redis, gamerID: int, codec: Codec)
      ensures this.rdb == rdb && this.gamerID == gamerID && this.codec == codec
    {
      this.rdb, this.gamerID, this.codec := rdb, gamerID, codec;
    }

    /** Push: one ZADD of the serialisation with score 100 - priority. */
    method Push(uc: UseCase) returns (err: Option<string>)
      modifies rdb
      ensures err.Some? <==> rdb.fails(old(rdb.ops))
      ensures rdb.State() == ZAddS(rdb.fails, old(rdb.State()), gamerID, codec.encode(uc), Score(uc))
    {
      err := rdb.ZAdd(gamerID, codec.encode(uc), Score(uc));
    }

    /** Pop: ZPOPMIN, then decode; an entry that does not decode is lost all the same. */
    method Pop() returns (r: Result<Option<UseCase>>)
      modifies rdb
      ensures old(rdb.fails(rdb.ops)) ==> r.Err? && rdb.zsets == old(rdb.zsets)
      ensures !old(rdb.fails(rdb.ops)) && old(Items()) == map[] ==> r == Ok(None) && rdb.zsets == old(rdb.zsets)
      ensures !old(rdb.fails(rdb.ops)) && old(Items()) != map[] ==>
        exists top :: Ranked(old(Items()), [top]) &&
          rdb.zsets == old(rdb.zsets)[gamerID := old(Items()) - {top.member}] &&
          r == (match codec.decode(top.member) case None => Err(DecodeError) case Some(uc) => Ok(Some(uc)))
      ensures rdb.cooldowns == old(rdb.cooldowns) && rdb.now == old(rdb.now) && rdb.ops == old(rdb.ops) + 1
    {
      var items := rdb.ZPopMin(gamerID);
      if items.Err? {
        return Err(items.msg);
      }
      if |items.value| == 0 {
        return Ok(None);
      }
      var uc := codec.decode(items.value[0].member);
      if uc.None? {
        return Err(DecodeError);
      }
      return Ok(Some(uc.value));
    }

    /** Peek: the first entry in ZRANGE order, decoded, with nothing removed. */
    method Peek() returns (r: Result<Option<UseCase>>, ghost top: seq<Z>)
      modifies rdb
      ensures rdb.fails(old(rdb.ops)) <==> r.Err? && top == []
      ensures !rdb.fails(old(rdb.ops)) ==> Ranked(Items(), top) && |top| == Min(1, |Items()|)
      ensures !rdb.fails(old(rdb.ops)) && top == [] ==> r == Ok(None)
      ensures !rdb.fails(old(rdb.ops)) && top != [] ==>
        r == (match codec.decode(top[0].member) case None => Err(DecodeError) case Some(uc) => Ok(Some(uc)))
      ensures rdb.State() == old(rdb.State()).(ops := old(rdb.ops) + 1)
    {
      var items := rdb.ZRange(gamerID, 1);
      top := [];
      if items.Err? {
        return Err(items.msg), [];
      }
      top := items.value;
      if |items.value| == 0 {
        return Ok(None), top;
      }
      var uc := codec.decode(items.value[0].member);
      if uc.None? {
        return Err(DecodeError), top;
      }
      return Ok(Some(uc.value)), top;
    }

    /** Len: ZCARD. */
    method Len() returns (r: Result<int>)
      modifies rdb
      ensures r.Err? <==> rdb.fails(old(rdb.ops))
      ensures r.Ok? ==> r.value == |Items()|
      ensures rdb.State() == old(rdb.State()).(ops := old(rdb.ops) + 1)
    {
      r := rdb.ZCard(gamerID);
    }

    /** ShouldSkip: whether the use case is on cooldown for the gamer. */
    method ShouldSkip(id: int, name: string) returns (r: Result<bool>)
      modifies rdb
      ensures r.Err? <==> rdb.fails(old(rdb.ops))
      ensures r.Ok? ==> r.value == OnCooldown(rdb.State(), id, name)
      ensures rdb.State() == old(rdb.State()).(ops := old(rdb.ops) + 1)
    {
      var failed := rdb.Read();
      if failed {
        return Err(RedisError);
      }
      return Ok(OnCooldown(rdb.State(), id, name));
    }

    /** SetLastExecuted: puts the use case on cooldown for `ttl`. */
    method SetLastExecuted(id: int, name: string, ttl: int) returns (err: Option<string>)
      modifies rdb
      ensures err.Some? <==> rdb.fails(old(rdb.ops))
      ensures rdb.State() == SetLastExecutedS(rdb.fails, old(rdb.State()), id, name, ttl)
    {
      err := if rdb.fails(rdb.ops) then Some(RedisError) else None;
      rdb.Commit(SetLastExecutedS(rdb.fails, rdb.State(), id, name, ttl));
    }

    /**
     * PopBest: look at the first ScanWindow entries, take the best by
     * adjusted score and remove exactly it. With nothing to take, the whole
     * window is removed and an error returned.
     */
    method PopBest(node: Screen, same: (Screen, Screen) -> bool) returns (r: Result<Option<UseCase>>, ghost window: seq<Z>, ghost best: int)
      modifies rdb
      ensures rdb.cooldowns == old(rdb.cooldowns) && rdb.now == old(rdb.now)
      ensures forall id :: id != gamerID ==> Get(rdb.zsets, id) == Get(old(rdb.zsets), id)
      ensures rdb.fails(old(rdb.ops)) ==> r.Err? && Items() == old(Items())
      ensures !rdb.fails(old(rdb.ops)) ==> Ranked(old(Items()), window) && |window| == Min(ScanWindow, |old(Items())|)
      ensures !rdb.fails(old(rdb.ops)) && old(Items()) == map[] ==> r == Ok(None) && Items() == old(Items())
      ensures !rdb.fails(old(rdb.ops)) && old(Items()) != map[] ==>
        TakeOutcome(codec, same, node, window, best, rdb.fails(old(rdb.ops) + 1), old(Items()), r, Items())
    {
      var items := rdb.ZRange(gamerID, ScanWindow);
      window, best := [], 0;
      if items.Err? {
        return Err(items.msg), window, best;
      }
      window := items.value;
      if |items.value| == 0 {
        return Ok(None), window, best;
      }
      var b;
      r, b := Take(node, same, items.value);
      best := b;
    }

    /**
     * A use case pushed onto an empty queue is what the next PopBest
     * returns, without its source path, and the queue is empty again;
     * provided the three round trips go through and the score is below
     * PopBest's starting best.
     */
    method PushThenPopBest(uc: UseCase, node: Screen, same: (Screen, Screen) -> bool) returns (r: Result<Option<UseCase>>)
      requires ValidCodec(codec) && Items() == map[] && Score(uc) < NoScore
      requires !rdb.fails(rdb.ops) && !rdb.fails(rdb.ops + 1) && !rdb.fails(rdb.ops + 2)
      modifies rdb
      ensures r == Ok(Some(Strip(uc))) && Items() == map[]
    {
      var err := Push(uc);
      var e := codec.encode(uc);
      assert Items() == map[e := Score(uc)];
      ghost var n, before := rdb.ops, Items();
      ghost var window, best;
      r, window, best := PopBest(node, same);
      assert !rdb.fails(n) && before != map[] && !rdb.fails(n + 1);
      TakeSingle(codec, same, node, uc, before, window, best, rdb.fails(n + 1), r, Items());
    }

    /**
     * The second half of PopBest, once the window is read: remove the best
     * entry, or the whole window when there is none.
     */
    method Take(node: Screen, same: (Screen, Screen) -> bool, w: seq<Z>) returns (r: Result<Option<UseCase>>, best: int)
      modifies rdb
      ensures rdb.cooldowns == old(rdb.cooldowns) && rdb.now == old(rdb.now)
      ensures forall id :: id != gamerID ==> Get(rdb.zsets, id) == Get(old(rdb.zsets), id)
      ensures TakeOutcome(codec, same, node, w, best, rdb.fails(old(rdb.ops)), old(Items()), r, Items())
    {
      var bestIdx, bestUC := ChooseBest(codec, same, node, w);
      if bestIdx == -1 {
        var members := ExtractMembers(w);
        var _ := rdb.ZRem(gamerID, members);
        return Err(NoDecodable), 0;
      }
      best := bestIdx;
      var err := rdb.ZRem(gamerID, [w[bestIdx].member]);
      if err.Some? {
        return Err(err.value), best;
      }
      assert (set m | m in [w[bestIdx].member]) == {w[bestIdx].member};
      return Ok(bestUC), best;
    }
  }
}
