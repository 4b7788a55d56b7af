/**
 * The device's record of who is playing (internal/device/next_profile.go
 * and internal/device/detected_gamer.go): the active profile and gamer
 * indices, the lookup of the active gamer, and the detection of the gamer
 * whose nickname the profile screen shows.
 *
 * The nickname region, the OCR service and the fuzzy ranking are not part
 * of this model: whether the region is known, what the OCR answers and how
 * the ranking scores a nickname against the text are inputs (DetectEnv).
 * The profiles are values; a gamer handed out by the device is a copy of
 * the profile's entry, not a pointer into it.
 */
module Device {
  import opened Wrappers
  import opened Screens
  import opened Gamers
  import Text
  import Devices

  /** The error text of every "not found" outcome of the detection. */
  const NoMatches := "no matches found with nickname"

  /**
   * What the detection sees: whether the region "chief_profile_nickname"
   * is known, the texts the OCR service read there (or its error), and the
   * fuzzy ranking (-1 means no match, otherwise lower is better).
   */
  datatype DetectEnv = DetectEnv(
    nicknameZone: bool,
    ocr: Result<seq<string>>,
    rank: (string, string) -> int)

  /** One candidate: a profile index, a gamer index and the ranking's score. */
  datatype Match = Match(profileIdx: int, gamerIdx: int, score: int)

  // ---------------------------------------------------------------------
  // The nickname as read
  // ---------------------------------------------------------------------

  /** The position of the first ']' at or after `i`, or the end of the text when there is none. */
  function CloseFrom(s: string, i: nat): (j: nat)
    requires i <= |s|
    ensures i <= j <= |s| && (j < |s| ==> s[j] == ']')
    decreases |s| - i
  {
    if i == |s| || s[i] == ']' then i else CloseFrom(s, i + 1)
  }

  /** No ']' is skipped: everything between `i` and CloseFrom(s, i) is something else. */
  lemma {:induction false} CloseFromSkipsNone(s: string, i: nat)
    requires i <= |s|
    ensures ']' !in s[i..CloseFrom(s, i)]
    decreases |s| - i
  {
    if i < |s| && s[i] != ']' {
      CloseFromSkipsNone(s, i + 1);
      assert s[i..CloseFrom(s, i)] == [s[i]] + s[i + 1..CloseFrom(s, i + 1)];
    }
  }

  /**
   * The alliance tag dropped from the text read: with a ']' in it, the
   * second piece of splitting at ']', that is the text between the first
   * ']' and the next one (or the end).
   */
  function StripTag(s: string): (r: string)
    ensures ']' !in s ==> r == s
    ensures ']' !in r
  {
    var i := CloseFrom(s, 0);
    if i == |s| then
      CloseFromSkipsNone(s, 0);
      assert s[0..|s|] == s;
      s
    else
      CloseFromSkipsNone(s, i + 1);
      s[i + 1..CloseFrom(s, i + 1)]
  }

  /**
   * Splitting at ']' puts the tag before the nickname: the read text is a
   * tag without ']', then ']', then the nickname, then either nothing or
   * the rest from the next ']' on.
   */
  lemma StripTagSplits(s: string)
    requires ']' in s
    ensures CloseFrom(s, 0) < |s|
    ensures var i := CloseFrom(s, 0); var j := CloseFrom(s, i + 1);
      s == s[..i] + [']'] + StripTag(s) + s[j..] && ']' !in s[..i] && (j == |s| || s[j] == ']')
  {
    FirstCloseExists(s);
    NoCloseBeforeFirst(s);
    var i := CloseFrom(s, 0);
    var j := CloseFrom(s, i + 1);
    SplitAround(s, i, j);
    assert StripTag(s) == s[i + 1..j];
    assert [s[i]] == [']'];
  }

  /** A text with a ']' has a first one. */
  lemma FirstCloseExists(s: string)
    requires ']' in s
    ensures CloseFrom(s, 0) < |s|
  {
    var k :| 0 <= k < |s| && s[k] == ']';
    CloseFromStopsAtClose(s, 0, k);
  }

  /** No ']' comes before the first one. */
  lemma NoCloseBeforeFirst(s: string)
    ensures ']' !in s[..CloseFrom(s, 0)]
  {
    CloseFromSkipsNone(s, 0);
    assert s[0..CloseFrom(s, 0)] == s[..CloseFrom(s, 0)];
  }

  /** CloseFrom stops at or before any ']' from `i` on. */
  lemma {:induction false} CloseFromStopsAtClose(s: string, i: nat, k: nat)
    requires i <= k < |s| && s[k] == ']'
    ensures CloseFrom(s, i) <= k
    decreases |s| - i
  {
    if s[i] != ']' {
      CloseFromStopsAtClose(s, i + 1, k);
    }
  }

  /** A text is its part before `i`, the character at `i`, the part up to `j`, and the rest. */
  lemma SplitAround(s: string, i: nat, j: nat)
    requires i < j <= |s|
    ensures s == s[..i] + [s[i]] + s[i + 1..j] + s[j..]
  {
    assert s[..i] + [s[i]] == s[..i + 1];
    assert s[..i + 1] + s[i + 1..j] == s[..j];
  }

  /** A text with no ']' is taken as the nickname itself; stripping twice is stripping once. */
  lemma StripTagIdempotent(s: string)
    ensures StripTag(StripTag(s)) == StripTag(s)
  {
  }

  /** The text the detection ranks against, when the OCR gave one. */
  function Parsed(env: DetectEnv): Option<string>
    requires env.ocr.Ok?
  {
    if env.ocr.value == [] then None else Some(StripTag(env.ocr.value[0]))
  }

  // ---------------------------------------------------------------------
  // The candidates
  // ---------------------------------------------------------------------

  /** The form of a configured nickname the ranking is given: trimmed and lower-cased. */
  function Expected(g: GamerRecord): (r: string)
    ensures |r| <= |g.nickname| && Text.Lower(r) == r
    ensures |r| > 0 ==> !Text.IsSpace(r[0]) && !Text.IsSpace(r[|r| - 1])
  {
    Text.LowerIdempotent(Text.TrimSpace(g.nickname));
    Text.Lower(Text.TrimSpace(g.nickname))
  }

  /** How the ranking scores a configured gamer: its expected form ranked against the text read. */
  function Ranking(parsed: string, rank: (string, string) -> int): GamerRecord -> int {
    g => rank(Expected(g), parsed)
  }

  /** A gamer the ranking matches: one whose score is not -1. */
  predicate IsCandidate(profiles: seq<Devices.Profile>, score: GamerRecord -> int, p: int, g: int) {
    0 <= p < |profiles| && 0 <= g < |profiles[p].gamers| && score(profiles[p].gamers[g]) != -1
  }

  /** The candidates among the first `n` gamers of profile `p`, in order. */
  function GamerMatches(p: int, gamers: seq<GamerRecord>, n: nat, score: GamerRecord -> int): seq<Match>
    requires n <= |gamers|
  {
    if n == 0 then []
    else GamerMatches(p, gamers, n - 1, score) + Hit(p, n - 1, score(gamers[n - 1]))
  }

  /** The entry one gamer adds: a match when the ranking did not answer -1. */
  function Hit(p: int, g: int, score: int): seq<Match> {
    if score != -1 then [Match(p, g, score)] else []
  }

  /** The candidates among the first `n` profiles, profile by profile and gamer by gamer. */
  function MatchesUpTo(profiles: seq<Devices.Profile>, n: nat, score: GamerRecord -> int): seq<Match>
    requires n <= |profiles|
  {
    if n == 0 then []
    else MatchesUpTo(profiles, n - 1, score) + GamerMatches(n - 1, profiles[n - 1].gamers, |profiles[n - 1].gamers|, score)
  }

  /** The candidates of every profile: what the two nested loops collect. */
  function Matches(profiles: seq<Devices.Profile>, score: GamerRecord -> int): seq<Match> {
    MatchesUpTo(profiles, |profiles|, score)
  }

  lemma {:induction false} GamerMatchesExactly(p: int, gamers: seq<GamerRecord>, n: nat, score: GamerRecord -> int, m: Match)
    requires n <= |gamers|
    ensures m in GamerMatches(p, gamers, n, score) <==>
      m.profileIdx == p && 0 <= m.gamerIdx < n && m.score == score(gamers[m.gamerIdx]) && m.score != -1
  {
    if n != 0 {
      GamerMatchesExactly(p, gamers, n - 1, score, m);
      var last := score(gamers[n - 1]);
      assert GamerMatches(p, gamers, n, score) == GamerMatches(p, gamers, n - 1, score) + Hit(p, n - 1, last);
      assert m in Hit(p, n - 1, last) <==> last != -1 && m == Match(p, n - 1, last);
    }
  }

  /**
   * The collected matches are exactly the candidates, each with its score:
   * no gamer the ranking matches is missed and no other gamer is listed.
   */
  lemma {:induction false} MatchesExactly(profiles: seq<Devices.Profile>, n: nat, score: GamerRecord -> int, m: Match)
    requires n <= |profiles|
    ensures m in MatchesUpTo(profiles, n, score) <==>
      m.profileIdx < n && IsCandidate(profiles, score, m.profileIdx, m.gamerIdx) &&
      m.score == score(profiles[m.profileIdx].gamers[m.gamerIdx])
  {
    if n != 0 {
      MatchesExactly(profiles, n - 1, score, m);
      GamerMatchesExactly(n - 1, profiles[n - 1].gamers, |profiles[n - 1].gamers|, score, m);
    }
  }

  /** The detection's answer when it found a gamer: a candidate no other candidate outranks. */
  ghost predicate BestCandidate(profiles: seq<Devices.Profile>, score: GamerRecord -> int, p: int, g: int) {
    IsCandidate(profiles, score, p, g) &&
    forall p', g' :: IsCandidate(profiles, score, p', g') ==>
      score(profiles[p].gamers[g]) <= score(profiles[p'].gamers[g'])
  }

  /** Whether the detection finds nobody: no region, an OCR error, no text, or no candidate. */
  predicate DetectFails(profiles: seq<Devices.Profile>, env: DetectEnv) {
    !env.nicknameZone || env.ocr.Err? || env.ocr.value == [] ||
    Matches(profiles, Ranking(Parsed(env).value, env.rank)) == []
  }

  /** The error the detection reports when it finds nobody. */
  function DetectError(env: DetectEnv): (r: string)
    ensures r != NoMatches <==> env.nicknameZone && env.ocr.Err?
    ensures env.nicknameZone && env.ocr.Err? ==> |env.ocr.msg| <= |r| && r[|r| - |env.ocr.msg|..] == env.ocr.msg
  {
    if env.nicknameZone && env.ocr.Err? then
      var r := "full OCR failed: " + env.ocr.msg;
      assert r[0] != NoMatches[0];
      r
    else NoMatches
  }

  class Device {
    var profiles: seq<Devices.Profile>
    var activeProfileIdx: int
    var activeGamerIdx: int

    constructor (ps: seq<Devices.Profile>)
      ensures profiles == ps && activeProfileIdx == 0 && activeGamerIdx == 0
    {
      profiles := ps;
      activeProfileIdx := 0;
      activeGamerIdx := 0;
    }

    /** Whether the active indices point at a gamer. */
    predicate HasActive()
      reads this
    {
      0 <= activeProfileIdx < |profiles| && 0 <= activeGamerIdx < |profiles[activeProfileIdx].gamers|
    }

    /** ActiveGamer: the gamer at the active indices, or nothing when either is out of range. */
    function ActiveGamer(): (r: Option<GamerRecord>)
      reads this
      ensures r.Some? <==> HasActive()
      ensures r.Some? ==>
        (r.value in profiles[activeProfileIdx].gamers &&
         r.value == profiles[activeProfileIdx].gamers[activeGamerIdx])
    {
      if 0 <= activeProfileIdx < |profiles| then
        var profile := profiles[activeProfileIdx];
        if 0 <= activeGamerIdx < |profile.gamers| then Some(profile.gamers[activeGamerIdx]) else None
      else None
    }

    /**
     * DetectedGamer: read the nickname, collect every gamer the ranking
     * matches, and answer the one with the lowest score; (-1, -1) and an
     * error when there is none.
     */
    method DetectedGamer(env: DetectEnv) returns (p: int, g: int, err: Option<string>)
      ensures err.Some? <==> DetectFails(profiles, env)
      ensures err.Some? ==> p == -1 && g == -1 && err.value == DetectError(env)
      ensures err.None? ==> BestCandidate(profiles, Ranking(Parsed(env).value, env.rank), p, g)
    {
      if !env.nicknameZone {
        return -1, -1, Some(NoMatches);
      }
      if env.ocr.Err? {
        return -1, -1, Some("full OCR failed: " + env.ocr.msg);
      }
      if env.ocr.value == [] {
        return -1, -1, Some(NoMatches);
      }
      var parsed := env.ocr.value[0];
      if ']' in parsed {
        parsed := StripTag(parsed);
      }
      assert parsed == Parsed(env).value;
      var matches := CollectMatches(parsed, env.rank);
      if |matches| == 0 {
        return -1, -1, Some(NoMatches);
      }
      var best := LowestScore(matches);
      p, g, err := best.profileIdx, best.gamerIdx, None;
      var score := Ranking(parsed, env.rank);
      MatchesExactly(profiles, |profiles|, score, best);
      forall p', g' | IsCandidate(profiles, score, p', g')
        ensures best.score <= score(profiles[p'].gamers[g'])
      {
        MatchesExactly(profiles, |profiles|, score, Match(p', g', score(profiles[p'].gamers[g'])));
      }
    }

    /** The two nested loops over the profiles and their gamers. */
    method CollectMatches(parsed: string, rank: (string, string) -> int) returns (matches: seq<Match>)
      ensures matches == Matches(profiles, Ranking(parsed, rank))
    {
      matches := [];
      for p := 0 to |profiles|
        invariant matches == MatchesUpTo(profiles, p, Ranking(parsed, rank))
      {
        matches := AppendGamerMatches(matches, p, profiles[p].gamers, parsed, rank);
      }
    }

    /** The inner loop, over the gamers of profile `p`. */
    static method AppendGamerMatches(before: seq<Match>, p: int, gamers: seq<GamerRecord>, parsed: string, rank: (string, string) -> int)
      returns (matches: seq<Match>)
      ensures matches == before + GamerMatches(p, gamers, |gamers|, Ranking(parsed, rank))
    {
      matches := before;
      for g := 0 to |gamers|
        invariant matches == before + GamerMatches(p, gamers, g, Ranking(parsed, rank))
      {
        var expected := Expected(gamers[g]);
        var matched := rank(expected, parsed);
        assert matched == Ranking(parsed, rank)(gamers[g]);
        ghost var done := GamerMatches(p, gamers, g, Ranking(parsed, rank));
        assert before + (done + Hit(p, g, matched)) == (before + done) + Hit(p, g, matched);
        if matched != -1 {
          matches := matches + [Match(p, g, matched)];
        } else {
          assert Hit(p, g, matched) == [];
        }
      }
    }

    /** The first entry after sorting by score: one whose score no entry beats. */
    method LowestScore(matches: seq<Match>) returns (best: Match)
      requires matches != []
      ensures best in matches && forall m :: m in matches ==> best.score <= m.score
    {
      best := matches[0];
      for i := 1 to |matches|
        invariant best in matches[..i] && forall j :: 0 <= j < i ==> best.score <= matches[j].score
      {
        if matches[i].score < best.score {
          best := matches[i];
        }
      }
      assert matches[..|matches|] == matches;
    }

    /**
     * DetectAndSetCurrentGamer: on failure nothing changes and (-1, -1)
     * comes back with the error; on success the indices are saved, the
     * gamer's screen state is reset, and that gamer is returned.
     */
    method DetectAndSetCurrentGamer(env: DetectEnv) returns (active: Option<GamerRecord>, p: int, g: int, err: Option<string>)
      modifies this
      ensures err.Some? <==> DetectFails(old(profiles), env)
      ensures err.Some? ==>
        (active == None && p == -1 && g == -1 && err.value == DetectError(env) && unchanged(this))
      ensures err.None? ==>
        BestCandidate(old(profiles), Ranking(Parsed(env).value, env.rank), p, g) &&
        activeProfileIdx == p && activeGamerIdx == g &&
        profiles == old(profiles)[p := old(profiles)[p].(gamers := old(profiles)[p].gamers[g := old(profiles)[p].gamers[g].(screen := ResetSnap)])] &&
        active == ActiveGamer() && active.Some? &&
        active.value == old(profiles)[p].gamers[g].(screen := ResetSnap)
    {
      var pIdx, gIdx, e := DetectedGamer(env);
      if e.Some? || pIdx < 0 || gIdx < 0 {
        return None, -1, -1, e;
      }
      activeProfileIdx := pIdx;
      activeGamerIdx := gIdx;
      var profile := profiles[pIdx];
      var reset := profile.gamers[gIdx].(screen := ResetSnap);
      profiles := profiles[pIdx := profile.(gamers := profile.gamers[gIdx := reset])];
      return Some(reset), pIdx, gIdx, None;
    }
  }

  /**
   * A gamer that no candidate outranks is among the collected matches with
   * its score, so with the region and a text read the detection cannot fail.
   */
  lemma BestIsCollected(profiles: seq<Devices.Profile>, env: DetectEnv, p: int, g: int)
    requires env.nicknameZone && env.ocr.Ok? && env.ocr.value != []
    requires BestCandidate(profiles, Ranking(Parsed(env).value, env.rank), p, g)
    ensures !DetectFails(profiles, env)
    ensures Match(p, g, env.rank(Expected(profiles[p].gamers[g]), Parsed(env).value)) in Matches(profiles, Ranking(Parsed(env).value, env.rank))
  {
    var score := Ranking(Parsed(env).value, env.rank);
    MatchesExactly(profiles, |profiles|, score, Match(p, g, score(profiles[p].gamers[g])));
  }
}
