/**
 * The screen resolver of the navigator (internal/fsm/expect_state.go):
 * from the title and the family the analyzer read off the screen, and the
 * screen the navigator wants, decide which screen it is on.
 *
 * The analyzer, the title-to-screens table and the fuzzy matcher are not
 * part of this model: the analyzer's reading is an argument, the table is
 * a map, the matcher a function, and the order in which Go happens to
 * iterate the table is a sequence of its keys.
 */
module ExpectStates {
  import opened Wrappers
  import opened Screens

  /** What the analyzer read: the title line and the screen family. */
  datatype Analysis = Analysis(title: string, family: string)

  /**
   * The outcome of ExpectState: a screen, the analyzer's error (the Go code
   * returns it with an empty screen), or the index-out-of-range panic of
   * `groupStates[0]` on an empty or missing group.
   */
  datatype Observation = Observed(screen: Screen) | AnalyzeError(err: string) | OutOfRange

  type TitleTable = map<string, seq<Screen>>
  type Fuzzy = (string, string, int) -> bool

  /** Whether the table key `k` is present and its key matches the title within `maxDistance`. */
  predicate KeyMatches(t: TitleTable, fuzzy: Fuzzy, title: string, maxDistance: int, k: string) {
    k in t && fuzzy(title, k, maxDistance)
  }

  /**
   * getMatchedState: the screens of the first key, in iteration order,
   * whose name fuzzy-matches the title; None when no key matches.
   */
  function GetMatchedState(title: string, maxDistance: int, t: TitleTable, order: seq<string>, fuzzy: Fuzzy)
    : (r: Option<seq<Screen>>)
    ensures r.None? <==> forall i :: 0 <= i < |order| ==> !KeyMatches(t, fuzzy, title, maxDistance, order[i])
    ensures r.Some? ==> exists i :: (0 <= i < |order| && KeyMatches(t, fuzzy, title, maxDistance, order[i]) &&
      r.value == t[order[i]] && forall j :: 0 <= j < i ==> !KeyMatches(t, fuzzy, title, maxDistance, order[j]))
  {
    if order == [] then None
    else if order[0] in t && fuzzy(title, order[0], maxDistance) then Some(t[order[0]])
    else
      var r := GetMatchedState(title, maxDistance, t, order[1..], fuzzy);
      assert forall i :: 1 <= i < |order| ==> order[i] == order[1..][i - 1];
      if r.Some? then
        ghost var i :| 0 <= i < |order[1..]| && KeyMatches(t, fuzzy, title, maxDistance, order[1..][i]) &&
          r.value == t[order[1..][i]] && forall j :: 0 <= j < i ==> !KeyMatches(t, fuzzy, title, maxDistance, order[1..][j]);
        assert KeyMatches(t, fuzzy, title, maxDistance, order[i + 1]) && r.value == t[order[i + 1]];
        r
      else r
  }

  /** When `order` lists every key of the table, no match means no key of the table matches. */
  lemma NoMatchMeansNoKey(title: string, maxDistance: int, t: TitleTable, order: seq<string>, fuzzy: Fuzzy, k: string)
    requires forall key :: key in t ==> key in order
    requires GetMatchedState(title, maxDistance, t, order, fuzzy).None?
    requires k in t
    ensures !fuzzy(title, k, maxDistance)
  {
    var i :| 0 <= i < |order| && order[i] == k;
    assert !KeyMatches(t, fuzzy, title, maxDistance, order[i]);
  }

  /** lo.Filter with the predicate `s == keep`. */
  function Only(group: seq<Screen>, keep: Screen): (r: seq<Screen>)
    ensures forall i :: 0 <= i < |r| ==> r[i] == keep
    ensures keep in group <==> keep in r
  {
    if group == [] then []
    else (if group[0] == keep then [keep] else []) + Only(group[1..], keep)
  }

  /** The answer from a group: `want` if the group holds it, else the group's first screen, else the panic. */
  function PickFromGroup(group: Option<seq<Screen>>, want: Screen): (r: Observation)
    ensures r.Observed? || r == OutOfRange
    ensures r == OutOfRange <==> group.None? || group.value == []
    ensures r.Observed? ==> r.screen == want || (want !in group.value && r.screen == group.value[0])
    ensures group.Some? && want in group.value ==> r == Observed(want)
  {
    if group.Some? && want in group.value then Observed(want)
    else if group.Some? && |group.value| > 0 then Observed(group.value[0])
    else OutOfRange
  }

  /**
   * ExpectState as written: the family switch first ("world" before
   * "city"), then the title lookup, then a second family switch whose two
   * filtering cases can no longer be taken, then the choice in the group.
   */
  function ExpectState(analysis: Result<Analysis>, want: Screen, t: TitleTable, order: seq<string>, fuzzy: Fuzzy)
    : (r: Observation)
    ensures analysis.Err? ==> r == AnalyzeError(analysis.msg)
    ensures analysis.Ok? && fuzzy(analysis.value.family, "world", 1) ==>
      r == (if "MainCity" in t && want in t["MainCity"] then Observed(want)
            else if "MainCity" in t && |t["MainCity"]| > 0 then Observed(t["MainCity"][0])
            else OutOfRange)
    ensures analysis.Ok? && !fuzzy(analysis.value.family, "world", 1) && fuzzy(analysis.value.family, "city", 1) ==>
      r == (if "World" in t && want in t["World"] then Observed(want)
            else if "World" in t && |t["World"]| > 0 then Observed(t["World"][0])
            else OutOfRange)
    ensures analysis.Ok? && !fuzzy(analysis.value.family, "world", 1) && !fuzzy(analysis.value.family, "city", 1) ==>
      var g := GetMatchedState(analysis.value.title, 0, t, order, fuzzy);
      r == (if g.Some? && want !in g.value && |g.value| > 0 then Observed(g.value[0]) else Observed(want))
  {
    if analysis.Err? then AnalyzeError(analysis.msg)
    else
      var title, family := analysis.value.title, analysis.value.family;
      if fuzzy(family, "world", 1) then
        PickFromGroup(if "MainCity" in t then Some(t["MainCity"]) else None, want)
      else if fuzzy(family, "city", 1) then
        PickFromGroup(if "World" in t then Some(t["World"]) else None, want)
      else
        var groupStates := GetMatchedState(title, 0, t, order, fuzzy);
        if groupStates.None? then Observed(want)
        else
          var group := groupStates.value;
          var filtered :=
            if fuzzy(family, "world", 1) then Only(group, MainCity)
            else if fuzzy(family, "city", 1) then Only(group, World)
            else group;
          if want in filtered then Observed(want)
          else if |filtered| > 0 then Observed(filtered[0])
          else Observed(want)
  }

  /** Whatever the resolver answers is `want` or the first screen of some group of the table. */
  lemma AnswerIsWantOrGroupHead(analysis: Result<Analysis>, want: Screen, t: TitleTable, order: seq<string>, fuzzy: Fuzzy)
    ensures ExpectState(analysis, want, t, order, fuzzy).Observed? ==>
      var s := ExpectState(analysis, want, t, order, fuzzy).screen;
      s == want || exists k :: k in t && |t[k]| > 0 && s == t[k][0]
  {
    var r := ExpectState(analysis, want, t, order, fuzzy);
    if r.Observed? && r.screen != want && analysis.Ok? {
      var fam := analysis.value.family;
      if fuzzy(fam, "world", 1) {
        assert "MainCity" in t && r.screen == t["MainCity"][0];
      } else if fuzzy(fam, "city", 1) {
        assert "World" in t && r.screen == t["World"][0];
      } else {
        var g := GetMatchedState(analysis.value.title, 0, t, order, fuzzy);
        var i :| 0 <= i < |order| && KeyMatches(t, fuzzy, analysis.value.title, 0, order[i]) && g.value == t[order[i]];
        assert r.screen == t[order[i]][0];
      }
    }
  }
}
