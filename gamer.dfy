/**
 * The gamer record (internal/domain/gamer.go) and its screen state
 * (internal/domain/screenState.go). The many game-data sub-records of a
 * gamer (VIP, resources, buildings, heroes and so on) are kept as one map
 * from field path to value, which the guards read and the steps write.
 */
module Gamers {
  import opened Cel
  import opened Screens
  import Text

  /** The five fields of ScreenState, as a value. */
  datatype ScreenSnap = ScreenSnap(
    isMainMenu: bool,
    isWelcome: bool,
    isMainCity: string,
    currentState: Screen,
    titleFact: string)

  /** What ScreenState.Reset leaves behind. */
  const ResetSnap := ScreenSnap(false, false, "", MainCity, "")

  class ScreenState {
    var isMainMenu: bool
    var isWelcome: bool
    var isMainCity: string
    var currentState: Screen
    var titleFact: string

    function Snap(): ScreenSnap
      reads this
    {
      ScreenSnap(isMainMenu, isWelcome, isMainCity, currentState, titleFact)
    }

    constructor (s: ScreenSnap)
      ensures Snap() == s
    {
      isMainMenu, isWelcome, isMainCity, currentState, titleFact :=
        s.isMainMenu, s.isWelcome, s.isMainCity, s.currentState, s.titleFact;
    }

    /** Reset: every field gets its start value, so a second Reset changes nothing. */
    method Reset()
      modifies this
      ensures Snap() == ResetSnap
      ensures currentState == MainCity && !isMainMenu && !isWelcome && isMainCity == "" && titleFact == ""
    {
      isMainMenu := false;
      isWelcome := false;
      isMainCity := "";
      currentState := MainCity;
      titleFact := "";
    }

    /** Overwrite every field, as a struct assignment does. */
    method Assign(s: ScreenSnap)
      modifies this
      ensures Snap() == s
    {
      isMainMenu, isWelcome, isMainCity, currentState, titleFact :=
        s.isMainMenu, s.isWelcome, s.isMainCity, s.currentState, s.titleFact;
    }
  }

  /** A gamer as a value: what the configuration and the analyzer produce. */
  datatype GamerRecord = GamerRecord(
    id: int,
    nickname: string,
    state: int,
    avatar: string,
    gems: int,
    power: int,
    screen: ScreenSnap,
    fields: map<string, Val>)

  /** A gamer in memory, reached by pointer from the device, the navigator and the interpreter. */
  class Gamer {
    var id: int
    var nickname: string
    var state: int
    var avatar: string
    var gems: int
    var power: int
    const screenState: ScreenState
    var fields: map<string, Val>

    function Record(): GamerRecord
      reads this, screenState
    {
      GamerRecord(id, nickname, state, avatar, gems, power, screenState.Snap(), fields)
    }

    constructor (r: GamerRecord)
      ensures Record() == r && fresh(screenState)
    {
      id, nickname, state, avatar, gems, power, fields :=
        r.id, r.nickname, r.state, r.avatar, r.gems, r.power, r.fields;
      screenState := new ScreenState(r.screen);
    }

    /** `*gamer = *other`: every field, the screen state included, takes the new record's value. */
    method Assign(r: GamerRecord)
      modifies this, screenState
      ensures Record() == r
    {
      id, nickname, state, avatar, gems, power, fields :=
        r.id, r.nickname, r.state, r.avatar, r.gems, r.power, r.fields;
      screenState.Assign(r.screen);
    }
  }

  /** Gamers.Less: byte-wise comparison of nicknames. */
  predicate Less(g: seq<GamerRecord>, i: int, j: int)
    requires 0 <= i < |g| && 0 <= j < |g|
  {
    Text.Less(g[i].nickname, g[j].nickname)
  }

  /** Less is a strict order on positions, so sorting by it orders by nickname. */
  lemma LessStrictOrder(g: seq<GamerRecord>, i: int, j: int, k: int)
    requires 0 <= i < |g| && 0 <= j < |g| && 0 <= k < |g|
    ensures !Less(g, i, i)
    ensures Less(g, i, j) ==> !Less(g, j, i)
    ensures Less(g, i, j) && Less(g, j, k) ==> Less(g, i, k)
  {
    Text.LessIrreflexive(g[i].nickname);
    if Less(g, i, j) {
      Text.LessAsymmetric(g[i].nickname, g[j].nickname);
      if Less(g, j, k) {
        Text.LessTransitive(g[i].nickname, g[j].nickname, g[k].nickname);
      }
    }
  }

  /** Gamers.Swap: exchanges positions i and j; every other position keeps its gamer. */
  method Swap(g: array<GamerRecord>, i: int, j: int)
    requires 0 <= i < g.Length && 0 <= j < g.Length
    modifies g
    ensures g[i] == old(g[j]) && g[j] == old(g[i])
    ensures forall k :: 0 <= k < g.Length && k != i && k != j ==> g[k] == old(g[k])
    ensures multiset(g[..]) == multiset(old(g[..]))
  {
    g[i], g[j] := g[j], g[i];
  }
}
