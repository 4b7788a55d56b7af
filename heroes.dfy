/**
 * Hero filters (internal/domain/heroes/search.go). The hero list is a map
 * keyed by name and Go iterates it in no fixed order, so each method picks
 * the next name arbitrarily and returns, beside the heroes, the names it
 * took them from in the same order.
 */
module Heroes {

  datatype Hero = Hero(
    heroClass: string,
    generation: int,
    roles: seq<string>,
    buffs: map<string, string>,
    notes: string,
    level: int,
    isAvailable: bool,
    isCampTrainer: bool)

  datatype Heroes = Heroes(isNotify: bool, list: map<string, Hero>)

  /** The buff key BestForResource looks for. */
  function GatheringKey(resource: string): string {
    resource + "_gathering_speed"
  }

  predicate HasRole(hero: Hero, r1: string, r2: string) {
    exists i :: 0 <= i < |hero.roles| && (hero.roles[i] == r1 || hero.roles[i] == r2)
  }

  predicate GathersResource(hero: Hero, resource: string) {
    hero.isAvailable && GatheringKey(resource) in hero.buffs
  }

  predicate Defends(hero: Hero) {
    hero.isAvailable && HasRole(hero, "garrison_defense", "defense")
  }

  predicate Attacks(hero: Hero) {
    hero.isAvailable && HasRole(hero, "rally_leader", "combat")
  }

  /**
   * `result` lists the heroes of `list` named in `names`, position by position;
   * the names are distinct and are exactly those whose hero satisfies `keep`.
   */
  ghost predicate SelectedBy(list: map<string, Hero>, keep: Hero -> bool, names: seq<string>, result: seq<Hero>) {
    |names| == |result| &&
    (forall i :: 0 <= i < |names| ==> names[i] in list && result[i] == list[names[i]]) &&
    (forall i, j :: 0 <= i < j < |names| ==> names[i] != names[j]) &&
    (forall k :: k in names <==> k in list && keep(list[k]))
  }

  /** The role loop with `break`: does any role equal r1 or r2? */
  method AnyRole(roles: seq<string>, r1: string, r2: string) returns (found: bool)
    ensures found <==> exists i :: 0 <= i < |roles| && (roles[i] == r1 || roles[i] == r2)
  {
    var i := 0;
    while i < |roles|
      invariant 0 <= i <= |roles|
      invariant forall j :: 0 <= j < i ==> roles[j] != r1 && roles[j] != r2
    {
      if roles[i] == r1 || roles[i] == r2 {
        return true;
      }
      i := i + 1;
    }
    return false;
  }

  /** BestForResource: the available heroes whose buffs have the key resource + "_gathering_speed". */
  method BestForResource(h: Heroes, resource: string) returns (result: seq<Hero>, ghost names: seq<string>)
    ensures SelectedBy(h.list, hero => GathersResource(hero, resource), names, result)
    ensures forall hero :: hero in result ==> hero.isAvailable
  {
    result, names := [], [];
    var key := resource + "_gathering_speed";
    var todo := h.list.Keys;
    while todo != {}
      invariant todo <= h.list.Keys
      invariant |names| == |result|
      invariant forall i :: 0 <= i < |names| ==> names[i] in h.list && result[i] == h.list[names[i]]
      invariant forall i, j :: 0 <= i < j < |names| ==> names[i] != names[j]
      invariant forall k :: k in names ==> k !in todo
      invariant forall k :: k in names <==> k in h.list && k !in todo && GathersResource(h.list[k], resource)
      decreases todo
    {
      var name :| name in todo;
      var hero := h.list[name];
      todo := todo - {name};
      if !hero.isAvailable {
        continue;
      }
      if key in hero.buffs {
        result, names := result + [hero], names + [name];
      }
    }
  }

  /** The shared loop of BestForDefense and BestForAttack: the available heroes having role r1 or r2, each once. */
  method AvailableWithRole(h: Heroes, r1: string, r2: string) returns (result: seq<Hero>, ghost names: seq<string>)
    ensures SelectedBy(h.list, (hero: Hero) => hero.isAvailable && HasRole(hero, r1, r2), names, result)
  {
    result, names := [], [];
    var todo := h.list.Keys;
    while todo != {}
      invariant todo <= h.list.Keys
      invariant |names| == |result|
      invariant forall i :: 0 <= i < |names| ==> names[i] in h.list && result[i] == h.list[names[i]]
      invariant forall i, j :: 0 <= i < j < |names| ==> names[i] != names[j]
      invariant forall k :: k in names ==> k !in todo
      invariant forall k :: k in names <==> k in h.list && k !in todo && h.list[k].isAvailable && HasRole(h.list[k], r1, r2)
      decreases todo
    {
      var name :| name in todo;
      var hero := h.list[name];
      todo := todo - {name};
      if !hero.isAvailable {
        continue;
      }
      var found := AnyRole(hero.roles, r1, r2);
      if found {
        result, names := result + [hero], names + [name];
      }
    }
  }

  /** BestForDefense: the available heroes with role garrison_defense or defense, each once. */
  method BestForDefense(h: Heroes) returns (result: seq<Hero>, ghost names: seq<string>)
    ensures SelectedBy(h.list, Defends, names, result)
    ensures forall hero :: hero in result ==> hero.isAvailable
  {
    result, names := AvailableWithRole(h, "garrison_defense", "defense");
  }

  /** BestForAttack: the available heroes with role rally_leader or combat, each once. */
  method BestForAttack(h: Heroes) returns (result: seq<Hero>, ghost names: seq<string>)
    ensures SelectedBy(h.list, Attacks, names, result)
    ensures forall hero :: hero in result ==> hero.isAvailable
  {
    result, names := AvailableWithRole(h, "rally_leader", "combat");
  }

  /** Available: the same flag and only the available entries, under their own names. */
  method Available(h: Heroes) returns (out: Heroes)
    ensures out.isNotify == h.isNotify
    ensures forall name :: name in out.list <==> name in h.list && h.list[name].isAvailable
    ensures forall name :: name in out.list ==> out.list[name] == h.list[name]
  {
    var list: map<string, Hero> := map[];
    var todo := h.list.Keys;
    while todo != {}
      invariant todo <= h.list.Keys
      invariant forall name :: name in list <==> name in h.list && name !in todo && h.list[name].isAvailable
      invariant forall name :: name in list ==> list[name] == h.list[name]
      decreases todo
    {
      var name :| name in todo;
      var hero := h.list[name];
      if hero.isAvailable {
        list := list[name := hero];
      }
      todo := todo - {name};
    }
    out := Heroes(h.isNotify, list);
  }

  /** The available-only view of the list, as Available computes it. */
  function AvailableList(list: map<string, Hero>): map<string, Hero> {
    map name | name in list && list[name].isAvailable :: list[name]
  }

  /** Filtering by availability first changes none of the three searches. */
  lemma SearchesIgnoreUnavailable(h: Heroes, resource: string, names: seq<string>, result: seq<Hero>)
    ensures SelectedBy(AvailableList(h.list), hero => GathersResource(hero, resource), names, result) <==>
            SelectedBy(h.list, hero => GathersResource(hero, resource), names, result)
    ensures SelectedBy(AvailableList(h.list), Defends, names, result) <==> SelectedBy(h.list, Defends, names, result)
    ensures SelectedBy(AvailableList(h.list), Attacks, names, result) <==> SelectedBy(h.list, Attacks, names, result)
  {
  }

  /** Two selections of the same heroes list the same names, whatever order the map was visited in. */
  lemma {:induction false} SelectionsArePermutations(list: map<string, Hero>, keep: Hero -> bool,
                                                     n1: seq<string>, r1: seq<Hero>, n2: seq<string>, r2: seq<Hero>)
    requires SelectedBy(list, keep, n1, r1) && SelectedBy(list, keep, n2, r2)
    ensures multiset(n1) == multiset(n2)
    ensures |r1| == |r2|
  {
    DistinctMultiset(n1);
    DistinctMultiset(n2);
    assert (set x | x in n1) == (set x | x in n2);
    DistinctCard(n1);
    DistinctCard(n2);
  }

  lemma {:induction false} DistinctMultiset(s: seq<string>)
    requires forall i, j :: 0 <= i < j < |s| ==> s[i] != s[j]
    ensures multiset(s) == multiset(set x | x in s)
  {
    if s != [] {
      var init := s[..|s| - 1];
      DistinctMultiset(init);
      assert s == init + [s[|s| - 1]];
      assert (set x | x in s) == (set x | x in init) + {s[|s| - 1]};
      assert s[|s| - 1] !in init;
    }
  }

  lemma {:induction false} DistinctCard(s: seq<string>)
    requires forall i, j :: 0 <= i < j < |s| ==> s[i] != s[j]
    ensures |set x | x in s| == |s|
  {
    if s != [] {
      var init := s[..|s| - 1];
      DistinctCard(init);
      assert s == init + [s[|s| - 1]];
      assert (set x | x in s) == (set x | x in init) + {s[|s| - 1]};
      assert s[|s| - 1] !in init;
    }
  }
}
