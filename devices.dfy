/**
 * The device configuration (internal/domain/devices.go) and the merge and
 * sort of LoadDeviceConfig (internal/config/devices.go). Reading the YAML
 * file and loading the stored state are I/O; their outcomes are parameters.
 */
module Devices {
  import opened Wrappers
  import opened Gamers
  import opened Sorting

  datatype Profile = Profile(email: string, gamers: seq<GamerRecord>)
  datatype DeviceConfig = DeviceConfig(name: string, profiles: seq<Profile>)
  datatype Config = Config(devices: seq<DeviceConfig>)

  function Nickname(g: GamerRecord): string {
    g.nickname
  }

  function Email(p: Profile): string {
    p.email
  }

  // ---------------------------------------------------------------------------
  // AllProfiles and AllGamers
  // ---------------------------------------------------------------------------

  /** The profiles of the devices, device after device. */
  function ProfilesOf(ds: seq<DeviceConfig>): seq<Profile> {
    if ds == [] then [] else ProfilesOf(ds[..|ds| - 1]) + ds[|ds| - 1].profiles
  }

  /** AllProfiles: the concatenation of every device's profiles, in device order. */
  method AllProfiles(c: Config) returns (result: seq<Profile>)
    ensures result == ProfilesOf(c.devices)
    ensures c.devices == [] ==> result == []
  {
    result := [];
    var d := 0;
    while d < |c.devices|
      invariant 0 <= d <= |c.devices|
      invariant result == ProfilesOf(c.devices[..d])
    {
      assert c.devices[..d + 1][..d] == c.devices[..d];
      result := result + c.devices[d].profiles;
      d := d + 1;
    }
    assert c.devices[..d] == c.devices;
  }

  /** Every profile of every device is in AllProfiles, and nothing else is. */
  lemma {:induction false} ProfilesOfMembership(ds: seq<DeviceConfig>, p: Profile)
    ensures p in ProfilesOf(ds) <==> exists d :: 0 <= d < |ds| && p in ds[d].profiles
  {
    if ds != [] {
      var init := ds[..|ds| - 1];
      ProfilesOfMembership(init, p);
      if p in ProfilesOf(ds) && p !in ds[|ds| - 1].profiles {
        var d :| 0 <= d < |init| && p in init[d].profiles;
        assert ds[d] == init[d];
      }
      if exists d :: 0 <= d < |ds| && p in ds[d].profiles {
        var d :| 0 <= d < |ds| && p in ds[d].profiles;
        if d < |init| {
          assert init[d] == ds[d];
        }
      }
    }
  }

  /** The position of a gamer record inside the configuration: what `&profile.Gamer[i]` points at. */
  datatype GamerAddr = GamerAddr(device: nat, profile: nat, gamer: nat)

  predicate ValidAddr(c: Config, a: GamerAddr) {
    a.device < |c.devices| && a.profile < |c.devices[a.device].profiles| &&
    a.gamer < |c.devices[a.device].profiles[a.profile].gamers|
  }

  function At(c: Config, a: GamerAddr): GamerRecord
    requires ValidAddr(c, a)
  {
    c.devices[a.device].profiles[a.profile].gamers[a.gamer]
  }

  /** Device first, then profile, then gamer. */
  predicate AddrBefore(a: GamerAddr, b: GamerAddr) {
    a.device < b.device ||
    (a.device == b.device && (a.profile < b.profile || (a.profile == b.profile && a.gamer < b.gamer)))
  }

  /**
   * AllGamers: the address of every gamer record, once each, in device,
   * profile, gamer order. The addresses point into the configuration itself,
   * so a change through one of them is a change of the configuration.
   */
  method AllGamers(c: Config) returns (result: seq<GamerAddr>)
    ensures forall k :: 0 <= k < |result| ==> ValidAddr(c, result[k])
    ensures forall a :: ValidAddr(c, a) ==> a in result
    ensures forall k, l :: 0 <= k < l < |result| ==> AddrBefore(result[k], result[l])
    ensures c.devices == [] ==> result == []
  {
    result := [];
    var d := 0;
    while d < |c.devices|
      invariant 0 <= d <= |c.devices|
      invariant d == 0 ==> result == []
      invariant forall k :: 0 <= k < |result| ==> ValidAddr(c, result[k]) && result[k].device < d
      invariant forall a :: ValidAddr(c, a) && a.device < d ==> a in result
      invariant forall k, l :: 0 <= k < l < |result| ==> AddrBefore(result[k], result[l])
    {
      var profiles := c.devices[d].profiles;
      var p := 0;
      while p < |profiles|
        invariant 0 <= p <= |profiles|
        invariant forall k :: 0 <= k < |result| ==> ValidAddr(c, result[k])
        invariant forall k :: 0 <= k < |result| ==> AddrBefore(result[k], GamerAddr(d, p, 0))
        invariant forall a :: ValidAddr(c, a) && AddrBefore(a, GamerAddr(d, p, 0)) ==> a in result
        invariant forall k, l :: 0 <= k < l < |result| ==> AddrBefore(result[k], result[l])
      {
        var g := 0;
        while g < |profiles[p].gamers|
          invariant 0 <= g <= |profiles[p].gamers|
          invariant forall k :: 0 <= k < |result| ==> ValidAddr(c, result[k])
          invariant forall k :: 0 <= k < |result| ==> AddrBefore(result[k], GamerAddr(d, p, g))
          invariant forall a :: ValidAddr(c, a) && AddrBefore(a, GamerAddr(d, p, g)) ==> a in result
          invariant forall k, l :: 0 <= k < l < |result| ==> AddrBefore(result[k], result[l])
        {
          result := result + [GamerAddr(d, p, g)];
          g := g + 1;
        }
        p := p + 1;
      }
      d := d + 1;
    }
  }

  // ---------------------------------------------------------------------------
  // LoadDeviceConfig: merge by ID, then sort
  // ---------------------------------------------------------------------------

  /** The stored gamers indexed by ID; a later record with the same ID replaces an earlier one. */
  function IndexById(gs: seq<GamerRecord>): map<int, GamerRecord> {
    if gs == [] then map[] else IndexById(gs[..|gs| - 1])[gs[|gs| - 1].id := gs[|gs| - 1]]
  }

  /** The stored record of an ID is the last one in the list with that ID. */
  lemma {:induction false} IndexByIdLaterWins(gs: seq<GamerRecord>, i: int)
    requires 0 <= i < |gs|
    requires forall j :: i < j < |gs| ==> gs[j].id != gs[i].id
    ensures gs[i].id in IndexById(gs) && IndexById(gs)[gs[i].id] == gs[i]
  {
    if i < |gs| - 1 {
      IndexByIdLaterWins(gs[..|gs| - 1], i);
    }
  }

  /** Exactly the IDs of the stored records are indexed. */
  lemma {:induction false} IndexByIdKeys(gs: seq<GamerRecord>, id: int)
    ensures id in IndexById(gs) <==> exists i :: 0 <= i < |gs| && gs[i].id == id
  {
    if gs != [] {
      var init := gs[..|gs| - 1];
      IndexByIdKeys(init, id);
      if exists i :: 0 <= i < |init| && init[i].id == id {
        var i :| 0 <= i < |init| && init[i].id == id;
        assert gs[i].id == id;
      }
      if exists i :: 0 <= i < |gs| && gs[i].id == id {
        var i :| 0 <= i < |gs| && gs[i].id == id;
        if i < |init| {
          assert init[i].id == id;
        }
      }
    }
  }

  /** The state-map loop of LoadDeviceConfig. */
  method BuildStateMap(gs: seq<GamerRecord>) returns (m: map<int, GamerRecord>)
    ensures m == IndexById(gs)
  {
    m := map[];
    var i := 0;
    while i < |gs|
      invariant 0 <= i <= |gs|
      invariant m == IndexById(gs[..i])
    {
      assert gs[..i + 1][..i] == gs[..i];
      m := m[gs[i].id := gs[i]];
      i := i + 1;
    }
    assert gs[..i] == gs;
  }

  /** A configured gamer after the merge: the stored record when its ID is known, itself otherwise. */
  function Merge(g: GamerRecord, m: map<int, GamerRecord>): GamerRecord {
    if g.id in m then m[g.id] else g
  }

  function MergeAll(gs: seq<GamerRecord>, m: map<int, GamerRecord>): (r: seq<GamerRecord>)
    ensures |r| == |gs|
  {
    seq(|gs|, i requires 0 <= i < |gs| => Merge(gs[i], m))
  }

  /** `q` is profile `p` after merging with `m` and sorting its gamers by nickname. */
  ghost predicate ProfileMerged(p: Profile, q: Profile, m: map<int, GamerRecord>) {
    q.email == p.email &&
    multiset(q.gamers) == multiset(MergeAll(p.gamers, m)) &&
    SortedBy(q.gamers, Nickname)
  }

  /** One profile of LoadDeviceConfig: overwrite known gamers in place, then sort them by nickname. */
  method MergeProfile(p: Profile, m: map<int, GamerRecord>) returns (q: Profile)
    ensures ProfileMerged(p, q, m)
    ensures |q.gamers| == |p.gamers|
  {
    var arr := new GamerRecord[|p.gamers|](i requires 0 <= i < |p.gamers| => p.gamers[i]);
    var g := 0;
    while g < arr.Length
      invariant 0 <= g <= arr.Length
      invariant forall k :: 0 <= k < g ==> arr[k] == Merge(p.gamers[k], m)
      invariant forall k :: g <= k < arr.Length ==> arr[k] == p.gamers[k]
    {
      var gamer := arr[g];
      if gamer.id in m {
        arr[g] := m[gamer.id];
      }
      g := g + 1;
    }
    assert arr[..] == MergeAll(p.gamers, m);
    SortBy(arr, Nickname);
    q := Profile(p.email, arr[..]);
  }

  /**
   * `e` is device `d` after every profile was merged and the profiles were
   * sorted by email: a permutation of the merged profiles, position by
   * position, so a profile is kept as often as it occurs.
   */
  ghost predicate DeviceMerged(d: DeviceConfig, e: DeviceConfig, m: map<int, GamerRecord>) {
    e.name == d.name &&
    |e.profiles| == |d.profiles| &&
    SortedBy(e.profiles, Email) &&
    (exists merged: seq<Profile> ::
      |merged| == |d.profiles| &&
      (forall k :: 0 <= k < |merged| ==> ProfileMerged(d.profiles[k], merged[k], m)) &&
      multiset(e.profiles) == multiset(merged))
  }

  /** One device of LoadDeviceConfig. */
  method MergeDevice(d: DeviceConfig, m: map<int, GamerRecord>) returns (e: DeviceConfig)
    ensures DeviceMerged(d, e, m)
  {
    var arr := new Profile[|d.profiles|](i requires 0 <= i < |d.profiles| => d.profiles[i]);
    var p := 0;
    while p < arr.Length
      invariant 0 <= p <= arr.Length
      invariant forall k :: 0 <= k < p ==> ProfileMerged(d.profiles[k], arr[k], m)
      invariant forall k :: p <= k < arr.Length ==> arr[k] == d.profiles[k]
    {
      var q := MergeProfile(arr[p], m);
      arr[p] := q;
      p := p + 1;
    }
    ghost var merged := arr[..];
    SortBy(arr, Email);
    e := DeviceConfig(d.name, arr[..]);
    assert multiset(e.profiles) == multiset(merged);
  }

  /**
   * In a merged device every profile comes from a profile of the original
   * device, and every original profile has its merged version there.
   */
  lemma MergedDeviceMatchesProfiles(d: DeviceConfig, e: DeviceConfig, m: map<int, GamerRecord>)
    requires DeviceMerged(d, e, m)
    ensures forall q :: q in e.profiles ==> exists i :: 0 <= i < |d.profiles| && ProfileMerged(d.profiles[i], q, m)
    ensures forall i :: 0 <= i < |d.profiles| ==> exists q :: q in e.profiles && ProfileMerged(d.profiles[i], q, m)
  {
    var merged: seq<Profile> :|
      |merged| == |d.profiles| &&
      (forall k :: 0 <= k < |merged| ==> ProfileMerged(d.profiles[k], merged[k], m)) &&
      multiset(e.profiles) == multiset(merged);
    ReorderKeepsMerged(d, merged, e.profiles, m);
  }

  /** Reordering the merged profiles keeps each one matched with the profile it came from. */
  lemma ReorderKeepsMerged(d: DeviceConfig, merged: seq<Profile>, sorted: seq<Profile>, m: map<int, GamerRecord>)
    requires |merged| == |d.profiles|
    requires forall k :: 0 <= k < |merged| ==> ProfileMerged(d.profiles[k], merged[k], m)
    requires multiset(sorted) == multiset(merged)
    ensures forall i :: 0 <= i < |d.profiles| ==> exists q :: q in sorted && ProfileMerged(d.profiles[i], q, m)
    ensures forall q :: q in sorted ==> exists i :: 0 <= i < |d.profiles| && ProfileMerged(d.profiles[i], q, m)
  {
    forall i | 0 <= i < |d.profiles|
      ensures exists q :: q in sorted && ProfileMerged(d.profiles[i], q, m)
    {
      assert merged[i] in multiset(sorted);
    }
    forall q | q in sorted
      ensures exists i :: 0 <= i < |d.profiles| && ProfileMerged(d.profiles[i], q, m)
    {
      assert q in multiset(merged);
      var i :| 0 <= i < |merged| && merged[i] == q;
      assert ProfileMerged(d.profiles[i], q, m);
    }
  }

  /**
   * LoadDeviceConfig after I/O: `parsed` is the read and unmarshalled
   * configuration or its failure, `stored` the stored gamers or the failure
   * to load them.
   */
  method LoadDeviceConfig(parsed: Result<Config>, stored: Result<seq<GamerRecord>>) returns (r: Result<Config>)
    ensures parsed.Err? ==> r.Err?
    ensures stored.Err? ==> r.Err?
    ensures parsed.Ok? && stored.Ok? ==>
              r.Ok? && |r.value.devices| == |parsed.value.devices| &&
              forall d :: 0 <= d < |r.value.devices| ==>
                DeviceMerged(parsed.value.devices[d], r.value.devices[d], IndexById(stored.value))
  {
    if parsed.Err? {
      return Err("failed to unmarshal devices.yaml: " + parsed.msg);
    }
    if stored.Err? {
      return Err("failed to load state.yaml from repo: " + stored.msg);
    }
    var cfg := parsed.value;
    var m := BuildStateMap(stored.value);
    var devices := MergeDevices(cfg.devices, m);
    return Ok(Config(devices));
  }

  /** The first n devices of es are ds's, merged. */
  ghost predicate MergedPrefix(ds: seq<DeviceConfig>, es: seq<DeviceConfig>, n: nat, m: map<int, GamerRecord>)
  {
    n <= |ds| && n <= |es| && forall k :: 0 <= k < n ==> DeviceMerged(ds[k], es[k], m)
  }

  /** Merging device d after devices 0..d-1 extends the merged prefix by one. */
  lemma MergedUpdate(ds: seq<DeviceConfig>, prev: seq<DeviceConfig>, d: nat, e: DeviceConfig, m: map<int, GamerRecord>)
    requires d < |ds| == |prev| && DeviceMerged(ds[d], e, m)
    requires MergedPrefix(ds, prev, d, m)
    ensures MergedPrefix(ds, prev[d := e], d + 1, m)
  {
  }

  /**
   * LoadDeviceConfig's loop (devices.go:44-59): each device in turn replaced in
   * place by its merged form, so that every device ends merged.
   */
  method MergeDevices(ds: seq<DeviceConfig>, m: map<int, GamerRecord>) returns (es: seq<DeviceConfig>)
    ensures |es| == |ds| && forall k :: 0 <= k < |ds| ==> DeviceMerged(ds[k], es[k], m)
  {
    var devices := new DeviceConfig[|ds|](i requires 0 <= i < |ds| => ds[i]);
    var d := 0;
    while d < devices.Length
      invariant 0 <= d <= devices.Length
      invariant MergedPrefix(ds, devices[..], d, m)
      invariant forall k :: d <= k < devices.Length ==> devices[k] == ds[k]
    {
      var e := MergeDevice(devices[d], m);
      ghost var prev := devices[..];
      MergedUpdate(ds, prev, d, e, m);
      devices[d] := e;
      assert devices[..] == prev[d := e];
      d := d + 1;
    }
    es := devices[..];
  }
}
