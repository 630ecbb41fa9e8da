/** Lookups in a process that stands still, so that every lookup observes the same of it:
    whether their order, the cache and the index can be noticed. */
module StillProcess {
  import opened Wrappers
  import opened CogMethods
  import opened RangeIndex
  import opened JitEntryTable
  import opened MethodZone
  import opened ZoneTheorems
  import opened WalkTheorems

  /** What a new symbolizer indexes at its first refresh. */
  function FirstIndexed(setup: Setup, obs: Observation): Zone {
    Refresh(setup, obs, FRESH)
  }

  /** The walk of the zone as it stands is not blocked. */
  predicate WalksThrough(obs: Observation) {
    obs.bounds.Some? && !Walk(obs.walk, 0, obs.bounds.value.base, obs.bounds.value.freeStart).blocked
  }

  lemma FirstRefreshWalks(setup: Setup, obs: Observation)
    requires Credible(obs) && WalksThrough(obs)
    ensures var z := FirstIndexed(setup, obs);
      var w := Walk(obs.walk, 0, obs.bounds.value.base, obs.bounds.value.freeStart);
      && ZoneInvariant(z) && Walked(z) && z.ranges == w.found && z.resolved == map[]
      && z.bounds == obs.bounds && z.cursor == Some(w.cursor) && Tiles(z.ranges, obs.bounds.value.base, w.cursor)
  {
    hide Walk, JitEntries, Tiles;
    RefreshKeepsInvariant(setup, obs, FRESH);
    WalkTiles(obs.walk, 0, obs.bounds.value.base, obs.bounds.value.freeStart);
    var w := Walk(obs.walk, 0, obs.bounds.value.base, obs.bounds.value.freeStart);
    assert [] + w.found == w.found;
  }

  /** The one answer for a pc: that of the index, or that for a pc no method holds. */
  function StillAnswer(setup: Setup, z: Zone, pc: nat): Option<string> {
    if LookupName(z, pc).Some? then LookupName(z, pc) else OutsideAnswer(setup, z, pc)
  }

  /** A symbolizer that is new, or has indexed the zone and only remembers answers
      that it would give again. */
  predicate KnowsZone(setup: Setup, obs: Observation, z: Zone) {
    z == FRESH ||
    var indexed := FirstIndexed(setup, obs);
    && z == indexed.(resolved := z.resolved)
    && forall pc | pc in z.resolved :: z.resolved[pc] == StillAnswer(setup, indexed, pc)
  }

  lemma AnswersIgnoreCache(setup: Setup, z: Zone, resolved: map<nat, Option<string>>, pc: nat)
    ensures LookupName(z.(resolved := resolved), pc) == LookupName(z, pc)
    ensures StillAnswer(setup, z.(resolved := resolved), pc) == StillAnswer(setup, z, pc)
  {
  }

  /** A lookup that has settled on a walked zone. */
  lemma SettledAnswer(setup: Setup, obs: Observation, z: Zone, pc: nat)
    requires ZoneInvariant(z) && Credible(obs) && pc !in z.resolved
    requires Walked(Settled(setup, obs, z, pc))
    ensures var settled := Settled(setup, obs, z, pc);
      Resolve(setup, obs, z, pc)
      == Resolution(StillAnswer(setup, settled, pc),
                    settled.(resolved := settled.resolved[pc := StillAnswer(setup, settled, pc)]))
  {
    ResolveSummary(setup, obs, z, pc);
    var settled := Settled(setup, obs, z, pc);
    hide Resolve, Settled, Walked, ZoneInvariant, LookupName, OutsideAnswer, Credible;
    assert Resolve(setup, obs, z, pc).zone.ranges == settled.ranges;
  }

  /** A walked zone is not walked again as long as its bounds stay. */
  lemma RefreshAgain(setup: Setup, obs: Observation, z: Zone)
    requires Walked(z) && z.bounds == obs.bounds
    ensures Refresh(setup, obs, z) == z
  {
    hide Tiles;
  }

  lemma InvariantIgnoresCache(z: Zone, resolved: map<nat, Option<string>>)
    ensures ZoneInvariant(z.(resolved := resolved)) == ZoneInvariant(z)
    ensures Walked(z.(resolved := resolved)) == Walked(z)
  {
    hide Tiles, StrictlySorted, EntriesSorted;
  }

  lemma FreshSettles(setup: Setup, obs: Observation, pc: nat)
    ensures Settled(setup, obs, FRESH, pc) == FirstIndexed(setup, obs)
  {
    assert LookupRange([], pc) == None;
    hide Refresh, LookupRange;
  }

  lemma WalkedSettles(setup: Setup, obs: Observation, z: Zone, pc: nat)
    requires Walked(z) && z.bounds == obs.bounds
    ensures Settled(setup, obs, z, pc) == z
  {
    RefreshAgain(setup, obs, z);
    hide Refresh, Walked, LookupName, ShouldRefresh;
  }

  lemma KnownZoneIsWalked(setup: Setup, obs: Observation, z: Zone)
    requires Credible(obs) && WalksThrough(obs) && KnowsZone(setup, obs, z) && z != FRESH
    ensures ZoneInvariant(z) && Walked(z) && z.bounds == obs.bounds
  {
    hide FirstIndexed, WalksThrough, StillAnswer, Walk, Credible, ZoneInvariant, Walked, Tiles;
    FirstRefreshWalks(setup, obs);
    InvariantIgnoresCache(FirstIndexed(setup, obs), z.resolved);
  }

  lemma FreshAnswersAlike(setup: Setup, obs: Observation, pc: nat)
    requires Credible(obs) && WalksThrough(obs)
    ensures var r := Resolve(setup, obs, FRESH, pc);
      KnowsZone(setup, obs, r.zone) && r.name == StillAnswer(setup, FirstIndexed(setup, obs), pc)
  {
    var indexed := FirstIndexed(setup, obs);
    FirstRefreshWalks(setup, obs);
    FreshSettles(setup, obs, pc);
    assert ZoneInvariant(FRESH);
    hide FirstIndexed, WalksThrough, StillAnswer, Walk, Credible, ZoneInvariant, Walked, Tiles, Settled, Resolve;
    SettledAnswer(setup, obs, FRESH, pc);
  }

  lemma KnownAnswersAlike(setup: Setup, obs: Observation, z: Zone, pc: nat)
    requires Credible(obs) && WalksThrough(obs) && KnowsZone(setup, obs, z) && z != FRESH && pc !in z.resolved
    ensures var r := Resolve(setup, obs, z, pc);
      KnowsZone(setup, obs, r.zone) && r.name == StillAnswer(setup, FirstIndexed(setup, obs), pc)
  {
    hide FirstIndexed, WalksThrough, StillAnswer, Walk, Credible, ZoneInvariant, Walked, Tiles, Settled, Resolve;
    KnownZoneIsWalked(setup, obs, z);
    WalkedSettles(setup, obs, z, pc);
    SettledAnswer(setup, obs, z, pc);
    AnswersIgnoreCache(setup, FirstIndexed(setup, obs), z.resolved, pc);
  }

  /** Whatever was looked up before, a lookup gives the one answer for its pc. */
  lemma StillProcessAnswersAlike(setup: Setup, obs: Observation, z: Zone, pc: nat)
    requires Credible(obs) && WalksThrough(obs) && KnowsZone(setup, obs, z)
    ensures var r := Resolve(setup, obs, z, pc);
      KnowsZone(setup, obs, r.zone) && r.name == StillAnswer(setup, FirstIndexed(setup, obs), pc)
  {
    hide FirstIndexed, WalksThrough, StillAnswer, Credible;
    if z == FRESH {
      FreshAnswersAlike(setup, obs, pc);
    } else if pc !in z.resolved {
      KnownAnswersAlike(setup, obs, z, pc);
    } else {
      hide LookupName, Refreshed, ResolveUnindexed;
    }
  }

  /** Lookups one after the other, while the process stands still. */
  function LookUpAll(setup: Setup, obs: Observation, z: Zone, pcs: seq<nat>): Zone
    decreases |pcs|
  {
    if pcs == [] then z else LookUpAll(setup, obs, Resolve(setup, obs, z, pcs[0]).zone, pcs[1..])
  }

  lemma {:induction false} StillRun(setup: Setup, obs: Observation, z: Zone, pcs: seq<nat>)
    requires Credible(obs) && WalksThrough(obs) && KnowsZone(setup, obs, z)
    ensures KnowsZone(setup, obs, LookUpAll(setup, obs, z, pcs))
    decreases |pcs|
  {
    if pcs != [] {
      hide WalksThrough, KnowsZone, Resolve, StillAnswer, Credible;
      StillProcessAnswersAlike(setup, obs, z, pcs[0]);
      StillRun(setup, obs, Resolve(setup, obs, z, pcs[0]).zone, pcs[1..]);
    }
  }

  /** The cache, the index and the refreshes cannot be noticed in a still process whose
      zone can be walked: after any lookups, a lookup answers as the first one of a new
      symbolizer would. */
  lemma LookupsAreIndependent(setup: Setup, obs: Observation, pcs: seq<nat>, pc: nat)
    requires Credible(obs) && WalksThrough(obs)
    ensures Resolve(setup, obs, LookUpAll(setup, obs, FRESH, pcs), pc).name == Resolve(setup, obs, FRESH, pc).name
  {
    hide WalksThrough, Resolve, LookUpAll, StillAnswer, FirstIndexed, Credible;
    StillRun(setup, obs, FRESH, pcs);
    StillProcessAnswersAlike(setup, obs, FRESH, pc);
    StillProcessAnswersAlike(setup, obs, LookUpAll(setup, obs, FRESH, pcs), pc);
  }

  // ----- a zone that cannot be walked -----

  const LATE_METHOD: CogMethodRange := CogMethodRange(0x10040, 0x10080, "A>>a")

  function OneLateMethod(): Headers {
    (addr: nat) => if addr == 0x10040 then Some(LATE_METHOD) else None
  }

  function LateZone(): Observation {
    Observation(Some(Bounds(0x10000, 0x10100)), [], Steady(OneLateMethod()), Steady(OneLateMethod()))
  }

  const NO_MAPS: Setup := Setup([], None, [], None)

  function LateIndex(ranges: seq<CogMethodRange>, resolved: map<nat, Option<string>>): Zone {
    Zone(ranges, resolved, Some(Bounds(0x10000, 0x10100)), Some(0x10000), Some(0x10000), [])
  }

  lemma LateScan(pc: nat)
    requires pc == 0x10050 || pc == 0x10070
    ensures ScanForCogMethod(NO_MAPS, LateZone().bounds, LateZone().scan, pc).range
            == if pc == 0x10070 then Some(LATE_METHOD) else None
  {
    hide ScanFrom;
    var scan := LateZone().scan;
    ScanIsSearch(NO_MAPS, LateZone().bounds, scan, pc);
    if pc == 0x10070 {
      assert Probe(scan, pc, 0x10040) == Some(LATE_METHOD);
      assert IsNearestHeader(NO_MAPS, LateZone().bounds, scan, pc, 0x10040);
    } else {
      forall addr ensures !IsNearestHeader(NO_MAPS, LateZone().bounds, scan, pc, addr) {
      }
    }
  }

  lemma LateRefresh()
    ensures Refresh(NO_MAPS, LateZone(), FRESH) == LateIndex([], map[])
    ensures !WalksThrough(LateZone())
  {
    assert Walk(LateZone().walk, 0, 0x10000, 0x10100) == WalkResult([], 0x10000, true);
  }

  lemma LateFirstLookup(pc: nat)
    ensures Resolve(NO_MAPS, LateZone(), FRESH, pc) == ResolveUnindexed(NO_MAPS, LateZone(), LateIndex([], map[]), pc)
  {
    LateRefresh();
    assert LookupRange([], pc) == None;
    hide LookupRange, Refresh, ResolveUnindexed, LateZone;
  }

  /** A lookup in that zone when the index is empty: in the header, and behind it. */
  lemma HeaderLookup()
    ensures Resolve(NO_MAPS, LateZone(), FRESH, 0x10050).name == Some(GENERIC_NAME)
  {
    LateFirstLookup(0x10050);
    LateScan(0x10050);
    assert LookupJitEntry([], LateZone().bounds, [], 0x10050) == None;
    assert GenericCogCodeName([], LateZone().bounds, 0x10050) == Some(GENERIC_NAME);
    hide ScanForCogMethod, Resolve, LookupJitEntry, GenericCogCodeName, OneLateMethod;
  }

  lemma CodeLookup()
    ensures Resolve(NO_MAPS, LateZone(), FRESH, 0x10070).zone
            == LateIndex([LATE_METHOD], map[0x10070 := Some("A>>a")])
  {
    LateFirstLookup(0x10070);
    LateScan(0x10070);
    assert InsertRange([], LATE_METHOD) == [LATE_METHOD];
    assert LookupJitEntry([], LateZone().bounds, [], 0x10070) == None;
    hide ScanForCogMethod, Resolve, InsertRange, LookupJitEntry, GenericCogCodeName, OneLateMethod;
  }

  lemma LateIsCredible()
    ensures Credible(LateZone())
  {
  }

  lemma LateHit()
    ensures var z := LateIndex([LATE_METHOD], map[0x10070 := Some("A>>a")]);
      Resolve(NO_MAPS, LateZone(), z, 0x10050).name == Some("A>>a")
  {
    TilingLookup([LATE_METHOD], 0x10040, 0x10080, 0x10050);
    assert LATE_METHOD in [LATE_METHOD];
    var z := LateIndex([LATE_METHOD], map[0x10070 := Some("A>>a")]);
    assert LookupName(z, 0x10050) == Some("A>>a");
    hide LookupName, Refreshed, ResolveUnindexed;
  }

  /** In a zone whose walk is blocked the answer for a pc can depend on what was asked
      before: in the header of a method it is generic, but not once a scan for another
      pc has put that method into the index. */
  lemma BlockedAnswersDependOnHistory()
    ensures Credible(LateZone()) && !WalksThrough(LateZone())
    ensures Resolve(NO_MAPS, LateZone(), FRESH, 0x10050).name == Some(GENERIC_NAME)
    ensures Resolve(NO_MAPS, LateZone(), LookUpAll(NO_MAPS, LateZone(), FRESH, [0x10070]), 0x10050).name
            == Some("A>>a")
  {
    hide Resolve, WalksThrough, Credible, LateZone;
    LateIsCredible();
    LateRefresh();
    HeaderLookup();
    CodeLookup();
    LateHit();
    var z := LateIndex([LATE_METHOD], map[0x10070 := Some("A>>a")]);
    assert LookUpAll(NO_MAPS, LateZone(), z, []) == z;
    assert [0x10070][1..] == [];
  }
}
