/** What every run of lookups keeps of the method-zone index, whatever the process
    does between and during the reads. */
module ZoneTheorems {
  import opened Wrappers
  import opened TargetMemory
  import opened RangeIndex
  import opened JitEntryTable
  import opened MethodZone

  datatype Call = Call(pc: nat, obs: Observation)

  ghost predicate AllCredible(calls: seq<Call>) {
    forall call | call in calls :: Credible(call.obs)
  }

  // ----- the reachable-state invariant -----

  /** The zone a lookup settles on before it answers. */
  function Settled(setup: Setup, obs: Observation, z: Zone, pc: nat): Zone {
    if LookupName(z, pc).Some? then z else Refreshed(setup, obs, z, pc)
  }

  lemma WalkedZoneIsIndexed(z: Zone, pc: nat)
    requires ZoneInvariant(z) && Walked(z)
    ensures LookupName(z, pc).Some? <==> z.bounds.value.base <= pc < z.cursor.value
    ensures PcInMethodZone(z, pc) ==> LookupName(z, pc).Some?
  {
    TilingLookup(z.ranges, z.bounds.value.base, z.cursor.value, pc);
  }

  /** In a walked zone a pc that no range holds is outside the zone, so the
      backward scan does not run. */
  lemma UnindexedSummary(setup: Setup, obs: Observation, z: Zone, pc: nat)
    requires ZoneInvariant(z) && LookupName(z, pc).None?
    ensures var r := ResolveUnindexed(setup, obs, z, pc);
      && ZoneInvariant(r.zone)
      && r.zone == z.(ranges := r.zone.ranges, resolved := z.resolved[pc := r.name])
      && (Walked(z) ==> r.zone.ranges == z.ranges && r.name == OutsideAnswer(setup, z, pc))
  {
    if Walked(z) {
      WalkedZoneIsIndexed(z, pc);
      assert ScannedRange(setup, obs, z, pc).None?;
    } else {
      var scanned := ScannedRange(setup, obs, z, pc);
      if scanned.Some? {
        InsertIsMapUpdate(z.ranges, scanned.value);
      }
    }
  }

  /** A lookup remembers its answer, and otherwise changes the settled zone only
      by ranges the backward scan found, which it does not look for in a walked zone. */
  lemma ResolveSummary(setup: Setup, obs: Observation, z: Zone, pc: nat)
    requires ZoneInvariant(z) && Credible(obs)
    ensures var r := Resolve(setup, obs, z, pc);
      && ZoneInvariant(r.zone) && ZoneInvariant(Settled(setup, obs, z, pc))
      && (pc in z.resolved ==> r == Resolution(z.resolved[pc], z))
      && (pc !in z.resolved ==>
            var z1 := Settled(setup, obs, z, pc);
            && r.zone == z1.(ranges := r.zone.ranges, resolved := z1.resolved[pc := r.name])
            && (Walked(z1) ==> r.zone.ranges == z1.ranges)
            && (LookupName(z1, pc).Some? ==> r.zone.ranges == z1.ranges && r.name == LookupName(z1, pc))
            && (Walked(z1) && LookupName(z1, pc).None? ==> r.name == OutsideAnswer(setup, z1, pc)))
  {
    RefreshKeepsInvariant(setup, obs, z);
    if pc !in z.resolved && LookupName(z, pc).None? {
      var z1 := Refreshed(setup, obs, z, pc);
      if LookupName(z1, pc).None? {
        UnindexedSummary(setup, obs, z1, pc);
      }
    }
  }

  lemma ResolveKeepsInvariant(setup: Setup, obs: Observation, z: Zone, pc: nat)
    requires ZoneInvariant(z) && Credible(obs)
    ensures ZoneInvariant(Resolve(setup, obs, z, pc).zone)
  {
    ResolveSummary(setup, obs, z, pc);
  }

  /** The state after a sequence of lookups. */
  function Run(setup: Setup, z: Zone, calls: seq<Call>): Zone
    decreases |calls|
  {
    if calls == [] then z
    else Run(setup, Resolve(setup, calls[0].obs, z, calls[0].pc).zone, calls[1..])
  }

  lemma {:induction false} RunKeepsInvariant(setup: Setup, z: Zone, calls: seq<Call>)
    requires ZoneInvariant(z) && AllCredible(calls)
    ensures ZoneInvariant(Run(setup, z, calls))
    decreases |calls|
  {
    if calls != [] {
      ResolveKeepsInvariant(setup, calls[0].obs, z, calls[0].pc);
      RunKeepsInvariant(setup, Resolve(setup, calls[0].obs, z, calls[0].pc).zone, calls[1..]);
    }
  }

  /** After any sequence of lookups, with memory and bounds changing at will. */
  lemma ReachableZone(setup: Setup, calls: seq<Call>)
    requires AllCredible(calls)
    ensures var z := Run(setup, FRESH, calls);
      && StrictlySorted(z.ranges)
      && (z.bounds.Some? ==>
            || Blocked(z)
            || (z.blocked.None? && z.cursor.Some? && z.bounds.value.freeStart <= z.cursor.value
                && Tiles(z.ranges, z.bounds.value.base, z.cursor.value)))
  {
    RunKeepsInvariant(setup, FRESH, calls);
  }

  /** The backward scan adds nothing to a zone that is known and not blocked. */
  lemma ScanLeavesWalkedZoneAlone(setup: Setup, obs: Observation, z: Zone, pc: nat)
    requires ZoneInvariant(z) && Credible(obs)
    ensures var after := Resolve(setup, obs, z, pc).zone;
      Walked(after) ==> after.ranges == z.ranges || after.ranges == Refresh(setup, obs, z).ranges
  {
    ResolveSummary(setup, obs, z, pc);
    if pc !in z.resolved && Walked(Resolve(setup, obs, z, pc).zone) {
      assert !Blocked(Settled(setup, obs, z, pc));
    }
  }

  /** Whenever a refresh changes the index, the index becomes a tiling up to the
      cursor: what a backward scan had added is gone before the walk goes on. */
  lemma RefreshedIndexIsWalked(setup: Setup, obs: Observation, z: Zone)
    requires ZoneInvariant(z) && Credible(obs)
    ensures var after := Refresh(setup, obs, z);
      after.ranges != z.ranges ==>
        after.bounds.Some? && after.cursor.Some? && Tiles(after.ranges, after.bounds.value.base, after.cursor.value)
  {
    if obs.bounds.Some? {
      var b := obs.bounds.value;
      if z.bounds != Some(b) && !Grows(z, b) {
        WalkOnKeepsInvariant(setup, obs, z.(ranges := [], resolved := map[], blocked := None), b.base);
      } else if Walked(z) && z.bounds != Some(b) && z.cursor.value < b.freeStart {
        WalkOnKeepsInvariant(setup, obs, z, z.cursor.value);
      }
    }
  }

  lemma BlockedRefresh(setup: Setup, obs: Observation, z: Zone)
    requires ZoneInvariant(z) && Credible(obs) && Blocked(z)
    ensures var after := Refresh(setup, obs, z);
      var reset := obs.bounds.Some? && obs.bounds != z.bounds && !Grows(z, obs.bounds.value);
      && (reset ==> after.bounds == obs.bounds)
      && (!reset ==>
            && after == z.(bounds := after.bounds, entries := after.entries)
            && (after.bounds == z.bounds || (after.bounds == obs.bounds && Grows(z, obs.bounds.value))))
  {
  }

  /** Blocking ends only with a reset: bounds with another base, or less of the zone. */
  lemma BlockedUntilReset(setup: Setup, obs: Observation, z: Zone, pc: nat)
    requires ZoneInvariant(z) && Credible(obs) && Blocked(z)
    ensures var after := Resolve(setup, obs, z, pc).zone;
      || (Blocked(after) && after.cursor == z.cursor && after.bounds.value.base == z.bounds.value.base
          && after.bounds.value.freeStart >= z.bounds.value.freeStart)
      || (obs.bounds.Some? && after.bounds == obs.bounds
          && (obs.bounds.value.base != z.bounds.value.base || obs.bounds.value.freeStart < z.bounds.value.freeStart))
  {
    ResolveSummary(setup, obs, z, pc);
    BlockedRefresh(setup, obs, z);
  }

  // ----- index and cache -----

  /** `pc` is in the tiling, and the cache gives what the index gives. */
  predicate AnsweredFromIndex(z: Zone, pc: nat) {
    Walked(z) && LookupName(z, pc).Some? && pc in z.resolved && z.resolved[pc] == LookupName(z, pc)
  }

  /** The first answer for a pc in the tiling is the name of the only range holding it. */
  lemma FirstAnswerIsIndexed(setup: Setup, obs: Observation, z: Zone, pc: nat)
    requires ZoneInvariant(z) && Credible(obs) && pc !in z.resolved
    ensures var r := Resolve(setup, obs, z, pc);
      && ZoneInvariant(r.zone)
      && (Walked(r.zone) && r.zone.bounds.value.base <= pc < r.zone.cursor.value ==>
            && AnsweredFromIndex(r.zone, pc) && r.name == LookupName(r.zone, pc)
            && forall range | range in r.zone.ranges && range.start <= pc < range.end :: r.name == Some(range.name))
  {
    ResolveSummary(setup, obs, z, pc);
    var after := Resolve(setup, obs, z, pc).zone;
    if Walked(after) {
      TilingLookup(after.ranges, after.bounds.value.base, after.cursor.value, pc);
      assert !Blocked(Settled(setup, obs, z, pc));
    }
  }

  lemma RefreshShowsBounds(setup: Setup, obs: Observation, z: Zone, pc: nat)
    requires ZoneInvariant(z) && Credible(obs) && !Blocked(z) && LookupName(z, pc).None?
    requires obs.bounds.Some? && obs.bounds.value.base <= pc < obs.bounds.value.freeStart
    requires z.bounds.Some? ==> z.bounds.value.base <= pc
    ensures ShouldRefresh(z, pc) && Refresh(setup, obs, z).bounds == obs.bounds
  {
    if z.bounds.Some? {
      WalkedZoneIsIndexed(z, pc);
    }
  }

  /** Code that came into the zone since it was walked is noticed: a pc that no range holds,
      inside the zone as it is shown now, is answered from the index afterwards, unless
      the walk is or was blocked or the pc had an answer.  Only a pc below the known zone
      does not make the symbolizer look again. */
  lemma NewCodeIsNoticed(setup: Setup, obs: Observation, z: Zone, pc: nat)
    requires ZoneInvariant(z) && Credible(obs) && !Blocked(z) && pc !in z.resolved && LookupName(z, pc).None?
    requires obs.bounds.Some? && obs.bounds.value.base <= pc < obs.bounds.value.freeStart
    ensures var after := Resolve(setup, obs, z, pc).zone;
      if z.bounds.Some? && pc < z.bounds.value.base then after == z.(resolved := after.resolved)
      else Blocked(after) || AnsweredFromIndex(after, pc)
  {
    ResolveSummary(setup, obs, z, pc);
    var settled := Settled(setup, obs, z, pc);
    if z.bounds.Some? && pc < z.bounds.value.base {
      assert !ShouldRefresh(z, pc) && settled == z;
    } else {
      RefreshShowsBounds(setup, obs, z, pc);
      if Walked(settled) {
        WalkedZoneIsIndexed(settled, pc);
      }
    }
    hide Refresh, Resolve, Tiles, StrictlySorted, EntriesSorted, LookupRange;
  }

  /** The zone is known, on the same base, and has not shrunk. */
  predicate SameZone(z: Zone, after: Zone) {
    && z.bounds.Some? && after.bounds.Some?
    && after.bounds.value.base == z.bounds.value.base
    && after.bounds.value.freeStart >= z.bounds.value.freeStart
  }

  /** The zone also stays walked. */
  predicate Continues(z: Zone, after: Zone) {
    Walked(z) && Walked(after) && SameZone(z, after)
  }

  lemma SettledExtends(setup: Setup, obs: Observation, z: Zone, q: nat)
    requires ZoneInvariant(z) && Credible(obs) && Walked(z)
    requires ZoneInvariant(Settled(setup, obs, z, q)) && Settled(setup, obs, z, q).bounds.Some?
    requires Settled(setup, obs, z, q).bounds.value.base == z.bounds.value.base
    requires Settled(setup, obs, z, q).bounds.value.freeStart >= z.bounds.value.freeStart
    ensures z.ranges <= Settled(setup, obs, z, q).ranges && z.resolved == Settled(setup, obs, z, q).resolved
  {
  }

  lemma StepKeepsAnswer(setup: Setup, obs: Observation, z: Zone, q: nat, pc: nat)
    requires ZoneInvariant(z) && Credible(obs) && AnsweredFromIndex(z, pc)
    requires Continues(z, Resolve(setup, obs, z, q).zone)
    ensures ZoneInvariant(Resolve(setup, obs, z, q).zone)
    ensures AnsweredFromIndex(Resolve(setup, obs, z, q).zone, pc)
    ensures LookupName(Resolve(setup, obs, z, q).zone, pc) == LookupName(z, pc)
  {
    ResolveSummary(setup, obs, z, q);
    if q !in z.resolved {
      var after := Resolve(setup, obs, z, q).zone;
      assert q != pc;
      SettledExtends(setup, obs, z, q);
      TilingLookup(z.ranges, z.bounds.value.base, z.cursor.value, pc);
      LookupInLongerTiling(z.ranges, after.ranges, z.bounds.value.base, z.cursor.value, after.cursor.value, pc);
    }
  }

  predicate StaysWalked(setup: Setup, z: Zone, calls: seq<Call>)
    decreases |calls|
  {
    calls == [] ||
    var after := Resolve(setup, calls[0].obs, z, calls[0].pc).zone;
    Continues(z, after) && StaysWalked(setup, after, calls[1..])
  }

  /** An answer taken from the index is still the answer of a fresh lookup after
      any run in which the zone only grows. */
  lemma {:induction false} CachedAnswerStaysFresh(setup: Setup, z: Zone, calls: seq<Call>, pc: nat)
    requires ZoneInvariant(z) && AllCredible(calls)
    requires AnsweredFromIndex(z, pc) && StaysWalked(setup, z, calls)
    ensures AnsweredFromIndex(Run(setup, z, calls), pc)
    ensures LookupName(Run(setup, z, calls), pc) == LookupName(z, pc)
    decreases |calls|
  {
    if calls != [] {
      var after := Resolve(setup, calls[0].obs, z, calls[0].pc).zone;
      StepKeepsAnswer(setup, calls[0].obs, z, calls[0].pc, pc);
      CachedAnswerStaysFresh(setup, after, calls[1..], pc);
    }
  }

  // ----- answers given before the zone reached the pc -----

  lemma StepKeepsCache(setup: Setup, obs: Observation, z: Zone, q: nat, pc: nat)
    requires ZoneInvariant(z) && Credible(obs) && pc in z.resolved
    requires SameZone(z, Resolve(setup, obs, z, q).zone)
    ensures var after := Resolve(setup, obs, z, q).zone;
      ZoneInvariant(after) && pc in after.resolved && after.resolved[pc] == z.resolved[pc]
  {
    hide Walk, JitEntries, ResolveUnindexed, Walked, Blocked;
    ResolveSummary(setup, obs, z, q);
  }

  predicate NeverReset(setup: Setup, z: Zone, calls: seq<Call>)
    decreases |calls|
  {
    calls == [] ||
    var after := Resolve(setup, calls[0].obs, z, calls[0].pc).zone;
    SameZone(z, after) && NeverReset(setup, after, calls[1..])
  }

  /** Until the zone is reset, walked or blocked, a pc keeps its first answer. */
  lemma {:induction false} CachedAnswerIsKept(setup: Setup, z: Zone, calls: seq<Call>, pc: nat)
    requires ZoneInvariant(z) && AllCredible(calls)
    requires pc in z.resolved && NeverReset(setup, z, calls)
    ensures var w := Run(setup, z, calls);
      pc in w.resolved && w.resolved[pc] == z.resolved[pc]
    decreases |calls|
  {
    if calls != [] {
      hide Resolve, ZoneInvariant;
      var after := Resolve(setup, calls[0].obs, z, calls[0].pc).zone;
      StepKeepsCache(setup, calls[0].obs, z, calls[0].pc, pc);
      CachedAnswerIsKept(setup, after, calls[1..], pc);
    }
  }

  lemma {:induction false} StaysWalkedIsNeverReset(setup: Setup, z: Zone, calls: seq<Call>)
    requires StaysWalked(setup, z, calls)
    ensures NeverReset(setup, z, calls)
    decreases |calls|
  {
    if calls != [] {
      hide Resolve, Walked;
      StaysWalkedIsNeverReset(setup, Resolve(setup, calls[0].obs, z, calls[0].pc).zone, calls[1..]);
    }
  }

  /** The first answer for a pc of a walked zone. */
  lemma FirstAnswer(setup: Setup, obs: Observation, z: Zone, pc: nat)
    requires ZoneInvariant(z) && Credible(obs) && pc !in z.resolved
    requires Walked(Resolve(setup, obs, z, pc).zone)
    ensures var r := Resolve(setup, obs, z, pc);
      && ZoneInvariant(r.zone) && pc in r.zone.resolved && r.zone.resolved[pc] == r.name
      && (LookupName(r.zone, pc).Some? <==> r.zone.bounds.value.base <= pc < r.zone.cursor.value)
      && r.name == if LookupName(r.zone, pc).Some? then LookupName(r.zone, pc) else OutsideAnswer(setup, r.zone, pc)
  {
    ResolveSummary(setup, obs, z, pc);
    var r := Resolve(setup, obs, z, pc);
    hide Refreshed, ResolveUnindexed, Tiles, StrictlySorted, EntriesSorted, LookupRange;
    assert !Blocked(Settled(setup, obs, z, pc)) && Walked(Settled(setup, obs, z, pc));
    WalkedZoneIsIndexed(r.zone, pc);
  }

  /** When the index holds a pc after a run in which the zone only grows, the cached
      answer for it is that of the index exactly when the pc was in the walked zone at
      its first lookup, or the method happens to bear the name given outside of it. */
  lemma FreshExactlyWhenIndexed(setup: Setup, obs: Observation, z: Zone, pc: nat, calls: seq<Call>)
    requires ZoneInvariant(z) && Credible(obs) && AllCredible(calls) && pc !in z.resolved
    requires Walked(Resolve(setup, obs, z, pc).zone) && StaysWalked(setup, Resolve(setup, obs, z, pc).zone, calls)
    requires LookupName(Run(setup, Resolve(setup, obs, z, pc).zone, calls), pc).Some?
    ensures var first := Resolve(setup, obs, z, pc).zone;
      var last := Run(setup, first, calls);
      && pc in last.resolved && last.resolved[pc] == Resolve(setup, obs, z, pc).name
      && (last.resolved[pc] == LookupName(last, pc) <==>
            || first.bounds.value.base <= pc < first.cursor.value
            || LookupName(last, pc) == OutsideAnswer(setup, first, pc))
  {
    FirstAnswer(setup, obs, z, pc);
    hide Resolve, ZoneInvariant, LookupName, OutsideAnswer, Credible;
    var first := Resolve(setup, obs, z, pc).zone;
    StaysWalkedIsNeverReset(setup, first, calls);
    CachedAnswerIsKept(setup, first, calls, pc);
    if first.bounds.value.base <= pc < first.cursor.value {
      CachedAnswerStaysFresh(setup, first, calls, pc);
    }
  }

  // ----- entry points -----

  /** Of the slots that name an address of generated code, the i-th has the nearest one at
      or below a pc of generated code, and it is less than four kilobytes away. */
  ghost predicate IsNearestSlot(setup: Setup, bounds: Option<Bounds>, values: seq<Option<nat>>, pc: nat, i: nat) {
    && i < |values| && values[i].Some? && NamesCode(setup, bounds, values, values[i].value, i)
    && values[i].value <= pc < values[i].value + 4096 && PcLooksLikeCogCode(setup.maps, bounds, pc)
    && forall j: nat, address: nat | address <= pc && NamesCode(setup, bounds, values, address, j) ::
         address <= values[i].value
  }

  /** The nearest slot gives the nearest entry of the table, and the other way round. */
  lemma NearestSlotIsNearestEntry(setup: Setup, bounds: Option<Bounds>, values: seq<Option<nat>>, pc: nat,
          entry: JitEntry, i: nat)
    requires |values| == |setup.jitEntrySymbolSlots| && pc < U64_MAX
    requires NamesCode(setup, bounds, values, entry.address, i) && entry.name == setup.jitEntrySymbolSlots[i].name
    ensures NamesPc(setup.maps, bounds, JitEntries(setup, bounds, values), pc, entry)
      <==> IsNearestSlot(setup, bounds, values, pc, i)
  {
    var entries := JitEntries(setup, bounds, values);
    hide JitEntries, PcLooksLikeCogCode;
    TableHoldsFirstSlots(setup, bounds, values, entry);
    if NamesPc(setup.maps, bounds, entries, pc, entry) {
      forall j: nat, address: nat | address <= pc && NamesCode(setup, bounds, values, address, j)
        ensures address <= entry.address
      {
        TableHoldsFirstSlots(setup, bounds, values, JitEntry(address, setup.jitEntrySymbolSlots[j].name));
      }
    }
    if IsNearestSlot(setup, bounds, values, pc, i) {
      forall other | other in entries && other.address <= pc ensures other.address <= entry.address {
        TableHoldsFirstSlots(setup, bounds, values, other);
      }
    }
  }

  predicate AreWords(values: seq<Option<nat>>) {
    forall v | v in values :: v.Some? ==> v.value <= U64_MAX
  }

  /** The lookup among the entry points, as a search of the slots. */
  lemma EntryLookupSearchesSlots(setup: Setup, bounds: Option<Bounds>, values: seq<Option<nat>>, pc: nat)
    requires |values| == |setup.jitEntrySymbolSlots| && pc < U64_MAX && AreWords(values)
    ensures var found := LookupJitEntry(setup.maps, bounds, JitEntries(setup, bounds, values), pc);
      && (forall i: nat | IsNearestSlot(setup, bounds, values, pc, i) ::
            found == Some("Cog " + setup.jitEntrySymbolSlots[i].name))
      && ((forall i: nat :: !IsNearestSlot(setup, bounds, values, pc, i)) ==> found == None)
  {
    var entries := JitEntries(setup, bounds, values);
    assert forall entry | NamesPc(setup.maps, bounds, entries, pc, entry) :: entry in entries;
    hide JitEntries, PcLooksLikeCogCode, LookupJitEntry, NamesPc;
    forall entry | entry in entries
      ensures entry.address <= U64_MAX
      ensures NamesPc(setup.maps, bounds, entries, pc, entry) ==>
                exists i: nat :: IsNearestSlot(setup, bounds, values, pc, i)
    {
      TableHoldsFirstSlots(setup, bounds, values, entry);
      var i: nat :| NamesCode(setup, bounds, values, entry.address, i)
                    && entry.name == setup.jitEntrySymbolSlots[i].name;
      NearestSlotIsNearestEntry(setup, bounds, values, pc, entry, i);
      assert values[i] in values;
    }
    EntryLookupIsNearest(setup.maps, bounds, entries, pc);
    forall i: nat | IsNearestSlot(setup, bounds, values, pc, i)
      ensures NamesPc(setup.maps, bounds, entries, pc, JitEntry(values[i].value, setup.jitEntrySymbolSlots[i].name))
    {
      var nearest := JitEntry(values[i].value, setup.jitEntrySymbolSlots[i].name);
      NearestSlotIsNearestEntry(setup, bounds, values, pc, nearest, i);
    }
  }

  /** A lookup that makes new bounds known, for a pc that even then no range holds, names it
      after the nearest entry point close by, as the slots show them under these bounds. */
  lemma NewBoundsNameEntryPoint(setup: Setup, obs: Observation, z: Zone, pc: nat, i: nat)
    requires ZoneInvariant(z) && Credible(obs) && |obs.slotValues| == |setup.jitEntrySymbolSlots| && pc < U64_MAX
    requires AreWords(obs.slotValues)
    requires pc !in z.resolved && LookupName(z, pc).None? && ShouldRefresh(z, pc)
    requires Refresh(setup, obs, z).bounds != z.bounds && LookupName(Refresh(setup, obs, z), pc).None?
    requires IsNearestSlot(setup, obs.bounds, obs.slotValues, pc, i)
    ensures Resolve(setup, obs, z, pc).name == Some("Cog " + setup.jitEntrySymbolSlots[i].name)
  {
    var after := Refresh(setup, obs, z);
    assert after.entries == JitEntries(setup, after.bounds, obs.slotValues) && after.bounds == obs.bounds;
    hide Refresh, JitEntries, PcLooksLikeCogCode, LookupJitEntry, LookupName, ShouldRefresh, IsNearestSlot;
    EntryLookupSearchesSlots(setup, obs.bounds, obs.slotValues, pc);
  }

  /** The first lookup of all, outside what the walk covers. */
  lemma FirstLookupNamesEntryPoint(setup: Setup, obs: Observation, pc: nat, i: nat)
    requires Credible(obs) && obs.bounds.Some? && |obs.slotValues| == |setup.jitEntrySymbolSlots| && pc < U64_MAX
    requires AreWords(obs.slotValues)
    requires pc < obs.bounds.value.base || Refresh(setup, obs, FRESH).cursor.GetOr(0) <= pc
    requires IsNearestSlot(setup, obs.bounds, obs.slotValues, pc, i)
    ensures Resolve(setup, obs, FRESH, pc).name == Some("Cog " + setup.jitEntrySymbolSlots[i].name)
  {
    assert LookupRange([], pc) == None;
    WalkOnKeepsInvariant(setup, obs, FRESH, obs.bounds.value.base);
    var after := Refresh(setup, obs, FRESH);
    assert Tiles(after.ranges, obs.bounds.value.base, after.cursor.value);
    TilingLookup(after.ranges, obs.bounds.value.base, after.cursor.value, pc);
    hide WalkOn, Tiles, IsNearestSlot, LookupRange;
    NewBoundsNameEntryPoint(setup, obs, FRESH, pc, i);
  }
}
