/** The forward walk against a walk from scratch, and the backward scan as a
    search for the nearest header. */
module WalkTheorems {
  import opened Wrappers
  import opened TargetMemory
  import opened CogMethods
  import opened RangeIndex
  import opened JitEntryTable
  import opened MethodZone
  import opened ZoneTheorems

  // ----- stable headers -----

  /** What the header at an address decodes to, as long as it does not change. */
  type Headers = nat -> Option<CogMethodRange>

  ghost predicate SoundHeaders(headers: Headers) {
    forall addr: nat :: headers(addr).Some? ==> Decoded(addr, headers(addr).value)
  }

  ghost predicate Shows(decode: Decoder, headers: Headers) {
    forall k: nat, addr: nat :: decode(k, addr) == headers(addr)
  }

  function Steady(headers: Headers): Decoder {
    (_: nat, addr: nat) => headers(addr)
  }

  /** One uninterrupted walk of the zone. */
  function FromScratch(headers: Headers, base: nat, freeStart: nat): WalkResult {
    Walk(Steady(headers), 0, base, freeStart)
  }

  lemma {:induction false} WalkIgnoresStep(decode: Decoder, headers: Headers, k: nat, j: nat, cursor: nat,
          freeStart: nat)
    requires Shows(decode, headers)
    ensures Walk(decode, k, cursor, freeStart) == Walk(Steady(headers), j, cursor, freeStart)
    decreases if cursor < freeStart then freeStart - cursor else 0
  {
    if cursor < freeStart && headers(cursor).Some? && !Overruns(headers(cursor).value, cursor, freeStart) {
      WalkIgnoresStep(decode, headers, k + 1, j + 1, headers(cursor).value.end, freeStart);
    }
  }

  function Then(w: WalkResult, rest: WalkResult): WalkResult {
    WalkResult(w.found + rest.found, rest.cursor, rest.blocked)
  }

  /** Walking to a later end is walking to an earlier one and going on from there,
      even when the earlier walk was blocked. */
  lemma {:induction false} WalkComposes(headers: Headers, k: nat, j: nat, cursor: nat, freeStart: nat, later: nat)
    requires freeStart <= later
    ensures var w := Walk(Steady(headers), k, cursor, freeStart);
      Walk(Steady(headers), k, cursor, later) == Then(w, Walk(Steady(headers), j, w.cursor, later))
    decreases if cursor < freeStart then freeStart - cursor else 0
  {
    var w := Walk(Steady(headers), k, cursor, freeStart);
    var rest := Walk(Steady(headers), j, w.cursor, later);
    if cursor < freeStart && headers(cursor).Some? && !Overruns(headers(cursor).value, cursor, freeStart) {
      var range := headers(cursor).value;
      WalkComposes(headers, k + 1, j, range.end, freeStart, later);
      var tail := Walk(Steady(headers), k + 1, range.end, freeStart);
      assert w.found + rest.found == [range] + (tail.found + rest.found);
    } else {
      WalkIgnoresStep(Steady(headers), headers, k, j, cursor, later);
      assert w.found + rest.found == rest.found;
    }
  }

  // ----- a growing zone -----

  /** Successive refreshes of a zone on one base whose end does not go back and
      whose headers stay as they are. */
  ghost predicate Growing(setup: Setup, headers: Headers, base: nat, observations: seq<Observation>) {
    && SoundHeaders(headers)
    && (forall obs | obs in observations ::
          Credible(obs) && Shows(obs.walk, headers) && obs.bounds.Some? && obs.bounds.value.base == base)
    && (forall i, j | 0 <= i < j < |observations| ::
          observations[i].bounds.value.freeStart <= observations[j].bounds.value.freeStart)
  }

  function RefreshAll(setup: Setup, observations: seq<Observation>): Zone
    decreases |observations|
  {
    if observations == [] then FRESH
    else Refresh(setup, observations[|observations| - 1], RefreshAll(setup, observations[..|observations| - 1]))
  }

  lemma {:induction false} RefreshAllKeepsInvariant(setup: Setup, observations: seq<Observation>)
    requires forall obs | obs in observations :: Credible(obs)
    ensures ZoneInvariant(RefreshAll(setup, observations))
    decreases |observations|
  {
    if observations != [] {
      RefreshAllKeepsInvariant(setup, observations[..|observations| - 1]);
      var front, last := observations[..|observations| - 1], observations[|observations| - 1];
      RefreshKeepsInvariant(setup, last, RefreshAll(setup, front));
    }
  }

  /** The index is what one walk to `at` finds; an unblocked walk has reached `freeStart`. */
  predicate WalkedTo(z: Zone, headers: Headers, base: nat, at: nat, freeStart: nat) {
    var w := FromScratch(headers, base, at);
    && at <= freeStart
    && z.bounds.Some? && z.bounds.value.base == base && z.bounds.value.freeStart <= freeStart
    && z.ranges == w.found && z.cursor == Some(w.cursor)
    && z.blocked == (if w.blocked then Some(w.cursor) else None)
    && (w.blocked || (at == freeStart && freeStart <= w.cursor))
  }

  lemma UnblockedReachesEnd(z: Zone, headers: Headers, base: nat, at: nat, freeStart: nat)
    requires WalkedTo(z, headers, base, at, freeStart)
    ensures at <= freeStart && (!FromScratch(headers, base, at).blocked ==> at == freeStart)
  {
  }

  lemma WalkedToLater(headers: Headers, base: nat, at: nat, later: nat)
    requires at <= later
    requires at <= FromScratch(headers, base, at).cursor && later <= FromScratch(headers, base, at).cursor
    requires !FromScratch(headers, base, at).blocked
    ensures FromScratch(headers, base, later) == FromScratch(headers, base, at)
  {
    var w := FromScratch(headers, base, at);
    WalkComposes(headers, 0, 0, base, at, later);
    assert Walk(Steady(headers), 0, w.cursor, later) == WalkResult([], w.cursor, false);
    assert w.found + [] == w.found;
  }

  /** One more refresh. */
  lemma GrowthStep(setup: Setup, obs: Observation, z: Zone, headers: Headers, base: nat, at: nat,
          freeStart: nat) returns (at': nat)
    requires ZoneInvariant(z) && Credible(obs) && SoundHeaders(headers) && Shows(obs.walk, headers)
    requires WalkedTo(z, headers, base, at, freeStart)
    requires obs.bounds.Some? && obs.bounds.value.base == base && freeStart <= obs.bounds.value.freeStart
    ensures WalkedTo(Refresh(setup, obs, z), headers, base, at', obs.bounds.value.freeStart)
    ensures at' == if FromScratch(headers, base, at).blocked then at else obs.bounds.value.freeStart
  {
    var later := obs.bounds.value.freeStart;
    var w := FromScratch(headers, base, at);
    if w.blocked {
      at' := at;
    } else {
      at' := later;
      if later <= w.cursor {
        WalkedToLater(headers, base, at, later);
      } else {
        WalkComposes(headers, 0, 0, base, at, later);
        WalkIgnoresStep(obs.walk, headers, 0, 0, w.cursor, later);
        WalkTiles(Steady(headers), 0, base, later);
      }
    }
  }

  lemma FirstRefresh(setup: Setup, obs: Observation, headers: Headers, base: nat)
    requires Credible(obs) && SoundHeaders(headers) && Shows(obs.walk, headers)
    requires obs.bounds.Some? && obs.bounds.value.base == base
    ensures WalkedTo(Refresh(setup, obs, FRESH), headers, base, obs.bounds.value.freeStart, obs.bounds.value.freeStart)
  {
    hide JitEntries, Walk, Tiles;
    var freeStart := obs.bounds.value.freeStart;
    WalkIgnoresStep(obs.walk, headers, 0, 0, base, freeStart);
    WalkTiles(Steady(headers), 0, base, freeStart);
    assert [] + FromScratch(headers, base, freeStart).found == FromScratch(headers, base, freeStart).found;
  }

  /** The refresh that reaches furthest without being blocked before: its end is one
      that was shown, and no walk from scratch to an earlier end is blocked. */
  ghost predicate ReachedBy(headers: Headers, base: nat, observations: seq<Observation>, at: nat) {
    && (exists obs :: obs in observations && obs.bounds.Some? && obs.bounds.value.freeStart == at)
    && forall obs | obs in observations && obs.bounds.Some? && obs.bounds.value.freeStart < at ::
         !FromScratch(headers, base, obs.bounds.value.freeStart).blocked
  }

  function LastEnd(observations: seq<Observation>): nat
    requires observations != [] && observations[|observations| - 1].bounds.Some?
  {
    observations[|observations| - 1].bounds.value.freeStart
  }

  /** What is known of the last refresh of a growing zone, and of those before it. */
  lemma LastOfGrowing(setup: Setup, headers: Headers, base: nat, observations: seq<Observation>)
    requires Growing(setup, headers, base, observations) && observations != []
    ensures var last := observations[|observations| - 1];
      && SoundHeaders(headers) && Credible(last) && Shows(last.walk, headers)
      && last.bounds.Some? && last.bounds.value.base == base
      && forall obs | obs in observations :: obs.bounds.Some? && obs.bounds.value.freeStart <= LastEnd(observations)
    ensures var front := observations[..|observations| - 1];
      && Growing(setup, headers, base, front)
      && (forall obs | obs in front :: Credible(obs))
      && (front != [] ==> front[|front| - 1].bounds.Some? && LastEnd(front) <= LastEnd(observations))
  {
    hide Credible, Shows;
    var last := observations[|observations| - 1];
    assert last in observations;
    if |observations| > 1 {
      assert observations[|observations| - 2] in observations;
    }
  }

  lemma ReachedByMore(headers: Headers, base: nat, front: seq<Observation>, last: Observation, at: nat, at': nat)
    requires ReachedBy(headers, base, front, at) && last.bounds.Some?
    requires forall obs | obs in front :: obs.bounds.Some? && obs.bounds.value.freeStart <= last.bounds.value.freeStart
    requires if FromScratch(headers, base, at).blocked then at' == at && at <= last.bounds.value.freeStart
             else at' == last.bounds.value.freeStart
    requires !FromScratch(headers, base, at).blocked ==> forall obs | obs in front :: obs.bounds.value.freeStart <= at
    ensures ReachedBy(headers, base, front + [last], at')
  {
    hide FromScratch;
    var all := front + [last];
    if at' == at {
      var obs :| obs in front && obs.bounds.Some? && obs.bounds.value.freeStart == at;
      assert obs in all;
    } else {
      assert last in all;
    }
  }

  lemma {:induction false} IncrementalWalk(setup: Setup, headers: Headers, base: nat,
          observations: seq<Observation>) returns (at: nat)
    requires Growing(setup, headers, base, observations) && observations != []
    ensures observations[|observations| - 1].bounds.Some?
    ensures WalkedTo(RefreshAll(setup, observations), headers, base, at, LastEnd(observations))
    ensures ReachedBy(headers, base, observations, at)
    decreases |observations|
  {
    hide FromScratch, Credible, Shows, Refresh, ZoneInvariant, Growing, WalkedTo, SoundHeaders;
    var last := observations[|observations| - 1];
    var front := observations[..|observations| - 1];
    LastOfGrowing(setup, headers, base, observations);
    assert observations == front + [last];
    if front == [] {
      at := last.bounds.value.freeStart;
      FirstRefresh(setup, last, headers, base);
    } else {
      RefreshAllKeepsInvariant(setup, front);
      var at0 := IncrementalWalk(setup, headers, base, front);
      at := GrowthStep(setup, last, RefreshAll(setup, front), headers, base, at0, LastEnd(front));
      LastOfGrowing(setup, headers, base, front);
      UnblockedReachesEnd(RefreshAll(setup, front), headers, base, at0, LastEnd(front));
      ReachedByMore(headers, base, front, last, at0, at);
    }
  }

  /** The walk from scratch to `end` stops at a header that decodes and fits before `last`. */
  predicate StopsAtLaterMethod(headers: Headers, base: nat, end: nat, last: nat) {
    var w := FromScratch(headers, base, end);
    w.blocked && headers(w.cursor).Some? && !Overruns(headers(w.cursor).value, w.cursor, last)
  }

  /** Once a walk is blocked, walks to later ends that are blocked as well stop there, too. */
  lemma LaterStop(headers: Headers, base: nat, at: nat, end: nat, last: nat)
    requires SoundHeaders(headers) && at <= end <= last && FromScratch(headers, base, at).blocked
    requires StopsAtLaterMethod(headers, base, end, last)
    ensures StopsAtLaterMethod(headers, base, at, last)
  {
    var w := FromScratch(headers, base, at);
    WalkTiles(Steady(headers), 0, base, at);
    WalkComposes(headers, 0, 0, base, at, end);
    hide Tiles;
    if headers(w.cursor).None? || Overruns(headers(w.cursor).value, w.cursor, end) {
      assert Walk(Steady(headers), 0, w.cursor, end) == WalkResult([], w.cursor, true);
    }
  }

  /** Going on from where a walk stopped finds something exactly when a header fits there. */
  lemma GoingOn(headers: Headers, base: nat, at: nat, last: nat)
    requires SoundHeaders(headers) && at <= last
    ensures var w := FromScratch(headers, base, at);
      && w.found <= FromScratch(headers, base, last).found
      && (w.blocked ==>
            (w.found == FromScratch(headers, base, last).found <==> !StopsAtLaterMethod(headers, base, at, last)))
  {
    var w := FromScratch(headers, base, at);
    WalkTiles(Steady(headers), 0, base, at);
    WalkComposes(headers, 0, 0, base, at, last);
    hide Tiles;
    var rest := Walk(Steady(headers), 0, w.cursor, last);
    assert |FromScratch(headers, base, last).found| == |w.found| + |rest.found|;
  }

  /** A walk that stops early is blocked; so is the furthest walk, at the same place. */
  lemma StopsWhereBlocked(headers: Headers, base: nat, at: nat, end: nat, last: nat)
    requires SoundHeaders(headers) && at <= last && end <= last
    requires FromScratch(headers, base, at).blocked || at == last
    requires end < at ==> !FromScratch(headers, base, end).blocked
    requires StopsAtLaterMethod(headers, base, end, last)
    ensures FromScratch(headers, base, at).blocked && StopsAtLaterMethod(headers, base, at, last)
  {
    if FromScratch(headers, base, at).blocked {
      LaterStop(headers, base, at, end, last);
    }
  }

  /** Walked piece by piece as it grew, the zone is indexed as a prefix of one walk
      from scratch to its last end.  It is indexed in full exactly when no walk to an
      end it was seen with stops at a method that fits before the last one: such a
      method overran the end of that time, and the walk stays blocked there. */
  lemma IncrementalAgainstScratch(setup: Setup, headers: Headers, base: nat, observations: seq<Observation>)
    requires Growing(setup, headers, base, observations) && observations != []
    ensures observations[|observations| - 1].bounds.Some?
    ensures var z := RefreshAll(setup, observations);
      var last := LastEnd(observations);
      var scratch := FromScratch(headers, base, last);
      && z.ranges <= scratch.found
      && (z.ranges == scratch.found <==>
            forall obs | obs in observations && obs.bounds.Some? ::
              !StopsAtLaterMethod(headers, base, obs.bounds.value.freeStart, last))
  {
    LastOfGrowing(setup, headers, base, observations);
    hide FromScratch, Credible, Shows, RefreshAll, StopsAtLaterMethod, Growing, SoundHeaders;
    var last := LastEnd(observations);
    var at := IncrementalWalk(setup, headers, base, observations);
    GoingOn(headers, base, at, last);
    forall obs | obs in observations && obs.bounds.Some?
        && StopsAtLaterMethod(headers, base, obs.bounds.value.freeStart, last)
      ensures FromScratch(headers, base, at).blocked && StopsAtLaterMethod(headers, base, at, last)
    {
      StopsWhereBlocked(headers, base, at, obs.bounds.value.freeStart, last);
    }
  }

  // ----- runs of lookups -----

  /** Lookups while the zone grows on one base and its headers stay as they are. */
  ghost predicate GrowingRun(headers: Headers, base: nat, calls: seq<Call>) {
    && SoundHeaders(headers)
    && (forall call | call in calls ::
          && Credible(call.obs) && Shows(call.obs.walk, headers)
          && call.obs.bounds.Some? && call.obs.bounds.value.base == base)
    && (forall i, j | 0 <= i < j < |calls| ::
          calls[i].obs.bounds.value.freeStart <= calls[j].obs.bounds.value.freeStart)
  }

  /** A walked zone is indexed as one walk from scratch to its end does it. */
  predicate FollowsScratch(z: Zone, headers: Headers, base: nat) {
    && z.bounds.Some? && z.bounds.value.base == base
    && var w := FromScratch(headers, base, z.bounds.value.freeStart);
    Walked(z) ==> !w.blocked && z.ranges == w.found && z.cursor == Some(w.cursor)
  }

  lemma RefreshFollowsScratch(setup: Setup, obs: Observation, z: Zone, headers: Headers, base: nat)
    requires ZoneInvariant(z) && Credible(obs) && SoundHeaders(headers) && Shows(obs.walk, headers)
    requires FollowsScratch(z, headers, base)
    requires obs.bounds.Some? && obs.bounds.value.base == base
    requires z.bounds.value.freeStart <= obs.bounds.value.freeStart
    ensures var after := Refresh(setup, obs, z);
      FollowsScratch(after, headers, base) && after.bounds.value.freeStart <= obs.bounds.value.freeStart
  {
    hide JitEntries, Tiles;
    if Walked(z) && z.cursor.value < obs.bounds.value.freeStart {
      var now, later := z.bounds.value.freeStart, obs.bounds.value.freeStart;
      var w := FromScratch(headers, base, now);
      WalkComposes(headers, 0, 0, base, now, later);
      WalkIgnoresStep(obs.walk, headers, 0, 0, w.cursor, later);
    }
  }

  lemma LookupFollowsScratch(setup: Setup, obs: Observation, z: Zone, pc: nat, headers: Headers, base: nat)
    requires ZoneInvariant(z) && Credible(obs) && SoundHeaders(headers) && Shows(obs.walk, headers)
    requires obs.bounds.Some? && obs.bounds.value.base == base
    requires z == FRESH || (FollowsScratch(z, headers, base) && z.bounds.value.freeStart <= obs.bounds.value.freeStart)
    ensures var after := Resolve(setup, obs, z, pc).zone;
      && ZoneInvariant(after) && FollowsScratch(after, headers, base)
      && after.bounds.value.freeStart <= obs.bounds.value.freeStart
  {
    ResolveSummary(setup, obs, z, pc);
    var z1 := Settled(setup, obs, z, pc);
    if z == FRESH {
      assert LookupRange([], pc) == None && z1 == Refresh(setup, obs, z);
      FirstRefresh(setup, obs, headers, base);
    } else {
      RefreshFollowsScratch(setup, obs, z, headers, base);
    }
    hide Resolve, Refresh, FromScratch, ZoneInvariant, Tiles, LookupRange;
    assert FollowsScratch(z1, headers, base);
  }

  lemma {:induction false} RunFollowsScratch(setup: Setup, z: Zone, headers: Headers, base: nat, calls: seq<Call>)
    requires ZoneInvariant(z) && GrowingRun(headers, base, calls) && calls != []
    requires z == FRESH ||
      (FollowsScratch(z, headers, base) && z.bounds.value.freeStart <= calls[0].obs.bounds.value.freeStart)
    ensures FollowsScratch(Run(setup, z, calls), headers, base)
    decreases |calls|
  {
    hide FollowsScratch, ZoneInvariant, Resolve, SoundHeaders, Credible, Shows;
    assert calls[0] in calls;
    LookupFollowsScratch(setup, calls[0].obs, z, calls[0].pc, headers, base);
    var after := Resolve(setup, calls[0].obs, z, calls[0].pc).zone;
    var rest := calls[1..];
    assert forall call | call in rest :: call in calls;
    if rest == [] {
      assert Run(setup, after, []) == after;
    } else {
      assert rest[0] == calls[1];
      RunFollowsScratch(setup, after, headers, base, rest);
    }
  }

  /** The lookup refreshes: neither cache nor index has the pc, and it may be news. */
  predicate Looks(z: Zone, pc: nat) {
    pc !in z.resolved && LookupName(z, pc).None? && ShouldRefresh(z, pc)
  }

  /** Some lookup of the run that refreshes is shown an end up to which a walk is blocked. */
  predicate MeetsBlock(setup: Setup, z: Zone, headers: Headers, base: nat, calls: seq<Call>)
    decreases |calls|
  {
    calls != [] &&
    ((Looks(z, calls[0].pc) && calls[0].obs.bounds.Some?
      && FromScratch(headers, base, calls[0].obs.bounds.value.freeStart).blocked)
     || MeetsBlock(setup, Resolve(setup, calls[0].obs, z, calls[0].pc).zone, headers, base, calls[1..]))
  }

  /** The zone is blocked where the walk from scratch to the end of this lookup is. */
  predicate BlockedAt(z: Zone, headers: Headers, base: nat, call: Call) {
    && call.obs.bounds.Some?
    && var w := FromScratch(headers, base, call.obs.bounds.value.freeStart);
    w.blocked && z.cursor == Some(w.cursor)
  }

  /** One refresh of a walked zone is blocked exactly when the walk to the new end is. */
  lemma RefreshBlocks(setup: Setup, obs: Observation, z: Zone, headers: Headers, base: nat)
    requires ZoneInvariant(z) && Credible(obs) && SoundHeaders(headers) && Shows(obs.walk, headers)
    requires z == FRESH || (FollowsScratch(z, headers, base) && Walked(z))
    requires obs.bounds.Some? && obs.bounds.value.base == base
    requires z == FRESH || z.bounds.value.freeStart <= obs.bounds.value.freeStart
    ensures var after := Refresh(setup, obs, z);
      var w := FromScratch(headers, base, obs.bounds.value.freeStart);
      && (Blocked(after) <==> w.blocked)
      && (w.blocked ==> after.cursor == Some(w.cursor))
  {
    hide JitEntries, Tiles;
    var later := obs.bounds.value.freeStart;
    WalkTiles(Steady(headers), 0, base, later);
    if z == FRESH {
      WalkIgnoresStep(obs.walk, headers, 0, 0, base, later);
    } else {
      var now := z.bounds.value.freeStart;
      var w := FromScratch(headers, base, now);
      WalkComposes(headers, 0, 0, base, now, later);
      if z.cursor.value < later {
        WalkIgnoresStep(obs.walk, headers, 0, 0, w.cursor, later);
      }
    }
  }

  lemma LookupBlocks(setup: Setup, obs: Observation, z: Zone, pc: nat, headers: Headers, base: nat)
    requires ZoneInvariant(z) && Credible(obs) && SoundHeaders(headers) && Shows(obs.walk, headers)
    requires obs.bounds.Some? && obs.bounds.value.base == base
    requires z == FRESH || (FollowsScratch(z, headers, base) && z.bounds.value.freeStart <= obs.bounds.value.freeStart)
    ensures var after := Resolve(setup, obs, z, pc).zone;
      var w := FromScratch(headers, base, obs.bounds.value.freeStart);
      && (Blocked(after) <==> Blocked(z) || (Looks(z, pc) && w.blocked))
      && (Blocked(after) ==> after.cursor == if Blocked(z) then z.cursor else Some(w.cursor))
  {
    ResolveSummary(setup, obs, z, pc);
    if Blocked(z) {
      BlockedUntilReset(setup, obs, z, pc);
    } else {
      RefreshBlocks(setup, obs, z, headers, base);
      hide Refresh, Resolve, FromScratch, Tiles, LookupName, StrictlySorted, EntriesSorted;
    }
  }

  lemma RestOfRun(headers: Headers, base: nat, calls: seq<Call>)
    requires GrowingRun(headers, base, calls) && calls != []
    ensures var obs := calls[0].obs;
      && SoundHeaders(headers) && Credible(obs) && Shows(obs.walk, headers)
      && obs.bounds.Some? && obs.bounds.value.base == base
      && (calls[1..] != [] ==>
            && calls[1].obs.bounds.Some?
            && obs.bounds.value.freeStart <= calls[1].obs.bounds.value.freeStart)
    ensures GrowingRun(headers, base, calls[1..])
    ensures forall call | call in calls[1..] :: call in calls
  {
    hide Credible, Shows, SoundHeaders;
    assert calls[0] in calls;
    if calls[1..] != [] {
      assert calls[1] in calls;
    }
  }

  lemma {:induction false} RunBlocks(setup: Setup, z: Zone, headers: Headers, base: nat, calls: seq<Call>)
    requires ZoneInvariant(z) && GrowingRun(headers, base, calls)
    requires z == FRESH || (FollowsScratch(z, headers, base)
      && (calls != [] ==> z.bounds.value.freeStart <= calls[0].obs.bounds.value.freeStart))
    ensures var w := Run(setup, z, calls);
      && (Blocked(w) <==> Blocked(z) || MeetsBlock(setup, z, headers, base, calls))
      && (Blocked(z) ==> w.cursor == z.cursor)
      && (Blocked(w) && !Blocked(z) ==> exists call :: call in calls && BlockedAt(w, headers, base, call))
    decreases |calls|
  {
    if calls != [] {
      RestOfRun(headers, base, calls);
      hide FollowsScratch, ZoneInvariant, Resolve, SoundHeaders, Credible, Shows, Blocked, Looks, FromScratch,
        GrowingRun;
      var first, rest := calls[0], calls[1..];
      var after := Resolve(setup, first.obs, z, first.pc).zone;
      LookupFollowsScratch(setup, first.obs, z, first.pc, headers, base);
      LookupBlocks(setup, first.obs, z, first.pc, headers, base);
      RunBlocks(setup, after, headers, base, rest);
      var w := Run(setup, after, rest);
      assert w == Run(setup, z, calls);
      if Blocked(w) && !Blocked(z) && Blocked(after) {
        assert BlockedAt(w, headers, base, first);
      }
    }
  }

  /** Over whole runs, backward scans and all.  When the walk is not blocked, the index is
      what one walk from scratch to the end of the zone finds, no more and no less.  It is
      blocked exactly when a lookup that refreshes met an end up to which the walk is, and
      then where that walk is; so never if no walk to an end that was shown is. */
  lemma RunAgainstScratch(setup: Setup, headers: Headers, base: nat, calls: seq<Call>)
    requires GrowingRun(headers, base, calls) && calls != []
    ensures var z := Run(setup, FRESH, calls);
      && z.bounds.Some? && z.bounds.value.base == base && Walked(z) == !Blocked(z)
      && (Walked(z) ==> z.ranges == FromScratch(headers, base, z.bounds.value.freeStart).found)
      && (Blocked(z) <==> MeetsBlock(setup, FRESH, headers, base, calls))
      && (Blocked(z) ==> exists call :: call in calls && BlockedAt(z, headers, base, call))
  {
    hide FromScratch, Resolve, Tiles;
    RunFollowsScratch(setup, FRESH, headers, base, calls);
    assert AllCredible(calls);
    RunKeepsInvariant(setup, FRESH, calls);
    RunBlocks(setup, FRESH, headers, base, calls);
  }

  // ----- two runs that fall short -----

  const METHOD_A: CogMethodRange := CogMethodRange(0x10000, 0x10040, "A>>a")
  const METHOD_B: CogMethodRange := CogMethodRange(0x10040, 0x10080, "B>>b")

  function TwoMethods(): Headers {
    (addr: nat) =>
      if addr == 0x10000 then Some(METHOD_A)
      else if addr == 0x10040 then Some(METHOD_B)
      else None
  }

  function ZoneUpTo(freeStart: nat): Observation {
    Observation(Some(Bounds(0x10000, freeStart)), [], Steady(TwoMethods()), Steady(TwoMethods()))
  }

  /** A zone seen while its only method is still being written: the method overruns the
      end of that time, and the walk stays blocked before it although it fits later. */
  lemma BlockedZoneFallsShort(setup: Setup)
    ensures Growing(setup, TwoMethods(), 0x10000, [ZoneUpTo(0x10030), ZoneUpTo(0x10040)])
    ensures RefreshAll(setup, [ZoneUpTo(0x10030), ZoneUpTo(0x10040)]).ranges == []
    ensures FromScratch(TwoMethods(), 0x10000, 0x10040).found == [METHOD_A]
    ensures StopsAtLaterMethod(TwoMethods(), 0x10000, 0x10030, 0x10040)
  {
    var early, late := ZoneUpTo(0x10030), ZoneUpTo(0x10040);
    hide JitEntries;
    assert [early, late][..1] == [early] && [early][..0] == [];
    assert Walk(early.walk, 0, 0x10000, 0x10030) == WalkResult([], 0x10000, true);
    assert RefreshAll(setup, []) == FRESH;
    assert RefreshAll(setup, [early]).ranges == [] && RefreshAll(setup, [early]).blocked == Some(0x10000);
    assert Walk(late.walk, 1, 0x10040, 0x10040) == WalkResult([], 0x10040, false);
    assert Walk(late.walk, 0, 0x10000, 0x10040) == WalkResult([METHOD_A], 0x10040, false);
    IncrementalAgainstScratch(setup, TwoMethods(), 0x10000, [early, late]);
  }

  function ZoneWithA(): Zone {
    Zone([METHOD_A], map[0x10070 := Some(GENERIC_NAME)], Some(Bounds(0x10000, 0x10040)), Some(0x10040), None, [])
  }

  lemma TwoMethodsAreCredible(freeStart: nat)
    requires 0x10000 < freeStart <= 0x10080
    ensures Credible(ZoneUpTo(freeStart))
  {
  }

  lemma EarlyRefresh(setup: Setup)
    requires setup.jitEntrySymbolSlots == [] && setup.maps == []
    ensures Refresh(setup, ZoneUpTo(0x10040), FRESH) == ZoneWithA().(resolved := map[])
  {
    var obs := ZoneUpTo(0x10040);
    assert Walk(obs.walk, 1, 0x10040, 0x10040) == WalkResult([], 0x10040, false);
    assert Walk(obs.walk, 0, 0x10000, 0x10040) == WalkResult([METHOD_A], 0x10040, false);
  }

  lemma EarlyCall(setup: Setup)
    requires setup.jitEntrySymbolSlots == [] && setup.maps == []
    ensures Resolve(setup, ZoneUpTo(0x10040), FRESH, 0x10070).zone == ZoneWithA()
  {
    hide LookupRange, Refresh;
    EarlyRefresh(setup);
    TilingLookup([], 0x10000, 0x10000, 0x10070);
    TilingLookup([METHOD_A], 0x10000, 0x10040, 0x10070);
  }

  lemma LateCall(setup: Setup)
    requires setup.jitEntrySymbolSlots == [] && setup.maps == []
    ensures ZoneInvariant(ZoneWithA())
    ensures var z := Resolve(setup, ZoneUpTo(0x10080), ZoneWithA(), 0x10078).zone;
      && z.ranges == [METHOD_A, METHOD_B] && z.cursor == Some(0x10080) && z.bounds == Some(Bounds(0x10000, 0x10080))
      && 0x10070 in z.resolved && z.resolved[0x10070] == Some(GENERIC_NAME)
  {
    hide LookupRange;
    var obs := ZoneUpTo(0x10080);
    assert Walk(obs.walk, 1, 0x10080, 0x10080) == WalkResult([], 0x10080, false);
    assert Walk(obs.walk, 0, 0x10040, 0x10080) == WalkResult([METHOD_B], 0x10080, false);
    TilingLookup([METHOD_A], 0x10000, 0x10040, 0x10078);
    TilingLookup([METHOD_A, METHOD_B], 0x10000, 0x10080, 0x10078);
    assert Refresh(setup, obs, ZoneWithA()).ranges == [METHOD_A, METHOD_B];
  }

  /** A pc asked about before the zone reaches it keeps its first answer: here the
      zone grows over 0x10070, whose method is B>>b, and the cache still says
      "JIT frame".  So answers are promised fresh only for pcs taken from the index. */
  lemma AnswerBeyondZoneGoesStale(setup: Setup)
    requires setup.jitEntrySymbolSlots == [] && setup.maps == []
    ensures AllCredible([Call(0x10070, ZoneUpTo(0x10040)), Call(0x10078, ZoneUpTo(0x10080))])
    ensures var z := Run(setup, FRESH, [Call(0x10070, ZoneUpTo(0x10040)), Call(0x10078, ZoneUpTo(0x10080))]);
      && LookupName(z, 0x10070) == Some(METHOD_B.name)
      && 0x10070 in z.resolved && z.resolved[0x10070] == Some(GENERIC_NAME)
  {
    hide Resolve, LookupRange, StrictlySorted, Credible;
    var early, late := Call(0x10070, ZoneUpTo(0x10040)), Call(0x10078, ZoneUpTo(0x10080));
    TwoMethodsAreCredible(0x10040);
    TwoMethodsAreCredible(0x10080);
    EarlyCall(setup);
    LateCall(setup);
    assert [early, late][1..] == [late] && [late][1..] == [];
    var z := Resolve(setup, late.obs, ZoneWithA(), late.pc).zone;
    assert Run(setup, ZoneWithA(), [late]) == z;
    TilingLookup([METHOD_A, METHOD_B], 0x10000, 0x10080, 0x10070);
    assert METHOD_B in [METHOD_A, METHOD_B];
  }

  // ----- the backward scan -----

  lemma AlignedBelow(addr: nat)
    ensures AlignDown(addr) % 8 == 0 && AlignDown(addr) <= addr < AlignDown(addr) + 8
    ensures forall a | a <= addr && a % 8 == 0 :: a <= AlignDown(addr)
  {
  }

  lemma StepsInMegabyte(low: nat, pc: nat)
    requires low <= pc <= low + COG_SCAN_LIMIT
    ensures SaturatingSub(AlignDown(pc) + 8, AlignDown(low)) <= 131073 * 8
  {
  }

  lemma {:induction false} FoundMapHolds(maps: seq<MapRange>, pc: nat)
    ensures var m := FindMap(maps, pc);
      && (m.Some? ==> m.value in maps && m.value.start <= pc < m.value.start + m.value.size)
      && (m.None? ==> forall other | other in maps :: !(other.start <= pc < other.start + other.size))
  {
    if maps != [] && !(maps[0].start <= pc < maps[0].start + maps[0].size) {
      FoundMapHolds(maps[1..], pc);
    }
  }

  /** What a scan for `pc` sees at `addr`: it reaches it at a step of its own. */
  function Probe(decode: Decoder, pc: nat, addr: nat): Option<CogMethodRange>
    requires addr <= AlignDown(pc)
  {
    decode((AlignDown(pc) - addr) / 8, addr)
  }

  lemma ProbeAtStep(decode: Decoder, pc: nat, k: nat, candidate: nat)
    requires candidate + 8 * k == AlignDown(pc)
    ensures Probe(decode, pc, candidate) == decode(k, candidate)
  {
  }

  lemma {:induction false} ScanFindsNearest(decode: Decoder, k: nat, candidate: nat, start: nat, end: nat, pc: nat)
    requires candidate % 8 == 0 && start % 8 == 0
    requires candidate + 8 * k == AlignDown(pc) && AlignDown(pc) <= end
    ensures var r := ScanFrom(decode, k, candidate, start, end, pc);
      && k <= r.probes && (r.probes - k) * 8 <= SaturatingSub(candidate + 8, start)
      && (r.range.None? ==> forall a | start <= a <= candidate && a % 8 == 0 :: !Covers(Probe(decode, pc, a), pc))
      && (r.range.Some? ==> r.probes > k)
      && (r.range.Some? ==>
            var at := AlignDown(pc) - 8 * (r.probes - 1);
            && start <= at <= candidate && at % 8 == 0
            && r.range == decode(r.probes - 1, at) == Probe(decode, pc, at) && Covers(r.range, pc)
            && forall a | at < a <= candidate && a % 8 == 0 :: !Covers(Probe(decode, pc, a), pc))
    decreases candidate
  {
    hide Probe, AlignDown;
    if candidate >= start {
      ProbeAtStep(decode, pc, k, candidate);
      if !Covers(decode(k, candidate), pc) && candidate >= 8 {
        ScanFindsNearest(decode, k + 1, candidate - 8, start, end, pc);
      }
    }
  }

  /** Where the memory that may hold the method begins: its mapping, or the zone. */
  function SearchFloor(maps: seq<MapRange>, bounds: Option<Bounds>, pc: nat): nat {
    if FindMap(maps, pc).Some? then FindMap(maps, pc).value.start
    else if bounds.Some? then bounds.value.base
    else 0
  }

  /** The megabyte below a pc, as far as it is in that memory. */
  function LowestProbe(maps: seq<MapRange>, bounds: Option<Bounds>, pc: nat): nat {
    AlignDown(Max(SaturatingSub(pc, 0x10_0000), SearchFloor(maps, bounds, pc)))
  }

  /** The window of a scan: it holds the pc, and a megabyte of eight-byte steps at most. */
  lemma ScanWindow(setup: Setup, bounds: Option<Bounds>, pc: nat)
    requires ScanBounds(setup.maps, bounds, pc).Some?
    requires FindMap(setup.maps, pc).Some? || (bounds.Some? && bounds.value.base <= pc < bounds.value.freeStart)
    ensures var within := ScanBounds(setup.maps, bounds, pc).value;
      && within.0 <= pc < within.1 && AlignDown(within.0) == LowestProbe(setup.maps, bounds, pc)
      && SaturatingSub(AlignDown(pc) + 8, AlignDown(within.0)) <= 131073 * 8
  {
    hide FindMap;
    FoundMapHolds(setup.maps, pc);
    StepsInMegabyte(ScanBounds(setup.maps, bounds, pc).value.0, pc);
  }

  /** The scan returns the header covering `pc` that is nearest below it, in the
      megabyte it may look at, or there is none; it tries at most 131073 addresses. */
  lemma BackwardScanIsNearestHeader(setup: Setup, bounds: Option<Bounds>, decode: Decoder, pc: nat)
    requires Sound(decode)
    requires ScanBounds(setup.maps, bounds, pc).Some?
    requires FindMap(setup.maps, pc).Some? || (bounds.Some? && bounds.value.base <= pc < bounds.value.freeStart)
    ensures var low := LowestProbe(setup.maps, bounds, pc);
      var r := ScanForCogMethod(setup, bounds, decode, pc);
      && r.probes <= 131073
      && (r.range.None? ==> forall a | low <= a <= pc && a % 8 == 0 :: !Covers(Probe(decode, pc, a), pc))
      && (r.range.Some? ==>
            var at := r.range.value.start;
            && low <= at <= pc && at % 8 == 0
            && r.range == Probe(decode, pc, at) && Covers(r.range, pc)
            && forall a | at < a <= pc && a % 8 == 0 :: !Covers(Probe(decode, pc, a), pc))
  {
    hide Probe, Covers, ScanFrom, ScanBounds, AlignDown, LowestProbe;
    var within := ScanBounds(setup.maps, bounds, pc).value;
    ScanWindow(setup, bounds, pc);
    AlignedBelow(pc);
    AlignedBelow(within.0);
    ScanFindsNearest(decode, 0, AlignDown(pc), AlignDown(within.0), within.1, pc);
  }

  /** The megabyte is enough: a header that covers the pc, anywhere from the floor
      on, is found, or one nearer to the pc. */
  lemma ScanMissesNoMethod(setup: Setup, bounds: Option<Bounds>, decode: Decoder, pc: nat, addr: nat)
    requires Sound(decode)
    requires FindMap(setup.maps, pc).Some? || (bounds.Some? && bounds.value.base <= pc < bounds.value.freeStart)
    requires SearchFloor(setup.maps, bounds, pc) <= addr <= AlignDown(pc) && addr % 8 == 0
    requires Covers(Probe(decode, pc, addr), pc)
    requires Probe(decode, pc, addr).value.start == addr && Probe(decode, pc, addr).value.end <= addr + 0x10_0000
    ensures var found := ScanForCogMethod(setup, bounds, decode, pc).range;
      found.Some? && addr <= found.value.start
  {
    hide ScanFrom, FindMap, AlignDown, Probe;
    AlignedBelow(pc);
    FoundMapHolds(setup.maps, pc);
    BackwardScanIsNearestHeader(setup, bounds, decode, pc);
    AlignedBelow(Max(SaturatingSub(pc, 0x10_0000), SearchFloor(setup.maps, bounds, pc)));
    assert LowestProbe(setup.maps, bounds, pc) <= addr;
  }

  // ----- answers outside the index -----

  /** The header at `addr` covers the pc, and the scan meets no such header before. */
  ghost predicate IsNearestHeader(setup: Setup, bounds: Option<Bounds>, decode: Decoder, pc: nat, addr: nat) {
    && (FindMap(setup.maps, pc).Some? || bounds.Some?)
    && LowestProbe(setup.maps, bounds, pc) <= addr <= AlignDown(pc) && addr % 8 == 0
    && Covers(Probe(decode, pc, addr), pc)
    && forall a | addr < a <= AlignDown(pc) && a % 8 == 0 :: !Covers(Probe(decode, pc, a), pc)
  }

  /** The scan, as a search: it gives the nearest header, and nothing if there is none. */
  lemma ScanIsSearch(setup: Setup, bounds: Option<Bounds>, decode: Decoder, pc: nat)
    requires Sound(decode)
    requires bounds.None? || bounds.value.base <= pc < bounds.value.freeStart
    ensures var r := ScanForCogMethod(setup, bounds, decode, pc).range;
      && (forall addr | IsNearestHeader(setup, bounds, decode, pc, addr) :: r == Probe(decode, pc, addr))
      && ((forall addr :: !IsNearestHeader(setup, bounds, decode, pc, addr)) ==> r == None)
  {
    hide Probe, Covers, ScanFrom, FindMap, AlignDown, LowestProbe;
    if ScanBounds(setup.maps, bounds, pc).Some? {
      AlignedBelow(pc);
      BackwardScanIsNearestHeader(setup, bounds, decode, pc);
      var r := ScanForCogMethod(setup, bounds, decode, pc).range;
      if r.Some? {
        assert IsNearestHeader(setup, bounds, decode, pc, r.value.start);
      }
    }
  }

  lemma NearestHeaderIsThere(setup: Setup, bounds: Option<Bounds>, decode: Decoder, pc: nat)
    ensures forall addr: nat | IsNearestHeader(setup, bounds, decode, pc, addr) ::
              addr <= AlignDown(pc) && Probe(decode, pc, addr).Some?
  {
  }

  /** How a pc that no indexed range holds is named: after the nearest generated entry
      point close by; otherwise, in the known zone or while it is unknown, after the
      nearest header that covers it; otherwise as some generated code, if it looks it. */
  lemma UnindexedAnswer(setup: Setup, obs: Observation, z: Zone, pc: nat)
    requires EntriesSorted(z.entries) && Sound(obs.scan)
    requires pc <= U64_MAX && forall entry | entry in z.entries :: entry.address <= U64_MAX
    ensures var name := ResolveUnindexed(setup, obs, z, pc).name;
      var within := z.bounds.Some? && z.bounds.value.base <= pc < z.bounds.value.freeStart;
      && (forall entry | NamesPc(setup.maps, z.bounds, z.entries, pc, entry) :: name == Some("Cog " + entry.name))
      && ((forall entry :: !NamesPc(setup.maps, z.bounds, z.entries, pc, entry)) ==>
            && (forall addr | (z.bounds.None? || within)
                  && IsNearestHeader(setup, z.bounds, obs.scan, pc, addr) ::
                  name == Some(Probe(obs.scan, pc, addr).value.name))
            && ((z.bounds.Some? && !within)
                || (forall addr :: !IsNearestHeader(setup, z.bounds, obs.scan, pc, addr)) ==>
                  name == if PcLooksLikeCogCode(setup.maps, z.bounds, pc) then Some("JIT frame") else None))
  {
    hide PcLooksLikeCogCode, ScanForCogMethod, LookupJitEntry, NamesPc, IsNearestHeader;
    EntryLookupIsNearest(setup.maps, z.bounds, z.entries, pc);
    if z.bounds.None? || PcInMethodZone(z, pc) {
      ScanIsSearch(setup, z.bounds, obs.scan, pc);
      assert forall addr: nat | IsNearestHeader(setup, z.bounds, obs.scan, pc, addr) ::
          addr <= AlignDown(pc) && Probe(obs.scan, pc, addr).Some? by {
        NearestHeaderIsThere(setup, z.bounds, obs.scan, pc);
      }
    }
  }
}
