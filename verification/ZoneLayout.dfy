/** A method zone written header after header, and the walk that reads it back. */
module ZoneLayout {
  import opened Wrappers
  import opened TargetMemory
  import opened CogMethods
  import opened RangeIndex
  import opened MethodZone
  import opened StillProcess
  import opened Observations

  predicate AllValid(headers: seq<CogHeader>) {
    forall i | 0 <= i < |headers| :: headers[i].Valid()
  }

  /** The headers follow one another from `addr` on, each block rounded up to eight bytes. */
  predicate LaidOut(m: Memory, addr: nat, headers: seq<CogHeader>)
    decreases |headers|
  {
    headers == [] ||
    (PlacedAt(m, addr, headers[0].Encode()) && LaidOut(m, headers[0].End(addr), headers[1..]))
  }

  function ZoneEnd(addr: nat, headers: seq<CogHeader>): nat
    decreases |headers|
  {
    if headers == [] then addr else ZoneEnd(headers[0].End(addr), headers[1..])
  }

  function RangesOf(m: Memory, addr: nat, headers: seq<CogHeader>): (r: seq<CogMethodRange>)
    ensures |r| == |headers|
    decreases |headers|
  {
    if headers == [] then []
    else
      [CogMethodRange(addr, headers[0].End(addr), headers[0].Name(m))]
      + RangesOf(m, headers[0].End(addr), headers[1..])
  }

  lemma {:induction false} ZoneGrows(addr: nat, headers: seq<CogHeader>)
    requires AllValid(headers)
    ensures ZoneEnd(addr, headers) >= addr + COG_METHOD_SIZE * |headers|
    decreases |headers|
  {
    if headers != [] {
      ZoneGrows(headers[0].End(addr), headers[1..]);
    }
  }

  /** Walking a zone that was laid out gives back exactly its methods, unblocked, in
      as many steps as there are methods.  The recorded end of the zone may lie up
      to eight bytes before the rounded end of its last method. */
  lemma {:induction false} ZoneRoundTrip(m: Memory, k: nat, base: nat, headers: seq<CogHeader>, freeStart: nat)
    requires AllValid(headers) && LaidOut(m, base, headers)
    requires freeStart <= ZoneEnd(base, headers) <= freeStart + 8 && freeStart + 16 <= U64_MAX
    ensures Walk(DecoderOf(Still(m)), k, base, freeStart)
            == WalkResult(RangesOf(m, base, headers), ZoneEnd(base, headers), false)
    decreases |headers|
  {
    DecoderIsSound(Still(m));
    if headers != [] {
      var h := headers[0];
      ZoneGrows(h.End(base), headers[1..]);
      ZoneGrows(base, headers);
      HeaderRoundTrip(m, READS_PER_DECODE * k, base, h);
      ZoneRoundTrip(m, k + 1, h.End(base), headers[1..], freeStart);
    }
  }

  lemma {:induction false} RangeOfMethod(m: Memory, base: nat, headers: seq<CogHeader>, i: nat)
    requires i < |headers|
    ensures var start := ZoneEnd(base, headers[..i]);
      RangesOf(m, base, headers)[i] == CogMethodRange(start, headers[i].End(start), headers[i].Name(m))
    decreases |headers|
  {
    if i > 0 {
      RangeOfMethod(m, headers[0].End(base), headers[1..], i - 1);
      assert headers[..i][1..] == headers[1..][..i - 1];
    }
  }

  /** The process stands still, with the zone `headers` between its recorded bounds. */
  predicate ShowsZone(setup: Setup, m: Memory, base: nat, headers: seq<CogHeader>, freeStart: nat) {
    && setup.methodZoneSymbols.Some?
    && CopyUint(m, setup.methodZoneSymbols.value.baseAddressAddr, 8) == Some(base)
    && CopyUint(m, setup.methodZoneSymbols.value.freeStartAddr, 8) == Some(freeStart)
    && AcceptableBounds(Bounds(base, freeStart))
    && AllValid(headers) && LaidOut(m, base, headers)
    && freeStart <= ZoneEnd(base, headers) <= freeStart + 8 && freeStart + 16 <= U64_MAX
  }

  /** What every lookup observes of a process that stands still. */
  function StillView(setup: Setup, m: Memory): Observation {
    Observe(setup, Frozen(m))
  }

  lemma ShownBounds(setup: Setup, m: Memory, base: nat, headers: seq<CogHeader>, freeStart: nat)
    requires ShowsZone(setup, m, base, headers, freeStart)
    ensures StillView(setup, m).bounds == Some(Bounds(base, freeStart))
    ensures StillView(setup, m).walk == DecoderOf(Still(m))
    ensures Walk(DecoderOf(Still(m)), 0, base, freeStart)
            == WalkResult(RangesOf(m, base, headers), ZoneEnd(base, headers), false)
  {
    hide ReadCogMethodAt, CopyUint, Walk, LaidOut;
    ZoneRoundTrip(m, 0, base, headers, freeStart);
  }

  lemma FirstRefreshIndexesZone(setup: Setup, m: Memory, base: nat, headers: seq<CogHeader>, freeStart: nat)
    requires ShowsZone(setup, m, base, headers, freeStart)
    ensures Credible(StillView(setup, m)) && WalksThrough(StillView(setup, m))
    ensures var z := FirstIndexed(setup, StillView(setup, m));
      && ZoneInvariant(z) && Walked(z) && z.ranges == RangesOf(m, base, headers)
      && z.bounds == Some(Bounds(base, freeStart))
      && z.cursor == Some(ZoneEnd(base, headers)) && Tiles(z.ranges, base, ZoneEnd(base, headers))
  {
    hide Observe, ShowsZone, Walk, FirstIndexed, ZoneInvariant, Walked, Tiles;
    ObservationIsCredible(setup, Frozen(m));
    ShownBounds(setup, m, base, headers, freeStart);
    FirstRefreshWalks(setup, StillView(setup, m));
  }

  lemma WrittenZoneIsWalkedThrough(setup: Setup, m: Memory, base: nat, headers: seq<CogHeader>, freeStart: nat)
    requires ShowsZone(setup, m, base, headers, freeStart)
    ensures WalksThrough(StillView(setup, m))
  {
    FirstRefreshIndexesZone(setup, m, base, headers, freeStart);
  }

  // ----- from bytes to names -----

  function MethodStart(base: nat, headers: seq<CogHeader>, i: nat): nat
    requires i <= |headers|
  {
    ZoneEnd(base, headers[..i])
  }

  predicate InMethod(base: nat, headers: seq<CogHeader>, i: nat, pc: nat) {
    i < |headers| && MethodStart(base, headers, i) <= pc < headers[i].End(MethodStart(base, headers, i))
  }

  /** The next method starts where one ends, and the zone ends with the last one. */
  lemma {:induction false} NextStart(base: nat, headers: seq<CogHeader>, i: nat)
    requires i < |headers|
    ensures MethodStart(base, headers, i + 1) == headers[i].End(MethodStart(base, headers, i))
    ensures i + 1 == |headers| ==> MethodStart(base, headers, i + 1) == ZoneEnd(base, headers)
    decreases |headers|
  {
    if i + 1 == |headers| {
      assert headers[..i + 1] == headers;
    }
    hide CogHeader.End;
    if i == 0 {
      assert headers[..1] == [headers[0]] && headers[..0] == [];
      assert ZoneEnd(base, [headers[0]]) == ZoneEnd(headers[0].End(base), []);
    } else {
      NextStart(headers[0].End(base), headers[1..], i - 1);
      assert headers[..i][1..] == headers[1..][..i - 1];
      assert headers[..i + 1][1..] == headers[1..][..i];
    }
  }

  lemma EndIsOutside(setup: Setup, m: Memory, base: nat, headers: seq<CogHeader>, freeStart: nat)
    requires ShowsZone(setup, m, base, headers, freeStart)
    ensures var end := ZoneEnd(base, headers);
      var z := FirstIndexed(setup, StillView(setup, m));
      StillAnswer(setup, z, end) == OutsideAnswer(setup, z, end)
  {
    hide Observe, ShowsZone, FirstIndexed, OutsideAnswer;
    FirstRefreshIndexesZone(setup, m, base, headers, freeStart);
    TilingLookup(FirstIndexed(setup, StillView(setup, m)).ranges, base, ZoneEnd(base, headers), ZoneEnd(base, headers));
  }

  lemma IndexNamesMethod(setup: Setup, m: Memory, base: nat, headers: seq<CogHeader>, freeStart: nat, i: nat, pc: nat)
    requires ShowsZone(setup, m, base, headers, freeStart) && InMethod(base, headers, i, pc)
    ensures StillAnswer(setup, FirstIndexed(setup, StillView(setup, m)), pc) == Some(headers[i].Name(m))
  {
    hide Observe, ShowsZone, FirstIndexed, OutsideAnswer;
    FirstRefreshIndexesZone(setup, m, base, headers, freeStart);
    var z := FirstIndexed(setup, StillView(setup, m));
    RangeOfMethod(m, base, headers, i);
    TilingIsSorted(z.ranges, base, z.cursor.value);
    assert z.ranges[i] in z.ranges;
    TilingLookup(z.ranges, base, z.cursor.value, pc);
  }

  /** The lookup of any pc inside the i-th method of the zone answers with that method's
      name, whatever has been looked up before. */
  lemma LookupNamesMethod(setup: Setup, m: Memory, base: nat, headers: seq<CogHeader>, freeStart: nat,
          pcs: seq<nat>, i: nat, pc: nat)
    requires ShowsZone(setup, m, base, headers, freeStart) && InMethod(base, headers, i, pc)
    ensures var obs := StillView(setup, m);
      Resolve(setup, obs, LookUpAll(setup, obs, FRESH, pcs), pc).name == Some(headers[i].Name(m))
  {
    FirstRefreshIndexesZone(setup, m, base, headers, freeStart);
    hide Resolve, StillView, ShowsZone, InMethod, StillAnswer, FirstIndexed, WalksThrough, Credible, ZoneInvariant,
      Walked, Tiles;
    var obs := StillView(setup, m);
    StillRun(setup, obs, FRESH, pcs);
    StillProcessAnswersAlike(setup, obs, LookUpAll(setup, obs, FRESH, pcs), pc);
    IndexNamesMethod(setup, m, base, headers, freeStart, i, pc);
  }
}
