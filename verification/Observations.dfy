/** From the memory of a running process to what one call observes of it. */
module Observations {
  import opened Wrappers
  import opened TargetMemory
  import opened CogMethods
  import opened MethodZone

  /** The memories that the successive reads of one call see, phase by phase: the
      zone bounds, the entry slots, the forward walk and the backward scan. */
  datatype Watch = Watch(bounds: Timeline, slots: Timeline, walk: Timeline, scan: Timeline)

  function Frozen(m: Memory): Watch {
    Watch(Still(m), Still(m), Still(m), Still(m))
  }

  /** The decoder of one phase of a call that sees the process through `at`. */
  function DecoderOf(at: Timeline): Decoder {
    (k: nat, addr: nat) => ReadCogMethodAt(at, READS_PER_DECODE * k, addr)
  }

  lemma DecoderIsSound(at: Timeline)
    ensures Sound(DecoderOf(at))
  {
  }

  function ReadMethodZoneBounds(symbols: MethodZoneSymbols, at: Timeline): (r: Option<Bounds>)
    ensures r.Some? ==> AcceptableBounds(r.value)
    ensures forall b :: r == Some(b) ==>
              && CopyUint(at(0), symbols.baseAddressAddr, 8) == Some(b.base)
              && CopyUint(at(1), symbols.freeStartAddr, 8) == Some(b.freeStart)
  {
    var base :- CopyUint(at(0), symbols.baseAddressAddr, 8);
    var freeStart :- CopyUint(at(1), symbols.freeStartAddr, 8);
    if base == 0 || freeStart <= base || freeStart - base > MAX_METHOD_ZONE_SIZE then None
    else Some(Bounds(base, freeStart))
  }

  /** The VM's two words, as it wrote them, are the bounds exactly when they span a zone
      of at most half a gigabyte, even if it changes the second after the first was read. */
  lemma WrittenBoundsAreRead(symbols: MethodZoneSymbols, at: Timeline, base: nat, freeStart: nat)
    requires base <= U64_MAX && freeStart <= U64_MAX
    requires PlacedAt(at(0), symbols.baseAddressAddr, ToLittleEndian(base, 8))
    requires PlacedAt(at(1), symbols.freeStartAddr, ToLittleEndian(freeStart, 8))
    ensures ReadMethodZoneBounds(symbols, at)
            == if base != 0 && base < freeStart <= base + 0x2000_0000 then Some(Bounds(base, freeStart)) else None
  {
    hide ToLittleEndian, PlacedAt, CopyUint;
    FieldAt(at(0), symbols.baseAddressAddr, ToLittleEndian(base, 8), 0, base, 8);
    FieldAt(at(1), symbols.freeStartAddr, ToLittleEndian(freeStart, 8), 0, freeStart, 8);
  }

  function ReadSlots(slots: seq<JitEntrySlot>, at: Timeline): seq<Option<nat>> {
    seq(|slots|, i requires 0 <= i < |slots| => CopyUint(at(i), slots[i].slotAddr, 8))
  }

  /** The i-th word that is seen is the one in the i-th slot, when it is read. */
  lemma WrittenSlotsAreRead(slots: seq<JitEntrySlot>, at: Timeline, words: seq<nat>)
    requires |words| == |slots| && forall i | 0 <= i < |words| :: words[i] <= U64_MAX
    requires forall i | 0 <= i < |words| :: PlacedAt(at(i), slots[i].slotAddr, ToLittleEndian(words[i], 8))
    ensures |ReadSlots(slots, at)| == |words|
    ensures forall i | 0 <= i < |words| :: ReadSlots(slots, at)[i] == Some(words[i])
  {
    hide ToLittleEndian, PlacedAt, CopyUint;
    forall i | 0 <= i < |words| ensures ReadSlots(slots, at)[i] == Some(words[i]) {
      FieldAt(at(i), slots[i].slotAddr, ToLittleEndian(words[i], 8), 0, words[i], 8);
    }
  }

  function Observe(setup: Setup, watch: Watch): Observation {
    Observation(
      if setup.methodZoneSymbols.Some? then ReadMethodZoneBounds(setup.methodZoneSymbols.value, watch.bounds) else None,
      ReadSlots(setup.jitEntrySymbolSlots, watch.slots),
      DecoderOf(watch.walk),
      DecoderOf(watch.scan))
  }

  lemma ObservationIsCredible(setup: Setup, watch: Watch)
    ensures Credible(Observe(setup, watch))
  {
    DecoderIsSound(watch.walk);
    DecoderIsSound(watch.scan);
  }
}
