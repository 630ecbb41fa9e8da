/** The index of the Cog method zone as values: the forward walk, the backward
    scan, and what one lookup of a pc does to the index and its cache.
    The process is seen through an `Observation`, whose decoders may answer
    differently at every step, so the zone may change while it is read. */
module MethodZone {
  import opened Wrappers
  import opened TargetMemory
  import opened CogMethods
  import opened JitEntryTable
  import opened RangeIndex

  const MAX_METHOD_ZONE_SIZE: nat := 512 * 1024 * 1024
  const COG_CODE_WINDOW: nat := 64 * 1024
  const MAX_JIT_ENTRY_SPAN: nat := 4096
  const LOW_COG_CODE_MIN: nat := 0x10000
  const LOW_COG_CODE_MAX: nat := 0xFFFF_FFFF

  datatype MapRange = MapRange(start: nat, size: nat, exec: bool, named: bool)

  datatype JitEntrySlot = JitEntrySlot(slotAddr: nat, name: string)

  datatype MethodZoneSymbols = MethodZoneSymbols(baseAddressAddr: nat, freeStartAddr: nat)

  datatype CogFrameSymbols = CogFrameSymbols(framePointerAddr: nat, heapBaseAddr: nat)

  /** What is known of the process once and for all. */
  datatype Setup = Setup(
    maps: seq<MapRange>,
    methodZoneSymbols: Option<MethodZoneSymbols>,
    jitEntrySymbolSlots: seq<JitEntrySlot>,
    cogFrameSymbols: Option<CogFrameSymbols>)

  datatype Bounds = Bounds(base: nat, freeStart: nat)

  /** The mutable part of the symbolizer. */
  datatype Zone = Zone(
    ranges: seq<CogMethodRange>,
    resolved: map<nat, Option<string>>,
    bounds: Option<Bounds>,
    cursor: Option<nat>,
    blocked: Option<nat>,
    entries: seq<JitEntry>)

  const FRESH: Zone := Zone([], map[], None, None, None, [])

  /** The k-th header decoded in one phase of a call, at some address. */
  type Decoder = (nat, nat) -> Option<CogMethodRange>

  /** What the process shows during one call: its zone bounds, the values in the
      entry slots, and the headers met by the walk and by the backward scan. */
  datatype Observation = Observation(
    bounds: Option<Bounds>, slotValues: seq<Option<nat>>, walk: Decoder, scan: Decoder)

  predicate Decoded(addr: nat, range: CogMethodRange) {
    range.start == addr && addr + COG_METHOD_SIZE <= range.end && range.end % 8 == 0
  }

  ghost predicate Sound(decode: Decoder) {
    forall k: nat, addr: nat :: decode(k, addr).Some? ==> Decoded(addr, decode(k, addr).value)
  }

  predicate AcceptableBounds(b: Bounds) {
    b.base != 0 && b.base < b.freeStart && b.freeStart - b.base <= MAX_METHOD_ZONE_SIZE
  }

  ghost predicate Credible(obs: Observation) {
    && (obs.bounds.Some? ==> AcceptableBounds(obs.bounds.value))
    && Sound(obs.walk) && Sound(obs.scan)
  }

  function SaturatingAdd(a: nat, b: nat): nat {
    if a + b > U64_MAX then U64_MAX else a + b
  }

  function SaturatingSub(a: nat, b: nat): nat {
    if a < b then 0 else a - b
  }

  // ----- the forward walk -----

  datatype WalkResult = WalkResult(found: seq<CogMethodRange>, cursor: nat, blocked: bool)

  predicate Overruns(range: CogMethodRange, cursor: nat, freeStart: nat) {
    range.end <= cursor || range.end > SaturatingAdd(freeStart, 8)
  }

  function Walk(decode: Decoder, k: nat, cursor: nat, freeStart: nat): WalkResult
    decreases if cursor < freeStart then freeStart - cursor else 0
  {
    if cursor >= freeStart then WalkResult([], cursor, false)
    else
      var range := decode(k, cursor);
      if range.None? || Overruns(range.value, cursor, freeStart) then WalkResult([], cursor, true)
      else
        var rest := Walk(decode, k + 1, range.value.end, freeStart);
        WalkResult([range.value] + rest.found, rest.cursor, rest.blocked)
  }

  lemma WalkStep(decode: Decoder, k: nat, cursor: nat, freeStart: nat)
    ensures var range := decode(k, cursor);
      Walk(decode, k, cursor, freeStart)
      == if cursor >= freeStart then WalkResult([], cursor, false)
         else if range.None? || Overruns(range.value, cursor, freeStart) then WalkResult([], cursor, true)
         else
           var rest := Walk(decode, k + 1, range.value.end, freeStart);
           WalkResult([range.value] + rest.found, rest.cursor, rest.blocked)
  {
  }

  /** The walk tiles what it passes, stops at the end of the zone unless blocked,
      and takes at most one step for every forty bytes. */
  lemma {:induction false} WalkTiles(decode: Decoder, k: nat, cursor: nat, freeStart: nat)
    requires Sound(decode)
    ensures var w := Walk(decode, k, cursor, freeStart);
      && Tiles(w.found, cursor, w.cursor)
      && (if w.blocked then w.cursor < freeStart else freeStart <= w.cursor)
      && (cursor < freeStart ==> w.cursor <= freeStart + 8)
      && |w.found| * COG_METHOD_SIZE <= w.cursor - cursor
    decreases if cursor < freeStart then freeStart - cursor else 0
  {
    if cursor < freeStart && decode(k, cursor).Some? && !Overruns(decode(k, cursor).value, cursor, freeStart) {
      WalkTiles(decode, k + 1, decode(k, cursor).value.end, freeStart);
    }
  }

  // ----- the backward scan -----

  predicate Covers(range: Option<CogMethodRange>, pc: nat) {
    range.Some? && range.value.start + COG_METHOD_SIZE <= pc < range.value.end
  }

  function FindMap(maps: seq<MapRange>, pc: nat): Option<MapRange> {
    if maps == [] then None
    else if maps[0].start <= pc < maps[0].start + maps[0].size then Some(maps[0])
    else FindMap(maps[1..], pc)
  }

  function Max(a: nat, b: nat): nat {
    if a < b then b else a
  }

  function ScanBounds(maps: seq<MapRange>, bounds: Option<Bounds>, pc: nat): Option<(nat, nat)> {
    var m := FindMap(maps, pc);
    if m.Some? then Some((Max(SaturatingSub(pc, COG_SCAN_LIMIT), m.value.start), m.value.start + m.value.size))
    else if bounds.Some? then Some((Max(SaturatingSub(pc, COG_SCAN_LIMIT), bounds.value.base), bounds.value.freeStart))
    else None
  }

  function AlignDown(addr: nat): nat {
    addr / 8 * 8
  }

  /** What a scan found, and how many headers it tried to decode. */
  datatype ScanResult = ScanResult(range: Option<CogMethodRange>, probes: nat)

  function ScanFrom(decode: Decoder, k: nat, candidate: nat, start: nat, end: nat, pc: nat): ScanResult
    decreases candidate
  {
    if candidate < start then ScanResult(None, k)
    else if Covers(decode(k, candidate), pc) then ScanResult(decode(k, candidate), k + 1)
    else if candidate < 8 || candidate - 8 > end then ScanResult(None, k + 1)
    else ScanFrom(decode, k + 1, candidate - 8, start, end, pc)
  }

  function ScanForCogMethod(setup: Setup, bounds: Option<Bounds>, decode: Decoder, pc: nat): ScanResult {
    var within := ScanBounds(setup.maps, bounds, pc);
    if within.None? then ScanResult(None, 0)
    else ScanFrom(decode, 0, AlignDown(pc), AlignDown(within.value.0), within.value.1, pc)
  }

  // ----- generated code outside the methods -----

  predicate PcLooksLikeCogCode(maps: seq<MapRange>, bounds: Option<Bounds>, pc: nat) {
    || (bounds.Some?
        && SaturatingSub(bounds.value.base, COG_CODE_WINDOW) <= pc
        && pc < SaturatingAdd(bounds.value.freeStart, COG_CODE_WINDOW))
    || (bounds.Some? && LOW_COG_CODE_MIN <= pc <= LOW_COG_CODE_MAX)
    || exists i | 0 <= i < |maps| ::
         maps[i].start <= pc < maps[i].start + maps[i].size && maps[i].exec && !maps[i].named
  }

  /** Said without saturation: code is within 64 kilobytes of the known zone, or in the
      low 4 gigabytes from 64 kilobytes on if the zone is known, or in an executable
      mapping of no file. */
  lemma GeneratedCodeExactly(maps: seq<MapRange>, bounds: Option<Bounds>, pc: nat)
    requires pc < 0xFFFF_FFFF_FFFF_FFFF
    ensures PcLooksLikeCogCode(maps, bounds, pc) <==>
      || (bounds.Some? && bounds.value.base <= pc + 0x1_0000 && pc < bounds.value.freeStart + 0x1_0000)
      || (bounds.Some? && 0x1_0000 <= pc < 0x1_0000_0000)
      || exists range :: range in maps && range.exec && !range.named && range.start <= pc < range.start + range.size
  {
    if range :| range in maps && range.exec && !range.named && range.start <= pc < range.start + range.size {
      var i :| 0 <= i < |maps| && maps[i] == range;
    }
  }

  function GenericCogCodeName(maps: seq<MapRange>, bounds: Option<Bounds>, pc: nat): Option<string> {
    if PcLooksLikeCogCode(maps, bounds, pc) then Some(GENERIC_NAME) else None
  }

  /** The slots that hold an address of generated code, in slot order. */
  function FilledSlots(setup: Setup, bounds: Option<Bounds>, slots: seq<JitEntrySlot>,
          values: seq<Option<nat>>): (r: seq<JitEntry>) {
    if slots == [] || values == [] then []
    else
      var rest := FilledSlots(setup, bounds, slots[1..], values[1..]);
      if values[0].Some? && values[0].value != 0 && PcLooksLikeCogCode(setup.maps, bounds, values[0].value)
      then [JitEntry(values[0].value, slots[0].name)] + rest
      else rest
  }

  function JitEntries(setup: Setup, bounds: Option<Bounds>, values: seq<Option<nat>>): (entries: seq<JitEntry>)
    ensures EntriesSorted(entries)
  {
    var filled := FilledSlots(setup, bounds, setup.jitEntrySymbolSlots, values);
    SortedEntries(filled);
    DedupByAddress(SortByAddress(filled))
  }

  /** Slot i is the first to hold the address. */
  predicate IsFirstSlot(values: seq<Option<nat>>, address: nat, i: nat) {
    i < |values| && values[i] == Some(address) && forall j | 0 <= j < i :: values[j] != Some(address)
  }

  lemma FirstWithOther(setup: Setup, bounds: Option<Bounds>, slots: seq<JitEntrySlot>,
          values: seq<Option<nat>>, address: nat)
    requires |values| == |slots| && slots != [] && values[0] != Some(address)
    ensures FirstWith(FilledSlots(setup, bounds, slots, values), address)
            == FirstWith(FilledSlots(setup, bounds, slots[1..], values[1..]), address)
  {
    hide PcLooksLikeCogCode;
    var rest := FilledSlots(setup, bounds, slots[1..], values[1..]);
    if values[0].Some? {
      assert ([JitEntry(values[0].value, slots[0].name)] + rest)[1..] == rest;
    }
  }

  lemma {:induction false} FirstFilledSlot(setup: Setup, bounds: Option<Bounds>, slots: seq<JitEntrySlot>,
          values: seq<Option<nat>>, address: nat)
    requires |values| == |slots|
    ensures var first := FirstWith(FilledSlots(setup, bounds, slots, values), address);
      && (first.Some? <==> address != 0 && PcLooksLikeCogCode(setup.maps, bounds, address) && Some(address) in values)
      && (first.Some? ==> exists i: nat ::
            IsFirstSlot(values, address, i) && first.value == JitEntry(address, slots[i].name))
  {
    if slots != [] {
      hide PcLooksLikeCogCode;
      var rest := FilledSlots(setup, bounds, slots[1..], values[1..]);
      var first := FirstWith(FilledSlots(setup, bounds, slots, values), address);
      FirstFilledSlot(setup, bounds, slots[1..], values[1..], address);
      assert ([JitEntry(address, slots[0].name)] + rest)[1..] == rest;
      if values[0] == Some(address) {
        assert IsFirstSlot(values, address, 0);
      } else if first.Some? {
        var i: nat :|
          && IsFirstSlot(values[1..], address, i)
          && FirstWith(rest, address) == Some(JitEntry(address, slots[1..][i].name));
        FirstWithOther(setup, bounds, slots, values, address);
        assert forall j | 0 < j <= i :: values[j] == values[1..][j - 1];
        assert IsFirstSlot(values, address, i + 1);
      } else {
        FirstWithOther(setup, bounds, slots, values, address);
      }
    }
  }

  /** The table names an address exactly when it is an address of generated code in
      some slot, and then after the first slot that holds it. */
  lemma FirstSlotNamesAddress(setup: Setup, bounds: Option<Bounds>, values: seq<Option<nat>>, address: nat)
    requires |values| == |setup.jitEntrySymbolSlots|
    ensures var named := FirstWith(JitEntries(setup, bounds, values), address);
      && (named.Some? <==> address != 0 && PcLooksLikeCogCode(setup.maps, bounds, address) && Some(address) in values)
      && (named.Some? ==> exists i: nat ::
            IsFirstSlot(values, address, i) && named.value == JitEntry(address, setup.jitEntrySymbolSlots[i].name))
  {
    var filled := FilledSlots(setup, bounds, setup.jitEntrySymbolSlots, values);
    SortKeepsFirsts(filled, address);
    DedupKeepsFirsts(SortByAddress(filled), address);
    FirstFilledSlot(setup, bounds, setup.jitEntrySymbolSlots, values, address);
  }

  /** The i-th slot is the first to hold the address, and it is one of generated code. */
  predicate NamesCode(setup: Setup, bounds: Option<Bounds>, values: seq<Option<nat>>, address: nat, i: nat) {
    IsFirstSlot(values, address, i) && address != 0 && PcLooksLikeCogCode(setup.maps, bounds, address)
  }

  /** Who is in the table, and under what name. */
  lemma TableHoldsFirstSlots(setup: Setup, bounds: Option<Bounds>, values: seq<Option<nat>>, entry: JitEntry)
    requires |values| == |setup.jitEntrySymbolSlots|
    ensures entry in JitEntries(setup, bounds, values) <==>
            exists i: nat ::
              NamesCode(setup, bounds, values, entry.address, i) && entry.name == setup.jitEntrySymbolSlots[i].name
  {
    hide PcLooksLikeCogCode;
    FirstSlotNamesAddress(setup, bounds, values, entry.address);
    EntryIsFirst(JitEntries(setup, bounds, values), entry);
    hide JitEntries;
  }

  function EntriesUpTo(pc: nat): JitEntry -> bool {
    (entry: JitEntry) => entry.address <= pc
  }

  /** The nearest entry at or below `pc`, when `pc` is before the next one and near enough. */
  function LookupJitEntry(maps: seq<MapRange>, bounds: Option<Bounds>, entries: seq<JitEntry>,
          pc: nat): Option<string> {
    var index := PartitionPoint(entries, EntriesUpTo(pc));
    if index == 0 then None
    else
      var entry := entries[index - 1];
      var next :=
        if index < |entries| then entries[index].address else SaturatingAdd(entry.address, MAX_JIT_ENTRY_SPAN);
      if entry.address <= pc < next && pc - entry.address < MAX_JIT_ENTRY_SPAN && PcLooksLikeCogCode(maps, bounds, pc)
      then Some("Cog " + entry.name)
      else None
  }

  /** The entry with the greatest address at or below `pc`. */
  predicate IsNearestEntry(entries: seq<JitEntry>, pc: nat, entry: JitEntry) {
    && entry in entries && entry.address <= pc
    && forall other | other in entries && other.address <= pc :: other.address <= entry.address
  }

  lemma EntryPoint(entries: seq<JitEntry>, pc: nat) returns (index: nat)
    requires EntriesSorted(entries)
    ensures index == PartitionPoint(entries, EntriesUpTo(pc)) <= |entries|
    ensures forall i | 0 <= i < |entries| :: i < index <==> entries[i].address <= pc
  {
    index := PartitionPoint(entries, EntriesUpTo(pc));
    assert Partitioned(entries, EntriesUpTo(pc)) by {
      assert forall i | 0 <= i < |entries| :: EntriesUpTo(pc)(entries[i]) <==> entries[i].address <= pc;
    }
    forall i | 0 <= i < |entries| ensures i < index <==> entries[i].address <= pc {
      assert EntriesUpTo(pc)(entries[i]) <==> i < index;
    }
  }

  /** A pc that looks like generated code is close behind this entry. */
  predicate NamesPc(maps: seq<MapRange>, bounds: Option<Bounds>, entries: seq<JitEntry>, pc: nat, entry: JitEntry) {
    && IsNearestEntry(entries, pc, entry) && pc - entry.address < 4096 && pc != U64_MAX
    && PcLooksLikeCogCode(maps, bounds, pc)
  }

  /** The lookup, said without bisection: the nearest entry at or below the pc names
      it, when it is less than four kilobytes away and the pc looks like generated
      code; otherwise, and when there is no such entry, nothing does. */
  lemma EntryLookupIsNearest(maps: seq<MapRange>, bounds: Option<Bounds>, entries: seq<JitEntry>, pc: nat)
    requires EntriesSorted(entries)
    requires pc <= U64_MAX && forall entry | entry in entries :: entry.address <= U64_MAX
    ensures forall entry | NamesPc(maps, bounds, entries, pc, entry) ::
              LookupJitEntry(maps, bounds, entries, pc) == Some("Cog " + entry.name)
    ensures (forall entry :: !NamesPc(maps, bounds, entries, pc, entry)) ==>
              LookupJitEntry(maps, bounds, entries, pc) == None
  {
    hide PcLooksLikeCogCode, EntriesUpTo;
    var index := EntryPoint(entries, pc);
    if index > 0 {
      assert IsNearestEntry(entries, pc, entries[index - 1]);
      forall entry | IsNearestEntry(entries, pc, entry) ensures entry == entries[index - 1] {
        var i :| 0 <= i < |entries| && entries[i] == entry;
      }
      if index < |entries| {
        assert entries[index] in entries;
      }
      assert entries[index - 1] in entries;
      assert NamesPc(maps, bounds, entries, pc, entries[index - 1])
        <==> LookupJitEntry(maps, bounds, entries, pc).Some?;
    } else {
      assert forall entry | entry in entries :: pc < entry.address;
    }
  }

  // ----- the invariant -----

  predicate Blocked(z: Zone) {
    && z.bounds.Some? && z.cursor.Some? && z.blocked == z.cursor
    && z.bounds.value.base <= z.cursor.value < z.bounds.value.freeStart
  }

  predicate Walked(z: Zone) {
    && z.bounds.Some? && z.cursor.Some? && z.blocked == None
    && z.bounds.value.base < z.bounds.value.freeStart <= z.cursor.value <= z.bounds.value.freeStart + 8
    && Tiles(z.ranges, z.bounds.value.base, z.cursor.value)
  }

  /** Bounds known: either the walk is blocked exactly at its cursor, or it has
      covered the zone and the index is a gap-free tiling up to its cursor. */
  predicate ZoneInvariant(z: Zone) {
    && StrictlySorted(z.ranges)
    && EntriesSorted(z.entries)
    && match z.bounds
       case None => z.cursor == None && z.blocked == None
       case Some(b) => Blocked(z) || Walked(z)
  }

  // ----- refreshing -----

  predicate Grows(z: Zone, b: Bounds) {
    z.bounds.Some? && z.bounds.value.base == b.base && z.bounds.value.freeStart < b.freeStart
  }

  function WalkOn(setup: Setup, obs: Observation, z: Zone, cursor: nat): Zone
    requires obs.bounds.Some?
  {
    var w := Walk(obs.walk, 0, cursor, obs.bounds.value.freeStart);
    z.(bounds := obs.bounds,
       entries := JitEntries(setup, obs.bounds, obs.slotValues),
       ranges := z.ranges + w.found,
       cursor := Some(w.cursor),
       blocked := if w.blocked then Some(w.cursor) else None)
  }

  function Refresh(setup: Setup, obs: Observation, z: Zone): Zone {
    if obs.bounds.None? then z
    else
      var b := obs.bounds.value;
      if z.bounds == Some(b) then
        var cursor := z.cursor.GetOr(b.base);
        if cursor >= b.freeStart || z.blocked == Some(cursor) then z
        else WalkOn(setup, obs, z, cursor)
      else if Grows(z, b) then
        var cursor := z.cursor.GetOr(z.bounds.value.freeStart);
        if z.blocked == Some(cursor) then z.(bounds := Some(b), entries := JitEntries(setup, Some(b), obs.slotValues))
        else if cursor >= b.freeStart then z
        else WalkOn(setup, obs, z, cursor)
      else
        WalkOn(setup, obs, z.(ranges := [], resolved := map[], blocked := None), b.base)
  }

  lemma TilesConcat(a: seq<CogMethodRange>, b: seq<CogMethodRange>, lo: nat, mid: nat, hi: nat)
    requires Tiles(a, lo, mid) && Tiles(b, mid, hi)
    ensures Tiles(a + b, lo, hi)
  {
    forall i | 0 < i < |a + b| ensures (a + b)[i - 1].end == (a + b)[i].start {
      if i == |a| {
        assert b[0].start == mid;
      }
    }
  }

  lemma WalkOnKeepsInvariant(setup: Setup, obs: Observation, z: Zone, cursor: nat)
    requires Credible(obs) && obs.bounds.Some?
    requires Tiles(z.ranges, obs.bounds.value.base, cursor) && cursor < obs.bounds.value.freeStart
    ensures var after := WalkOn(setup, obs, z, cursor);
      ZoneInvariant(after) && Tiles(after.ranges, obs.bounds.value.base, after.cursor.value)
  {
    hide Walk, JitEntries, EntriesSorted, Tiles, StrictlySorted;
    TilingIsSorted(z.ranges, obs.bounds.value.base, cursor);
    var w := Walk(obs.walk, 0, cursor, obs.bounds.value.freeStart);
    WalkTiles(obs.walk, 0, cursor, obs.bounds.value.freeStart);
    TilesConcat(z.ranges, w.found, obs.bounds.value.base, cursor, w.cursor);
    TilingIsSorted(z.ranges + w.found, obs.bounds.value.base, w.cursor);
  }

  lemma RefreshKeepsInvariant(setup: Setup, obs: Observation, z: Zone)
    requires ZoneInvariant(z) && Credible(obs)
    ensures ZoneInvariant(Refresh(setup, obs, z))
  {
    if obs.bounds.Some? {
      var b := obs.bounds.value;
      if z.bounds == Some(b) {
      } else if Grows(z, b) {
        if !Blocked(z) && z.cursor.value < b.freeStart {
          WalkOnKeepsInvariant(setup, obs, z, z.cursor.value);
        }
      } else {
        WalkOnKeepsInvariant(setup, obs, z.(ranges := [], resolved := map[], blocked := None), b.base);
      }
    }
  }

  /** What a refresh makes known.  It takes the bounds shown unless the walk has already
      passed their end; only then is the table of entry points made anew, from the slots
      that hold addresses of generated code under the new bounds, each address under the
      name of its first slot.  Remembered answers are dropped exactly when the bounds
      have another base, or end earlier. */
  lemma RefreshTakesBounds(setup: Setup, obs: Observation, z: Zone, entry: JitEntry)
    requires ZoneInvariant(z) && Credible(obs) && |obs.slotValues| == |setup.jitEntrySymbolSlots|
    ensures var after := Refresh(setup, obs, z);
      && (obs.bounds.None? || z.bounds == obs.bounds ==> after == z)
      && (obs.bounds.Some? && z.bounds != obs.bounds ==>
            var b := obs.bounds.value;
            var grows := z.bounds.Some? && z.bounds.value.base == b.base && z.bounds.value.freeStart < b.freeStart;
            if grows && z.blocked.None? && b.freeStart <= z.cursor.GetOr(0) then after == z
            else
              && after.bounds == obs.bounds
              && after.resolved == (if grows then z.resolved else map[])
              && (entry in after.entries <==>
                    exists i: nat ::
                      && NamesCode(setup, obs.bounds, obs.slotValues, entry.address, i)
                      && entry.name == setup.jitEntrySymbolSlots[i].name))
  {
    TableHoldsFirstSlots(setup, obs.bounds, obs.slotValues, entry);
    hide JitEntries, NamesCode, Walk, Tiles, StrictlySorted, EntriesSorted;
  }

  // ----- resolving a pc -----

  function LookupName(z: Zone, pc: nat): Option<string> {
    var range :- LookupRange(z.ranges, pc);
    Some(range.name)
  }

  predicate ShouldRefresh(z: Zone, pc: nat) {
    match z.bounds
    case None => true
    case Some(b) => pc >= b.freeStart || (pc >= z.cursor.GetOr(b.base) && z.cursor.GetOr(b.base) < b.freeStart)
  }

  predicate PcInMethodZone(z: Zone, pc: nat) {
    z.bounds.Some? && z.bounds.value.base <= pc < z.bounds.value.freeStart
  }

  datatype Resolution = Resolution(name: Option<string>, zone: Zone)

  function Remember(z: Zone, pc: nat, name: Option<string>): Resolution {
    Resolution(name, z.(resolved := z.resolved[pc := name]))
  }

  function Refreshed(setup: Setup, obs: Observation, z: Zone, pc: nat): Zone {
    if ShouldRefresh(z, pc) then Refresh(setup, obs, z) else z
  }

  /** The backward scan runs only inside the known zone, or while it is unknown. */
  function ScannedRange(setup: Setup, obs: Observation, z: Zone, pc: nat): Option<CogMethodRange> {
    if PcInMethodZone(z, pc) || z.bounds.None? then ScanForCogMethod(setup, z.bounds, obs.scan, pc).range else None
  }

  /** No indexed range holds `pc`: a generated entry point, a header found by
      scanning backwards, or generated code of no known name. */
  function ResolveUnindexed(setup: Setup, obs: Observation, z: Zone, pc: nat): Resolution {
    var entry := LookupJitEntry(setup.maps, z.bounds, z.entries, pc);
    var scanned := if entry.Some? then None else ScannedRange(setup, obs, z, pc);
    if entry.Some? then Remember(z, pc, entry)
    else if scanned.Some? then
      Remember(z.(ranges := InsertRange(z.ranges, scanned.value)), pc, Some(scanned.value.name))
    else Remember(z, pc, GenericCogCodeName(setup.maps, z.bounds, pc))
  }

  function Resolve(setup: Setup, obs: Observation, z: Zone, pc: nat): Resolution {
    if pc in z.resolved then Resolution(z.resolved[pc], z)
    else if LookupName(z, pc).Some? then Remember(z, pc, LookupName(z, pc))
    else
      var z := Refreshed(setup, obs, z, pc);
      if LookupName(z, pc).Some? then Remember(z, pc, LookupName(z, pc))
      else ResolveUnindexed(setup, obs, z, pc)
  }

  /** What is answered for a pc that no method holds. */
  function OutsideAnswer(setup: Setup, z: Zone, pc: nat): Option<string> {
    var entry := LookupJitEntry(setup.maps, z.bounds, z.entries, pc);
    if entry.Some? then entry else GenericCogCodeName(setup.maps, z.bounds, pc)
  }
}
