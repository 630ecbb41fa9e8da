/** The symbolizer object.  Its methods update the index, the cache and the walk
    state in place; each is proved against the value-level model of the zone. */
module Symbolizer {
  import opened Wrappers
  import opened TargetMemory
  import opened CogMethods
  import opened RangeIndex
  import opened JitEntryTable
  import opened MethodZone
  import opened ZoneTheorems
  import opened Observations
  import opened CogFrames

  class SmalltalkSymbolizer {
    const setup: Setup
    var methodRanges: seq<CogMethodRange>
    var resolvedPcs: map<nat, Option<string>>
    var methodZoneBounds: Option<Bounds>
    var methodZoneScanCursor: Option<nat>
    var methodZoneBlockedCursor: Option<nat>
    var jitEntrySymbols: seq<JitEntry>

    function State(): Zone
      reads this
    {
      Zone(methodRanges, resolvedPcs, methodZoneBounds, methodZoneScanCursor, methodZoneBlockedCursor, jitEntrySymbols)
    }

    predicate Valid()
      reads this
    {
      ZoneInvariant(State())
    }

    constructor (setup: Setup)
      ensures this.setup == setup
      ensures Valid() && State() == FRESH
    {
      this.setup := setup;
      methodRanges, resolvedPcs := [], map[];
      methodZoneBounds, methodZoneScanCursor, methodZoneBlockedCursor := None, None, None;
      jitEntrySymbols := [];
    }

    method InsertMethodRange(range: CogMethodRange)
      requires StrictlySorted(methodRanges)
      modifies this`methodRanges
      ensures methodRanges == InsertRange(old(methodRanges), range)
    {
      ghost var point := InsertionPoint(methodRanges, range);
      ghost var there := if point < |methodRanges| then methodRanges[point].start else range.start;
      if methodRanges == [] {
        methodRanges := methodRanges + [range];
        return;
      }
      var last := |methodRanges| - 1;
      if methodRanges[last].start == range.start {
        methodRanges := methodRanges[last := range];
        return;
      }
      if methodRanges[last].start < range.start {
        methodRanges := methodRanges + [range];
        return;
      }
      var index := PartitionPoint(methodRanges, StartsBefore(range.start));
      if index < |methodRanges| && methodRanges[index].start == range.start {
        methodRanges := methodRanges[index := range];
      } else {
        methodRanges := methodRanges[..index] + [range] + methodRanges[index..];
      }
    }

    method RefreshJitEntrySymbols(watch: Watch)
      modifies this`jitEntrySymbols
      ensures jitEntrySymbols == JitEntries(setup, methodZoneBounds, ReadSlots(setup.jitEntrySymbolSlots, watch.slots))
    {
      var values := ReadSlots(setup.jitEntrySymbolSlots, watch.slots);
      var filled := FilledSlots(setup, methodZoneBounds, setup.jitEntrySymbolSlots, values);
      jitEntrySymbols := SortByAddress(filled);
      jitEntrySymbols := DedupByAddress(jitEntrySymbols);
    }

    method RefreshMethodZone(watch: Watch)
      requires Valid()
      modifies this
      ensures State() == Refresh(setup, Observe(setup, watch), old(State()))
      ensures Valid()
    {
      hide Walk, JitEntries, ReadMethodZoneBounds, ReadSlots;
      ghost var obs := Observe(setup, watch);
      ObservationIsCredible(setup, watch);
      RefreshKeepsInvariant(setup, obs, State());
      if setup.methodZoneSymbols.None? {
        return;
      }
      var bounds := ReadMethodZoneBounds(setup.methodZoneSymbols.value, watch.bounds);
      if bounds.None? {
        return;
      }
      var base, freeStart := bounds.value.base, bounds.value.freeStart;
      var previousBounds := methodZoneBounds;
      var scanStart;
      if previousBounds == bounds {
        scanStart := methodZoneScanCursor.GetOr(base);
        if scanStart >= freeStart || methodZoneBlockedCursor == Some(scanStart) {
          return;
        }
      } else if previousBounds.Some? && previousBounds.value.base == base
                && previousBounds.value.freeStart < freeStart {
        scanStart := methodZoneScanCursor.GetOr(previousBounds.value.freeStart);
        if methodZoneBlockedCursor == Some(scanStart) {
          methodZoneBounds := bounds;
          RefreshJitEntrySymbols(watch);
          return;
        }
      } else {
        methodRanges := [];
        resolvedPcs := map[];
        methodZoneBlockedCursor := None;
        scanStart := base;
      }

      if scanStart >= freeStart {
        return;
      }

      methodZoneBounds := bounds;
      RefreshJitEntrySymbols(watch);
      WalkMethodZone(watch, base, scanStart, freeStart);
    }

    /** The forward walk, from a cursor up to which the index already tiles the zone. */
    method WalkMethodZone(watch: Watch, base: nat, scanStart: nat, freeStart: nat)
      requires Tiles(methodRanges, base, scanStart) && scanStart < freeStart && methodZoneBlockedCursor == None
      modifies this`methodRanges, this`methodZoneScanCursor, this`methodZoneBlockedCursor
      ensures var w := Walk(DecoderOf(watch.walk), 0, scanStart, freeStart);
        && methodRanges == old(methodRanges) + w.found
        && methodZoneScanCursor == Some(w.cursor)
        && methodZoneBlockedCursor == (if w.blocked then Some(w.cursor) else None)
    {
      hide ReadCogMethodAt, InsertRange, Tiles, Walk;
      DecoderIsSound(watch.walk);
      ghost var decode := DecoderOf(watch.walk);
      ghost var whole := Walk(decode, 0, scanStart, freeStart);
      ghost var found: seq<CogMethodRange> := [];
      var cursor, k := scanStart, 0;
      while cursor < freeStart
        invariant methodZoneBlockedCursor == None
        invariant methodRanges == old(methodRanges) + found
        invariant Tiles(methodRanges, base, cursor)
        invariant var rest := Walk(decode, k, cursor, freeStart);
          whole == WalkResult(found + rest.found, rest.cursor, rest.blocked)
        decreases if cursor < freeStart then freeStart - cursor else 0
      {
        WalkStep(decode, k, cursor, freeStart);
        var range := ReadCogMethodAt(watch.walk, READS_PER_DECODE * k, cursor);
        assert range == decode(k, cursor);
        if range.None? {
          methodZoneScanCursor := Some(cursor);
          methodZoneBlockedCursor := Some(cursor);
          break;
        }
        if range.value.end <= cursor || range.value.end > SaturatingAdd(freeStart, 8) {
          methodZoneScanCursor := Some(cursor);
          methodZoneBlockedCursor := Some(cursor);
          break;
        }
        InsertAtEnd(methodRanges, base, cursor, range.value);
        assert found + ([range.value] + Walk(decode, k + 1, range.value.end, freeStart).found)
            == found + [range.value] + Walk(decode, k + 1, range.value.end, freeStart).found;
        assert old(methodRanges) + found + [range.value] == old(methodRanges) + (found + [range.value]);
        found := found + [range.value];
        cursor, k := range.value.end, k + 1;
        methodZoneBlockedCursor := None;
        InsertMethodRange(range.value);
      }
      WalkStep(decode, k, cursor, freeStart);
      methodZoneScanCursor := Some(cursor);
    }

    /** The backward scan; what it finds goes into the index. */
    method ScanForMethod(watch: Watch, pc: nat) returns (name: Option<string>)
      requires StrictlySorted(methodRanges)
      modifies this`methodRanges
      ensures var scanned := ScanForCogMethod(setup, methodZoneBounds, DecoderOf(watch.scan), pc).range;
        if scanned.None? then name == None && methodRanges == old(methodRanges)
        else name == Some(scanned.value.name) && methodRanges == InsertRange(old(methodRanges), scanned.value)
    {
      hide ReadCogMethodAt;
      name := None;
      var within := ScanBounds(setup.maps, methodZoneBounds, pc);
      if within.None? {
        return;
      }
      var start, end := AlignDown(within.value.0), within.value.1;
      var candidate, k := AlignDown(pc), 0;
      ghost var decode := DecoderOf(watch.scan);
      ghost var whole := ScanFrom(decode, 0, candidate, start, end, pc).range;
      while candidate >= start
        invariant whole == ScanFrom(decode, k, candidate, start, end, pc).range
        decreases candidate
      {
        var range := ReadCogMethodAt(watch.scan, READS_PER_DECODE * k, candidate);
        assert range == decode(k, candidate);
        if Covers(range, pc) {
          InsertMethodRange(range.value);
          name := Some(range.value.name);
          return;
        }
        if candidate < 8 {
          return;
        }
        candidate, k := candidate - 8, k + 1;
        if candidate > end {
          return;
        }
      }
    }

    method ResolveJitPc(watch: Watch, pc: nat) returns (name: Option<string>)
      requires Valid()
      modifies this
      ensures Resolution(name, State()) == Resolve(setup, Observe(setup, watch), old(State()), pc)
      ensures Valid()
    {
      ghost var obs := Observe(setup, watch);
      ObservationIsCredible(setup, watch);
      ResolveKeepsInvariant(setup, obs, State(), pc);
      if pc in resolvedPcs {
        return resolvedPcs[pc];
      }
      var hit := LookupRange(methodRanges, pc);
      if hit.Some? {
        resolvedPcs := resolvedPcs[pc := Some(hit.value.name)];
        return Some(hit.value.name);
      }
      if ShouldRefresh(State(), pc) {
        RefreshMethodZone(watch);
        hit := LookupRange(methodRanges, pc);
        if hit.Some? {
          resolvedPcs := resolvedPcs[pc := Some(hit.value.name)];
          return Some(hit.value.name);
        }
      }
      name := ResolveOutsideIndex(watch, pc);
    }

    method ResolveOutsideIndex(watch: Watch, pc: nat) returns (name: Option<string>)
      requires Valid()
      modifies this
      ensures Resolution(name, State()) == ResolveUnindexed(setup, Observe(setup, watch), old(State()), pc)
    {
      name := LookupJitEntry(setup.maps, methodZoneBounds, jitEntrySymbols, pc);
      if name.None? && (PcInMethodZone(State(), pc) || methodZoneBounds.None?) {
        name := ScanForMethod(watch, pc);
      }
      if name.None? {
        name := GenericCogCodeName(setup.maps, methodZoneBounds, pc);
      }
      resolvedPcs := resolvedPcs[pc := name];
    }

    method ResolveMethodOfFrame(watch: FrameWatch, methodField: nat, heapBase: nat) returns (name: Option<string>)
      requires Valid()
      modifies this
      ensures Valid()
      ensures Resolution(name, State()) == ResolveFrameMethod(setup, watch, old(State()), methodField, heapBase)
    {
      hide Resolve, InterpretedName, Observe;
      if methodField == 0 {
        return None;
      }
      if methodField < heapBase {
        name := ResolveJitPc(watch.jit, methodField + COG_METHOD_SIZE);
      } else {
        name := InterpretedName(watch.interpreted, methodField);
      }
    }

    method WalkFrames(watch: ChainWatch) returns (frames: seq<string>)
      requires Valid()
      modifies this
      ensures Valid()
      ensures Frames(frames, State()) == WalkCogFrames(setup, watch, old(State()))
      ensures |frames| <= COG_FRAME_WALK_LIMIT
    {
      hide ResolveFrameMethod, WalkChain, ZoneInvariant;
      frames := [];
      if setup.cogFrameSymbols.None? {
        return;
      }
      var fp := CopyUint(watch.globals(0), setup.cogFrameSymbols.value.framePointerAddr, 8);
      if fp.None? || fp.value == 0 {
        return;
      }
      var heapBase := CopyUint(watch.globals(1), setup.cogFrameSymbols.value.heapBaseAddr, 8);
      if heapBase.None? {
        return;
      }
      frames := FollowChain(watch, fp.value, heapBase.value);
    }

    method FollowChain(watch: ChainWatch, fp: nat, heapBase: nat) returns (frames: seq<string>)
      requires Valid()
      modifies this
      ensures Valid()
      ensures Frames(frames, State())
              == WalkChain(watch.links, FrameNamer(setup, watch.frames, heapBase), 0, fp, old(State()))
    {
      hide ZoneInvariant, MethodField, CallerOf, WalkChain, FrameNamer;
      frames := [];
      ghost var namer := FrameNamer(setup, watch.frames, heapBase);
      ghost var whole := WalkChain(watch.links, namer, 0, fp, State());
      var currentFp, iterations := fp, 0;
      while currentFp != 0 && iterations < COG_FRAME_WALK_LIMIT
        invariant Valid()
        invariant iterations <= COG_FRAME_WALK_LIMIT
        invariant var rest := WalkChain(watch.links, namer, iterations, currentFp, State());
          whole == Frames(frames + rest.names, rest.state)
        decreases COG_FRAME_WALK_LIMIT - iterations
      {
        ChainStep(watch.links, namer, iterations, currentFp, State());
        ghost var soFar := frames;
        iterations := iterations + 1;
        var name, callerFp := NameFrame(watch, iterations - 1, currentFp, heapBase);
        frames := frames + name;
        if callerFp.None? {
          assert soFar + [] == soFar;
          return;
        }
        currentFp := callerFp.value;
        ghost var rest := WalkChain(watch.links, namer, iterations, currentFp, State());
        assert soFar + (name + rest.names) == frames + rest.names;
      }
      ChainStep(watch.links, namer, iterations, currentFp, State());
      assert frames + [] == frames;
    }

    /** One frame of the chain: its name, if it has one, and the frame to go on to. */
    method NameFrame(watch: ChainWatch, i: nat, fp: nat, heapBase: nat) returns (named: seq<string>, next: Option<nat>)
      requires Valid() && fp != 0 && i < COG_FRAME_WALK_LIMIT
      modifies this
      ensures Valid()
      ensures ChainStops(watch.links, i, fp) ==> named == [] && next == None && State() == old(State())
      ensures !ChainStops(watch.links, i, fp) ==>
        var field := MethodField(watch.links, i, fp).value;
        var (name, s') := FrameNamer(setup, watch.frames, heapBase)(i, field, old(State()));
        && named == Named(name) && State() == s'
        && next == if ChainEndsAfter(watch.links, i, fp) then None else CallerOf(watch.links, i, fp)
    {
      hide ResolveFrameMethod, ZoneInvariant, FrameNamer, MethodField, CallerOf;
      named, next := [], None;
      var methodField := MethodField(watch.links, i, fp);
      if methodField.None? {
        return;
      }
      NamerResolves(setup, watch.frames, heapBase, i, methodField.value, State());
      var name := ResolveMethodOfFrame(watch.frames(i), methodField.value, heapBase);
      if name.Some? {
        named := [name.value];
      }
      var callerFp := CallerOf(watch.links, i, fp);
      if callerFp.None? || callerFp.value == fp || callerFp.value == 0 {
        return;
      }
      next := callerFp;
    }
  }
}
