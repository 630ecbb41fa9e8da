/** The Cog frame chain: a linked list of frames in the target, each naming its
    method, walked while the symbolizer's index is being filled. */
module CogFrames {
  import opened Wrappers
  import opened TargetMemory
  import opened SpurObjects
  import opened MethodNames
  import opened NamedMethods
  import opened CogMethods
  import opened MethodZone
  import opened Observations
  import opened StillProcess
  import opened ZoneLayout

  const COG_FRAME_WALK_LIMIT: nat := 200
  const CONTEXT_METHOD_OFFSET: nat := BASE_HEADER_SIZE + 3 * WORD_SIZE

  /** What naming one frame sees of the process. */
  datatype FrameWatch = FrameWatch(jit: Watch, interpreted: Memory)

  /** What a walk of the chain sees: the two VM globals, then for frame i its method
      field at read 2i and its caller at read 2i+1, and what naming frame i sees. */
  datatype ChainWatch = ChainWatch(globals: Timeline, links: Timeline, frames: nat -> FrameWatch)

  /** Names gathered so far, and the state the naming of frames is threaded through. */
  datatype Frames<+S> = Frames(names: seq<string>, state: S)

  /** How frame i with some method field is named. */
  type Namer<!S> = (nat, nat, S) -> (Option<string>, S)

  /** `FP - 8` in 64-bit arithmetic. */
  function MethodFieldAddr(fp: nat): nat {
    if fp >= 8 then fp - 8 else U64_MAX + 1 + fp - 8
  }

  lemma FieldAddressWraps(fp: nat)
    requires fp <= U64_MAX
    ensures MethodFieldAddr(fp) == (fp + 0xFFFF_FFFF_FFFF_FFF8) % 0x1_0000_0000_0000_0000
  {
  }

  function MethodField(links: Timeline, i: nat, fp: nat): Option<nat> {
    CopyUint(links(2 * i), MethodFieldAddr(fp), 8)
  }

  function CallerOf(links: Timeline, i: nat, fp: nat): Option<nat> {
    CopyUint(links(2 * i + 1), fp, 8)
  }

  /** An interpreted frame: its context names a compiled method in slot 3. */
  function InterpretedName(m: Memory, context: nat): Option<string> {
    if !IsHeapObject(context) then None
    else
      var methodObj :- CopyUint(m, context + CONTEXT_METHOD_OFFSET, 8);
      if !IsHeapObject(methodObj) || !IsCompiledMethod(m, methodObj) then None
      else
        var methodHeader :- MethodHeaderOf(m, methodObj);
        var selector :- MaybeSelectorOfMethod(m, methodObj, methodHeader, 0).name;
        if !LooksLikeSelector(selector) then None
        else
          var className := ClassNameOfMethod(m, methodObj, methodHeader, 0).name;
          Some(className.GetOr("???") + ">>" + selector)
  }

  function ResolveFrameMethod(setup: Setup, watch: FrameWatch, z: Zone, methodField: nat, heapBase: nat): Resolution {
    if methodField == 0 then Resolution(None, z)
    else if methodField < heapBase then Resolve(setup, Observe(setup, watch.jit), z, methodField + COG_METHOD_SIZE)
    else Resolution(InterpretedName(watch.interpreted, methodField), z)
  }

  function FrameNamer(setup: Setup, frames: nat -> FrameWatch, heapBase: nat): Namer<Zone> {
    (i: nat, methodField: nat, z: Zone) =>
      var r := ResolveFrameMethod(setup, frames(i), z, methodField, heapBase);
      (r.name, r.zone)
  }

  lemma NamerResolves(setup: Setup, frames: nat -> FrameWatch, heapBase: nat, i: nat, methodField: nat, z: Zone)
    ensures var r := ResolveFrameMethod(setup, frames(i), z, methodField, heapBase);
      FrameNamer(setup, frames, heapBase)(i, methodField, z) == (r.name, r.zone)
  {
  }

  function Named(name: Option<string>): seq<string> {
    if name.Some? then [name.value] else []
  }

  /** The frames from the i-th on, which is at `fp`. */
  function WalkChain<S>(links: Timeline, namer: Namer<S>, i: nat, fp: nat, s: S): (r: Frames<S>)
    ensures |r.names| <= if i < COG_FRAME_WALK_LIMIT then COG_FRAME_WALK_LIMIT - i else 0
    decreases if i < COG_FRAME_WALK_LIMIT then COG_FRAME_WALK_LIMIT - i else 0
  {
    if fp == 0 || i >= COG_FRAME_WALK_LIMIT then Frames([], s)
    else
      var methodField := MethodField(links, i, fp);
      if methodField.None? then Frames([], s)
      else
        var (name, s') := namer(i, methodField.value, s);
        var caller := CallerOf(links, i, fp);
        if caller.None? || caller.value == fp || caller.value == 0 then Frames(Named(name), s')
        else
          var rest := WalkChain(links, namer, i + 1, caller.value, s');
          Frames(Named(name) + rest.names, rest.state)
  }

  /** The walk ends here. */
  predicate ChainStops(links: Timeline, i: nat, fp: nat) {
    fp == 0 || i >= COG_FRAME_WALK_LIMIT || MethodField(links, i, fp).None?
  }

  predicate ChainEndsAfter(links: Timeline, i: nat, fp: nat) {
    var caller := CallerOf(links, i, fp);
    caller.None? || caller.value == fp || caller.value == 0
  }

  lemma ChainStep<S>(links: Timeline, namer: Namer<S>, i: nat, fp: nat, s: S)
    ensures ChainStops(links, i, fp) ==> WalkChain(links, namer, i, fp, s) == Frames([], s)
    ensures !ChainStops(links, i, fp) ==>
      var (name, s') := namer(i, MethodField(links, i, fp).value, s);
      WalkChain(links, namer, i, fp, s)
      == if ChainEndsAfter(links, i, fp) then Frames(Named(name), s')
         else
           var rest := WalkChain(links, namer, i + 1, CallerOf(links, i, fp).value, s');
           Frames(Named(name) + rest.names, rest.state)
  {
  }

  function WalkCogFrames(setup: Setup, watch: ChainWatch, z: Zone): (r: Frames<Zone>)
    ensures |r.names| <= COG_FRAME_WALK_LIMIT
  {
    if setup.cogFrameSymbols.None? then Frames([], z)
    else
      var fp := CopyUint(watch.globals(0), setup.cogFrameSymbols.value.framePointerAddr, 8);
      if fp.None? || fp.value == 0 then Frames([], z)
      else
        var heapBase := CopyUint(watch.globals(1), setup.cogFrameSymbols.value.heapBaseAddr, 8);
        if heapBase.None? then Frames([], z)
        else WalkChain(watch.links, FrameNamer(setup, watch.frames, heapBase.value), 0, fp.value, z)
  }

  // ----- against the list of frames -----

  /** The chain from frame i on is the list `fps`: every frame's fields are
      readable and each links to the next; the last one ends the chain (no
      readable caller, none, or itself) unless the walk stops there anyway. */
  predicate IsChain(links: Timeline, i: nat, fps: seq<nat>)
    decreases |fps|
  {
    && fps != [] && fps[0] != 0 && MethodField(links, i, fps[0]).Some?
    && var caller := CallerOf(links, i, fps[0]);
    if |fps| == 1 then
      i + 1 >= COG_FRAME_WALK_LIMIT || caller.None? || caller.value == fps[0] || caller.value == 0
    else
      caller == Some(fps[1]) && fps[1] != fps[0] && IsChain(links, i + 1, fps[1..])
  }

  /** The method field of every frame of a chain, in caller order. */
  function MethodFields(links: Timeline, i: nat, fps: seq<nat>): (fields: seq<nat>)
    requires IsChain(links, i, fps)
    ensures |fields| == |fps|
    decreases |fps|
  {
    [MethodField(links, i, fps[0]).value] + if |fps| == 1 then [] else MethodFields(links, i + 1, fps[1..])
  }

  /** Naming methods one after the other, each naming starting from the state the
      one before left, and leaving out those without a name. */
  function NameAll<S>(namer: Namer<S>, i: nat, fields: seq<nat>, s: S): Frames<S>
    decreases |fields|
  {
    if fields == [] then Frames([], s)
    else
      var (name, s') := namer(i, fields[0], s);
      var rest := NameAll(namer, i + 1, fields[1..], s');
      Frames(Named(name) + rest.names, rest.state)
  }

  /** A chain of at most 200 frames is walked to its end, every frame once and in
      caller order; so are the first 200 frames of a longer or cyclic one. */
  lemma {:induction false} ChainIsWalkedInOrder<S>(links: Timeline, namer: Namer<S>, i: nat, fps: seq<nat>, s: S)
    requires IsChain(links, i, fps) && i + |fps| <= COG_FRAME_WALK_LIMIT
    ensures WalkChain(links, namer, i, fps[0], s) == NameAll(namer, i, MethodFields(links, i, fps), s)
    decreases |fps|
  {
    var fields := MethodFields(links, i, fps);
    var (name, s') := namer(i, fields[0], s);
    var caller := CallerOf(links, i, fps[0]);
    if |fps| > 1 {
      ChainIsWalkedInOrder(links, namer, i + 1, fps[1..], s');
      assert fields[1..] == MethodFields(links, i + 1, fps[1..]);
    } else {
      assert NameAll(namer, i + 1, fields[1..], s') == Frames([], s');
      assert Named(name) + [] == Named(name);
      if !(caller.None? || caller.value == fps[0] || caller.value == 0) {
        assert WalkChain(links, namer, i + 1, caller.value, s') == Frames([], s');
      }
    }
  }

  /** The whole walk, from the VM's two globals. */
  lemma WholeChainIsNamed(setup: Setup, watch: ChainWatch, fps: seq<nat>, heapBase: nat, z: Zone)
    requires setup.cogFrameSymbols.Some?
    requires IsChain(watch.links, 0, fps) && |fps| <= COG_FRAME_WALK_LIMIT
    requires CopyUint(watch.globals(0), setup.cogFrameSymbols.value.framePointerAddr, 8) == Some(fps[0])
    requires CopyUint(watch.globals(1), setup.cogFrameSymbols.value.heapBaseAddr, 8) == Some(heapBase)
    ensures WalkCogFrames(setup, watch, z)
            == NameAll(FrameNamer(setup, watch.frames, heapBase), 0, MethodFields(watch.links, 0, fps), z)
  {
    hide FrameNamer, WalkChain, NameAll, CopyUint;
    ChainIsWalkedInOrder(watch.links, FrameNamer(setup, watch.frames, heapBase), 0, fps, z);
  }

  // ----- frames, written -----

  /** A frame keeps its method eight bytes below its frame pointer, and its caller there. */
  function FrameBytes(field: nat, caller: nat): (bytes: seq<Byte>)
    ensures |bytes| == 16
  {
    ToLittleEndian(field, 8) + ToLittleEndian(caller, 8)
  }

  function CallerIn(fps: seq<nat>, end: nat, k: nat): nat {
    if k + 1 < |fps| then fps[k + 1] else end
  }

  /** The frames at `fps` with these method fields are in memory, each linked to the next one
      and the last one to `end`. */
  predicate HoldsFrames(m: Memory, fps: seq<nat>, fields: seq<nat>, end: nat) {
    && |fps| == |fields| && (forall k | 0 <= k < |fps| :: 8 <= fps[k])
    && forall k | 0 <= k < |fps| :: PlacedAt(m, fps[k] - 8, FrameBytes(fields[k], CallerIn(fps, end, k)))
  }

  /** Addresses of frames, none followed by itself, and words they may hold; the last one
      links to nothing, or to itself. */
  predicate AreFrames(fps: seq<nat>, fields: seq<nat>, end: nat) {
    && 1 <= |fps| == |fields|
    && (forall k | 0 <= k < |fps| :: 8 <= fps[k] <= U64_MAX && fields[k] <= U64_MAX)
    && (forall k | 0 <= k < |fps| - 1 :: fps[k] != fps[k + 1])
    && (end == 0 || end == fps[|fps| - 1])
  }

  lemma FrameIsRead(m: Memory, fp: nat, field: nat, caller: nat)
    requires 8 <= fp && field <= U64_MAX && caller <= U64_MAX
    requires PlacedAt(m, fp - 8, FrameBytes(field, caller))
    ensures CopyUint(m, fp - 8, 8) == Some(field) && CopyUint(m, fp, 8) == Some(caller)
  {
    hide ToLittleEndian, PlacedAt, CopyUint;
    FieldAt(m, fp - 8, FrameBytes(field, caller), 0, field, 8);
    FieldAt(m, fp - 8, FrameBytes(field, caller), 8, caller, 8);
  }

  lemma ReadsOfFrame(links: Timeline, fps: seq<nat>, fields: seq<nat>, end: nat, k: nat)
    requires AreFrames(fps, fields, end) && k < |fps|
    requires HoldsFrames(links(2 * k), fps, fields, end) && HoldsFrames(links(2 * k + 1), fps, fields, end)
    ensures MethodField(links, k, fps[k]) == Some(fields[k])
    ensures CallerOf(links, k, fps[k]) == Some(CallerIn(fps, end, k))
  {
    hide PlacedAt, CopyUint, FrameBytes;
    FrameIsRead(links(2 * k), fps[k], fields[k], CallerIn(fps, end, k));
    FrameIsRead(links(2 * k + 1), fps[k], fields[k], CallerIn(fps, end, k));
  }

  lemma ChainOfOne(links: Timeline, k: nat, fp: nat, field: nat, caller: nat)
    requires fp != 0 && MethodField(links, k, fp) == Some(field) && CallerOf(links, k, fp) == Some(caller)
    requires caller == 0 || caller == fp || k + 1 >= 200
    ensures IsChain(links, k, [fp]) && MethodFields(links, k, [fp]) == [field]
  {
    hide MethodField, CallerOf;
  }

  lemma ChainOfMore(links: Timeline, k: nat, fp: nat, field: nat, rest: seq<nat>, fields: seq<nat>)
    requires fp != 0 && MethodField(links, k, fp) == Some(field)
    requires IsChain(links, k + 1, rest) && MethodFields(links, k + 1, rest) == fields
    requires CallerOf(links, k, fp) == Some(rest[0]) && rest[0] != fp
    ensures IsChain(links, k, [fp] + rest) && MethodFields(links, k, [fp] + rest) == [field] + fields
  {
    hide MethodField, CallerOf;
    assert ([fp] + rest)[1..] == rest;
  }

  lemma SuffixFrom(s: seq<nat>, k: nat)
    requires k < |s|
    ensures s[k..] == [s[k]] + s[k + 1..]
    ensures k + 1 == |s| ==> s[k..] == [s[k]]
  {
  }

  /** The first n frames from the k-th on, where all are walked or as many as may be. */
  lemma {:induction false} WrittenFramesAreChain(links: Timeline, fps: seq<nat>, fields: seq<nat>, end: nat, n: nat,
          k: nat)
    requires AreFrames(fps, fields, end) && k < n <= |fps| && (n == |fps| || n == 200)
    requires forall r: nat | r < 2 * n :: HoldsFrames(links(r), fps, fields, end)
    ensures IsChain(links, k, fps[..n][k..]) && MethodFields(links, k, fps[..n][k..]) == fields[..n][k..]
    decreases n - k
  {
    ReadsOfFrame(links, fps, fields, end, k);
    assert |fields| == |fps| && fps[k] != 0 && (k + 1 < |fps| ==> fps[k + 1] != fps[k]);
    assert k + 1 == |fps| ==> end == 0 || end == fps[k];
    hide MethodField, CallerOf, HoldsFrames, IsChain, MethodFields, AreFrames;
    SuffixFrom(fps[..n], k);
    SuffixFrom(fields[..n], k);
    if k + 1 < n {
      WrittenFramesAreChain(links, fps, fields, end, n, k + 1);
      ChainOfMore(links, k, fps[k], fields[k], fps[..n][k + 1..], fields[..n][k + 1..]);
    } else {
      ChainOfOne(links, k, fps[k], fields[k], CallerIn(fps, end, k));
    }
  }

  /** The VM's two globals, as it wrote them, when they are read. */
  predicate HoldsGlobals(setup: Setup, globals: Timeline, framePointer: nat, heapBase: nat) {
    && setup.cogFrameSymbols.Some? && framePointer <= U64_MAX && heapBase <= U64_MAX
    && PlacedAt(globals(0), setup.cogFrameSymbols.value.framePointerAddr, ToLittleEndian(framePointer, 8))
    && PlacedAt(globals(1), setup.cogFrameSymbols.value.heapBaseAddr, ToLittleEndian(heapBase, 8))
  }

  lemma GlobalsAreRead(setup: Setup, globals: Timeline, framePointer: nat, heapBase: nat)
    requires HoldsGlobals(setup, globals, framePointer, heapBase)
    ensures CopyUint(globals(0), setup.cogFrameSymbols.value.framePointerAddr, 8) == Some(framePointer)
    ensures CopyUint(globals(1), setup.cogFrameSymbols.value.heapBaseAddr, 8) == Some(heapBase)
  {
    hide ToLittleEndian, PlacedAt, CopyUint;
    FieldAt(globals(0), setup.cogFrameSymbols.value.framePointerAddr, ToLittleEndian(framePointer, 8), 0,
            framePointer, 8);
    FieldAt(globals(1), setup.cogFrameSymbols.value.heapBaseAddr, ToLittleEndian(heapBase, 8), 0, heapBase, 8);
  }

  function FirstOf(fields: seq<nat>, n: nat): seq<nat> {
    if |fields| <= n then fields else fields[..n]
  }

  /** A chain written as the VM writes it is walked to its end, or for 200 frames: their
      method fields are named one after the other, none left out and none invented.
      Besides the frames and the globals memory may change from one read to the next. */
  lemma WrittenChainIsNamed(setup: Setup, watch: ChainWatch, fps: seq<nat>, fields: seq<nat>, end: nat, heapBase: nat,
          z: Zone)
    requires AreFrames(fps, fields, end) && HoldsGlobals(setup, watch.globals, fps[0], heapBase)
    requires forall r: nat | r < 2 * |fps| :: HoldsFrames(watch.links(r), fps, fields, end)
    ensures WalkCogFrames(setup, watch, z)
            == NameAll(FrameNamer(setup, watch.frames, heapBase), 0, FirstOf(fields, 200), z)
  {
    hide HoldsFrames, FrameNamer, NameAll, WalkCogFrames, IsChain, MethodFields, CopyUint;
    GlobalsAreRead(setup, watch.globals, fps[0], heapBase);
    var n := |FirstOf(fields, 200)|;
    WrittenFramesAreChain(watch.links, fps, fields, end, n, 0);
    assert fps[..n][0..] == fps[..n] && fields[..n][0..] == FirstOf(fields, 200);
    WholeChainIsNamed(setup, watch, fps[..n], heapBase, z);
  }

  /** The names of a chain cut in two are the names of its parts, the second part
      named from where the first one left the index. */
  lemma {:induction false} NamesOfParts<S>(namer: Namer<S>, i: nat, first: seq<nat>, second: seq<nat>, s: S)
    ensures var f := NameAll(namer, i, first, s);
      var g := NameAll(namer, i + |first|, second, f.state);
      NameAll(namer, i, first + second, s) == Frames(f.names + g.names, g.state)
    decreases |first|
  {
    hide Named;
    if first == [] {
      assert [] + second == second;
      var g := NameAll(namer, i, second, s);
      assert [] + g.names == g.names;
    } else {
      var (name, s') := namer(i, first[0], s);
      NamesOfParts(namer, i + 1, first[1..], second, s');
      assert (first + second)[1..] == first[1..] + second;
      var f := NameAll(namer, i + 1, first[1..], s');
      var g := NameAll(namer, i + |first|, second, f.state);
      assert Named(name) + (f.names + g.names) == Named(name) + f.names + g.names;
    }
  }

  lemma FormatNeedsHeapObject(m: Memory, oop: nat)
    ensures IsCompiledMethod(m, oop) ==> IsHeapObject(oop)
  {
  }

  /** What a context that can be read shows of its method. */
  lemma ContextIsRead(m: Memory, context: nat, code: Code)
    requires IsHeapObject(context) && LiteralField(m, context, 3) == Some(code.obj)
    requires IsCompiledMethod(m, code.obj) && MethodHeaderOf(m, code.obj) == Some(code.header)
    ensures var selector := MaybeSelectorOfMethod(m, code.obj, code.header, 0).name;
      var className := ClassNameOfMethod(m, code.obj, code.header, 0).name;
      InterpretedName(m, context)
      == if selector.Some? && LooksLikeSelector(selector.value)
         then Some(className.GetOr("???") + ">>" + selector.value)
         else None
  {
    FormatNeedsHeapObject(m, code.obj);
    hide MaybeSelectorOfMethod, ClassNameOfMethod, LooksLikeSelector, IsClassName, IsCompiledMethod, MethodHeaderOf,
      CopyUint;
  }

  /** An interpreted frame of a method, or of a block in one, is named after that method,
      as far as it is in reach. */
  lemma InterpretedFrameIsNamed(m: Memory, context: nat, nesting: seq<Code>, selector: string, binding: nat,
          className: string, classSide: bool)
    requires IsMethodWith(m, nesting, selector, binding) && LooksLikeSelector(selector)
    requires IsHeapObject(context) && LiteralField(m, context, 3) == Some(nesting[0].obj)
    requires IsCompiledMethod(m, nesting[0].obj) && MethodHeaderOf(m, nesting[0].obj) == Some(nesting[0].header)
    requires IsBindingOf(m, binding, className, classSide)
    ensures SelectorIsInReach(m, nesting) && ClassIsInReach(nesting, classSide)
            ==> InterpretedName(m, context) == Some(SideName(className, classSide) + ">>" + selector)
    ensures SelectorIsInReach(m, nesting)
            && !ClassIsInReach(nesting, classSide) && OnlyBindingNames(m, nesting, binding, classSide)
            ==> InterpretedName(m, context) == Some("???>>" + selector)
    ensures !SelectorIsInReach(m, nesting) && BlocksHaveNoSelector(m, nesting) ==> InterpretedName(m, context) == None
  {
    hide MaybeSelectorOfMethod, ClassNameOfMethod, HasSelector, EndsWithLiteral, IsInside, IsBindingOf,
      LooksLikeSelector, SideName, OnlyBindingNames, BlocksHaveNoSelector, ClassIsInReach, SelectorIsInReach,
      IsClassName, IsCompiledMethod, MethodHeaderOf, CopyUint, InterpretedName;
    WellFormedMethodIsNamed(m, nesting, selector, binding, className, classSide);
    ContextIsRead(m, context, nesting[0]);
    assert "???" + ">>" + selector == "???>>" + selector;
  }

  // ----- the names of frames in a still process -----

  /** What the frame with this method field is called. */
  function StillName(setup: Setup, m: Memory, heapBase: nat, methodField: nat): Option<string> {
    if methodField == 0 then None
    else if methodField < heapBase then
      StillAnswer(setup, FirstIndexed(setup, StillView(setup, m)), methodField + COG_METHOD_SIZE)
    else InterpretedName(m, methodField)
  }

  function StillNames(setup: Setup, m: Memory, heapBase: nat, fields: seq<nat>): seq<string> {
    if fields == [] then []
    else Named(StillName(setup, m, heapBase, fields[0])) + StillNames(setup, m, heapBase, fields[1..])
  }

  lemma FrameIsNamed(setup: Setup, m: Memory, z: Zone, heapBase: nat, methodField: nat)
    requires WalksThrough(StillView(setup, m)) && KnowsZone(setup, StillView(setup, m), z)
    ensures var r := ResolveFrameMethod(setup, FrameWatch(Frozen(m), m), z, methodField, heapBase);
      r.name == StillName(setup, m, heapBase, methodField) && KnowsZone(setup, StillView(setup, m), r.zone)
  {
    hide Resolve, WalksThrough, KnowsZone, StillAnswer, FirstIndexed, InterpretedName, Observe, Credible;
    if 0 < methodField < heapBase {
      ObservationIsCredible(setup, Frozen(m));
      StillProcessAnswersAlike(setup, StillView(setup, m), z, methodField + COG_METHOD_SIZE);
    }
  }

  lemma {:induction false} FramesAreNamed(setup: Setup, m: Memory, frames: nat -> FrameWatch, heapBase: nat, i: nat,
          fields: seq<nat>, z: Zone)
    requires WalksThrough(StillView(setup, m)) && KnowsZone(setup, StillView(setup, m), z)
    requires forall k: nat :: frames(k) == FrameWatch(Frozen(m), m)
    ensures var r := NameAll(FrameNamer(setup, frames, heapBase), i, fields, z);
      r.names == StillNames(setup, m, heapBase, fields) && KnowsZone(setup, StillView(setup, m), r.state)
    decreases |fields|
  {
    hide WalksThrough, KnowsZone, ResolveFrameMethod, StillName, FrameNamer;
    if fields != [] {
      FrameIsNamed(setup, m, z, heapBase, fields[0]);
      NamerResolves(setup, frames, heapBase, i, fields[0], z);
      var r := ResolveFrameMethod(setup, frames(i), z, fields[0], heapBase);
      FramesAreNamed(setup, m, frames, heapBase, i + 1, fields[1..], r.zone);
    }
  }

  /** What the frame should be called: after the written method whose code it runs, after its
      interpreted method as far as that has a name, or nothing if it has no method. */
  predicate IsCalled(m: Memory, base: nat, headers: seq<CogHeader>, heapBase: nat, methodField: nat,
          name: Option<string>)
  {
    if methodField == 0 then name == None
    else if methodField >= heapBase then name == InterpretedName(m, methodField)
    else
      exists i: nat :: i < |headers| && InMethod(base, headers, i, methodField + 0x28)
                       && name == Some(headers[i].Name(m))
  }

  /** The names that there are, in their order. */
  function NamesIn(names: seq<Option<string>>): seq<string> {
    if names == [] then [] else Named(names[0]) + NamesIn(names[1..])
  }

  lemma {:induction false} MethodsAreNamed(setup: Setup, m: Memory, base: nat, headers: seq<CogHeader>, freeStart: nat,
          heapBase: nat, fields: seq<nat>, names: seq<Option<string>>)
    requires ShowsZone(setup, m, base, headers, freeStart) && |fields| == |names|
    requires forall k | 0 <= k < |fields| :: IsCalled(m, base, headers, heapBase, fields[k], names[k])
    ensures StillNames(setup, m, heapBase, fields) == NamesIn(names)
    decreases |fields|
  {
    hide ShowsZone, InterpretedName, FirstIndexed, StillAnswer, InMethod;
    if fields != [] {
      assert IsCalled(m, base, headers, heapBase, fields[0], names[0]);
      MethodsAreNamed(setup, m, base, headers, freeStart, heapBase, fields[1..], names[1..]);
      if 0 < fields[0] < heapBase {
        var i: nat :| i < |headers| && InMethod(base, headers, i, fields[0] + 0x28)
                      && names[0] == Some(headers[i].Name(m));
        IndexNamesMethod(setup, m, base, headers, freeStart, i, fields[0] + 0x28);
      }
    }
  }

  /** A whole chain of JIT frames and interpreted frames is named, in caller order, after
      the methods the frames run, whatever the symbolizer has looked up before; frames
      without a name are left out. */
  lemma ChainOfMethodsIsNamed(setup: Setup, m: Memory, base: nat, headers: seq<CogHeader>, freeStart: nat,
          watch: ChainWatch, fps: seq<nat>, heapBase: nat, z: Zone, names: seq<Option<string>>)
    requires ShowsZone(setup, m, base, headers, freeStart) && KnowsZone(setup, StillView(setup, m), z)
    requires setup.cogFrameSymbols.Some?
    requires IsChain(watch.links, 0, fps) && |fps| <= COG_FRAME_WALK_LIMIT && |names| == |fps|
    requires CopyUint(watch.globals(0), setup.cogFrameSymbols.value.framePointerAddr, 8) == Some(fps[0])
    requires CopyUint(watch.globals(1), setup.cogFrameSymbols.value.heapBaseAddr, 8) == Some(heapBase)
    requires forall k: nat :: watch.frames(k) == FrameWatch(Frozen(m), m)
    requires forall k | 0 <= k < |fps| ::
               IsCalled(m, base, headers, heapBase, MethodFields(watch.links, 0, fps)[k], names[k])
    ensures WalkCogFrames(setup, watch, z).names == NamesIn(names)
    ensures KnowsZone(setup, StillView(setup, m), WalkCogFrames(setup, watch, z).state)
  {
    WrittenZoneIsWalkedThrough(setup, m, base, headers, freeStart);
    hide ShowsZone, KnowsZone, CopyUint, IsCalled, WalkCogFrames, FrameNamer, WalksThrough, FirstIndexed,
      StillView;
    var fields := MethodFields(watch.links, 0, fps);
    WholeChainIsNamed(setup, watch, fps, heapBase, z);
    FramesAreNamed(setup, m, watch.frames, heapBase, 0, fields, z);
    MethodsAreNamed(setup, m, base, headers, freeStart, heapBase, fields, names);
  }

  /** The same from the bytes of the frames on. */
  lemma WrittenChainOfMethodsIsNamed(setup: Setup, m: Memory, base: nat, headers: seq<CogHeader>, freeStart: nat,
          watch: ChainWatch, fps: seq<nat>, fields: seq<nat>, end: nat, heapBase: nat, z: Zone,
          names: seq<Option<string>>)
    requires ShowsZone(setup, m, base, headers, freeStart) && KnowsZone(setup, StillView(setup, m), z)
    requires AreFrames(fps, fields, end) && HoldsGlobals(setup, watch.globals, fps[0], heapBase)
    requires forall r: nat | r < 2 * |fps| :: HoldsFrames(watch.links(r), fps, fields, end)
    requires forall k: nat :: watch.frames(k) == FrameWatch(Frozen(m), m)
    requires |names| == |FirstOf(fields, 200)|
    requires forall k | 0 <= k < |names| :: IsCalled(m, base, headers, heapBase, fields[k], names[k])
    ensures WalkCogFrames(setup, watch, z).names == NamesIn(names)
  {
    hide ShowsZone, KnowsZone, IsCalled, WalkCogFrames, FrameNamer, WalksThrough, StillView, HoldsFrames,
      HoldsGlobals, NameAll, StillNames, NamesIn, AreFrames;
    WrittenZoneIsWalkedThrough(setup, m, base, headers, freeStart);
    WrittenChainIsNamed(setup, watch, fps, fields, end, heapBase, z);
    FramesAreNamed(setup, m, watch.frames, heapBase, 0, FirstOf(fields, 200), z);
    MethodsAreNamed(setup, m, base, headers, freeStart, heapBase, FirstOf(fields, 200), names);
  }

  // ----- methods without code -----

  /** The name found forty bytes after the start of the i-th method when it ends there. */
  function NameAfter(setup: Setup, m: Memory, base: nat, headers: seq<CogHeader>, i: nat): Option<string>
    requires i < |headers|
  {
    if i + 1 < |headers| then Some(headers[i + 1].Name(m))
    else OutsideAnswer(setup, FirstIndexed(setup, StillView(setup, m)), ZoneEnd(base, headers))
  }

  /** The block goes on after its header: it has code, or is rounded up. */
  predicate ExceedsHeader(base: nat, headers: seq<CogHeader>, i: nat)
    requires i < |headers|
  {
    headers[i].blockSize > COG_METHOD_SIZE || MethodStart(base, headers, i) % 8 != 0
  }

  lemma RoundedEnd(start: nat, blockSize: nat)
    requires COG_METHOD_SIZE <= blockSize
    ensures var end := (start + blockSize + 7) / 8 * 8;
      && start + COG_METHOD_SIZE <= end
      && (start + COG_METHOD_SIZE < end <==> blockSize > COG_METHOD_SIZE || start % 8 != 0)
  {
  }

  /** Where a method ends, from where it starts. */
  lemma MethodEnds(setup: Setup, m: Memory, base: nat, headers: seq<CogHeader>, freeStart: nat, i: nat)
    requires ShowsZone(setup, m, base, headers, freeStart) && i < |headers|
    ensures var start := MethodStart(base, headers, i);
      && start + COG_METHOD_SIZE <= headers[i].End(start)
      && (start + COG_METHOD_SIZE < headers[i].End(start) <==> ExceedsHeader(base, headers, i))
  {
    assert headers[i].Valid();
    RoundedEnd(MethodStart(base, headers, i), headers[i].blockSize);
  }

  /** A JIT frame of the i-th method is named after that method if its block exceeds its
      header, and otherwise as what follows the block. */
  lemma JitFrameIsNamed(setup: Setup, m: Memory, base: nat, headers: seq<CogHeader>, freeStart: nat, z: Zone, i: nat,
          heapBase: nat)
    requires ShowsZone(setup, m, base, headers, freeStart) && KnowsZone(setup, StillView(setup, m), z) && i < |headers|
    requires 0 < MethodStart(base, headers, i) < heapBase
    ensures var start := MethodStart(base, headers, i);
      var name := ResolveFrameMethod(setup, FrameWatch(Frozen(m), m), z, start, heapBase).name;
      && name == (if ExceedsHeader(base, headers, i) then Some(headers[i].Name(m))
                  else NameAfter(setup, m, base, headers, i))
      && (name == Some(headers[i].Name(m)) <==>
            ExceedsHeader(base, headers, i) || NameAfter(setup, m, base, headers, i) == Some(headers[i].Name(m)))
  {
    var start := MethodStart(base, headers, i);
    WrittenZoneIsWalkedThrough(setup, m, base, headers, freeStart);
    hide WalksThrough;
    FrameIsNamed(setup, m, z, heapBase, start);
    NextStart(base, headers, i);
    MethodEnds(setup, m, base, headers, freeStart, i);
    hide ShowsZone, KnowsZone, ResolveFrameMethod, StillAnswer, OutsideAnswer, FirstIndexed, MethodStart, ZoneEnd,
      ExceedsHeader, CogHeader.End, CogHeader.Name;
    if ExceedsHeader(base, headers, i) {
      IndexNamesMethod(setup, m, base, headers, freeStart, i, start + COG_METHOD_SIZE);
    } else if i + 1 < |headers| {
      MethodEnds(setup, m, base, headers, freeStart, i + 1);
      IndexNamesMethod(setup, m, base, headers, freeStart, i + 1, start + COG_METHOD_SIZE);
    } else {
      EndIsOutside(setup, m, base, headers, freeStart);
    }
  }

  // A method of nothing but its header, the inline cache after it, and their selector.
  const BARE: CogHeader := CogHeader(0, 0x500, 0x28, 0, 0, 0, 0)
  const AFTER_BARE: CogHeader := CogHeader(0, 0x200, 0x30, 0, 0, 0, 0x20000)
  const BARE_ZONE_SETUP: Setup := Setup([], Some(MethodZoneSymbols(0x30000, 0x30008)), [], None)

  function SelectorBytes(): (bytes: seq<Byte>)
    ensures |bytes| == 11
  {
    EncodeByteObject("at:", [0, 0, 0, 0, 0, 0], 0)
  }

  function BareObjects(): seq<Placed> {
    [
      Placed(0x10000, BARE.Encode()),
      Placed(0x10028, AFTER_BARE.Encode()),
      Placed(0x20000, SelectorBytes()),
      Placed(0x30000, ToLittleEndian(0x10000, 8)),
      Placed(0x30008, ToLittleEndian(0x10058, 8))
    ]
  }

  function BareZone(): Memory {
    WriteAll(BareObjects())
  }

  lemma BareZoneHolds()
    ensures PlacedAt(BareZone(), 0x10000, BARE.Encode()) && PlacedAt(BareZone(), 0x10028, AFTER_BARE.Encode())
    ensures PlacedAt(BareZone(), 0x20000, SelectorBytes())
    ensures PlacedAt(BareZone(), 0x30000, ToLittleEndian(0x10000, 8))
    ensures PlacedAt(BareZone(), 0x30008, ToLittleEndian(0x10058, 8))
  {
    hide PlacedAt, CogHeader.Encode, SelectorBytes, ToLittleEndian, WriteAll;
    var items := BareObjects();
    assert Ascending(items) by {
      assert |SelectorBytes()| == 11;
    }
    AllArePlaced(items);
    assert items[0] == Placed(0x10000, BARE.Encode()) && items[1] == Placed(0x10028, AFTER_BARE.Encode());
    assert items[2] == Placed(0x20000, SelectorBytes());
    assert items[3] == Placed(0x30000, ToLittleEndian(0x10000, 8));
    assert items[4] == Placed(0x30008, ToLittleEndian(0x10058, 8));
  }

  lemma BareZoneIsShown()
    ensures ShowsZone(BARE_ZONE_SETUP, BareZone(), 0x10000, [BARE, AFTER_BARE], 0x10058)
  {
    BareZoneHolds();
    hide PlacedAt, CogHeader.Encode, ToLittleEndian, BareZone, CopyUint;
    FieldAt(BareZone(), 0x30000, ToLittleEndian(0x10000, 8), 0, 0x10000, 8);
    FieldAt(BareZone(), 0x30008, ToLittleEndian(0x10058, 8), 0, 0x10058, 8);
    assert [BARE, AFTER_BARE][1..] == [AFTER_BARE] && [AFTER_BARE][1..] == [];
    assert BARE.End(0x10000) == 0x10028 && AFTER_BARE.End(0x10028) == 0x10058;
    assert LaidOut(BareZone(), 0x10028, [AFTER_BARE]) && ZoneEnd(0x10028, [AFTER_BARE]) == 0x10058;
    assert LaidOut(BareZone(), 0x10000, [BARE, AFTER_BARE]) && ZoneEnd(0x10000, [BARE, AFTER_BARE]) == 0x10058;
  }

  /** Without a selector and a method object there is no name. */
  lemma BareHasNoName(m: Memory)
    ensures BARE.Name(m) == GENERIC_NAME
  {
    hide NameWith;
    assert ReadSelector(m, 0).None? && !IsCompiledMethod(m, 0);
  }

  lemma SelectorIsText()
    ensures EncodesText(BareZone(), 0x20000, "at:", [0, 0, 0, 0, 0, 0], 0)
  {
    BareZoneHolds();
    hide BareZone, PlacedAt, CogHeader.Encode, ToLittleEndian, EncodeByteObject;
    assert IsPrintable("at:");
  }

  lemma BareNames()
    ensures BARE.Name(BareZone()) == GENERIC_NAME
    ensures AFTER_BARE.Name(BareZone()) == "JIT closed PIC>>" + "at:"
  {
    BareHasNoName(BareZone());
    SelectorIsText();
    assert LooksLikeSelector("at:");
    hide BareZone, EncodesText, CogHeader.Name, LooksLikeSelector, ClassNameOfMethod;
    HeaderSelectorIsUsed(BareZone(), AFTER_BARE, "at:", [0, 0, 0, 0, 0, 0], 0);
  }

  /** A frame of the bare method at 0x10000 is shown as the inline cache behind it. */
  lemma BareMethodIsMisnamed()
    ensures var frame := FrameWatch(Frozen(BareZone()), BareZone());
      ResolveFrameMethod(BARE_ZONE_SETUP, frame, FRESH, 0x10000, 0x40000).name == Some("JIT closed PIC>>" + "at:")
    ensures BARE.Name(BareZone()) == "JIT frame"
  {
    BareZoneIsShown();
    BareNames();
    hide ShowsZone, ResolveFrameMethod, BareZone, CogHeader.Name;
    assert [BARE, AFTER_BARE][..0] == [];
    JitFrameIsNamed(BARE_ZONE_SETUP, BareZone(), 0x10000, [BARE, AFTER_BARE], 0x10058, FRESH, 0, 0x40000);
  }
}
