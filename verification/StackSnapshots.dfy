/** Unwinding against a copy of the stack: what is copied while the process is
    stopped, and what a walk over the copy can see. */
module StackSnapshots {
  import opened Wrappers
  import opened TargetMemory

  const STACK_COPY_WINDOW: nat := 128 * 1024

  datatype Registers = Registers(rip: nat, rsp: nat, rbp: nat)

  datatype AddressRange = AddressRange(start: nat, end: nat)

  datatype StackSnapshot = StackSnapshot(regs: Registers, stack: seq<Byte>, stackBase: nat)

  /** The end of the first writable mapping that contains the address. */
  function StackTopFor(ranges: seq<AddressRange>, addr: nat): Option<nat> {
    if ranges == [] then None
    else if ranges[0].start <= addr < ranges[0].end then Some(ranges[0].end)
    else StackTopFor(ranges[1..], addr)
  }

  function Min(a: nat, b: nat): nat {
    if a < b then a else b
  }

  lemma TopIsAbove(ranges: seq<AddressRange>, addr: nat)
    ensures StackTopFor(ranges, addr).Some? ==> addr < StackTopFor(ranges, addr).value
  {
  }

  /** The first mapping that contains the address. */
  predicate IsFirstMapOf(ranges: seq<AddressRange>, addr: nat, i: nat) {
    && i < |ranges| && ranges[i].start <= addr < ranges[i].end
    && forall j | 0 <= j < i :: !(ranges[j].start <= addr < ranges[j].end)
  }

  lemma {:induction false} StackTopIsOfFirstMap(ranges: seq<AddressRange>, addr: nat)
    ensures forall i: nat | IsFirstMapOf(ranges, addr, i) :: StackTopFor(ranges, addr) == Some(ranges[i].end)
    ensures (forall i: nat :: !IsFirstMapOf(ranges, addr, i)) ==> StackTopFor(ranges, addr) == None
  {
    if ranges == [] {
    } else if ranges[0].start <= addr < ranges[0].end {
      assert IsFirstMapOf(ranges, addr, 0);
    } else {
      StackTopIsOfFirstMap(ranges[1..], addr);
      forall i: nat | IsFirstMapOf(ranges, addr, i)
        ensures i > 0 && IsFirstMapOf(ranges[1..], addr, i - 1) && ranges[1..][i - 1] == ranges[i]
      {
        assert forall j | 0 <= j < i - 1 :: ranges[1..][j] == ranges[j + 1];
      }
      forall i: nat | IsFirstMapOf(ranges[1..], addr, i) ensures IsFirstMapOf(ranges, addr, i + 1) {
        assert forall j | 0 < j <= i :: ranges[j] == ranges[1..][j - 1];
      }
    }
  }

  function CopyTop(ranges: seq<AddressRange>, rsp: nat): (top: nat)
    ensures rsp <= top <= rsp + 131072
    ensures forall mapTop :: StackTopFor(ranges, rsp) == Some(mapTop) ==> top <= mapTop
    ensures top == rsp + 131072 || StackTopFor(ranges, rsp) == Some(top)
  {
    var mapTop := StackTopFor(ranges, rsp);
    TopIsAbove(ranges, rsp);
    if mapTop.Some? then Min(rsp + STACK_COPY_WINDOW, mapTop.value) else rsp + STACK_COPY_WINDOW
  }

  /** Phase A, while the process is stopped with memory `m`. */
  function Capture(m: Memory, ranges: seq<AddressRange>, regs: Registers): Option<StackSnapshot> {
    var stack :- CopyBytes(m, regs.rsp, CopyTop(ranges, regs.rsp) - regs.rsp);
    Some(StackSnapshot(regs, stack, regs.rsp))
  }

  /** A word of the copy. */
  function ReadStack(snap: StackSnapshot, addr: nat): Option<nat> {
    if addr < snap.stackBase then None
    else
      var off := addr - snap.stackBase;
      if off + 8 <= |snap.stack| then Some(FromLittleEndian(snap.stack[off..off + 8])) else None
  }

  /** The copy answers with the memory at the instant of capture inside the window,
      and not at all outside. */
  lemma CopyIsMemoryInWindow(m: Memory, ranges: seq<AddressRange>, regs: Registers, addr: nat)
    requires Capture(m, ranges, regs).Some?
    ensures ReadStack(Capture(m, ranges, regs).value, addr)
            == if regs.rsp <= addr && addr + 8 <= CopyTop(ranges, regs.rsp) then CopyUint(m, addr, 8) else None
  {
    var snap := Capture(m, ranges, regs).value;
    if regs.rsp <= addr && addr + 8 <= CopyTop(ranges, regs.rsp) {
      CopyPlaced(m, regs.rsp, snap.stack, addr - regs.rsp, 8);
    }
  }

  /** The copy is taken exactly if all of the window can be read: 128 kilobytes from the
      stack pointer on, cut at the end of the mapping it is in. */
  lemma CapturedExactly(m: Memory, ranges: seq<AddressRange>, regs: Registers, i: nat)
    ensures var whole := regs.rsp + 0x2_0000;
      && (IsFirstMapOf(ranges, regs.rsp, i) ==>
            var top := if ranges[i].end < whole then ranges[i].end else whole;
            Capture(m, ranges, regs).Some? <==> forall a | regs.rsp <= a < top :: a in m)
      && ((forall j: nat :: !IsFirstMapOf(ranges, regs.rsp, j)) ==>
            (Capture(m, ranges, regs).Some? <==> forall a | regs.rsp <= a < whole :: a in m))
      && (Capture(m, ranges, regs).Some? ==>
            Capture(m, ranges, regs).value.regs == regs && Capture(m, ranges, regs).value.stackBase == regs.rsp)
  {
    StackTopIsOfFirstMap(ranges, regs.rsp);
    hide StackTopFor, IsFirstMapOf;
  }

  predicate AgreeOn(m: Memory, other: Memory, lo: nat, hi: nat) {
    forall a | lo <= a < hi :: (a in m <==> a in other) && (a in m && a in other ==> m[a] == other[a])
  }

  /** Only the registers and the bytes of the window go into a snapshot. */
  lemma OnlyTheWindowMatters(m: Memory, other: Memory, ranges: seq<AddressRange>, regs: Registers)
    requires AgreeOn(m, other, regs.rsp, CopyTop(ranges, regs.rsp))
    ensures Capture(m, ranges, regs) == Capture(other, ranges, regs)
  {
    var n := CopyTop(ranges, regs.rsp) - regs.rsp;
    assert Readable(m, regs.rsp, n) <==> Readable(other, regs.rsp, n);
    if Readable(m, regs.rsp, n) {
      var a, b := CopyBytes(m, regs.rsp, n).value, CopyBytes(other, regs.rsp, n).value;
      assert forall i | 0 <= i < n :: a[i] == m[regs.rsp + i] == other[regs.rsp + i] == b[i];
      assert a == b;
    }
  }

  // ----- walkers -----

  /** A deterministic unwinder of an unseen library: in each state it asks for a
      word of the stack, yields a frame, or stops; it has no other input. */
  datatype Action<!S> = Read(addr: nat, continue_: nat -> S) | Yield(addr: nat, next: S) | Stop

  type Walker<!S> = S -> Action<S>

  type Reader = nat -> Option<nat>

  /** The frames yielded in at most `steps` steps; a failed read ends the walk. */
  function Frames<S>(walker: Walker<S>, s: S, read: Reader, steps: nat): seq<nat> {
    if steps == 0 then []
    else match walker(s)
      case Stop => []
      case Yield(addr, next) => [addr] + Frames(walker, next, read, steps - 1)
      case Read(addr, continue_) =>
        var word := read(addr);
        if word.None? then [] else Frames(walker, continue_(word.value), read, steps - 1)
  }

  ghost predicate SeesLess(partial: Reader, full: Reader) {
    forall addr: nat :: partial(addr).Some? ==> full(addr) == partial(addr)
  }

  /** Seeing less of the stack can only cut the walk short. */
  lemma {:induction false} LessStackIsPrefix<S>(walker: Walker<S>, s: S, partial: Reader, full: Reader, steps: nat)
    requires SeesLess(partial, full)
    ensures Frames(walker, s, partial, steps) <= Frames(walker, s, full, steps)
    decreases steps
  {
    if steps > 0 {
      match walker(s)
      case Stop =>
      case Yield(addr, next) =>
        LessStackIsPrefix(walker, next, partial, full, steps - 1);
      case Read(addr, continue_) =>
        if partial(addr).Some? {
          LessStackIsPrefix(walker, continue_(partial(addr).value), partial, full, steps - 1);
        }
    }
  }

  /** The walk stays in the part of the stack that was copied. */
  predicate StaysIn<S>(walker: Walker<S>, s: S, partial: Reader, full: Reader, steps: nat) {
    if steps == 0 then true
    else match walker(s)
      case Stop => true
      case Yield(addr, next) => StaysIn(walker, next, partial, full, steps - 1)
      case Read(addr, continue_) =>
        || full(addr).None?
        || (partial(addr).Some? && StaysIn(walker, continue_(full(addr).value), partial, full, steps - 1))
  }

  lemma {:induction false} EnoughStackIsAll<S>(walker: Walker<S>, s: S, partial: Reader, full: Reader, steps: nat)
    requires SeesLess(partial, full) && StaysIn(walker, s, partial, full, steps)
    ensures Frames(walker, s, partial, steps) == Frames(walker, s, full, steps)
    decreases steps
  {
    if steps > 0 {
      match walker(s)
      case Stop =>
      case Yield(addr, next) =>
        EnoughStackIsAll(walker, next, partial, full, steps - 1);
      case Read(addr, continue_) =>
        if full(addr).Some? {
          EnoughStackIsAll(walker, continue_(full(addr).value), partial, full, steps - 1);
        }
    }
  }

  function CopyReader(snap: StackSnapshot): Reader {
    (addr: nat) => ReadStack(snap, addr)
  }

  /** Reading the stopped process itself. */
  function LiveReader(m: Memory): Reader {
    (addr: nat) => CopyUint(m, addr, 8)
  }

  /** Phase B. */
  function Unwound<S>(walker: Walker<S>, start: Registers -> S, snap: StackSnapshot, steps: nat): seq<nat> {
    Frames(walker, start(snap.regs), CopyReader(snap), steps)
  }

  /** What phase B unwinds after the process has resumed, with any memory by then,
      is a prefix of what a walk of the stopped process would have found: all of
      it when that walk stays in the copied window.  Two processes stopped with the
      same registers and window are unwound alike. */
  lemma SnapshotIsolation<S>(walker: Walker<S>, start: Registers -> S, m: Memory, other: Memory,
                             ranges: seq<AddressRange>, regs: Registers, steps: nat)
    requires Capture(m, ranges, regs).Some?
    requires AgreeOn(m, other, regs.rsp, CopyTop(ranges, regs.rsp))
    ensures Capture(other, ranges, regs).Some?
    ensures var frames := Unwound(walker, start, Capture(m, ranges, regs).value, steps);
      && frames == Unwound(walker, start, Capture(other, ranges, regs).value, steps)
      && frames <= Frames(walker, start(regs), LiveReader(m), steps)
      && (StaysIn(walker, start(regs), CopyReader(Capture(m, ranges, regs).value), LiveReader(m), steps) ==>
            frames == Frames(walker, start(regs), LiveReader(m), steps))
  {
    OnlyTheWindowMatters(m, other, ranges, regs);
    var snap := Capture(m, ranges, regs).value;
    forall addr: nat ensures CopyReader(snap)(addr).Some? ==> LiveReader(m)(addr) == CopyReader(snap)(addr) {
      CopyIsMemoryInWindow(m, ranges, regs, addr);
    }
    LessStackIsPrefix(walker, start(regs), CopyReader(snap), LiveReader(m), steps);
    if StaysIn(walker, start(regs), CopyReader(snap), LiveReader(m), steps) {
      EnoughStackIsAll(walker, start(regs), CopyReader(snap), LiveReader(m), steps);
    }
  }

  // ----- an unwinder that follows frame pointers -----

  /** At an address to yield; reading the return address of a frame; reading its caller. */
  datatype FpState = AtAddress(pc: nat, fp: nat) | AtReturn(fp: nat) | AtCaller(fp: nat, ret: nat)

  function FramePointerStep(s: FpState): Action<FpState> {
    match s
    case AtAddress(pc, fp) => Yield(pc, AtReturn(fp))
    case AtReturn(fp) => if fp == 0 then Stop else Read(fp + 8, (ret: nat) => AtCaller(fp, ret))
    case AtCaller(fp, ret) => Read(fp, (caller: nat) => AtAddress(ret, caller))
  }

  predicate FrameAt(read: Reader, fp: nat, ret: nat, caller: nat) {
    fp != 0 && read(fp + 8) == Some(ret) && read(fp) == Some(caller)
  }

  function FrameAfter(fps: seq<nat>, j: nat): nat {
    if j + 1 < |fps| then fps[j + 1] else 0
  }

  /** The frames at `fps`, linked from the first to the last, return to `rets`. */
  predicate LinkedFrames(read: Reader, fps: seq<nat>, rets: seq<nat>) {
    && |fps| == |rets|
    && forall j | 0 <= j < |fps| :: FrameAt(read, fps[j], rets[j], FrameAfter(fps, j))
  }

  lemma OneFrameIsWalked(read: Reader, pc: nat, fp: nat, ret: nat, caller: nat, steps: nat)
    requires FrameAt(read, fp, ret, caller) && steps >= 3
    ensures Frames(FramePointerStep, AtAddress(pc, fp), read, steps)
            == [pc] + Frames(FramePointerStep, AtAddress(ret, caller), read, steps - 3)
  {
    assert Frames(FramePointerStep, AtCaller(fp, ret), read, steps - 2)
        == Frames(FramePointerStep, AtAddress(ret, caller), read, steps - 3);
    assert Frames(FramePointerStep, AtReturn(fp), read, steps - 1)
        == Frames(FramePointerStep, AtCaller(fp, ret), read, steps - 2);
  }

  lemma LastFrameIsWalked(read: Reader, pc: nat, steps: nat)
    requires steps >= 1
    ensures Frames(FramePointerStep, AtAddress(pc, 0), read, steps) == [pc]
  {
    assert Frames(FramePointerStep, AtReturn(0), read, steps - 1) == [];
  }

  lemma {:induction false} LinkedFramesAreWalked(read: Reader, pc: nat, fps: seq<nat>, rets: seq<nat>, steps: nat)
    requires LinkedFrames(read, fps, rets) && steps > 3 * |fps|
    ensures var fp := if fps == [] then 0 else fps[0];
      Frames(FramePointerStep, AtAddress(pc, fp), read, steps) == [pc] + rets
    decreases |fps|
  {
    hide Frames, FrameAt;
    if fps == [] {
      LastFrameIsWalked(read, pc, steps);
    } else {
      forall j | 0 <= j < |fps| - 1 ensures FrameAt(read, fps[1..][j], rets[1..][j], FrameAfter(fps[1..], j)) {
        assert FrameAt(read, fps[j + 1], rets[j + 1], FrameAfter(fps, j + 1));
      }
      LinkedFramesAreWalked(read, rets[0], fps[1..], rets[1..], steps - 3);
      OneFrameIsWalked(read, pc, fps[0], rets[0], FrameAfter(fps, 0), steps);
      assert rets == [rets[0]] + rets[1..];
    }
  }

  /** Frames that lie in the copied window of a stopped process are unwound from the
      copy without loss: the program counter, then every return address. */
  lemma CopiedFramesAreUnwound(m: Memory, ranges: seq<AddressRange>, regs: Registers, fps: seq<nat>,
          rets: seq<nat>, steps: nat)
    requires Capture(m, ranges, regs).Some? && steps > 3 * |fps|
    requires LinkedFrames(LiveReader(m), fps, rets)
    requires regs.rbp == if fps == [] then 0 else fps[0]
    requires forall j | 0 <= j < |fps| :: regs.rsp <= fps[j] && fps[j] + 16 <= CopyTop(ranges, regs.rsp)
    ensures Unwound(FramePointerStep, (r: Registers) => AtAddress(r.rip, r.rbp), Capture(m, ranges, regs).value, steps)
            == [regs.rip] + rets
  {
    var snap := Capture(m, ranges, regs).value;
    forall j | 0 <= j < |fps| ensures FrameAt(CopyReader(snap), fps[j], rets[j], FrameAfter(fps, j)) {
      assert FrameAt(LiveReader(m), fps[j], rets[j], FrameAfter(fps, j));
      CopyIsMemoryInWindow(m, ranges, regs, fps[j] + 8);
      CopyIsMemoryInWindow(m, ranges, regs, fps[j]);
    }
    LinkedFramesAreWalked(CopyReader(snap), regs.rip, fps, rets, steps);
  }

  // ----- polling an unwinder -----

  /** The unwinder ends its walk within so many steps. */
  predicate WalkEnds<S>(walker: Walker<S>, s: S, read: Reader, steps: nat) {
    steps > 0 &&
    match walker(s)
      case Stop => true
      case Yield(addr, next) => WalkEnds(walker, next, read, steps - 1)
      case Read(addr, continue_) =>
        var word := read(addr);
        word.None? || WalkEnds(walker, continue_(word.value), read, steps - 1)
  }

  /** What a walk that ends yields does not depend on how long one waits for it. */
  lemma {:induction false} EndedWalkIsWhole<S>(walker: Walker<S>, s: S, read: Reader, steps: nat, more: nat)
    requires WalkEnds(walker, s, read, steps) && steps <= more
    ensures Frames(walker, s, read, more) == Frames(walker, s, read, steps)
    decreases steps
  {
    match walker(s)
    case Stop =>
    case Yield(addr, next) =>
      EndedWalkIsWhole(walker, next, read, steps - 1, more - 1);
    case Read(addr, continue_) =>
      if read(addr).Some? {
        EndedWalkIsWhole(walker, continue_(read(addr).value), read, steps - 1, more - 1);
      }
  }

  /** The loop that polls the unwinder until it ends; `steps` only says that it does. */
  method UnwindSnapshot<S>(walker: Walker<S>, start: Registers -> S, snap: StackSnapshot,
          ghost steps: nat) returns (addrs: seq<nat>)
    requires WalkEnds(walker, start(snap.regs), CopyReader(snap), steps)
    ensures forall more: nat | steps <= more :: addrs == Unwound(walker, start, snap, more)
  {
    hide ReadStack;
    addrs := [];
    var s, polling := start(snap.regs), true;
    ghost var left := steps;
    while polling
      invariant polling ==> WalkEnds(walker, s, CopyReader(snap), left)
      invariant polling ==> addrs + Frames(walker, s, CopyReader(snap), left) == Unwound(walker, start, snap, steps)
      invariant !polling ==> addrs == Unwound(walker, start, snap, steps)
      decreases polling, left
    {
      match walker(s) {
        case Stop =>
          polling := false;
        case Yield(addr, next) =>
          assert addrs + ([addr] + Frames(walker, next, CopyReader(snap), left - 1))
              == addrs + [addr] + Frames(walker, next, CopyReader(snap), left - 1);
          addrs := addrs + [addr];
          s, left := next, left - 1;
        case Read(addr, continue_) =>
          var word := ReadStack(snap, addr);
          assert word == CopyReader(snap)(addr);
          if word.None? {
            polling := false;
          } else {
            s, left := continue_(word.value), left - 1;
          }
      }
    }
    forall more: nat | steps <= more ensures addrs == Unwound(walker, start, snap, more) {
      EndedWalkIsWhole(walker, start(snap.regs), CopyReader(snap), steps, more);
    }
  }
}
