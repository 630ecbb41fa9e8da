/** From the addresses of one thread to its finished stack: symbolization, the
    Smalltalk pass over unresolved addresses, stitching and trimming. */
module SmalltalkSpy {
  import opened Wrappers
  import opened TargetMemory
  import opened StackTraces
  import opened CogMethods
  import opened MethodZone
  import opened Observations
  import opened StillProcess
  import opened ZoneLayout
  import opened StackStitching
  import opened NativeSymbols
  import opened Symbolizer

  /** How a file name is shortened; the source remembers its answers. */
  type Shorten = string -> Option<string>

  /** The address an unresolved native frame stands for. */
  function UnresolvedAddress(frame: Frame): Option<nat> {
    if frame.filename == "?" then ParseHexAddress(frame.name) else None
  }

  function Renamed(frame: Frame, name: Option<string>, shorten: Shorten): Frame {
    var f := if name.Some? then frame.(name := name.value, filename := SMALLTALK, module_ := Some("Squeak")) else frame;
    f.(shortFilename := shorten(f.filename))
  }

  datatype Passed = Passed(frames: seq<Frame>, zone: Zone)

  /** What looking up the address of one frame gives. */
  function LookupFrame(setup: Setup, watch: Watch, z: Zone, frame: Frame): Resolution {
    var addr := UnresolvedAddress(frame);
    if addr.None? then Resolution(None, z) else Resolve(setup, Observe(setup, watch), z, addr.value)
  }

  /** The Smalltalk pass: frame i is looked up while the process shows `watches(i)`. */
  function SmalltalkPass(setup: Setup, watches: nat -> Watch, z: Zone, frames: seq<Frame>,
          shorten: Shorten): (r: Passed)
    ensures |r.frames| == |frames|
  {
    if frames == [] then Passed([], z)
    else
      var n := |frames| - 1;
      var before := SmalltalkPass(setup, watches, z, frames[..n], shorten);
      var r := LookupFrame(setup, watches(n), before.zone, frames[n]);
      Passed(before.frames + [Renamed(frames[n], r.name, shorten)], r.zone)
  }

  /** From the frames named in the pass to the finished stack: stitched if it can be, and
      with native roots hidden cut after its last method, if it has one. */
  ghost predicate IsFinished(frames: seq<Frame>, cog: seq<string>, short: Option<string>, hideNativeRoots: bool,
          finished: seq<Frame>)
  {
    exists stitched: seq<Frame> ::
      && finished <= stitched
      && (if SplicePoint(frames).None? || cog == [] then stitched == frames
          else IsSpliced(frames, cog, short, stitched))
      && if !hideNativeRoots || !HasMethod(stitched) then finished == stitched
         else
           && finished != [] && IsSmalltalkMethod(finished[|finished| - 1])
           && forall i | |finished| <= i < |stitched| :: !IsSmalltalkMethod(stitched[i])
  }

  lemma StitchedIsFinished(frames: seq<Frame>, cog: seq<string>, short: Option<string>, hideNativeRoots: bool)
    ensures var stitched := Stitched(frames, cog, short);
      IsFinished(frames, cog, short, hideNativeRoots, if hideNativeRoots then Trimmed(stitched) else stitched)
  {
    hide Stitched, Trimmed, IsSpliced, SplicePoint, IsSmalltalkMethod;
    StitchedShape(frames, cog, short);
    TrimmedShape(Stitched(frames, cog, short));
  }

  /** So there is only one finished stack. */
  lemma FinishedIsDetermined(frames: seq<Frame>, cog: seq<string>, short: Option<string>, hideNativeRoots: bool,
          finished: seq<Frame>, other: seq<Frame>)
    requires IsFinished(frames, cog, short, hideNativeRoots, finished)
    requires IsFinished(frames, cog, short, hideNativeRoots, other)
    ensures finished == other
  {
    hide Stitched, IsSpliced, SplicePoint, IsSmalltalkMethod;
    if SplicePoint(frames).Some? && cog != [] {
      forall r | IsSpliced(frames, cog, short, r) ensures r == Stitched(frames, cog, short) {
        SplicedIsDetermined(frames, cog, short, r);
      }
    }
  }

  /** The pass keeps every frame in its place: a frame that is not an unresolved
      address keeps its name and file, and one that is becomes a Smalltalk frame
      under the name found for it or stays as it was. */
  lemma {:induction false} PassKeepsFrames(setup: Setup, watches: nat -> Watch, z: Zone, frames: seq<Frame>,
          shorten: Shorten, i: nat)
    requires i < |frames|
    ensures var r := SmalltalkPass(setup, watches, z, frames, shorten).frames[i];
      && r.line == frames[i].line && r.shortFilename == shorten(r.filename)
      && (r.filename != frames[i].filename ==>
            frames[i].filename == "?" && ParseHexAddress(frames[i].name).Some? && r.filename == "Smalltalk")
      && (r.filename == frames[i].filename ==> r.name == frames[i].name && r.module_ == frames[i].module_)
  {
    hide Resolve, Observe, ParseHexAddress;
    var n := |frames| - 1;
    if i < n {
      PassKeepsFrames(setup, watches, z, frames[..n], shorten, i);
    } else {
      assert frames[i].filename == SMALLTALK ==> UnresolvedAddress(frames[i]).None?;
    }
  }

  // ----- stacks of a still process -----

  function StillWatches(m: Memory): nat -> Watch {
    (_: nat) => Frozen(m)
  }

  /** What a frame is called after the pass. */
  function StillNameOf(setup: Setup, m: Memory, frame: Frame): Option<string> {
    var addr := UnresolvedAddress(frame);
    if addr.None? then None else StillAnswer(setup, FirstIndexed(setup, StillView(setup, m)), addr.value)
  }

  lemma FrameIsLookedUp(setup: Setup, m: Memory, z: Zone, frame: Frame)
    requires WalksThrough(StillView(setup, m)) && KnowsZone(setup, StillView(setup, m), z)
    ensures var r := LookupFrame(setup, Frozen(m), z, frame);
      r.name == StillNameOf(setup, m, frame) && KnowsZone(setup, StillView(setup, m), r.zone)
  {
    hide Resolve, WalksThrough, KnowsZone, StillAnswer, Observe, UnresolvedAddress, FirstIndexed, Credible;
    if UnresolvedAddress(frame).Some? {
      ObservationIsCredible(setup, Frozen(m));
      StillProcessAnswersAlike(setup, StillView(setup, m), z, UnresolvedAddress(frame).value);
    }
  }

  lemma PassOneMore(setup: Setup, watches: nat -> Watch, z: Zone, front: seq<Frame>, last: Frame, shorten: Shorten)
    ensures var before := SmalltalkPass(setup, watches, z, front, shorten);
      var r := LookupFrame(setup, watches(|front|), before.zone, last);
      SmalltalkPass(setup, watches, z, front + [last], shorten)
      == Passed(before.frames + [Renamed(last, r.name, shorten)], r.zone)
  {
    hide LookupFrame, Renamed;
    assert (front + [last])[..|front|] == front;
  }

  /** In a still process every frame of a stack is named on its own, whatever other
      frames and other stacks have been named before. */
  lemma {:induction false} PassNamesEachFrame(setup: Setup, m: Memory, z: Zone, frames: seq<Frame>, shorten: Shorten)
    requires WalksThrough(StillView(setup, m)) && KnowsZone(setup, StillView(setup, m), z)
    ensures var pass := SmalltalkPass(setup, StillWatches(m), z, frames, shorten);
      && KnowsZone(setup, StillView(setup, m), pass.zone)
      && forall k | 0 <= k < |frames| ::
           pass.frames[k] == Renamed(frames[k], StillNameOf(setup, m, frames[k]), shorten)
  {
    hide WalksThrough, KnowsZone, LookupFrame, StillNameOf, Renamed;
    if frames != [] {
      hide SmalltalkPass;
      var front, last := frames[..|frames| - 1], frames[|frames| - 1];
      PassNamesEachFrame(setup, m, z, front, shorten);
      PassOneMore(setup, StillWatches(m), z, front, last, shorten);
      assert frames == front + [last];
      FrameIsLookedUp(setup, m, SmalltalkPass(setup, StillWatches(m), z, front, shorten).zone, last);
    }
  }

  /** A frame with the name of a written method. */
  function MethodFrame(m: Memory, header: CogHeader, shorten: Shorten): Frame {
    Frame(header.Name(m), SMALLTALK, Some("Squeak"), shorten(SMALLTALK), 0)
  }

  /** The native symbolicator knows nothing of the address, and it is in the i-th method. */
  predicate IsCodeOf(symbolicate: Symbolicator, base: nat, headers: seq<CogHeader>, i: nat, pc: nat) {
    && pc <= U64_MAX && symbolicate(pc).frames == [] && symbolicate(pc).error.Some?
    && InMethod(base, headers, i, pc)
  }

  lemma CodeIsOneFrame(symbolicate: Symbolicator, translate: Translator, base: nat, headers: seq<CogHeader>, i: nat,
          pc: nat)
    requires IsCodeOf(symbolicate, base, headers, i, pc)
    ensures Fresh(symbolicate, translate, pc) == [AddressFrame(pc)] && UnresolvedAddress(AddressFrame(pc)) == Some(pc)
    ensures FreshAll(symbolicate, translate, [pc]) == [AddressFrame(pc)]
  {
    UnknownAddressReachesSmalltalkPass(symbolicate, translate, pc);
    assert Translated(translate, []) == [];
    hide ParseHexAddress;
    assert [pc][..0] == [];
    assert FreshAll(symbolicate, translate, []) == [];
  }

  /** From an address anywhere on a stack to a method name: an address inside the i-th
      method of the zone, of which the native symbolicator knows nothing, is shown as
      a Smalltalk frame with the name of that method, whatever is above or below it
      and whatever has been looked up before. */
  lemma AddressBecomesMethodName(setup: Setup, m: Memory, base: nat, headers: seq<CogHeader>, freeStart: nat,
          z: Zone, above: seq<nat>, pc: nat, below: seq<nat>, i: nat,
          symbolicate: Symbolicator, translate: Translator, shorten: Shorten)
    requires ShowsZone(setup, m, base, headers, freeStart) && KnowsZone(setup, StillView(setup, m), z)
    requires IsCodeOf(symbolicate, base, headers, i, pc)
    ensures var native := FreshAll(symbolicate, translate, above + [pc] + below);
      var k := |FreshAll(symbolicate, translate, above)|;
      && k < |native|
      && SmalltalkPass(setup, StillWatches(m), z, native, shorten).frames[k]
         == MethodFrame(m, headers[i], shorten)
  {
    WrittenZoneIsWalkedThrough(setup, m, base, headers, freeStart);
    hide ShowsZone, KnowsZone, FreshAll, StillAnswer, FirstIndexed, ParseHexAddress, WalksThrough,
      StillView;
    var native := FreshAll(symbolicate, translate, above + [pc] + below);
    FreshInParts(symbolicate, translate, above + [pc], below);
    FreshInParts(symbolicate, translate, above, [pc]);
    CodeIsOneFrame(symbolicate, translate, base, headers, i, pc);
    var k := |FreshAll(symbolicate, translate, above)|;
    assert native[k] == AddressFrame(pc);
    PassNamesEachFrame(setup, m, z, native, shorten);
    IndexNamesMethod(setup, m, base, headers, freeStart, i, pc);
    hide SmalltalkPass;
    assert StillNameOf(setup, m, native[k]) == Some(headers[i].Name(m));
  }

  /** Address k is code of method number `methods[k]`. */
  predicate AreCodeOf(symbolicate: Symbolicator, base: nat, headers: seq<CogHeader>, methods: seq<nat>,
          addrs: seq<nat>)
  {
    && |methods| == |addrs|
    && (forall k | 0 <= k < |addrs| :: methods[k] < |headers|)
    && forall k | 0 <= k < |addrs| :: IsCodeOf(symbolicate, base, headers, methods[k], addrs[k])
  }

  lemma AreCodeOfFewer(symbolicate: Symbolicator, base: nat, headers: seq<CogHeader>, methods: seq<nat>,
          addrs: seq<nat>, n: nat)
    requires AreCodeOf(symbolicate, base, headers, methods, addrs) && n <= |addrs|
    ensures AreCodeOf(symbolicate, base, headers, methods[..n], addrs[..n])
  {
    hide IsCodeOf;
    assert forall k | 0 <= k < n :: IsCodeOf(symbolicate, base, headers, methods[k], addrs[k]);
  }

  lemma {:induction false} CodeIsFramePerAddress(symbolicate: Symbolicator, translate: Translator, base: nat,
          headers: seq<CogHeader>, methods: seq<nat>, addrs: seq<nat>)
    requires AreCodeOf(symbolicate, base, headers, methods, addrs)
    ensures |FreshAll(symbolicate, translate, addrs)| == |addrs|
  {
    hide FreshAll, Fresh;
    if addrs == [] {
      NothingIsFresh(symbolicate, translate);
    } else {
      var n := |addrs| - 1;
      assert IsCodeOf(symbolicate, base, headers, methods[n], addrs[n]);
      AreCodeOfFewer(symbolicate, base, headers, methods, addrs, n);
      hide AreCodeOf, IsCodeOf;
      CodeIsFramePerAddress(symbolicate, translate, base, headers, methods[..n], addrs[..n]);
      CodeIsOneFrame(symbolicate, translate, base, headers, methods[n], addrs[n]);
      FreshOneMore(symbolicate, translate, addrs[..n], addrs[n]);
      assert addrs == addrs[..n] + [addrs[n]];
    }
  }

  /** A whole stack of such addresses becomes the stack of their methods. */
  lemma StackOfMethodsIsNamed(setup: Setup, m: Memory, base: nat, headers: seq<CogHeader>, freeStart: nat,
          z: Zone, methods: seq<nat>, addrs: seq<nat>,
          symbolicate: Symbolicator, translate: Translator, shorten: Shorten)
    requires ShowsZone(setup, m, base, headers, freeStart) && KnowsZone(setup, StillView(setup, m), z)
    requires AreCodeOf(symbolicate, base, headers, methods, addrs)
    ensures var native := FreshAll(symbolicate, translate, addrs);
      var frames := SmalltalkPass(setup, StillWatches(m), z, native, shorten).frames;
      |frames| == |addrs| && forall k | 0 <= k < |addrs| :: frames[k] == MethodFrame(m, headers[methods[k]], shorten)
  {
    hide ShowsZone, KnowsZone, FreshAll, SmalltalkPass, MethodFrame, IsCodeOf;
    var native := FreshAll(symbolicate, translate, addrs);
    var frames := SmalltalkPass(setup, StillWatches(m), z, native, shorten).frames;
    CodeIsFramePerAddress(symbolicate, translate, base, headers, methods, addrs);
    forall k | 0 <= k < |addrs| ensures frames[k] == MethodFrame(m, headers[methods[k]], shorten) {
      assert IsCodeOf(symbolicate, base, headers, methods[k], addrs[k]);
      AreCodeOfFewer(symbolicate, base, headers, methods, addrs, k);
      CodeIsFramePerAddress(symbolicate, translate, base, headers, methods[..k], addrs[..k]);
      AddressBecomesMethodName(setup, m, base, headers, freeStart, z, addrs[..k], addrs[k], addrs[k + 1..], methods[k],
                               symbolicate, translate, shorten);
      assert addrs[..k] + [addrs[k]] + addrs[k + 1..] == addrs;
    }
  }

  class Spy {
    const symbolizer: SmalltalkSymbolizer
    const shorten: Shorten
    const hideNativeRoots: bool

    constructor (symbolizer: SmalltalkSymbolizer, shorten: Shorten, hideNativeRoots: bool)
      ensures this.symbolizer == symbolizer && this.shorten == shorten && this.hideNativeRoots == hideNativeRoots
    {
      this.symbolizer, this.shorten, this.hideNativeRoots := symbolizer, shorten, hideNativeRoots;
    }

    /** One thread, after the process has resumed; `cog` is the chain walked while it was
        stopped. */
    method FinishThread(native: seq<Frame>, watches: nat -> Watch, cog: seq<string>) returns (finished: seq<Frame>)
      requires symbolizer.Valid()
      modifies symbolizer
      ensures symbolizer.Valid()
      ensures var pass := SmalltalkPass(symbolizer.setup, watches, old(symbolizer.State()), native, shorten);
        symbolizer.State() == pass.zone && IsFinished(pass.frames, cog, shorten("Smalltalk"), hideNativeRoots, finished)
    {
      var frames := NameAddresses(native, watches);
      var stack := new Stack(frames);
      stack.Stitch(cog, shorten(SMALLTALK));
      if hideNativeRoots {
        stack.TrimNativeRoots();
      }
      finished := stack.frames;
      hide Stitched, Trimmed, SmalltalkPass, IsFinished;
      StitchedIsFinished(frames, cog, shorten(SMALLTALK), hideNativeRoots);
    }

    method NameAddresses(native: seq<Frame>, watches: nat -> Watch) returns (frames: seq<Frame>)
      requires symbolizer.Valid()
      modifies symbolizer
      ensures symbolizer.Valid()
      ensures Passed(frames, symbolizer.State())
              == SmalltalkPass(symbolizer.setup, watches, old(symbolizer.State()), native, shorten)
    {
      frames := [];
      for i := 0 to |native|
        invariant symbolizer.Valid()
        invariant Passed(frames, symbolizer.State())
                  == SmalltalkPass(symbolizer.setup, watches, old(symbolizer.State()), native[..i], shorten)
      {
        hide LookupFrame, ZoneInvariant, Renamed;
        assert native[..i + 1][..i] == native[..i];
        var name := NameAddress(native[i], watches(i));
        frames := frames + [Renamed(native[i], name, shorten)];
      }
      assert native[..|native|] == native;
    }

    method NameAddress(frame: Frame, watch: Watch) returns (name: Option<string>)
      requires symbolizer.Valid()
      modifies symbolizer
      ensures symbolizer.Valid()
      ensures Resolution(name, symbolizer.State())
              == LookupFrame(symbolizer.setup, watch, old(symbolizer.State()), frame)
    {
      hide Resolve, Observe, ParseHexAddress;
      name := None;
      var addr := UnresolvedAddress(frame);
      if addr.Some? {
        name := symbolizer.ResolveJitPc(watch, addr.value);
      }
    }
  }
}
