/** Stitching the Cog frame chain into a native stack, trimming its root, and the
    addresses that unresolved native frames carry in their names. */
module StackStitching {
  import opened Wrappers
  import opened TargetMemory
  import opened StackTraces

  const SMALLTALK: string := "Smalltalk"
  const ROOT_NAME: string := "Cog ceBaseFrameReturn"
  const DEEP_SMALLTALK: nat := 3

  predicate StartsWith(s: string, prefix: string) {
    prefix <= s
  }

  predicate EndsWith(s: string, suffix: string) {
    |suffix| <= |s| && s[|s| - |suffix|..] == suffix
  }

  /** A method resolved from the image, not a trampoline or a helper of the JIT. */
  predicate IsSmalltalkMethod(frame: Frame) {
    frame.filename == SMALLTALK && !StartsWith(frame.name, "Cog ") && !StartsWith(frame.name, "JIT ")
  }

  /** Frames that show the VM in C code called from Smalltalk. */
  predicate IsBoundary(frame: Frame) {
    || (frame.filename == SMALLTALK
        && (StartsWith(frame.name, "Cog ce") || StartsWith(frame.name, "Cog methodAbort")))
    || (StartsWith(frame.name, "primitive")
        && (EndsWith(frame.filename, "cointerp.c") || EndsWith(frame.filename, "Plugin.c")))
    || frame.name == "interpret" || frame.name == "ceCaptureCStackPointers"
    || StartsWith(frame.name, "ceSend") || StartsWith(frame.name, "ceReturn")
  }

  function CountMethods(frames: seq<Frame>): nat {
    if frames == [] then 0
    else CountMethods(frames[..|frames| - 1]) + if IsSmalltalkMethod(frames[|frames| - 1]) then 1 else 0
  }

  /** One past the deepest boundary frame. */
  function AfterLastBoundary(frames: seq<Frame>): (r: Option<nat>)
    ensures r.Some? ==> 0 < r.value <= |frames| && IsBoundary(frames[r.value - 1])
    ensures forall i | r.GetOr(0) <= i < |frames| :: !IsBoundary(frames[i])
  {
    if frames == [] then None
    else if IsBoundary(frames[|frames| - 1]) then Some(|frames|)
    else AfterLastBoundary(frames[..|frames| - 1])
  }

  /** Where to splice: nowhere when the native stack is already deep in Smalltalk. */
  function SplicePoint(frames: seq<Frame>): (r: Option<nat>)
    ensures r.Some? ==> 0 < r.value <= |frames| && IsBoundary(frames[r.value - 1])
  {
    if CountMethods(frames) > DEEP_SMALLTALK then None else AfterLastBoundary(frames)
  }

  /** Where the methods of a stack are. */
  function MethodIndices(frames: seq<Frame>): set<nat> {
    set i: nat | i < |frames| && IsSmalltalkMethod(frames[i])
  }

  lemma {:induction false} MethodsAreCounted(frames: seq<Frame>)
    ensures CountMethods(frames) == |MethodIndices(frames)|
  {
    if frames != [] {
      hide IsSmalltalkMethod;
      var n: nat := |frames| - 1;
      MethodsAreCounted(frames[..n]);
      var before := MethodIndices(frames[..n]);
      assert MethodIndices(frames) == if IsSmalltalkMethod(frames[n]) then before + {n} else before;
    }
  }

  /** A stack is spliced exactly if it has at most three methods and a boundary frame;
      then behind the deepest of these. */
  lemma SplicedExactly(frames: seq<Frame>)
    ensures var splice := SplicePoint(frames);
      && (splice.Some? <==>
            |MethodIndices(frames)| <= 3 && exists i :: 0 <= i < |frames| && IsBoundary(frames[i]))
      && (splice.Some? ==> forall i | splice.value <= i < |frames| :: !IsBoundary(frames[i]))
  {
    MethodsAreCounted(frames);
    hide IsBoundary, IsSmalltalkMethod;
  }

  function SmalltalkFrame(name: string, short: Option<string>): Frame {
    Frame(name, SMALLTALK, Some("Squeak"), short, 0)
  }

  function NamesOfMethods(frames: seq<Frame>): (names: set<string>)
    ensures forall name :: name in names <==>
              exists i :: 0 <= i < |frames| && IsSmalltalkMethod(frames[i]) && frames[i].name == name
  {
    set i | 0 <= i < |frames| && IsSmalltalkMethod(frames[i]) :: frames[i].name
  }

  /** The Cog frames whose names the native stack does not have yet. */
  function Missing(cog: seq<string>, existing: set<string>, short: Option<string>): seq<Frame> {
    if cog == [] then []
    else
      Missing(cog[..|cog| - 1], existing, short)
      + if cog[|cog| - 1] in existing then [] else [SmalltalkFrame(cog[|cog| - 1], short)]
  }

  function Stitched(frames: seq<Frame>, cog: seq<string>, short: Option<string>): seq<Frame> {
    var splice := SplicePoint(frames);
    if splice.None? || cog == [] then frames
    else frames[..splice.value] + Missing(cog, NamesOfMethods(frames), short) + [SmalltalkFrame(ROOT_NAME, short)]
  }

  // ----- what stitching keeps -----

  /** `part` is obtained from `whole` by leaving elements out. */
  predicate IsSubsequence(part: seq<string>, whole: seq<string>) {
    if part == [] then true
    else if whole == [] then false
    else if part[|part| - 1] == whole[|whole| - 1] then
      IsSubsequence(part[..|part| - 1], whole[..|whole| - 1]) || IsSubsequence(part, whole[..|whole| - 1])
    else IsSubsequence(part, whole[..|whole| - 1])
  }

  function NamesOf(frames: seq<Frame>): (names: seq<string>)
    ensures |names| == |frames|
    ensures forall i | 0 <= i < |frames| :: names[i] == frames[i].name
  {
    seq(|frames|, i requires 0 <= i < |frames| => frames[i].name)
  }

  lemma MissingOneMore(front: seq<string>, last: string, existing: set<string>, short: Option<string>)
    ensures NamesOf(Missing(front + [last], existing, short))
            == NamesOf(Missing(front, existing, short)) + if last in existing then [] else [last]
  {
    assert (front + [last])[..|front|] == front;
  }

  lemma {:induction false} SkipLast(part: seq<string>, whole: seq<string>, last: string)
    requires IsSubsequence(part, whole)
    ensures IsSubsequence(part, whole + [last])
  {
    assert (whole + [last])[..|whole|] == whole;
  }

  lemma {:induction false} MissingKeepsOrder(cog: seq<string>, existing: set<string>, short: Option<string>)
    ensures IsSubsequence(NamesOf(Missing(cog, existing, short)), cog)
  {
    if cog == [] {
      assert NamesOf(Missing(cog, existing, short)) == [];
    } else {
      var front, last := cog[..|cog| - 1], cog[|cog| - 1];
      MissingKeepsOrder(front, existing, short);
      MissingOneMore(front, last, existing, short);
      var names := NamesOf(Missing(front, existing, short));
      assert cog == front + [last];
      if last in existing {
        assert names + [] == names;
        SkipLast(names, front, last);
      } else {
        assert (names + [last])[..|names|] == names && cog[..|cog| - 1] == front;
      }
    }
  }

  lemma {:induction false} MissingCounts(cog: seq<string>, existing: set<string>, short: Option<string>, name: string)
    ensures multiset(NamesOf(Missing(cog, existing, short)))[name]
            == if name in existing then 0 else multiset(cog)[name]
  {
    if cog == [] {
      assert NamesOf(Missing(cog, existing, short)) == [];
    } else {
      var front, last := cog[..|cog| - 1], cog[|cog| - 1];
      MissingCounts(front, existing, short, name);
      MissingOneMore(front, last, existing, short);
      assert cog == front + [last];
    }
  }

  predicate CountsWithout(names: seq<string>, cog: seq<string>, existing: set<string>, name: string) {
    multiset(names)[name] == if name in existing then 0 else multiset(cog)[name]
  }

  /** Each name as often as in the chain, but those there already. */
  ghost predicate AllCountWithout(names: seq<string>, cog: seq<string>, existing: set<string>) {
    forall name :: CountsWithout(names, cog, existing, name)
  }

  lemma AllMissingCount(cog: seq<string>, existing: set<string>, short: Option<string>)
    ensures AllCountWithout(NamesOf(Missing(cog, existing, short)), cog, existing)
  {
    forall name ensures CountsWithout(NamesOf(Missing(cog, existing, short)), cog, existing, name) {
      MissingCounts(cog, existing, short, name);
    }
  }

  /** A frame taken from the Cog chain. */
  predicate IsFromChain(frame: Frame, short: Option<string>) {
    frame == Frame(frame.name, "Smalltalk", Some("Squeak"), short, 0)
  }

  lemma {:induction false} MissingAreFromChain(cog: seq<string>, existing: set<string>, short: Option<string>)
    ensures forall frame | frame in Missing(cog, existing, short) :: IsFromChain(frame, short)
  {
    if cog != [] {
      MissingAreFromChain(cog[..|cog| - 1], existing, short);
    }
  }

  /** The native stack down to its deepest boundary frame, then the Cog frames in their
      order, each as often as in the chain and without those the native stack names, then
      the shared root. */
  ghost predicate IsSpliced(frames: seq<Frame>, cog: seq<string>, short: Option<string>, r: seq<Frame>)
    requires SplicePoint(frames).Some?
  {
    var splice := SplicePoint(frames).value;
    && splice + 1 <= |r| && r[..splice] == frames[..splice] && IsBoundary(r[splice - 1])
    && (forall frame | frame in r[splice..] :: IsFromChain(frame, short))
    && r[|r| - 1].name == "Cog ceBaseFrameReturn"
    && var names := NamesOf(r[splice..|r| - 1]);
    && IsSubsequence(names, cog)
    && AllCountWithout(names, cog, NamesOfMethods(frames))
  }

  /** A spliced stack in parts. */
  lemma StitchedParts(top: seq<Frame>, missing: seq<Frame>, root: Frame)
    ensures var r := top + missing + [root];
      && r[..|top|] == top && r[|top|..|r| - 1] == missing && r[|r| - 1] == root
      && forall frame | frame in r[|top|..] :: frame in missing || frame == root
  {
    assert (top + missing + [root])[|top|..] == missing + [root];
  }

  lemma StitchedShape(frames: seq<Frame>, cog: seq<string>, short: Option<string>)
    ensures SplicePoint(frames).None? || cog == [] ==> Stitched(frames, cog, short) == frames
    ensures SplicePoint(frames).Some? && cog != [] ==> IsSpliced(frames, cog, short, Stitched(frames, cog, short))
  {
    if SplicePoint(frames).Some? && cog != [] {
      hide IsSubsequence, IsBoundary, NamesOfMethods, Missing, SplicePoint;
      var top := frames[..SplicePoint(frames).value];
      var missing := Missing(cog, NamesOfMethods(frames), short);
      MissingKeepsOrder(cog, NamesOfMethods(frames), short);
      AllMissingCount(cog, NamesOfMethods(frames), short);
      MissingAreFromChain(cog, NamesOfMethods(frames), short);
      StitchedParts(top, missing, SmalltalkFrame(ROOT_NAME, short));
    }
  }

  lemma {:induction false} SubsequenceCounts(part: seq<string>, whole: seq<string>, name: string)
    requires IsSubsequence(part, whole)
    ensures multiset(part)[name] <= multiset(whole)[name]
  {
    if part != [] {
      var front, last := whole[..|whole| - 1], whole[|whole| - 1];
      assert whole == front + [last];
      if part[|part| - 1] == last && IsSubsequence(part[..|part| - 1], front) {
        SubsequenceCounts(part[..|part| - 1], front, name);
        assert part == part[..|part| - 1] + [last];
      } else {
        SubsequenceCounts(part, front, name);
      }
    }
  }

  lemma LastWasLeftOut(names: seq<string>, front: seq<string>, last: string, existing: set<string>)
    requires AllCountWithout(names, front + [last], existing) && last in existing
    ensures AllCountWithout(names, front, existing)
    ensures names != [] ==> names[|names| - 1] != last
  {
    assert CountsWithout(names, front + [last], existing, last);
    forall name ensures CountsWithout(names, front, existing, name) {
      assert CountsWithout(names, front + [last], existing, name);
    }
    assert names != [] ==> names[|names| - 1] in multiset(names);
  }

  lemma LastWasKept(rest: seq<string>, front: seq<string>, last: string, existing: set<string>)
    requires AllCountWithout(rest + [last], front + [last], existing) && last !in existing
    ensures AllCountWithout(rest, front, existing)
  {
    forall name ensures CountsWithout(rest, front, existing, name) {
      assert CountsWithout(rest + [last], front + [last], existing, name);
    }
  }

  /** A name of the chain that the native stack lacks cannot be left out. */
  lemma LastIsKept(names: seq<string>, front: seq<string>, last: string, existing: set<string>)
    requires IsSubsequence(names, front + [last]) && AllCountWithout(names, front + [last], existing)
    requires last !in existing
    ensures names != [] && names[|names| - 1] == last && IsSubsequence(names[..|names| - 1], front)
  {
    assert CountsWithout(names, front + [last], existing, last);
    assert (front + [last])[..|front|] == front;
    if IsSubsequence(names, front) {
      SubsequenceCounts(names, front, last);
    }
  }

  /** Order and number of the names kept leave no choice. */
  lemma {:induction false} KeptNamesAreDetermined(names: seq<string>, cog: seq<string>, existing: set<string>,
          short: Option<string>)
    requires IsSubsequence(names, cog) && AllCountWithout(names, cog, existing)
    ensures names == NamesOf(Missing(cog, existing, short))
  {
    if cog != [] {
      hide AllCountWithout, Missing;
      var front, last := cog[..|cog| - 1], cog[|cog| - 1];
      MissingOneMore(front, last, existing, short);
      assert cog == front + [last];
      if last in existing {
        LastWasLeftOut(names, front, last, existing);
        KeptNamesAreDetermined(names, front, existing, short);
      } else {
        LastIsKept(names, front, last, existing);
        var rest := names[..|names| - 1];
        assert names == rest + [last];
        LastWasKept(rest, front, last, existing);
        KeptNamesAreDetermined(rest, front, existing, short);
      }
    }
  }

  lemma SameNamesSameFrames(a: seq<Frame>, b: seq<Frame>, short: Option<string>)
    requires NamesOf(a) == NamesOf(b)
    requires forall frame | frame in a + b :: IsFromChain(frame, short)
    ensures a == b
  {
    assert |a| == |NamesOf(a)| == |b|;
    forall i | 0 <= i < |a| ensures a[i] == b[i] {
      assert a[i] in a + b && b[i] in a + b;
      assert a[i].name == NamesOf(a)[i] == NamesOf(b)[i] == b[i].name;
    }
  }

  lemma InThreeParts(r: seq<Frame>, splice: nat)
    requires splice + 1 <= |r|
    ensures r == r[..splice] + r[splice..|r| - 1] + [r[|r| - 1]]
    ensures forall frame :: frame in r[splice..|r| - 1] + [r[|r| - 1]] ==> frame in r[splice..]
  {
    assert r[splice..|r| - 1] + [r[|r| - 1]] == r[splice..];
  }

  lemma SplicedIsStitched(frames: seq<Frame>, cog: seq<string>, short: Option<string>, r: seq<Frame>)
    requires SplicePoint(frames).Some? && cog != [] && IsSpliced(frames, cog, short, r)
    ensures r == Stitched(frames, cog, short)
  {
    hide IsSubsequence, IsBoundary, NamesOfMethods, Missing, SplicePoint;
    var splice := SplicePoint(frames).value;
    var kept, missing := r[splice..|r| - 1], Missing(cog, NamesOfMethods(frames), short);
    InThreeParts(r, splice);
    KeptNamesAreDetermined(NamesOf(kept), cog, NamesOfMethods(frames), short);
    MissingAreFromChain(cog, NamesOfMethods(frames), short);
    SameNamesSameFrames(kept, missing, short);
    assert IsFromChain(r[|r| - 1], short) by {
      assert r[|r| - 1] in kept + [r[|r| - 1]];
    }
    assert r == frames[..splice] + missing + [SmalltalkFrame(ROOT_NAME, short)];
  }

  /** These facts say all: a stack for which they hold is the stitched one. */
  lemma SplicedIsDetermined(frames: seq<Frame>, cog: seq<string>, short: Option<string>, r: seq<Frame>)
    requires SplicePoint(frames).Some? && cog != []
    ensures IsSpliced(frames, cog, short, r) <==> r == Stitched(frames, cog, short)
  {
    hide IsSpliced, Stitched, SplicePoint;
    StitchedShape(frames, cog, short);
    if IsSpliced(frames, cog, short, r) {
      SplicedIsStitched(frames, cog, short, r);
    }
  }

  ghost predicate Shows(frames: seq<Frame>, name: string) {
    exists i :: 0 <= i < |frames| && frames[i].filename == SMALLTALK && frames[i].name == name
  }

  /** Every Smalltalk method of the native stack and every Cog frame is still shown. */
  ghost predicate NothingLost(frames: seq<Frame>, cog: seq<string>, short: Option<string>) {
    && (forall i | 0 <= i < |frames| && IsSmalltalkMethod(frames[i]) ::
          Shows(Stitched(frames, cog, short), frames[i].name))
    && (forall name | name in cog :: Shows(Stitched(frames, cog, short), name))
  }

  /** The methods cut off at the splice point are all named above it, too. */
  predicate CutMethodsAreRepeated(frames: seq<Frame>, splice: nat)
    requires splice <= |frames|
  {
    forall i | splice <= i < |frames| && IsSmalltalkMethod(frames[i]) ::
      frames[i].name in NamesOfMethods(frames[..splice])
  }

  lemma {:induction false} MissingHas(cog: seq<string>, existing: set<string>, short: Option<string>, name: string)
    ensures (exists f | f in Missing(cog, existing, short) :: f.name == name) <==> name in cog && name !in existing
    ensures forall f | f in Missing(cog, existing, short) :: f.filename == SMALLTALK
  {
    if cog != [] {
      var front, last := cog[..|cog| - 1], cog[|cog| - 1];
      MissingHas(front, existing, short, name);
      assert cog == front + [last];
      var rest := Missing(front, existing, short);
      if last !in existing {
        assert SmalltalkFrame(last, short) in Missing(cog, existing, short);
        assert forall f | f in rest :: f in Missing(cog, existing, short);
      }
    }
  }

  lemma ShownInParts(a: seq<Frame>, b: seq<Frame>, name: string)
    ensures Shows(a + b, name) <==> Shows(a, name) || Shows(b, name)
  {
    if Shows(a, name) {
      var i :| 0 <= i < |a| && a[i].filename == SMALLTALK && a[i].name == name;
      assert (a + b)[i] == a[i];
    }
    if Shows(b, name) {
      var i :| 0 <= i < |b| && b[i].filename == SMALLTALK && b[i].name == name;
      assert (a + b)[|a| + i] == b[i];
    }
    if Shows(a + b, name) {
      var i :| 0 <= i < |a + b| && (a + b)[i].filename == SMALLTALK && (a + b)[i].name == name;
      assert if i < |a| then a[i] == (a + b)[i] else b[i - |a|] == (a + b)[i];
    }
  }

  /** What a spliced stack shows: what the kept part shows, the Cog frames that no
      native method names, and the root. */
  lemma StitchedShows(frames: seq<Frame>, cog: seq<string>, short: Option<string>, name: string)
    requires SplicePoint(frames).Some? && cog != []
    ensures Shows(Stitched(frames, cog, short), name)
      <==> || Shows(frames[..SplicePoint(frames).value], name) || (name in cog && name !in NamesOfMethods(frames))
           || name == ROOT_NAME
  {
    hide SplicePoint, Missing, NamesOfMethods;
    var top := frames[..SplicePoint(frames).value];
    var missing := Missing(cog, NamesOfMethods(frames), short);
    var root := [SmalltalkFrame(ROOT_NAME, short)];
    ShownInParts(top + missing, root, name);
    ShownInParts(top, missing, name);
    assert Shows(root, name) <==> root[0].name == name;
    assert Shows(missing, name) <==> exists f :: f in missing && f.name == name by {
      MissingHas(cog, NamesOfMethods(frames), short, name);
      assert forall i | 0 <= i < |missing| :: missing[i] in missing;
    }
    MissingHas(cog, NamesOfMethods(frames), short, name);
  }

  lemma RootIsNoMethod(frames: seq<Frame>)
    ensures forall frame: Frame | IsSmalltalkMethod(frame) :: frame.name != ROOT_NAME
    ensures ROOT_NAME !in NamesOfMethods(frames)
  {
    assert StartsWith(ROOT_NAME, "Cog ");
  }

  /** A Smalltalk frame that is shown under the name of a method is a method. */
  lemma ShownMethod(frames: seq<Frame>, name: string)
    requires !StartsWith(name, "Cog ") && !StartsWith(name, "JIT ")
    ensures Shows(frames, name) <==> name in NamesOfMethods(frames)
  {
  }

  /** Whether one native method is still shown. */
  lemma NativeMethodIsShown(frames: seq<Frame>, cog: seq<string>, short: Option<string>, i: nat)
    requires SplicePoint(frames).Some? && cog != []
    requires i < |frames| && IsSmalltalkMethod(frames[i])
    ensures Shows(Stitched(frames, cog, short), frames[i].name)
      <==> frames[i].name in NamesOfMethods(frames[..SplicePoint(frames).value])
  {
    hide SplicePoint, Stitched;
    StitchedShows(frames, cog, short, frames[i].name);
    ShownMethod(frames[..SplicePoint(frames).value], frames[i].name);
    RootIsNoMethod(frames);
  }

  /** Stitching loses a Smalltalk name exactly when a native method below the splice
      point is not named above it: such a method is cut off, and its namesake in the
      Cog chain is taken for a duplicate. */
  lemma NothingLostUnlessCut(frames: seq<Frame>, cog: seq<string>, short: Option<string>)
    requires SplicePoint(frames).Some? && cog != []
    ensures NothingLost(frames, cog, short) <==> CutMethodsAreRepeated(frames, SplicePoint(frames).value)
  {
    hide Stitched, SplicePoint, Shows, IsSmalltalkMethod;
    var splice := SplicePoint(frames).value;
    var top := frames[..splice];
    forall i | 0 <= i < |frames| && IsSmalltalkMethod(frames[i])
      ensures Shows(Stitched(frames, cog, short), frames[i].name) <==> frames[i].name in NamesOfMethods(top)
    {
      NativeMethodIsShown(frames, cog, short, i);
    }
    if CutMethodsAreRepeated(frames, splice) {
      forall i | 0 <= i < |frames| && IsSmalltalkMethod(frames[i]) ensures frames[i].name in NamesOfMethods(top) {
        if i < splice {
          assert top[i] == frames[i];
        }
      }
      forall name | name in cog ensures Shows(Stitched(frames, cog, short), name) {
        StitchedShows(frames, cog, short, name);
        if name in NamesOfMethods(frames) {
          var i :| 0 <= i < |frames| && IsSmalltalkMethod(frames[i]) && frames[i].name == name;
        }
      }
    }
  }

  lemma PrimitiveIsBoundary()
    ensures var primitive := Frame("primitiveCallout", "X64SysVFFIPlugin.c", None, None, 0);
      IsBoundary(primitive) && !IsSmalltalkMethod(primitive)
  {
    assert EndsWith("X64SysVFFIPlugin.c", "Plugin.c") && StartsWith("primitiveCallout", "primitive");
  }

  lemma RenderIsMethod(short: Option<string>)
    ensures var caller := SmalltalkFrame("World>>render", short);
      !IsBoundary(caller) && IsSmalltalkMethod(caller)
  {
    assert "World>>render"[0] == 'W';
  }

  /** The duplicates left out are those of the whole native stack, not only of the
      part that is kept: here the only caller of the primitive disappears. */
  lemma CutCallerIsLost(short: Option<string>)
    ensures var primitive := Frame("primitiveCallout", "X64SysVFFIPlugin.c", None, None, 0);
      var caller := SmalltalkFrame("World>>render", short);
      && SplicePoint([primitive, caller]) == Some(1)
      && Stitched([primitive, caller], ["World>>render"], short) == [primitive, SmalltalkFrame(ROOT_NAME, short)]
  {
    var primitive := Frame("primitiveCallout", "X64SysVFFIPlugin.c", None, None, 0);
    var caller := SmalltalkFrame("World>>render", short);
    var frames := [primitive, caller];
    RenderIsMethod(short);
    PrimitiveIsBoundary();
    hide IsBoundary, IsSmalltalkMethod;
    assert frames[..1] == [primitive] && [primitive][..0] == [];
    assert frames[1].name in NamesOfMethods(frames);
    assert CountMethods([primitive]) == 0;
    assert CountMethods(frames) == 1;
    assert AfterLastBoundary([primitive]) == Some(1);
    assert ["World>>render"][..0] == [];
    assert Missing(["World>>render"], NamesOfMethods(frames), short) == [];
  }

  // ----- trimming -----

  function LastMethod(frames: seq<Frame>): (r: Option<nat>)
    ensures r.Some? ==> r.value < |frames| && IsSmalltalkMethod(frames[r.value])
    ensures forall i | (if r.Some? then r.value + 1 else 0) <= i < |frames| :: !IsSmalltalkMethod(frames[i])
  {
    if frames == [] then None
    else if IsSmalltalkMethod(frames[|frames| - 1]) then Some(|frames| - 1)
    else LastMethod(frames[..|frames| - 1])
  }

  function Trimmed(frames: seq<Frame>): seq<Frame> {
    var last := LastMethod(frames);
    if last.Some? then frames[..last.value + 1] else frames
  }

  ghost predicate HasMethod(frames: seq<Frame>) {
    exists i :: 0 <= i < |frames| && IsSmalltalkMethod(frames[i])
  }

  /** Trimming keeps a prefix and cuts off no method; what is left ends in a method if
      there is one, and a second trimming has nothing to do. */
  lemma TrimmedShape(frames: seq<Frame>)
    ensures Trimmed(frames) <= frames
    ensures forall i | |Trimmed(frames)| <= i < |frames| :: !IsSmalltalkMethod(frames[i])
    ensures HasMethod(frames) ==> Trimmed(frames) != [] && IsSmalltalkMethod(Trimmed(frames)[|Trimmed(frames)| - 1])
    ensures !HasMethod(frames) ==> Trimmed(frames) == frames
    ensures NamesOfMethods(Trimmed(frames)) == NamesOfMethods(frames)
    ensures Trimmed(Trimmed(frames)) == Trimmed(frames)
  {
    hide IsSmalltalkMethod;
    var t := Trimmed(frames);
    forall name ensures name in NamesOfMethods(t) <==> name in NamesOfMethods(frames) {
      if name in NamesOfMethods(frames) {
        var i :| 0 <= i < |frames| && IsSmalltalkMethod(frames[i]) && frames[i].name == name;
        assert t[i] == frames[i];
      }
      if name in NamesOfMethods(t) {
        var i :| 0 <= i < |t| && IsSmalltalkMethod(t[i]) && t[i].name == name;
        assert frames[i] == t[i];
      }
    }
  }

  /** Names that Smalltalk frames have without being methods. */
  predicate IsHelperName(name: string) {
    StartsWith(name, "Cog ") || StartsWith(name, "JIT ")
  }

  lemma MethodInParts(a: seq<Frame>, b: seq<Frame>)
    ensures HasMethod(a + b) <==> HasMethod(a) || HasMethod(b)
  {
    hide IsSmalltalkMethod;
    if HasMethod(a) {
      var i :| 0 <= i < |a| && IsSmalltalkMethod(a[i]);
      assert (a + b)[i] == a[i];
    }
    if HasMethod(b) {
      var i :| 0 <= i < |b| && IsSmalltalkMethod(b[i]);
      assert (a + b)[|a| + i] == b[i];
    }
    if HasMethod(a + b) {
      var i :| 0 <= i < |a + b| && IsSmalltalkMethod((a + b)[i]);
      assert if i < |a| then a[i] == (a + b)[i] else b[i - |a|] == (a + b)[i];
    }
  }

  lemma MissingHasMethod(cog: seq<string>, existing: set<string>, short: Option<string>)
    ensures HasMethod(Missing(cog, existing, short))
      <==> exists name :: name in cog && !IsHelperName(name) && name !in existing
  {
    hide Missing;
    var missing := Missing(cog, existing, short);
    if HasMethod(missing) {
      var i :| 0 <= i < |missing| && IsSmalltalkMethod(missing[i]);
      assert missing[i] in missing;
      MissingHas(cog, existing, short, missing[i].name);
    }
    if name :| name in cog && !IsHelperName(name) && name !in existing {
      MissingHas(cog, existing, short, name);
      var f :| f in missing && f.name == name;
      var i :| 0 <= i < |missing| && missing[i] == f;
      assert IsSmalltalkMethod(missing[i]);
    }
  }

  lemma StitchedHasMethod(frames: seq<Frame>, cog: seq<string>, short: Option<string>)
    requires SplicePoint(frames).Some? && cog != []
    ensures HasMethod(Stitched(frames, cog, short))
      <==> || HasMethod(frames[..SplicePoint(frames).value])
           || exists name :: name in cog && !IsHelperName(name) && name !in NamesOfMethods(frames)
  {
    hide SplicePoint, Missing, NamesOfMethods, IsHelperName;
    var top := frames[..SplicePoint(frames).value];
    var missing := Missing(cog, NamesOfMethods(frames), short);
    var root := [SmalltalkFrame(ROOT_NAME, short)];
    MethodInParts(top + missing, root);
    MethodInParts(top, missing);
    MissingHasMethod(cog, NamesOfMethods(frames), short);
    RootIsNoMethod(root);
    assert !IsSmalltalkMethod(root[0]);
  }

  /** With native roots hidden, the shared root that stitching adds stays exactly on
      stacks without a method: none above the splice point, and in the chain only
      helpers and names the native stack has.  From every other stack it is cut. */
  lemma TrimmingUndoesTheSharedRoot(frames: seq<Frame>, cog: seq<string>, short: Option<string>)
    requires SplicePoint(frames).Some? && cog != []
    ensures var r := Stitched(frames, cog, short);
      && (Trimmed(r) == r <==>
            && !HasMethod(frames[..SplicePoint(frames).value])
            && forall name | name in cog :: IsHelperName(name) || name in NamesOfMethods(frames))
      && (Trimmed(r) != r ==> Trimmed(r) <= r[..|r| - 1])
  {
    var r := Stitched(frames, cog, short);
    assert r[|r| - 1] == SmalltalkFrame(ROOT_NAME, short);
    hide Stitched, SplicePoint, Trimmed, IsSmalltalkMethod;
    StitchedHasMethod(frames, cog, short);
    TrimmedShape(r);
    RootIsNoMethod(frames);
  }

  /** A callout from a method, as it is recorded and as it is shown with native roots hidden. */
  lemma SharedRootIsCut(short: Option<string>)
    ensures var primitive := Frame("primitiveCallout", "X64SysVFFIPlugin.c", None, None, 0);
      var caller := SmalltalkFrame("World>>render", short);
      && Stitched([primitive], ["World>>render"], short) == [primitive, caller, SmalltalkFrame(ROOT_NAME, short)]
      && Trimmed([primitive, caller, SmalltalkFrame(ROOT_NAME, short)]) == [primitive, caller]
  {
    var primitive := Frame("primitiveCallout", "X64SysVFFIPlugin.c", None, None, 0);
    var caller := SmalltalkFrame("World>>render", short);
    var root := SmalltalkFrame(ROOT_NAME, short);
    RenderIsMethod(short);
    PrimitiveIsBoundary();
    RootIsNoMethod([root]);
    hide IsBoundary, IsSmalltalkMethod;
    assert [primitive][..0] == [] && CountMethods([primitive]) == 0;
    assert SplicePoint([primitive]) == Some(1);
    assert ["World>>render"][..0] == [];
    assert Missing(["World>>render"], NamesOfMethods([primitive]), short) == [caller];
    assert [primitive, caller, root][..2] == [primitive, caller];
    assert LastMethod([primitive, caller]) == Some(1);
  }

  // ----- the passes, on a stack in place -----

  method FindInterpreterBoundary(frames: seq<Frame>) returns (splice: Option<nat>)
    ensures splice == SplicePoint(frames)
  {
    hide IsBoundary, IsSmalltalkMethod;
    assert frames[..|frames|] == frames;
    if CountMethods(frames) > DEEP_SMALLTALK {
      return None;
    }
    var boundary: Option<nat> := None;
    for i := 0 to |frames|
      invariant boundary.Some? ==> boundary.value < i && AfterLastBoundary(frames[..i]) == Some(boundary.value + 1)
      invariant boundary.None? ==> AfterLastBoundary(frames[..i]) == None
    {
      assert frames[..i + 1][..i] == frames[..i];
      if IsBoundary(frames[i]) {
        boundary := Some(i);
      }
    }
    splice := if boundary.Some? then Some(boundary.value + 1) else None;
  }

  class Stack {
    var frames: seq<Frame>

    constructor (frames: seq<Frame>)
      ensures this.frames == frames
    {
      this.frames := frames;
    }

    method Stitch(cog: seq<string>, short: Option<string>)
      modifies this
      ensures frames == Stitched(old(frames), cog, short)
    {
      var splice := FindInterpreterBoundary(frames);
      if splice.None? || cog == [] {
        return;
      }
      var existing := NamesOfMethods(frames);
      frames := frames[..splice.value];
      AppendMissing(cog, existing, short);
      frames := frames + [SmalltalkFrame(ROOT_NAME, short)];
    }

    method AppendMissing(cog: seq<string>, existing: set<string>, short: Option<string>)
      modifies this
      ensures frames == old(frames) + Missing(cog, existing, short)
    {
      for i := 0 to |cog|
        invariant frames == old(frames) + Missing(cog[..i], existing, short)
      {
        assert cog[..i + 1][..i] == cog[..i];
        if cog[i] !in existing {
          frames := frames + [SmalltalkFrame(cog[i], short)];
        }
      }
      assert cog[..|cog|] == cog;
    }

    /** The last method becomes the root; a stack without methods stays as it is. */
    method TrimNativeRoots()
      modifies this
      ensures frames <= old(frames)
      ensures forall i | |frames| <= i < |old(frames)| :: !IsSmalltalkMethod(old(frames)[i])
      ensures HasMethod(old(frames)) ==> frames != [] && IsSmalltalkMethod(frames[|frames| - 1])
      ensures !HasMethod(old(frames)) ==> frames == old(frames)
      ensures frames == Trimmed(old(frames))
    {
      hide IsSmalltalkMethod;
      TrimmedShape(frames);
      var n: nat := |frames|;
      while n > 0 && !IsSmalltalkMethod(frames[n - 1])
        invariant n <= |old(frames)|
        invariant forall i | n <= i < |old(frames)| :: !IsSmalltalkMethod(old(frames)[i])
      {
        n := n - 1;
      }
      if n > 0 {
        frames := frames[..n];
      }
    }
  }

  // ----- addresses in names -----

  function HexDigit(d: nat): char
    requires d < 16
  {
    "0123456789abcdef"[d]
  }

  /** `{:x}`. */
  function FormatHex(n: nat): (s: string)
    ensures s != []
  {
    if n < 16 then [HexDigit(n)] else FormatHex(n / 16) + [HexDigit(n % 16)]
  }

  function DigitValue(c: char): Option<nat> {
    if '0' <= c <= '9' then Some(c as nat - '0' as nat)
    else if 'a' <= c <= 'f' then Some(c as nat - 'a' as nat + 10)
    else if 'A' <= c <= 'F' then Some(c as nat - 'A' as nat + 10)
    else None
  }

  function ParseDigits(s: string): Option<nat> {
    if s == [] then Some(0)
    else
      var front :- ParseDigits(s[..|s| - 1]);
      var last :- DigitValue(s[|s| - 1]);
      var n := front * 16 + last;
      if n > U64_MAX then None else Some(n)
  }

  /** `u64::from_str_radix(s, 16)`: at least one digit, perhaps after a plus sign. */
  function ParseHex(s: string): Option<nat> {
    var digits := if s != [] && s[0] == '+' then s[1..] else s;
    if digits == [] then None else ParseDigits(digits)
  }

  function ParseHexAddress(value: string): Option<nat> {
    if StartsWith(value, "0x") then ParseHex(value[2..]) else None
  }

  lemma DigitRoundTrip(d: nat)
    requires d < 16
    ensures DigitValue(HexDigit(d)) == Some(d) && HexDigit(d) != '+'
  {
  }

  lemma {:induction false} DigitsRoundTrip(n: nat)
    requires n <= U64_MAX
    ensures ParseDigits(FormatHex(n)) == Some(n)
    ensures FormatHex(n)[0] != '+'
  {
    hide HexDigit, DigitValue;
    var s := FormatHex(n);
    DigitRoundTrip(n % 16);
    if n < 16 {
      assert s[..0] == [];
    } else {
      DigitsRoundTrip(n / 16);
      assert s[..|s| - 1] == FormatHex(n / 16);
    }
  }

  /** The address that symbolization wrote into the name of a frame it could not
      resolve is the address the Smalltalk pass reads back from it. */
  lemma AddressRoundTrip(addr: nat)
    requires addr <= U64_MAX
    ensures ParseHexAddress("0x" + FormatHex(addr)) == Some(addr)
  {
    DigitsRoundTrip(addr);
    assert ("0x" + FormatHex(addr))[2..] == FormatHex(addr);
  }

  /** The letters of one spelling are capitals in the other. */
  predicate SpelledAlike(s: string, other: string) {
    && |s| == |other|
    && forall i | 0 <= i < |s| ::
         s[i] == other[i] || ('a' <= s[i] <= 'f' && other[i] as nat == s[i] as nat - 'a' as nat + 'A' as nat)
  }

  lemma {:induction false} CapitalsAreRead(s: string, other: string)
    requires SpelledAlike(s, other)
    ensures ParseDigits(s) == ParseDigits(other)
  {
    if s != [] {
      CapitalsAreRead(s[..|s| - 1], other[..|other| - 1]);
    }
  }

  /** An address is also read in capitals, and with a plus sign. */
  lemma OtherSpellingsAreRead(addr: nat, other: string)
    requires addr <= U64_MAX && SpelledAlike(FormatHex(addr), other)
    ensures ParseHexAddress("0x" + other) == Some(addr) && ParseHexAddress("0x+" + other) == Some(addr)
  {
    hide FormatHex, ParseDigits;
    DigitsRoundTrip(addr);
    CapitalsAreRead(FormatHex(addr), other);
    assert other != [] && other[0] != '+';
    hide SpelledAlike;
    assert ("0x" + other)[2..] == other && ("0x" + other)[..2] == "0x";
    assert ("0x+" + other)[2..] == ['+'] + other && (['+'] + other)[1..] == other && ("0x+" + other)[..2] == "0x";
  }
}
