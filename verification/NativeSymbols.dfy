/** Symbolization of native addresses through a bounded cache of symbols, and when
    the cache can be noticed. */
module NativeSymbols {
  import opened Wrappers
  import opened TargetMemory
  import opened StackTraces
  import opened StackStitching

  const SYMBOL_CACHE_SIZE: nat := 65536

  /** A frame as the symbolicator reports it. */
  datatype NativeFrame = NativeFrame(addr: nat, function_: Option<string>, module_: string,
          filename: Option<string>, line: Option<nat>)

  datatype SymbolError = NoBinaryForAddress | OtherError

  /** What one symbolication reports: the frames it called back with, innermost
      inlined function first, and how it ended. */
  datatype Answer = Answer(frames: seq<NativeFrame>, error: Option<SymbolError>)

  type Symbolicator = nat -> Answer

  /** How a reported frame is shown, or that it is not. */
  type Translator = NativeFrame -> Option<Frame>

  function Translated(translate: Translator, frames: seq<NativeFrame>): seq<Frame> {
    if frames == [] then []
    else
      Translated(translate, frames[..|frames| - 1])
      + match translate(frames[|frames| - 1]) { case Some(f) => [f] case None => [] }
  }

  function AddressFrame(addr: nat): Frame {
    Frame("0x" + FormatHex(addr), "?", None, None, 0)
  }

  /** The frames of one address, asked for afresh. */
  function Fresh(symbolicate: Symbolicator, translate: Translator, addr: nat): seq<Frame> {
    var answer := symbolicate(addr);
    Translated(translate, answer.frames) + if answer.error.Some? then [AddressFrame(addr)] else []
  }

  lemma {:induction false} TranslatedInParts(translate: Translator, a: seq<NativeFrame>, b: seq<NativeFrame>)
    ensures Translated(translate, a + b) == Translated(translate, a) + Translated(translate, b)
  {
    if b == [] {
      assert a + [] == a;
    } else {
      var front, last := b[..|b| - 1], b[|b| - 1];
      TranslatedInParts(translate, a, front);
      assert (a + b)[..|a + b| - 1] == a + front;
    }
  }

  lemma OneIsTranslated(translate: Translator, frame: NativeFrame)
    ensures translate(frame) == None ==> Translated(translate, [frame]) == []
    ensures forall shown :: translate(frame) == Some(shown) ==> Translated(translate, [frame]) == [shown]
  {
    assert [frame][..0] == [];
    assert Translated(translate, []) == [];
  }

  /** The functions inlined at one address are shown in the order they are reported in, those
      that are not shown left out; an address with an error follows, with its number. */
  lemma InlinedFramesInOrder(symbolicate: Symbolicator, translate: Translator, addr: nat,
          inner: seq<NativeFrame>, frame: NativeFrame, outer: seq<NativeFrame>, shown: Frame)
    requires symbolicate(addr).frames == inner + [frame] + outer && translate(frame) == Some(shown)
    ensures Fresh(symbolicate, translate, addr)
            == Translated(translate, inner) + [shown] + Translated(translate, outer)
               + if symbolicate(addr).error.None? then []
                 else [Frame("0x" + FormatHex(addr), "?", None, None, 0)]
  {
    hide Translated;
    OneIsTranslated(translate, frame);
    TranslatedInParts(translate, inner, [frame]);
    TranslatedInParts(translate, inner + [frame], outer);
  }

  function FreshAll(symbolicate: Symbolicator, translate: Translator, addrs: seq<nat>): seq<Frame> {
    if addrs == [] then []
    else FreshAll(symbolicate, translate, addrs[..|addrs| - 1]) + Fresh(symbolicate, translate, addrs[|addrs| - 1])
  }

  lemma FreshOneMore(symbolicate: Symbolicator, translate: Translator, front: seq<nat>, last: nat)
    ensures FreshAll(symbolicate, translate, front + [last])
            == FreshAll(symbolicate, translate, front) + Fresh(symbolicate, translate, last)
  {
    hide Fresh;
    assert (front + [last])[..|front|] == front;
  }

  lemma Associates<T>(a: seq<T>, b: seq<T>, c: seq<T>)
    ensures (a + b) + c == a + (b + c)
  {
  }

  lemma NothingIsFresh(symbolicate: Symbolicator, translate: Translator)
    ensures FreshAll(symbolicate, translate, []) == []
  {
  }

  lemma FreshInPartsStep(symbolicate: Symbolicator, translate: Translator, a: seq<nat>, front: seq<nat>, last: nat)
    requires FreshAll(symbolicate, translate, a + front)
             == FreshAll(symbolicate, translate, a) + FreshAll(symbolicate, translate, front)
    ensures FreshAll(symbolicate, translate, a + (front + [last]))
            == FreshAll(symbolicate, translate, a) + FreshAll(symbolicate, translate, front + [last])
  {
    hide FreshAll, Fresh;
    FreshOneMore(symbolicate, translate, front, last);
    FreshOneMore(symbolicate, translate, a + front, last);
    Associates(a, front, [last]);
    Associates(FreshAll(symbolicate, translate, a), FreshAll(symbolicate, translate, front),
               Fresh(symbolicate, translate, last));
  }

  lemma {:induction false} FreshInParts(symbolicate: Symbolicator, translate: Translator, a: seq<nat>, b: seq<nat>)
    ensures FreshAll(symbolicate, translate, a + b)
            == FreshAll(symbolicate, translate, a) + FreshAll(symbolicate, translate, b)
  {
    hide FreshAll;
    if b == [] {
      NothingIsFresh(symbolicate, translate);
      assert a + [] == a;
      assert FreshAll(symbolicate, translate, a) + [] == FreshAll(symbolicate, translate, a);
    } else {
      var front, last := b[..|b| - 1], b[|b| - 1];
      FreshInParts(symbolicate, translate, a, front);
      FreshInPartsStep(symbolicate, translate, a, front, last);
      assert b == front + [last];
    }
  }

  predicate NeedsReload(symbolicate: Symbolicator, addr: nat) {
    symbolicate(addr).error == Some(NoBinaryForAddress)
  }

  // ----- the cache: entries by time of last use, the latest first -----

  datatype Entry = Entry(addr: nat, frame: NativeFrame)

  type Cache = seq<Entry>

  function Position(cache: Cache, addr: nat): (i: nat)
    ensures i <= |cache|
    ensures i < |cache| ==> cache[i].addr == addr
    ensures forall j | 0 <= j < i :: cache[j].addr != addr
  {
    if cache == [] || cache[0].addr == addr then 0 else 1 + Position(cache[1..], addr)
  }

  /** `get`: the entry found becomes the latest used. */
  function Get(cache: Cache, addr: nat): (Option<NativeFrame>, Cache) {
    var i := Position(cache, addr);
    if i < |cache| then (Some(cache[i].frame), [cache[i]] + cache[..i] + cache[i + 1..]) else (None, cache)
  }

  /** `put` of an address that is not there: the least recently used makes room. */
  function Put(cache: Cache, addr: nat, frame: NativeFrame): Cache {
    [Entry(addr, frame)] + if |cache| < SYMBOL_CACHE_SIZE then cache else cache[..SYMBOL_CACHE_SIZE - 1]
  }

  predicate CacheOk(cache: Cache) {
    |cache| <= SYMBOL_CACHE_SIZE && forall i, j | 0 <= i < j < |cache| :: cache[i].addr != cache[j].addr
  }

  /** Every entry is the only frame its address would be given now. */
  ghost predicate CacheIsTrue(cache: Cache, symbolicate: Symbolicator) {
    forall e | e in cache :: symbolicate(e.addr) == Answer([e.frame], None)
  }

  // ----- symbolization -----

  datatype Symbols = Symbols(cache: Cache, shouldReload: bool)

  datatype Outcome = Outcome(frames: seq<Frame>, symbols: Symbols)

  function SymbolizeOne(s: Symbols, symbolicate: Symbolicator, translate: Translator, addr: nat): Outcome {
    var (hit, cache) := Get(s.cache, addr);
    if hit.Some? then
      Outcome(match translate(hit.value) { case Some(f) => [f] case None => [] }, s.(cache := cache))
    else
      var answer := symbolicate(addr);
      Outcome(
        Fresh(symbolicate, translate, addr),
        Symbols(if |answer.frames| == 1 then Put(s.cache, addr, answer.frames[0]) else s.cache,
                s.shouldReload || NeedsReload(symbolicate, addr)))
  }

  function Symbolize(s: Symbols, symbolicate: Symbolicator, translate: Translator, addrs: seq<nat>): Outcome {
    if addrs == [] then Outcome([], s)
    else
      var before := Symbolize(s, symbolicate, translate, addrs[..|addrs| - 1]);
      var last := SymbolizeOne(before.symbols, symbolicate, translate, addrs[|addrs| - 1]);
      Outcome(before.frames + last.frames, last.symbols)
  }

  lemma GetKeepsCache(cache: Cache, addr: nat)
    requires CacheOk(cache)
    ensures var (hit, after) := Get(cache, addr);
      && CacheOk(after)
      && (forall e :: e in after <==> e in cache)
      && (hit.Some? <==> exists e :: e in cache && e.addr == addr)
      && (hit.Some? ==> Entry(addr, hit.value) in cache && after[0] == Entry(addr, hit.value))
  {
    var i := Position(cache, addr);
    var after := Get(cache, addr).1;
    if i < |cache| {
      assert cache == cache[..i] + [cache[i]] + cache[i + 1..];
    } else {
      forall e | e in cache ensures e.addr != addr {
        var j :| 0 <= j < |cache| && cache[j] == e;
      }
    }
  }

  lemma PutKeepsCache(cache: Cache, addr: nat, frame: NativeFrame)
    requires CacheOk(cache) && forall e | e in cache :: e.addr != addr
    ensures var after := Put(cache, addr, frame);
      && CacheOk(after) && after[0] == Entry(addr, frame)
      && forall e | e in after :: e == Entry(addr, frame) || e in cache
  {
    assert forall i | 0 <= i < |cache| :: cache[i] in cache;
  }

  /** An address is answered with one frame and an error. */
  predicate IsAmbiguous(answer: Answer) {
    |answer.frames| == 1 && answer.error.Some?
  }

  lemma OneAddressIsTransparent(s: Symbols, symbolicate: Symbolicator, translate: Translator, addr: nat)
    requires CacheOk(s.cache) && CacheIsTrue(s.cache, symbolicate) && !IsAmbiguous(symbolicate(addr))
    ensures var r := SymbolizeOne(s, symbolicate, translate, addr);
      && r.frames == Fresh(symbolicate, translate, addr)
      && r.symbols.shouldReload == (s.shouldReload || NeedsReload(symbolicate, addr))
      && CacheOk(r.symbols.cache) && CacheIsTrue(r.symbols.cache, symbolicate)
  {
    GetKeepsCache(s.cache, addr);
    var hit := Get(s.cache, addr).0;
    if hit.Some? {
      assert symbolicate(addr) == Answer([hit.value], None);
      assert [hit.value][..0] == [];
      assert Translated(translate, [hit.value])
          == [] + match translate(hit.value) { case Some(f) => [f] case None => [] };
    } else {
      var answer := symbolicate(addr);
      if |answer.frames| == 1 {
        PutKeepsCache(s.cache, addr, answer.frames[0]);
        assert answer.frames == [answer.frames[0]];
      }
    }
  }

  /** With an unambiguous symbolicator the cache cannot be noticed: any stack gives
      the frames, and the wish to reload, that asking afresh for each address gives;
      and the cache stays bounded, without repetition, and true. */
  lemma {:induction false} CacheIsTransparent(s: Symbols, symbolicate: Symbolicator, translate: Translator,
          addrs: seq<nat>)
    requires CacheOk(s.cache) && CacheIsTrue(s.cache, symbolicate)
    requires forall addr | addr in addrs :: !IsAmbiguous(symbolicate(addr))
    ensures var r := Symbolize(s, symbolicate, translate, addrs);
      && r.frames == FreshAll(symbolicate, translate, addrs)
      && (r.symbols.shouldReload <==>
            s.shouldReload || exists addr :: addr in addrs && symbolicate(addr).error == Some(NoBinaryForAddress))
      && CacheOk(r.symbols.cache) && CacheIsTrue(r.symbols.cache, symbolicate)
  {
    if addrs != [] {
      var front, last := addrs[..|addrs| - 1], addrs[|addrs| - 1];
      assert addrs == front + [last];
      CacheIsTransparent(s, symbolicate, translate, front);
      OneAddressIsTransparent(Symbolize(s, symbolicate, translate, front).symbols, symbolicate, translate, last);
    }
  }

  /** Exactly then: an address answered with one frame and an error is shown with
      its number the first time it is met and without it the second. */
  lemma AmbiguousAnswerIsNoticed(symbolicate: Symbolicator, translate: Translator, addr: nat)
    ensures Symbolize(Symbols([], false), symbolicate, translate, [addr, addr]).frames
            == FreshAll(symbolicate, translate, [addr, addr])
            <==> !IsAmbiguous(symbolicate(addr))
  {
    if IsAmbiguous(symbolicate(addr)) {
      var anew := Fresh(symbolicate, translate, addr);
      var first := SymbolizeOne(Symbols([], false), symbolicate, translate, addr);
      var second := SymbolizeOne(first.symbols, symbolicate, translate, addr);
      assert [addr, addr][..1] == [addr] && [addr][..0] == [];
      assert Symbolize(Symbols([], false), symbolicate, translate, []).symbols == Symbols([], false);
      assert Symbolize(Symbols([], false), symbolicate, translate, [addr]) == Outcome([] + first.frames, first.symbols);
      assert FreshAll(symbolicate, translate, [addr]) == [] + anew;
      assert |Translated(translate, [])| == 0;
      var frames := symbolicate(addr).frames;
      assert frames[..0] == [] && |Translated(translate, frames)| <= 1;
      assert first.symbols.cache == Put([], addr, frames[0]);
      assert Position(first.symbols.cache, addr) == 0;
      assert |second.frames| == |Translated(translate, frames)| < |anew|;
      assert |Symbolize(Symbols([], false), symbolicate, translate, [addr, addr]).frames| == |anew| + |second.frames|;
      assert |FreshAll(symbolicate, translate, [addr, addr])| == |anew| + |anew|;
    } else {
      CacheIsTransparent(Symbols([], false), symbolicate, translate, [addr, addr]);
    }
  }

  /** A stack is shown as without a cache by one that starts empty. */
  predicate Unnoticed(symbolicate: Symbolicator, translate: Translator, addrs: seq<nat>) {
    Symbolize(Symbols([], false), symbolicate, translate, addrs).frames == FreshAll(symbolicate, translate, addrs)
  }

  /** No stack at all shows the cache exactly when no address is answered ambiguously. */
  lemma CacheIsUnnoticedExactly(symbolicate: Symbolicator, translate: Translator)
    ensures (forall addrs: seq<nat> :: Unnoticed(symbolicate, translate, addrs))
      <==> forall addr: nat :: !IsAmbiguous(symbolicate(addr))
  {
    hide Symbolize, FreshAll, IsAmbiguous;
    if forall addrs: seq<nat> :: Unnoticed(symbolicate, translate, addrs) {
      forall addr: nat ensures !IsAmbiguous(symbolicate(addr)) {
        var twice: seq<nat> := [addr, addr];
        AmbiguousAnswerIsNoticed(symbolicate, translate, addr);
        assert Unnoticed(symbolicate, translate, twice);
      }
    }
    if forall addr: nat :: !IsAmbiguous(symbolicate(addr)) {
      forall addrs: seq<nat> ensures Unnoticed(symbolicate, translate, addrs) {
        CacheIsTransparent(Symbols([], false), symbolicate, translate, addrs);
      }
    }
  }

  // ----- how long the cache remembers -----

  /** The address was used more lately than all but `n` of the others. */
  predicate IsAmongLatest(cache: Cache, addr: nat, frame: NativeFrame, n: nat) {
    exists i :: 0 <= i <= n && i < |cache| && cache[i] == Entry(addr, frame)
  }

  lemma OneMoreIsUsed(s: Symbols, symbolicate: Symbolicator, translate: Translator, other: nat,
          addr: nat, frame: NativeFrame, n: nat)
    requires IsAmongLatest(s.cache, addr, frame, n) && n + 1 < 65536
    ensures IsAmongLatest(SymbolizeOne(s, symbolicate, translate, other).symbols.cache, addr, frame, n + 1)
  {
    var i :| 0 <= i <= n && i < |s.cache| && s.cache[i] == Entry(addr, frame);
    var after := SymbolizeOne(s, symbolicate, translate, other).symbols.cache;
    var p := Position(s.cache, other);
    hide Fresh;
    if p < |s.cache| {
      assert after == [s.cache[p]] + s.cache[..p] + s.cache[p + 1..];
      assert if i == p then after[0] == s.cache[i] else if i < p then after[i + 1] == s.cache[i]
             else after[i] == s.cache[i];
    } else if |symbolicate(other).frames| == 1 {
      assert after[i + 1] == s.cache[i];
    } else {
      assert after[i] == s.cache[i];
    }
  }

  /** An address that was cached when it was last used is still cached after fewer than
      65536 others have been symbolized, whatever they were. */
  lemma {:induction false} LatelyUsedIsRemembered(s: Symbols, symbolicate: Symbolicator, translate: Translator,
          addr: nat, frame: NativeFrame, n: nat, addrs: seq<nat>)
    requires IsAmongLatest(s.cache, addr, frame, n) && n + |addrs| < 65536
    ensures IsAmongLatest(Symbolize(s, symbolicate, translate, addrs).symbols.cache, addr, frame, n + |addrs|)
  {
    if addrs != [] {
      hide IsAmongLatest, SymbolizeOne;
      var front := addrs[..|addrs| - 1];
      LatelyUsedIsRemembered(s, symbolicate, translate, addr, frame, n, front);
      OneMoreIsUsed(Symbolize(s, symbolicate, translate, front).symbols, symbolicate, translate, addrs[|addrs| - 1],
                    addr, frame, n + |front|);
    }
  }

  // ----- runs with reloads -----

  /** One stack to resolve, and how the symbolicator would answer once reloaded. */
  datatype Round = Round(addrs: seq<nat>, reloaded: Symbolicator)

  predicate AnyNeedsReload(symbolicate: Symbolicator, addrs: seq<nat>) {
    exists addr :: addr in addrs && NeedsReload(symbolicate, addr)
  }

  function InForce(current: Symbolicator, wish: bool, round: Round): Symbolicator {
    if wish then round.reloaded else current
  }

  /** Stack after stack through the cache; a wish to reload is met before the next one. */
  function CachedRun(current: Symbolicator, s: Symbols, translate: Translator, rounds: seq<Round>): seq<seq<Frame>>
    decreases |rounds|
  {
    if rounds == [] then []
    else
      var symbolicate := InForce(current, s.shouldReload, rounds[0]);
      var r := Symbolize(Symbols(s.cache, false), symbolicate, translate, rounds[0].addrs);
      [r.frames] + CachedRun(symbolicate, r.symbols, translate, rounds[1..])
  }

  /** The same without a cache. */
  function FreshRun(current: Symbolicator, wish: bool, translate: Translator, rounds: seq<Round>): seq<seq<Frame>>
    decreases |rounds|
  {
    if rounds == [] then []
    else
      var symbolicate := InForce(current, wish, rounds[0]);
      [FreshAll(symbolicate, translate, rounds[0].addrs)]
      + FreshRun(symbolicate, AnyNeedsReload(symbolicate, rounds[0].addrs), translate, rounds[1..])
  }

  /** An address the symbolicator knows nothing of keeps its number through to the
      Smalltalk pass, which looks for a hexadecimal name on a frame of no file. */
  lemma UnknownAddressReachesSmalltalkPass(symbolicate: Symbolicator, translate: Translator, addr: nat)
    requires addr <= U64_MAX && symbolicate(addr).frames == [] && symbolicate(addr).error.Some?
    ensures var frames := Fresh(symbolicate, translate, addr);
      |frames| == 1 && frames[0].filename == "?" && ParseHexAddress(frames[0].name) == Some(addr)
  {
    AddressRoundTrip(addr);
  }

  // ----- the native stack, as an object -----

  class NativeStack {
    var symbolCache: Cache
    var shouldReload: bool

    function State(): Symbols
      reads this
    {
      Symbols(symbolCache, shouldReload)
    }

    constructor ()
      ensures State() == Symbols([], false)
    {
      symbolCache, shouldReload := [], false;
    }

    /** Frames for a stack of addresses.  `current` answers as the symbolicator did before
        and `reloaded` as it does after a reload, which happens first if it was due. */
    method Resolve(current: Symbolicator, reloaded: Symbolicator, translate: Translator,
            addrs: seq<nat>) returns (frames: seq<Frame>)
      modifies this
      ensures var symbolicate := InForce(current, old(shouldReload), Round(addrs, reloaded));
        Outcome(frames, State()) == Symbolize(Symbols(old(symbolCache), false), symbolicate, translate, addrs)
      ensures forall later ::
                CachedRun(current, old(State()), translate, [Round(addrs, reloaded)] + later)
                == [frames]
                   + CachedRun(InForce(current, old(shouldReload), Round(addrs, reloaded)), State(), translate, later)
    {
      var symbolicate := if shouldReload then reloaded else current;
      shouldReload := false;
      frames := SymbolizeAddresses(symbolicate, translate, addrs);
      hide Symbolize;
      forall later: seq<Round>
        ensures CachedRun(current, old(State()), translate, [Round(addrs, reloaded)] + later)
                == [frames] + CachedRun(symbolicate, State(), translate, later)
      {
        assert ([Round(addrs, reloaded)] + later)[1..] == later;
      }
    }

    method SymbolizeAddresses(symbolicate: Symbolicator, translate: Translator,
            addrs: seq<nat>) returns (frames: seq<Frame>)
      modifies this
      ensures Outcome(frames, State()) == Symbolize(old(State()), symbolicate, translate, addrs)
    {
      frames := [];
      for i := 0 to |addrs|
        invariant Outcome(frames, State()) == Symbolize(old(State()), symbolicate, translate, addrs[..i])
      {
        assert addrs[..i + 1][..i] == addrs[..i];
        var shown := SymbolizeAddress(symbolicate, translate, addrs[i]);
        frames := frames + shown;
      }
      assert addrs[..|addrs|] == addrs;
    }

    method SymbolizeAddress(symbolicate: Symbolicator, translate: Translator, addr: nat) returns (shown: seq<Frame>)
      modifies this
      ensures Outcome(shown, State()) == SymbolizeOne(old(State()), symbolicate, translate, addr)
    {
      shown := [];
      var (cached, used) := Get(symbolCache, addr);
      symbolCache := used;
      if cached.Some? {
        var frame := translate(cached.value);
        if frame.Some? {
          shown := [frame.value];
        }
        return;
      }
      var answer := symbolicate(addr);
      for i := 0 to |answer.frames|
        invariant shown == Translated(translate, answer.frames[..i])
        invariant State() == old(State())
      {
        assert answer.frames[..i + 1][..i] == answer.frames[..i];
        var frame := translate(answer.frames[i]);
        if frame.Some? {
          shown := shown + [frame.value];
        }
      }
      assert answer.frames[..|answer.frames|] == answer.frames;
      if answer.error.Some? {
        if answer.error.value == NoBinaryForAddress {
          shouldReload := true;
        }
        shown := shown + [AddressFrame(addr)];
      }
      if |answer.frames| == 1 {
        symbolCache := Put(symbolCache, addr, answer.frames[0]);
      }
    }
  }
}
