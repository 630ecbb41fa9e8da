/** The symbol cache over runs of stacks with reloads of the symbolicator between them.
    A reload does not empty the cache, so what it changes can show. */
module SymbolReloads {
  import opened Wrappers
  import opened StackTraces
  import opened NativeSymbols

  // ----- a cache that shows what asking afresh would -----

  function Shown(translate: Translator, frame: NativeFrame): seq<Frame> {
    match translate(frame) { case Some(f) => [f] case None => [] }
  }

  ghost predicate CacheShows(cache: Cache, symbolicate: Symbolicator, translate: Translator) {
    forall e | e in cache :: Shown(translate, e.frame) == Fresh(symbolicate, translate, e.addr)
  }

  ghost predicate NoErrors(cache: Cache, symbolicate: Symbolicator) {
    forall e | e in cache :: symbolicate(e.addr).error.None?
  }

  lemma OneFrameIsShown(symbolicate: Symbolicator, translate: Translator, addr: nat, frame: NativeFrame)
    requires symbolicate(addr) == Answer([frame], None)
    ensures Fresh(symbolicate, translate, addr) == Shown(translate, frame)
  {
    assert [frame][..0] == [];
    assert Translated(translate, []) == [];
    assert Translated(translate, [frame]) == [] + Shown(translate, frame);
  }

  lemma TrueCacheShows(cache: Cache, symbolicate: Symbolicator, translate: Translator)
    requires CacheIsTrue(cache, symbolicate)
    ensures CacheShows(cache, symbolicate, translate) && NoErrors(cache, symbolicate)
  {
    forall e | e in cache ensures Shown(translate, e.frame) == Fresh(symbolicate, translate, e.addr) {
      OneFrameIsShown(symbolicate, translate, e.addr, e.frame);
    }
  }

  lemma OneAddressIsShown(s: Symbols, symbolicate: Symbolicator, translate: Translator, addr: nat)
    requires CacheOk(s.cache) && CacheShows(s.cache, symbolicate, translate) && !IsAmbiguous(symbolicate(addr))
    ensures var r := SymbolizeOne(s, symbolicate, translate, addr);
      && r.frames == Fresh(symbolicate, translate, addr)
      && CacheOk(r.symbols.cache) && CacheShows(r.symbols.cache, symbolicate, translate)
      && (NoErrors(s.cache, symbolicate) ==>
            && r.symbols.shouldReload == (s.shouldReload || NeedsReload(symbolicate, addr))
            && NoErrors(r.symbols.cache, symbolicate))
  {
    GetKeepsCache(s.cache, addr);
    hide Fresh, CacheOk, Get;
    if Get(s.cache, addr).0.None? {
      var answer := symbolicate(addr);
      if |answer.frames| == 1 {
        PutKeepsCache(s.cache, addr, answer.frames[0]);
        assert answer.frames == [answer.frames[0]];
        OneFrameIsShown(symbolicate, translate, addr, answer.frames[0]);
        hide Put;
      }
    }
  }

  /** One stack, with what the cache holds shown as it would be afresh. */
  lemma {:induction false} StackIsShown(s: Symbols, symbolicate: Symbolicator, translate: Translator, addrs: seq<nat>)
    requires CacheOk(s.cache) && CacheShows(s.cache, symbolicate, translate)
    requires forall addr | addr in addrs :: !IsAmbiguous(symbolicate(addr))
    ensures var r := Symbolize(s, symbolicate, translate, addrs);
      && r.frames == FreshAll(symbolicate, translate, addrs)
      && CacheOk(r.symbols.cache) && CacheShows(r.symbols.cache, symbolicate, translate)
      && (NoErrors(s.cache, symbolicate) ==>
            && r.symbols.shouldReload == (s.shouldReload || AnyNeedsReload(symbolicate, addrs))
            && NoErrors(r.symbols.cache, symbolicate))
  {
    if addrs != [] {
      hide SymbolizeOne, Fresh, CacheOk, CacheShows, NoErrors, IsAmbiguous, NeedsReload;
      var front, last := addrs[..|addrs| - 1], addrs[|addrs| - 1];
      assert addrs == front + [last];
      StackIsShown(s, symbolicate, translate, front);
      OneAddressIsShown(Symbolize(s, symbolicate, translate, front).symbols, symbolicate, translate, last);
    }
  }

  // ----- reloads that show nothing new -----

  /** What was answered without an error still is, and is shown as before. */
  ghost predicate KeepsShown(before: Symbolicator, after: Symbolicator, translate: Translator) {
    forall addr: nat :: before(addr).error.None? ==>
      after(addr).error.None? && Fresh(after, translate, addr) == Fresh(before, translate, addr)
  }

  lemma CacheSurvivesReload(cache: Cache, before: Symbolicator, after: Symbolicator, translate: Translator)
    requires CacheShows(cache, before, translate) && NoErrors(cache, before) && KeepsShown(before, after, translate)
    ensures CacheShows(cache, after, translate) && NoErrors(cache, after)
  {
    hide Fresh, Shown;
    forall e | e in cache
      ensures Shown(translate, e.frame) == Fresh(after, translate, e.addr) && after(e.addr).error.None?
    {
      assert before(e.addr).error.None?;
    }
  }

  /** Every reload keeps what is shown, and no address of a stack is answered ambiguously
      by the symbolicator in force. */
  ghost predicate Unsurprising(current: Symbolicator, wish: bool, translate: Translator, rounds: seq<Round>)
    decreases |rounds|
  {
    rounds == [] ||
    var symbolicate := InForce(current, wish, rounds[0]);
    && (wish ==> KeepsShown(current, symbolicate, translate))
    && (forall addr | addr in rounds[0].addrs :: !IsAmbiguous(symbolicate(addr)))
    && Unsurprising(symbolicate, AnyNeedsReload(symbolicate, rounds[0].addrs), translate, rounds[1..])
  }

  /** Over any run of stacks and any such reloads the cache cannot be noticed: frames and
      reloads are those of a run without it. */
  lemma {:induction false} CacheIsTransparentOverReloads(current: Symbolicator, s: Symbols, translate: Translator,
          rounds: seq<Round>)
    requires CacheOk(s.cache) && CacheShows(s.cache, current, translate) && NoErrors(s.cache, current)
    requires Unsurprising(current, s.shouldReload, translate, rounds)
    ensures CachedRun(current, s, translate, rounds) == FreshRun(current, s.shouldReload, translate, rounds)
    decreases |rounds|
  {
    if rounds != [] {
      hide Symbolize, FreshAll, CacheOk, CacheShows, NoErrors, KeepsShown, IsAmbiguous, AnyNeedsReload;
      var symbolicate := InForce(current, s.shouldReload, rounds[0]);
      if s.shouldReload {
        CacheSurvivesReload(s.cache, current, symbolicate, translate);
      }
      StackIsShown(Symbols(s.cache, false), symbolicate, translate, rounds[0].addrs);
      var r := Symbolize(Symbols(s.cache, false), symbolicate, translate, rounds[0].addrs);
      CacheIsTransparentOverReloads(symbolicate, r.symbols, translate, rounds[1..]);
    }
  }

  // ----- a symbolicator and what it is once reloaded -----

  /** Stacks that are resolved while every reload gives `after`. */
  function Rounds(after: Symbolicator, stacks: seq<seq<nat>>): (rounds: seq<Round>)
    ensures |rounds| == |stacks|
  {
    seq(|stacks|, i requires 0 <= i < |stacks| => Round(stacks[i], after))
  }

  /** The run starts with an empty cache and shows the frames of a run without one. */
  predicate RunIsUnnoticed(before: Symbolicator, after: Symbolicator, translate: Translator, stacks: seq<seq<nat>>) {
    CachedRun(before, Symbols([], false), translate, Rounds(after, stacks))
    == FreshRun(before, false, translate, Rounds(after, stacks))
  }

  ghost predicate NeverAmbiguous(symbolicate: Symbolicator) {
    forall addr: nat :: !IsAmbiguous(symbolicate(addr))
  }

  predicate IsCacheable(answer: Answer) {
    |answer.frames| == 1
  }

  /** What can be in the cache is shown after the reload as it was before. */
  ghost predicate ReloadKeepsShown(before: Symbolicator, after: Symbolicator, translate: Translator) {
    forall addr: nat :: IsCacheable(before(addr)) ==> Fresh(after, translate, addr) == Fresh(before, translate, addr)
  }

  ghost predicate CanReload(symbolicate: Symbolicator) {
    exists addr: nat :: NeedsReload(symbolicate, addr)
  }

  ghost predicate ReloadCanBeSeen(before: Symbolicator, after: Symbolicator, translate: Translator) {
    CanReload(before) && !(NeverAmbiguous(after) && ReloadKeepsShown(before, after, translate))
  }

  lemma RoundsOneFewer(after: Symbolicator, stacks: seq<seq<nat>>)
    requires stacks != []
    ensures Rounds(after, stacks)[0] == Round(stacks[0], after)
    ensures Rounds(after, stacks)[1..] == Rounds(after, stacks[1..])
  {
  }

  /** Once reloaded, further reloads change nothing, so it does not matter who wishes for one. */
  lemma {:induction false} RunAfterReload(s: Symbols, wish: bool, after: Symbolicator, translate: Translator,
          stacks: seq<seq<nat>>)
    requires CacheOk(s.cache) && CacheShows(s.cache, after, translate) && NeverAmbiguous(after)
    ensures CachedRun(after, s, translate, Rounds(after, stacks))
            == FreshRun(after, wish, translate, Rounds(after, stacks))
    decreases |stacks|
  {
    if stacks != [] {
      hide Symbolize, FreshAll, CacheOk, CacheShows, IsAmbiguous, AnyNeedsReload, Rounds;
      RoundsOneFewer(after, stacks);
      StackIsShown(Symbols(s.cache, false), after, translate, stacks[0]);
      var r := Symbolize(Symbols(s.cache, false), after, translate, stacks[0]);
      RunAfterReload(r.symbols, AnyNeedsReload(after, stacks[0]), after, translate, stacks[1..]);
    }
  }

  lemma ReloadedCacheShows(cache: Cache, before: Symbolicator, after: Symbolicator, translate: Translator)
    requires CacheIsTrue(cache, before) && ReloadKeepsShown(before, after, translate)
    ensures CacheShows(cache, after, translate)
  {
    TrueCacheShows(cache, before, translate);
    forall e | e in cache ensures Shown(translate, e.frame) == Fresh(after, translate, e.addr) {
      assert IsCacheable(before(e.addr));
    }
  }

  lemma {:induction false} RunBeforeReload(s: Symbols, before: Symbolicator, after: Symbolicator,
          translate: Translator, stacks: seq<seq<nat>>)
    requires CacheOk(s.cache) && CacheIsTrue(s.cache, before) && NeverAmbiguous(before)
    requires !ReloadCanBeSeen(before, after, translate) && (s.shouldReload ==> CanReload(before))
    ensures CachedRun(before, s, translate, Rounds(after, stacks))
            == FreshRun(before, s.shouldReload, translate, Rounds(after, stacks))
    decreases |stacks|
  {
    if stacks != [] {
      RoundsOneFewer(after, stacks);
      hide Symbolize, FreshAll, CacheOk, CacheIsTrue, CacheShows, IsAmbiguous, Rounds, ReloadKeepsShown;
      if s.shouldReload {
        ReloadedCacheShows(s.cache, before, after, translate);
        RunAfterReload(s, true, after, translate, stacks);
      } else {
        CacheIsTransparent(Symbols(s.cache, false), before, translate, stacks[0]);
        var r := Symbolize(Symbols(s.cache, false), before, translate, stacks[0]);
        assert r.symbols.shouldReload == AnyNeedsReload(before, stacks[0]) by {
          assert forall addr :: before(addr).error == Some(NoBinaryForAddress) <==> NeedsReload(before, addr);
        }
        RunBeforeReload(r.symbols, before, after, translate, stacks[1..]);
      }
    }
  }

  // ----- runs that show a reload -----

  const EMPTY: Symbols := Symbols([], false)

  lemma TwoStacks(before: Symbolicator, after: Symbolicator, translate: Translator, a: seq<nat>, b: seq<nat>)
    ensures var first := Symbolize(EMPTY, before, translate, a);
      var current := if first.symbols.shouldReload then after else before;
      CachedRun(before, EMPTY, translate, Rounds(after, [a, b]))
      == [first.frames, Symbolize(Symbols(first.symbols.cache, false), current, translate, b).frames]
    ensures FreshRun(before, false, translate, Rounds(after, [a, b]))
            == [FreshAll(before, translate, a),
                FreshAll(if AnyNeedsReload(before, a) then after else before, translate, b)]
  {
    hide Symbolize, FreshAll, AnyNeedsReload;
    var rounds := Rounds(after, [a, b]);
    assert rounds == [Round(a, after), Round(b, after)];
    assert rounds[1..] == [Round(b, after)] && rounds[1..][1..] == [];
    var first := Symbolize(EMPTY, before, translate, a);
    var current := if first.symbols.shouldReload then after else before;
    var second := Symbolize(Symbols(first.symbols.cache, false), current, translate, b);
    assert CachedRun(current, second.symbols, translate, []) == [];
    assert CachedRun(before, first.symbols, translate, [Round(b, after)]) == [second.frames] + [];
    var wish := AnyNeedsReload(before, a);
    var anew := if wish then after else before;
    assert FreshRun(anew, AnyNeedsReload(anew, b), translate, []) == [];
    assert FreshRun(before, wish, translate, [Round(b, after)]) == [FreshAll(anew, translate, b)] + [];
  }

  lemma OneStack(symbolicate: Symbolicator, translate: Translator, s: Symbols, addr: nat)
    ensures Symbolize(s, symbolicate, translate, [addr]) == SymbolizeOne(s, symbolicate, translate, addr)
    ensures FreshAll(symbolicate, translate, [addr]) == Fresh(symbolicate, translate, addr)
  {
    hide SymbolizeOne, Fresh;
    assert [addr][..0] == [];
    assert Symbolize(s, symbolicate, translate, []) == Outcome([], s);
    assert FreshAll(symbolicate, translate, []) == [];
    var one := SymbolizeOne(s, symbolicate, translate, addr);
    assert [] + one.frames == one.frames;
  }

  /** An address that asks for a reload leaves nothing in the cache. */
  lemma UnknownIsNotCached(before: Symbolicator, translate: Translator, x: nat)
    requires NeedsReload(before, x) && !IsAmbiguous(before(x))
    ensures SymbolizeOne(EMPTY, before, translate, x) == Outcome(Fresh(before, translate, x), Symbols([], true))
  {
    hide Fresh;
  }

  lemma AmbiguousBeforeShows(before: Symbolicator, after: Symbolicator, translate: Translator, addr: nat)
    requires IsAmbiguous(before(addr))
    ensures !RunIsUnnoticed(before, after, translate, [[addr, addr], []])
  {
    hide Symbolize, FreshAll, IsAmbiguous;
    AmbiguousAnswerIsNoticed(before, translate, addr);
    TwoStacks(before, after, translate, [addr, addr], []);
  }

  lemma AmbiguousAfterShows(before: Symbolicator, after: Symbolicator, translate: Translator, x: nat, addr: nat)
    requires NeedsReload(before, x) && !IsAmbiguous(before(x)) && IsAmbiguous(after(addr))
    ensures !RunIsUnnoticed(before, after, translate, [[x], [addr, addr]])
  {
    hide Symbolize, FreshAll, IsAmbiguous, SymbolizeOne, NeedsReload;
    OneStack(before, translate, EMPTY, x);
    UnknownIsNotCached(before, translate, x);
    AmbiguousAnswerIsNoticed(after, translate, addr);
    TwoStacks(before, after, translate, [x], [addr, addr]);
    assert AnyNeedsReload(before, [x]);
  }

  /** What is cached before a reload is shown after it. */
  lemma CachedIsShown(before: Symbolicator, after: Symbolicator, translate: Translator, x: nat, addr: nat)
    requires NeedsReload(before, x) && !IsAmbiguous(before(x)) && !IsAmbiguous(before(addr))
    requires IsCacheable(before(addr))
    ensures var first := Symbolize(EMPTY, before, translate, [x, addr]);
      && first.symbols.shouldReload
      && Symbolize(Symbols(first.symbols.cache, false), after, translate, [addr]).frames
         == Fresh(before, translate, addr)
  {
    var frame := before(addr).frames[0];
    assert before(addr) == Answer([frame], None);
    OneFrameIsShown(before, translate, addr, frame);
    OneStack(before, translate, EMPTY, x);
    UnknownIsNotCached(before, translate, x);
    assert [x, addr][..1] == [x];
    hide Fresh;
    var first := Symbolize(EMPTY, before, translate, [x, addr]);
    assert first.symbols == SymbolizeOne(Symbols([], true), before, translate, addr).symbols;
    assert first.symbols == Symbols([Entry(addr, frame)], true);
    OneStack(after, translate, Symbols([Entry(addr, frame)], false), addr);
    assert Position([Entry(addr, frame)], addr) == 0;
  }

  lemma ChangedAnswerShows(before: Symbolicator, after: Symbolicator, translate: Translator, x: nat, addr: nat)
    requires NeedsReload(before, x) && !IsAmbiguous(before(x)) && !IsAmbiguous(before(addr))
    requires IsCacheable(before(addr)) && Fresh(after, translate, addr) != Fresh(before, translate, addr)
    ensures !RunIsUnnoticed(before, after, translate, [[x, addr], [addr]])
  {
    CachedIsShown(before, after, translate, x, addr);
    OneStack(after, translate, EMPTY, addr);
    TwoStacks(before, after, translate, [x, addr], [addr]);
    hide Symbolize, FreshAll, Fresh, IsAmbiguous, NeedsReload;
    assert x in [x, addr] && AnyNeedsReload(before, [x, addr]);
  }

  /** A run that shows the cache, if there is one. */
  lemma SeenRun(before: Symbolicator, after: Symbolicator, translate: Translator) returns (stacks: seq<seq<nat>>)
    requires !NeverAmbiguous(before) || ReloadCanBeSeen(before, after, translate)
    ensures !RunIsUnnoticed(before, after, translate, stacks)
  {
    hide IsAmbiguous, NeedsReload, Fresh, IsCacheable, RunIsUnnoticed;
    if !NeverAmbiguous(before) {
      var addr: nat :| IsAmbiguous(before(addr));
      AmbiguousBeforeShows(before, after, translate, addr);
      stacks := [[addr, addr], []];
    } else {
      var x: nat :| NeedsReload(before, x);
      if !NeverAmbiguous(after) {
        var addr: nat :| IsAmbiguous(after(addr));
        AmbiguousAfterShows(before, after, translate, x, addr);
        stacks := [[x], [addr, addr]];
      } else {
        var addr: nat :| IsCacheable(before(addr)) && Fresh(after, translate, addr) != Fresh(before, translate, addr);
        ChangedAnswerShows(before, after, translate, x, addr);
        stacks := [[x, addr], [addr]];
      }
    }
  }

  /** No run shows the cache exactly when no answer is ambiguous before the reload and, if
      there can be one, none is after it and it keeps what is shown of every address that
      can be cached. */
  lemma ReloadIsUnnoticedExactly(before: Symbolicator, after: Symbolicator, translate: Translator)
    ensures (forall stacks: seq<seq<nat>> :: RunIsUnnoticed(before, after, translate, stacks))
      <==> NeverAmbiguous(before) && !ReloadCanBeSeen(before, after, translate)
  {
    hide IsAmbiguous, NeedsReload, Fresh, IsCacheable;
    if NeverAmbiguous(before) && !ReloadCanBeSeen(before, after, translate) {
      forall stacks: seq<seq<nat>> ensures RunIsUnnoticed(before, after, translate, stacks) {
        RunBeforeReload(EMPTY, before, after, translate, stacks);
      }
    } else {
      var stacks := SeenRun(before, after, translate);
      assert !RunIsUnnoticed(before, after, translate, stacks);
    }
  }

  // A library is loaded where another was: address 1 belongs to the one, then to the other.
  function Named(name: string): NativeFrame {
    NativeFrame(1, Some(name), "lib", None, None)
  }

  function Library(name: string): Symbolicator {
    (addr: nat) => if addr == 1 then Answer([Named(name)], None) else Answer([], Some(NoBinaryForAddress))
  }

  function ShowFunction(): Translator {
    (frame: NativeFrame) =>
      if frame.function_.Some? then Some(Frame(frame.function_.value, "lib", None, None, 0)) else None
  }

  /** After the reload that address 2 asks for, address 1 is still shown as the function
      of the library that is gone. */
  lemma ReloadedNameIsStale()
    ensures !RunIsUnnoticed(Library("old"), Library("new"), ShowFunction(), [[2, 1], [1]])
    ensures FreshRun(Library("old"), false, ShowFunction(), Rounds(Library("new"), [[2, 1], [1]]))[1]
            == [Frame("new", "lib", None, None, 0)]
    ensures CachedRun(Library("old"), EMPTY, ShowFunction(), Rounds(Library("new"), [[2, 1], [1]]))[1]
            == [Frame("old", "lib", None, None, 0)]
  {
    var before, after, translate := Library("old"), Library("new"), ShowFunction();
    assert "old"[0] != "new"[0];
    OneFrameIsShown(before, translate, 1, Named("old"));
    OneFrameIsShown(after, translate, 1, Named("new"));
    ChangedAnswerShows(before, after, translate, 2, 1);
    CachedIsShown(before, after, translate, 2, 1);
    OneStack(after, translate, EMPTY, 1);
    TwoStacks(before, after, translate, [2, 1], [1]);
    hide Symbolize, FreshAll, Fresh;
    assert 2 in [2, 1] && NeedsReload(before, 2);
  }
}
