/** The index of decoded methods: ranges with strictly increasing starts, searched
    by bisection. */
module RangeIndex {
  import opened Wrappers
  import opened CogMethods

  /** The elements that satisfy `below` come first. */
  ghost predicate Partitioned<T>(xs: seq<T>, below: T -> bool) {
    forall i, j | 0 <= i < j < |xs| :: below(xs[j]) ==> below(xs[i])
  }

  ghost predicate SplitsAt<T>(xs: seq<T>, below: T -> bool, n: nat) {
    n <= |xs| && (forall i | 0 <= i < n :: below(xs[i])) && forall i | n <= i < |xs| :: !below(xs[i])
  }

  function Bisect<T>(xs: seq<T>, below: T -> bool, lo: nat, hi: nat): (n: nat)
    requires lo <= hi <= |xs|
    ensures lo <= n <= hi
    ensures Partitioned(xs, below) ==>
              (forall i | 0 <= i < lo :: below(xs[i])) ==>
              (forall i | hi <= i < |xs| :: !below(xs[i])) ==>
              SplitsAt(xs, below, n)
    decreases hi - lo
  {
    if lo == hi then lo
    else
      var mid := (lo + hi) / 2;
      if below(xs[mid]) then Bisect(xs, below, mid + 1, hi) else Bisect(xs, below, lo, mid)
  }

  /** Rust's `partition_point`: in a partitioned sequence, how many satisfy `below`. */
  function PartitionPoint<T>(xs: seq<T>, below: T -> bool): (n: nat)
    ensures n <= |xs|
    ensures Partitioned(xs, below) ==> SplitsAt(xs, below, n)
  {
    Bisect(xs, below, 0, |xs|)
  }

  predicate StrictlySorted(ranges: seq<CogMethodRange>) {
    forall i, j | 0 <= i < j < |ranges| :: ranges[i].start < ranges[j].start
  }

  function StartsUpTo(pc: nat): CogMethodRange -> bool {
    (range: CogMethodRange) => range.start <= pc
  }

  function StartsBefore(start: nat): CogMethodRange -> bool {
    (range: CogMethodRange) => range.start < start
  }

  /** The range with the greatest start at or below `pc`, when it contains `pc`. */
  function LookupRange(ranges: seq<CogMethodRange>, pc: nat): Option<CogMethodRange> {
    var index := PartitionPoint(ranges, StartsUpTo(pc));
    if index == 0 then None
    else if pc < ranges[index - 1].end then Some(ranges[index - 1])
    else None
  }

  /** Where a range goes, and whether it replaces the one already starting there. */
  function InsertRange(ranges: seq<CogMethodRange>, range: CogMethodRange): seq<CogMethodRange> {
    var index := PartitionPoint(ranges, StartsBefore(range.start));
    if index < |ranges| && ranges[index].start == range.start
    then ranges[index := range]
    else ranges[..index] + [range] + ranges[index..]
  }

  // ----- the index as a map -----

  ghost function AsMap(ranges: seq<CogMethodRange>): (m: map<nat, CogMethodRange>)
    requires StrictlySorted(ranges)
    ensures forall x :: x in ranges ==> x.start in m && m[x.start] == x
    ensures forall start :: start in m ==> m[start] in ranges && m[start].start == start
  {
    map i | 0 <= i < |ranges| :: ranges[i].start := ranges[i]
  }

  lemma MapFromContents(ranges: seq<CogMethodRange>, after: seq<CogMethodRange>, range: CogMethodRange)
    requires StrictlySorted(ranges) && StrictlySorted(after)
    requires forall x :: x in after <==> x == range || (x in ranges && x.start != range.start)
    ensures AsMap(after) == AsMap(ranges)[range.start := range]
  {
    hide StrictlySorted, AsMap;
    var m, n := AsMap(after), AsMap(ranges)[range.start := range];
    forall start ensures start in m <==> start in n {
      if start in m {
        assert m[start] in after;
      }
      if start in n {
        assert n[start] in after;
      }
    }
    forall start | start in m ensures m[start] == n[start] {
      assert m[start] in after;
    }
  }

  lemma InsertionPoint(ranges: seq<CogMethodRange>, range: CogMethodRange) returns (index: nat)
    requires StrictlySorted(ranges)
    ensures index == PartitionPoint(ranges, StartsBefore(range.start)) <= |ranges|
    ensures forall i | 0 <= i < index :: ranges[i].start < range.start
    ensures forall i | index <= i < |ranges| :: range.start <= ranges[i].start
  {
    index := PartitionPoint(ranges, StartsBefore(range.start));
    forall i | 0 <= i < |ranges|
      ensures if i < index then ranges[i].start < range.start else range.start <= ranges[i].start
    {
      assert StartsBefore(range.start)(ranges[i]) <==> i < index;
    }
  }

  lemma ReplaceInMap(ranges: seq<CogMethodRange>, range: CogMethodRange, index: nat)
    requires StrictlySorted(ranges) && index < |ranges| && ranges[index].start == range.start
    ensures StrictlySorted(ranges[index := range])
    ensures AsMap(ranges[index := range]) == AsMap(ranges)[range.start := range]
  {
    var after := ranges[index := range];
    forall x ensures x in after <==> x == range || (x in ranges && x.start != range.start) {
      if x in ranges && x.start != range.start {
        var i :| 0 <= i < |ranges| && ranges[i] == x;
        assert after[i] == x;
      }
      assert after[index] == range;
    }
    MapFromContents(ranges, after, range);
  }

  lemma InsertedContents(ranges: seq<CogMethodRange>, range: CogMethodRange, index: nat)
    requires StrictlySorted(ranges) && index <= |ranges|
    requires forall i | 0 <= i < index :: ranges[i].start < range.start
    requires forall i | index <= i < |ranges| :: range.start < ranges[i].start
    ensures var after := ranges[..index] + [range] + ranges[index..];
      && StrictlySorted(after)
      && forall x :: x in after <==> x == range || (x in ranges && x.start != range.start)
  {
    var before, behind := ranges[..index], ranges[index..];
    forall x ensures x in ranges <==> x in before || x in behind {
      assert ranges == before + behind;
    }
    assert range !in ranges;
  }

  lemma InsertInMap(ranges: seq<CogMethodRange>, range: CogMethodRange, index: nat)
    requires StrictlySorted(ranges) && index <= |ranges|
    requires forall i | 0 <= i < index :: ranges[i].start < range.start
    requires forall i | index <= i < |ranges| :: range.start < ranges[i].start
    ensures StrictlySorted(ranges[..index] + [range] + ranges[index..])
    ensures AsMap(ranges[..index] + [range] + ranges[index..]) == AsMap(ranges)[range.start := range]
  {
    InsertedContents(ranges, range, index);
    hide StrictlySorted;
    MapFromContents(ranges, ranges[..index] + [range] + ranges[index..], range);
  }

  /** Insertion is map update keyed by the start, and keeps the starts increasing. */
  lemma InsertIsMapUpdate(ranges: seq<CogMethodRange>, range: CogMethodRange)
    requires StrictlySorted(ranges)
    ensures StrictlySorted(InsertRange(ranges, range))
    ensures AsMap(InsertRange(ranges, range)) == AsMap(ranges)[range.start := range]
  {
    var index := InsertionPoint(ranges, range);
    if index < |ranges| && ranges[index].start == range.start {
      ReplaceInMap(ranges, range, index);
    } else {
      InsertInMap(ranges, range, index);
    }
  }

  lemma LookupPoint(ranges: seq<CogMethodRange>, pc: nat) returns (index: nat)
    requires StrictlySorted(ranges)
    ensures index == PartitionPoint(ranges, StartsUpTo(pc)) <= |ranges|
    ensures forall i | 0 <= i < index :: ranges[i].start <= pc
    ensures forall i | index <= i < |ranges| :: pc < ranges[i].start
  {
    index := PartitionPoint(ranges, StartsUpTo(pc));
    forall i | 0 <= i < |ranges| ensures if i < index then ranges[i].start <= pc else pc < ranges[i].start {
      assert StartsUpTo(pc)(ranges[i]) <==> i < index;
    }
  }

  /** The lookup, said without bisection: a range contains `pc` and no range
      starts between its start and `pc`. */
  lemma LookupIsNearest(ranges: seq<CogMethodRange>, pc: nat, range: CogMethodRange)
    requires StrictlySorted(ranges)
    ensures LookupRange(ranges, pc) == Some(range) <==>
      && range in ranges && range.start <= pc < range.end
      && forall other | other in ranges && other.start <= pc :: other.start <= range.start
  {
    var index := LookupPoint(ranges, pc);
    if index > 0 {
      assert ranges[index - 1] in ranges;
    }
  }

  // ----- gap-free tilings -----

  /** The ranges follow one another without gap or overlap from `lo` to `hi`. */
  predicate Tiles(ranges: seq<CogMethodRange>, lo: nat, hi: nat) {
    && (if ranges == [] then lo == hi else ranges[0].start == lo && ranges[|ranges| - 1].end == hi)
    && (forall i | 0 <= i < |ranges| :: ranges[i].start < ranges[i].end)
    && (forall i | 0 < i < |ranges| :: ranges[i - 1].end == ranges[i].start)
  }

  lemma {:induction false} TilingIsOrdered(ranges: seq<CogMethodRange>, lo: nat, hi: nat, i: nat, j: nat)
    requires Tiles(ranges, lo, hi) && i < j < |ranges|
    ensures ranges[i].end <= ranges[j].start
  {
    if i + 1 < j {
      TilingIsOrdered(ranges, lo, hi, i, j - 1);
    }
  }

  lemma TilingIsSorted(ranges: seq<CogMethodRange>, lo: nat, hi: nat)
    requires Tiles(ranges, lo, hi)
    ensures StrictlySorted(ranges)
    ensures lo <= hi
    ensures forall range | range in ranges :: lo <= range.start < range.end <= hi
  {
    forall i, j | 0 <= i < j < |ranges| ensures ranges[i].end <= ranges[j].start {
      TilingIsOrdered(ranges, lo, hi, i, j);
    }
  }

  /** The next tile goes at the end, whatever path the insertion takes. */
  lemma InsertAtEnd(ranges: seq<CogMethodRange>, lo: nat, hi: nat, range: CogMethodRange)
    requires Tiles(ranges, lo, hi)
    requires range.start == hi < range.end
    ensures StrictlySorted(ranges)
    ensures InsertRange(ranges, range) == ranges + [range]
    ensures Tiles(ranges + [range], lo, range.end)
  {
    TilingIsSorted(ranges, lo, hi);
    hide PartitionPoint, StartsBefore, StrictlySorted;
    var index := InsertionPoint(ranges, range);
    assert forall i | 0 <= i < |ranges| :: ranges[i] in ranges;
    assert ranges[..index] + [range] + ranges[index..] == ranges + [range];
  }

  lemma OnlyOneHolds(ranges: seq<CogMethodRange>, lo: nat, hi: nat, index: nat, pc: nat)
    requires Tiles(ranges, lo, hi) && 0 < index <= |ranges|
    requires ranges[index - 1].start <= pc < ranges[index - 1].end
    requires forall i | index <= i < |ranges| :: pc < ranges[i].start
    ensures forall range | range in ranges :: range.start <= pc < range.end <==> range == ranges[index - 1]
  {
    forall i | 0 <= i < |ranges| && i != index - 1 ensures !(ranges[i].start <= pc < ranges[i].end) {
      if i < index - 1 {
        TilingIsOrdered(ranges, lo, hi, i, index - 1);
      }
    }
  }

  /** In a tiling the bisection finds a range exactly for the addresses tiled, and
      it is the only range there that contains the address. */
  lemma TilingLookup(ranges: seq<CogMethodRange>, lo: nat, hi: nat, pc: nat)
    requires Tiles(ranges, lo, hi)
    ensures StrictlySorted(ranges)
    ensures LookupRange(ranges, pc).Some? <==> lo <= pc < hi
    ensures lo <= pc < hi ==>
      && LookupRange(ranges, pc).value in ranges
      && forall range | range in ranges ::
           range.start <= pc < range.end <==> range == LookupRange(ranges, pc).value
  {
    TilingIsSorted(ranges, lo, hi);
    var index := LookupPoint(ranges, pc);
    hide StrictlySorted, PartitionPoint, StartsUpTo;
    if lo <= pc < hi {
      assert index > 0 by {
        assert ranges != [] && ranges[0].start == lo;
      }
      assert pc < ranges[index - 1].end by {
        if index < |ranges| {
          assert ranges[index - 1].end == ranges[index].start;
        }
      }
      OnlyOneHolds(ranges, lo, hi, index, pc);
    } else if index > 0 {
      assert ranges[index - 1] in ranges;
    }
  }

  /** Appending tiles does not change the answers already given. */
  lemma LookupInLongerTiling(ranges: seq<CogMethodRange>, longer: seq<CogMethodRange>, lo: nat, mid: nat,
          hi: nat, pc: nat)
    requires Tiles(ranges, lo, mid) && Tiles(longer, lo, hi) && ranges <= longer
    requires lo <= pc < mid
    ensures StrictlySorted(ranges) && StrictlySorted(longer)
    ensures LookupRange(longer, pc) == LookupRange(ranges, pc)
  {
    TilingLookup(ranges, lo, mid, pc);
    TilingIsSorted(longer, lo, hi);
    var range := LookupRange(ranges, pc).value;
    assert range in longer by {
      var i :| 0 <= i < |ranges| && ranges[i] == range;
      assert longer[i] == range;
    }
    TilingIsSorted(ranges, lo, mid);
    TilingLookup(longer, lo, hi, pc);
  }
}
