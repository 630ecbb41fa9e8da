/** The table of generated entry points: a stable sort by address, then of the
    entries at one address only the first. */
module JitEntryTable {
  import opened Wrappers

  datatype JitEntry = JitEntry(address: nat, name: string)

  predicate EntriesSorted(entries: seq<JitEntry>) {
    forall i, j | 0 <= i < j < |entries| :: entries[i].address < entries[j].address
  }

  /** A stable sort: an entry goes before the first one with a greater address. */
  function InsertEntry(sorted: seq<JitEntry>, entry: JitEntry): seq<JitEntry> {
    if sorted == [] then [entry]
    else if entry.address < sorted[0].address then [entry] + sorted
    else [sorted[0]] + InsertEntry(sorted[1..], entry)
  }

  function SortByAddress(entries: seq<JitEntry>): seq<JitEntry> {
    if entries == [] then [] else InsertEntry(SortByAddress(entries[..|entries| - 1]), entries[|entries| - 1])
  }

  /** Of neighbours with one address, the first is kept. */
  function DedupByAddress(entries: seq<JitEntry>): seq<JitEntry> {
    if |entries| < 2 then entries
    else
      var front := DedupByAddress(entries[..|entries| - 1]);
      var last := entries[|entries| - 1];
      if entries[|entries| - 2].address == last.address then front else front + [last]
  }

  predicate InOrder(entries: seq<JitEntry>) {
    forall i, j | 0 <= i < j < |entries| :: entries[i].address <= entries[j].address
  }

  function FirstWith(entries: seq<JitEntry>, address: nat): Option<JitEntry> {
    if entries == [] then None
    else if entries[0].address == address then Some(entries[0])
    else FirstWith(entries[1..], address)
  }

  /** The entries at one address, in their order. */
  function EntriesAt(entries: seq<JitEntry>, address: nat): seq<JitEntry> {
    if entries == [] then []
    else (if entries[0].address == address then [entries[0]] else []) + EntriesAt(entries[1..], address)
  }

  lemma {:induction false} FirstIsFirstThere(entries: seq<JitEntry>, address: nat)
    ensures var there := EntriesAt(entries, address);
      FirstWith(entries, address) == if there == [] then None else Some(there[0])
  {
    if entries != [] {
      FirstIsFirstThere(entries[1..], address);
    }
  }

  lemma {:induction false} LastThere(entries: seq<JitEntry>, last: JitEntry, address: nat)
    ensures EntriesAt(entries + [last], address)
            == EntriesAt(entries, address) + if last.address == address then [last] else []
  {
    if entries == [] {
      assert ([] + [last])[1..] == [];
    } else {
      LastThere(entries[1..], last, address);
      assert (entries + [last])[1..] == entries[1..] + [last];
    }
  }

  // ----- the sort is stable -----

  lemma {:induction false} InsertedAll(sorted: seq<JitEntry>, entry: JitEntry)
    ensures multiset(InsertEntry(sorted, entry)) == multiset(sorted) + multiset{entry}
  {
    if sorted != [] && entry.address >= sorted[0].address {
      InsertedAll(sorted[1..], entry);
      assert sorted == [sorted[0]] + sorted[1..];
    }
  }

  lemma {:induction false} InsertedInOrder(sorted: seq<JitEntry>, entry: JitEntry)
    requires InOrder(sorted)
    ensures InOrder(InsertEntry(sorted, entry))
    ensures forall e | e in InsertEntry(sorted, entry) :: e == entry || e in sorted
  {
    if sorted != [] && entry.address >= sorted[0].address {
      InsertedInOrder(sorted[1..], entry);
      var rest := InsertEntry(sorted[1..], entry);
      forall i | 0 <= i < |rest| ensures sorted[0].address <= rest[i].address {
        assert rest[i] in rest;
      }
    }
  }

  lemma {:induction false} NoneBefore(sorted: seq<JitEntry>, address: nat)
    requires InOrder(sorted) && (sorted != [] ==> address < sorted[0].address)
    ensures EntriesAt(sorted, address) == []
  {
    if sorted != [] {
      NoneBefore(sorted[1..], address);
    }
  }

  lemma {:induction false} InsertedLast(sorted: seq<JitEntry>, entry: JitEntry, address: nat)
    requires InOrder(sorted)
    ensures EntriesAt(InsertEntry(sorted, entry), address)
            == EntriesAt(sorted, address) + if entry.address == address then [entry] else []
  {
    if sorted == [] {
    } else if entry.address < sorted[0].address {
      NoneBefore(sorted, entry.address);
      assert ([entry] + sorted)[1..] == sorted;
    } else {
      InsertedLast(sorted[1..], entry, address);
      var rest := InsertEntry(sorted[1..], entry);
      assert ([sorted[0]] + rest)[1..] == rest;
    }
  }

  /** A stable sort: in order, a permutation, and at each address as before. */
  lemma {:induction false} SortIsStable(entries: seq<JitEntry>, address: nat)
    ensures InOrder(SortByAddress(entries))
    ensures multiset(SortByAddress(entries)) == multiset(entries)
    ensures EntriesAt(SortByAddress(entries), address) == EntriesAt(entries, address)
  {
    if entries != [] {
      hide InOrder, InsertEntry, EntriesAt;
      var front, last := entries[..|entries| - 1], entries[|entries| - 1];
      SortIsStable(front, address);
      InsertedInOrder(SortByAddress(front), last);
      InsertedAll(SortByAddress(front), last);
      InsertedLast(SortByAddress(front), last, address);
      LastThere(front, last, address);
      assert entries == front + [last];
    }
  }

  lemma SortKeepsFirsts(entries: seq<JitEntry>, address: nat)
    ensures InOrder(SortByAddress(entries))
    ensures FirstWith(SortByAddress(entries), address) == FirstWith(entries, address)
  {
    SortIsStable(entries, address);
    FirstIsFirstThere(SortByAddress(entries), address);
    FirstIsFirstThere(entries, address);
  }

  // ----- of several entries at one address the first is kept -----

  lemma FirstOfLonger(entries: seq<JitEntry>, last: JitEntry, address: nat)
    ensures FirstWith(entries + [last], address)
            == if FirstWith(entries, address).None? && last.address == address then Some(last)
               else FirstWith(entries, address)
  {
    LastThere(entries, last, address);
    FirstIsFirstThere(entries + [last], address);
    FirstIsFirstThere(entries, address);
  }

  lemma {:induction false} FirstIsThere(entries: seq<JitEntry>, i: nat)
    requires i < |entries|
    ensures FirstWith(entries, entries[i].address).Some?
  {
    if i > 0 {
      FirstIsThere(entries[1..], i - 1);
    }
  }

  lemma {:induction false} DedupIsSorted(entries: seq<JitEntry>)
    requires InOrder(entries)
    ensures EntriesSorted(DedupByAddress(entries))
    ensures entries != [] ==>
      && DedupByAddress(entries) != []
      && DedupByAddress(entries)[|DedupByAddress(entries)| - 1].address == entries[|entries| - 1].address
  {
    if |entries| >= 2 {
      DedupIsSorted(entries[..|entries| - 1]);
    }
  }

  lemma {:induction false} DedupKeepsFirsts(entries: seq<JitEntry>, address: nat)
    requires InOrder(entries)
    ensures FirstWith(DedupByAddress(entries), address) == FirstWith(entries, address)
  {
    if |entries| >= 2 {
      hide EntriesSorted, FirstWith;
      var front, last := entries[..|entries| - 1], entries[|entries| - 1];
      DedupKeepsFirsts(front, address);
      assert entries == front + [last];
      FirstOfLonger(front, last, address);
      FirstOfLonger(DedupByAddress(front), last, address);
      if front[|front| - 1].address == last.address {
        FirstIsThere(front, |front| - 1);
      }
    }
  }

  /** In a table of increasing addresses an entry is the first one with its address. */
  lemma {:induction false} EntryIsFirst(entries: seq<JitEntry>, entry: JitEntry)
    requires EntriesSorted(entries)
    ensures entry in entries <==> FirstWith(entries, entry.address) == Some(entry)
  {
    if entries != [] {
      EntryIsFirst(entries[1..], entry);
    }
  }

  lemma SortedEntries(filled: seq<JitEntry>)
    ensures EntriesSorted(DedupByAddress(SortByAddress(filled)))
  {
    SortIsStable(filled, 0);
    DedupIsSorted(SortByAddress(filled));
  }
}
