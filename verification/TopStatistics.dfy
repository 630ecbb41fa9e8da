/** The counters of the `top` view: in how many traces a function is at the top of
    the stack, and in how many it occurs at all. */
module TopStatistics {
  import opened MapSums

  datatype FunctionStatistics = FunctionStatistics(currentOwn: nat, currentTotal: nat, overallOwn: nat,
          overallTotal: nat)

  type Counts = map<string, FunctionStatistics>

  const ZERO: FunctionStatistics := FunctionStatistics(0, 0, 0, 0)

  function StatsOf(counts: Counts, name: string): FunctionStatistics {
    if name in counts then counts[name] else ZERO
  }

  function Counted(s: FunctionStatistics, own: bool): FunctionStatistics {
    var o := if own then 1 else 0;
    FunctionStatistics(s.currentOwn + o, s.currentTotal + 1, s.overallOwn + o, s.overallTotal + 1)
  }

  /** One trace, given by the labels of its frames, innermost first: each label
      counts once, however often the function recurs. */
  function Update(counts: Counts, labels: seq<string>): Counts {
    map name | name in counts.Keys + (set l | l in labels) ::
      if name in labels then Counted(StatsOf(counts, name), labels[0] == name) else counts[name]
  }

  function ResetCurrent(counts: Counts): Counts {
    map name | name in counts :: counts[name].(currentOwn := 0, currentTotal := 0)
  }

  // ----- runs -----

  datatype Event = Trace(labels: seq<string>) | Refresh | Clear

  /** The view is refreshed now and then, and cleared when the user asks. */
  function Run(events: seq<Event>): Counts {
    if events == [] then map[]
    else
      var before := Run(events[..|events| - 1]);
      match events[|events| - 1]
      case Trace(labels) => Update(before, labels)
      case Refresh => ResetCurrent(before)
      case Clear => map[]
  }

  /** The traces since the counters were last cleared, or, for the current ones,
      last cleared or refreshed. */
  function TracesSince(events: seq<Event>, current: bool): seq<seq<string>> {
    if events == [] then []
    else
      var before := TracesSince(events[..|events| - 1], current);
      match events[|events| - 1]
      case Trace(labels) => before + [labels]
      case Refresh => if current then [] else before
      case Clear => []
  }

  /** The traces that have the label, or have it on top. */
  function Having(traces: seq<seq<string>>, name: string, onTop: bool): nat {
    if traces == [] then 0
    else
      var last := traces[|traces| - 1];
      Having(traces[..|traces| - 1], name, onTop)
      + if last != [] && (if onTop then last[0] == name else name in last) then 1 else 0
  }

  function NonEmpty(traces: seq<seq<string>>): nat {
    if traces == [] then 0
    else NonEmpty(traces[..|traces| - 1]) + if traces[|traces| - 1] != [] then 1 else 0
  }

  lemma UpdatedStats(counts: Counts, labels: seq<string>, name: string)
    ensures StatsOf(map[], name) == ZERO
    ensures StatsOf(ResetCurrent(counts), name) == StatsOf(counts, name).(currentOwn := 0, currentTotal := 0)
    ensures StatsOf(Update(counts, labels), name)
      == if name in labels then Counted(StatsOf(counts, name), labels[0] == name) else StatsOf(counts, name)
  {
  }

  lemma OneMore(traces: seq<seq<string>>, labels: seq<string>, name: string)
    ensures forall onTop ::
      Having(traces + [labels], name, onTop)
      == Having(traces, name, onTop)
         + if labels != [] && (if onTop then labels[0] == name else name in labels) then 1 else 0
    ensures NonEmpty(traces + [labels]) == NonEmpty(traces) + if labels != [] then 1 else 0
  {
    assert (traces + [labels])[..|traces|] == traces;
  }

  lemma NoTraces(name: string)
    ensures forall onTop :: Having([], name, onTop) == 0
    ensures NonEmpty([]) == 0
  {
  }

  /** Every counter of every label is a number of traces, over any run. */
  lemma {:induction false} CountersCountTraces(events: seq<Event>, name: string)
    ensures var s := StatsOf(Run(events), name);
      && s.currentOwn == Having(TracesSince(events, true), name, true)
      && s.currentTotal == Having(TracesSince(events, true), name, false)
      && s.overallOwn == Having(TracesSince(events, false), name, true)
      && s.overallTotal == Having(TracesSince(events, false), name, false)
  {
    NoTraces(name);
    if events != [] {
      hide Having, StatsOf, Update, ResetCurrent;
      var front := events[..|events| - 1];
      CountersCountTraces(front, name);
      UpdatedStats(map[], [], name);
      match events[|events| - 1]
      case Trace(labels) =>
        UpdatedStats(Run(front), labels, name);
        OneMore(TracesSince(front, true), labels, name);
        OneMore(TracesSince(front, false), labels, name);
      case Refresh =>
        UpdatedStats(Run(front), [], name);
      case Clear =>
    }
  }

  /** Own time is part of total time, and current time part of overall time. */
  lemma {:induction false} OwnWithinTotal(events: seq<Event>, name: string)
    ensures var s := StatsOf(Run(events), name);
      && s.currentOwn <= s.currentTotal <= s.overallTotal
      && s.currentOwn <= s.overallOwn <= s.overallTotal
  {
    if events != [] {
      OwnWithinTotal(events[..|events| - 1], name);
    }
  }

  function Owns(counts: Counts): map<string, nat> {
    map name | name in counts :: counts[name].overallOwn
  }

  function WithNew(owns: map<string, nat>, names: set<string>): map<string, nat> {
    owns + map l | l in names :: 0
  }

  lemma {:induction false} NewLabelsOwnNothing(owns: map<string, nat>, names: set<string>)
    requires names !! owns.Keys
    ensures Total(WithNew(owns, names)) == Total(owns)
    decreases |names|
  {
    hide Total;
    if names == {} {
      assert WithNew(owns, names) == owns;
    } else {
      var name :| name in names;
      TotalWithout(WithNew(owns, names), name);
      assert WithNew(owns, names) - {name} == WithNew(owns, names - {name});
      NewLabelsOwnNothing(owns, names - {name});
    }
  }

  /** The label on top gains one; new labels come in with nothing. */
  lemma OwnsAfter(before: Counts, labels: seq<string>)
    requires labels != []
    ensures var with := WithNew(Owns(before), (set l | l in labels) - before.Keys);
      && labels[0] in with
      && Owns(Update(before, labels)) == with[labels[0] := with[labels[0]] + 1]
  {
    assert labels[0] in labels;
  }

  lemma OneMoreOwner(before: Counts, labels: seq<string>)
    ensures Total(Owns(Update(before, labels))) == Total(Owns(before)) + if labels != [] then 1 else 0
  {
    hide Total;
    if labels == [] {
      assert Owns(Update(before, labels)) == Owns(before);
    } else {
      var names := (set l | l in labels) - before.Keys;
      var with := WithNew(Owns(before), names);
      NewLabelsOwnNothing(Owns(before), names);
      OwnsAfter(before, labels);
      hide Owns, Update, WithNew;
      TotalAfterUpdate(with, labels[0], with[labels[0]] + 1);
    }
  }

  /** Each trace that has a frame is somebody's own time, once. */
  lemma {:induction false} OwnTimeIsConserved(events: seq<Event>)
    ensures Total(Owns(Run(events))) == NonEmpty(TracesSince(events, false))
  {
    TotalOfNothing<string>();
    NoTraces("");
    if events == [] {
      assert Owns(map[]) == map[];
    } else {
      hide Total, NonEmpty, Having;
      var front := events[..|events| - 1];
      OwnTimeIsConserved(front);
      var before := Run(front);
      match events[|events| - 1]
      case Trace(labels) =>
        OneMore(TracesSince(front, false), labels, "");
        OneMoreOwner(before, labels);
      case Refresh =>
        assert Owns(Run(events)) == Owns(before);
      case Clear =>
        assert Owns(map[]) == map[];
    }
  }

  // ----- the counters, in place -----

  class TopCounters {
    var counts: Counts

    constructor ()
      ensures counts == map[]
    {
      counts := map[];
    }

    /** First the earliest frame of each label, then the labels in an order of the
        hash map's own: the result does not depend on it. */
    method AddTrace(labels: seq<string>)
      modifies this
      ensures counts == Update(old(counts), labels)
    {
      var current := FirstFrames(labels);
      var left := current.Keys;
      ghost var done: set<string> := {};
      while left != {}
        invariant left !! done && left + done == current.Keys
        invariant counts.Keys == old(counts).Keys + done
        invariant forall name | name in done :: counts[name] == Counted(StatsOf(old(counts), name), labels[0] == name)
        invariant forall name | name in old(counts) && name !in done :: counts[name] == old(counts)[name]
      {
        var name :| name in left;
        counts := counts[name := Counted(StatsOf(counts, name), current[name] == 0)];
        left, done := left - {name}, done + {name};
      }
    }

    method FirstFrames(labels: seq<string>) returns (current: map<string, nat>)
      ensures current.Keys == set l | l in labels
      ensures forall name | name in current :: current[name] < |labels| && labels[current[name]] == name
      ensures forall name | name in current :: current[name] == 0 <==> labels[0] == name
    {
      current := map[];
      for i := 0 to |labels|
        invariant forall name :: name in current <==> name in labels[..i]
        invariant forall name | name in current :: current[name] < i && labels[current[name]] == name
        invariant forall name | name in current :: forall j | 0 <= j < current[name] :: labels[j] != name
      {
        if labels[i] !in current {
          assert forall j | 0 <= j < i :: labels[j] in labels[..i];
          current := current[labels[i] := i];
        }
        assert labels[..i + 1] == labels[..i] + [labels[i]];
      }
      assert labels[..|labels|] == labels;
    }

    method ResetCounters()
      modifies this
      ensures counts == ResetCurrent(old(counts))
    {
      var left := counts.Keys;
      while left != {}
        invariant left <= counts.Keys == old(counts).Keys
        invariant forall name | name in counts ::
          counts[name]
          == if name in left then old(counts)[name] else old(counts)[name].(currentOwn := 0, currentTotal := 0)
      {
        var name :| name in left;
        counts := counts[name := counts[name].(currentTotal := 0, currentOwn := 0)];
        left := left - {name};
      }
    }
  }
}
