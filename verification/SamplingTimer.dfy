/** The compensating timer: how late a tick is, over a whole run. */
module SamplingTimer {

  datatype Tick = OnTime(slept: nat) | Late(behind: nat)

  /** One call, `elapsed` after the start: wait until the sum of the gaps so far. */
  function NextTick(desired: nat, elapsed: nat, gap: nat): (Tick, nat) {
    var due := desired + gap;
    (if due > elapsed then OnTime(due - elapsed) else Late(elapsed - due), due)
  }

  /** Before a call the loop was busy for some time, counted from when the tick
      before was to return (so a sleep that takes too long counts as busy); then
      the timer draws a gap. */
  datatype Round = Round(busy: nat, gap: nat)

  /** When the ticks so far were due, when the last one returned, and what it said. */
  datatype Progress = Progress(desired: nat, clock: nat, tick: Tick)

  function Run(rounds: seq<Round>): Progress {
    if rounds == [] then Progress(0, 0, Late(0))
    else
      var before := Run(rounds[..|rounds| - 1]);
      var round := rounds[|rounds| - 1];
      var elapsed := before.clock + round.busy;
      var (tick, due) := NextTick(before.desired, elapsed, round.gap);
      Progress(due, if tick.OnTime? then elapsed + tick.slept else elapsed, tick)
  }

  function Lateness(tick: Tick): nat {
    if tick.Late? then tick.behind else 0
  }

  function SumOfGaps(rounds: seq<Round>): nat {
    if rounds == [] then 0 else SumOfGaps(rounds[..|rounds| - 1]) + rounds[|rounds| - 1].gap
  }

  /** Busy time minus gaps, from round j on. */
  function Backlog(rounds: seq<Round>, j: nat): int
    requires j <= |rounds|
    decreases |rounds|
  {
    if j == |rounds| then 0
    else Backlog(rounds[..|rounds| - 1], j) + rounds[|rounds| - 1].busy - rounds[|rounds| - 1].gap
  }

  /** A tick returns when the gaps so far add up, or later by exactly what it reports; it is
      on time only if it has slept. */
  lemma {:induction false} ReturnsWhenDue(rounds: seq<Round>)
    ensures Run(rounds).desired == SumOfGaps(rounds)
    ensures Run(rounds).clock == SumOfGaps(rounds) + Lateness(Run(rounds).tick)
    ensures Run(rounds).tick.OnTime? ==> Run(rounds).tick.slept > 0
  {
    if rounds != [] {
      ReturnsWhenDue(rounds[..|rounds| - 1]);
    }
  }

  /** Lateness carries over: it grows by the busy time and shrinks by the gap. */
  lemma LatenessStep(rounds: seq<Round>, round: Round)
    ensures Lateness(Run(rounds + [round]).tick)
      == var l := Lateness(Run(rounds).tick) + round.busy - round.gap; if l > 0 then l else 0
  {
    ReturnsWhenDue(rounds);
    assert (rounds + [round])[..|rounds|] == rounds;
  }

  /** The lateness is the greatest backlog of any stretch of rounds up to now, the
      empty one included: it bounds each of them and is one of them.  So nothing
      but the current backlog accumulates. */
  lemma {:induction false} LatenessIsGreatestBacklog(rounds: seq<Round>) returns (from: nat)
    ensures from <= |rounds| && Lateness(Run(rounds).tick) == Backlog(rounds, from)
    ensures forall j | 0 <= j <= |rounds| :: Backlog(rounds, j) <= Lateness(Run(rounds).tick)
  {
    if rounds == [] {
      from := 0;
    } else {
      var front, last := rounds[..|rounds| - 1], rounds[|rounds| - 1];
      from := LatenessIsGreatestBacklog(front);
      LatenessStep(front, last);
      assert rounds == front + [last];
      if Lateness(Run(rounds).tick) == 0 {
        from := |rounds|;
      }
      forall j | 0 <= j <= |rounds| ensures Backlog(rounds, j) <= Lateness(Run(rounds).tick) {
        if j < |rounds| {
          assert Backlog(front, j) <= Lateness(Run(front).tick);
        }
      }
    }
  }

  class Timer {
    var desired: nat

    constructor ()
      ensures desired == 0
    {
      desired := 0;
    }

    /** `elapsed` is read from the clock, `gap` is drawn; what is returned is also
        how long the caller sleeps. */
    method Next(elapsed: nat, gap: nat) returns (tick: Tick)
      modifies this
      ensures (tick, desired) == NextTick(old(desired), elapsed, gap)
      ensures elapsed + (if tick.OnTime? then tick.slept else 0) == desired + Lateness(tick)
    {
      desired := desired + gap;
      if desired > elapsed {
        tick := OnTime(desired - elapsed);
      } else {
        tick := Late(elapsed - desired);
      }
    }
  }
}
