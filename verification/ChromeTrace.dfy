/** The Chrome trace writer: snapshots of stacks become a stream of begin and end
    events, read back as pushes and pops on one stack for each process and thread. */
module ChromeTraces {
  import opened Wrappers
  import opened StackTraces

  datatype Phase = Begin | End

  datatype Event = Event(name: string, filename: string, line: Option<nat>, phase: Phase, pid: nat, tid: nat, ts: nat)

  /** What a viewer shows of a frame, and what decides whether two frames merge. */
  datatype Key = Key(name: string, filename: string, line: Option<nat>)

  function KeyOf(frame: Frame, showLineNumbers: bool): Key {
    Key(frame.name, frame.filename, if showLineNumbers then Some(AsU32(frame.line)) else None)
  }

  predicate ShouldMergeFrames(a: Frame, b: Frame, showLineNumbers: bool) {
    a.name == b.name && a.filename == b.filename && (!showLineNumbers || a.line == b.line)
  }

  lemma MergedFramesHaveOneKey(a: Frame, b: Frame, showLineNumbers: bool)
    ensures ShouldMergeFrames(a, b, showLineNumbers) <==> KeyOf(a, showLineNumbers) == KeyOf(b, showLineNumbers)
  {
  }

  function EventFor(trace: StackTrace, frame: Frame, phase: Phase, ts: nat, showLineNumbers: bool): Event {
    Event(frame.name, frame.filename, if showLineNumbers then Some(AsU32(frame.line)) else None,
          phase, AsU64(trace.pid), trace.threadId, ts)
  }

  /** The number of frames, from the root, that go on from one trace to the next. */
  function SharedFrames(prev: seq<Frame>, frames: seq<Frame>, i: nat, showLineNumbers: bool): (n: nat)
    requires i <= |prev| && i <= |frames|
    ensures i <= n <= |prev| && n <= |frames|
    decreases |prev| - i
  {
    if i < |prev| && i < |frames| && ShouldMergeFrames(prev[|prev| - 1 - i], frames[|frames| - 1 - i], showLineNumbers)
    then SharedFrames(prev, frames, i + 1, showLineNumbers)
    else i
  }

  // ----- the writer, as values -----

  datatype Writer = Writer(events: seq<Event>, prevTraces: map<nat, StackTrace>)

  const EMPTY: Writer := Writer([], map[])

  /** End events for the `n` innermost frames, innermost first. */
  function Ends(trace: StackTrace, frames: seq<Frame>, n: nat, ts: nat, show: bool): (events: seq<Event>)
    requires n <= |frames|
    ensures |events| == n
    ensures forall i | 0 <= i < n :: events[i] == EventFor(trace, frames[i], End, ts, show)
  {
    seq(n, i requires 0 <= i < n && n <= |frames| => EventFor(trace, frames[i], End, ts, show))
  }

  /** Begin events for the `n` innermost frames, outermost of them first. */
  function Begins(trace: StackTrace, frames: seq<Frame>, n: nat, ts: nat, show: bool): (events: seq<Event>)
    requires n <= |frames|
    ensures |events| == n
    ensures forall i | 0 <= i < n :: events[i] == EventFor(trace, frames[n - 1 - i], Begin, ts, show)
  {
    seq(n, i requires 0 <= i < n && n <= |frames| => EventFor(trace, frames[n - 1 - i], Begin, ts, show))
  }

  function PrevFrames(w: Writer, threadId: nat): seq<Frame> {
    if threadId in w.prevTraces then w.prevTraces[threadId].frames else []
  }

  function Emitted(w: Writer, trace: StackTrace, ts: nat, show: bool): seq<Event> {
    var prev := PrevFrames(w, trace.threadId);
    var shared := SharedFrames(prev, trace.frames, 0, show);
    Ends(trace, prev, |prev| - shared, ts, show) + Begins(trace, trace.frames, |trace.frames| - shared, ts, show)
  }

  function Increment(w: Writer, trace: StackTrace, ts: nat, show: bool): Writer {
    Writer(w.events + Emitted(w, trace, ts, show), w.prevTraces[trace.threadId := trace])
  }

  // ----- replaying events -----

  /** One event on the stack of (pid, tid): an end must close the frame on top. */
  function Apply(stack: seq<Key>, e: Event, pid: nat, tid: nat): Option<seq<Key>> {
    if e.pid != pid || e.tid != tid then Some(stack)
    else if e.phase == Begin then Some(stack + [Key(e.name, e.filename, e.line)])
    else if stack != [] && stack[|stack| - 1] == Key(e.name, e.filename, e.line) then Some(stack[..|stack| - 1])
    else None
  }

  function Replay(stack: seq<Key>, events: seq<Event>, pid: nat, tid: nat): Option<seq<Key>>
    decreases |events|
  {
    if events == [] then Some(stack)
    else
      var next :- Apply(stack, events[0], pid, tid);
      Replay(next, events[1..], pid, tid)
  }

  lemma {:induction false} ReplayOfParts(stack: seq<Key>, first: seq<Event>, second: seq<Event>, pid: nat, tid: nat)
    ensures var mid := Replay(stack, first, pid, tid);
      Replay(stack, first + second, pid, tid) == if mid.None? then None else Replay(mid.value, second, pid, tid)
    decreases |first|
  {
    if first == [] {
      assert [] + second == second;
    } else {
      assert (first + second)[1..] == first[1..] + second;
      var next := Apply(stack, first[0], pid, tid);
      if next.Some? {
        ReplayOfParts(next.value, first[1..], second, pid, tid);
      }
    }
  }

  lemma {:induction false} OtherChannel(stack: seq<Key>, events: seq<Event>, pid: nat, tid: nat)
    requires forall e | e in events :: e.pid != pid || e.tid != tid
    ensures Replay(stack, events, pid, tid) == Some(stack)
    decreases |events|
  {
    if events != [] {
      OtherChannel(stack, events[1..], pid, tid);
    }
  }

  /** The stack of a trace, root first. */
  function Keys(frames: seq<Frame>, show: bool): (keys: seq<Key>)
    ensures |keys| == |frames|
  {
    seq(|frames|, i requires 0 <= i < |frames| => KeyOf(frames[|frames| - 1 - i], show))
  }

  lemma {:induction false} EndsPop(trace: StackTrace, frames: seq<Frame>, n: nat, ts: nat, show: bool)
    requires n <= |frames|
    ensures Replay(Keys(frames, show), Ends(trace, frames, n, ts, show), AsU64(trace.pid), trace.threadId)
            == Some(Keys(frames, show)[..|frames| - n])
    decreases n
  {
    var keys := Keys(frames, show);
    if n == 0 {
      assert keys[..|frames|] == keys;
    } else {
      var events := Ends(trace, frames, n, ts, show);
      var rest := Ends(trace, frames[1..], n - 1, ts, show);
      assert keys[|keys| - 1] == KeyOf(frames[0], show);
      assert Keys(frames[1..], show) == keys[..|keys| - 1];
      EndsPop(trace, frames[1..], n - 1, ts, show);
      assert keys[..|keys| - 1][..|frames| - n] == keys[..|frames| - n];
      assert events[1..] == rest;
    }
  }

  lemma {:induction false} BeginsPush(trace: StackTrace, frames: seq<Frame>, n: nat, ts: nat, show: bool)
    requires n <= |frames|
    ensures Replay(Keys(frames, show)[..|frames| - n], Begins(trace, frames, n, ts, show),
                   AsU64(trace.pid), trace.threadId)
            == Some(Keys(frames, show))
    decreases n
  {
    var keys := Keys(frames, show);
    if n == 0 {
      assert keys[..|frames|] == keys;
    } else {
      var events := Begins(trace, frames, n, ts, show);
      var rest := Begins(trace, frames, n - 1, ts, show);
      assert events[1..] == rest;
      assert keys[|frames| - n] == KeyOf(frames[n - 1], show);
      assert keys[..|frames| - n] + [keys[|frames| - n]] == keys[..|frames| - (n - 1)];
      BeginsPush(trace, frames, n - 1, ts, show);
    }
  }

  // ----- the shared part -----

  /** The length of the longest common prefix. */
  function Lcp(a: seq<Key>, b: seq<Key>): (n: nat)
    ensures n <= |a| && n <= |b| && a[..n] == b[..n]
    ensures n < |a| && n < |b| ==> a[n] != b[n]
  {
    if a != [] && b != [] && a[0] == b[0] then
      var n := Lcp(a[1..], b[1..]);
      assert a[..n + 1] == [a[0]] + a[1..][..n] && b[..n + 1] == [b[0]] + b[1..][..n];
      n + 1
    else 0
  }

  lemma LcpIsUnique(a: seq<Key>, b: seq<Key>, n: nat)
    requires n <= |a| && n <= |b| && a[..n] == b[..n]
    requires n < |a| && n < |b| ==> a[n] != b[n]
    ensures n == Lcp(a, b)
  {
    var l := Lcp(a, b);
    assert forall i | 0 <= i < l :: a[i] == a[..l][i] == b[..l][i] == b[i];
    assert forall i | 0 <= i < n :: a[i] == a[..n][i] == b[..n][i] == b[i];
  }

  lemma {:induction false} SharedIsMaximal(prev: seq<Frame>, frames: seq<Frame>, i: nat, show: bool)
    requires i <= |prev| && i <= |frames|
    requires Keys(prev, show)[..i] == Keys(frames, show)[..i]
    ensures SharedFrames(prev, frames, i, show) == Lcp(Keys(prev, show), Keys(frames, show))
    decreases |prev| - i
  {
    var a, b := Keys(prev, show), Keys(frames, show);
    hide Lcp, KeyOf, ShouldMergeFrames;
    if i < |prev| && i < |frames| {
      MergedFramesHaveOneKey(prev[|prev| - 1 - i], frames[|frames| - 1 - i], show);
      if a[i] == b[i] {
        assert a[..i + 1] == a[..i] + [a[i]] && b[..i + 1] == b[..i] + [b[i]];
        SharedIsMaximal(prev, frames, i + 1, show);
      } else {
        LcpIsUnique(a, b, i);
      }
    } else {
      LcpIsUnique(a, b, i);
    }
  }

  // ----- faithfulness -----

  /** The stack a viewer should show for (pid, tid): that of the thread's last trace. */
  function Open(w: Writer, show: bool, pid: nat, tid: nat): seq<Key> {
    if tid in w.prevTraces && AsU64(w.prevTraces[tid].pid) == pid then Keys(w.prevTraces[tid].frames, show) else []
  }

  /** Every stack replays, without popping a frame that is not on top, to what it should show. */
  ghost predicate Faithful(w: Writer, show: bool) {
    forall pid: nat, tid: nat :: Replay([], w.events, pid, tid) == Some(Open(w, show, pid, tid))
  }

  /** The thread has not moved to another process while frames were open. */
  predicate PidKept(w: Writer, trace: StackTrace) {
    trace.threadId !in w.prevTraces
    || w.prevTraces[trace.threadId].pid == trace.pid
    || w.prevTraces[trace.threadId].frames == []
  }

  lemma EmittedTurnsOneStackIntoTheNext(w: Writer, trace: StackTrace, ts: nat, show: bool)
    ensures Replay(Keys(PrevFrames(w, trace.threadId), show), Emitted(w, trace, ts, show),
                   AsU64(trace.pid), trace.threadId)
            == Some(Keys(trace.frames, show))
  {
    hide Replay, SharedFrames;
    var prev := PrevFrames(w, trace.threadId);
    var shared := SharedFrames(prev, trace.frames, 0, show);
    SharedIsMaximal(prev, trace.frames, 0, show);
    var ends := Ends(trace, prev, |prev| - shared, ts, show);
    var begins := Begins(trace, trace.frames, |trace.frames| - shared, ts, show);
    EndsPop(trace, prev, |prev| - shared, ts, show);
    BeginsPush(trace, trace.frames, |trace.frames| - shared, ts, show);
    ReplayOfParts(Keys(prev, show), ends, begins, AsU64(trace.pid), trace.threadId);
  }

  /** The event says of the trace when, in which process and in which thread it was, and of
      the frame what a viewer shows; process and line are the unsigned numbers of 64 and
      32 bits. */
  predicate Tells(e: Event, trace: StackTrace, frame: Frame, ts: nat, show: bool) {
    && e.ts == ts && e.pid == (trace.pid + 0x1_0000_0000_0000_0000) % 0x1_0000_0000_0000_0000
    && e.tid == trace.threadId && e.name == frame.name && e.filename == frame.filename
    && e.line == if show then Some((frame.line + 0x1_0000_0000) % 0x1_0000_0000) else None
  }

  lemma EventTells(trace: StackTrace, frame: Frame, phase: Phase, ts: nat, show: bool)
    ensures Tells(EventFor(trace, frame, phase, ts, show), trace, frame, ts, show)
    ensures EventFor(trace, frame, phase, ts, show).phase == phase
  {
  }

  ghost predicate TellsOfOne(e: Event, trace: StackTrace, frames: seq<Frame>, ts: nat, show: bool) {
    exists frame: Frame :: frame in frames && Tells(e, trace, frame, ts, show)
  }

  lemma EndsTell(trace: StackTrace, frames: seq<Frame>, n: nat, ts: nat, show: bool)
    requires n <= |frames|
    ensures forall e | e in Ends(trace, frames, n, ts, show) ::
              e.phase == End && TellsOfOne(e, trace, frames, ts, show)
  {
    hide Tells;
    var ends := Ends(trace, frames, n, ts, show);
    forall e | e in ends ensures e.phase == End && TellsOfOne(e, trace, frames, ts, show) {
      var i :| 0 <= i < n && ends[i] == e;
      EventTells(trace, frames[i], End, ts, show);
      assert frames[i] in frames;
    }
  }

  lemma BeginsTell(trace: StackTrace, frames: seq<Frame>, n: nat, ts: nat, show: bool)
    requires n <= |frames|
    ensures forall e | e in Begins(trace, frames, n, ts, show) ::
              e.phase == Begin && TellsOfOne(e, trace, frames, ts, show)
  {
    hide Tells;
    var begins := Begins(trace, frames, n, ts, show);
    forall e | e in begins ensures e.phase == Begin && TellsOfOne(e, trace, frames, ts, show) {
      var i :| 0 <= i < n && begins[i] == e;
      EventTells(trace, frames[n - 1 - i], Begin, ts, show);
      assert frames[n - 1 - i] in frames;
    }
  }

  /** Every event of a snapshot tells of a frame: an end of one of the last trace, a begin of
      one of this trace, and both of the time, process and thread of this one. */
  lemma EventsOfSnapshot(w: Writer, trace: StackTrace, ts: nat, show: bool, e: Event)
    requires e in Emitted(w, trace, ts, show)
    ensures TellsOfOne(e, trace, if e.phase == End then PrevFrames(w, trace.threadId) else trace.frames, ts, show)
  {
    hide SharedFrames, TellsOfOne, Ends, Begins;
    var prev := PrevFrames(w, trace.threadId);
    var shared := SharedFrames(prev, trace.frames, 0, show);
    EndsTell(trace, prev, |prev| - shared, ts, show);
    BeginsTell(trace, trace.frames, |trace.frames| - shared, ts, show);
  }

  lemma EmittedOnOneChannel(w: Writer, trace: StackTrace, ts: nat, show: bool)
    ensures forall e | e in Emitted(w, trace, ts, show) ::
              e.pid == AsU64(trace.pid) && e.tid == trace.threadId && e.ts == ts
  {
    forall e | e in Emitted(w, trace, ts, show)
      ensures e.pid == AsU64(trace.pid) && e.tid == trace.threadId && e.ts == ts
    {
      EventsOfSnapshot(w, trace, ts, show, e);
    }
  }

  lemma AfterIncrement(w: Writer, trace: StackTrace, ts: nat, show: bool, pid: nat, tid: nat)
    requires Faithful(w, show)
    ensures var after := Increment(w, trace, ts, show);
      Replay([], after.events, pid, tid)
      == if pid == AsU64(trace.pid) && tid == trace.threadId
         then Replay(Open(w, show, pid, tid), Emitted(w, trace, ts, show), pid, tid)
         else Some(Open(w, show, pid, tid))
  {
    ReplayOfParts([], w.events, Emitted(w, trace, ts, show), pid, tid);
    EmittedOnOneChannel(w, trace, ts, show);
    if pid != AsU64(trace.pid) || tid != trace.threadId {
      OtherChannel(Open(w, show, pid, tid), Emitted(w, trace, ts, show), pid, tid);
    }
  }

  /** One snapshot keeps the stream faithful exactly when the thread kept its process. */
  lemma IncrementIsFaithful(w: Writer, trace: StackTrace, ts: nat, show: bool)
    requires Faithful(w, show)
    ensures Faithful(Increment(w, trace, ts, show), show) <==> PidKept(w, trace)
  {
    var after := Increment(w, trace, ts, show);
    if PidKept(w, trace) {
      forall pid: nat, tid: nat ensures Replay([], after.events, pid, tid) == Some(Open(after, show, pid, tid)) {
        AfterIncrement(w, trace, ts, show, pid, tid);
        EmittedTurnsOneStackIntoTheNext(w, trace, ts, show);
      }
    } else {
      var previous := w.prevTraces[trace.threadId];
      AfterIncrement(w, trace, ts, show, AsU64(previous.pid), trace.threadId);
      assert Open(after, show, AsU64(previous.pid), trace.threadId) == [];
    }
  }

  // ----- whole runs -----

  datatype Snapshot = Snapshot(trace: StackTrace, ts: nat)

  function RunFrom(w: Writer, snapshots: seq<Snapshot>, show: bool): Writer
    decreases |snapshots|
  {
    if snapshots == [] then w
    else RunFrom(Increment(w, snapshots[0].trace, snapshots[0].ts, show), snapshots[1..], show)
  }

  predicate PidsKept(w: Writer, snapshots: seq<Snapshot>, show: bool)
    decreases |snapshots|
  {
    snapshots == [] ||
    (PidKept(w, snapshots[0].trace)
     && PidsKept(Increment(w, snapshots[0].trace, snapshots[0].ts, show), snapshots[1..], show))
  }

  ghost predicate AlwaysFaithful(w: Writer, snapshots: seq<Snapshot>, show: bool)
    decreases |snapshots|
  {
    Faithful(w, show)
    && (snapshots == []
        || AlwaysFaithful(Increment(w, snapshots[0].trace, snapshots[0].ts, show), snapshots[1..], show))
  }

  /** The stream is faithful after every snapshot of a run exactly when no thread
      id moves to another process while it has frames open. */
  lemma {:induction false} RunIsFaithful(w: Writer, snapshots: seq<Snapshot>, show: bool)
    requires Faithful(w, show)
    ensures AlwaysFaithful(w, snapshots, show) <==> PidsKept(w, snapshots, show)
    decreases |snapshots|
  {
    if snapshots != [] {
      IncrementIsFaithful(w, snapshots[0].trace, snapshots[0].ts, show);
      var next := Increment(w, snapshots[0].trace, snapshots[0].ts, show);
      if PidKept(w, snapshots[0].trace) {
        RunIsFaithful(next, snapshots[1..], show);
      }
    }
  }

  predicate InOrder(events: seq<Event>) {
    forall i, j | 0 <= i < j < |events| :: events[i].ts <= events[j].ts
  }

  /** The snapshots are taken one after the other, the first not before `from`. */
  predicate TakenFrom(from: nat, snapshots: seq<Snapshot>) {
    && (forall i | 0 <= i < |snapshots| :: from <= snapshots[i].ts)
    && forall i, j | 0 <= i < j < |snapshots| :: snapshots[i].ts <= snapshots[j].ts
  }

  lemma IncrementKeepsOrder(w: Writer, trace: StackTrace, from: nat, ts: nat, show: bool)
    requires InOrder(w.events) && (forall e | e in w.events :: e.ts <= from) && from <= ts
    ensures var after := Increment(w, trace, ts, show);
      InOrder(after.events) && forall e | e in after.events :: e.ts <= ts
  {
    EmittedOnOneChannel(w, trace, ts, show);
    hide Emitted;
    var emitted := Emitted(w, trace, ts, show);
    forall i, j | 0 <= i < j < |w.events + emitted| ensures (w.events + emitted)[i].ts <= (w.events + emitted)[j].ts {
      if j >= |w.events| {
        assert emitted[j - |w.events|] in emitted;
        assert if i < |w.events| then w.events[i] in w.events else emitted[i - |w.events|] in emitted;
      }
    }
  }

  /** The events of a run are in the order of time if the snapshots are. */
  lemma {:induction false} RunKeepsOrder(w: Writer, snapshots: seq<Snapshot>, from: nat, show: bool)
    requires InOrder(w.events) && (forall e | e in w.events :: e.ts <= from) && TakenFrom(from, snapshots)
    ensures InOrder(RunFrom(w, snapshots, show).events)
    decreases |snapshots|
  {
    if snapshots != [] {
      hide InOrder, Increment;
      IncrementKeepsOrder(w, snapshots[0].trace, from, snapshots[0].ts, show);
      RunKeepsOrder(Increment(w, snapshots[0].trace, snapshots[0].ts, show), snapshots[1..], snapshots[0].ts, show);
    }
  }

  lemma {:induction false} FaithfulToTheEnd(w: Writer, snapshots: seq<Snapshot>, show: bool)
    requires AlwaysFaithful(w, snapshots, show)
    ensures Faithful(RunFrom(w, snapshots, show), show)
    decreases |snapshots|
  {
    if snapshots != [] {
      FaithfulToTheEnd(Increment(w, snapshots[0].trace, snapshots[0].ts, show), snapshots[1..], show);
    }
  }

  /** A thread id reused by another process breaks the stream: the frame opened in
      process 1 is closed in process 2, which never opened it. */
  lemma ReusedThreadIdEndsForeignFrame(frame: Frame, show: bool)
    ensures var s1 := Snapshot(StackTrace(1, 7, None, None, true, [frame]), 0);
      var s2 := Snapshot(StackTrace(2, 7, None, None, true, []), 1);
      Replay([], RunFrom(EMPTY, [s1, s2], show).events, 2, 7).None?
  {
    var t1 := StackTrace(1, 7, None, None, true, [frame]);
    var t2 := StackTrace(2, 7, None, None, true, []);
    var w1 := Increment(EMPTY, t1, 0, show);
    var w2 := Increment(w1, t2, 1, show);
    var b, e := EventFor(t1, frame, Begin, 0, show), EventFor(t2, frame, End, 1, show);
    assert Emitted(EMPTY, t1, 0, show) == [b];
    assert Emitted(w1, t2, 1, show) == [e];
    assert w2.events == [b, e];
    var s1, s2 := Snapshot(t1, 0), Snapshot(t2, 1);
    assert [s1, s2][1..] == [s2] && [s2][1..] == [];
    assert RunFrom(w1, [s2], show) == w2;
    assert [b, e][1..] == [e];
    assert Replay([], [e], 2, 7).None?;
  }

  // ----- closing the file -----

  /** End events for all open frames, thread after thread in some order. */
  function Closing(prevTraces: map<nat, StackTrace>, order: seq<nat>, ts: nat, show: bool): seq<Event>
    requires forall tid | tid in order :: tid in prevTraces
  {
    if order == [] then []
    else
      var trace := prevTraces[order[0]];
      Ends(trace, trace.frames, |trace.frames|, ts, show) + Closing(prevTraces, order[1..], ts, show)
  }

  /** The events that close the file are ends, all at the time it is written. */
  lemma {:induction false} ClosingTells(prevTraces: map<nat, StackTrace>, order: seq<nat>, ts: nat, show: bool)
    requires forall tid | tid in order :: tid in prevTraces
    ensures forall e | e in Closing(prevTraces, order, ts, show) :: e.phase == End && e.ts == ts
    decreases |order|
  {
    if order != [] {
      var trace := prevTraces[order[0]];
      EndsTell(trace, trace.frames, |trace.frames|, ts, show);
      ClosingTells(prevTraces, order[1..], ts, show);
      hide Ends;
    }
  }

  /** A file written after its last snapshot has its events in the order of time. */
  lemma WrittenFileIsInOrder(w: Writer, order: seq<nat>, ts: nat, show: bool)
    requires InOrder(w.events) && forall e | e in w.events :: e.ts <= ts
    requires forall tid | tid in order :: tid in w.prevTraces
    ensures InOrder(w.events + Closing(w.prevTraces, order, ts, show))
  {
    ClosingTells(w.prevTraces, order, ts, show);
    hide Closing;
    var closing := Closing(w.prevTraces, order, ts, show);
    var all := w.events + closing;
    forall i, j | 0 <= i < j < |all| ensures all[i].ts <= all[j].ts {
      if j >= |w.events| {
        assert closing[j - |w.events|] in closing;
        assert if i < |w.events| then w.events[i] in w.events else closing[i - |w.events|] in closing;
      }
    }
  }

  ghost predicate Enumerates(order: seq<nat>, keys: set<nat>) {
    (forall i, j | 0 <= i < j < |order| :: order[i] != order[j]) && forall tid :: tid in order <==> tid in keys
  }

  /** Each trace is filed under its own thread. */
  predicate FiledByThread(prevTraces: map<nat, StackTrace>) {
    forall tid | tid in prevTraces :: prevTraces[tid].threadId == tid
  }

  lemma {:induction false} ClosingEmptiesOneStack(prevTraces: map<nat, StackTrace>, order: seq<nat>, ts: nat,
          show: bool, pid: nat, tid: nat)
    requires FiledByThread(prevTraces)
    requires forall t | t in order :: t in prevTraces
    requires forall i, j | 0 <= i < j < |order| :: order[i] != order[j]
    ensures var w := Writer([], prevTraces);
      && Replay([], Closing(prevTraces, order, ts, show), pid, tid)
         == (if tid in order && Open(w, show, pid, tid) != [] then None else Some([]))
      && (tid in order ==> Replay(Open(w, show, pid, tid), Closing(prevTraces, order, ts, show), pid, tid) == Some([]))
    decreases |order|
  {
    if order != [] {
      var trace := prevTraces[order[0]];
      var w := Writer([], prevTraces);
      var first := Ends(trace, trace.frames, |trace.frames|, ts, show);
      var rest := Closing(prevTraces, order[1..], ts, show);
      ClosingEmptiesOneStack(prevTraces, order[1..], ts, show, pid, tid);
      ReplayOfParts([], first, rest, pid, tid);
      ReplayOfParts(Open(w, show, pid, tid), first, rest, pid, tid);
      if order[0] == tid && AsU64(trace.pid) == pid {
        EndsPop(trace, trace.frames, |trace.frames|, ts, show);
        assert tid !in order[1..];
        if trace.frames != [] {
          assert Apply([], first[0], pid, tid).None?;
        }
      } else {
        OtherChannel([], first, pid, tid);
        OtherChannel(Open(w, show, pid, tid), first, pid, tid);
      }
    }
  }

  /** What is written closes every frame of every thread, in whatever order the
      threads come out of the hash map. */
  lemma WrittenFileIsBalanced(w: Writer, order: seq<nat>, ts: nat, show: bool, pid: nat, tid: nat)
    requires Faithful(w, show) && FiledByThread(w.prevTraces) && Enumerates(order, w.prevTraces.Keys)
    ensures forall t | t in order :: t in w.prevTraces
    ensures Replay([], w.events + Closing(w.prevTraces, order, ts, show), pid, tid) == Some([])
  {
    ReplayOfParts([], w.events, Closing(w.prevTraces, order, ts, show), pid, tid);
    ClosingEmptiesOneStack(w.prevTraces, order, ts, show, pid, tid);
    assert Open(Writer([], w.prevTraces), show, pid, tid) == Open(w, show, pid, tid);
  }

  lemma {:induction false} RunKeepsFiling(w: Writer, snapshots: seq<Snapshot>, show: bool)
    requires FiledByThread(w.prevTraces)
    ensures FiledByThread(RunFrom(w, snapshots, show).prevTraces)
    decreases |snapshots|
  {
    if snapshots != [] {
      hide Emitted;
      RunKeepsFiling(Increment(w, snapshots[0].trace, snapshots[0].ts, show), snapshots[1..], show);
    }
  }

  /** The file of a whole run, in which no thread id moves between processes with frames
      open: every end event closes the frame on top, and at the end none is left open,
      in whatever order the threads are closed. */
  lemma WrittenRunIsBalanced(snapshots: seq<Snapshot>, order: seq<nat>, ts: nat, show: bool, pid: nat, tid: nat)
    requires PidsKept(EMPTY, snapshots, show)
    requires Enumerates(order, RunFrom(EMPTY, snapshots, show).prevTraces.Keys)
    ensures var w := RunFrom(EMPTY, snapshots, show);
      && (forall t | t in order :: t in w.prevTraces)
      && Replay([], w.events + Closing(w.prevTraces, order, ts, show), pid, tid) == Some([])
  {
    assert Faithful(EMPTY, show);
    RunIsFaithful(EMPTY, snapshots, show);
    FaithfulToTheEnd(EMPTY, snapshots, show);
    RunKeepsFiling(EMPTY, snapshots, show);
    hide Faithful, FiledByThread, Replay, RunFrom, Closing;
    WrittenFileIsBalanced(RunFrom(EMPTY, snapshots, show), order, ts, show, pid, tid);
  }

  // ----- minimality -----

  datatype Op = Push(key: Key) | Pop

  /** A push/pop script on a stack; a pop needs something to pop. */
  function RunScript(stack: seq<Key>, script: seq<Op>): Option<seq<Key>>
    decreases |script|
  {
    if script == [] then Some(stack)
    else match script[0]
      case Push(key) => RunScript(stack + [key], script[1..])
      case Pop => if stack == [] then None else RunScript(stack[..|stack| - 1], script[1..])
  }

  function Distance(a: seq<Key>, b: seq<Key>): nat {
    |a| + |b| - 2 * Lcp(a, b)
  }

  lemma LcpLowerBound(a: seq<Key>, b: seq<Key>, n: nat)
    requires n <= |a| && n <= |b| && a[..n] == b[..n]
    ensures n <= Lcp(a, b)
  {
    assert forall i | 0 <= i < n :: a[i] == a[..n][i] == b[..n][i] == b[i];
  }

  /** One push moves a stack at most one step closer to another. */
  lemma PushIsOneStep(stack: seq<Key>, key: Key, goal: seq<Key>)
    ensures Distance(stack, goal) <= Distance(stack + [key], goal) + 1
    ensures Distance(stack + [key], goal) <= Distance(stack, goal) + 1
  {
    var n := Lcp(stack, goal);
    if n == |stack| < |goal| && goal[n] == key {
      var longer := stack + [key];
      assert longer[..n + 1] == stack[..n] + [key] && goal[..n + 1] == goal[..n] + [key];
      LcpLowerBound(longer, goal, n + 1);
      assert Lcp(longer, goal) == n + 1;
    } else {
      assert (stack + [key])[..n] == stack[..n];
      LcpIsUnique(stack + [key], goal, n);
    }
  }

  lemma {:induction false} NoShorterScript(stack: seq<Key>, goal: seq<Key>, script: seq<Op>)
    requires RunScript(stack, script) == Some(goal)
    ensures Distance(stack, goal) <= |script|
    decreases |script|
  {
    if script == [] {
      LcpLowerBound(goal, goal, |goal|);
    } else {
      match script[0]
      case Push(key) =>
        PushIsOneStep(stack, key, goal);
        NoShorterScript(stack + [key], goal, script[1..]);
      case Pop =>
        var popped, top := stack[..|stack| - 1], stack[|stack| - 1];
        assert popped + [top] == stack;
        PushIsOneStep(popped, top, goal);
        NoShorterScript(popped, goal, script[1..]);
    }
  }

  /** One snapshot emits as many events as the two stacks differ by, and no
      push/pop script from the old stack to the new one is shorter. */
  lemma IncrementIsMinimal(w: Writer, trace: StackTrace, ts: nat, show: bool, script: seq<Op>)
    requires RunScript(Keys(PrevFrames(w, trace.threadId), show), script) == Some(Keys(trace.frames, show))
    ensures |Emitted(w, trace, ts, show)|
            == Distance(Keys(PrevFrames(w, trace.threadId), show), Keys(trace.frames, show))
    ensures |Emitted(w, trace, ts, show)| <= |script|
  {
    SharedIsMaximal(PrevFrames(w, trace.threadId), trace.frames, 0, show);
    NoShorterScript(Keys(PrevFrames(w, trace.threadId), show), Keys(trace.frames, show), script);
  }

  // ----- the writer, as an object -----

  class Chrometrace {
    const showLineNumbers: bool
    var events: seq<Event>
    var prevTraces: map<nat, StackTrace>

    function State(): Writer
      reads this
    {
      Writer(events, prevTraces)
    }

    predicate Valid()
      reads this
    {
      FiledByThread(prevTraces)
    }

    constructor (showLineNumbers: bool)
      ensures this.showLineNumbers == showLineNumbers
      ensures Valid() && State() == EMPTY && Faithful(State(), showLineNumbers)
    {
      this.showLineNumbers := showLineNumbers;
      events, prevTraces := [], map[];
    }

    method AddTrace(trace: StackTrace, now: nat)
      requires Valid()
      modifies this
      ensures Valid()
      ensures State() == Increment(old(State()), trace, now, showLineNumbers)
      ensures old(Faithful(State(), showLineNumbers)) ==>
                (Faithful(State(), showLineNumbers) <==> old(PidKept(State(), trace)))
    {
      hide Faithful, SharedFrames, Ends, Begins;
      ghost var before := State();
      var prevFrames := PrevFrames(State(), trace.threadId);
      prevTraces := prevTraces - {trace.threadId};
      var newIdx := SharedFrames(prevFrames, trace.frames, 0, showLineNumbers);

      PushEnds(trace, prevFrames, |prevFrames| - newIdx, now);
      PushBegins(trace, |trace.frames| - newIdx, now);

      prevTraces := prevTraces[trace.threadId := trace];
      assert events == before.events + Emitted(before, trace, now, showLineNumbers);
      assert prevTraces == before.prevTraces[trace.threadId := trace];
      if Faithful(before, showLineNumbers) {
        IncrementIsFaithful(before, trace, now, showLineNumbers);
      }
    }

    /** The events of the file; the threads are closed in an order of the map's own. */
    method WriteEvents(now: nat) returns (written: seq<Event>, ghost order: seq<nat>)
      requires Valid()
      ensures Enumerates(order, prevTraces.Keys)
      ensures forall tid | tid in order :: tid in prevTraces
      ensures written == events + Closing(prevTraces, order, now, showLineNumbers)
      ensures Faithful(State(), showLineNumbers) ==>
                forall pid: nat, tid: nat :: Replay([], written, pid, tid) == Some([])
    {
      written := events;
      order := [];
      var left := prevTraces.Keys;
      while left != {}
        invariant left <= prevTraces.Keys
        invariant forall i, j | 0 <= i < j < |order| :: order[i] != order[j]
        invariant forall tid :: tid in order <==> tid in prevTraces && tid !in left
        invariant written == events + Closing(prevTraces, order, now, showLineNumbers)
      {
        var tid :| tid in left;
        var trace := prevTraces[tid];
        var closed := WriteEnds(trace, now);
        ClosingOneMore(prevTraces, order, tid, now, showLineNumbers);
        assert written + closed == events + (Closing(prevTraces, order, now, showLineNumbers) + closed);
        written := written + closed;
        order := order + [tid];
        left := left - {tid};
      }
      if Faithful(State(), showLineNumbers) {
        forall pid: nat, tid: nat ensures Replay([], written, pid, tid) == Some([]) {
          WrittenFileIsBalanced(State(), order, now, showLineNumbers, pid, tid);
        }
      }
    }

    method PushEnds(trace: StackTrace, prevFrames: seq<Frame>, n: nat, now: nat)
      requires n <= |prevFrames|
      modifies this`events
      ensures events == old(events) + Ends(trace, prevFrames, n, now, showLineNumbers)
    {
      for i := 0 to n
        invariant events == old(events) + Ends(trace, prevFrames, n, now, showLineNumbers)[..i]
      {
        events := events + [EventFor(trace, prevFrames[i], End, now, showLineNumbers)];
      }
    }

    method PushBegins(trace: StackTrace, n: nat, now: nat)
      requires n <= |trace.frames|
      modifies this`events
      ensures events == old(events) + Begins(trace, trace.frames, n, now, showLineNumbers)
    {
      for i := 0 to n
        invariant events == old(events) + Begins(trace, trace.frames, n, now, showLineNumbers)[..i]
      {
        events := events + [EventFor(trace, trace.frames[n - 1 - i], Begin, now, showLineNumbers)];
      }
    }

    method WriteEnds(trace: StackTrace, now: nat) returns (closed: seq<Event>)
      ensures closed == Ends(trace, trace.frames, |trace.frames|, now, showLineNumbers)
    {
      closed := [];
      for i := 0 to |trace.frames|
        invariant closed == Ends(trace, trace.frames, |trace.frames|, now, showLineNumbers)[..i]
      {
        closed := closed + [EventFor(trace, trace.frames[i], End, now, showLineNumbers)];
      }
    }
  }

  lemma {:induction false} ClosingOneMore(prevTraces: map<nat, StackTrace>, order: seq<nat>, tid: nat, ts: nat,
          show: bool)
    requires forall t | t in order :: t in prevTraces
    requires tid in prevTraces
    ensures forall t | t in order + [tid] :: t in prevTraces
    ensures Closing(prevTraces, order + [tid], ts, show)
            == Closing(prevTraces, order, ts, show)
               + Ends(prevTraces[tid], prevTraces[tid].frames, |prevTraces[tid].frames|, ts, show)
    decreases |order|
  {
    if order == [] {
      assert ([] + [tid])[1..] == [];
    } else {
      ClosingOneMore(prevTraces, order[1..], tid, ts, show);
      assert (order + [tid])[1..] == order[1..] + [tid];
    }
  }
}
