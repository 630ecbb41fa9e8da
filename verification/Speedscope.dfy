/** The speedscope writer: every distinct frame is stored once, and a sample is a
    list of frame numbers, root first. */
module Speedscope {
  import opened Wrappers
  import opened StackTraces
  import opened MapSums

  datatype SharedFrame = SharedFrame(name: string, file: Option<string>, line: Option<nat>, col: Option<nat>)

  function NewFrame(frame: Frame, showLineNumbers: bool): SharedFrame {
    SharedFrame(frame.name, Some(frame.filename), if showLineNumbers then Some(AsU32(frame.line)) else None, None)
  }

  function InternKey(frame: Frame, showLineNumbers: bool): Frame {
    if showLineNumbers then frame else frame.(line := 0)
  }

  // ----- the frame table -----

  datatype Table = Table(frames: seq<SharedFrame>, index: map<Frame, nat>)

  ghost predicate IsNumber(t: Table, i: nat) {
    exists key :: key in t.index && t.index[key] == i
  }

  /** The index numbers its keys 0, 1, 2, ... without gap or repetition, and each
      number is that of the stored form of its key. */
  ghost predicate TableOk(t: Table, show: bool) {
    && (forall key | key in t.index :: t.index[key] < |t.frames| && t.frames[t.index[key]] == NewFrame(key, show))
    && (forall key, other | key in t.index && other in t.index && t.index[key] == t.index[other] :: key == other)
    && (forall i | 0 <= i < |t.frames| :: IsNumber(t, i))
  }

  function Intern(t: Table, frame: Frame, show: bool): (Table, nat) {
    var key := InternKey(frame, show);
    if key in t.index then (t, t.index[key])
    else (Table(t.frames + [NewFrame(frame, show)], t.index[key := |t.frames|]), |t.frames|)
  }

  function InternAll(t: Table, frames: seq<Frame>, show: bool): (r: (Table, seq<nat>))
    ensures |r.1| == |frames|
  {
    if frames == [] then (t, [])
    else
      var (t', rest) := InternAll(t, frames[..|frames| - 1], show);
      var (t'', i) := Intern(t', frames[|frames| - 1], show);
      (t'', rest + [i])
  }

  lemma AddKeepsTable(t: Table, key: Frame, show: bool)
    requires TableOk(t, show) && key !in t.index
    ensures TableOk(Table(t.frames + [NewFrame(key, show)], t.index[key := |t.frames|]), show)
  {
    hide NewFrame;
    var t' := Table(t.frames + [NewFrame(key, show)], t.index[key := |t.frames|]);
    forall j | 0 <= j < |t'.frames| ensures IsNumber(t', j) {
      if j < |t.frames| {
        assert IsNumber(t, j);
        var k :| k in t.index && t.index[k] == j;
        assert k in t'.index && t'.index[k] == j;
      } else {
        assert key in t'.index && t'.index[key] == j;
      }
    }
  }

  lemma InternKeepsTable(t: Table, frame: Frame, show: bool)
    requires TableOk(t, show)
    ensures var (t', i) := Intern(t, frame, show);
      && TableOk(t', show)
      && i < |t'.frames| && t'.frames[i] == NewFrame(frame, show)
      && t.frames <= t'.frames
      && InternKey(frame, show) in t'.index && t'.index[InternKey(frame, show)] == i
      && forall key | key in t.index :: key in t'.index && t'.index[key] == t.index[key]
  {
    var key := InternKey(frame, show);
    assert NewFrame(key, show) == NewFrame(frame, show);
    if key !in t.index {
      AddKeepsTable(t, key, show);
    }
  }

  /** Frames share a number exactly if they are alike, the line aside when it is not shown. */
  lemma SameNumberSameKey(t: Table, a: Frame, b: Frame, show: bool)
    requires TableOk(t, show)
    ensures var (t1, i) := Intern(t, a, show);
      var (t2, j) := Intern(t1, b, show);
      i == j <==> if show then a == b else a.(line := b.line) == b
  {
    InternKeepsTable(t, a, show);
    var (t1, i) := Intern(t, a, show);
    InternKeepsTable(t1, b, show);
  }

  // ----- decoding -----

  predicate InRange(indices: seq<nat>, frames: seq<SharedFrame>) {
    forall i | 0 <= i < |indices| :: indices[i] < |frames|
  }

  function Decode(frames: seq<SharedFrame>, indices: seq<nat>): (r: seq<SharedFrame>)
    requires InRange(indices, frames)
    ensures |r| == |indices|
    ensures forall i | 0 <= i < |indices| :: r[i] == frames[indices[i]]
  {
    seq(|indices|, i requires 0 <= i < |indices| && InRange(indices, frames) => frames[indices[i]])
  }

  lemma DecodeOneMore(frames: seq<SharedFrame>, longer: seq<SharedFrame>, indices: seq<nat>, i: nat)
    requires InRange(indices, frames) && frames <= longer && i < |longer|
    ensures InRange(indices + [i], longer)
    ensures Decode(longer, indices + [i]) == Decode(frames, indices) + [longer[i]]
  {
  }

  function Projected(frames: seq<Frame>, show: bool): (r: seq<SharedFrame>)
    ensures |r| == |frames|
    ensures forall i | 0 <= i < |frames| :: r[i] == NewFrame(frames[i], show)
  {
    seq(|frames|, i requires 0 <= i < |frames| => NewFrame(frames[i], show))
  }

  lemma EmptyDecodes(t: Table, show: bool)
    ensures InRange([], t.frames) && Decode(t.frames, []) == Projected([], show)
  {
  }

  lemma {:induction false} InternAllRoundTrip(t: Table, frames: seq<Frame>, show: bool)
    requires TableOk(t, show)
    ensures var (t', indices) := InternAll(t, frames, show);
      && TableOk(t', show) && t.frames <= t'.frames
      && InRange(indices, t'.frames) && Decode(t'.frames, indices) == Projected(frames, show)
  {
    hide TableOk, Intern, NewFrame, InternKey, InRange;
    if frames == [] {
      EmptyDecodes(t, show);
    } else {
      var front, last := frames[..|frames| - 1], frames[|frames| - 1];
      InternAllRoundTrip(t, front, show);
      var (t', rest) := InternAll(t, front, show);
      InternKeepsTable(t', last, show);
      var (t'', i) := Intern(t', last, show);
      DecodeOneMore(t'.frames, t''.frames, rest, i);
      assert Projected(frames, show) == Projected(front, show) + [NewFrame(last, show)];
    }
  }

  // ----- recording -----

  /** `(pid as Pid, thread_id as Tid)`: the thread id keeps its low 32 bits. */
  datatype ThreadKey = ThreadKey(pid: Int32, tid: nat)

  function KeyFor(stack: StackTrace): ThreadKey {
    ThreadKey(stack.pid, stack.threadId % 0x1_0000_0000)
  }

  /** Two traces go into one profile exactly if they are of one process and their thread
      ids differ by a multiple of four gigabytes. */
  lemma OneProfileExactly(a: StackTrace, b: StackTrace)
    ensures KeyFor(a) == KeyFor(b) <==>
      a.pid == b.pid && exists n: int :: a.threadId == b.threadId + n * 0x1_0000_0000
    ensures KeyFor(a).pid == a.pid && KeyFor(a).tid < 0x1_0000_0000
  {
    if KeyFor(a).tid == KeyFor(b).tid {
      assert a.threadId == b.threadId + (a.threadId / 0x1_0000_0000 - b.threadId / 0x1_0000_0000) * 0x1_0000_0000;
    }
    if n: int :| a.threadId == b.threadId + n * 0x1_0000_0000 {
      assert a.threadId % 0x1_0000_0000 == b.threadId % 0x1_0000_0000;
    }
  }

  datatype ThreadId = OsThread(tid: nat) | VmThread(tid: nat)

  /** What a thread's profile is called; its text is not modelled. */
  datatype ThreadLabel = ThreadLabel(process: Option<Int32>, id: ThreadId, name: string)

  function LabelFor(stack: StackTrace, subprocesses: bool): ThreadLabel {
    ThreadLabel(
      if subprocesses then Some(stack.pid) else None,
      if stack.osThreadId.Some? then OsThread(stack.osThreadId.value) else VmThread(stack.threadId),
      stack.threadName.GetOr(""))
  }

  /** A label shows the process if there can be several, the thread id of the system if it is
      known and otherwise that of the VM, and the name of the thread if it has one. */
  predicate IsLabelOf(l: ThreadLabel, stack: StackTrace, subprocesses: bool) {
    && l.process == (if subprocesses then Some(stack.pid) else None)
    && (stack.osThreadId.Some? ==> l.id == OsThread(stack.osThreadId.value))
    && (stack.osThreadId == None ==> l.id == VmThread(stack.threadId))
    && (stack.threadName.Some? ==> l.name == stack.threadName.value)
    && (stack.threadName == None ==> l.name == "")
  }

  datatype Recorded = Recorded(
    samples: map<ThreadKey, seq<seq<nat>>>, table: Table, threadNames: map<ThreadKey, ThreadLabel>)

  const NOTHING: Recorded := Recorded(map[], Table([], map[]), map[])

  function SamplesOf(samples: map<ThreadKey, seq<seq<nat>>>, key: ThreadKey): seq<seq<nat>> {
    if key in samples then samples[key] else []
  }

  function Record(r: Recorded, stack: StackTrace, show: bool, subprocesses: bool): Recorded {
    var (table, indices) := InternAll(r.table, stack.frames, show);
    var key := KeyFor(stack);
    Recorded(
      r.samples[key := SamplesOf(r.samples, key) + [Reversed(indices)]],
      table,
      if key in r.threadNames then r.threadNames else r.threadNames[key := LabelFor(stack, subprocesses)])
  }

  function RecordAll(stacks: seq<StackTrace>, show: bool, subprocesses: bool): Recorded {
    if stacks == [] then NOTHING
    else Record(RecordAll(stacks[..|stacks| - 1], show, subprocesses), stacks[|stacks| - 1], show, subprocesses)
  }

  /** The stacks of one thread, in the order they came. */
  function StacksOf(stacks: seq<StackTrace>, key: ThreadKey): seq<StackTrace> {
    if stacks == [] then []
    else
      var front, last := stacks[..|stacks| - 1], stacks[|stacks| - 1];
      StacksOf(front, key) + if KeyFor(last) == key then [last] else []
  }

  /** The samples of a thread decode, one by one, to its stacks, root first. */
  ghost predicate Decodes(frames: seq<SharedFrame>, samples: seq<seq<nat>>, stacks: seq<StackTrace>, show: bool) {
    && |samples| == |stacks|
    && forall i | 0 <= i < |samples| ::
         InRange(samples[i], frames) && Decode(frames, samples[i]) == Reversed(Projected(stacks[i].frames, show))
  }

  lemma DecodesInLongerTable(frames: seq<SharedFrame>, longer: seq<SharedFrame>, samples: seq<seq<nat>>,
          stacks: seq<StackTrace>, show: bool)
    requires Decodes(frames, samples, stacks, show) && frames <= longer
    ensures Decodes(longer, samples, stacks, show)
  {
    forall i | 0 <= i < |samples|
      ensures InRange(samples[i], longer) && Decode(longer, samples[i]) == Reversed(Projected(stacks[i].frames, show))
    {
      assert InRange(samples[i], frames);
      assert Decode(longer, samples[i]) == Decode(frames, samples[i]);
    }
  }

  lemma ReversedSample(frames: seq<SharedFrame>, indices: seq<nat>, stack: seq<Frame>, show: bool)
    requires InRange(indices, frames) && Decode(frames, indices) == Projected(stack, show)
    ensures InRange(Reversed(indices), frames)
    ensures Decode(frames, Reversed(indices)) == Reversed(Projected(stack, show))
  {
    assert forall i | 0 <= i < |indices| :: frames[indices[i]] == Decode(frames, indices)[i];
  }

  lemma DecodesOneMore(frames: seq<SharedFrame>, samples: seq<seq<nat>>, stacks: seq<StackTrace>, show: bool,
          sample: seq<nat>, stack: StackTrace)
    requires Decodes(frames, samples, stacks, show)
    requires InRange(sample, frames) && Decode(frames, sample) == Reversed(Projected(stack.frames, show))
    ensures Decodes(frames, samples + [sample], stacks + [stack], show)
  {
    hide InRange;
  }

  /** What recording one more stack does to the samples of one thread. */
  lemma SamplesAfter(r: Recorded, stack: StackTrace, show: bool, subprocesses: bool, key: ThreadKey)
    ensures var (table, indices) := InternAll(r.table, stack.frames, show);
      && Record(r, stack, show, subprocesses).table == table
      && SamplesOf(Record(r, stack, show, subprocesses).samples, key)
         == SamplesOf(r.samples, key) + if key == KeyFor(stack) then [Reversed(indices)] else []
  {
    hide InternAll;
  }

  lemma RecordKeepsThread(r: Recorded, stacks: seq<StackTrace>, stack: StackTrace, show: bool, subprocesses: bool,
          key: ThreadKey)
    requires TableOk(r.table, show) && Decodes(r.table.frames, SamplesOf(r.samples, key), StacksOf(stacks, key), show)
    ensures var after := Record(r, stack, show, subprocesses);
      && TableOk(after.table, show)
      && Decodes(after.table.frames, SamplesOf(after.samples, key), StacksOf(stacks + [stack], key), show)
  {
    hide TableOk, InternAll, Record, InRange, Decodes, SamplesOf;
    InternAllRoundTrip(r.table, stack.frames, show);
    var (table, indices) := InternAll(r.table, stack.frames, show);
    SamplesAfter(r, stack, show, subprocesses, key);
    assert (stacks + [stack])[..|stacks|] == stacks;
    DecodesInLongerTable(r.table.frames, table.frames, SamplesOf(r.samples, key), StacksOf(stacks, key), show);
    if key == KeyFor(stack) {
      ReversedSample(table.frames, indices, stack.frames, show);
      DecodesOneMore(table.frames, SamplesOf(r.samples, key), StacksOf(stacks, key), show, Reversed(indices), stack);
    } else {
      assert SamplesOf(r.samples, key) + [] == SamplesOf(r.samples, key);
      assert StacksOf(stacks, key) + [] == StacksOf(stacks, key);
    }
  }

  lemma NothingDecodes(show: bool, key: ThreadKey)
    ensures TableOk(NOTHING.table, show)
    ensures Decodes(NOTHING.table.frames, SamplesOf(NOTHING.samples, key), [], show)
  {
  }

  lemma {:induction false} ThreadRoundTrip(stacks: seq<StackTrace>, show: bool, subprocesses: bool, key: ThreadKey)
    ensures var r := RecordAll(stacks, show, subprocesses);
      && TableOk(r.table, show)
      && Decodes(r.table.frames, SamplesOf(r.samples, key), StacksOf(stacks, key), show)
  {
    hide TableOk, Decodes, Record;
    if stacks == [] {
      NothingDecodes(show, key);
    } else {
      hide StacksOf;
      var front, last := stacks[..|stacks| - 1], stacks[|stacks| - 1];
      ThreadRoundTrip(front, show, subprocesses, key);
      RecordKeepsThread(RecordAll(front, show, subprocesses), front, last, show, subprocesses, key);
      assert stacks == front + [last];
    }
  }

  /** Nothing recorded is lost or changed: for every run and every thread, decoding
      its samples through the final table gives its stacks, reversed, in order. */
  lemma RecordRoundTrip(stacks: seq<StackTrace>, show: bool, subprocesses: bool)
    ensures var r := RecordAll(stacks, show, subprocesses);
      && TableOk(r.table, show)
      && forall key :: Decodes(r.table.frames, SamplesOf(r.samples, key), StacksOf(stacks, key), show)
  {
    hide TableOk, Decodes, RecordAll, SamplesOf, StacksOf;
    ThreadRoundTrip(stacks, show, subprocesses, ThreadKey(0, 0));
    forall key ensures var r := RecordAll(stacks, show, subprocesses);
        Decodes(r.table.frames, SamplesOf(r.samples, key), StacksOf(stacks, key), show) {
      ThreadRoundTrip(stacks, show, subprocesses, key);
    }
  }

  /** A stored frame shows name and file of a frame, and its line, as an unsigned number of
      32 bits, if lines are shown. */
  predicate ShownAs(shared: SharedFrame, frame: Frame, show: bool) {
    shared.name == frame.name && shared.file == Some(frame.filename) && shared.col == None
    && if show then shared.line == Some((frame.line + 0x1_0000_0000) % 0x1_0000_0000) else shared.line == None
  }

  /** Number k of a sample is that of the k-th frame from the root of its stack. */
  lemma SampleShowsStack(stacks: seq<StackTrace>, show: bool, subprocesses: bool, key: ThreadKey, i: nat, k: nat)
    requires i < |StacksOf(stacks, key)| && k < |StacksOf(stacks, key)[i].frames|
    ensures var r := RecordAll(stacks, show, subprocesses);
      var frames := StacksOf(stacks, key)[i].frames;
      && key in r.samples && i < |r.samples[key]| && |r.samples[key][i]| == |frames|
      && r.samples[key][i][k] < |r.table.frames|
      && ShownAs(r.table.frames[r.samples[key][i][k]], frames[|frames| - 1 - k], show)
  {
    RecordRoundTrip(stacks, show, subprocesses);
    hide RecordAll, StacksOf, TableOk;
    var r := RecordAll(stacks, show, subprocesses);
    assert Decodes(r.table.frames, SamplesOf(r.samples, key), StacksOf(stacks, key), show);
    var sample := SamplesOf(r.samples, key)[i];
    assert Decode(r.table.frames, sample)[k] == r.table.frames[sample[k]];
  }

  /** Every thread with samples has a name, that of its first stack. */
  lemma {:induction false} FirstStackNamesThread(stacks: seq<StackTrace>, show: bool, subprocesses: bool,
          key: ThreadKey)
    ensures var r := RecordAll(stacks, show, subprocesses);
      && (key in r.samples <==> StacksOf(stacks, key) != [])
      && (key in r.threadNames <==> key in r.samples)
      && (key in r.threadNames ==> IsLabelOf(r.threadNames[key], StacksOf(stacks, key)[0], subprocesses))
  {
    if stacks != [] {
      FirstStackNamesThread(stacks[..|stacks| - 1], show, subprocesses, key);
    }
  }

  // ----- totals -----

  function Lengths(samples: map<ThreadKey, seq<seq<nat>>>): map<ThreadKey, nat> {
    map key | key in samples :: |samples[key]|
  }

  lemma LengthsAfter(samples: map<ThreadKey, seq<seq<nat>>>, key: ThreadKey, sample: seq<nat>)
    ensures Lengths(samples[key := SamplesOf(samples, key) + [sample]])
            == Lengths(samples)[key := |SamplesOf(samples, key)| + 1]
  {
  }

  lemma OneSampleMore(r: Recorded, stack: StackTrace, show: bool, subprocesses: bool)
    ensures Total(Lengths(Record(r, stack, show, subprocesses).samples)) == Total(Lengths(r.samples)) + 1
  {
    var indices := InternAll(r.table, stack.frames, show).1;
    var key := KeyFor(stack);
    var n := |SamplesOf(r.samples, key)|;
    hide Total, InternAll;
    LengthsAfter(r.samples, key, Reversed(indices));
    TotalAfterUpdate(Lengths(r.samples), key, n + 1);
  }

  /** As many samples are stored, over all threads, as stacks were recorded. */
  lemma {:induction false} NoSampleIsLost(stacks: seq<StackTrace>, show: bool, subprocesses: bool)
    ensures Total(Lengths(RecordAll(stacks, show, subprocesses).samples)) == |stacks|
  {
    hide Total, Record;
    if stacks == [] {
      assert Lengths(map[]) == map[];
      TotalOfNothing<ThreadKey>();
    } else {
      hide Lengths;
      NoSampleIsLost(stacks[..|stacks| - 1], show, subprocesses);
      OneSampleMore(RecordAll(stacks[..|stacks| - 1], show, subprocesses), stacks[|stacks| - 1], show, subprocesses);
    }
  }

  // ----- the written profile -----

  datatype Profile = Profile(name: Option<ThreadLabel>, startValue: real, endValue: real,
          samples: seq<seq<nat>>, weights: seq<real>)

  function ProfileOf(r: Recorded, key: ThreadKey, sampleRate: nat): Profile
    requires key in r.samples && sampleRate > 0
  {
    Profile(
      if key in r.threadNames then Some(r.threadNames[key]) else None,
      0.0,
      |r.samples[key]| as real / sampleRate as real,
      r.samples[key],
      seq(|r.samples[key]|, _ => 1.0 / sampleRate as real))
  }

  function Sum(weights: seq<real>): real {
    if weights == [] then 0.0 else Sum(weights[..|weights| - 1]) + weights[|weights| - 1]
  }

  lemma {:induction false} SumOfEqual(n: nat, w: real)
    ensures Sum(seq(n, _ => w)) == n as real * w
  {
    if n > 0 {
      SumOfEqual(n - 1, w);
      assert seq(n, _ => w)[..n - 1] == seq(n - 1, _ => w);
      assert n as real * w == (n - 1) as real * w + w;
    }
  }

  lemma WeightTimesCount(n: nat, rate: nat)
    requires rate > 0
    ensures n as real * (1.0 / rate as real) == n as real / rate as real
  {
  }

  lemma ProfileIsFilled(r: Recorded, key: ThreadKey, sampleRate: nat)
    requires key in r.samples && sampleRate > 0
    ensures Sum(ProfileOf(r, key, sampleRate).weights) == ProfileOf(r, key, sampleRate).endValue
  {
    var n, w := |r.samples[key]|, 1.0 / sampleRate as real;
    SumOfEqual(n, w);
    assert ProfileOf(r, key, sampleRate).weights == seq(n, _ => w);
    WeightTimesCount(n, sampleRate);
  }

  /** The weights of a profile fill exactly the time from its start to its end,
      one weight to a sample, and every profile is named. */
  lemma WeightsFillTheProfile(stacks: seq<StackTrace>, show: bool, subprocesses: bool, key: ThreadKey, sampleRate: nat)
    requires sampleRate > 0 && StacksOf(stacks, key) != []
    ensures key in RecordAll(stacks, show, subprocesses).samples
    ensures var p := ProfileOf(RecordAll(stacks, show, subprocesses), key, sampleRate);
      && p.samples == RecordAll(stacks, show, subprocesses).samples[key]
      && |p.weights| == |p.samples| == |StacksOf(stacks, key)|
      && (forall w | w in p.weights :: w == 1.0 / sampleRate as real)
      && p.startValue == 0.0 && Sum(p.weights) == p.endValue - p.startValue
      && p.name.Some? && IsLabelOf(p.name.value, StacksOf(stacks, key)[0], subprocesses)
  {
    FirstStackNamesThread(stacks, show, subprocesses, key);
    RecordRoundTrip(stacks, show, subprocesses);
    var r := RecordAll(stacks, show, subprocesses);
    assert Decodes(r.table.frames, SamplesOf(r.samples, key), StacksOf(stacks, key), show);
    hide RecordAll, Sum, StacksOf, Decodes, TableOk;
    ProfileIsFilled(r, key, sampleRate);
  }

  // ----- the recorder, as an object -----

  class Stats {
    const showLineNumbers: bool
    const subprocesses: bool
    var samples: map<ThreadKey, seq<seq<nat>>>
    var frames: seq<SharedFrame>
    var frameToIndex: map<Frame, nat>
    var threadNameMap: map<ThreadKey, ThreadLabel>

    function State(): Recorded
      reads this
    {
      Recorded(samples, Table(frames, frameToIndex), threadNameMap)
    }

    constructor (showLineNumbers: bool, subprocesses: bool)
      ensures this.showLineNumbers == showLineNumbers && this.subprocesses == subprocesses
      ensures State() == NOTHING
    {
      this.showLineNumbers, this.subprocesses := showLineNumbers, subprocesses;
      samples, frames, frameToIndex, threadNameMap := map[], [], map[], map[];
    }

    method AddStack(stack: StackTrace)
      modifies this
      ensures State() == Record(old(State()), stack, showLineNumbers, subprocesses)
    {
      var frameIndices: seq<nat> := [];
      for i := 0 to |stack.frames|
        invariant (Table(frames, frameToIndex), frameIndices)
                  == InternAll(old(Table(frames, frameToIndex)), stack.frames[..i], showLineNumbers)
        invariant samples == old(samples) && threadNameMap == old(threadNameMap)
      {
        var frame := stack.frames[i];
        var key := InternKey(frame, showLineNumbers);
        assert stack.frames[..i + 1][..i] == stack.frames[..i];
        if key !in frameToIndex {
          frameToIndex := frameToIndex[key := |frames|];
          frames := frames + [NewFrame(frame, showLineNumbers)];
        }
        frameIndices := frameIndices + [frameToIndex[key]];
      }
      assert stack.frames[..|stack.frames|] == stack.frames;
      frameIndices := Reversed(frameIndices);

      var key := KeyFor(stack);
      samples := samples[key := SamplesOf(samples, key) + [frameIndices]];
      if key !in threadNameMap {
        threadNameMap := threadNameMap[key := LabelFor(stack, subprocesses)];
      }
    }
  }
}
