/**
 * Every interleaving of the emitting thread and its readers over one segmented stream. The producer changes the
 * stream under the lock and notifies after releasing it; a reader tests its range under the lock and, when it
 * has not arrived, falls asleep in the same critical section.
 */
module StreamRuns {
  import opened Options
  import opened ByteStreams
  import opened SegmentStream

  datatype Reader = Running | Checking(offset: nat, requested: nat) | Asleep(offset: nat, requested: nat)

  /**
   * `notifying`: the producer has changed the stream and has not yet called `notify_all`; `stopped`: a record has been
   * refused, after which none is collected.
   */
  datatype System = System(stream: State, notifying: bool, stopped: bool, readers: map<nat, Reader>)

  datatype Event =
    | Emit(record: Bytes)
    | Refuse
    | Finish
    | Notify
    | Call(reader: nat, offset: nat, requested: nat)
    | Sleep(reader: nat)
    | Wake(reader: nat)
    | Return(reader: nat, answer: Option<Bytes>)
    | View(reader: nat, offset: nat, answer: Option<Bytes>)

  predicate Init(s: System) {
    s.stream == State([], false) && !s.notifying && !s.stopped && forall r | r in s.readers :: s.readers[r] == Running
  }

  function Woken(r: Reader): Reader {
    if r.Asleep? then Checking(r.offset, r.requested) else r
  }

  predicate ProducerStep(s: System, e: Event, t: System) {
    match e
    case Emit(record) =>
      !s.notifying && !s.stopped && !s.stream.complete && record != [] &&
      t == System(State(s.stream.records + [record], false), true, false, s.readers)
    case Refuse => !s.notifying && !s.stopped && !s.stream.complete && t == s.(stopped := true)
    case Finish =>
      !s.notifying && !s.stream.complete && t == s.(stream := State(s.stream.records, true), notifying := true)
    case Notify =>
      s.notifying && t == s.(notifying := false, readers := map r | r in s.readers :: Woken(s.readers[r]))
    case _ => false
  }

  /** Reader `r` may do `e` in state `s`, after which it is `after`. A sleeper may also wake for no reason. */
  ghost predicate ReaderMove(s: State, now: Reader, e: Event, after: Reader) {
    match e
    case Call(_, offset, requested) => now.Running? && after == Checking(offset, requested)
    case Sleep(_) =>
      now.Checking? && !s.Ready(now.offset, now.requested) && after == Asleep(now.offset, now.requested)
    case Wake(_) => now.Asleep? && after == Woken(now)
    case Return(_, answer) =>
      now.Checking? && s.Ready(now.offset, now.requested) &&
      answer == s.ReadAnswer(now.offset, now.requested) && after == Running
    case View(_, offset, answer) => now.Running? && answer == ViewAnswer(s, offset) && after == Running
    case _ => false
  }

  predicate Produces(e: Event) {
    e.Emit? || e.Refuse? || e.Finish? || e.Notify?
  }

  ghost predicate ReaderStep(s: System, e: Event, t: System) {
    !Produces(e) && e.reader in s.readers && e.reader in t.readers &&
    ReaderMove(s.stream, s.readers[e.reader], e, t.readers[e.reader]) &&
    t == s.(readers := s.readers[e.reader := t.readers[e.reader]])
  }

  ghost predicate Step(s: System, e: Event, t: System) {
    ProducerStep(s, e, t) || ReaderStep(s, e, t)
  }

  /** `states[i]` does `events[i]` and becomes `states[i + 1]`. */
  ghost predicate Run(states: seq<System>, events: seq<Event>) {
    |states| == |events| + 1 && Init(states[0]) &&
    forall i :: 0 <= i < |events| ==> Step(states[i], events[i], states[i + 1])
  }

  // ----- no wake-up is lost -----

  /** Whoever sleeps although its range is there has a notification coming; no record is empty. */
  ghost predicate Safe(s: System) {
    (forall r | r in s.readers && s.readers[r].Asleep? ::
       s.stream.Ready(s.readers[r].offset, s.readers[r].requested) ==> s.notifying) &&
    forall i :: 0 <= i < |s.stream.records| ==> s.stream.records[i] != []
  }

  lemma {:induction false} StepIsSafe(s: System, e: Event, t: System)
    requires Safe(s) && Step(s, e, t)
    ensures Safe(t)
  {
  }

  lemma {:induction false} RunIsSafe(states: seq<System>, events: seq<Event>, i: nat)
    requires Run(states, events) && i < |states|
    ensures Safe(states[i])
  {
    if i > 0 {
      RunIsSafe(states, events, i - 1);
      StepIsSafe(states[i - 1], events[i - 1], states[i]);
    }
  }

  /**
   * No reader stays blocked once the stream is completed: from then on nobody falls asleep, and as soon as the
   * completing notification is out nobody is asleep and every waiting reader may return. (`NextStepReturns` says
   * that it then can do nothing else.)
   */
  lemma {:induction false} NobodyStaysBlocked(states: seq<System>, events: seq<Event>, i: nat, r: nat)
    requires Run(states, events) && i < |events|
    requires states[i].stream.complete && r in states[i].readers
    ensures events[i] != Sleep(r)
    ensures !states[i].notifying ==> !states[i].readers[r].Asleep?
    ensures states[i].readers[r].Checking? ==>
              var now := states[i].readers[r];
              ReaderMove(states[i].stream, now,
                         Return(r, states[i].stream.ReadAnswer(now.offset, now.requested)), Running)
  {
    RunIsSafe(states, events, i);
    assert Step(states[i], events[i], states[i + 1]);
  }

  /** `e` is a step of reader `r`. */
  predicate By(e: Event, r: nat) {
    !Produces(e) && e.reader == r
  }

  /** Until its own next step a checking reader goes on checking for the same range. */
  lemma {:induction false} ChecksOn(states: seq<System>, events: seq<Event>, i: nat, j: nat, r: nat)
    requires Run(states, events) && i <= j < |states| && (forall k :: i <= k < j ==> !By(events[k], r))
    requires r in states[i].readers && states[i].readers[r].Checking?
    ensures r in states[j].readers && states[j].readers[r] == states[i].readers[r]
    decreases j
  {
    if i < j {
      ChecksOn(states, events, i, j - 1, r);
      assert Step(states[j - 1], events[j - 1], states[j]);
    }
  }

  /**
   * Once the stream is completed, the next step that a checking reader takes, whenever that is, is its return with
   * the answer of the final stream.
   */
  lemma {:induction false} NextStepReturns(states: seq<System>, events: seq<Event>, i: nat, j: nat, r: nat)
    requires Run(states, events) && i <= j < |events| && states[i].stream.complete
    requires r in states[i].readers && states[i].readers[r].Checking?
    requires By(events[j], r) && forall k :: i <= k < j ==> !By(events[k], r)
    ensures var asked := states[i].readers[r];
      events[j] == Return(r, states[|events|].stream.ReadAnswer(asked.offset, asked.requested))
    ensures states[j + 1].readers[r] == Running
  {
    ChecksOn(states, events, i, j, r);
    StreamOnlyGrows(states, events, i, j);
    StreamOnlyGrows(states, events, j, |events|);
    assert Step(states[j], events[j], states[j + 1]);
  }

  // ----- what readers see belongs to the final stream -----

  /** `t` is `s` with more records appended, or exactly `s` once `s` is complete. */
  ghost predicate Extends(t: State, s: State) {
    s.records <= t.records && (s.complete ==> t == s)
  }

  lemma {:induction false} StreamOnlyGrows(states: seq<System>, events: seq<Event>, i: nat, j: nat)
    requires Run(states, events) && i <= j < |states|
    ensures Extends(states[j].stream, states[i].stream)
    decreases j
  {
    if i < j {
      StreamOnlyGrows(states, events, i, j - 1);
      assert Step(states[j - 1], events[j - 1], states[j]);
    }
  }

  lemma {:induction false} ContentExtends(t: State, s: State)
    requires Extends(t, s)
    ensures s.Content() <= t.Content()
  {
    assert t.records == s.records + t.records[|s.records|..];
    FlatConcat(s.records, t.records[|s.records|..]);
  }

  /** A read that returns, whenever it does, answers exactly as it would on the final stream. */
  lemma {:induction false} ReadsSeeTheFinalStream(states: seq<System>, events: seq<Event>, i: nat)
    requires Run(states, events) && i < |events| && events[i].Return?
    ensures events[i].reader in states[i].readers && states[i].readers[events[i].reader].Checking?
    ensures var asked := states[i].readers[events[i].reader];
      events[i].answer == states[|events|].stream.ReadAnswer(asked.offset, asked.requested)
  {
    assert Step(states[i], events[i], states[i + 1]);
    StreamOnlyGrows(states, events, i, |events|);
    var asked := states[i].readers[events[i].reader];
    AnswerIsFinal(states[|events|].stream, states[i].stream, asked.offset, asked.requested);
  }

  lemma {:induction false} AnswerIsFinal(t: State, s: State, offset: nat, requested: nat)
    requires Extends(t, s) && s.Ready(offset, requested)
    ensures s.ReadAnswer(offset, requested) == t.ReadAnswer(offset, requested)
  {
    ContentExtends(t, s);
    if offset + requested <= |s.Content()| {
      assert s.Content() == t.Content()[..|s.Content()|];
      assert t.Content()[offset..offset + requested] == s.Content()[offset..offset + requested];
    }
  }

  /** A record that is viewed, whenever it is, is the record of the final stream at that offset. */
  lemma {:induction false} ViewsSeeTheFinalStream(states: seq<System>, events: seq<Event>, i: nat)
    requires Run(states, events) && i < |events| && events[i].View? && events[i].answer.Some?
    ensures var last := states[|events|].stream;
      var offset, record := events[i].offset, events[i].answer.value;
      ViewAnswer(last, offset) == Some(record) && last.ReadAnswer(offset, |record|) == Some(record)
  {
    var s, last := states[i].stream, states[|events|].stream;
    assert Step(states[i], events[i], states[i + 1]);
    StreamOnlyGrows(states, events, i, |events|);
    RunIsSafe(states, events, |events|);
    var k: nat :| StartsAt(s.records, k, events[i].offset) && events[i].answer == Some(s.records[k]);
    assert last.records[..k] == s.records[..k];
    assert StartsAt(last.records, k, events[i].offset);
    OneStart(last.records, k, events[i].offset);
    RecordIsSlice(last.records, k);
  }

  /** A miss is final once the stream is complete. */
  lemma {:induction false} MissesAreFinal(states: seq<System>, events: seq<Event>, i: nat)
    requires Run(states, events) && i < |events| && events[i].View? && events[i].answer.None?
    requires states[i].stream.complete
    ensures forall k: nat :: !StartsAt(states[|events|].stream.records, k, events[i].offset)
  {
    assert Step(states[i], events[i], states[i + 1]);
    StreamOnlyGrows(states, events, i, |events|);
  }

  lemma {:induction false} OneStart(records: seq<Bytes>, k: nat, offset: nat)
    requires StartsAt(records, k, offset) && forall i :: 0 <= i < |records| ==> records[i] != []
    ensures forall i: nat :: StartsAt(records, i, offset) ==> i == k
  {
    var offsets := seq(|records|, i requires 0 <= i < |records| => StartOf(records, i));
    StartsIncrease(records, offsets);
    forall i: nat | StartsAt(records, i, offset) ensures i == k {
      assert offsets[i] == offsets[k];
    }
  }
}
