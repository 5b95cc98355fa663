/** The two-attempt capture: read the document twice, restore it each time, and publish only what agrees. */
module CaptureCoordinator {
  import opened Options
  import opened AttemptComparison
  import opened CaptureProtocol

  const MaximumSerial: nat := 0xFFFF_FFFF_FFFF_FFFF

  datatype Status =
    | Complete | InvalidArgument | IncompleteCapture | StateChanged | TraversalMismatch | RestoreFailed | Cancelled
    | PublishFailed | CleanupFailed

  datatype Point =
    | NoPoint | BeforeBaseline | AfterBaseline | BeforeAttempt | BeforeReader | AfterReader | BeforeScanRelease
    | AfterScanRelease | BeforeRestore | AfterRestore | BeforeComparison | AfterComparison | BeforePublish

  datatype Injection = Injection(point: Point, attempt: nat, reader: nat)

  /** A capture returns a status, unless it calls a callback that is not there. */
  datatype Ending = Returned(status: Status) | AbsentCallback

  predicate Injected(i: Injection, point: Point, attempt: nat, reader: nat) {
    i.point == point &&
    match point
    case BeforeAttempt => i.attempt == attempt
    case BeforeScanRelease => i.attempt == attempt
    case AfterScanRelease => i.attempt == attempt
    case BeforeRestore => i.attempt == attempt
    case AfterRestore => i.attempt == attempt
    case BeforeReader => i.attempt == attempt && i.reader == reader
    case AfterReader => i.attempt == attempt && i.reader == reader
    case _ => true
  }

  // ----- when an injected failure is reached -----

  predicate QuietReaders(i: Injection, attempt: nat) {
    !((i.point == BeforeReader || i.point == AfterReader) && i.attempt == attempt && i.reader < ReaderCount)
  }

  predicate QuietRelease(i: Injection, attempt: nat) {
    !(i.point in {BeforeScanRelease, AfterScanRelease, BeforeRestore} && i.attempt == attempt)
  }

  predicate QuietAttempt(i: Injection, attempt: nat) {
    QuietReaders(i, attempt) && QuietRelease(i, attempt) &&
    !(i.point in {BeforeAttempt, AfterRestore} && i.attempt == attempt)
  }

  predicate QuietEnd(i: Injection) {
    i.point !in {BeforeComparison, AfterComparison, BeforePublish}
  }

  /** No injected failure is reached anywhere in a capture. */
  predicate Quiet(i: Injection) {
    i.point != BeforeBaseline && i.point != AfterBaseline && QuietAttempt(i, 0) && QuietAttempt(i, 1) && QuietEnd(i)
  }

  // ----- why a capture ends as it does -----

  /** Nothing is noted but, if so, that the attempt was cancelled. */
  function CancelledIf(yes: bool, attempt: nat): Causes {
    NoCauses.(cancelled := AlsoIf(yes, {}, attempt))
  }

  /** Whatever attempt `k` had come to, its release, its restoration or an injected failure there outranks it. */
  predicate Overridden(t: Session, i: Injection, k: nat) {
    k < t.attempts &&
    (k in t.causes.unreleased || k in t.causes.unrestored || k in t.causes.strayed ||
     (i.point in {BeforeScanRelease, AfterScanRelease, BeforeRestore, AfterRestore} && i.attempt == k))
  }

  predicate CancelStands(t: Session, i: Injection, k: nat) {
    k in t.causes.cancelled && !Overridden(t, i, k)
  }

  /** The causes are those of one attempt. */
  predicate OfAttempt(c: Causes, attempt: nat) {
    c == NoCauses.(cancelled := c.cancelled, unreleased := c.unreleased, unrestored := c.unrestored,
                   strayed := c.strayed) &&
    c.cancelled <= {attempt} && c.unreleased <= {attempt} && c.unrestored <= {attempt} && c.strayed <= {attempt}
  }

  /** How an attempt has ended, and why. */
  predicate AttemptCaused(t: Session, i: Injection, attempt: nat, status: Status) {
    OfAttempt(t.causes, attempt) && (status.Complete? ==> t.causes == NoCauses) &&
    (status.RestoreFailed? <==> attempt in t.causes.unrestored) &&
    (status.StateChanged? <==> attempt in t.causes.strayed) &&
    (status.Cancelled? <==> CancelStands(t, i, attempt))
  }

  /** A failure of attempt zero decides; one of attempt one only if the worker of attempt zero has not failed. */
  predicate Decides(t: Session, zero: bool, one: bool) {
    zero || (one && t.worker != Joined(false))
  }

  /**
   * The status of a session that is closed. A refused retention, preparation or abort outranks everything; otherwise
   * the first cause decides, and it is an incomplete capture if there is none of these causes and no success. What was
   * compared and differs, and only that, is kept for inspection; if that is refused, the capture is incomplete.
   */
  ghost predicate RightStatus(t: Session, i: Injection, status: Status) {
    (status.CleanupFailed? <==> t.causes.uncleaned) &&
    (!t.causes.uncleaned ==>
       (status.Cancelled? <==> Decides(t, CancelStands(t, i, 0), CancelStands(t, i, 1))) &&
       (status.RestoreFailed? <==> Decides(t, 0 in t.causes.unrestored, 1 in t.causes.unrestored)) &&
       (status.StateChanged? <==> Decides(t, 0 in t.causes.strayed, 1 in t.causes.strayed)) &&
       (status.TraversalMismatch? <==> t.causes.preserved == Some(true)) &&
       (status.PublishFailed? <==> t.causes.unpublished)) &&
    (t.causes.preserved.Some? <==> t.causes.compared && !BothAgree(t))
  }

  // ----- the attempt -----

  ghost predicate Open(host: Host, stage: Stage)
    reads host
  {
    host.Valid() && ValidSuite(host.suite) && host.phase.Inside? && host.phase.session.stage == stage
  }

  /** The last call was `c`, and its answer was yes. */
  predicate AnsweredYes(log: seq<Event>, c: Call) {
    log != [] && log[|log| - 1].call == c && log[|log| - 1].answer.ok
  }

  method RunReaders(host: Host, i: Injection, attempt: nat) returns (status: Status)
    requires Open(host, Attempting) && host.phase.session.attempts == attempt
    requires host.phase.session.readers == 0 && !host.phase.session.broken && !host.phase.session.trouble
    requires host.phase.session.causes == NoCauses
    modifies host
    ensures Open(host, Attempting) && old(host.log) <= host.log
    ensures var s, t := old(host.phase.session), host.phase.session;
      t == s.(readers := t.readers, broken := t.broken, trouble := t.trouble,
              causes := CancelledIf(status.Cancelled?, attempt))
    ensures status.Complete? <==> !host.phase.session.trouble && QuietReaders(i, attempt)
    ensures status.Complete? ==> host.phase.session.readers == ReaderCount && !host.phase.session.broken
    ensures status in {Complete, IncompleteCapture, Cancelled}
    ensures status.Cancelled? <==> AnsweredYes(host.log, IsCancelled)
  {
    ghost var s := host.phase.session;
    for reader := 0 to ReaderCount
      invariant Open(host, Attempting) && old(host.log) <= host.log && host.phase.session == s.(readers := reader)
      invariant i.point in {BeforeReader, AfterReader} && i.attempt == attempt ==> i.reader >= reader
    {
      status := RunOneReader(host, i, attempt, reader);
      if status != Complete {
        return;
      }
    }
    status := Complete;
  }

  /** An injected failure stops the capture at this reader. */
  predicate StopsAt(i: Injection, attempt: nat, reader: nat) {
    Injected(i, BeforeReader, attempt, reader) || Injected(i, AfterReader, attempt, reader)
  }

  method RunOneReader(host: Host, i: Injection, attempt: nat, reader: nat) returns (status: Status)
    requires Open(host, Attempting) && Allowed(host.phase.session, RunReader(attempt, reader))
    requires !host.phase.session.trouble && host.phase.session.causes == NoCauses
    modifies host
    ensures Open(host, Attempting) && old(host.log) <= host.log
    ensures var s, t := old(host.phase.session), host.phase.session;
      if status.Complete? then t == s.(readers := reader + 1) && !StopsAt(i, attempt, reader)
      else
        t == s.(readers := t.readers, broken := t.broken, trouble := t.trouble,
                causes := CancelledIf(status.Cancelled?, attempt)) &&
        (t.trouble || StopsAt(i, attempt, reader))
    ensures status in {Complete, IncompleteCapture, Cancelled}
    ensures status.Cancelled? <==> AnsweredYes(host.log, IsCancelled)
  {
    var cancelled := host.Ask(IsCancelled);
    if cancelled.ok {
      return Cancelled;
    }
    if Injected(i, BeforeReader, attempt, reader) {
      return IncompleteCapture;
    }
    var read := host.Ask(RunReader(attempt, reader));
    status := if !read.ok || Injected(i, AfterReader, attempt, reader) then IncompleteCapture else Complete;
  }

  /** The attempt's result, or in the overlapping pipeline the artifact it will be built from. */
  method FinishOrDetach(host: Host, pipeline: bool, attempt: nat)
    returns (finished: bool, result: AttemptResult, input: ArtifactInput)
    requires Open(host, Attempting) && Allowed(host.phase.session, FinishAttempt(attempt))
    requires !host.phase.session.trouble
    requires pipeline == host.suite.detach
    modifies host
    ensures Open(host, Attempting) && old(host.log) <= host.log
    ensures finished <==> !host.phase.session.trouble
    ensures var s, t := old(host.phase.session), host.phase.session;
      t == s.(products := t.products, detached := t.detached, trouble := t.trouble)
    ensures var s, t := old(host.phase.session), host.phase.session;
      (pipeline ==> t.products == s.products && (finished ==> t.detached == s.detached[attempt := input])) &&
      (!pipeline ==> t.detached == s.detached && (finished ==> t.products == s.products[attempt := result]))
    ensures finished && !pipeline ==> result.manifest.roots.integrity == CompleteIntegrity
    ensures pipeline ==> host.phase.session.detached.Keys <= old(host.phase.session.detached.Keys) + {attempt}
  {
    if pipeline {
      var a := host.Ask(DetachArtifact(attempt));
      finished, result, input := a.ok && a.input.Usable(), a.result, a.input;
    } else {
      var a := host.Ask(FinishAttempt(attempt));
      finished := a.ok && a.result.manifest.roots.integrity == CompleteIntegrity;
      result, input := a.result, a.input;
    }
  }

  method ReleaseReaders(host: Host) returns (released: bool)
    requires Open(host, Attempting)
    modifies host
    ensures Open(host, Released) && old(host.log) <= host.log
    ensures var s, t := old(host.phase.session), host.phase.session;
      t == s.(stage := Released, trouble := s.trouble || !released,
              causes := s.causes.(unreleased := AlsoIf(!released, s.causes.unreleased, s.attempts)))
  {
    var answer := host.Ask(ReleaseScans);
    released := answer.ok;
  }

  method Release(host: Host, i: Injection, attempt: nat, reached: Status) returns (status: Status)
    requires Open(host, Attempting) && (reached.Complete? ==> !host.phase.session.trouble)
    requires host.phase.session.attempts == attempt && host.phase.session.causes.unreleased == {}
    modifies host
    ensures Open(host, Released) && old(host.log) <= host.log
    ensures var s, t := old(host.phase.session), host.phase.session;
      t == s.(stage := Released, trouble := t.trouble, causes := s.causes.(unreleased := t.causes.unreleased)) &&
      (s.trouble ==> t.trouble) && t.causes.unreleased <= {attempt} && (t.causes.unreleased != {} ==> t.trouble)
    ensures status.Complete? <==> reached.Complete? && QuietRelease(i, attempt) && !host.phase.session.trouble
    ensures status == if QuietRelease(i, attempt) && attempt !in host.phase.session.causes.unreleased then reached
                      else IncompleteCapture
  {
    status := reached;
    if Injected(i, BeforeScanRelease, attempt, 0) { status := IncompleteCapture; }
    var released := ReleaseReaders(host);
    if !released { status := IncompleteCapture; }
    if Injected(i, AfterScanRelease, attempt, 0) { status := IncompleteCapture; }
    if Injected(i, BeforeRestore, attempt, 0) { status := IncompleteCapture; }
  }

  /** What reading the restored state says about the attempt. */
  function ProofStatus(answer: Answer, baseline: CapturedState, reached: Status): Status {
    if !answer.ok then RestoreFailed
    else if !StatesMatch(baseline, answer.state) then StateChanged
    else reached
  }

  /** Reads the state back and compares it with the baseline. */
  method ProveState(host: Host, baseline: CapturedState, reached: Status) returns (status: Status, state: CapturedState)
    requires Open(host, Ready) && host.phase.session.baseline == Some(baseline)
    requires |host.phase.session.restored| < host.phase.session.attempts
    requires reached.Complete? ==> !host.phase.session.trouble
    requires host.phase.session.causes.unrestored == {} && host.phase.session.causes.strayed == {}
    modifies host
    ensures Open(host, Ready) && |host.log| == |old(host.log)| + 1 && old(host.log) <= host.log
    ensures status == ProofStatus(host.log[|old(host.log)|].answer, baseline, reached)
    ensures var s, t := old(host.phase.session), host.phase.session;
      t == s.(restored := t.restored, trouble := t.trouble, causes := t.causes) && (s.trouble ==> t.trouble) &&
      |t.restored| <= |s.restored| + 1 && RestorationCaused(s, t, |s.restored|, status, reached)
    ensures status.Complete? <==> reached.Complete? && !host.phase.session.trouble
    ensures status.Complete? ==> RestoredTo(old(host.phase.session), host.phase.session, baseline, state)
  {
    var captured := host.Ask(CaptureState);
    state := captured.state;
    status := ProofStatus(captured, baseline, reached);
  }

  /** Why a restoration has ended as it has. */
  predicate RestorationCaused(s: Session, t: Session, attempt: nat, status: Status, reached: Status) {
    t.causes == s.causes.(unrestored := t.causes.unrestored, strayed := t.causes.strayed) &&
    t.causes.unrestored <= {attempt} && t.causes.strayed <= {attempt} &&
    (t.causes != s.causes ==> t.trouble) &&
    if attempt in t.causes.unrestored then status.RestoreFailed? && attempt !in t.causes.strayed
    else if attempt in t.causes.strayed then status.StateChanged?
    else status == reached
  }

  /** What the calls of a restoration say about the attempt. */
  function RestoreStatus(calls: seq<Event>, i: Injection, attempt: nat, baseline: CapturedState, reached: Status)
    : Status
    requires calls != []
  {
    if !calls[0].answer.ok then RestoreFailed else ConfirmedStatus(calls[1..], i, attempt, baseline, reached)
  }

  /** What its proof says. */
  function ConfirmedStatus(calls: seq<Event>, i: Injection, attempt: nat, baseline: CapturedState, reached: Status)
    : Status
  {
    if Injected(i, AfterRestore, attempt, 0) then IncompleteCapture
    else if calls == [] then RestoreFailed
    else ProofStatus(calls[0].answer, baseline, reached)
  }

  /** Proves that the document is as it was, unless that fails by injection. */
  method Confirm(host: Host, i: Injection, attempt: nat, baseline: CapturedState, reached: Status)
    returns (status: Status, state: CapturedState)
    requires Open(host, Ready) && host.phase.session.attempts == attempt + 1
    requires |host.phase.session.restored| == attempt
    requires host.phase.session.baseline == Some(baseline) && (reached.Complete? ==> !host.phase.session.trouble)
    requires host.phase.session.causes.unrestored == {} && host.phase.session.causes.strayed == {}
    modifies host
    ensures Open(host, Ready) && old(host.log) <= host.log
    ensures var s, t := old(host.phase.session), host.phase.session;
      t == s.(restored := t.restored, trouble := t.trouble, causes := t.causes) && (s.trouble ==> t.trouble) &&
      |t.restored| <= attempt + 1 &&
      RestorationCaused(s, t, attempt, status,
                        if Injected(i, AfterRestore, attempt, 0) then IncompleteCapture else reached)
    ensures status.Complete? <==>
            reached.Complete? && !Injected(i, AfterRestore, attempt, 0) && !host.phase.session.trouble
    ensures status.Complete? ==> RestoredTo(old(host.phase.session), host.phase.session, baseline, state)
    ensures status == ConfirmedStatus(host.log[|old(host.log)|..], i, attempt, baseline, reached)
  {
    if Injected(i, AfterRestore, attempt, 0) {
      return IncompleteCapture, baseline;
    }
    status, state := ProveState(host, baseline, reached);
  }

  method PutBack(host: Host, baseline: CapturedState) returns (restored: bool)
    requires Open(host, Released) && host.phase.session.baseline == Some(baseline)
    modifies host
    ensures Open(host, Ready) && |host.log| == |old(host.log)| + 1 && old(host.log) <= host.log
    ensures restored == host.log[|old(host.log)|].answer.ok
    ensures var s, t := old(host.phase.session), host.phase.session;
      t == s.(stage := Ready, attempts := s.attempts + 1, trouble := s.trouble || !restored,
              causes := s.causes.(unrestored := AlsoIf(!restored, s.causes.unrestored, s.attempts)))
  {
    var answer := host.Ask(RestoreState(baseline));
    restored := answer.ok;
  }

  /** Puts the document back, whatever the attempt came to, and proves that it is as it was. */
  method Restore(host: Host, i: Injection, attempt: nat, baseline: CapturedState, reached: Status)
    returns (status: Status, state: CapturedState)
    requires Open(host, Released) && host.phase.session.attempts == attempt == |host.phase.session.restored|
    requires host.phase.session.baseline == Some(baseline) && (reached.Complete? ==> !host.phase.session.trouble)
    requires host.phase.session.causes.unrestored == {} && host.phase.session.causes.strayed == {}
    modifies host
    ensures Open(host, Ready) && old(host.log) <= host.log
    ensures var s, t := old(host.phase.session), host.phase.session;
      t == s.(stage := Ready, attempts := attempt + 1, restored := t.restored, trouble := t.trouble,
              causes := t.causes) &&
      (s.trouble ==> t.trouble) && |t.restored| <= attempt + 1 &&
      RestorationCaused(s, t, attempt, status,
                        if Injected(i, AfterRestore, attempt, 0) then IncompleteCapture else reached)
    ensures status.Complete? <==>
            reached.Complete? && !Injected(i, AfterRestore, attempt, 0) && !host.phase.session.trouble
    ensures status.Complete? ==> RestoredTo(old(host.phase.session), host.phase.session, baseline, state)
    ensures |old(host.log)| < |host.log|
    ensures status == RestoreStatus(host.log[|old(host.log)|..], i, attempt, baseline, reached)
  {
    status, state := reached, baseline;
    var restored := PutBack(host, baseline);
    if !restored {
      status := RestoreFailed;
    } else {
      status, state := Confirm(host, i, attempt, baseline, reached);
    }
  }

  ghost predicate RestoredTo(s: Session, t: Session, baseline: CapturedState, state: CapturedState) {
    StatesMatch(baseline, state) && t.restored == s.restored + [state]
  }

  method Begin(host: Host, attempt: nat) returns (began: Answer)
    requires Open(host, Ready) && Allowed(host.phase.session, BeginAttempt(attempt))
    modifies host
    ensures Open(host, Attempting) && old(host.log) <= host.log
    ensures var s, t := old(host.phase.session), host.phase.session;
      t == s.(stage := Attempting, readers := 0, broken := !began.ok, trouble := s.trouble || !began.ok)
  {
    began := host.Ask(BeginAttempt(attempt));
  }

  /** Reads the document once, in an attempt that has been begun. */
  method ReadAttempt(host: Host, i: Injection, pipeline: bool, attempt: nat)
    returns (status: Status, result: AttemptResult, input: ArtifactInput)
    requires Open(host, Ready) && Allowed(host.phase.session, BeginAttempt(attempt)) && pipeline == host.suite.detach
    requires host.phase.session.causes == NoCauses
    modifies host
    ensures Open(host, Attempting) && old(host.log) <= host.log
    ensures host.phase.session.causes == CancelledIf(status.Cancelled?, attempt)
    ensures Kept(old(host.phase.session), host.phase.session) && host.phase.session.attempts == attempt
    ensures host.phase.session.restored == old(host.phase.session.restored)
    ensures status.Complete? <==> !host.phase.session.trouble && QuietReaders(i, attempt)
    ensures Produced(old(host.phase.session), host.phase.session, pipeline, attempt, status, result, input)
    ensures status in {Complete, IncompleteCapture, Cancelled}
  {
    var began := Begin(host, attempt);
    status, result, input := IncompleteCapture, began.result, began.input;
    if began.ok {
      status := RunReaders(host, i, attempt);
    }
    if status == Complete {
      var finished;
      finished, result, input := FinishOrDetach(host, pipeline, attempt);
      if !finished {
        status := IncompleteCapture;
      }
    }
  }

  /** What no attempt changes. */
  ghost predicate Kept(s: Session, t: Session) {
    t.serial == s.serial && t.worker == s.worker && t.baseline == s.baseline && t.offered == s.offered &&
    t.unretained == s.unretained &&
    (s.trouble ==> t.trouble)
  }

  /** An attempt that went well has produced its result, or detached what it will be built from. */
  ghost predicate Produced(s: Session, t: Session, pipeline: bool, attempt: nat, status: Status,
                           result: AttemptResult, input: ArtifactInput)
  {
    if pipeline then
      t.products == s.products && (status.Complete? ==> t.detached == s.detached[attempt := input]) &&
      t.detached.Keys <= s.detached.Keys + {attempt}
    else
      t.detached == s.detached &&
      (status.Complete? ==> t.products == s.products[attempt := result] &&
                            result.manifest.roots.integrity == CompleteIntegrity)
  }

  ghost predicate AttemptEnded(s: Session, t: Session, i: Injection, pipeline: bool, attempt: nat,
                               baseline: CapturedState, status: Status, result: AttemptResult, input: ArtifactInput,
                               state: CapturedState)
  {
    Kept(s, t) && Produced(s, t, pipeline, attempt, status, result, input) &&
    status in {Complete, IncompleteCapture, Cancelled, RestoreFailed, StateChanged} &&
    AttemptCaused(t, i, attempt, status) &&
    (status.Complete? <==> !t.trouble && QuietAttempt(i, attempt)) &&
    (status.Complete? ==> t.attempts == attempt + 1 && RestoredTo(s, t, baseline, state))
  }

  /** Reads, releases and restores. */
  method ReadAndRestore(host: Host, i: Injection, pipeline: bool, attempt: nat, baseline: CapturedState)
    returns (status: Status, result: AttemptResult, input: ArtifactInput, state: CapturedState)
    requires Open(host, Ready) && Allowed(host.phase.session, BeginAttempt(attempt)) && pipeline == host.suite.detach
    requires !Injected(i, BeforeAttempt, attempt, 0)
    requires host.phase.session.baseline == Some(baseline) && host.phase.session.causes == NoCauses
    modifies host
    ensures Open(host, Ready) && old(host.log) <= host.log
    ensures AttemptEnded(old(host.phase.session), host.phase.session, i, pipeline, attempt, baseline,
                         status, result, input, state)
  {
    status, result, input := ReadAttempt(host, i, pipeline, attempt);
    status := Release(host, i, attempt, status);
    status, state := Restore(host, i, attempt, baseline, status);
  }

  /** One attempt: unless it is cancelled first, read, release and restore. */
  method RunAttempt(host: Host, i: Injection, pipeline: bool, attempt: nat, baseline: CapturedState)
    returns (status: Status, result: AttemptResult, input: ArtifactInput, state: CapturedState)
    requires Open(host, Ready) && Allowed(host.phase.session, BeginAttempt(attempt)) && pipeline == host.suite.detach
    requires host.phase.session.baseline == Some(baseline) && host.phase.session.causes == NoCauses
    modifies host
    ensures Open(host, Ready) && old(host.log) <= host.log
    ensures AttemptEnded(old(host.phase.session), host.phase.session, i, pipeline, attempt, baseline,
                         status, result, input, state)
  {
    state := baseline;
    var cancelled := host.Ask(IsCancelled);
    result, input := cancelled.result, cancelled.input;
    if cancelled.ok {
      return Cancelled, result, input, state;
    }
    if Injected(i, BeforeAttempt, attempt, 0) {
      return IncompleteCapture, result, input, state;
    }
    status, result, input, state := ReadAndRestore(host, i, pipeline, attempt, baseline);
  }

  // ----- closing -----

  /** The session `host` was in before is closed, uncommitted, and the status says so. */
  ghost predicate Aborted(s: Session, p: Phase, wanted: Status, status: Status) {
    p.Outside? && !p.committed && p.last.Some? &&
    var t := p.last.value;
    t == s.(causes := s.causes.(uncleaned := t.causes.uncleaned)) && (s.causes.uncleaned ==> t.causes.uncleaned) &&
    status == if t.causes.uncleaned then CleanupFailed else wanted
  }

  method Abort(host: Host, serial: nat, wanted: Status) returns (status: Status)
    requires Open(host, Ready) && host.phase.session.worker != Running && host.phase.session.serial == serial
    requires host.phase.session.causes.uncleaned ==> wanted.CleanupFailed?
    modifies host
    ensures host.Valid() && old(host.log) <= host.log
    ensures Aborted(old(host.phase.session), host.phase, wanted, status)
  {
    var aborted := host.Ask(AbortSession(serial));
    status := if aborted.ok then wanted else CleanupFailed;
  }

  /** The worker has been joined, and the next call would go to a retention that is not there. */
  ghost predicate Stuck(suite: Suite, p: Phase, serial: nat) {
    p.Inside? && p.session.serial == serial && p.session.worker.Joined? && p.session.offered == {} &&
    suite.detach && !Offered(suite, RetainArtifact(0))
  }

  /** Gives back one artifact. */
  method Retain(host: Host, attempt: nat) returns (kept: bool)
    requires Open(host, Ready) && Allowed(host.phase.session, RetainArtifact(attempt)) && host.suite.retain
    modifies host
    ensures Open(host, Ready) && old(host.log) <= host.log
    ensures var s, t := old(host.phase.session), host.phase.session;
      t == s.(offered := s.offered + {attempt}, trouble := s.trouble || !kept,
              unretained := s.unretained || (attempt == 0 && !kept && !s.trouble && 1 in s.products),
              causes := s.causes.(uncleaned := s.causes.uncleaned || !kept))
  {
    var answer := host.Ask(RetainArtifact(attempt));
    kept := answer.ok;
  }

  /** Gives back the artifacts of the first `count` attempts, the second even if the first is refused. */
  method RetainUpTo(host: Host, count: nat) returns (retained: bool)
    requires Open(host, Ready) && host.phase.session.worker.Joined? && 1 <= count <= 2 && host.suite.retain
    requires host.phase.session.offered == {} && !host.phase.session.causes.uncleaned
    requires host.phase.session.trouble || 1 !in host.phase.session.products
    modifies host
    ensures Open(host, Ready) && old(host.log) <= host.log
    ensures var s, t := old(host.phase.session), host.phase.session;
      t == s.(offered := if count == 1 then {0} else {0, 1}, trouble := s.trouble || !retained,
              causes := s.causes.(uncleaned := !retained))
  {
    retained := Retain(host, 0);
    if count == 2 {
      var kept := Retain(host, 1);
      retained := retained && kept;
    }
  }

  /** Gives back the artifacts of the first `count` attempts, then aborts. */
  method AbortArtifacts(host: Host, serial: nat, wanted: Status, count: nat) returns (ending: Ending)
    requires Open(host, Ready) && host.phase.session.serial == serial && 1 <= count <= 2 && host.suite.detach
    requires host.phase.session.worker.Joined? && host.phase.session.offered == {} && wanted != Complete
    requires host.phase.session.trouble || 1 !in host.phase.session.products
    requires !host.phase.session.causes.uncleaned
    modifies host
    ensures host.Valid() && old(host.log) <= host.log
    ensures ending.AbsentCallback? ==> Stuck(host.suite, host.phase, serial)
    ensures ending.Returned? ==> GivenBack(old(host.phase.session), host.phase, wanted, count, ending.status)
    ensures ending.Returned? ==> host.suite.retain
  {
    if !host.suite.retain {
      return AbsentCallback;
    }
    var retained := RetainUpTo(host, count);
    var status := Abort(host, serial, if retained then wanted else CleanupFailed);
    ending := Returned(status);
  }

  ghost predicate GivenBack(s: Session, p: Phase, wanted: Status, count: nat, status: Status) {
    p.Outside? && p.last.Some? && !p.committed &&
    var t := p.last.value;
    t == s.(offered := if count == 1 then {0} else {0, 1}, trouble := t.trouble,
            causes := s.causes.(uncleaned := t.causes.uncleaned)) &&
    (s.trouble ==> t.trouble) && status == if t.causes.uncleaned then CleanupFailed else wanted
  }

  // ----- the overlapping pipeline -----

  /** A closed pipeline: the status is the first error in serial order, so attempt zero's outranks attempt one's. */
  ghost predicate JoinFailed(s: Session, p: Phase, status: Status, first: Status, second: ArtifactInput) {
    p.Outside? && !p.committed && p.last.Some? && status == StatusOfJoin(p.last.value, first) &&
    (!first.Complete? || p.last.value.trouble || !second.replay) &&
    SameExceptArtifacts(s, p.last.value) && OfferedAfterJoin(p.last.value)
  }

  function StatusOfJoin(t: Session, first: Status): Status {
    if t.causes.uncleaned then CleanupFailed
    else if t.worker == Joined(false) || first.Complete? then IncompleteCapture
    else first
  }

  ghost predicate SameExceptArtifacts(s: Session, t: Session) {
    t == s.(worker := t.worker, products := t.products, offered := t.offered, trouble := t.trouble,
            unretained := t.unretained, causes := s.causes.(uncleaned := t.causes.uncleaned)) &&
    (s.trouble ==> t.trouble)
  }

  /** Once joined, artifact zero is given back always, and artifact one when artifact zero could be built. */
  ghost predicate OfferedAfterJoin(t: Session) {
    match t.worker
    case NotStarted => t.offered == {}
    case Running => t.offered == {}
    case Joined(false) => t.offered == {0}
    case Joined(true) => if t.unretained then t.offered == {0} && t.trouble && 1 in t.detached else t.offered == {0, 1}
  }

  /** Every artifact that was detached has been given back. */
  predicate AllGivenBack(t: Session) {
    t.detached.Keys <= t.offered
  }

  /**
   * Nothing was detached, or the worker was joined and either attempt one detached nothing, or the worker succeeded
   * and the first retention was not refused after both results had been built.
   */
  predicate GivenBackWhen(t: Session) {
    t.detached.Keys == {} || (t.worker.Joined? && (1 !in t.detached || (t.worker.succeeded && !t.unretained)))
  }

  lemma {:induction false} WhenAllGivenBack(t: Session)
    requires OfferedAfterJoin(t) && t.detached.Keys <= {0, 1}
    ensures AllGivenBack(t) <==> GivenBackWhen(t)
  {
    if t.worker.Joined? && !t.worker.succeeded && 1 in t.detached {
      assert 1 !in t.offered;
    }
    if !t.worker.Joined? && t.detached.Keys != {} {
      var k :| k in t.detached.Keys;
      assert k !in t.offered;
    }
  }

  ghost predicate ReadyToBuild(s: Session, second: ArtifactInput) {
    s.attempts == 2 && 1 in s.detached && s.detached[1] == second && !s.trouble
  }

  /** Nothing has been given back, and attempt one has no result yet. */
  predicate NothingOffered(s: Session) {
    s.offered == {} && !s.unretained && 1 !in s.products && !s.causes.uncleaned
  }

  /** Joins the worker, which answers with its result if it succeeded. */
  method Join(host: Host) returns (joined: bool, a: AttemptResult)
    requires Open(host, Ready) && host.phase.session.worker == Running
    modifies host
    ensures Open(host, Ready) && old(host.log) <= host.log
    ensures var s, t := old(host.phase.session), host.phase.session;
      t == s.(worker := Joined(joined), trouble := s.trouble || !joined,
              products := if joined then s.products[0 := a] else s.products)
  {
    var answer := host.Ask(JoinWorker);
    joined, a := answer.ok, answer.result;
  }

  /** Joins the worker and builds the second result; `deferred` is how attempt one ended. */
  method BuildResults(host: Host, serial: nat, deferred: Status, second: ArtifactInput)
    returns (closed: bool, ending: Ending, a: AttemptResult, b: AttemptResult)
    requires Open(host, Ready) && host.phase.session.serial == serial && host.suite.detach
    requires host.phase.session.worker == Running && NothingOffered(host.phase.session)
    requires deferred.Complete? ==> ReadyToBuild(host.phase.session, second)
    modifies host
    ensures host.Valid() && old(host.log) <= host.log
    ensures closed ==> Closed(host.suite, old(host.phase.session), host.phase, ending, deferred, second)
    ensures !closed ==> Open(host, Ready) && deferred.Complete? && second.replay
    ensures !closed ==> Built(old(host.phase.session), host.phase.session, a, b)
  {
    var joined;
    joined, a := Join(host);
    closed, b := true, a;
    if !joined {
      ending := AbortArtifacts(host, serial, IncompleteCapture, 1);
      return;
    }
    if deferred != Complete {
      ending := AbortArtifacts(host, serial, deferred, 2);
      return;
    }
    if !second.replay {
      ending := AbortArtifacts(host, serial, IncompleteCapture, 2);
      return;
    }
    var status;
    status, b := BuildSecond(host);
    if status != Complete {
      ending := AbortArtifacts(host, serial, status, 2);
      return;
    }
    closed, ending := false, AbsentCallback;
  }

  /** The pipeline has ended: in a failure, or in the call of a retention that is not there. */
  ghost predicate Closed(suite: Suite, s: Session, p: Phase, ending: Ending, first: Status, second: ArtifactInput) {
    match ending
    case Returned(status) => JoinFailed(s, p, status, first, second) && suite.retain
    case AbsentCallback => Stuck(suite, p, s.serial)
  }

  method BuildSecond(host: Host) returns (status: Status, b: AttemptResult)
    requires Open(host, Ready) && Allowed(host.phase.session, PrepareReplay) && !host.phase.session.trouble
    modifies host
    ensures Open(host, Ready) && old(host.log) <= host.log
    ensures var s, t := old(host.phase.session), host.phase.session;
      t == s.(products := t.products, trouble := t.trouble) && (s.trouble ==> t.trouble) &&
      (status.Complete? <==> !t.trouble) && status in {Complete, IncompleteCapture} &&
      (status.Complete? ==> t.products == s.products[1 := b] && b.manifest.roots.integrity == CompleteIntegrity)
  {
    var replayed := host.Ask(PrepareReplay);
    b := replayed.result;
    if !replayed.ok {
      return IncompleteCapture, b;
    }
    var built := host.Ask(BuildArtifact);
    b := built.result;
    status := if built.ok && b.manifest.roots.integrity == CompleteIntegrity then Complete else IncompleteCapture;
  }

  ghost predicate Built(s: Session, t: Session, a: AttemptResult, b: AttemptResult) {
    t == s.(worker := Joined(true), products := s.products[0 := a][1 := b]) &&
    b.manifest.roots.integrity == CompleteIntegrity
  }

  /** The overlapping pipeline from the end of the attempts to two results whose artifacts have been given back. */
  method FinishArtifacts(host: Host, serial: nat, deferred: Status, second: ArtifactInput)
    returns (closed: bool, ending: Ending, a: AttemptResult, b: AttemptResult)
    requires Open(host, Ready) && host.phase.session.serial == serial && host.suite.detach
    requires host.phase.session.worker == Running && NothingOffered(host.phase.session)
    requires deferred.Complete? ==> ReadyToBuild(host.phase.session, second)
    modifies host
    ensures host.Valid() && old(host.log) <= host.log
    ensures closed ==> Closed(host.suite, old(host.phase.session), host.phase, ending, deferred, second)
    ensures !closed ==> Open(host, Ready) && deferred.Complete? && second.replay && host.suite.retain
    ensures !closed ==> ArtifactsDone(old(host.phase.session), host.phase.session, a, b)
  {
    closed, ending, a, b := BuildResults(host, serial, deferred, second);
    if closed {
      return;
    }
    if !host.suite.retain {
      return true, AbsentCallback, a, b;
    }
    var status;
    closed, status := RetainBoth(host, serial);
    ending := Returned(status);
  }

  /** Gives both artifacts back; the second is not offered when the first cannot be. */
  method RetainBoth(host: Host, serial: nat) returns (closed: bool, status: Status)
    requires Open(host, Ready) && host.phase.session.serial == serial && host.suite.retain
    requires host.phase.session.worker == Joined(true) && host.phase.session.offered == {}
    requires !host.phase.session.trouble && !host.phase.session.unretained && 1 in host.phase.session.products
    requires !host.phase.session.causes.uncleaned
    modifies host
    ensures host.Valid() && old(host.log) <= host.log
    ensures closed ==> NotRetained(old(host.phase.session), host.phase, status)
    ensures !closed ==> Open(host, Ready) && host.phase.session == old(host.phase.session).(offered := {0, 1})
  {
    var first := Retain(host, 0);
    if !first {
      status := Abort(host, serial, CleanupFailed);
      return true, status;
    }
    var last := Retain(host, 1);
    if !last {
      status := Abort(host, serial, CleanupFailed);
      return true, status;
    }
    closed, status := false, Complete;
  }

  ghost predicate NotRetained(s: Session, p: Phase, status: Status) {
    p.Outside? && !p.committed && p.last.Some? && status.CleanupFailed? && p.last.value.trouble &&
    p.last.value == s.(offered := p.last.value.offered, trouble := true, unretained := p.last.value.unretained,
                       causes := s.causes.(uncleaned := true)) &&
    p.last.value.offered == if p.last.value.unretained then {0} else {0, 1}
  }

  ghost predicate ArtifactsDone(s: Session, t: Session, a: AttemptResult, b: AttemptResult) {
    t == s.(worker := Joined(true), products := s.products[0 := a][1 := b], offered := {0, 1}) &&
    b.manifest.roots.integrity == CompleteIntegrity
  }

  // ----- comparing and publishing -----

  ghost predicate ReadyToCompare(s: Session, serial: nat, baseline: CapturedState, r0: CapturedState,
                                 r1: CapturedState, a: AttemptResult, b: AttemptResult)
  {
    s.stage == Ready && s.serial == serial && s.worker != Running && !s.trouble && s.causes == NoCauses &&
    0 in s.products && s.products[0] == a && 1 in s.products && s.products[1] == b &&
    b.manifest.roots.integrity == CompleteIntegrity &&
    s.baseline == Some(baseline) && s.restored == [r0, r1] && StatesMatch(baseline, r0) && StatesMatch(baseline, r1)
  }

  ghost predicate Ended(s: Session, p: Phase, status: Status) {
    status in {Complete, IncompleteCapture, TraversalMismatch, PublishFailed, CleanupFailed} &&
    (status.TraversalMismatch? ==> !BothAgree(s)) && (status.PublishFailed? ==> BothAgree(s) && BothRestored(s)) &&
    p.Outside? && p.last.Some? &&
    p.last.value == s.(trouble := p.last.value.trouble, stage := p.last.value.stage, causes := p.last.value.causes) &&
    EndCaused(p.last.value.causes, BothAgree(s), status) && (status.Complete? <==> p.committed)
  }

  /** Why a session has ended in which both attempts went well. */
  predicate EndCaused(c: Causes, agree: bool, status: Status) {
    c == NoCauses.(compared := c.compared, preserved := c.preserved, unpublished := c.unpublished,
                   uncleaned := c.uncleaned) &&
    (status.CleanupFailed? <==> c.uncleaned) &&
    (!c.uncleaned ==>
       (status.TraversalMismatch? <==> c.preserved == Some(true)) && (status.PublishFailed? <==> c.unpublished)) &&
    (c.preserved.Some? <==> c.compared && !agree)
  }

  /** Both attempts went well, and nothing has gone wrong in the comparison so far. */
  predicate NoEndYet(c: Causes) {
    c == NoCauses.(compared := c.compared)
  }

  /** Offers the publication to the store. From a successful publication on, nothing can fail. */
  method Offer(host: Host, serial: nat, input: PublicationInput) returns (status: Status)
    requires Open(host, Ready) && host.phase.session.serial == serial && !host.phase.session.trouble
    requires host.phase.session.worker != Running && Publishable(host.phase.session, input)
    requires NoEndYet(host.phase.session.causes)
    modifies host
    ensures host.Valid() && old(host.log) <= host.log && Ended(old(host.phase.session), host.phase, status)
    ensures status.Complete? <==> !host.phase.last.value.trouble
  {
    var prepared := host.Ask(PreparePublication(serial));
    if !prepared.ok {
      status := Abort(host, serial, CleanupFailed);
      return;
    }
    status := OfferPrepared(host, serial, input);
  }

  method PublishInput(host: Host, input: PublicationInput) returns (published: bool)
    requires Open(host, Ready) && Allowed(host.phase.session, Publish(input))
    modifies host
    ensures Open(host, if published then Committing else Ready) && old(host.log) <= host.log
    ensures var s, t := old(host.phase.session), host.phase.session;
      t == s.(stage := t.stage, trouble := s.trouble || !published,
              causes := s.causes.(unpublished := s.causes.unpublished || !published))
  {
    var answer := host.Ask(Publish(input));
    published := answer.ok;
  }

  method OfferPrepared(host: Host, serial: nat, input: PublicationInput) returns (status: Status)
    requires Open(host, Ready) && host.phase.session.serial == serial && Allowed(host.phase.session, Publish(input))
    requires NoEndYet(host.phase.session.causes)
    modifies host
    ensures host.Valid() && old(host.log) <= host.log && Ended(old(host.phase.session), host.phase, status)
    ensures status.Complete? <==> !host.phase.last.value.trouble
  {
    var published := PublishInput(host, input);
    if !published {
      status := Abort(host, serial, PublishFailed);
      return;
    }
    var committed := host.Ask(CommitSession(serial));
    status := Complete;
  }

  /** Publishes two results that have been compared. */
  method PublishResults(host: Host, serial: nat, i: Injection, baseline: CapturedState, r0: CapturedState,
                        r1: CapturedState, a: AttemptResult, b: AttemptResult)
    returns (status: Status)
    requires Open(host, Ready) && Agree(a, b) && NoEndYet(host.phase.session.causes)
    requires ReadyToCompare(host.phase.session.(causes := NoCauses), serial, baseline, r0, r1, a, b)
    modifies host
    ensures host.Valid() && old(host.log) <= host.log && Ended(old(host.phase.session), host.phase, status)
    ensures status.Complete? <==> i.point !in {AfterComparison, BeforePublish} && !host.phase.last.value.trouble
  {
    if Injected(i, AfterComparison, 0, 0) {
      status := Abort(host, serial, IncompleteCapture);
      return;
    }
    var input := PublicationInput(a.manifest, b.manifest, baseline, r0, r1, b.storage, b.layoutEnvironment,
                                  b.observedControlCount, b.legacyDiagnosticFailed);
    if Injected(i, BeforePublish, 0, 0) {
      status := Abort(host, serial, IncompleteCapture);
      return;
    }
    status := Offer(host, serial, input);
  }

  /** Keeps two results that do not agree for inspection, and ends the session. */
  method ReportMismatch(host: Host, serial: nat) returns (status: Status)
    requires Open(host, Ready) && Allowed(host.phase.session, PreserveMismatch) && host.phase.session.serial == serial
    requires host.phase.session.trouble && host.phase.session.causes == NoCauses.(compared := true)
    modifies host
    ensures host.Valid() && old(host.log) <= host.log && Ended(old(host.phase.session), host.phase, status)
    ensures host.phase.last.value.trouble && !status.Complete?
  {
    var preserved := host.Ask(PreserveMismatch);
    status := Abort(host, serial, if preserved.ok then TraversalMismatch else IncompleteCapture);
  }

  /** Compares the two results. A difference is the session's trouble, and nothing else changes. */
  method CompareResults(host: Host, a: AttemptResult, b: AttemptResult) returns (agree: bool)
    requires Open(host, Ready) && Allowed(host.phase.session, CompareStart)
    requires host.phase.session.products[0] == a && host.phase.session.products[1] == b
    modifies host
    ensures Open(host, Ready) && old(host.log) <= host.log && (agree <==> Agree(a, b))
    ensures var s := old(host.phase.session);
      host.phase.session == s.(trouble := s.trouble || !agree, causes := s.causes.(compared := true))
  {
    var compared := host.Ask(CompareStart);
    var bits := ComputeAttemptMismatchBits(a, b);
    agree := bits == {};
  }

  /** Compares the two results, and publishes them if they agree. */
  method CompareAndPublish(host: Host, serial: nat, i: Injection, baseline: CapturedState, r0: CapturedState,
                           r1: CapturedState, a: AttemptResult, b: AttemptResult)
    returns (status: Status)
    requires Open(host, Ready) && ReadyToCompare(host.phase.session, serial, baseline, r0, r1, a, b)
    modifies host
    ensures host.Valid() && old(host.log) <= host.log && Ended(old(host.phase.session), host.phase, status)
    ensures status.Complete? <==> QuietEnd(i) && !host.phase.last.value.trouble
    ensures status.Complete? ==> Agree(a, b)
  {
    if Injected(i, BeforeComparison, 0, 0) {
      status := Abort(host, serial, IncompleteCapture);
      return;
    }
    var agree := CompareResults(host, a, b);
    if !agree {
      status := ReportMismatch(host, serial);
      return;
    }
    status := PublishResults(host, serial, i, baseline, r0, r1, a, b);
  }

  // ----- the whole capture -----

  /** How a session that was opened without trouble has ended. */
  ghost predicate SessionEnded(p: Phase, serial: nat, i: Injection, suite: Suite, status: Status) {
    p.Outside? && p.last.Some? && p.last.value.serial == serial && OfferedAfterJoin(p.last.value) &&
    p.last.value.detached.Keys <= {0, 1} && (AllGivenBack(p.last.value) <==> GivenBackWhen(p.last.value)) &&
    (status.Complete? <==> p.committed) && (p.committed <==> Quiet(i) && Favourable(p.last.value)) &&
    (!suite.detach ==> p.last.value.worker == NotStarted) && !status.InvalidArgument? &&
    RightStatus(p.last.value, i, status) &&
    (p.last.value.worker.Joined? ==> suite.retain) &&
    (status.TraversalMismatch? ==> !BothAgree(p.last.value)) &&
    (status.PublishFailed? ==> BothAgree(p.last.value) && BothRestored(p.last.value)) &&
    (p.committed ==>
       BothAgree(p.last.value) && BothRestored(p.last.value) && (suite.detach ==> p.last.value.offered == {0, 1}))
  }

  /** How a session has ended, or where it is stuck. */
  ghost predicate SessionLeft(p: Phase, serial: nat, i: Injection, suite: Suite, ending: Ending) {
    match ending
    case Returned(status) => SessionEnded(p, serial, i, suite, status)
    case AbsentCallback => Stuck(suite, p, serial)
  }

  /** Every answer was favourable, and the second artifact can be replayed. */
  predicate Favourable(s: Session) {
    !s.trouble && (1 in s.detached ==> s.detached[1].replay)
  }

  /** A session without a worker, in which nothing has been given back, is aborted after a failure of attempt `k`. */
  lemma {:induction false} AbortedEnds(s: Session, p: Phase, serial: nat, i: Injection, suite: Suite, k: nat,
                                       wanted: Status, status: Status)
    requires Aborted(s, p, wanted, status) && s.serial == serial && s.worker == NotStarted && s.offered == {}
    requires s.detached.Keys <= {0, 1} && (s.trouble || !Quiet(i)) && k <= 1
    requires wanted in {IncompleteCapture, Cancelled, RestoreFailed, StateChanged} && AttemptCaused(s, i, k, wanted)
    ensures SessionEnded(p, serial, i, suite, status)
  {
    WhenAllGivenBack(p.last.value);
  }

  /** A pipeline is closed after a failure. */
  lemma {:induction false} JoinedEnds(s: Session, p: Phase, serial: nat, i: Injection, suite: Suite, first: Status,
                                      second: ArtifactInput, status: Status)
    requires JoinFailed(s, p, status, first, second) && s.serial == serial && suite.retain && suite.detach
    requires s.detached.Keys <= {0, 1} && (first.Complete? ==> 1 in s.detached && s.detached[1] == second)
    requires first in {Complete, IncompleteCapture, Cancelled, RestoreFailed, StateChanged}
    requires AttemptCaused(s, i, 1, first) && (!first.Complete? ==> s.trouble || !Quiet(i))
    ensures SessionEnded(p, serial, i, suite, status)
  {
    var t := p.last.value;
    WhenAllGivenBack(t);
    assert CancelStands(t, i, 1) <==> CancelStands(s, i, 1);
  }

  /** Two good attempts have been compared, and the session is closed. */
  lemma {:induction false} ComparedEnds(s: Session, p: Phase, serial: nat, i: Injection, suite: Suite, status: Status)
    requires Ended(s, p, status) && s.serial == serial && s.causes == NoCauses && BothRestored(s)
    requires OfferedAfterJoin(s) && !s.unretained && s.detached.Keys <= {0, 1}
    requires if suite.detach then s.offered == {0, 1} && suite.retain && (1 in s.detached ==> s.detached[1].replay)
             else s.worker == NotStarted && s.detached == map[]
    requires status.Complete? <==> Quiet(i) && !p.last.value.trouble
    requires p.committed ==> BothAgree(s)
    ensures SessionEnded(p, serial, i, suite, status)
  {
    WhenAllGivenBack(p.last.value);
  }

  class Coordinator {
    var sessionSerial: nat

    constructor ()
      ensures sessionSerial == 0
    {
      sessionSerial := 0;
    }

    /**
     * The whole capture. It completes exactly when no injected failure is reached and every answer is favourable;
     * whatever happens, the host's log stays within the protocol. Unless it calls a retention that is not there, it
     * returns with its session closed.
     */
    method Capture(host: Host, contexts: bool, i: Injection) returns (ending: Ending)
      requires host.Valid() && host.phase.Outside?
      requires host.phase.last.Some? ==> host.phase.last.value.serial <= sessionSerial
      modifies this, host
      ensures host.Valid() && old(host.log) <= host.log && (ending.Returned? <==> host.phase.Outside?)
      ensures sessionSerial == old(sessionSerial) + if host.log == old(host.log) then 0 else 1
      ensures ending == Returned(InvalidArgument) <==> !ValidSuite(host.suite) || !contexts
      ensures host.log == old(host.log) <==> ending == Returned(InvalidArgument) || old(sessionSerial) >= MaximumSerial
      ensures host.log == old(host.log) ==> ending in {Returned(InvalidArgument), Returned(IncompleteCapture)}
      ensures host.log != old(host.log) ==> SessionLeft(host.phase, sessionSerial, i, host.suite, ending)
      ensures ending.AbsentCallback? ==> ValidSuite(host.suite) && host.suite.detach && !host.suite.retain
      ensures host.log != old(host.log) && ending.Returned? ==>
        (ending.status.CleanupFailed? <==> Happened(host.log, RefusesCleanup()))
    {
      if !ValidSuite(host.suite) || !contexts {
        return Returned(InvalidArgument);
      }
      if sessionSerial >= MaximumSerial {
        return Returned(IncompleteCapture);
      }
      sessionSerial := sessionSerial + 1;
      ending := BeginAndCapture(host, sessionSerial, i);
      ghost var p := CausesAreLogged(host.log);
    }
  }

  /** Aborts a session in which nothing has been given back, for a failure of attempt `k` or before it. */
  method AbortEarly(host: Host, serial: nat, i: Injection, k: nat, wanted: Status) returns (ending: Ending)
    requires Open(host, Ready) && host.phase.session.serial == serial && k <= 1
    requires host.phase.session.worker == NotStarted && host.phase.session.offered == {}
    requires host.phase.session.detached.Keys <= {0, 1} && (host.phase.session.trouble || !Quiet(i))
    requires wanted in {IncompleteCapture, Cancelled, RestoreFailed, StateChanged}
    requires AttemptCaused(host.phase.session, i, k, wanted)
    modifies host
    ensures host.Valid() && old(host.log) <= host.log && ending.Returned?
    ensures SessionLeft(host.phase, serial, i, host.suite, ending)
  {
    ghost var s := host.phase.session;
    var status := Abort(host, serial, wanted);
    AbortedEnds(s, host.phase, serial, i, host.suite, k, wanted, status);
    ending := Returned(status);
  }

  method BeginAndCapture(host: Host, serial: nat, i: Injection) returns (ending: Ending)
    requires host.Valid() && host.phase.Outside? && ValidSuite(host.suite)
    requires host.phase.last.Some? ==> host.phase.last.value.serial < serial
    modifies host
    ensures host.Valid() && old(host.log) <= host.log && |old(host.log)| < |host.log|
    ensures SessionLeft(host.phase, serial, i, host.suite, ending)
  {
    ghost var before := host.log;
    var began := host.Ask(BeginSession(serial));
    assert before < host.log;
    if began.ok {
      ending := CaptureSession(host, serial, i);
    } else {
      ending := AbortEarly(host, serial, i, 0, IncompleteCapture);
    }
  }

  method CaptureSession(host: Host, serial: nat, i: Injection) returns (ending: Ending)
    requires Open(host, Ready) && host.phase.session == NewSession(serial, true)
    modifies host
    ensures host.Valid() && old(host.log) <= host.log && SessionLeft(host.phase, serial, i, host.suite, ending)
  {
    if Injected(i, BeforeBaseline, 0, 0) {
      ending := AbortEarly(host, serial, i, 0, IncompleteCapture);
      return;
    }
    var baseline := host.Ask(CaptureState);
    if !baseline.ok || Injected(i, AfterBaseline, 0, 0) {
      ending := AbortEarly(host, serial, i, 0, IncompleteCapture);
      return;
    }
    ending := CaptureTwice(host, serial, i, baseline.state);
  }

  method CaptureTwice(host: Host, serial: nat, i: Injection, baseline: CapturedState) returns (ending: Ending)
    requires Open(host, Ready) && host.phase.session == NewSession(serial, true).(baseline := Some(baseline))
    requires i.point != BeforeBaseline && i.point != AfterBaseline
    modifies host
    ensures host.Valid() && old(host.log) <= host.log && SessionLeft(host.phase, serial, i, host.suite, ending)
  {
    var pipeline := host.suite.detach;
    var status, a, first, r0 := RunAttempt(host, i, pipeline, 0, baseline);
    if status != Complete {
      ending := AbortEarly(host, serial, i, 0, status);
      return;
    }
    if pipeline {
      var started := host.Ask(StartWorker);
      if !started.ok {
        ending := AbortEarly(host, serial, i, 0, IncompleteCapture);
        return;
      }
    }
    ending := CaptureAgain(host, serial, i, pipeline, baseline, a, r0);
  }

  /** After attempt zero: its document is restored, and in the pipeline its worker is running. */
  ghost predicate HalfWay(s: Session, serial: nat, pipeline: bool, baseline: CapturedState, a: AttemptResult,
                          r0: CapturedState)
  {
    s.stage == Ready && s.serial == serial && s.attempts == 1 && !s.trouble && s.offered == {} && !s.unretained &&
    s.causes == NoCauses && s.baseline == Some(baseline) && s.restored == [r0] && StatesMatch(baseline, r0) &&
    (if pipeline then s.worker == Running && s.products == map[] && s.detached.Keys == {0}
     else s.worker == NotStarted && s.detached == map[] && s.products == map[0 := a])
  }

  method CaptureAgain(host: Host, serial: nat, i: Injection, pipeline: bool, baseline: CapturedState,
                      first: AttemptResult, r0: CapturedState)
    returns (ending: Ending)
    requires Open(host, Ready) && HalfWay(host.phase.session, serial, pipeline, baseline, first, r0)
    requires i.point != BeforeBaseline && i.point != AfterBaseline && QuietAttempt(i, 0)
    requires pipeline == host.suite.detach
    modifies host
    ensures host.Valid() && old(host.log) <= host.log && SessionLeft(host.phase, serial, i, host.suite, ending)
  {
    ghost var s := host.phase.session;
    var status, b, second, r1 := RunAttempt(host, i, pipeline, 1, baseline);
    if pipeline {
      ending := FinishPipeline(host, serial, i, baseline, r0, r1, status, second);
    } else if status != Complete {
      ending := AbortEarly(host, serial, i, 1, status);
    } else {
      ending := CompareAtLast(host, serial, i, baseline, r0, r1, first, b);
    }
  }

  /** In the pipeline, attempt one has ended and the worker of attempt zero is still running. */
  ghost predicate BothRead(s: Session, serial: nat, i: Injection, baseline: CapturedState, r0: CapturedState,
                           r1: CapturedState, deferred: Status, second: ArtifactInput)
  {
    s.serial == serial && s.worker == Running && s.products == map[] && s.offered == {} && !s.unretained &&
    s.detached.Keys <= {0, 1} && AttemptCaused(s, i, 1, deferred) &&
    (deferred.Complete? <==> !s.trouble && QuietAttempt(i, 1)) &&
    (deferred.Complete? ==>
       s.attempts == 2 && 1 in s.detached && s.detached[1] == second && s.baseline == Some(baseline) &&
       s.restored == [r0, r1] && StatesMatch(baseline, r0) && StatesMatch(baseline, r1))
  }

  method FinishPipeline(host: Host, serial: nat, i: Injection, baseline: CapturedState, r0: CapturedState,
                        r1: CapturedState, deferred: Status, second: ArtifactInput)
    returns (ending: Ending)
    requires Open(host, Ready) && host.suite.detach
    requires BothRead(host.phase.session, serial, i, baseline, r0, r1, deferred, second)
    requires i.point != BeforeBaseline && i.point != AfterBaseline && QuietAttempt(i, 0)
    requires deferred in {Complete, IncompleteCapture, Cancelled, RestoreFailed, StateChanged}
    modifies host
    ensures host.Valid() && old(host.log) <= host.log && SessionLeft(host.phase, serial, i, host.suite, ending)
  {
    ghost var s := host.phase.session;
    var closed, a, b;
    closed, ending, a, b := FinishArtifacts(host, serial, deferred, second);
    if closed {
      if ending.Returned? {
        JoinedEnds(s, host.phase, serial, i, host.suite, deferred, second, ending.status);
      }
      return;
    }
    ending := CompareAtLast(host, serial, i, baseline, r0, r1, a, b);
  }

  /** Two good attempts: compares, publishes and closes. */
  method CompareAtLast(host: Host, serial: nat, i: Injection, baseline: CapturedState, r0: CapturedState,
                       r1: CapturedState, a: AttemptResult, b: AttemptResult)
    returns (ending: Ending)
    requires Open(host, Ready) && ReadyToCompare(host.phase.session, serial, baseline, r0, r1, a, b)
    requires OfferedAfterJoin(host.phase.session) && !host.phase.session.unretained
    requires host.phase.session.detached.Keys <= {0, 1}
    requires var s := host.phase.session;
      if host.suite.detach then s.offered == {0, 1} && host.suite.retain && (1 in s.detached ==> s.detached[1].replay)
      else s.worker == NotStarted && s.detached == map[]
    requires i.point != BeforeBaseline && i.point != AfterBaseline && QuietAttempt(i, 0) && QuietAttempt(i, 1)
    modifies host
    ensures host.Valid() && old(host.log) <= host.log && SessionLeft(host.phase, serial, i, host.suite, ending)
  {
    ghost var s := host.phase.session;
    var status := CompareAndPublish(host, serial, i, baseline, r0, r1, a, b);
    ComparedEnds(s, host.phase, serial, i, host.suite, status);
    ending := Returned(status);
  }

  // ----- a suite that cannot give artifacts back -----

  /** An answer that stands in nothing's way: yes to everything but a cancellation, and always the same result. */
  function Obliging(result: AttemptResult, state: CapturedState): (nat, Call) -> Answer {
    (n: nat, c: Call) => Answer(!c.IsCancelled?, state, result, ArtifactInput(true, true, true, 0, 0))
  }

  /** Nothing has gone wrong, and everything produced is the one result. */
  predicate Serene(s: Session, result: AttemptResult, state: CapturedState) {
    !s.trouble && (s.baseline.Some? ==> s.baseline.value == state) &&
    (forall k | k in s.products :: s.products[k] == result) && (forall k | k in s.detached :: s.detached[k].replay)
  }

  predicate SerenePhase(p: Phase, result: AttemptResult, state: CapturedState) {
    match p
    case Inside(s) => Serene(s, result, state)
    case Outside(last, _) => last.Some? ==> Serene(last.value, result, state)
  }

  lemma {:induction false} ObligingStep(p: Phase, n: nat, c: Call, result: AttemptResult, state: CapturedState)
    requires SerenePhase(p, result, state) && MayCall(p, c) && result.manifest.roots.integrity == CompleteIntegrity
    ensures SerenePhase(Next(p, Event(c, Obliging(result, state)(n, c))), result, state)
  {
  }

  /** Under such a script no session ever has trouble. */
  lemma {:induction false} ObligingLogs(log: seq<Event>, result: AttemptResult, state: CapturedState) returns (p: Phase)
    requires Replay(log).Some? && Scripted(log, Obliging(result, state))
    requires result.manifest.roots.integrity == CompleteIntegrity
    ensures Replay(log) == Some(p) && SerenePhase(p, result, state)
  {
    p := Outside(None, false);
    if log != [] {
      var e := log[|log| - 1];
      var q := ObligingLogs(log[..|log| - 1], result, state);
      ObligingStep(q, |log| - 1, e.call, result, state);
      p := Next(q, e);
    }
  }

  /**
   * A valid suite that detaches and does not retain: nothing stands in the way, and the capture calls the retention
   * that is not there. By the contract of `Capture`, a valid suite in which detachment comes with retention never
   * has an absent callback called.
   */
  method CaptureWithoutRetention(result: AttemptResult, state: CapturedState, suite: Suite) returns (ending: Ending)
    requires ValidSuite(suite) && result.manifest.roots.integrity == CompleteIntegrity
    ensures ending == AbsentCallback <==> suite.detach && !suite.retain
  {
    var host := new Host(Obliging(result, state), suite);
    var coordinator := new Coordinator();
    ending := coordinator.Capture(host, true, Injection(NoPoint, 0, 0));
    ghost var p := ObligingLogs(host.log, result, state);
  }

  /** Such a suite passes the validation. */
  lemma {:induction false} RetentionMayBeAbsent()
    ensures exists suite :: ValidSuite(suite) && suite.detach && !suite.retain
  {
    assert ValidSuite(Suite(ReaderCount, true, true, true, false));
  }

  // ----- an artifact that is never given back -----

  /** An answer that obliges in everything but the start of the worker. */
  function Reluctant(result: AttemptResult, state: CapturedState): (nat, Call) -> Answer {
    (n: nat, c: Call) =>
      Answer(!c.IsCancelled? && !c.StartWorker?, state, result, ArtifactInput(true, true, true, 0, 0))
  }

  /** The worker never runs, so nothing is given back; and only its refusal is trouble, after a detachment. */
  predicate Workless(s: Session, result: AttemptResult, state: CapturedState) {
    s.worker == NotStarted && s.offered == {} && (s.trouble ==> 0 in s.detached) &&
    (s.baseline.Some? ==> s.baseline.value == state) &&
    (forall k | k in s.products :: s.products[k] == result) && (forall k | k in s.detached :: s.detached[k].replay)
  }

  predicate WorklessPhase(p: Phase, result: AttemptResult, state: CapturedState) {
    match p
    case Inside(s) => Workless(s, result, state)
    case Outside(last, _) => last.Some? ==> Workless(last.value, result, state)
  }

  lemma {:induction false} ReluctantStep(p: Phase, n: nat, c: Call, result: AttemptResult, state: CapturedState)
    requires WorklessPhase(p, result, state) && MayCall(p, c) && result.manifest.roots.integrity == CompleteIntegrity
    ensures WorklessPhase(Next(p, Event(c, Reluctant(result, state)(n, c))), result, state)
  {
  }

  lemma {:induction false} ReluctantLogs(log: seq<Event>, result: AttemptResult, state: CapturedState)
    returns (p: Phase)
    requires Replay(log).Some? && Scripted(log, Reluctant(result, state))
    requires result.manifest.roots.integrity == CompleteIntegrity
    ensures Replay(log) == Some(p) && WorklessPhase(p, result, state)
  {
    p := Outside(None, false);
    if log != [] {
      var e := log[|log| - 1];
      var q := ReluctantLogs(log[..|log| - 1], result, state);
      ReluctantStep(q, |log| - 1, e.call, result, state);
      p := Next(q, e);
    }
  }

  /** The session the log ends with has detached the first artifact and never given it back. */
  ghost predicate Leaks(log: seq<Event>) {
    var p := Replay(log);
    p.Some? && p.value.Outside? && p.value.last.Some? && 0 in p.value.last.value.detached &&
    !AllGivenBack(p.value.last.value)
  }

  /** When the worker cannot be started, the artifact of attempt zero is lost, whatever the suite retains. */
  method CaptureThatLeaks(result: AttemptResult, state: CapturedState, suite: Suite)
    returns (ending: Ending, log: seq<Event>)
    requires ValidSuite(suite) && suite.detach && result.manifest.roots.integrity == CompleteIntegrity
    ensures ending.Returned? && Leaks(log)
  {
    var host := new Host(Reluctant(result, state), suite);
    var coordinator := new Coordinator();
    ending := coordinator.Capture(host, true, Injection(NoPoint, 0, 0));
    ghost var p := ReluctantLogs(host.log, result, state);
    log := host.log;
  }
}
