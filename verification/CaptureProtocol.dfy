/**
 * The contract between the capture coordinator and its callbacks: a state machine over the calls it makes, the
 * obligations each call carries, and a host whose answers are arbitrary.
 */
module CaptureProtocol {
  import opened Options
  import opened AttemptComparison

  const ReaderCount := 7

  /** What a detached artifact carries; `owner`, `build` and `replay` say whether they are there. */
  datatype ArtifactInput = ArtifactInput(owner: bool, build: bool, replay: bool, comPointers: nat,
                                         contextReferences: nat)
  {
    predicate Usable() { owner && build && comPointers == 0 && contextReferences == 0 }
  }

  datatype PublicationInput = PublicationInput(
    first: Manifest, second: Manifest, baseline: CapturedState, firstRestoration: CapturedState,
    secondRestoration: CapturedState, storage: nat, layoutEnvironment: seq<nat>, observedControlCount: nat,
    legacyDiagnosticFailed: bool)

  /** Everything the coordinator asks of the outside; joining the worker answers with what its build produced. */
  datatype Call =
    | BeginSession(serial: nat) | AbortSession(serial: nat) | CommitSession(serial: nat)
    | CaptureState | RestoreState(baseline: CapturedState) | IsCancelled
    | BeginAttempt(attempt: nat) | RunReader(attempt: nat, reader: nat)
    | FinishAttempt(attempt: nat) | DetachArtifact(attempt: nat) | ReleaseScans
    | StartWorker | JoinWorker | PrepareReplay | BuildArtifact | RetainArtifact(attempt: nat)
    | CompareStart | PreserveMismatch
    | PreparePublication(serial: nat) | Publish(input: PublicationInput)

  /** Which callbacks a suite offers; `rest` stands for those that every capture needs. */
  datatype Suite = Suite(readerCount: nat, rest: bool, finish: bool, detach: bool, retain: bool)

  predicate ValidSuite(suite: Suite) {
    suite.readerCount == ReaderCount && suite.rest && (suite.finish || (suite.detach && suite.retain))
  }

  /** The call goes to something that is there: threads and the store always are, callbacks if the suite has them. */
  predicate Offered(suite: Suite, c: Call) {
    match c
    case FinishAttempt(_) => suite.finish
    case DetachArtifact(_) => suite.detach
    case RetainArtifact(_) => suite.retain
    case StartWorker => true
    case JoinWorker => true
    case PrepareReplay => true
    case BuildArtifact => true
    case CompareStart => true
    case PreserveMismatch => true
    case Publish(_) => true
    case _ => suite.rest
  }

  datatype Answer = Answer(ok: bool, state: CapturedState, result: AttemptResult, input: ArtifactInput)

  datatype Event = Event(call: Call, answer: Answer)

  datatype Worker = NotStarted | Running | Joined(succeeded: bool)
  datatype Stage = Ready | Attempting | Released | Committing

  /**
   * Why a session may have to end otherwise than it should. By attempt: a cancellation was answered yes, the release
   * was refused, the restoration or its proof was refused, and the state read back was another. Then: the results
   * were compared, what preserving the mismatch was answered, the publication was refused; and `uncleaned`: a
   * retention, the preparation of the publication or the abort was refused.
   */
  datatype Causes = Causes(cancelled: set<nat>, unreleased: set<nat>, unrestored: set<nat>, strayed: set<nat>,
                           compared: bool, preserved: Option<bool>, unpublished: bool, uncleaned: bool)

  const NoCauses := Causes({}, {}, {}, {}, false, None, false, false)

  function AlsoIf(condition: bool, s: set<nat>, attempt: nat): (t: set<nat>)
    ensures t != {} <==> condition || s != {}
  {
    assert attempt in s + {attempt};
    if condition then s + {attempt} else s
  }

  /**
   * What has happened in a session. `trouble`: some answer was unfavourable; `unretained`: the retention of the first
   * artifact was refused when both results had been built and there was no trouble before.
   */
  datatype Session = Session(
    serial: nat, stage: Stage, attempts: nat, readers: nat, broken: bool, worker: Worker,
    baseline: Option<CapturedState>, restored: seq<CapturedState>, products: map<nat, AttemptResult>,
    detached: map<nat, ArtifactInput>, offered: set<nat>, trouble: bool, unretained: bool,
    causes: Causes)

  datatype Phase = Outside(last: Option<Session>, committed: bool) | Inside(session: Session)

  predicate StatesMatch(a: CapturedState, b: CapturedState) {
    a == b
  }

  ghost predicate BothAgree(s: Session) {
    0 in s.products && 1 in s.products && Agree(s.products[0], s.products[1])
  }

  predicate BothRestored(s: Session) {
    s.baseline.Some? && |s.restored| == 2 &&
    StatesMatch(s.baseline.value, s.restored[0]) && StatesMatch(s.baseline.value, s.restored[1])
  }

  /** What may be published: two complete, agreeing attempts and two restorations of the baseline. */
  ghost predicate Publishable(s: Session, input: PublicationInput) {
    BothAgree(s) && BothRestored(s) &&
    s.products[0].manifest.roots.integrity == CompleteIntegrity &&
    s.products[1].manifest.roots.integrity == CompleteIntegrity &&
    input == PublicationInput(
      s.products[0].manifest, s.products[1].manifest, s.baseline.value, s.restored[0], s.restored[1],
      s.products[1].storage, s.products[1].layoutEnvironment, s.products[1].observedControlCount,
      s.products[1].legacyDiagnosticFailed)
  }

  /** The calls that a session allows in its present state. */
  ghost predicate Allowed(s: Session, c: Call) {
    match c
    case BeginSession(_) => false
    case AbortSession(serial) => serial == s.serial && s.stage == Ready && s.worker != Running
    case CommitSession(serial) => serial == s.serial && s.stage == Committing
    case CaptureState => s.stage == Ready && (if s.baseline.None? then s.attempts == 0 else |s.restored| < s.attempts)
    case IsCancelled => s.stage == Ready || s.stage == Attempting
    case BeginAttempt(a) =>
      s.stage == Ready && a == s.attempts < 2 && s.baseline.Some? && |s.restored| == a && !s.trouble
    case RunReader(a, r) => s.stage == Attempting && a == s.attempts && !s.broken && r == s.readers < ReaderCount
    case FinishAttempt(a) => s.stage == Attempting && a == s.attempts && !s.broken && s.readers == ReaderCount
    case DetachArtifact(a) => s.stage == Attempting && a == s.attempts && !s.broken && s.readers == ReaderCount
    case ReleaseScans => s.stage == Attempting
    case RestoreState(b) => s.stage == Released && s.baseline == Some(b)
    case StartWorker =>
      s.stage == Ready && s.attempts == 1 && |s.restored| == 1 && s.worker == NotStarted && 0 in s.detached &&
      !s.trouble
    case JoinWorker => s.stage == Ready && s.worker == Running
    case PrepareReplay =>
      s.stage == Ready && s.attempts == 2 && s.worker == Joined(true) && 1 in s.detached && s.detached[1].replay
    case BuildArtifact => s.stage == Ready && s.attempts == 2 && s.worker == Joined(true) && 1 in s.detached
    case RetainArtifact(a) => s.stage == Ready && s.worker.Joined? && a < 2 && a !in s.offered
    case CompareStart => s.stage == Ready && s.worker != Running && 0 in s.products && 1 in s.products
    case PreserveMismatch =>
      s.stage == Ready && s.worker != Running && 0 in s.products && 1 in s.products && !BothAgree(s)
    case PreparePublication(serial) =>
      serial == s.serial && s.stage == Ready && s.worker != Running && BothAgree(s) && BothRestored(s) && !s.trouble
    case Publish(input) => s.stage == Ready && s.worker != Running && Publishable(s, input) && !s.trouble
  }

  /** An answer after which the capture may not complete. */
  ghost predicate Unfavourable(s: Session, c: Call, a: Answer) {
    match c
    case IsCancelled => a.ok
    case CaptureState => !a.ok || (s.baseline.Some? && !StatesMatch(s.baseline.value, a.state))
    case FinishAttempt(_) => !a.ok || a.result.manifest.roots.integrity != CompleteIntegrity
    case BuildArtifact => !a.ok || a.result.manifest.roots.integrity != CompleteIntegrity
    case DetachArtifact(_) => !a.ok || !a.input.Usable()
    case CompareStart => !BothAgree(s)
    case AbortSession(_) => false
    case CommitSession(_) => false
    case _ => !a.ok
  }

  /** The causes after an answer; a state is read back for the attempt whose restoration has not been proved yet. */
  function Noted(s: Session, c: Call, a: Answer): Causes {
    var n := s.causes;
    match c
    case IsCancelled => n.(cancelled := AlsoIf(a.ok, n.cancelled, s.attempts))
    case ReleaseScans => n.(unreleased := AlsoIf(!a.ok, n.unreleased, s.attempts))
    case RestoreState(_) => n.(unrestored := AlsoIf(!a.ok, n.unrestored, s.attempts))
    case CaptureState =>
      if s.baseline.None? then n
      else if !a.ok then n.(unrestored := n.unrestored + {|s.restored|})
      else n.(strayed := AlsoIf(!StatesMatch(s.baseline.value, a.state), n.strayed, |s.restored|))
    case CompareStart => n.(compared := true)
    case PreserveMismatch => n.(preserved := Some(a.ok || n.preserved == Some(true)))
    case Publish(_) => n.(unpublished := n.unpublished || !a.ok)
    case RetainArtifact(_) => n.(uncleaned := n.uncleaned || !a.ok)
    case PreparePublication(_) => n.(uncleaned := n.uncleaned || !a.ok)
    case AbortSession(_) => n.(uncleaned := n.uncleaned || !a.ok)
    case _ => n
  }

  /** The session after a call other than closing it. */
  ghost function After(s: Session, c: Call, a: Answer): (t: Session)
    ensures t.serial == s.serial
  {
    var t := s.(trouble := s.trouble || Unfavourable(s, c, a), causes := Noted(s, c, a));
    match c
    case CaptureState =>
      if !a.ok then t
      else if s.baseline.None? then t.(baseline := Some(a.state))
      else t.(restored := s.restored + [a.state])
    case IsCancelled => t.(broken := s.broken || a.ok)
    case BeginAttempt(_) => t.(stage := Attempting, readers := 0, broken := !a.ok)
    case RunReader(_, _) => if a.ok then t.(readers := s.readers + 1) else t.(broken := true)
    case FinishAttempt(n) => if a.ok then t.(products := s.products[n := a.result]) else t
    case DetachArtifact(n) => if a.ok then t.(detached := s.detached[n := a.input]) else t
    case ReleaseScans => t.(stage := Released)
    case RestoreState(_) => t.(stage := Ready, attempts := s.attempts + 1)
    case StartWorker => if a.ok then t.(worker := Running) else t
    case JoinWorker =>
      if a.ok then t.(worker := Joined(true), products := s.products[0 := a.result]) else t.(worker := Joined(false))
    case BuildArtifact => if a.ok then t.(products := s.products[1 := a.result]) else t
    case RetainArtifact(n) =>
      t.(offered := s.offered + {n},
         unretained := s.unretained || (n == 0 && !a.ok && !s.trouble && 1 in s.products))
    case Publish(_) => if a.ok then t.(stage := Committing) else t
    case _ => t
  }

  function NewSession(serial: nat, began: bool): Session {
    Session(serial, Ready, 0, 0, false, NotStarted, None, [], map[], map[], {}, !began, false, NoCauses)
  }

  ghost predicate MayCall(p: Phase, c: Call) {
    match p
    case Outside(last, _) => c.BeginSession? && (last.Some? ==> c.serial > last.value.serial)
    case Inside(s) => Allowed(s, c)
  }

  ghost function Next(p: Phase, e: Event): Phase
    requires MayCall(p, e.call)
  {
    match p
    case Outside(_, _) => Inside(NewSession(e.call.serial, e.answer.ok))
    case Inside(s) =>
      match e.call
      case AbortSession(_) => Outside(Some(s.(causes := Noted(s, e.call, e.answer))), false)
      case CommitSession(_) => Outside(Some(s), true)
      case _ => Inside(After(s, e.call, e.answer))
  }

  /** The phase a log leads to, if every call in it was allowed when it was made. */
  ghost function Replay(log: seq<Event>): Option<Phase> {
    if log == [] then Some(Outside(None, false))
    else
      var before := Replay(log[..|log| - 1]);
      if before.Some? && MayCall(before.value, log[|log| - 1].call) then Some(Next(before.value, log[|log| - 1]))
      else None
  }

  /** Every answer in the log is the one the script gives. */
  ghost predicate Scripted(log: seq<Event>, script: (nat, Call) -> Answer) {
    forall i :: 0 <= i < |log| ==> log[i].answer == script(i, log[i].call)
  }

  /**
   * The readers, the document and the store: every answer is fixed in advance by an arbitrary script. A call must be
   * allowed by the protocol and must go to a callback that the suite has.
   */
  class Host {
    const script: (nat, Call) -> Answer
    const suite: Suite
    var log: seq<Event>
    ghost var phase: Phase

    constructor (script: (nat, Call) -> Answer, suite: Suite)
      ensures Valid() && log == [] && phase == Outside(None, false)
      ensures this.script == script && this.suite == suite
    {
      this.script, this.suite, log, phase := script, suite, [], Outside(None, false);
    }

    ghost predicate Valid()
      reads this
    {
      Replay(log) == Some(phase) && Scripted(log, script)
    }

    method Ask(c: Call) returns (a: Answer)
      requires Valid() && MayCall(phase, c) && Offered(suite, c)
      modifies this
      ensures Valid() && a == script(|old(log)|, c) && log == old(log) + [Event(c, a)]
      ensures phase == Next(old(phase), Event(c, a))
    {
      a := script(|log|, c);
      assert (log + [Event(c, a)])[..|log|] == log;
      phase := Next(phase, Event(c, a));
      log := log + [Event(c, a)];
    }
  }

  // ----- what the protocol means for a whole log -----

  function Count(log: seq<Event>, which: Call -> bool): nat {
    if log == [] then 0
    else Count(log[..|log| - 1], which) + if which(log[|log| - 1].call) then 1 else 0
  }

  function Begins(): Call -> bool { (c: Call) => c.BeginSession? }
  function Ends(): Call -> bool { (c: Call) => c.AbortSession? || c.CommitSession? }
  function Attempts(): Call -> bool { (c: Call) => c.BeginAttempt? }
  function Releases(): Call -> bool { (c: Call) => c.ReleaseScans? }
  function Restores(): Call -> bool { (c: Call) => c.RestoreState? }
  function Commits(): Call -> bool { (c: Call) => c.CommitSession? }

  function Published(log: seq<Event>): nat {
    if log == [] then 0
    else
      var e := log[|log| - 1];
      Published(log[..|log| - 1]) + if e.call.Publish? && e.answer.ok then 1 else 0
  }

  predicate InStage(p: Phase, stage: Stage) {
    p.Inside? && p.session.stage == stage
  }

  /** How the counts of a log relate in each phase. */
  ghost predicate Balanced(log: seq<Event>, p: Phase) {
    Count(log, Begins()) == Count(log, Ends()) + (if p.Inside? then 1 else 0) &&
    Count(log, Attempts()) == Count(log, Releases()) + (if InStage(p, Attempting) then 1 else 0) &&
    Count(log, Releases()) == Count(log, Restores()) + (if InStage(p, Released) then 1 else 0) &&
    Published(log) == Count(log, Commits()) + (if InStage(p, Committing) then 1 else 0)
  }

  lemma {:induction false} LogsBalance(log: seq<Event>) returns (p: Phase)
    requires Replay(log).Some?
    ensures Replay(log) == Some(p) && Balanced(log, p)
  {
    p := Outside(None, false);
    if log != [] {
      var e := log[|log| - 1];
      var q := LogsBalance(log[..|log| - 1]);
      p := Next(q, e);
      StagesStep(q, e);
    }
  }

  /** How one call moves between the stages. */
  lemma {:induction false} StagesStep(q: Phase, e: Event)
    requires MayCall(q, e.call)
    ensures var p, c := Next(q, e), e.call;
      (p.Inside? <==> if q.Inside? then !Ends()(c) else Begins()(c)) &&
      (InStage(p, Attempting) <==> Attempts()(c) || (InStage(q, Attempting) && !Releases()(c))) &&
      (InStage(p, Released) <==> Releases()(c) || (InStage(q, Released) && !Restores()(c))) &&
      (InStage(p, Committing) <==> (c.Publish? && e.answer.ok) || (InStage(q, Committing) && !Commits()(c)))
    ensures CallsFit(q, e.call)
  {
    StagesFit(q, e.call);
    if q.Inside? {
      StageAfter(q.session, e.call, e.answer);
    }
  }

  /** The stage that each call of the counts is made in. */
  predicate CallsFit(q: Phase, c: Call) {
    (Ends()(c) ==> q.Inside?) && (Begins()(c) ==> q.Outside?) &&
    (Releases()(c) ==> InStage(q, Attempting)) && (Attempts()(c) ==> !InStage(q, Attempting)) &&
    (Restores()(c) ==> InStage(q, Released)) && (Commits()(c) ==> InStage(q, Committing)) &&
    (c.Publish? ==> !InStage(q, Committing))
  }

  lemma {:induction false} StagesFit(q: Phase, c: Call)
    requires MayCall(q, c)
    ensures CallsFit(q, c)
  {
  }

  lemma {:induction false} StageAfter(s: Session, c: Call, a: Answer)
    ensures After(s, c, a).stage ==
            match c
            case BeginAttempt(_) => Attempting
            case ReleaseScans => Released
            case RestoreState(_) => Ready
            case Publish(_) => if a.ok then Committing else s.stage
            case _ => s.stage
  {
  }

  /**
   * Whenever no session is open, every session begun so far has been closed by exactly one abort or commit, scans
   * have been released and state restored once for each attempt begun, and commits are the successful publications.
   */
  lemma {:induction false} ClosedLogs(log: seq<Event>)
    requires Replay(log).Some? && Replay(log).value.Outside?
    ensures Count(log, Begins()) == Count(log, Ends())
    ensures Count(log, Attempts()) == Count(log, Releases()) == Count(log, Restores())
    ensures Count(log, Commits()) == Published(log)
  {
    var p := LogsBalance(log);
  }

  lemma {:induction false} PrefixReplays(log: seq<Event>, n: nat) returns (p: Phase)
    requires Replay(log).Some? && n <= |log|
    ensures Replay(log[..n]) == Some(p)
    decreases |log| - n
  {
    var upto := log[..n];
    if n == |log| {
      assert upto == log;
      p := Replay(log).value;
    } else {
      var next := PrefixReplays(log, n + 1);
      p := LastCall(log[..n + 1], upto, log[n]);
    }
  }

  lemma {:induction false} LastCall(log: seq<Event>, before: seq<Event>, last: Event) returns (p: Phase)
    requires log == before + [last] && Replay(log).Some?
    ensures Replay(before) == Some(p) && MayCall(p, last.call) && Replay(log) == Some(Next(p, last))
  {
    assert log[..|log| - 1] == before;
    p := Replay(before).value;
  }

  /** The phases that a log passes through. */
  ghost predicate Passes(log: seq<Event>, phases: seq<Phase>) {
    |phases| == |log| + 1 &&
    forall k :: 0 <= k < |log| ==> MayCall(phases[k], log[k].call) && phases[k + 1] == Next(phases[k], log[k])
  }

  lemma {:induction false} PhasesOf(log: seq<Event>) returns (phases: seq<Phase>)
    requires Replay(log).Some?
    ensures Passes(log, phases) && Replay(log) == Some(phases[|log|])
  {
    if log == [] {
      phases := [Outside(None, false)];
    } else {
      var last := |log| - 1;
      var p := LastCall(log, log[..last], log[last]);
      var before := PhasesOf(log[..last]);
      phases := PassesOn(log[..last], before, log[last], log);
    }
  }

  lemma {:induction false} PassesOn(before: seq<Event>, passed: seq<Phase>, e: Event, log: seq<Event>)
    returns (phases: seq<Phase>)
    requires Passes(before, passed) && MayCall(passed[|before|], e.call) && log == before + [e]
    ensures Passes(log, phases) && phases[|log|] == Next(passed[|before|], e)
  {
    phases := passed + [Next(passed[|before|], e)];
    forall k | 0 <= k < |log| ensures MayCall(phases[k], log[k].call) && phases[k + 1] == Next(phases[k], log[k]) {
      assert k < |before| ==> log[k] == before[k];
    }
  }

  /** Sessions never nest and never share a serial: a later session has a larger one. */
  lemma {:induction false} SerialsIncrease(log: seq<Event>, i: nat, j: nat)
    requires Replay(log).Some? && i < j < |log| && log[i].call.BeginSession? && log[j].call.BeginSession?
    ensures log[i].call.serial < log[j].call.serial
  {
    var phases := PhasesOf(log);
    SerialBounds(log, phases, i, j);
    SerialStep(phases[j], log[j]);
  }

  function LastSerial(p: Phase): Option<nat> {
    match p
    case Inside(s) => Some(s.serial)
    case Outside(Some(s), _) => Some(s.serial)
    case Outside(None, _) => None
  }

  lemma {:induction false} SerialBounds(log: seq<Event>, phases: seq<Phase>, i: nat, n: nat)
    requires Passes(log, phases) && i < n <= |log| && log[i].call.BeginSession?
    ensures LastSerial(phases[n]).Some? && LastSerial(phases[n]).value >= log[i].call.serial
    decreases n
  {
    SerialStep(phases[n - 1], log[n - 1]);
    if i < n - 1 {
      SerialBounds(log, phases, i, n - 1);
    }
  }

  lemma {:induction false} SerialStep(q: Phase, e: Event)
    requires MayCall(q, e.call)
    ensures LastSerial(Next(q, e)) == if e.call.BeginSession? then Some(e.call.serial) else LastSerial(q)
    ensures e.call.BeginSession? && LastSerial(q).Some? ==> e.call.serial > LastSerial(q).value
  {
  }

  // ----- what the causes say of the log -----

  /** Event `k` belongs to the last session of the log, and is not its beginning. */
  predicate InLastSession(log: seq<Event>, k: nat) {
    k < |log| && forall j :: k <= j < |log| ==> !log[j].call.BeginSession?
  }

  /** Some event of the last session is such. */
  ghost predicate Happened(log: seq<Event>, such: Event -> bool) {
    exists k: nat :: InLastSession(log, k) && such(log[k])
  }

  lemma {:induction false} HappenedNext(before: seq<Event>, e: Event, log: seq<Event>, such: Event -> bool)
    requires log == before + [e]
    ensures Happened(log, such) <==> !e.call.BeginSession? && (such(e) || Happened(before, such))
  {
    if Happened(log, such) {
      var k: nat :| InLastSession(log, k) && such(log[k]);
      assert log[|before|] == e;
      if k < |before| {
        assert forall j :: k <= j < |before| ==> before[j] == log[j];
        assert InLastSession(before, k);
      }
    }
    if !e.call.BeginSession? && such(e) {
      assert InLastSession(log, |before|);
    }
    if !e.call.BeginSession? && Happened(before, such) {
      var k: nat :| InLastSession(before, k) && such(before[k]);
      assert InLastSession(log, k);
    }
  }

  function LastSession(p: Phase): Option<Session> {
    match p
    case Inside(s) => Some(s)
    case Outside(last, _) => last
  }

  /** A refusal after which the session cannot be cleaned up. */
  function RefusesCleanup(): Event -> bool {
    (e: Event) =>
      (e.call.AbortSession? || e.call.RetainArtifact? || e.call.PreparePublication?) && !e.answer.ok
  }

  function RefusesPublication(): Event -> bool { (e: Event) => e.call.Publish? && !e.answer.ok }

  function PreservesMismatch(): Event -> bool { (e: Event) => e.call.PreserveMismatch? && e.answer.ok }

  function Compares(): Event -> bool { (e: Event) => e.call.CompareStart? }

  function Cancels(): Event -> bool { (e: Event) => e.call.IsCancelled? && e.answer.ok }

  function RefusesRelease(): Event -> bool { (e: Event) => e.call.ReleaseScans? && !e.answer.ok }

  /** Causes that do not depend on the attempt, read off the log. */
  ghost predicate AsLogged(log: seq<Event>, c: Causes) {
    && (c.uncleaned <==> Happened(log, RefusesCleanup()))
    && (c.unpublished <==> Happened(log, RefusesPublication()))
    && (c.preserved == Some(true) <==> Happened(log, PreservesMismatch()))
    && (c.compared <==> Happened(log, Compares()))
    && (c.cancelled != {} <==> Happened(log, Cancels()))
    && (c.unreleased != {} <==> Happened(log, RefusesRelease()))
  }

  /** What is noted of a session is what its events in the log say. */
  lemma {:induction false} CausesAreLogged(log: seq<Event>) returns (p: Phase)
    requires Replay(log).Some?
    ensures Replay(log) == Some(p) && (LastSession(p).Some? ==> AsLogged(log, LastSession(p).value.causes))
    ensures LastSession(p).None? ==> log == []
  {
    p := Outside(None, false);
    if log != [] {
      var before, e := log[..|log| - 1], log[|log| - 1];
      var q := CausesAreLogged(before);
      p := Next(q, e);
      assert log == before + [e];
      LoggedNext(before, q, e, log);
    }
  }

  lemma {:induction false} LoggedNext(before: seq<Event>, q: Phase, e: Event, log: seq<Event>)
    requires log == before + [e] && MayCall(q, e.call)
    requires LastSession(q).Some? ==> AsLogged(before, LastSession(q).value.causes)
    ensures LastSession(Next(q, e)).Some? && AsLogged(log, LastSession(Next(q, e)).value.causes)
  {
    HappenedNext(before, e, log, RefusesCleanup());
    HappenedNext(before, e, log, RefusesPublication());
    HappenedNext(before, e, log, PreservesMismatch());
    HappenedNext(before, e, log, Compares());
    HappenedNext(before, e, log, Cancels());
    HappenedNext(before, e, log, RefusesRelease());
    if q.Inside? {
      NotedIs(q.session, e);
      FlagsNoted(q.session, e, Noted(q.session, e.call, e.answer));
      SetsNoted(q.session, e, Noted(q.session, e.call, e.answer));
    }
  }

  lemma {:induction false} NotedIs(s: Session, e: Event)
    requires Allowed(s, e.call)
    ensures LastSession(Next(Inside(s), e)).value.causes == Noted(s, e.call, e.answer)
  {
    if !e.call.AbortSession? && !e.call.CommitSession? {
      NotedAfter(s, e.call, e.answer);
    }
  }

  lemma {:induction false} NotedAfter(s: Session, c: Call, a: Answer)
    ensures After(s, c, a).causes == Noted(s, c, a)
  {
  }

  lemma {:induction false} FlagsNoted(s: Session, e: Event, c: Causes)
    requires c == Noted(s, e.call, e.answer)
    ensures c.uncleaned <==> s.causes.uncleaned || RefusesCleanup()(e)
    ensures c.unpublished <==> s.causes.unpublished || RefusesPublication()(e)
    ensures c.preserved == Some(true) <==> s.causes.preserved == Some(true) || PreservesMismatch()(e)
    ensures c.compared <==> s.causes.compared || Compares()(e)
  {
  }

  lemma {:induction false} SetsNoted(s: Session, e: Event, c: Causes)
    requires c == Noted(s, e.call, e.answer)
    ensures c.cancelled != {} <==> s.causes.cancelled != {} || Cancels()(e)
    ensures c.unreleased != {} <==> s.causes.unreleased != {} || RefusesRelease()(e)
  {
  }

  lemma {:induction false} PublishIsAllowed(p: Phase, c: Call)
    requires MayCall(p, c) && c.Publish?
    ensures p.Inside? && Publishable(p.session, c.input) && !p.session.trouble && p.session.worker != Running
  {
  }

  /** Every publication offered anywhere in a log was one that may be published. */
  lemma {:induction false} PublicationsAreSound(log: seq<Event>, i: nat) returns (p: Phase)
    requires Replay(log).Some? && i < |log| && log[i].call.Publish?
    ensures Replay(log[..i]) == Some(p) && p.Inside?
    ensures Publishable(p.session, log[i].call.input) && !p.session.trouble && p.session.worker != Running
  {
    var upto := PrefixReplays(log, i + 1);
    p := LastCall(log[..i + 1], log[..i], log[i]);
    PublishIsAllowed(p, log[i].call);
  }
}
