/**
 Resumable generation run: `app/services/generation_run_orchestrator.py`.

 `RunStep` is one `run_step` call.  It holds the row lock from its first read to its commit, so it
 is one atomic step on the stored run.  A `resume_run` worker reads the resume pointer without the
 lock and then calls `run_step` once per remaining step; any number of workers may interleave.
 */
module GenerationRun {
  import opened Common

  const MAX_RETRIES := 3

  datatype Step = G2Redline | G3Scorecard | G4Outline | G5Generate | G6Scoring | G7Export | G8Feedback

  const STEP_ORDER: seq<Step> := [G2Redline, G3Scorecard, G4Outline, G5Generate, G6Scoring, G7Export, G8Feedback]

  function StepIndex(s: Step): (i: nat)
    ensures i < |STEP_ORDER| && STEP_ORDER[i] == s
    ensures forall k | 0 <= k < |STEP_ORDER| && STEP_ORDER[k] == s :: k == i
  {
    match s
    case G2Redline => 0
    case G3Scorecard => 1
    case G4Outline => 2
    case G5Generate => 3
    case G6Scoring => 4
    case G7Export => 5
    case G8Feedback => 6
  }

  /** `resume_from_step`: a step's own value, or any other text (a fresh run stores RECEIVED). */
  datatype Pointer = Unrecognised | At(step: Step)

  /** One entry of `output_json.step_results`. */
  datatype StepResult = StepResult(success: bool, retryCount: nat, detail: string)

  datatype StepStatus = Paused | Running | Succeeded | Failed

  /** The stored row. */
  datatype Run = Run(
    completed: bool,
    currentStep: Option<Step>,
    stepStatus: StepStatus,
    retryCount: int,
    resumeFrom: Pointer,
    redlineStatus: string,
    stepResults: map<Step, StepResult>,
    errorDetail: Option<string>)

  /** What the handler of a step does: return an output or raise. */
  type Executor = (Step, Run) -> Result<string>

  datatype Answer = Success | Failure(error: string) | Skipped | Blocked | MaxRetries

  predicate Stops(a: Answer) {
    a.Failure? || a.Blocked? || a.MaxRetries?
  }

  predicate IsBlocked(r: Run) {
    r.redlineStatus == "BLOCKED"
  }

  predicate Done(r: Run, s: Step) {
    s in r.stepResults && r.stepResults[s].success
  }

  function Retries(r: Run, s: Step): nat {
    if s in r.stepResults then r.stepResults[s].retryCount else 0
  }

  predicate Fresh(r: Run) {
    !r.completed && r.retryCount == 0 && r.resumeFrom == Unrecognised && r.stepResults == map[]
  }

  // ------------------------------------------------------------------- run_step

  predicate Executes(r: Run, s: Step) {
    && !Done(r, s)
    && !(IsBlocked(r) && StepIndex(s) > StepIndex(G4Outline))
    && Retries(r, s) < MAX_RETRIES
  }

  function Truncate(text: string): string {
    if |text| <= 2000 then text else text[..2000]
  }

  /** The row a `run_step` call commits, and its answer. */
  function RunStep(r: Run, s: Step, exec: Executor): (Run, Answer) {
    if Done(r, s) then (r, Skipped)
    else if IsBlocked(r) && StepIndex(s) > StepIndex(G4Outline) then (r, Blocked)
    else if Retries(r, s) >= MAX_RETRIES then (r, MaxRetries)
    else Execute(r, s, exec)
  }

  function Execute(r: Run, s: Step, exec: Executor): (Run, Answer) {
    match exec(s, Started(r, s))
    case Ok(output) => (Succeed(r, s, output), Success)
    case Error(message) => (Fail(r, s, message), Failure(message))
  }

  function Started(r: Run, s: Step): Run {
    r.(currentStep := Some(s), stepStatus := Running)
  }

  /** The pointer advances to the next step; after the last step it stays there and the run completes. */
  function Succeed(r: Run, s: Step, output: string): Run {
    Started(r, s).(
      stepStatus := Succeeded,
      errorDetail := None,
      completed := r.completed || s == G8Feedback,
      resumeFrom := At(STEP_ORDER[Min(StepIndex(s) + 1, |STEP_ORDER| - 1)]),
      stepResults := r.stepResults[s := StepResult(true, Retries(r, s), output)])
  }

  function Fail(r: Run, s: Step, message: string): Run {
    Started(r, s).(
      stepStatus := Failed,
      errorDetail := Some(Truncate(message)),
      retryCount := r.retryCount + 1,
      resumeFrom := At(s),
      stepResults := r.stepResults[s := StepResult(false, Retries(r, s) + 1, message)])
  }

  function ResumeIndex(p: Pointer): nat {
    if p.At? then StepIndex(p.step) else 0
  }

  /** `resume_run` of a single worker with nobody else around, from step number `from`. */
  function ResumeFrom(r: Run, exec: Executor, from: nat): (Run, seq<Answer>)
    decreases |STEP_ORDER| - from
  {
    if from >= |STEP_ORDER| then (r, [])
    else
      var (next, answer) := RunStep(r, STEP_ORDER[from], exec);
      if Stops(answer) then (next, [answer])
      else
        var (last, answers) := ResumeFrom(next, exec, from + 1);
        (last, [answer] + answers)
  }

  function Resume(r: Run, exec: Executor): (Run, seq<Answer>) {
    ResumeFrom(r, exec, ResumeIndex(r.resumeFrom))
  }

  // ------------------------------------------------------------ what a call decides

  predicate BehindTheBlock(r: Run, s: Step) {
    r.redlineStatus == "BLOCKED" && (s.G5Generate? || s.G6Scoring? || s.G7Export? || s.G8Feedback?)
  }

  /** When a call skips, is blocked, is out of retries, and when it is none of these and calls the executor. */
  lemma RunStepDecides(r: Run, s: Step, exec: Executor)
    ensures var (n, a) := RunStep(r, s, exec);
            var succeeded := s in r.stepResults && r.stepResults[s].success;
            var exhausted := s in r.stepResults && r.stepResults[s].retryCount >= 3;
            && (a.Skipped? <==> succeeded)
            && (a.Blocked? <==> !succeeded && BehindTheBlock(r, s))
            && (a.MaxRetries? <==> !succeeded && !BehindTheBlock(r, s) && exhausted)
            && (succeeded || BehindTheBlock(r, s) || exhausted ==> n == r)
            && (!succeeded && !BehindTheBlock(r, s) && !exhausted ==>
                  (n, a) == Outcome(r, s, exec(s, r.(currentStep := Some(s), stepStatus := Running))))
  {
    if Executes(r, s) {
      ExecuteIsOutcome(r, s, exec);
    }
  }

  lemma ExecuteIsOutcome(r: Run, s: Step, exec: Executor)
    ensures Execute(r, s, exec) == Outcome(r, s, exec(s, r.(currentStep := Some(s), stepStatus := Running)))
  {
    assert After(s) == STEP_ORDER[Min(StepIndex(s) + 1, |STEP_ORDER| - 1)];
  }

  /** The step a run resumes from behind this one: the next, and the last one behind itself. */
  function After(s: Step): Step {
    match s
    case G2Redline => G3Scorecard
    case G3Scorecard => G4Outline
    case G4Outline => G5Generate
    case G5Generate => G6Scoring
    case G6Scoring => G7Export
    case G7Export => G8Feedback
    case G8Feedback => G8Feedback
  }

  /** The row and the answer for what the executor did. */
  function Outcome(r: Run, s: Step, outcome: Result<string>): (Run, Answer) {
    var retries := if s in r.stepResults then r.stepResults[s].retryCount else 0;
    match outcome
    case Ok(output) =>
      (Run(r.completed || s.G8Feedback?, Some(s), Succeeded, r.retryCount, At(After(s)), r.redlineStatus,
           r.stepResults[s := StepResult(true, retries, output)], None), Success)
    case Error(message) =>
      (Run(r.completed, Some(s), Failed, r.retryCount + 1, At(s), r.redlineStatus,
           r.stepResults[s := StepResult(false, retries + 1, message)],
           Some(if |message| <= 2000 then message else message[..2000])), Failure(message))
  }

  /** At most `limit` answers, none before the last a stop, and fewer than `limit` only behind a stop. */
  ghost predicate EndsAtFirstStop(answers: seq<Answer>, limit: nat) {
    && |answers| <= limit
    && (forall i | 0 <= i < |answers| - 1 :: answers[i].Success? || answers[i].Skipped?)
    && (|answers| < limit ==>
          answers != [] && var last := answers[|answers| - 1]; last.Failure? || last.Blocked? || last.MaxRetries?)
  }

  lemma OneMoreAnswer(answer: Answer, later: seq<Answer>, limit: nat)
    requires EndsAtFirstStop(later, limit) && (answer.Success? || answer.Skipped?)
    ensures EndsAtFirstStop([answer] + later, limit + 1)
  {
    var answers := [answer] + later;
    assert forall i | 0 < i < |answers| :: answers[i] == later[i - 1];
  }

  /** A pass calls the steps from the pointer on, one by one, and ends at the first failed, blocked or exhausted one. */
  lemma {:induction false} ResumeStopsAtFirstStop(r: Run, exec: Executor, from: nat)
    requires from <= 7
    ensures EndsAtFirstStop(ResumeFrom(r, exec, from).1, 7 - from)
    decreases 7 - from
  {
    if from < 7 {
      var (next, answer) := RunStep(r, STEP_ORDER[from], exec);
      if !Stops(answer) {
        ResumeStopsAtFirstStop(next, exec, from + 1);
        OneMoreAnswer(answer, ResumeFrom(next, exec, from + 1).1, 7 - (from + 1));
      }
    }
  }

  // --------------------------------------------------------------- the stored row

  class RunRow {
    var completed: bool
    var currentStep: Option<Step>
    var stepStatus: StepStatus
    var retryCount: int
    var resumeFrom: Pointer
    var redlineStatus: string
    var stepResults: map<Step, StepResult>
    var errorDetail: Option<string>

    function Snapshot(): Run
      reads this
    {
      Run(completed, currentStep, stepStatus, retryCount, resumeFrom, redlineStatus, stepResults, errorDetail)
    }

    constructor (redlineStatus: string)
      ensures Fresh(Snapshot()) && this.redlineStatus == redlineStatus
    {
      completed, currentStep, stepStatus, retryCount := false, None, Paused, 0;
      resumeFrom, stepResults, errorDetail := Unrecognised, map[], None;
      this.redlineStatus := redlineStatus;
    }

    method RunStepLocked(s: Step, exec: Executor) returns (answer: Answer)
      modifies this
      ensures (Snapshot(), answer) == RunStep(old(Snapshot()), s, exec)
    {
      if s in stepResults && stepResults[s].success {
        return Skipped;
      }
      if redlineStatus == "BLOCKED" && StepIndex(s) > StepIndex(G4Outline) {
        return Blocked;
      }
      if s in stepResults && stepResults[s].retryCount >= MAX_RETRIES {
        return MaxRetries;
      }
      answer := ExecuteStep(s, exec);
    }

    method ExecuteStep(s: Step, exec: Executor) returns (answer: Answer)
      modifies this
      ensures (Snapshot(), answer) == Execute(old(Snapshot()), s, exec)
    {
      ghost var before := Snapshot();
      var currentRetries := if s in stepResults then stepResults[s].retryCount else 0;
      currentStep := Some(s);
      stepStatus := Running;
      assert Snapshot() == Started(before, s);
      var outcome := exec(s, Snapshot());
      RecordingAfterStart(before, s);
      match outcome {
        case Ok(output) =>
          RecordSuccess(s, currentRetries, output);
          answer := Success;
        case Error(message) =>
          RecordFailure(s, currentRetries, message);
          answer := Failure(message);
      }
    }

    method RecordSuccess(s: Step, currentRetries: nat, output: string)
      requires currentRetries == Retries(Snapshot(), s)
      modifies this
      requires currentStep == Some(s)
      ensures Snapshot() == Succeed(old(Snapshot()), s, output)
    {
      stepResults := stepResults[s := StepResult(true, currentRetries, output)];
      stepStatus := Succeeded;
      errorDetail := None;
      var nextIdx := StepIndex(s) + 1;
      if nextIdx < |STEP_ORDER| {
        resumeFrom := At(STEP_ORDER[nextIdx]);
      } else {
        completed := true;
        resumeFrom := At(s);
      }
    }

    method RecordFailure(s: Step, currentRetries: nat, message: string)
      requires currentRetries == Retries(Snapshot(), s)
      modifies this
      requires currentStep == Some(s)
      ensures Snapshot() == Fail(old(Snapshot()), s, message)
    {
      stepResults := stepResults[s := StepResult(false, currentRetries + 1, message)];
      stepStatus := Failed;
      errorDetail := Some(Truncate(message));
      retryCount := retryCount + 1;
      resumeFrom := At(s);
    }

    /** The search for the resume pointer in the step order; an unrecognised pointer means the first step. */
    method StartIndex() returns (startIdx: nat)
      ensures startIdx == ResumeIndex(resumeFrom)
    {
      startIdx := 0;
      var idx := 0;
      while idx < |STEP_ORDER|
        invariant idx <= |STEP_ORDER|
        invariant resumeFrom.At? ==> StepIndex(resumeFrom.step) >= idx
      {
        assert StepIndex(STEP_ORDER[idx]) == idx;
        if resumeFrom == At(STEP_ORDER[idx]) {
          return idx;
        }
        idx := idx + 1;
      }
      assert resumeFrom == Unrecognised;
    }

    method ResumeRun(exec: Executor) returns (results: seq<Answer>)
      modifies this
      ensures (Snapshot(), results) == Resume(old(Snapshot()), exec)
    {
      var idx := StartIndex();
      ghost var goal := Resume(Snapshot(), exec);
      results := [];
      assert [] + goal.1 == goal.1;
      while idx < |STEP_ORDER|
        invariant idx <= |STEP_ORDER|
        invariant Resuming(goal, exec, Snapshot(), results, idx)
      {
        ghost var before := Snapshot();
        var result := RunStepLocked(STEP_ORDER[idx], exec);
        ResumeAdvances(goal, exec, before, results, idx);
        results := results + [result];
        idx := idx + 1;
        if Stops(result) {
          return;
        }
      }
      assert results + [] == results;
    }
  }

  /** A pass that ends in `goal` stands before step number `idx`, with these answers so far. */
  ghost predicate Resuming(goal: (Run, seq<Answer>), exec: Executor, r: Run, results: seq<Answer>, idx: nat) {
    goal == (ResumeFrom(r, exec, idx).0, results + ResumeFrom(r, exec, idx).1)
  }

  /** Recording an outcome overwrites what starting the step stored. */
  lemma RecordingAfterStart(r: Run, s: Step)
    ensures Retries(Started(r, s), s) == Retries(r, s)
    ensures forall output :: Succeed(Started(r, s), s, output) == Succeed(r, s, output)
    ensures forall message :: Fail(Started(r, s), s, message) == Fail(r, s, message)
  {
  }

  lemma ResumeAdvances(goal: (Run, seq<Answer>), exec: Executor, r: Run, results: seq<Answer>, idx: nat)
    requires idx < |STEP_ORDER| && Resuming(goal, exec, r, results, idx)
    ensures var (next, answer) := RunStep(r, STEP_ORDER[idx], exec);
            if Stops(answer) then goal == (next, results + [answer])
            else Resuming(goal, exec, next, results + [answer], idx + 1)
  {
    var (next, answer) := RunStep(r, STEP_ORDER[idx], exec);
    if !Stops(answer) {
      var later := ResumeFrom(next, exec, idx + 1).1;
      assert ResumeFrom(r, exec, idx).1 == [answer] + later;
      assert results + ([answer] + later) == results + [answer] + later;
    }
  }

  // ------------------------------------------------------ interleaved workers

  /** One committed executor outcome, with the redline status the executor ran under. */
  datatype Execution = Execution(step: Step, success: bool, redlineStatus: string)

  /** `workers` maps each live `resume_run` call to the number of the step it calls next. */
  datatype System = System(run: Run, workers: map<nat, nat>, log: seq<Execution>)

  /**
   `Arrive` is the unlocked pointer read, `Advance` one `run_step` of a worker, `Vanish` the death of
   a worker (inside `run_step` its transaction rolls back), `Direct` a `run_step` call from outside any
   `resume_run`, and `SetRedline` the redline check, the only writer of `redline_status`.
   */
  datatype Event =
    | Arrive(worker: nat)
    | Advance(worker: nat, exec: Executor)
    | Vanish(worker: nat)
    | Direct(step: Step, exec: Executor)
    | SetRedline(status: string)

  function Call(sys: System, s: Step, exec: Executor): System {
    var (run, answer) := RunStep(sys.run, s, exec);
    sys.(run := run,
         log := if Executes(sys.run, s) then sys.log + [Execution(s, answer.Success?, sys.run.redlineStatus)] else sys.log)
  }

  function Next(sys: System, ev: Event): System {
    match ev
    case Arrive(w) =>
      if w in sys.workers then sys else sys.(workers := sys.workers[w := ResumeIndex(sys.run.resumeFrom)])
    case Advance(w, exec) =>
      if w !in sys.workers || sys.workers[w] >= |STEP_ORDER| then sys
      else
        var step := STEP_ORDER[sys.workers[w]];
        var stop := Stops(RunStep(sys.run, step, exec).1);
        Call(sys, step, exec).(workers := if stop then sys.workers - {w} else sys.workers[w := sys.workers[w] + 1])
    case Vanish(w) => sys.(workers := sys.workers - {w})
    case Direct(s, exec) => Call(sys, s, exec)
    case SetRedline(status) => sys.(run := sys.run.(redlineStatus := status))
  }

  function Play(sys: System, events: seq<Event>): System
    decreases |events|
  {
    if events == [] then sys else Play(Next(sys, events[0]), events[1..])
  }

  /** `n` times the same worker. */
  function Advances(w: nat, exec: Executor, n: nat): (events: seq<Event>)
    ensures |events| == n
  {
    if n == 0 then [] else [Advance(w, exec)] + Advances(w, exec, n - 1)
  }

  /** A worker that nobody disturbs does what one `resume_run` does. */
  lemma UndisturbedWorkerResumes(sys: System, w: nat, exec: Executor)
    requires w !in sys.workers
    ensures Play(sys, [Arrive(w)] + Advances(w, exec, 7)).run == Resume(sys.run, exec).0
  {
    var arrived := Next(sys, Arrive(w));
    assert ([Arrive(w)] + Advances(w, exec, 7))[1..] == Advances(w, exec, 7);
    WorkerGoesOn(arrived, w, exec, 7);
  }

  lemma {:induction false} WorkerGoesOn(sys: System, w: nat, exec: Executor, n: nat)
    requires w in sys.workers ==> sys.workers[w] + n >= 7
    ensures Play(sys, Advances(w, exec, n)).run == if w in sys.workers then ResumeFrom(sys.run, exec, sys.workers[w]).0 else sys.run
    decreases n
  {
    if n > 0 {
      assert Advances(w, exec, n)[1..] == Advances(w, exec, n - 1);
      var next := Next(sys, Advance(w, exec));
      WorkerGoesOn(next, w, exec, n - 1);
      if w in sys.workers && sys.workers[w] < 7 {
        CallRun(sys, STEP_ORDER[sys.workers[w]], exec);
      }
    }
  }

  lemma CallRun(sys: System, s: Step, exec: Executor)
    ensures Call(sys, s, exec).run == RunStep(sys.run, s, exec).0
  {
  }

  function Start(r: Run): System {
    System(r, map[], [])
  }

  ghost predicate ResumeOnly(events: seq<Event>) {
    forall e | e in events :: !e.Direct?
  }

  /** The number of steps at the front of the order that have succeeded. */
  function Frontier(r: Run): (k: nat)
    ensures k <= |STEP_ORDER|
    ensures forall i | 0 <= i < k :: Done(r, STEP_ORDER[i])
    ensures k < |STEP_ORDER| ==> !Done(r, STEP_ORDER[k])
  {
    FrontierFrom(r, 0)
  }

  function FrontierFrom(r: Run, i: nat): (k: nat)
    requires i <= |STEP_ORDER|
    ensures i <= k <= |STEP_ORDER|
    ensures forall j | i <= j < k :: Done(r, STEP_ORDER[j])
    ensures k < |STEP_ORDER| ==> !Done(r, STEP_ORDER[k])
    decreases |STEP_ORDER| - i
  {
    if i == |STEP_ORDER| || !Done(r, STEP_ORDER[i]) then i else FrontierFrom(r, i + 1)
  }

  /** Successes form a prefix, the pointer decodes to its end (capped at G8), COMPLETED means all seven. */
  ghost predicate Ordered(r: Run) {
    && (forall i | 0 <= i < |STEP_ORDER| :: Done(r, STEP_ORDER[i]) <==> i < Frontier(r))
    && ResumeIndex(r.resumeFrom) == Min(Frontier(r), |STEP_ORDER| - 1)
    && (r.completed <==> Frontier(r) == |STEP_ORDER|)
  }

  ghost predicate ResumeInvariant(sys: System) {
    && Ordered(sys.run)
    && (forall w | w in sys.workers :: sys.workers[w] <= Frontier(sys.run))
  }

  /** Running the frontier step (or an earlier one) keeps the run ordered and never moves the frontier back. */
  lemma RunStepKeepsOrder(r: Run, i: nat, exec: Executor)
    requires Ordered(r) && i < |STEP_ORDER| && i <= Frontier(r)
    ensures var (r', answer) := RunStep(r, STEP_ORDER[i], exec);
            && Ordered(r') && Frontier(r) <= Frontier(r')
            && (!Stops(answer) ==> i < Frontier(r'))
  {
    var s := STEP_ORDER[i];
    assert StepIndex(s) == i;
    if Executes(r, s) {
      assert i == Frontier(r);
      match exec(s, Started(r, s))
      case Ok(output) => SucceedMovesFrontier(r, i, output);
      case Error(message) => FailKeepsFrontier(r, i, message);
    }
  }

  lemma SucceedMovesFrontier(r: Run, i: nat, output: string)
    requires Ordered(r) && i == Frontier(r) < |STEP_ORDER|
    ensures Ordered(Succeed(r, STEP_ORDER[i], output)) && Frontier(Succeed(r, STEP_ORDER[i], output)) == i + 1
  {
    var r' := Succeed(r, STEP_ORDER[i], output);
    assert StepIndex(STEP_ORDER[i]) == i;
    forall k | 0 <= k < |STEP_ORDER| ensures Done(r', STEP_ORDER[k]) <==> k <= i {
      assert StepIndex(STEP_ORDER[k]) == k;
    }
  }

  lemma FailKeepsFrontier(r: Run, i: nat, message: string)
    requires Ordered(r) && i == Frontier(r) < |STEP_ORDER|
    ensures Ordered(Fail(r, STEP_ORDER[i], message)) && Frontier(Fail(r, STEP_ORDER[i], message)) == i
  {
    var r' := Fail(r, STEP_ORDER[i], message);
    assert StepIndex(STEP_ORDER[i]) == i;
    forall k | 0 <= k < |STEP_ORDER| ensures Done(r', STEP_ORDER[k]) <==> k < i {
      assert StepIndex(STEP_ORDER[k]) == k;
    }
  }

  /** What a caller of `run_step` can check first: the step is not past the frontier, or it will not execute. */
  predicate KeepsOrder(r: Run, s: Step) {
    StepIndex(s) <= Frontier(r) || !Executes(r, s)
  }

  /** Past the frontier a step that succeeds leaves a gap behind it. */
  lemma SuccessPastFrontierLeavesAGap(r: Run, s: Step, output: string)
    requires Ordered(r) && StepIndex(s) > Frontier(r)
    ensures !Ordered(Succeed(r, s, output))
  {
    var r', f := Succeed(r, s, output), STEP_ORDER[Frontier(r)];
    assert StepIndex(f) == Frontier(r);
    assert !Done(r', f) && Done(r', STEP_ORDER[StepIndex(s)]);
  }

  /** A direct call keeps the order whatever its executor does exactly when it meets that guard. */
  lemma DirectCallKeepsOrderIff(r: Run, s: Step)
    requires Ordered(r)
    ensures (forall exec :: Ordered(RunStep(r, s, exec).0)) <==> KeepsOrder(r, s)
  {
    if KeepsOrder(r, s) {
      forall exec ensures Ordered(RunStep(r, s, exec).0) {
        GuardedCallKeepsOrder(r, s, exec);
      }
    } else {
      var ok: Executor := (t, x) => Ok("");
      SuccessPastFrontierLeavesAGap(r, s, "");
      assert RunStep(r, s, ok).0 == Succeed(r, s, "");
    }
  }

  lemma GuardedCallKeepsOrder(r: Run, s: Step, exec: Executor)
    requires Ordered(r) && KeepsOrder(r, s)
    ensures Ordered(RunStep(r, s, exec).0) && Frontier(r) <= Frontier(RunStep(r, s, exec).0)
  {
    if StepIndex(s) <= Frontier(r) {
      RunStepKeepsOrder(r, StepIndex(s), exec);
    }
  }

  /** Every direct call in the history meets the guard when it comes. */
  ghost predicate Guarded(sys: System, events: seq<Event>)
    decreases |events|
  {
    events == [] ||
    ((events[0].Direct? ==> KeepsOrder(sys.run, events[0].step)) && Guarded(Next(sys, events[0]), events[1..]))
  }

  lemma RedlineKeepsOrder(r: Run, status: string)
    requires Ordered(r)
    ensures Ordered(r.(redlineStatus := status)) && Frontier(r.(redlineStatus := status)) == Frontier(r)
  {
    assert forall s :: Done(r.(redlineStatus := status), s) == Done(r, s);
  }

  lemma AdvanceKeepsResumeInvariant(sys: System, w: nat, exec: Executor)
    requires ResumeInvariant(sys)
    ensures ResumeInvariant(Next(sys, Advance(w, exec)))
  {
    if w in sys.workers && sys.workers[w] < |STEP_ORDER| {
      RunStepKeepsOrder(sys.run, sys.workers[w], exec);
    }
  }

  lemma NextKeepsResumeInvariant(sys: System, ev: Event)
    requires ResumeInvariant(sys) && (ev.Direct? ==> KeepsOrder(sys.run, ev.step))
    ensures ResumeInvariant(Next(sys, ev))
  {
    match ev
    case Advance(w, exec) => AdvanceKeepsResumeInvariant(sys, w, exec);
    case Direct(s, exec) => GuardedCallKeepsOrder(sys.run, s, exec);
    case SetRedline(status) =>
      RedlineKeepsOrder(sys.run, status);
    case _ =>
  }

  /** Under any interleaving of `resume_run` workers and guarded direct calls. */
  lemma {:induction false} ResumeWorkersKeepOrder(sys: System, events: seq<Event>)
    requires ResumeInvariant(sys) && Guarded(sys, events)
    ensures ResumeInvariant(Play(sys, events))
    decreases |events|
  {
    if events != [] {
      NextKeepsResumeInvariant(sys, events[0]);
      ResumeWorkersKeepOrder(Next(sys, events[0]), events[1..]);
    }
  }

  /** Histories of `resume_run` workers alone have no direct call to guard. */
  lemma {:induction false} ResumeOnlyIsGuarded(sys: System, events: seq<Event>)
    requires ResumeOnly(events)
    ensures Guarded(sys, events)
    decreases |events|
  {
    if events != [] {
      assert events[0] in events;
      ResumeOnlyIsGuarded(Next(sys, events[0]), events[1..]);
    }
  }

  lemma FreshRunsStayOrdered(r: Run, events: seq<Event>)
    requires Fresh(r) && Guarded(Start(r), events)
    ensures var run := Play(Start(r), events).run;
            && (forall i | 0 <= i < |STEP_ORDER| :: Done(run, STEP_ORDER[i]) <==> i < Frontier(run))
            && ResumeIndex(run.resumeFrom) == Min(Frontier(run), |STEP_ORDER| - 1)
            && (run.completed <==> forall s :: Done(run, s))
  {
    assert Frontier(r) == 0;
    ResumeWorkersKeepOrder(Start(r), events);
    var run := Play(Start(r), events).run;
    if Frontier(run) == |STEP_ORDER| {
      forall s ensures Done(run, s) {
        assert STEP_ORDER[StepIndex(s)] == s;
      }
    } else {
      assert !Done(run, STEP_ORDER[Frontier(run)]);
    }
  }

  // ------------------------------------------------- accounting, in every history

  function Count(log: seq<Execution>, s: Step): nat {
    if log == [] then 0 else Count(log[..|log| - 1], s) + (if log[|log| - 1].step == s then 1 else 0)
  }

  function TotalRetries(r: Run): nat {
    Retries(r, G2Redline) + Retries(r, G3Scorecard) + Retries(r, G4Outline) + Retries(r, G5Generate)
    + Retries(r, G6Scoring) + Retries(r, G7Export) + Retries(r, G8Feedback)
  }

  /** Each step's outcomes are its failures and at most one success. */
  ghost predicate OutcomesCounted(r: Run, log: seq<Execution>) {
    forall s :: Count(log, s) == Retries(r, s) + if Done(r, s) then 1 else 0
  }

  ghost predicate WithinBudget(r: Run) {
    forall s :: Retries(r, s) <= if Done(r, s) then MAX_RETRIES - 1 else MAX_RETRIES
  }

  ghost predicate RowAgrees(r: Run) {
    r.retryCount == TotalRetries(r) && (r.completed <==> Done(r, G8Feedback))
  }

  ghost predicate NothingPastABlock(log: seq<Execution>) {
    forall e | e in log && e.redlineStatus == "BLOCKED" :: e.step.G2Redline? || e.step.G3Scorecard? || e.step.G4Outline?
  }

  ghost predicate Accounted(sys: System) {
    && OutcomesCounted(sys.run, sys.log) && WithinBudget(sys.run)
    && RowAgrees(sys.run) && NothingPastABlock(sys.log)
  }

  function Failures(a: Answer): nat {
    if a.Failure? then 1 else 0
  }

  /** What one call changes: nothing about other steps, and one retry exactly when its executor fails. */
  lemma RunStepEffect(r: Run, s: Step, exec: Executor)
    ensures var (n, a) := RunStep(r, s, exec);
            && n.redlineStatus == r.redlineStatus
            && (forall t | t != s :: Retries(n, t) == Retries(r, t) && Done(n, t) == Done(r, t))
            && Retries(n, s) == Retries(r, s) + Failures(a)
            && n.retryCount == r.retryCount + Failures(a)
            && (Executes(r, s) ==> (a.Success? || a.Failure?) && Done(n, s) == a.Success?)
            && (!Executes(r, s) ==> n == r && !a.Success? && !a.Failure?)
            && n.completed == (r.completed || (a.Success? && s == G8Feedback))
  {
    var (n, a) := RunStep(r, s, exec);
    if a.Success? {
      EntryEffect(r, n, s, exec(s, Started(r, s)).value);
    } else if a.Failure? {
      EntryEffect(r, n, s, a.error);
    }
  }

  lemma EntryEffect(r: Run, n: Run, s: Step, detail: string)
    requires n == Succeed(r, s, detail) || n == Fail(r, s, detail)
    ensures forall t | t != s :: Retries(n, t) == Retries(r, t) && Done(n, t) == Done(r, t)
    ensures n == Succeed(r, s, detail) ==> Done(n, s) && Retries(n, s) == Retries(r, s)
    ensures n == Fail(r, s, detail) ==> !Done(n, s) && Retries(n, s) == Retries(r, s) + 1
  {
  }

  lemma TotalRetriesChange(r: Run, n: Run, s: Step)
    requires forall t | t != s :: Retries(n, t) == Retries(r, t)
    ensures TotalRetries(n) - TotalRetries(r) == Retries(n, s) - Retries(r, s)
  {
    assert s.G2Redline? || s.G3Scorecard? || s.G4Outline? || s.G5Generate? || s.G6Scoring? || s.G7Export? || s.G8Feedback?;
  }

  lemma CallCountsItsOutcome(sys: System, s: Step, exec: Executor)
    requires OutcomesCounted(sys.run, sys.log)
    ensures OutcomesCounted(Call(sys, s, exec).run, Call(sys, s, exec).log)
  {
    var next := Call(sys, s, exec);
    RunStepEffect(sys.run, s, exec);
    if Executes(sys.run, s) {
      forall t ensures Count(next.log, t) == Retries(next.run, t) + if Done(next.run, t) then 1 else 0 {
        assert next.log[..|next.log| - 1] == sys.log;
        assert Count(sys.log, t) == Retries(sys.run, t) + if Done(sys.run, t) then 1 else 0;
      }
    }
  }

  lemma CallStaysWithinBudget(r: Run, s: Step, exec: Executor)
    requires WithinBudget(r)
    ensures WithinBudget(RunStep(r, s, exec).0)
  {
    var n := RunStep(r, s, exec).0;
    RunStepEffect(r, s, exec);
    forall t ensures Retries(n, t) <= if Done(n, t) then MAX_RETRIES - 1 else MAX_RETRIES {
      assert Retries(r, t) <= if Done(r, t) then MAX_RETRIES - 1 else MAX_RETRIES;
    }
  }

  lemma CallKeepsRow(r: Run, s: Step, exec: Executor)
    requires RowAgrees(r)
    ensures RowAgrees(RunStep(r, s, exec).0)
  {
    RunStepEffect(r, s, exec);
    TotalRetriesChange(r, RunStep(r, s, exec).0, s);
  }

  lemma CallKeepsAccounts(sys: System, s: Step, exec: Executor)
    requires Accounted(sys)
    ensures Accounted(Call(sys, s, exec))
  {
    CallCountsItsOutcome(sys, s, exec);
    CallStaysWithinBudget(sys.run, s, exec);
    CallKeepsRow(sys.run, s, exec);
  }

  lemma {:induction false} HistoriesAreAccounted(sys: System, events: seq<Event>)
    requires Accounted(sys)
    ensures Accounted(Play(sys, events))
    decreases |events|
  {
    if events != [] {
      NextKeepsAccounts(sys, events[0]);
      HistoriesAreAccounted(Next(sys, events[0]), events[1..]);
    }
  }

  lemma NextKeepsAccounts(sys: System, ev: Event)
    requires Accounted(sys)
    ensures Accounted(Next(sys, ev))
  {
    match ev
    case Advance(w, exec) =>
      if w in sys.workers && sys.workers[w] < |STEP_ORDER| {
        var called := Call(sys, STEP_ORDER[sys.workers[w]], exec);
        CallKeepsAccounts(sys, STEP_ORDER[sys.workers[w]], exec);
        assert Next(sys, ev).run == called.run && Next(sys, ev).log == called.log;
      }
    case Direct(s, exec) => CallKeepsAccounts(sys, s, exec);
    case SetRedline(status) =>
      var run := Next(sys, ev).run;
      assert forall s :: Done(run, s) == Done(sys.run, s) && Retries(run, s) == Retries(sys.run, s);
    case _ =>
  }

  /** In every history, direct calls included: three outcomes a step, exact retry totals, no work past a P0 block. */
  lemma EveryHistoryIsBounded(r: Run, events: seq<Event>)
    requires Fresh(r)
    ensures var end := Play(Start(r), events);
            && (forall s :: Count(end.log, s) <= 3)
            && end.run.retryCount == TotalRetries(end.run)
            && (end.run.completed <==> Done(end.run, G8Feedback))
            && (forall e | e in end.log && e.redlineStatus == "BLOCKED" ::
                  e.step.G2Redline? || e.step.G3Scorecard? || e.step.G4Outline?)
  {
    HistoriesAreAccounted(Start(r), events);
  }

  /** The three outcomes can all be failures: a step that a redline block does not hold back is tried three times. */
  lemma ThreeFailuresHappen(r: Run, s: Step)
    requires Fresh(r) && !BehindTheBlock(r, s)
    ensures exists events :: var end := Play(Start(r), events);
              |end.log| == 3 && forall e | e in end.log :: e.step == s && !e.success
  {
    var raises: Executor := (t, x) => Error("");
    var ev := Direct(s, raises);
    var s1 := Next(Start(r), ev);
    var s2 := Next(s1, ev);
    var s3 := Next(s2, ev);
    FailingCall(Start(r), s, raises);
    FailingCall(s1, s, raises);
    FailingCall(s2, s, raises);
    assert [ev, ev, ev][1..] == [ev, ev] && [ev, ev][1..] == [ev] && [ev][1..] == [];
    assert Play(s2, [ev]) == Play(s3, []) == s3;
    assert Play(s1, [ev, ev]) == Play(s2, [ev]);
    assert Play(Start(r), [ev, ev, ev]) == Play(s1, [ev, ev]);
  }

  lemma FailingCall(sys: System, s: Step, exec: Executor)
    requires !BehindTheBlock(sys.run, s) && !Done(sys.run, s) && Retries(sys.run, s) < 3
    requires forall x :: exec(s, x) == Error("")
    ensures var next := Call(sys, s, exec);
            && next.log == sys.log + [Execution(s, false, sys.run.redlineStatus)]
            && !BehindTheBlock(next.run, s) && !Done(next.run, s)
            && Retries(next.run, s) == Retries(sys.run, s) + 1
  {
    RunStepDecides(sys.run, s, exec);
  }

  /** With direct calls COMPLETED no longer means all seven: G8 alone completes a fresh run. */
  lemma DirectCallCompletesEarly(r: Run)
    requires Fresh(r) && !IsBlocked(r)
    ensures exists events :: var run := Play(Start(r), events).run; run.completed && !Done(run, G2Redline)
  {
    var ok: Executor := (s, x) => Ok("");
    var ev := Direct(G8Feedback, ok);
    assert Play(Start(r), [ev]) == Play(Next(Start(r), ev), []);
    assert Play(Next(Start(r), ev), []) == Call(Start(r), G8Feedback, ok);
    var run := Play(Start(r), [ev]).run;
    assert run.completed && !Done(run, G2Redline);
  }

  // --------------------------------------------------- sequential resumes finish

  function ResumeMany(r: Run, execs: seq<Executor>): Run
    decreases |execs|
  {
    if execs == [] then r else Resume(ResumeMany(r, execs[..|execs| - 1]), execs[|execs| - 1]).0
  }

  ghost predicate Exhausted(r: Run) {
    exists s :: Retries(r, s) >= 3
  }

  /** One undisturbed pass either completes, or stops at one new failure, or meets an exhausted step. */
  lemma {:induction false} ResumePass(r: Run, exec: Executor, from: nat)
    requires Ordered(r) && from <= Frontier(r) && !IsBlocked(r)
    ensures var r' := ResumeFrom(r, exec, from).0;
            && Ordered(r') && !IsBlocked(r')
            && (forall s :: Retries(r, s) <= Retries(r', s))
            && (|| (r'.completed && r'.retryCount == r.retryCount)
                || r'.retryCount == r.retryCount + 1
                || (Exhausted(r') && r'.retryCount == r.retryCount))
            && (r.completed ==> r'.completed)
    decreases |STEP_ORDER| - from
  {
    if from < |STEP_ORDER| {
      RunStepKeepsOrder(r, from, exec);
      RunStepEffect(r, STEP_ORDER[from], exec);
      var (next, answer) := RunStep(r, STEP_ORDER[from], exec);
      assert forall s :: Retries(r, s) <= Retries(next, s);
      if !Stops(answer) {
        ResumePass(next, exec, from + 1);
      } else if answer.MaxRetries? {
        assert Retries(next, STEP_ORDER[from]) >= MAX_RETRIES;
      }
    }
  }

  lemma {:induction false} EachResumeFailsOnceOrFinishes(r: Run, execs: seq<Executor>)
    requires Fresh(r) && !IsBlocked(r)
    ensures var end := ResumeMany(r, execs);
            && Ordered(end) && !IsBlocked(end)
            && (end.completed || Exhausted(end) || end.retryCount == |execs|)
    decreases |execs|
  {
    if execs == [] {
      assert Frontier(r) == 0;
    } else {
      var before := ResumeMany(r, execs[..|execs| - 1]);
      EachResumeFailsOnceOrFinishes(r, execs[..|execs| - 1]);
      ResumePass(before, execs[|execs| - 1], ResumeIndex(before.resumeFrom));
      if s :| Retries(before, s) >= MAX_RETRIES {
        assert Retries(ResumeMany(r, execs), s) >= MAX_RETRIES;
      }
    }
  }

  /** Not blocked and no step exhausted: one call more than the failures recorded completes the run. */
  lemma ResumesComplete(r: Run, execs: seq<Executor>)
    requires Fresh(r) && !IsBlocked(r)
    ensures var end := ResumeMany(r, execs);
            !Exhausted(end) && |execs| > end.retryCount ==> end.completed && forall s :: Done(end, s)
  {
    EachResumeFailsOnceOrFinishes(r, execs);
    var end := ResumeMany(r, execs);
    if !Exhausted(end) && |execs| > end.retryCount {
      forall s ensures Done(end, s) {
        assert STEP_ORDER[StepIndex(s)] == s;
      }
    }
  }

  lemma {:induction false} ResumeManyAccounts(r: Run, execs: seq<Executor>)
    requires Fresh(r)
    ensures var end := ResumeMany(r, execs); end.retryCount == TotalRetries(end)
    decreases |execs|
  {
    if execs != [] {
      var before := ResumeMany(r, execs[..|execs| - 1]);
      ResumeManyAccounts(r, execs[..|execs| - 1]);
      PassAccounts(before, execs[|execs| - 1], ResumeIndex(before.resumeFrom));
    }
  }

  lemma {:induction false} PassAccounts(r: Run, exec: Executor, from: nat)
    requires r.retryCount == TotalRetries(r)
    ensures var end := ResumeFrom(r, exec, from).0; end.retryCount == TotalRetries(end)
    decreases |STEP_ORDER| - from
  {
    if from < |STEP_ORDER| {
      RunStepEffect(r, STEP_ORDER[from], exec);
      TotalRetriesChange(r, RunStep(r, STEP_ORDER[from], exec).0, STEP_ORDER[from]);
      PassAccounts(RunStep(r, STEP_ORDER[from], exec).0, exec, from + 1);
    }
  }

  /** Two failures for each of seven steps are the most a run that exhausts none can record. */
  lemma FifteenResumesSettle(r: Run, execs: seq<Executor>)
    requires Fresh(r) && !IsBlocked(r) && |execs| >= 15
    ensures ResumeMany(r, execs).completed || Exhausted(ResumeMany(r, execs))
  {
    EachResumeFailsOnceOrFinishes(r, execs);
    ResumeManyAccounts(r, execs);
    var end := ResumeMany(r, execs);
    if !Exhausted(end) {
      assert forall s :: Retries(end, s) <= 2;
    }
  }
}
