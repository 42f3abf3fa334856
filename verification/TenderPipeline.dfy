/**
 Tender import pipeline: `app/tender/pipeline.py` and the task wrapper `app/worker/tender_tasks.py`.

 `run_pipeline` is a fixed list of effects, each a file write or a commit of the step marker.  An
 invocation starts at the first effect of the stored step and can be killed before any effect or in
 the middle of a write (which leaves a torn file), or an effect can raise.  Extractors are functions
 from what they read to a document; a new one may be in force at every effect, so assets may change.
 */
module TenderPipeline {
  import opened Common

  datatype Step =
    | Received | Unpacked | Validated | Sectionized | PrelimExtracted | FatalGateChecked
    | ScoringExtracted | TechExtracted | DeviationBuilt | FormatSignatureExtracted | BlueprintBuilt
    | ReadyForWriting | FatalBlocked | Failed

  const STEP_ORDER: seq<Step> := [Received, Unpacked, Validated, Sectionized, PrelimExtracted, FatalGateChecked,
                                  ScoringExtracted, TechExtracted, DeviationBuilt, FormatSignatureExtracted, BlueprintBuilt,
                                  ReadyForWriting]

  /** Position in the step order; -1 for the two terminal steps outside it. */
  function StepIndex(s: Step): (i: int)
    ensures s.FatalBlocked? || s.Failed? ==> i == -1
    ensures !s.FatalBlocked? && !s.Failed? ==> 0 <= i < |STEP_ORDER| && STEP_ORDER[i] == s
  {
    match s
    case Received => 0
    case Unpacked => 1
    case Validated => 2
    case Sectionized => 3
    case PrelimExtracted => 4
    case FatalGateChecked => 5
    case ScoringExtracted => 6
    case TechExtracted => 7
    case DeviationBuilt => 8
    case FormatSignatureExtracted => 9
    case BlueprintBuilt => 10
    case ReadyForWriting => 11
    case FatalBlocked => -1
    case Failed => -1
  }

  datatype Artefact =
    | Sections | Prelim | Personnel | Facts | GateReport | Scoring | Tech | Deviation | Format
    | Blueprint | Compliance | ImportReport

  /** Document text; the gate report also carries its verdict. */
  datatype Json = Plain(text: string) | Gate(passed: bool, reasons: seq<string>)

  datatype File = Torn | Whole(json: Json)

  type Derived = map<Artefact, File>

  /** Computes an artefact from the derived files it reads (`None` for a file that does not exist). */
  type Extractor = (Artefact, seq<Option<Json>>) -> Json

  function Reads(a: Artefact): seq<Artefact> {
    match a
    case GateReport => [Prelim, Personnel]
    case Deviation => [Tech]
    case Blueprint => [Format, Scoring, Tech]
    case _ => []
  }

  predicate Passed(j: Json) {
    j.Gate? && j.passed
  }

  // -------------------------------------------------------------------- effects

  datatype Op = Mark(step: Step) | Save(artefact: Artefact) | Decide | MarkReady

  const PROGRAM_LENGTH: nat := 23

  /** The effects of one full invocation, in order. */
  function OpAt(pc: nat): Op
    requires pc < PROGRAM_LENGTH
  {
    match pc
    case 0 => Mark(Unpacked)
    case 1 => Mark(Validated)
    case 2 => Save(Sections)
    case 3 => Mark(Sectionized)
    case 4 => Save(Prelim)
    case 5 => Save(Personnel)
    case 6 => Save(Facts)
    case 7 => Mark(PrelimExtracted)
    case 8 => Save(GateReport)
    case 9 => Decide
    case 10 => Save(Scoring)
    case 11 => Mark(ScoringExtracted)
    case 12 => Save(Tech)
    case 13 => Mark(TechExtracted)
    case 14 => Save(Deviation)
    case 15 => Mark(DeviationBuilt)
    case 16 => Save(Format)
    case 17 => Mark(FormatSignatureExtracted)
    case 18 => Save(Blueprint)
    case 19 => Mark(BlueprintBuilt)
    case 20 => Save(Compliance)
    case 21 => MarkReady
    case _ => Save(ImportReport)
  }

  /** Where in the program an artefact is written. */
  function SaveAt(a: Artefact): (i: nat)
    ensures i < PROGRAM_LENGTH && OpAt(i) == Save(a)
  {
    match a
    case Sections => 2
    case Prelim => 4
    case Personnel => 5
    case Facts => 6
    case GateReport => 8
    case Scoring => 10
    case Tech => 12
    case Deviation => 14
    case Format => 16
    case Blueprint => 18
    case Compliance => 20
    case ImportReport => 22
  }

  const DECIDE_AT: nat := 9
  const REPORT_AT: nat := 22

  /** The first effect an invocation performs when it finds step `s` stored: the marked step runs again. */
  function StartOf(s: Step): nat
    requires StepIndex(s) >= 0
  {
    match s
    case Received => 0
    case Unpacked => 0
    case Validated => 1
    case Sectionized => 2
    case PrelimExtracted => 4
    case FatalGateChecked => 8
    case ScoringExtracted => 10
    case TechExtracted => 12
    case DeviationBuilt => 14
    case FormatSignatureExtracted => 16
    case BlueprintBuilt => 18
    case ReadyForWriting => 20
  }

  /** No invocation in progress (`finished`: the last one ran to its own end), or one about to do an effect. */
  datatype Phase = Idle(finished: bool) | At(pc: nat)

  datatype Run = Run(marker: Step, derived: Derived, phase: Phase)

  function Lookup(d: Derived, a: Artefact): Option<Json> {
    if a in d && d[a].Whole? then Some(d[a].json) else None
  }

  function Inputs(d: Derived, a: Artefact): seq<Option<Json>> {
    seq(|Reads(a)|, i requires 0 <= i < |Reads(a)| => Lookup(d, Reads(a)[i]))
  }

  /** A file an extractor reads is torn, so `json.loads` raises. */
  predicate ReadsTorn(d: Derived, a: Artefact) {
    exists r | r in Reads(a) :: r in d && d[r].Torn?
  }

  /** The next effect succeeds. */
  function Tick(r: Run, ex: Extractor): Run {
    if !r.phase.At? || r.phase.pc >= PROGRAM_LENGTH then r
    else
      var pc := r.phase.pc;
      var on := At(pc + 1);
      match OpAt(pc)
      case Mark(s) => r.(marker := s, phase := on)
      case Save(a) =>
        if ReadsTorn(r.derived, a) then Raised(r, false, true)
        else r.(derived := r.derived[a := Whole(ex(a, Inputs(r.derived, a)))],
                phase := if pc == REPORT_AT then Idle(true) else on)
      case Decide =>
        if GateReport in r.derived && r.derived[GateReport].Whole? && Passed(r.derived[GateReport].json)
        then r.(marker := FatalGateChecked, phase := on)
        else r.(marker := FatalBlocked, phase := At(REPORT_AT))
      case MarkReady =>
        if Deviation in r.derived then r.(marker := ReadyForWriting, phase := on)
        else r.(marker := Failed, phase := Idle(true))
  }

  /** What is left of the derived files when the effect at hand is cut short. */
  function Cut(r: Run, torn: bool): Derived {
    if torn && r.phase.At? && r.phase.pc < PROGRAM_LENGTH && OpAt(r.phase.pc).Save?
    then r.derived[OpAt(r.phase.pc).artefact := Torn]
    else r.derived
  }

  /**
   The next effect raises.  The compliance check only logs; elsewhere the step's handler or the task
   wrapper records FAILED, if its own commit works.
   */
  function Raised(r: Run, torn: bool, recorded: bool): Run {
    if !r.phase.At? then r
    else if r.phase.pc == SaveAt(Compliance) then r.(derived := Cut(r, torn), phase := At(r.phase.pc + 1))
    else Run(if recorded then Failed else r.marker, Cut(r, torn), Idle(false))
  }

  datatype Event =
    | Invoke
    | Effect(ex: Extractor)
    | Crash(torn: bool)
    | Raise(torn: bool, recorded: bool)
    | LoadError(recorded: bool)

  function Next(r: Run, ev: Event): Run {
    match ev
    case Invoke =>
      if r.phase.At? then r
      else if r.marker.FatalBlocked? || r.marker.Failed? then r.(phase := Idle(true))
      else r.(phase := At(StartOf(r.marker)))
    case Effect(ex) => Tick(r, ex)
    case Crash(torn) => if r.phase.At? then Run(r.marker, Cut(r, torn), Idle(false)) else r
    case Raise(torn, recorded) => Raised(r, torn, recorded)
    case LoadError(recorded) =>
      if r.phase.At? || !recorded || r.marker.FatalBlocked? then r else r.(marker := Failed, phase := Idle(false))
  }

  function Play(r: Run, events: seq<Event>): Run
    decreases |events|
  {
    if events == [] then r else Play(Next(r, events[0]), events[1..])
  }

  function Uploaded(d: Derived): Run {
    Run(Received, d, Idle(false))
  }

  predicate Terminal(s: Step) {
    s.FatalBlocked? || s.Failed?
  }

  lemma ReadsEarlier(a: Artefact, i: nat)
    requires i < |Reads(a)|
    ensures SaveAt(Reads(a)[i]) < SaveAt(a)
  {
  }

  predicate Untouched(d0: Derived, d: Derived, a: Artefact) {
    (a in d <==> a in d0) && (a in d ==> d[a] == d0[a])
  }

  // --------------------------------------------------- what the marker certifies

  /** Everything before this effect has been completed, in this invocation or an earlier one. */
  function Reached(r: Run): nat {
    if r.phase.At? then r.phase.pc else if Terminal(r.marker) then 0 else StartOf(r.marker)
  }

  ghost predicate Certified(r: Run) {
    && (r.phase.At? ==>
          && r.phase.pc < PROGRAM_LENGTH && !r.marker.Failed?
          && (r.phase.pc == REPORT_AT ==> r.marker.FatalBlocked? || r.marker.ReadyForWriting?)
          && (if r.marker.FatalBlocked? then r.phase.pc == REPORT_AT else StartOf(r.marker) <= r.phase.pc))
    && (!Terminal(r.marker) ==> CompleteBefore(r.derived, Reached(r)) && (DECIDE_AT < Reached(r) ==> ReportPassed(r.derived)))
  }

  ghost predicate CompleteBefore(d: Derived, pc: nat) {
    forall a | SaveAt(a) < pc && a != Compliance && a != ImportReport :: a in d && d[a].Whole?
  }

  /** The gate report on disk is whole and says that the gate passed. */
  predicate ReportPassed(d: Derived) {
    GateReport in d && d[GateReport].Whole? && d[GateReport].json.Gate? && d[GateReport].json.passed
  }

  lemma SaveIsAt(pc: nat)
    requires pc < PROGRAM_LENGTH && OpAt(pc).Save?
    ensures SaveAt(OpAt(pc).artefact) == pc
  {
  }

  /** Cutting the effect at hand short can only tear a file that is yet to be certified. */
  lemma CutKeepsEarlierFiles(r: Run, torn: bool)
    requires r.phase.At? && r.phase.pc < PROGRAM_LENGTH
    ensures forall a | SaveAt(a) < r.phase.pc :: a in Cut(r, torn) <==> a in r.derived
    ensures forall a | SaveAt(a) < r.phase.pc && a in r.derived :: Cut(r, torn)[a] == r.derived[a]
  {
    if OpAt(r.phase.pc).Save? {
      SaveIsAt(r.phase.pc);
    }
  }

  /** Marking a step stores a step whose first effect lies behind the marking effect. */
  lemma MarkMovesForward(pc: nat, s: Step)
    requires pc < PROGRAM_LENGTH && OpAt(pc).Mark? && !Terminal(s) && StartOf(s) <= pc
    ensures !Terminal(OpAt(pc).step) && StartOf(OpAt(pc).step) <= pc + 1
    ensures StepIndex(s) <= StepIndex(OpAt(pc).step)
  {
  }

  lemma NoSaveBetween(pc: nat)
    requires pc < PROGRAM_LENGTH && !OpAt(pc).Save?
    ensures forall a :: SaveAt(a) < pc + 1 <==> SaveAt(a) < pc
  {
  }

  lemma SaveAtIsInjective(x: Artefact, y: Artefact)
    requires SaveAt(x) == SaveAt(y)
    ensures x == y
  {
    assert OpAt(SaveAt(x)) == Save(x) && OpAt(SaveAt(y)) == Save(y);
  }

  /** Writing an artefact completes it and leaves what was complete before it. */
  lemma SaveCompletes(d: Derived, a: Artefact, j: Json)
    requires CompleteBefore(d, SaveAt(a))
    ensures CompleteBefore(d[a := Whole(j)], SaveAt(a) + 1)
  {
    forall x | SaveAt(x) < SaveAt(a) + 1 && x != a ensures SaveAt(x) < SaveAt(a) {
      if SaveAt(x) == SaveAt(a) {
        SaveAtIsInjective(x, a);
      }
    }
  }

  lemma SaveKeepsCertified(r: Run, ex: Extractor)
    requires Certified(r) && r.phase.At? && OpAt(r.phase.pc).Save?
    ensures Certified(Tick(r, ex))
    ensures Tick(r, ex).marker.Failed? || Tick(r, ex).marker == r.marker
  {
    var a := OpAt(r.phase.pc).artefact;
    SaveIsAt(r.phase.pc);
    if !ReadsTorn(r.derived, a) && !Terminal(r.marker) {
      SaveCompletes(r.derived, a, ex(a, Inputs(r.derived, a)));
    }
  }

  lemma MarkKeepsCertified(r: Run, ex: Extractor)
    requires Certified(r) && r.phase.At? && OpAt(r.phase.pc).Mark?
    ensures Certified(Tick(r, ex))
    ensures !Terminal(r.marker) && StepIndex(r.marker) <= StepIndex(Tick(r, ex).marker)
  {
    NoSaveBetween(r.phase.pc);
    MarkMovesForward(r.phase.pc, r.marker);
  }

  lemma TickKeepsCertified(r: Run, ex: Extractor)
    requires Certified(r) && r.phase.At?
    ensures Certified(Tick(r, ex))
    ensures Terminal(Tick(r, ex).marker) || (!Terminal(r.marker) && StepIndex(r.marker) <= StepIndex(Tick(r, ex).marker))
  {
    var pc := r.phase.pc;
    if OpAt(pc).Save? {
      SaveKeepsCertified(r, ex);
    } else if OpAt(pc).Mark? {
      MarkKeepsCertified(r, ex);
    } else {
      NoSaveBetween(pc);
    }
  }

  lemma CutKeepsCertified(r: Run, torn: bool)
    requires Certified(r) && r.phase.At?
    ensures Certified(Run(r.marker, Cut(r, torn), Idle(false)))
  {
    CutKeepsEarlierFiles(r, torn);
  }

  lemma RaiseKeepsCertified(r: Run, torn: bool, recorded: bool)
    requires Certified(r) && r.phase.At?
    ensures Certified(Raised(r, torn, recorded))
    ensures Raised(r, torn, recorded).marker == r.marker || Raised(r, torn, recorded).marker.Failed?
  {
    CutKeepsEarlierFiles(r, torn);
    if r.phase.pc != SaveAt(Compliance) {
      CutKeepsCertified(r, torn);
    }
  }

  lemma NextKeepsCertified(r: Run, ev: Event)
    requires Certified(r)
    ensures Certified(Next(r, ev))
    ensures Terminal(Next(r, ev).marker) || (!Terminal(r.marker) && StepIndex(r.marker) <= StepIndex(Next(r, ev).marker))
  {
    match ev
    case Effect(ex) => if r.phase.At? { TickKeepsCertified(r, ex); }
    case Crash(torn) => if r.phase.At? { CutKeepsCertified(r, torn); }
    case Raise(torn, recorded) => if r.phase.At? { RaiseKeepsCertified(r, torn, recorded); }
    case _ =>
  }

  lemma {:induction false} HistoriesStayCertified(r: Run, events: seq<Event>)
    requires Certified(r)
    ensures Certified(Play(r, events))
    ensures var end := Play(r, events).marker;
            Terminal(end) || (!Terminal(r.marker) && StepIndex(r.marker) <= StepIndex(end))
    decreases |events|
  {
    if events != [] {
      NextKeepsCertified(r, events[0]);
      HistoriesStayCertified(Next(r, events[0]), events[1..]);
    }
  }

  /** Whatever crashes, errors and changes of assets happened, the stored step vouches for its artefacts. */
  lemma MarkerVouches(d: Derived, events: seq<Event>)
    ensures var r := Play(Uploaded(d), events);
            && (r.marker in {ScoringExtracted, TechExtracted, DeviationBuilt, FormatSignatureExtracted, BlueprintBuilt, ReadyForWriting}
                ==> ReportPassed(r.derived))
            && (r.marker.ReadyForWriting? ==> Deviation in r.derived && r.derived[Deviation].Whole?)
            && (!Terminal(r.marker) ==> CompleteBefore(r.derived, StartOf(r.marker)))
  {
    HistoriesStayCertified(Uploaded(d), events);
  }

  ghost predicate RefusedIfBlocked(r: Run) {
    r.marker.FatalBlocked? ==> GateReport in r.derived && r.derived[GateReport].Whole? && !ReportPassed(r.derived)
  }

  lemma NextStaysRefused(r: Run, ev: Event)
    requires Certified(r) && RefusedIfBlocked(r)
    ensures RefusedIfBlocked(Next(r, ev))
  {
    if r.phase.At? && r.phase.pc == DECIDE_AT {
      assert GateReport in r.derived && r.derived[GateReport].Whole?;
    }
  }

  lemma {:induction false} HistoriesStayRefused(r: Run, events: seq<Event>)
    requires Certified(r) && RefusedIfBlocked(r)
    ensures RefusedIfBlocked(Play(r, events))
    decreases |events|
  {
    if events != [] {
      NextKeepsCertified(r, events[0]);
      NextStaysRefused(r, events[0]);
      HistoriesStayRefused(Next(r, events[0]), events[1..]);
    }
  }

  /** FATAL_BLOCKED is never stored without a whole report on disk that refuses. */
  lemma BlockedMeansRefused(d: Derived, events: seq<Event>)
    requires Play(Uploaded(d), events).marker.FatalBlocked?
    ensures var files := Play(Uploaded(d), events).derived;
            GateReport in files && files[GateReport].Whole? && !(files[GateReport].json.Gate? && files[GateReport].json.passed)
  {
    HistoriesStayRefused(Uploaded(d), events);
  }

  /** One decision, on the fields of the report just written. */
  lemma DecisionReadsTheReport(r: Run, ex: Extractor, passed: bool, reasons: seq<string>)
    requires r.phase == At(DECIDE_AT) && GateReport in r.derived && r.derived[GateReport] == Whole(Gate(passed, reasons))
    ensures Tick(r, ex) == if passed then Run(FatalGateChecked, r.derived, At(DECIDE_AT + 1))
                           else Run(FatalBlocked, r.derived, At(REPORT_AT))
  {
  }

  /** A torn input ends the invocation as FAILED. */
  lemma TornInputEndsInFailed(r: Run, ex: Extractor, a: Artefact, i: nat)
    requires r.phase == At(SaveAt(a)) && i < |Reads(a)| && Reads(a)[i] in r.derived && r.derived[Reads(a)[i]].Torn?
    ensures Tick(r, ex) == Run(Failed, r.derived, Idle(false))
  {
    assert Reads(a)[i] in Reads(a) && OpAt(SaveAt(a)) == Save(a);
  }

  /** Without deviation tables the run is marked FAILED, with them READY_FOR_WRITING. */
  lemma ReadyNeedsDeviationTables(r: Run, ex: Extractor)
    requires r.phase == At(SaveAt(Compliance) + 1)
    ensures Tick(r, ex) == if Deviation in r.derived then Run(ReadyForWriting, r.derived, At(REPORT_AT))
                           else Run(Failed, r.derived, Idle(true))
  {
  }

  /** What the task wrapper does with an error outside the steps, when no effect is under way. */
  lemma WrapperRecordsFailed(r: Run, recorded: bool)
    requires r.phase.Idle?
    ensures var r' := Next(r, LoadError(recorded));
            && r'.derived == r.derived && r'.phase.Idle?
            && r'.marker == (if recorded && !r.marker.FatalBlocked? then Failed else r.marker)
  {
  }

  /** No history ever reads a torn artefact: what an extractor needs has been written whole before. */
  lemma TornInputsAreNeverRead(d: Derived, events: seq<Event>, a: Artefact, i: nat)
    requires Play(Uploaded(d), events).phase == At(SaveAt(a)) && i < |Reads(a)|
    ensures var files := Play(Uploaded(d), events).derived; Reads(a)[i] in files && files[Reads(a)[i]].Whole?
  {
    HistoriesStayCertified(Uploaded(d), events);
    ReadsEarlier(a, i);
  }

  /** An error in the compliance check changes no marker and ends nothing; elsewhere it ends the invocation, as FAILED if recorded. */
  lemma ErrorsEndInFailed(r: Run, torn: bool, recorded: bool)
    requires r.phase.At?
    ensures r.phase.pc == SaveAt(Compliance) ==>
              Raised(r, torn, recorded).marker == r.marker && Raised(r, torn, recorded).phase == At(r.phase.pc + 1)
    ensures r.phase.pc != SaveAt(Compliance) ==>
              && Raised(r, torn, recorded).phase == Idle(false)
              && (recorded ==> Raised(r, torn, recorded).marker.Failed?)
              && (!recorded ==> Raised(r, torn, recorded).marker == r.marker)
    ensures forall a | SaveAt(a) != r.phase.pc :: Untouched(r.derived, Raised(r, torn, recorded).derived, a)
  {
    if r.phase.pc < PROGRAM_LENGTH && OpAt(r.phase.pc).Save? {
      SaveIsAt(r.phase.pc);
    }
  }

  lemma RankNeverFalls(d: Derived, early: seq<Event>, late: seq<Event>)
    ensures var before, after := Play(Uploaded(d), early).marker, Play(Uploaded(d), early + late).marker;
            Terminal(after) || (!Terminal(before) && StepIndex(before) <= StepIndex(after))
  {
    HistoriesStayCertified(Uploaded(d), early);
    HistoriesStayCertified(Play(Uploaded(d), early), late);
    PlayAppend(Uploaded(d), early, late);
  }

  lemma PlayCons(r: Run, ev: Event, events: seq<Event>)
    ensures Play(r, [ev] + events) == Play(Next(r, ev), events)
  {
    assert ([ev] + events)[1..] == events;
  }

  lemma {:induction false} PlayAppend(r: Run, a: seq<Event>, b: seq<Event>)
    ensures Play(r, a + b) == Play(Play(r, a), b)
    decreases |a|
  {
    if a == [] {
      assert a + b == b;
    } else {
      assert (a + b)[1..] == a[1..] + b;
      PlayAppend(Next(r, a[0]), a[1..], b);
    }
  }

  /** Between invocations both terminal steps absorb, for `run_pipeline` and for the task wrapper. */
  lemma {:induction false} TerminalAbsorbs(r: Run, events: seq<Event>)
    requires Terminal(r.marker) && r.phase.Idle?
    ensures var end := Play(r, events); end.marker == r.marker && end.derived == r.derived && end.phase.Idle?
    decreases |events|
  {
    if events != [] {
      TerminalAbsorbs(Next(r, events[0]), events[1..]);
    }
  }

  /**
   Inside the invocation that set it FATAL_BLOCKED is not yet safe: the import report is written in the
   same `try`, and an error there is recorded as FAILED.  Nothing else replaces it.
   */
  lemma FatalBlockedIsReplacedExactlyByAReportError(d: Derived, events: seq<Event>, ev: Event)
    requires Play(Uploaded(d), events).marker.FatalBlocked?
    ensures var r := Play(Uploaded(d), events);
            !Next(r, ev).marker.FatalBlocked? <==> r.phase.At? && ev.Raise? && ev.recorded
  {
    HistoriesStayCertified(Uploaded(d), events);
  }
}
