/**
 `run_pipeline` of `app/tender/pipeline.py` as a process on the stored run and its workspace, which can be
 killed before any effect, or in the middle of one, and in which an effect can raise.
 */
module TenderImport {
  import opened Common
  import opened TenderPipeline
  import opened TenderOutcome

  /** A running invocation that will be killed once `left` more effects have been performed. */
  datatype Process = Process(run: Run, left: nat)

  /** Effects up to position `stop`, as long as the process lives and has not returned. */
  function RunUntil(p: Process, ex: Extractor, stop: nat): Process
    decreases p.left
  {
    if p.run.phase.At? && p.run.phase.pc < stop && p.left > 0
    then RunUntil(Process(Tick(p.run, ex), p.left - 1), ex, stop)
    else p
  }

  lemma {:induction false} RunUntilCompose(p: Process, ex: Extractor, first: nat, second: nat)
    requires first <= second
    ensures RunUntil(RunUntil(p, ex, first), ex, second) == RunUntil(p, ex, second)
    decreases p.left
  {
    if p.run.phase.At? && p.run.phase.pc < first && p.left > 0 {
      RunUntilCompose(Process(Tick(p.run, ex), p.left - 1), ex, first, second);
    }
  }

  /** What a process does is a history of effects, so the results about histories apply to it. */
  lemma {:induction false} ProcessIsAHistory(p: Process, ex: Extractor, stop: nat)
    ensures RunUntil(p, ex, stop).left <= p.left
    ensures RunUntil(p, ex, stop).run == Play(p.run, Ticks(ex, p.left - RunUntil(p, ex, stop).left))
    decreases p.left
  {
    if p.run.phase.At? && p.run.phase.pc < stop && p.left > 0 {
      var next := Process(Tick(p.run, ex), p.left - 1);
      ProcessIsAHistory(next, ex, stop);
      var n := p.left - RunUntil(p, ex, stop).left;
      assert Ticks(ex, n)[1..] == Ticks(ex, n - 1);
    }
  }

  /** So is what it does up to an incident. */
  lemma LifeIsAHistory(p: Process, ex: Extractor, incident: Event) returns (events: seq<Event>)
    requires !incident.Effect?
    ensures OneExtractor(ex, events) && Next(RunUntil(p, ex, PROGRAM_LENGTH).run, incident) == Play(p.run, events)
  {
    var end := RunUntil(p, ex, PROGRAM_LENGTH);
    ProcessIsAHistory(p, ex, PROGRAM_LENGTH);
    var ticks := Ticks(ex, p.left - end.left);
    events := ticks + [incident];
    PlayAppend(p.run, ticks, [incident]);
    assert Play(end.run, [incident]) == Play(Next(end.run, incident), []);
  }

  /** And so is a whole invocation, with its incident and its end. */
  lemma InvocationIsAHistory(r: Run, ex: Extractor, effects: nat, incident: Event, more: nat, torn: bool) returns (events: seq<Event>)
    requires incident.Crash? || incident.Raise?
    ensures OneExtractor(ex, events)
    ensures var first := RunUntil(Process(Next(r, Invoke), effects), ex, PROGRAM_LENGTH).run;
            var rest := RunUntil(Process(Next(first, incident), more), ex, PROGRAM_LENGTH).run;
            Next(rest, Crash(torn)) == Play(r, events)
  {
    var p := Process(Next(r, Invoke), effects);
    var a := LifeIsAHistory(p, ex, incident);
    var b := LifeIsAHistory(Process(Play(p.run, a), more), ex, Crash(torn));
    events := [Invoke] + (a + b);
    PlayCons(r, Invoke, a + b);
    PlayAppend(p.run, a, b);
  }

  /** The stored run and its workspace, with the process that works on them. */
  class ImportRun {
    var marker: Step
    var derived: Derived
    var phase: Phase
    var left: nat

    function Now(): Process
      reads this
    {
      Process(Run(marker, derived, phase), left)
    }

    constructor (uploaded: Derived)
      ensures Now().run == Uploaded(uploaded)
    {
      marker, derived, left, phase := Received, uploaded, 0, Idle(false);
    }

    /** The process is alive: it has not returned, and it is not killed before its next effect. */
    predicate Alive()
      reads this
    {
      phase.At? && left > 0
    }

    /** `_update_step`; a step outside the order ends the invocation (the callers return right after). */
    method UpdateStep(s: Step, next: Phase)
      modifies this
      ensures Now() == if old(Alive()) then Process(Run(s, old(derived), next), old(left) - 1) else old(Now())
    {
      if Alive() {
        marker, phase, left := s, next, left - 1;
      }
    }

    /** Reads the inputs, computes the artefact and writes it; a torn input raises and is recorded. */
    method SaveDerived(a: Artefact, ex: Extractor)
      requires Alive() ==> phase.pc == SaveAt(a)
      modifies this
      ensures Now() == RunUntil(old(Now()), ex, SaveAt(a) + 1)
      ensures Alive() ==> phase.pc == SaveAt(a) + 1
    {
      if Alive() {
        if exists r | r in Reads(a) :: r in derived && derived[r].Torn? {
          UpdateStep(Failed, Idle(false));
        } else {
          derived := derived[a := Whole(ex(a, Inputs(derived, a)))];
          phase, left := if a == ImportReport then Idle(true) else At(SaveAt(a) + 1), left - 1;
        }
      }
    }

    /** Writes the artefacts of one section, in order. */
    method SaveAll(ex: Extractor, artefacts: seq<Artefact>, first: nat, ghost begun: Process)
      requires forall i | 0 <= i < |artefacts| :: SaveAt(artefacts[i]) == first + i
      requires Alive() ==> phase.pc == first
      requires Now() == RunUntil(begun, ex, first)
      modifies this
      ensures Now() == RunUntil(begun, ex, first + |artefacts|)
      ensures Alive() ==> phase.pc == first + |artefacts|
    {
      var i := 0;
      while i < |artefacts|
        invariant i <= |artefacts|
        invariant Now() == RunUntil(begun, ex, first + i)
        invariant Alive() ==> phase.pc == first + i
      {
        SaveDerived(artefacts[i], ex);
        RunUntilCompose(begun, ex, first + i, first + i + 1);
        i := i + 1;
      }
    }

    /** One guarded section of `run_pipeline`: its artefacts, then its step marker; `from` was found stored. */
    method Section(ex: Extractor, resumeIdx: int, s: Step, artefacts: seq<Artefact>, ghost from: Step, ghost begun: Process)
      requires !Terminal(s) && !s.Received? && IsSection(s, artefacts)
      requires !Terminal(from) && resumeIdx == StepIndex(from)
      requires Alive() ==> phase.pc == Max(StartOf(from), StartOf(s))
      requires Now() == RunUntil(begun, ex, StartOf(s))
      modifies this
      ensures Now() == RunUntil(begun, ex, EndOf(s, artefacts))
      ensures Alive() ==> phase.pc == Max(StartOf(from), EndOf(s, artefacts))
    {
      StartsInOrder(from, s);
      if resumeIdx <= StepIndex(s) {
        SaveAll(ex, artefacts, StartOf(s), begun);
        MarkIsOneEffect(Now(), ex, s, EndOf(s, artefacts));
        UpdateStep(s, At(EndOf(s, artefacts)));
      }
      RunUntilCompose(begun, ex, StartOf(s), EndOf(s, artefacts));
      RunUntilCompose(begun, ex, StartOf(s) + |artefacts|, EndOf(s, artefacts));
    }

    /** The gate section: on a failed gate it marks FATAL_BLOCKED and leaves only the import report to write. */
    method GateSection(ex: Extractor, resumeIdx: int, ghost from: Step, ghost begun: Process)
      requires !Terminal(from) && resumeIdx == StepIndex(from)
      requires Alive() ==> phase.pc == Max(StartOf(from), SaveAt(GateReport))
      requires Now() == RunUntil(begun, ex, SaveAt(GateReport))
      modifies this
      ensures Now() == RunUntil(begun, ex, DECIDE_AT + 1)
      ensures Alive() ==> phase.pc == REPORT_AT || phase.pc == Max(StartOf(from), DECIDE_AT + 1)
      ensures Alive() && resumeIdx <= StepIndex(FatalGateChecked) ==>
                (phase.pc == REPORT_AT <==> !ReportPassed(derived)) && (marker.FatalBlocked? <==> !ReportPassed(derived))
    {
      StartsInOrder(from, FatalGateChecked);
      if resumeIdx <= StepIndex(FatalGateChecked) {
        SaveAll(ex, [GateReport], SaveAt(GateReport), begun);
        if GateReport in derived && derived[GateReport].Whole? && derived[GateReport].json.Gate? && derived[GateReport].json.passed {
          UpdateStep(FatalGateChecked, At(DECIDE_AT + 1));
        } else {
          UpdateStep(FatalBlocked, At(REPORT_AT));
        }
      }
      RunUntilCompose(begun, ex, SaveAt(GateReport), DECIDE_AT + 1);
      RunUntilCompose(begun, ex, DECIDE_AT, DECIDE_AT + 1);
    }

    /** The requirements the bid must meet. */
    method RequirementSections(ex: Extractor, resumeIdx: int, ghost from: Step, ghost begun: Process)
      requires !Terminal(from) && resumeIdx == StepIndex(from)
      requires Alive() ==> phase.pc == Max(StartOf(from), StartOf(ScoringExtracted))
      requires Now() == RunUntil(begun, ex, StartOf(ScoringExtracted))
      modifies this
      ensures Now() == RunUntil(begun, ex, StartOf(FormatSignatureExtracted))
      ensures Alive() ==> phase.pc == Max(StartOf(from), StartOf(FormatSignatureExtracted))
    {
      SectionAfterGate(ScoringExtracted, Scoring, TechExtracted);
      Section(ex, resumeIdx, ScoringExtracted, [Scoring], from, begun);
      SectionAfterGate(TechExtracted, Tech, DeviationBuilt);
      Section(ex, resumeIdx, TechExtracted, [Tech], from, begun);
      SectionAfterGate(DeviationBuilt, Deviation, FormatSignatureExtracted);
      Section(ex, resumeIdx, DeviationBuilt, [Deviation], from, begun);
    }

    /** The plan of what to write. */
    method PlanSections(ex: Extractor, resumeIdx: int, ghost from: Step, ghost begun: Process)
      requires !Terminal(from) && resumeIdx == StepIndex(from)
      requires Alive() ==> phase.pc == Max(StartOf(from), StartOf(FormatSignatureExtracted))
      requires Now() == RunUntil(begun, ex, StartOf(FormatSignatureExtracted))
      modifies this
      ensures Now() == RunUntil(begun, ex, SaveAt(Compliance))
      ensures Alive() ==> phase.pc == SaveAt(Compliance)
    {
      SectionAfterGate(FormatSignatureExtracted, Format, BlueprintBuilt);
      Section(ex, resumeIdx, FormatSignatureExtracted, [Format], from, begun);
      SectionAfterGate(BlueprintBuilt, Blueprint, ReadyForWriting);
      Section(ex, resumeIdx, BlueprintBuilt, [Blueprint], from, begun);
      StartsInOrder(from, ReadyForWriting);
    }

    /** The sections up to the gate. */
    method PrepareSections(ex: Extractor, resumeIdx: int, ghost from: Step, ghost begun: Process)
      requires !Terminal(from) && resumeIdx == StepIndex(from)
      requires phase == At(StartOf(from)) && Now() == begun
      modifies this
      ensures Now() == RunUntil(begun, ex, SaveAt(GateReport))
      ensures Alive() ==> phase.pc == Max(StartOf(from), SaveAt(GateReport))
    {
      SectionsBeforeGate();
      ExtractingSectionsBeforeGate();
      Section(ex, resumeIdx, Unpacked, [], from, begun);
      Section(ex, resumeIdx, Validated, [], from, begun);
      Section(ex, resumeIdx, Sectionized, [Sections], from, begun);
      Section(ex, resumeIdx, PrelimExtracted, [Prelim, Personnel, Facts], from, begun);
    }

    /** The compliance check and the final marker. */
    method Finish(ex: Extractor, ghost begun: Process)
      requires Alive() ==> phase.pc == SaveAt(Compliance)
      requires Now() == RunUntil(begun, ex, SaveAt(Compliance))
      modifies this
      ensures Now() == RunUntil(begun, ex, REPORT_AT)
      ensures Alive() ==> phase.pc == REPORT_AT
    {
      SaveAll(ex, [Compliance], SaveAt(Compliance), begun);
      MarkReadyIfBuilt(ex, begun);
    }

    /** READY_FOR_WRITING needs the deviation tables. */
    method MarkReadyIfBuilt(ex: Extractor, ghost begun: Process)
      requires Alive() ==> phase.pc == SaveAt(Compliance) + 1
      requires Now() == RunUntil(begun, ex, SaveAt(Compliance) + 1)
      modifies this
      ensures Now() == RunUntil(begun, ex, REPORT_AT)
      ensures Alive() ==> phase.pc == REPORT_AT
    {
      RunUntilCompose(begun, ex, SaveAt(Compliance) + 1, REPORT_AT);
      if Deviation in derived {
        UpdateStep(ReadyForWriting, At(REPORT_AT));
      } else {
        UpdateStep(Failed, Idle(true));
      }
    }

    /** The whole body of `run_pipeline` for a stored step that is not terminal. */
    method Body(ex: Extractor)
      requires !Terminal(marker) && phase == At(StartOf(marker))
      modifies this
      ensures Now() == RunUntil(old(Now()), ex, PROGRAM_LENGTH)
    {
      var resumeIdx := StepIndex(marker);
      ghost var from, begun := marker, Now();
      PrepareSections(ex, resumeIdx, from, begun);
      GateSection(ex, resumeIdx, from, begun);
      if !(phase == At(REPORT_AT)) {
        RequirementSections(ex, resumeIdx, from, begun);
        PlanSections(ex, resumeIdx, from, begun);
        Finish(ex, begun);
      } else {
        RunUntilCompose(begun, ex, DECIDE_AT + 1, REPORT_AT);
      }
      SaveAll(ex, [ImportReport], REPORT_AT, begun);
    }

    /** An exception: the compliance check logs it, anything else ends the invocation, as FAILED if that can be stored. */
    method Handle(torn: bool, recorded: bool)
      modifies this
      ensures Now() == Process(Raised(old(Now()).run, torn, recorded), old(left))
    {
      if phase.At? {
        derived := Cut(Now().run, torn);
        if phase.pc == SaveAt(Compliance) {
          phase := At(phase.pc + 1);
        } else {
          marker, phase := if recorded then Failed else marker, Idle(false);
        }
      }
    }

    method Die(torn: bool)
      modifies this
      ensures Now() == Process(Next(old(Now()).run, Crash(torn)), old(left))
    {
      if phase.At? {
        derived, phase := Cut(Now().run, torn), Idle(false);
      }
    }

    /**
     `run_pipeline`.  After `effects` effects the process is killed or the effect at hand raises, as
     `incident` says.  Where it goes on from there, it is killed at the latest after `more` effects.
     */
    method RunPipeline(ex: Extractor, effects: nat, incident: Event, more: nat, torn: bool)
      requires phase.Idle? && (incident.Crash? || incident.Raise?)
      modifies this
      ensures var first := RunUntil(Process(Next(old(Now().run), Invoke), effects), ex, PROGRAM_LENGTH).run;
              var rest := RunUntil(Process(Next(first, incident), more), ex, PROGRAM_LENGTH).run;
              Now().run == Next(rest, Crash(torn))
    {
      if marker.FatalBlocked? || marker.Failed? {
        phase := Idle(true);
        return;
      }
      left, phase := effects, At(StartOf(marker));
      Body(ex);
      match incident {
        case Crash(t) => Die(t);
        case Raise(t, recorded) => Handle(t, recorded);
      }
      GoOn(ex, more, torn);
    }

    /** What follows an error that was only logged, until the process is killed. */
    method GoOn(ex: Extractor, more: nat, torn: bool)
      requires phase.At? ==> phase.pc == SaveAt(Compliance) + 1
      modifies this
      ensures Now().run == Next(RunUntil(Process(old(Now().run), more), ex, PROGRAM_LENGTH).run, Crash(torn))
    {
      left := more;
      ghost var begun := Now();
      MarkReadyIfBuilt(ex, begun);
      SaveAll(ex, [ImportReport], REPORT_AT, begun);
      Die(torn);
    }
  }

  /** The effects of a section lie together: its artefacts from `StartOf(s)` on, then its marker. */
  ghost predicate IsSection(s: Step, artefacts: seq<Artefact>)
    requires !Terminal(s)
  {
    && EndOf(s, artefacts) <= PROGRAM_LENGTH
    && (forall i | 0 <= i < |artefacts| :: SaveAt(artefacts[i]) == StartOf(s) + i)
    && OpAt(StartOf(s) + |artefacts|) == Mark(s)
    && (forall t | !Terminal(t) && StepIndex(s) < StepIndex(t) :: EndOf(s, artefacts) <= StartOf(t))
  }

  lemma SectionsBeforeGate()
    ensures IsSection(Unpacked, []) && EndOf(Unpacked, []) == StartOf(Validated)
    ensures IsSection(Validated, []) && EndOf(Validated, []) == StartOf(Sectionized)
  {
  }

  lemma ExtractingSectionsBeforeGate()
    ensures IsSection(Sectionized, [Sections]) && EndOf(Sectionized, [Sections]) == StartOf(PrelimExtracted)
    ensures IsSection(PrelimExtracted, [Prelim, Personnel, Facts])
    ensures EndOf(PrelimExtracted, [Prelim, Personnel, Facts]) == SaveAt(GateReport)
  {
  }

  lemma SectionAfterGate(s: Step, a: Artefact, next: Step)
    requires StepIndex(ScoringExtracted) <= StepIndex(s) && StepIndex(next) == StepIndex(s) + 1
    requires SaveAt(a) == StartOf(s)
    ensures IsSection(s, [a]) && EndOf(s, [a]) == StartOf(next)
  {
  }

  function EndOf(s: Step, artefacts: seq<Artefact>): nat
    requires !Terminal(s)
  {
    StartOf(s) + |artefacts| + 1
  }

  /** Comparing step numbers, as the guards do, compares positions in the program. */
  lemma StartsInOrder(from: Step, s: Step)
    requires !Terminal(from) && !Terminal(s) && !s.Received?
    ensures StartOf(from) <= StartOf(s) <==> StepIndex(from) <= StepIndex(s)
    ensures StartOf(from) <= DECIDE_AT + 1 || DECIDE_AT + 1 < StartOf(from)
  {
  }

  lemma MarkIsOneEffect(p: Process, ex: Extractor, s: Step, stop: nat)
    requires 0 < stop <= PROGRAM_LENGTH && OpAt(stop - 1) == Mark(s)
    requires p.run.phase.At? && p.left > 0 ==> p.run.phase.pc == stop - 1
    ensures RunUntil(p, ex, stop) ==
            if p.run.phase.At? && p.left > 0 then Process(Run(s, p.run.derived, At(stop)), p.left - 1) else p
  {
  }
}
