/**
 What an import leaves behind: with one extractor in force throughout, the files of `app/tender/pipeline.py`
 after any crashes, errors and resumes, against those of one undisturbed run.
 */
module TenderOutcome {
  import opened Common
  import opened TenderPipeline

  /** The document an extractor gives when everything it reads is itself as extracted. */
  function Value(ex: Extractor, a: Artefact): Json
    decreases SaveAt(a), 1
  {
    ex(a, Values(ex, a))
  }

  function Values(ex: Extractor, a: Artefact): (v: seq<Option<Json>>)
    ensures |v| == |Reads(a)| && forall i | 0 <= i < |v| :: v[i] == Some(Value(ex, Reads(a)[i]))
    decreases SaveAt(a), 0
  {
    seq(|Reads(a)|, i requires 0 <= i < |Reads(a)| => ReadsEarlier(a, i); Some(Value(ex, Reads(a)[i])))
  }

  predicate GatePasses(ex: Extractor) {
    Passed(Value(ex, GateReport))
  }

  predicate IsExtracted(ex: Extractor, d: Derived, a: Artefact) {
    a in d && d[a] == Whole(Value(ex, a))
  }

  /** The derived files a run ends with: all of them, or those up to the gate report, replaced. */
  ghost predicate IsOutcome(ex: Extractor, d0: Derived, d: Derived) {
    forall a | a != ImportReport ::
      if GatePasses(ex) || SaveAt(a) < DECIDE_AT then IsExtracted(ex, d, a) else Untouched(d0, d, a)
  }

  /** The compliance check is left out: an error in it is hidden, so the markers say nothing about it. */
  ghost predicate ExtractedBefore(ex: Extractor, d: Derived, pc: nat) {
    forall a {:trigger IsExtracted(ex, d, a)} | SaveAt(a) < pc && a != ImportReport && a != Compliance :: IsExtracted(ex, d, a)
  }

  ghost predicate UntouchedAfterGate(d0: Derived, d: Derived) {
    forall a {:trigger Untouched(d0, d, a)} | SaveAt(a) > DECIDE_AT && a != ImportReport :: Untouched(d0, d, a)
  }

  /** What holds throughout a history whose effects all use the same extractor. */
  ghost predicate Deterministic(ex: Extractor, d0: Derived, r: Run) {
    && Certified(r)
    && (!r.marker.Failed? ==> if r.marker.FatalBlocked? then BlockedOutcome(ex, d0, r) else OnTheWay(ex, d0, r))
  }

  ghost predicate BlockedOutcome(ex: Extractor, d0: Derived, r: Run) {
    !GatePasses(ex) && FilesUpTo(ex, d0, r.derived, DECIDE_AT)
  }

  ghost predicate OnTheWay(ex: Extractor, d0: Derived, r: Run) {
    FilesUpTo(ex, d0, r.derived, Reached(r))
  }

  /** The files before `pc` are as extracted; a gate that does not pass lets nothing behind it be touched. */
  ghost predicate FilesUpTo(ex: Extractor, d0: Derived, d: Derived, pc: nat) {
    && ExtractedBefore(ex, d, pc)
    && (!GatePasses(ex) ==> pc <= DECIDE_AT && UntouchedAfterGate(d0, d))
  }

  /** Deterministic extractors and fixed assets: one extractor is in force at every effect. */
  ghost predicate OneExtractor(ex: Extractor, events: seq<Event>) {
    forall e | e in events :: e.Effect? ==> e.ex == ex
  }

  lemma SaveComputesValue(ex: Extractor, d: Derived, a: Artefact)
    requires ExtractedBefore(ex, d, SaveAt(a))
    ensures !ReadsTorn(d, a) && ex(a, Inputs(d, a)) == Value(ex, a)
  {
    forall i | 0 <= i < |Reads(a)| ensures IsExtracted(ex, d, Reads(a)[i]) && Inputs(d, a)[i] == Values(ex, a)[i] {
      ReadsEarlier(a, i);
    }
    assert Inputs(d, a) == Values(ex, a);
  }

  /** Writing or tearing `x` leaves what lies before `pc`, and what lies behind a gate that fails. */
  lemma ChangeKeepsFiles(ex: Extractor, d0: Derived, d: Derived, x: Artefact, f: File, pc: nat)
    requires FilesUpTo(ex, d0, d, pc)
    requires pc <= SaveAt(x) || x == ImportReport || x == Compliance
    requires GatePasses(ex) || SaveAt(x) < DECIDE_AT || x == ImportReport
    ensures FilesUpTo(ex, d0, d[x := f], pc)
  {
    forall a | SaveAt(a) < pc && a != ImportReport && a != Compliance ensures IsExtracted(ex, d[x := f], a) {
      assert IsExtracted(ex, d, a);
    }
    if !GatePasses(ex) {
      forall a | SaveAt(a) > DECIDE_AT && a != ImportReport ensures Untouched(d0, d[x := f], a) {
        assert Untouched(d0, d, a);
      }
    }
  }

  lemma FilesUpToEarlier(ex: Extractor, d0: Derived, d: Derived, pc: nat, k: nat)
    requires FilesUpTo(ex, d0, d, pc) && k <= pc
    ensures FilesUpTo(ex, d0, d, k)
  {
  }

  /** An artefact that is as extracted, or that does not matter here, moves the limit past its write. */
  lemma FilesUpToLater(ex: Extractor, d0: Derived, d: Derived, x: Artefact)
    requires FilesUpTo(ex, d0, d, SaveAt(x))
    requires IsExtracted(ex, d, x) || x == Compliance
    ensures FilesUpTo(ex, d0, d, SaveAt(x) + 1)
  {
    assert OpAt(SaveAt(x)).Save?;
    forall a | SaveAt(a) < SaveAt(x) + 1 && a != ImportReport && a != Compliance ensures IsExtracted(ex, d, a) {
      if SaveAt(a) == SaveAt(x) {
        SaveAtIsInjective(a, x);
      }
    }
  }

  lemma SaveStep(ex: Extractor, d0: Derived, r: Run)
    requires Deterministic(ex, d0, r) && r.phase.At? && OpAt(r.phase.pc).Save?
    ensures Deterministic(ex, d0, Tick(r, ex)) && Tick(r, ex).marker == r.marker
    ensures Tick(r, ex).phase == if r.phase.pc == REPORT_AT then Idle(true) else At(r.phase.pc + 1)
  {
    var pc, a := r.phase.pc, OpAt(r.phase.pc).artefact;
    SaveKeepsCertified(r, ex);
    SaveIsAt(pc);
    if a != ImportReport {
      SaveComputesValue(ex, r.derived, a);
      assert Tick(r, ex).derived == r.derived[a := Whole(Value(ex, a))];
      ChangeKeepsFiles(ex, d0, r.derived, a, Whole(Value(ex, a)), pc);
      FilesUpToLater(ex, d0, Tick(r, ex).derived, a);
    } else {
      ReportLeavesOthers(ex, d0, r);
    }
  }

  /** Writing the import report ends the invocation and touches nothing else. */
  lemma ReportLeavesOthers(ex: Extractor, d0: Derived, r: Run)
    requires Deterministic(ex, d0, r) && r.phase == At(REPORT_AT)
    ensures Deterministic(ex, d0, Tick(r, ex)) && Tick(r, ex).marker == r.marker && Tick(r, ex).phase == Idle(true)
  {
    SaveKeepsCertified(r, ex);
    var json := ex(ImportReport, Inputs(r.derived, ImportReport));
    assert Tick(r, ex) == Run(r.marker, r.derived[ImportReport := Whole(json)], Idle(true));
    ReportKeepsFiles(ex, d0, r, json);
  }

  lemma ReportKeepsFiles(ex: Extractor, d0: Derived, r: Run, json: Json)
    requires Deterministic(ex, d0, r) && r.phase == At(REPORT_AT)
    ensures FilesUpTo(ex, d0, r.derived[ImportReport := Whole(json)], if r.marker.FatalBlocked? then DECIDE_AT else StartOf(r.marker))
  {
    var limit := if r.marker.FatalBlocked? then DECIDE_AT else StartOf(r.marker);
    FilesUpToEarlier(ex, d0, r.derived, if r.marker.FatalBlocked? then DECIDE_AT else REPORT_AT, limit);
    ChangeKeepsFiles(ex, d0, r.derived, ImportReport, Whole(json), limit);
  }

  lemma TickIsDeterministic(ex: Extractor, d0: Derived, r: Run)
    requires Deterministic(ex, d0, r) && r.phase.At?
    ensures Deterministic(ex, d0, Tick(r, ex)) && !Tick(r, ex).marker.Failed?
    ensures Tick(r, ex).phase == (if r.phase.pc == REPORT_AT then Idle(true)
                                  else if r.phase.pc == DECIDE_AT && !GatePasses(ex) then At(REPORT_AT)
                                  else At(r.phase.pc + 1))
  {
    var pc := r.phase.pc;
    if OpAt(pc).Save? {
      SaveStep(ex, d0, r);
    } else {
      TickKeepsCertified(r, ex);
      NoSaveBetween(pc);
      if OpAt(pc).Mark? {
        MarkMovesForward(pc, r.marker);
      } else if OpAt(pc).Decide? {
        assert IsExtracted(ex, r.derived, GateReport);
      } else {
        assert IsExtracted(ex, r.derived, Deviation);
      }
    }
  }

  lemma CutKeepsFiles(ex: Extractor, d0: Derived, r: Run, torn: bool, k: nat)
    requires r.phase.At? && r.phase.pc < PROGRAM_LENGTH && FilesUpTo(ex, d0, r.derived, k)
    requires k <= r.phase.pc && (GatePasses(ex) || r.phase.pc <= DECIDE_AT || r.phase.pc == REPORT_AT)
    ensures FilesUpTo(ex, d0, Cut(r, torn), k)
  {
    if OpAt(r.phase.pc).Save? {
      SaveIsAt(r.phase.pc);
      ChangeKeepsFiles(ex, d0, r.derived, OpAt(r.phase.pc).artefact, Torn, k);
    }
  }

  /** Killed or raised in mid-effect: what was reached before the marked step stays as extracted. */
  lemma CutIsDeterministic(ex: Extractor, d0: Derived, r: Run, torn: bool, r': Run)
    requires Deterministic(ex, d0, r) && r.phase.At? && Certified(r')
    requires r'.derived == Cut(r, torn) && r'.phase == Idle(false) && r'.marker == r.marker
    ensures Deterministic(ex, d0, r')
  {
    if r.marker.FatalBlocked? {
      CutKeepsFiles(ex, d0, r, torn, DECIDE_AT);
    } else {
      FilesUpToEarlier(ex, d0, r.derived, r.phase.pc, StartOf(r.marker));
      CutKeepsFiles(ex, d0, r, torn, StartOf(r.marker));
    }
  }

  /** An error in the compliance check is only logged, and the invocation goes on behind it. */
  lemma HiddenErrorIsDeterministic(ex: Extractor, d0: Derived, r: Run, torn: bool, recorded: bool)
    requires Deterministic(ex, d0, r) && r.phase == At(SaveAt(Compliance))
    ensures Deterministic(ex, d0, Raised(r, torn, recorded))
  {
    NextKeepsCertified(r, Raise(torn, recorded));
    CutKeepsFiles(ex, d0, r, torn, SaveAt(Compliance));
    FilesUpToLater(ex, d0, Cut(r, torn), Compliance);
  }

  lemma NextIsDeterministic(ex: Extractor, d0: Derived, r: Run, ev: Event)
    requires Deterministic(ex, d0, r) && OneExtractor(ex, [ev])
    ensures Deterministic(ex, d0, Next(r, ev))
  {
    NextKeepsCertified(r, ev);
    assert ev in [ev];
    match ev
    case Effect(_) => if r.phase.At? { TickIsDeterministic(ex, d0, r); }
    case Crash(torn) => if r.phase.At? { CutIsDeterministic(ex, d0, r, torn, Next(r, ev)); }
    case Raise(torn, recorded) =>
      if r.phase == At(SaveAt(Compliance)) {
        HiddenErrorIsDeterministic(ex, d0, r, torn, recorded);
      } else if r.phase.At? && !recorded {
        CutIsDeterministic(ex, d0, r, torn, Next(r, ev));
      }
    case _ =>
  }

  lemma {:induction false} DeterministicThroughout(ex: Extractor, d0: Derived, r: Run, events: seq<Event>)
    requires Deterministic(ex, d0, r) && OneExtractor(ex, events)
    ensures Deterministic(ex, d0, Play(r, events))
    decreases |events|
  {
    if events != [] {
      NextIsDeterministic(ex, d0, r, events[0]);
      DeterministicThroughout(ex, d0, Next(r, events[0]), events[1..]);
    }
  }

  // ------------------------------------------------------- the last compliance write

  /** What became of the compliance write at hand, if that is what `r` is about to do: whole or torn. */
  function ComplianceWrite(r: Run, ev: Event, last: Option<bool>): Option<bool> {
    if r.phase != At(SaveAt(Compliance)) then last
    else if ev.Effect? then Some(true)
    else if (ev.Crash? || ev.Raise?) && ev.torn then Some(false)
    else last
  }

  /** The last compliance write of a history: whole, torn, or `last` if there was none. */
  function LastComplianceWrite(r: Run, events: seq<Event>, last: Option<bool>): Option<bool>
    decreases |events|
  {
    if events == [] then last
    else LastComplianceWrite(Next(r, events[0]), events[1..], ComplianceWrite(r, events[0], last))
  }

  ghost predicate ComplianceIs(ex: Extractor, d0: Derived, d: Derived, last: Option<bool>) {
    match last
    case None => Untouched(d0, d, Compliance)
    case Some(true) => IsExtracted(ex, d, Compliance)
    case Some(false) => Compliance in d && d[Compliance].Torn?
  }

  lemma NextTracksCompliance(ex: Extractor, d0: Derived, r: Run, ev: Event, last: Option<bool>)
    requires Certified(r) && OneExtractor(ex, [ev]) && ComplianceIs(ex, d0, r.derived, last)
    ensures ComplianceIs(ex, d0, Next(r, ev).derived, ComplianceWrite(r, ev, last))
  {
    assert ev in [ev];
    if r.phase.At? && OpAt(r.phase.pc).Save? {
      SaveIsAt(r.phase.pc);
      if r.phase.pc == SaveAt(Compliance) {
        SaveAtIsInjective(OpAt(r.phase.pc).artefact, Compliance);
        assert Inputs(r.derived, Compliance) == [] == Values(ex, Compliance);
      } else {
        assert OpAt(r.phase.pc).artefact != Compliance;
      }
    }
  }

  lemma {:induction false} HistoriesTrackCompliance(ex: Extractor, d0: Derived, r: Run, events: seq<Event>, last: Option<bool>)
    requires Certified(r) && OneExtractor(ex, events) && ComplianceIs(ex, d0, r.derived, last)
    ensures ComplianceIs(ex, d0, Play(r, events).derived, LastComplianceWrite(r, events, last))
    decreases |events|
  {
    if events != [] {
      NextKeepsCertified(r, events[0]);
      NextTracksCompliance(ex, d0, r, events[0], last);
      HistoriesTrackCompliance(ex, d0, Next(r, events[0]), events[1..], ComplianceWrite(r, events[0], last));
    }
  }

  /** No error occurs inside the compliance check. */
  ghost predicate NothingHidden(r: Run, events: seq<Event>)
    decreases |events|
  {
    events == [] ||
    (!(events[0].Raise? && r.phase == At(SaveAt(Compliance))) && NothingHidden(Next(r, events[0]), events[1..]))
  }

  /** Behind the compliance check, and after an invocation that has returned, its write is whole. */
  ghost predicate WrittenBehind(r: Run, last: Option<bool>) {
    && (r.phase.At? && SaveAt(Compliance) < r.phase.pc && !r.marker.FatalBlocked? ==> last == Some(true))
    && (r.phase == Idle(true) && r.marker.ReadyForWriting? ==> last == Some(true))
  }

  lemma NextStaysWritten(r: Run, ev: Event, last: Option<bool>)
    requires Certified(r) && WrittenBehind(r, last) && !(ev.Raise? && r.phase == At(SaveAt(Compliance)))
    ensures WrittenBehind(Next(r, ev), ComplianceWrite(r, ev, last))
  {
    if ev.Effect? && r.phase.At? && OpAt(r.phase.pc).Save? {
      SaveIsAt(r.phase.pc);
    }
  }

  lemma {:induction false} HistoriesStayWritten(r: Run, events: seq<Event>, last: Option<bool>)
    requires Certified(r) && WrittenBehind(r, last) && NothingHidden(r, events)
    ensures WrittenBehind(Play(r, events), LastComplianceWrite(r, events, last))
    decreases |events|
  {
    if events != [] {
      NextKeepsCertified(r, events[0]);
      NextStaysWritten(r, events[0], last);
      HistoriesStayWritten(Next(r, events[0]), events[1..], ComplianceWrite(r, events[0], last));
    }
  }

  // ------------------------------------------------------------- one undisturbed run

  function Ticks(ex: Extractor, n: nat): (events: seq<Event>)
    ensures |events| == n && forall i | 0 <= i < n :: events[i] == Effect(ex)
  {
    seq(n, _ => Effect(ex))
  }

  lemma TicksCons(ex: Extractor, n: nat)
    requires n > 0
    ensures Ticks(ex, n) == [Effect(ex)] + Ticks(ex, n - 1)
  {
  }

  /** One run from the upload on, with nothing going wrong. */
  function Uninterrupted(ex: Extractor, d: Derived): Run {
    Play(Uploaded(d), [Invoke] + Ticks(ex, PROGRAM_LENGTH))
  }

  /** An invocation that has ended well, or is at most `n` effects from its end. */
  predicate Finishes(r: Run, n: nat) {
    !r.marker.Failed? &&
    if r.phase.At? then n >= PROGRAM_LENGTH - r.phase.pc
    else r.phase.finished && (r.marker.FatalBlocked? || r.marker.ReadyForWriting?)
  }

  lemma TickComesCloser(ex: Extractor, d0: Derived, r: Run, n: nat)
    requires Deterministic(ex, d0, r) && Finishes(r, n + 1)
    ensures Deterministic(ex, d0, Tick(r, ex)) && Finishes(Tick(r, ex), n)
  {
    if r.phase.At? {
      TickIsDeterministic(ex, d0, r);
      assert Certified(Tick(r, ex));
    }
  }

  lemma NothingLeftIsIdle(ex: Extractor, d0: Derived, r: Run)
    requires Deterministic(ex, d0, r) && Finishes(r, 0)
    ensures r.phase == Idle(true) && (r.marker.FatalBlocked? || r.marker.ReadyForWriting?)
  {
    assert Certified(r);
  }

  lemma {:induction false} TicksFinish(ex: Extractor, d0: Derived, r: Run, n: nat)
    requires Deterministic(ex, d0, r) && Finishes(r, n)
    ensures var end := Play(r, Ticks(ex, n));
            && Deterministic(ex, d0, end) && end.phase == Idle(true)
            && (end.marker.FatalBlocked? || end.marker.ReadyForWriting?)
    decreases n
  {
    if n == 0 {
      NothingLeftIsIdle(ex, d0, r);
    } else {
      TicksCons(ex, n);
      PlayCons(r, Effect(ex), Ticks(ex, n - 1));
      TickComesCloser(ex, d0, r, n - 1);
      TicksFinish(ex, d0, Tick(r, ex), n - 1);
    }
  }

  lemma {:induction false} OnlyEffectsHideNothing(ex: Extractor, r: Run, events: seq<Event>)
    requires forall e | e in events :: e.Invoke? || e.Crash? || e == Effect(ex)
    ensures OneExtractor(ex, events) && NothingHidden(r, events)
    decreases |events|
  {
    if events != [] {
      assert events[0] in events;
      OnlyEffectsHideNothing(ex, Next(r, events[0]), events[1..]);
    }
  }

  lemma UninterruptedFinishes(ex: Extractor, d: Derived)
    ensures var u := Uninterrupted(ex, d);
            && u.phase == Idle(true) && IsOutcome(ex, d, u.derived)
            && u.marker == if GatePasses(ex) then ReadyForWriting else FatalBlocked
  {
    var started := Next(Uploaded(d), Invoke);
    var events := [Invoke] + Ticks(ex, PROGRAM_LENGTH);
    assert events[1..] == Ticks(ex, PROGRAM_LENGTH);
    TicksFinish(ex, d, started, PROGRAM_LENGTH);
    assert Uninterrupted(ex, d) == Play(started, Ticks(ex, PROGRAM_LENGTH));
    FinalFiles(ex, d, Uninterrupted(ex, d));
    OnlyEffectsHideNothing(ex, Uploaded(d), events);
    HistoriesStayWritten(Uploaded(d), events, None);
    HistoriesTrackCompliance(ex, d, Uploaded(d), events, None);
  }

  /** What each extractor is given when all before it went well. */
  lemma WhatExtractorsSee(ex: Extractor)
    ensures Value(ex, GateReport) == ex(GateReport, [Some(Value(ex, Prelim)), Some(Value(ex, Personnel))])
    ensures Value(ex, Deviation) == ex(Deviation, [Some(Value(ex, Tech))])
    ensures Value(ex, Blueprint) == ex(Blueprint, [Some(Value(ex, Format)), Some(Value(ex, Scoring)), Some(Value(ex, Tech))])
  {
    assert Values(ex, GateReport) == [Some(Value(ex, Prelim)), Some(Value(ex, Personnel))];
    assert Values(ex, Deviation) == [Some(Value(ex, Tech))];
    assert Values(ex, Blueprint) == [Some(Value(ex, Format)), Some(Value(ex, Scoring)), Some(Value(ex, Tech))];
  }

  /** The others read no artefact, only the uploaded text. */
  lemma OthersSeeNoArtefact(ex: Extractor, a: Artefact)
    requires !a.GateReport? && !a.Deviation? && !a.Blueprint?
    ensures Value(ex, a) == ex(a, [])
  {
    assert Values(ex, a) == [];
  }

  predicate BehindTheGate(a: Artefact) {
    a.Scoring? || a.Tech? || a.Deviation? || a.Format? || a.Blueprint? || a.Compliance?
  }

  /** The report's own verdict decides the run, and a refusal leaves everything behind the gate untouched. */
  lemma GateDecidesTheRun(ex: Extractor, d: Derived, passed: bool, reasons: seq<string>)
    requires Value(ex, GateReport) == Gate(passed, reasons)
    ensures Uninterrupted(ex, d).marker == if passed then ReadyForWriting else FatalBlocked
    ensures forall a | !passed && BehindTheGate(a) :: Untouched(d, Uninterrupted(ex, d).derived, a)
  {
    UninterruptedFinishes(ex, d);
  }

  lemma FinalFiles(ex: Extractor, d0: Derived, r: Run)
    requires Deterministic(ex, d0, r)
    ensures r.marker.FatalBlocked? ==> !GatePasses(ex) && IsOutcome(ex, d0, r.derived)
    ensures r.marker.ReadyForWriting? ==> GatePasses(ex) && forall a | a != Compliance && a != ImportReport :: IsExtracted(ex, r.derived, a)
  {
    NoSaveBetween(DECIDE_AT);
  }

  // ------------------------------------------- what crashes, errors and resumes leave

  /**
   Any number of crashes, torn writes, errors and resumes.  A history that ends FATAL_BLOCKED leaves the
   files of one undisturbed run.  One that ends READY_FOR_WRITING leaves them but for the compliance
   check, and leaves that one too exactly when its last write of it went through (or when it never wrote
   it and the upload already held the right text).
   */
  lemma CrashesDoNotChangeTheResult(ex: Extractor, d: Derived, events: seq<Event>)
    requires OneExtractor(ex, events)
    ensures var r, u := Play(Uploaded(d), events), Uninterrupted(ex, d);
            && (r.marker.FatalBlocked? ==> u.marker.FatalBlocked? && r.derived - {ImportReport} == u.derived - {ImportReport})
            && (r.marker.ReadyForWriting? ==>
                  u.marker.ReadyForWriting? && r.derived - {ImportReport, Compliance} == u.derived - {ImportReport, Compliance})
    ensures var r, u := Play(Uploaded(d), events), Uninterrupted(ex, d);
            var last := LastComplianceWrite(Uploaded(d), events, None);
            r.marker.ReadyForWriting? ==>
              (r.derived - {ImportReport} == u.derived - {ImportReport}
               <==> last == Some(true) || (last.None? && IsExtracted(ex, d, Compliance)))
  {
    DeterministicThroughout(ex, d, Uploaded(d), events);
    UninterruptedFinishes(ex, d);
    FinalFiles(ex, d, Play(Uploaded(d), events));
    HistoriesTrackCompliance(ex, d, Uploaded(d), events, None);
    var r, u := Play(Uploaded(d), events), Uninterrupted(ex, d);
    if r.marker.FatalBlocked? {
      SameOutcome(ex, d, r.derived, u.derived);
    } else if r.marker.ReadyForWriting? {
      SameCore(ex, r.derived, u.derived);
      assert IsExtracted(ex, u.derived, Compliance);
      SameIffSameCompliance(r.derived, u.derived);
    }
  }

  /** With no error hidden, a run that ends READY and whose last invocation returned has all files right. */
  lemma ReturnedRunsEndAlike(ex: Extractor, d: Derived, events: seq<Event>)
    requires OneExtractor(ex, events) && NothingHidden(Uploaded(d), events)
    ensures var r, u := Play(Uploaded(d), events), Uninterrupted(ex, d);
            r.marker.ReadyForWriting? && r.phase == Idle(true) ==>
              r.marker == u.marker && r.derived - {ImportReport} == u.derived - {ImportReport}
  {
    CrashesDoNotChangeTheResult(ex, d, events);
    HistoriesStayWritten(Uploaded(d), events, None);
  }

  lemma SameCore(ex: Extractor, x: Derived, y: Derived)
    requires forall a | a != Compliance && a != ImportReport :: IsExtracted(ex, x, a) && IsExtracted(ex, y, a)
    ensures x - {ImportReport, Compliance} == y - {ImportReport, Compliance}
  {
    forall a | a != Compliance && a != ImportReport ensures a in x && a in y && x[a] == y[a] {
      assert IsExtracted(ex, x, a) && IsExtracted(ex, y, a);
    }
  }

  lemma SameIffSameCompliance(x: Derived, y: Derived)
    requires x - {ImportReport, Compliance} == y - {ImportReport, Compliance} && Compliance in y
    ensures x - {ImportReport} == y - {ImportReport} <==> Compliance in x && x[Compliance] == y[Compliance]
  {
    var x', y' := x - {ImportReport}, y - {ImportReport};
    if Compliance in x && x[Compliance] == y[Compliance] {
      forall a ensures (a in x' <==> a in y') && (a in x' ==> x'[a] == y'[a]) {
        assert a != Compliance ==> (a in x' <==> a in x - {ImportReport, Compliance});
        assert a != Compliance ==> (a in y' <==> a in y - {ImportReport, Compliance});
      }
    } else {
      assert Compliance in y' && y'[Compliance] == y[Compliance];
    }
  }

  lemma SameOutcome(ex: Extractor, d0: Derived, x: Derived, y: Derived)
    requires IsOutcome(ex, d0, x) && IsOutcome(ex, d0, y)
    ensures x - {ImportReport} == y - {ImportReport}
  {
    forall a | a != ImportReport ensures (a in x <==> a in y) && (a in x ==> x[a] == y[a]) {
      if !(GatePasses(ex) || SaveAt(a) < DECIDE_AT) {
        assert Untouched(d0, x, a) && Untouched(d0, y, a);
      }
    }
  }

  lemma ResumedReadyRunTears(u: Run)
    requires u.marker.ReadyForWriting? && u.phase.Idle?
    ensures var r := Next(Next(u, Invoke), Crash(true));
            r.marker.ReadyForWriting? && Compliance in r.derived && r.derived[Compliance].Torn?
  {
  }

  lemma TornHistory(ex: Extractor, d: Derived) returns (events: seq<Event>)
    requires GatePasses(ex)
    ensures OneExtractor(ex, events) && NothingHidden(Uploaded(d), events)
    ensures var r := Play(Uploaded(d), events);
            r.marker.ReadyForWriting? && Compliance in r.derived && r.derived[Compliance].Torn?
  {
    var first, more := [Invoke] + Ticks(ex, PROGRAM_LENGTH), [Invoke] + ([Crash(true)] + []);
    var u := Uninterrupted(ex, d);
    events := first + more;
    UninterruptedFinishes(ex, d);
    ResumedReadyRunTears(u);
    PlayAppend(Uploaded(d), first, more);
    PlayCons(u, Invoke, [Crash(true)] + []);
    PlayCons(Next(u, Invoke), Crash(true), []);
    assert forall e | e in events :: e in first || e in more;
    OnlyEffectsHideNothing(ex, Uploaded(d), events);
  }

  /** Resuming a READY run rewrites the compliance check, so a crash can leave it torn under that marker. */
  lemma ReadyRunCanHoldATornComplianceCheck(ex: Extractor, d: Derived)
    requires GatePasses(ex)
    ensures exists events :: OneExtractor(ex, events) && NothingHidden(Uploaded(d), events) &&
              var r := Play(Uploaded(d), events);
              r.marker.ReadyForWriting? && Compliance in r.derived && r.derived[Compliance].Torn?
  {
    var events := TornHistory(ex, d);
  }

  lemma {:induction false} TicksReachTheGate(ex: Extractor, d0: Derived, r: Run, n: nat)
    requires Deterministic(ex, d0, r) && r.phase.At? && r.phase.pc + n <= DECIDE_AT
    ensures var end := Play(r, Ticks(ex, n)); Deterministic(ex, d0, end) && end.phase == At(r.phase.pc + n)
    decreases n
  {
    if n > 0 {
      TicksCons(ex, n);
      PlayCons(r, Effect(ex), Ticks(ex, n - 1));
      TickIsDeterministic(ex, d0, r);
      TicksReachTheGate(ex, d0, Tick(r, ex), n - 1);
    }
  }

  /** A failed gate marks FATAL_BLOCKED with the report still unwritten; an error in writing it then loses the mark. */
  lemma FatalBlockedCanBeLost(ex: Extractor, d: Derived)
    requires !GatePasses(ex)
    ensures var blocked := Play(Uploaded(d), [Invoke] + Ticks(ex, DECIDE_AT + 1));
            && blocked.marker.FatalBlocked? && blocked.phase == At(REPORT_AT)
            && Next(blocked, Raise(false, true)).marker.Failed?
  {
    var started, gate := Next(Uploaded(d), Invoke), Ticks(ex, DECIDE_AT);
    TicksReachTheGate(ex, d, started, DECIDE_AT);
    var deciding := Play(started, gate);
    FailedGateBlocks(ex, d, deciding);
    assert Ticks(ex, DECIDE_AT + 1) == gate + ([Effect(ex)] + []);
    PlayCons(Uploaded(d), Invoke, Ticks(ex, DECIDE_AT + 1));
    PlayAppend(started, gate, [Effect(ex)] + []);
    PlayCons(deciding, Effect(ex), []);
  }

  lemma FailedGateBlocks(ex: Extractor, d0: Derived, r: Run)
    requires !GatePasses(ex) && Deterministic(ex, d0, r) && r.phase == At(DECIDE_AT)
    ensures Tick(r, ex).marker.FatalBlocked? && Tick(r, ex).phase == At(REPORT_AT)
  {
    TickIsDeterministic(ex, d0, r);
    FinalFiles(ex, d0, Tick(r, ex));
  }
}
