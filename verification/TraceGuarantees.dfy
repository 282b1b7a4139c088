/** What acceptance of a trace guarantees, stated on the trace itself. */
module TraceGuarantees {
  import opened Prelude
  import opened AdapterEvents
  import opened AdapterContract
  import opened TraceAssembly

  // ----- positions of vendor events in the whole trace

  ghost function VendorPositions(trace: seq<Event>): (r: seq<nat>)
    ensures forall i :: 0 <= i < |r| ==> r[i] < |trace|
  {
    if trace == [] then []
    else
      var last := |trace| - 1;
      VendorPositions(trace[..last]) + if IsVendor(trace[last]) then [last] else []
  }

  lemma {:induction false} VendorPositionsAscend(trace: seq<Event>, i: nat, j: nat)
    requires i < j < |VendorPositions(trace)|
    ensures VendorPositions(trace)[i] < VendorPositions(trace)[j]
  {
    var last := |trace| - 1;
    if j < |VendorPositions(trace[..last])| {
      VendorPositionsAscend(trace[..last], i, j);
    }
  }

  lemma {:induction false} VendorPositionsCover(trace: seq<Event>, k: nat) returns (m: nat)
    requires k < |trace| && IsVendor(trace[k])
    ensures m < |VendorPositions(trace)| && VendorPositions(trace)[m] == k
  {
    var last := |trace| - 1;
    if k == last {
      m := |VendorPositions(trace)| - 1;
    } else {
      m := VendorPositionsCover(trace[..last], k);
    }
  }

  lemma {:induction false} VendorAppend(a: seq<Event>, b: seq<Event>)
    ensures VendorEvents(a + b) == VendorEvents(a) + VendorEvents(b)
  {
    if a == [] {
      assert a + b == b;
    } else {
      var ab := a + b;
      assert ab[0] == a[0] && ab[1..] == a[1..] + b;
      VendorAppend(a[1..], b);
      AppendIsAssociative(if IsVendor(a[0]) then [a[0]] else [], VendorEvents(a[1..]), VendorEvents(b));
    }
  }

  lemma VendorSnoc(trace: seq<Event>)
    requires trace != []
    ensures var last := |trace| - 1;
      VendorEvents(trace) == VendorEvents(trace[..last]) + if IsVendor(trace[last]) then [trace[last]] else []
  {
    var earlier, e := trace[..|trace| - 1], trace[|trace| - 1];
    VendorAppend(earlier, [e]);
    assert trace == earlier + [e] && [e][1..] == [];
  }

  lemma {:induction false} VendorPositionsMatch(trace: seq<Event>)
    ensures |VendorPositions(trace)| == |VendorEvents(trace)|
    ensures forall i :: 0 <= i < |VendorEvents(trace)| ==> VendorEvents(trace)[i] == trace[VendorPositions(trace)[i]]
  {
    if trace != [] {
      VendorSnoc(trace);
      VendorPositionsMatch(trace[..|trace| - 1]);
    }
  }

  // ----- order

  ghost function PhaseAt(kind: Kind, trace: seq<Event>, i: nat): Phase
    requires i < |trace|
  {
    if IsVendor(trace[i]) then PhaseOf(kind, trace[i]) else NoPhase
  }

  /** The only position of the trace in a phase. */
  ghost predicate IsOnly(kind: Kind, trace: seq<Event>, phase: Phase, at: nat) {
    at < |trace| && forall i: nat :: i < |trace| ==> (PhaseAt(kind, trace, i) == phase <==> i == at)
  }

  /** One start, one terminal, and every usage report strictly between them. */
  ghost predicate IsOrdered(kind: Kind, trace: seq<Event>, start: nat, terminal: nat) {
    && start < terminal
    && IsOnly(kind, trace, Starts, start)
    && IsOnly(kind, trace, Terminates, terminal)
    && (forall i: nat :: i < |trace| && PhaseAt(kind, trace, i) == ReportsUsage ==> start < i < terminal)
  }

  /** A position of the trace in a phase is the image of a vendor position in that phase. */
  lemma PhaseComesFromVendor(kind: Kind, trace: seq<Event>, phase: Phase, i: nat) returns (m: nat)
    requires i < |trace| && PhaseAt(kind, trace, i) == phase && phase != NoPhase
    ensures m in Positions(kind, VendorEvents(trace), phase)
    ensures m < |VendorPositions(trace)| && VendorPositions(trace)[m] == i
  {
    VendorPositionsMatch(trace);
    m := VendorPositionsCover(trace, i);
    assert PhaseOf(kind, VendorEvents(trace)[m]) == phase;
  }

  lemma PhaseIsAtVendorPosition(kind: Kind, trace: seq<Event>, phase: Phase, m: nat)
    requires m in Positions(kind, VendorEvents(trace), phase)
    ensures m < |VendorPositions(trace)|
    ensures PhaseAt(kind, trace, VendorPositions(trace)[m]) == phase
  {
    VendorPositionsMatch(trace);
    assert VendorEvents(trace)[m] == trace[VendorPositions(trace)[m]];
  }

  lemma SinglePhaseOnTrace(kind: Kind, trace: seq<Event>, phase: Phase)
    requires phase != NoPhase && |Positions(kind, VendorEvents(trace), phase)| == 1
    ensures var m := Positions(kind, VendorEvents(trace), phase)[0];
      m < |VendorPositions(trace)| && IsOnly(kind, trace, phase, VendorPositions(trace)[m])
  {
    var found := Positions(kind, VendorEvents(trace), phase);
    assert found[0] in found;
    PhaseIsAtVendorPosition(kind, trace, phase, found[0]);
    forall i: nat | i < |trace| && PhaseAt(kind, trace, i) == phase ensures i == VendorPositions(trace)[found[0]] {
      var m := PhaseComesFromVendor(kind, trace, phase, i);
    }
  }

  lemma UsageIsBetween(kind: Kind, trace: seq<Event>, i: nat, s: nat, t: nat)
    requires i < |trace| && PhaseAt(kind, trace, i) == ReportsUsage
    requires s < |VendorPositions(trace)| && t < |VendorPositions(trace)|
    requires forall u :: u in Positions(kind, VendorEvents(trace), ReportsUsage) ==> s < u < t
    ensures VendorPositions(trace)[s] < i < VendorPositions(trace)[t]
  {
    var m := PhaseComesFromVendor(kind, trace, ReportsUsage, i);
    VendorPositionsAscend(trace, s, m);
    VendorPositionsAscend(trace, m, t);
  }

  lemma OrderHoldsOnTrace(kind: Kind, trace: seq<Event>) returns (start: nat, terminal: nat)
    requires ValidateLifecycleOrder(kind, VendorEvents(trace)).Ok?
    ensures IsOrdered(kind, trace, start, terminal)
  {
    var events, positions := VendorEvents(trace), VendorPositions(trace);
    OrderByPositions(kind, events);
    var s, t := Positions(kind, events, Starts)[0], Positions(kind, events, Terminates)[0];
    SinglePhaseOnTrace(kind, trace, Starts);
    SinglePhaseOnTrace(kind, trace, Terminates);
    VendorPositionsAscend(trace, s, t);
    start, terminal := positions[s], positions[t];
    forall i: nat | i < |trace| && PhaseAt(kind, trace, i) == ReportsUsage ensures start < i < terminal {
      UsageIsBetween(kind, trace, i, s, t);
    }
  }

  // ----- facts about the lifecycle fold

  lemma {:induction false} UsageComesFromAReport(kind: Kind, l: Lifecycle, events: seq<Event>) returns (u: nat)
    requires !l.usageReported
    requires LifecycleFrom(kind, l, events).Ok? && LifecycleFrom(kind, l, events).value.usageReported
    ensures u < |events| && PhaseOf(kind, events[u]) == ReportsUsage
    decreases |events|
  {
    if PhaseOf(kind, events[0]) == ReportsUsage {
      u := 0;
    } else {
      var v := UsageComesFromAReport(kind, LifecycleStep(kind, l, events[0]).value, events[1..]);
      u := v + 1;
    }
  }

  lemma StepNeverSummarizes(kind: Kind, l: Lifecycle, e: Event)
    requires LifecycleStep(kind, l, e).Ok?
    ensures LifecycleStep(kind, l, e).value.summary == l.summary
  {
  }

  lemma {:induction false} LifecycleNeverSummarizes(kind: Kind, l: Lifecycle, events: seq<Event>)
    requires LifecycleFrom(kind, l, events).Ok?
    ensures LifecycleFrom(kind, l, events).value.summary == l.summary
    decreases |events|
  {
    if events != [] {
      StepNeverSummarizes(kind, l, events[0]);
      LifecycleNeverSummarizes(kind, LifecycleStep(kind, l, events[0]).value, events[1..]);
    }
  }

  lemma {:induction false} NoReadyWhenCountIsZero(trace: seq<Event>, i: nat)
    requires ReadyCount(trace) == 0 && i < |trace|
    ensures trace[i].typ != Ready
  {
    if i > 0 {
      NoReadyWhenCountIsZero(trace[1..], i - 1);
    }
  }

  // ----- Results

  /** The only typed Result of the trace. */
  ghost predicate IsOnlyResult(trace: seq<Event>, r: nat) {
    r < |trace| && forall i: nat :: i < |trace| ==> (trace[i].typ == TypedResult <==> i == r)
  }

  lemma {:induction false} NoResultWhenListIsEmpty(trace: seq<Event>, i: nat)
    requires TypedResults(trace) == [] && i < |trace|
    ensures trace[i].typ != TypedResult
  {
    if i > 0 {
      NoResultWhenListIsEmpty(trace[1..], i - 1);
    }
  }

  lemma {:induction false} SingleResultPosition(trace: seq<Event>) returns (r: nat)
    requires |TypedResults(trace)| == 1
    ensures IsOnlyResult(trace, r) && trace[r] == TypedResults(trace)[0]
  {
    if trace[0].typ == TypedResult {
      r := 0;
      forall i: nat | 0 < i < |trace| ensures trace[i].typ != TypedResult {
        NoResultWhenListIsEmpty(trace[1..], i - 1);
      }
    } else {
      var q := SingleResultPosition(trace[1..]);
      r := q + 1;
      assert forall i: nat :: 0 < i < |trace| ==> trace[i] == trace[1..][i - 1];
    }
  }

  // ----- Skills

  ghost predicate UniqueNames(versions: seq<SkillVersion>) {
    forall v, w :: v in versions && w in versions && v.name == w.name ==> v == w
  }

  /** The invocation names an allowed, native, content-identified version that is reported. */
  ghost predicate InvocationIsAccepted(e: Event, native: seq<string>, allowed: seq<SkillVersion>, versions: seq<SkillVersion>) {
    exists v :: v in versions && VersionOf(AsStr(e, SkillName), AsStr(e, ContentDigest), AsStr(e, Source)) == Ok(v)
      && IsContentIdentified(v) && v in allowed && v.name in native
  }

  lemma {:induction false} FindNamedFinds(versions: seq<SkillVersion>, name: string)
    ensures FindNamed(versions, name).Some? <==> exists v :: v in versions && v.name == name
    ensures FindNamed(versions, name).Some? ==>
      FindNamed(versions, name).value in versions && FindNamed(versions, name).value.name == name
  {
    if versions != [] {
      FindNamedFinds(versions[1..], name);
      assert versions == [versions[0]] + versions[1..];
    }
  }

  lemma AcceptedInvocation(e: Event, prior: seq<SkillVersion>, native: seq<string>, allowed: seq<SkillVersion>)
    requires UniqueNames(prior) && AcceptInvocation(e, prior, native, allowed).Ok?
    ensures var next := AcceptInvocation(e, prior, native, allowed).value;
      UniqueNames(next) && prior <= next && InvocationIsAccepted(e, native, allowed, next)
  {
    var v := VersionOf(AsStr(e, SkillName), AsStr(e, ContentDigest), AsStr(e, Source)).value;
    FindNamedFinds(prior, v.name);
    var next := AcceptInvocation(e, prior, native, allowed).value;
    assert v in next;
  }

  lemma {:induction false} InvocationsAreAccepted(trace: seq<Event>, prior: seq<SkillVersion>, native: seq<string>, allowed: seq<SkillVersion>)
    requires UniqueNames(prior) && InvokedFrom(trace, prior, native, allowed).Ok?
    ensures var versions := InvokedFrom(trace, prior, native, allowed).value;
      && UniqueNames(versions) && prior <= versions
      && forall i :: 0 <= i < |trace| && trace[i].typ == SkillInvoked ==> InvocationIsAccepted(trace[i], native, allowed, versions)
  {
    if trace != [] {
      var next := prior;
      if trace[0].typ == SkillInvoked {
        AcceptedInvocation(trace[0], prior, native, allowed);
        next := AcceptInvocation(trace[0], prior, native, allowed).value;
      }
      InvocationsAreAccepted(trace[1..], next, native, allowed);
      var versions := InvokedFrom(trace[1..], next, native, allowed).value;
      assert forall v :: v in next ==> v in versions;
      forall i | 0 <= i < |trace| && trace[i].typ == SkillInvoked
        ensures InvocationIsAccepted(trace[i], native, allowed, versions)
      {
        if i > 0 {
          assert trace[i] == trace[1..][i - 1];
        }
      }
    }
  }

  // ----- the guarantee

  ghost predicate BeginsReady(trace: seq<Event>) {
    trace != [] && forall i :: 0 <= i < |trace| ==> (trace[i].typ == Ready <==> i == 0)
  }

  lemma AcceptedTraceBeginsReady(kind: Kind, trace: seq<Event>, expectation: Expectation)
    requires ValidateTrace(kind, trace, expectation).Ok?
    ensures BeginsReady(trace)
  {
    forall i: nat | 0 < i < |trace| ensures trace[i].typ != Ready {
      NoReadyWhenCountIsZero(trace[1..], i - 1);
    }
  }

  lemma LegalState(kind: Kind, events: seq<Event>, submission: Option<Submission>, lifecycle: Lifecycle)
    requires ValidateLifecycle(kind, events, submission) == Ok(lifecycle)
    ensures lifecycle.state in {Completed, Interrupted, Failed}
    ensures lifecycle.interrupted <==> lifecycle.state == Interrupted
  {
  }

  /** The checks that an accepted trace passed, and where its report comes from. */
  lemma AcceptedParts(kind: Kind, trace: seq<Event>, expectation: Expectation, report: Report)
    returns (submission: Option<Submission>, lifecycle: Lifecycle)
    requires ValidateTrace(kind, trace, expectation) == Ok(report)
    ensures trace != [] && ValidateSkills(trace, expectation) == Ok((report.nativeSkills, report.skillVersions))
    ensures ValidateResults(trace, expectation) == Ok(submission)
    ensures ValidateLifecycle(kind, VendorEvents(trace), submission) == Ok(lifecycle)
    ensures report.state == lifecycle.state && report.interrupted == lifecycle.interrupted
    ensures report.summary == lifecycle.summary
    ensures report.inputTokens == lifecycle.inputTokens && report.outputTokens == lifecycle.outputTokens
    ensures report.costCents == if submission.Some? then submission.value.costCents else 0
  {
    submission := ValidateResults(trace, expectation).value;
    lifecycle := ValidateLifecycle(kind, VendorEvents(trace), submission).value;
  }

  lemma LifecycleIsOrdered(kind: Kind, trace: seq<Event>, submission: Option<Submission>, lifecycle: Lifecycle)
    returns (start: nat, terminal: nat, usage: nat)
    requires ValidateLifecycle(kind, VendorEvents(trace), submission) == Ok(lifecycle)
    ensures IsOrdered(kind, trace, start, terminal)
    ensures start < usage < terminal && PhaseAt(kind, trace, usage) == ReportsUsage
  {
    var u := UsageComesFromAReport(kind, FRESH, VendorEvents(trace));
    PhaseIsAtVendorPosition(kind, trace, ReportsUsage, u);
    usage := VendorPositions(trace)[u];
    start, terminal := OrderHoldsOnTrace(kind, trace);
  }

  /** An accepted trace of any kind starts once, terminates once after it, and
      reports usage at least once and only in between; its interrupted flag agrees
      with its terminal state. */
  lemma AcceptedTraceIsOrdered(kind: Kind, trace: seq<Event>, expectation: Expectation, report: Report)
    returns (start: nat, terminal: nat, usage: nat)
    requires ValidateTrace(kind, trace, expectation) == Ok(report)
    ensures IsOrdered(kind, trace, start, terminal)
    ensures start < usage < terminal && PhaseAt(kind, trace, usage) == ReportsUsage
    ensures report.state in {Completed, Interrupted, Failed}
    ensures report.interrupted <==> report.state == Interrupted
  {
    var submission, lifecycle := AcceptedParts(kind, trace, expectation, report);
    LegalState(kind, VendorEvents(trace), submission, lifecycle);
    start, terminal, usage := LifecycleIsOrdered(kind, trace, submission, lifecycle);
  }

  lemma SubmittedResult(trace: seq<Event>, expectation: Expectation, submission: Submission) returns (r: nat)
    requires ValidateResults(trace, expectation) == Ok(Some(submission))
    ensures IsOnlyResult(trace, r) && IsBound(trace[r], expectation)
    ensures trace[r].knownEffects == Some(0) && AsStr(trace[r], Summary) == Some(submission.summary)
    ensures !IsBlank(submission.summary)
  {
    r := SingleResultPosition(trace);
  }

  lemma CompletedNeedsSubmission(kind: Kind, events: seq<Event>, submission: Option<Submission>)
    requires ValidateLifecycle(kind, events, submission).Ok?
    requires ValidateLifecycle(kind, events, submission).value.state == Completed
    ensures submission.Some? && ValidateLifecycle(kind, events, submission).value.summary == submission.value.summary
  {
    LifecycleNeverSummarizes(kind, FRESH, events);
  }

  /** A completed trace carries exactly one Result, bound to the Commission,
      Assignment, Attempt and revisions it was launched for. */
  lemma CompletedTraceHasOneBoundResult(kind: Kind, trace: seq<Event>, expectation: Expectation, report: Report)
    returns (r: nat)
    requires ValidateTrace(kind, trace, expectation) == Ok(report) && report.state == Completed
    ensures IsOnlyResult(trace, r) && IsBound(trace[r], expectation)
    ensures trace[r].knownEffects == Some(0) && AsStr(trace[r], Summary) == Some(report.summary)
    ensures !IsBlank(report.summary)
  {
    var submission, lifecycle := AcceptedParts(kind, trace, expectation, report);
    CompletedNeedsSubmission(kind, VendorEvents(trace), submission);
    r := SubmittedResult(trace, expectation, submission.value);
  }

  lemma ValidSkillsAreInvoked(trace: seq<Event>, expectation: Expectation, native: seq<string>, versions: seq<SkillVersion>)
    requires trace != [] && ValidateSkills(trace, expectation) == Ok((native, versions))
    ensures InvokedFrom(trace, [], native, expectation.allowedSkills) == Ok(versions)
    ensures FindMissing(expectation.expectedSkills, versions).None?
  {
  }

  /** Every invoked Skill of an accepted trace is allowed, native and reported in
      one version per name, and every pinned Skill was invoked. */
  lemma AcceptedTraceInvokesAllowedSkills(kind: Kind, trace: seq<Event>, expectation: Expectation, report: Report)
    requires ValidateTrace(kind, trace, expectation) == Ok(report)
    ensures UniqueNames(report.skillVersions)
    ensures forall i :: 0 <= i < |trace| && trace[i].typ == SkillInvoked ==>
      InvocationIsAccepted(trace[i], report.nativeSkills, expectation.allowedSkills, report.skillVersions)
    ensures forall s :: s in expectation.expectedSkills ==> s in report.skillVersions
  {
    var _, _ := AcceptedParts(kind, trace, expectation, report);
    ValidSkillsAreInvoked(trace, expectation, report.nativeSkills, report.skillVersions);
    InvocationsAreAccepted(trace, [], report.nativeSkills, expectation.allowedSkills);
    forall s | s in expectation.expectedSkills ensures s in report.skillVersions {
      NothingIsMissing(expectation.expectedSkills, report.skillVersions, s);
    }
  }

  lemma {:induction false} NothingIsMissing(expected: seq<SkillVersion>, present: seq<SkillVersion>, s: SkillVersion)
    requires FindMissing(expected, present).None? && s in expected
    ensures s in present
  {
    if expected[0] != s {
      NothingIsMissing(expected[1..], present, s);
    }
  }
}
