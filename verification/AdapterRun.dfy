/** What every structured adapter wraps around its vendor events: a ready event, the
    invocations of the pinned Skills, and a typed Result. Such a trace is accepted
    exactly when its vendor events and its Result are. */
module AdapterRun {
  import opened Prelude
  import opened AdapterEvents
  import opened AdapterContract
  import opened TraceGuarantees
  import opened TraceAssembly
  import Routing

  datatype PinnedSkill = PinnedSkill(name: string, contentDigest: string, source: string)

  /** What the run was launched with, and the Skills that it found and prepared. */
  datatype Launch = Launch(
    session: string, fingerprint: string, profile: string,
    commissionId: string, assignmentId: string, attemptId: string, mandateRevision: int, planRevision: int,
    native: seq<string>, skills: seq<PinnedSkill>)

  function Version(skill: PinnedSkill): SkillVersion {
    Routing.SkillVersion(skill.name, skill.contentDigest)
  }

  function Versions(skills: seq<PinnedSkill>): (versions: seq<SkillVersion>)
    ensures |versions| == |skills|
    ensures forall i :: 0 <= i < |skills| ==> versions[i] == Version(skills[i])
  {
    if skills == [] then [] else [Version(skills[0])] + Versions(skills[1..])
  }

  function Names(native: seq<string>): seq<Option<string>> {
    if native == [] then [] else [Some(native[0])] + Names(native[1..])
  }

  function Preparations(skills: seq<PinnedSkill>): seq<Preparation> {
    if skills == [] then []
    else [Preparation(Some(skills[0].name), Some(skills[0].contentDigest), Some(skills[0].source))] + Preparations(skills[1..])
  }

  function InvokedEvent(skill: PinnedSkill): Event {
    BARE.(typ := SkillInvoked,
          strings := map[SkillName := skill.name, ContentDigest := skill.contentDigest, Source := skill.source])
  }

  function Invocations(skills: seq<PinnedSkill>): (events: seq<Event>)
    ensures forall e :: e in events ==> e.typ == SkillInvoked
  {
    if skills == [] then [] else [InvokedEvent(skills[0])] + Invocations(skills[1..])
  }

  /** With the containment fields that the runner adds. */
  function ReadyEvent(launch: Launch): Event {
    BARE.(typ := Ready,
          strings := map[NativeSessionId := launch.session, ConfigurationFingerprint := launch.fingerprint,
                         ContainmentProfile := launch.profile],
          containmentEnforced := true,
          nativeSkills := Some(Names(launch.native)), preparations := Some(Preparations(launch.skills)))
  }

  function ResultEvent(launch: Launch, summary: string): Event {
    BARE.(typ := TypedResult,
          strings := map[CommissionId := launch.commissionId, AssignmentId := launch.assignmentId,
                         AttemptId := launch.attemptId, Summary := summary],
          numbers := map[MandateRevision := launch.mandateRevision, PlanRevision := launch.planRevision, CostCents := 0],
          knownEffects := Some(0))
  }

  function Ending(result: Option<Event>): seq<Event> {
    if result.Some? then [result.value] else []
  }

  function Opening(launch: Launch): seq<Event> {
    [ReadyEvent(launch)] + Invocations(launch.skills)
  }

  function Trace(launch: Launch, vendor: seq<Event>, result: Option<Event>): seq<Event> {
    Opening(launch) + vendor + Ending(result)
  }

  ghost predicate SkillIsUsable(skill: PinnedSkill, native: seq<string>, allowed: seq<SkillVersion>) {
    IsContentIdentified(Version(skill)) && Version(skill) in allowed && skill.name in native && !IsBlank(skill.source)
  }

  ghost predicate SkillsAreUsable(skills: seq<PinnedSkill>, native: seq<string>, allowed: seq<SkillVersion>) {
    && (forall i :: 0 <= i < |skills| ==> SkillIsUsable(skills[i], native, allowed))
    && (forall i, j :: 0 <= i < j < |skills| ==> skills[i].name != skills[j].name)
  }

  /** The expectation is the one the run was launched for, with its pinned Skills
      found in the Worker's inventory. */
  ghost predicate LaunchedFor(launch: Launch, expectation: Expectation) {
    && !IsBlank(launch.session) && !IsBlank(launch.profile)
    && expectation == Expectation(launch.profile, Versions(launch.skills), expectation.allowedSkills, launch.commissionId,
                                  launch.assignmentId, launch.attemptId, launch.fingerprint,
                                  launch.mandateRevision, launch.planRevision)
    && -0x8000_0000_0000_0000 <= launch.mandateRevision < 0x8000_0000_0000_0000
    && -0x8000_0000_0000_0000 <= launch.planRevision < 0x8000_0000_0000_0000
    && SkillsAreUsable(launch.skills, launch.native, expectation.allowedSkills)
  }

  // ----- Skills

  lemma {:induction false} NamesAreStrings(native: seq<string>)
    ensures NativeSkillNames(Names(native)) == Ok(native)
  {
    if native != [] {
      NamesAreStrings(native[1..]);
      assert Names(native)[1..] == Names(native[1..]);
      assert native == [native[0]] + native[1..];
    }
  }

  lemma IdentifiedIsLegible(version: SkillVersion)
    requires IsContentIdentified(version)
    ensures !IsBlank(version.name) && !IsBlank(version.contentDigest)
  {
    assert !IsWhitespace(version.name[0]);
    assert version.contentDigest[0] == "sha256:"[0] == 's';
  }

  ghost predicate NoneNamed(prior: seq<SkillVersion>, skills: seq<PinnedSkill>) {
    forall v, i :: v in prior && 0 <= i < |skills| ==> v.name != skills[i].name
  }

  lemma NoneNamedNext(prior: seq<SkillVersion>, skills: seq<PinnedSkill>)
    requires skills != [] && NoneNamed(prior, skills)
    requires forall i, j :: 0 <= i < j < |skills| ==> skills[i].name != skills[j].name
    ensures NoneNamed(prior + [Version(skills[0])], skills[1..])
  {
    var later := skills[1..];
    forall v, i | v in prior + [Version(skills[0])] && 0 <= i < |later| ensures v.name != later[i].name {
      assert later[i] == skills[i + 1];
    }
  }

  lemma {:induction false} AllArePrepared(skills: seq<PinnedSkill>, prior: seq<SkillVersion>, native: seq<string>, expectation: Expectation)
    requires SkillsAreUsable(skills, native, expectation.allowedSkills) && NoneNamed(prior, skills)
    ensures PreparedVersions(Preparations(skills), prior, expectation) == Ok(prior + Versions(skills))
    decreases |skills|
  {
    if skills == [] {
      assert prior + Versions(skills) == prior;
    } else {
      var first, later := Version(skills[0]), skills[1..];
      assert SkillIsUsable(skills[0], native, expectation.allowedSkills);
      IdentifiedIsLegible(first);
      assert AcceptPreparation(Preparations(skills)[0], prior, expectation) == Ok(first);
      assert Preparations(skills)[1..] == Preparations(later);
      NoneNamedNext(prior, skills);
      assert forall i :: 0 <= i < |later| ==> later[i] == skills[i + 1];
      AllArePrepared(later, prior + [first], native, expectation);
      AppendIsAssociative(prior, [first], Versions(later));
    }
  }

  lemma {:induction false} NotNamed(prior: seq<SkillVersion>, name: string)
    requires forall v :: v in prior ==> v.name != name
    ensures FindNamed(prior, name) == None
  {
    if prior != [] {
      assert prior[0] in prior;
      NotNamed(prior[1..], name);
    }
  }

  lemma OneIsInvoked(skill: PinnedSkill, prior: seq<SkillVersion>, native: seq<string>, allowed: seq<SkillVersion>)
    requires SkillIsUsable(skill, native, allowed) && forall v :: v in prior ==> v.name != skill.name
    ensures AcceptInvocation(InvokedEvent(skill), prior, native, allowed) == Ok(prior + [Version(skill)])
  {
    IdentifiedIsLegible(Version(skill));
    NotNamed(prior, skill.name);
  }

  lemma {:induction false} AllAreInvoked(skills: seq<PinnedSkill>, prior: seq<SkillVersion>, native: seq<string>, allowed: seq<SkillVersion>)
    requires SkillsAreUsable(skills, native, allowed) && NoneNamed(prior, skills)
    ensures InvokedFrom(Invocations(skills), prior, native, allowed) == Ok(prior + Versions(skills))
    decreases |skills|
  {
    if skills == [] {
      assert prior + Versions(skills) == prior;
    } else {
      var first, later := Version(skills[0]), skills[1..];
      assert SkillIsUsable(skills[0], native, allowed);
      OneIsInvoked(skills[0], prior, native, allowed);
      assert Invocations(skills)[1..] == Invocations(later);
      NoneNamedNext(prior, skills);
      assert forall i :: 0 <= i < |later| ==> later[i] == skills[i + 1];
      AllAreInvoked(later, prior + [first], native, allowed);
      AppendIsAssociative(prior, [first], Versions(later));
    }
  }

  lemma {:induction false} NoneMissing(expected: seq<SkillVersion>, present: seq<SkillVersion>)
    requires forall v :: v in expected ==> v in present
    ensures FindMissing(expected, present) == None
  {
    if expected != [] {
      assert expected[0] in expected;
      NoneMissing(expected[1..], present);
    }
  }

  lemma {:induction false} AllDiscovered(expected: seq<SkillVersion>, native: seq<string>)
    requires forall v :: v in expected ==> v.name in native
    ensures FindUndiscovered(expected, native) == None
  {
    if expected != [] {
      assert expected[0] in expected;
      AllDiscovered(expected[1..], native);
    }
  }

  lemma SkipsReady(first: Event, rest: seq<Event>, native: seq<string>, allowed: seq<SkillVersion>)
    requires first.typ == Ready
    ensures InvokedFrom([first] + rest, [], native, allowed) == InvokedFrom(rest, [], native, allowed)
  {
    assert ([first] + rest)[1..] == rest;
  }

  lemma OpeningInvokes(launch: Launch, allowed: seq<SkillVersion>)
    requires SkillsAreUsable(launch.skills, launch.native, allowed)
    ensures InvokedFrom(Opening(launch), [], launch.native, allowed) == Ok(Versions(launch.skills))
  {
    SkipsReady(ReadyEvent(launch), Invocations(launch.skills), launch.native, allowed);
    AllAreInvoked(launch.skills, [], launch.native, allowed);
    assert [] + Versions(launch.skills) == Versions(launch.skills);
  }

  lemma RestInvokesNothing(vendor: seq<Event>, result: Option<Event>, e: Event)
    requires (forall v :: v in vendor ==> IsVendor(v)) && (result.Some? ==> result.value.typ == TypedResult)
    requires e in vendor + Ending(result)
    ensures e.typ != SkillInvoked
  {
    assert e in vendor || e in Ending(result);
  }

  lemma TraceInvokes(launch: Launch, vendor: seq<Event>, result: Option<Event>, allowed: seq<SkillVersion>)
    requires SkillsAreUsable(launch.skills, launch.native, allowed) && forall e :: e in vendor ==> IsVendor(e)
    requires result.Some? ==> result.value.typ == TypedResult
    ensures InvokedFrom(Trace(launch, vendor, result), [], launch.native, allowed) == Ok(Versions(launch.skills))
  {
    var rest := vendor + Ending(result);
    OpeningInvokes(launch, allowed);
    forall e | e in rest ensures e.typ != SkillInvoked {
      RestInvokesNothing(vendor, result, e);
    }
    NothingInvoked(rest, Versions(launch.skills), launch.native, allowed);
    InvokedAppend(Opening(launch), rest, [], launch.native, allowed);
    AppendIsAssociative(Opening(launch), vendor, Ending(result));
  }

  lemma SkillsAreDiscovered(launch: Launch, allowed: seq<SkillVersion>)
    requires SkillsAreUsable(launch.skills, launch.native, allowed)
    ensures FindUndiscovered(Versions(launch.skills), launch.native) == None
  {
    var versions := Versions(launch.skills);
    forall v | v in versions ensures v.name in launch.native {
      var i :| 0 <= i < |versions| && versions[i] == v;
      assert SkillIsUsable(launch.skills[i], launch.native, allowed);
    }
    AllDiscovered(versions, launch.native);
  }

  lemma SkillsArePrepared(launch: Launch, expectation: Expectation)
    requires SkillsAreUsable(launch.skills, launch.native, expectation.allowedSkills)
    ensures PreparedVersions(Preparations(launch.skills), [], expectation) == Ok(Versions(launch.skills))
  {
    AllArePrepared(launch.skills, [], launch.native, expectation);
    assert [] + Versions(launch.skills) == Versions(launch.skills);
  }

  /** A trace that opens ready and invokes the pinned Skills passes the Skill checks. */
  lemma SkillsAreValid(trace: seq<Event>, launch: Launch, expectation: Expectation)
    requires LaunchedFor(launch, expectation) && trace != [] && trace[0] == ReadyEvent(launch)
    requires InvokedFrom(trace, [], launch.native, expectation.allowedSkills) == Ok(Versions(launch.skills))
    ensures ValidateSkills(trace, expectation) == Ok((launch.native, Versions(launch.skills)))
  {
    NamesAreStrings(launch.native);
    SkillsAreDiscovered(launch, expectation.allowedSkills);
    SkillsArePrepared(launch, expectation);
    NoneMissing(Versions(launch.skills), Versions(launch.skills));
  }

  // ----- the shape of a trace

  lemma {:induction false} InvocationsCount(skills: seq<PinnedSkill>)
    ensures ReadyCount(Invocations(skills)) == 0 && TypedResults(Invocations(skills)) == []
    ensures VendorEvents(Invocations(skills)) == []
  {
    if skills != [] {
      assert Invocations(skills)[1..] == Invocations(skills[1..]);
      InvocationsCount(skills[1..]);
    }
  }

  lemma OpeningCounts(launch: Launch)
    ensures ReadyCount(Opening(launch)) == 1 && TypedResults(Opening(launch)) == [] && VendorEvents(Opening(launch)) == []
  {
    var first, invocations := [ReadyEvent(launch)], Invocations(launch.skills);
    SingletonCounts(ReadyEvent(launch));
    InvocationsCount(launch.skills);
    ReadyCountAppend(first, invocations);
    TypedResultsAppend(first, invocations);
    VendorAppend(first, invocations);
  }

  lemma EndingCounts(result: Option<Event>)
    requires result.Some? ==> result.value.typ == TypedResult
    ensures ReadyCount(Ending(result)) == 0 && TypedResults(Ending(result)) == Ending(result) && VendorEvents(Ending(result)) == []
  {
    if result.Some? {
      SingletonCounts(result.value);
    }
  }

  lemma TraceCounts(launch: Launch, vendor: seq<Event>, result: Option<Event>)
    requires (forall e :: e in vendor ==> IsVendor(e)) && (result.Some? ==> result.value.typ == TypedResult)
    ensures var trace := Trace(launch, vendor, result);
      ReadyCount(trace) == 1 && TypedResults(trace) == Ending(result) && VendorEvents(trace) == vendor
  {
    var opening, ending := Opening(launch), Ending(result);
    var before := opening + vendor;
    OpeningCounts(launch);
    VendorHasNoSharedEvents(vendor);
    AllVendor(vendor);
    EndingCounts(result);
    ReadyCountAppend(opening, vendor);
    TypedResultsAppend(opening, vendor);
    VendorAppend(opening, vendor);
    ReadyCountAppend(before, ending);
    TypedResultsAppend(before, ending);
    VendorAppend(before, ending);
    assert [] + ending == ending && [] + vendor == vendor && vendor + [] == vendor;
  }

  // ----- judgement

  /** The Result, if there is one, is valid. */
  ghost predicate ResultIsValid(result: Option<Event>, expectation: Expectation) {
    result.Some? ==> result.value.typ == TypedResult && ValidateResult(result.value, expectation).Ok?
  }

  ghost function SubmissionOf(result: Option<Event>, expectation: Expectation): Option<Submission>
    requires ResultIsValid(result, expectation)
  {
    if result.Some? then Some(ValidateResult(result.value, expectation).value) else None
  }

  /** The report repeats the lifecycle and names the pinned Skills. */
  ghost predicate Reports(report: Report, l: Lifecycle, launch: Launch) {
    && report.nativeSessionId == launch.session && report.skillVersions == Versions(launch.skills)
    && report.state == l.state && report.interrupted == l.interrupted && report.summary == l.summary
    && report.inputTokens == l.inputTokens && report.outputTokens == l.outputTokens
  }

  lemma ReadyIsValid(launch: Launch, expectation: Expectation)
    requires LaunchedFor(launch, expectation)
    ensures ValidateReady(ReadyEvent(launch), expectation) == Ok(launch.session)
  {
  }

  lemma ResultsAreJudged(trace: seq<Event>, result: Option<Event>, expectation: Expectation)
    requires TypedResults(trace) == Ending(result) && (result.Some? ==> result.value.typ == TypedResult)
    ensures ValidateResults(trace, expectation).Ok? <==> ResultIsValid(result, expectation)
    ensures ResultIsValid(result, expectation) ==> ValidateResults(trace, expectation) == Ok(SubmissionOf(result, expectation))
  {
  }

  /** The judgement on a trace whose parts are known. */
  lemma PartsAreJudged(kind: Kind, trace: seq<Event>, launch: Launch, vendor: seq<Event>, result: Option<Event>, expectation: Expectation)
    requires trace != [] && trace[0].typ == Ready && ReadyCount(trace) == 1
    requires ValidateReady(trace[0], expectation) == Ok(launch.session)
    requires ValidateSkills(trace, expectation) == Ok((launch.native, Versions(launch.skills)))
    requires ValidateResults(trace, expectation).Ok? <==> ResultIsValid(result, expectation)
    requires ResultIsValid(result, expectation) ==> ValidateResults(trace, expectation) == Ok(SubmissionOf(result, expectation))
    requires VendorEvents(trace) == vendor
    ensures var r := ValidateTrace(kind, trace, expectation);
      && (r.Ok? <==> ResultIsValid(result, expectation)
                     && ValidateLifecycle(kind, vendor, SubmissionOf(result, expectation)).Ok?)
      && (r.Ok? ==> Reports(r.value, ValidateLifecycle(kind, vendor, SubmissionOf(result, expectation)).value, launch))
  {
  }

  /** Whatever the adapter kind, the trace of a properly launched run is accepted
      exactly when its Result is valid and its vendor events are a valid lifecycle;
      the report is then that of the lifecycle. */
  lemma TraceIsAcceptedExactly(kind: Kind, launch: Launch, vendor: seq<Event>, result: Option<Event>, expectation: Expectation)
    requires LaunchedFor(launch, expectation) && forall e :: e in vendor ==> IsVendor(e)
    requires result.Some? ==> result.value.typ == TypedResult
    ensures var r := ValidateTrace(kind, Trace(launch, vendor, result), expectation);
      && (r.Ok? <==> ResultIsValid(result, expectation)
                     && ValidateLifecycle(kind, vendor, SubmissionOf(result, expectation)).Ok?)
      && (r.Ok? ==> Reports(r.value, ValidateLifecycle(kind, vendor, SubmissionOf(result, expectation)).value, launch))
  {
    var trace := Trace(launch, vendor, result);
    assert trace[0] == ReadyEvent(launch);
    TraceCounts(launch, vendor, result);
    ReadyIsValid(launch, expectation);
    TraceInvokes(launch, vendor, result, expectation.allowedSkills);
    SkillsAreValid(trace, launch, expectation);
    ResultsAreJudged(trace, result, expectation);
    PartsAreJudged(kind, trace, launch, vendor, result, expectation);
  }

  /** The Result an adapter builds is valid exactly when its summary is legible. */
  lemma OwnResultIsValid(launch: Launch, summary: string, expectation: Expectation)
    requires LaunchedFor(launch, expectation)
    ensures ValidateResult(ResultEvent(launch, summary), expectation) ==
      if IsBlank(summary) then Err(InvalidRequest) else Ok(Submission(summary, 0))
  {
    var e := ResultEvent(launch, summary);
    assert IsBound(e, expectation);
    assert AsStr(e, Summary) == Some(summary) && AsU64(e, CostCents) == Some(0);
  }
}
