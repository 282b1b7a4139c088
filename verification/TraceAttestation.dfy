/** What an accepted trace attests, field by field: identity and containment in its ready
    event, the pinned Skills it prepared, and the Result it submitted. */
module TraceAttestation {
  import opened Prelude
  import opened AdapterEvents
  import opened AdapterContract
  import opened TraceGuarantees

  // ----- identity and containment

  /** The ready event attests the expected configuration and enforced containment. */
  ghost predicate Attests(ready: Event, expectation: Expectation) {
    && ready.containmentEnforced
    && ContainmentProfile in ready.strings && ready.strings[ContainmentProfile] == expectation.containmentProfile
    && ConfigurationFingerprint in ready.strings
    && ready.strings[ConfigurationFingerprint] == expectation.configurationFingerprint
    && NativeSessionId in ready.strings && !IsBlank(ready.strings[NativeSessionId])
  }

  lemma ReadyAttests(ready: Event, expectation: Expectation)
    ensures ValidateReady(ready, expectation).Ok? <==> Attests(ready, expectation) && !IsBlank(expectation.containmentProfile)
    ensures ValidateReady(ready, expectation).Ok? ==> ValidateReady(ready, expectation).value == ready.strings[NativeSessionId]
  {
  }

  /** An accepted trace of any kind opens with a ready event that attests the expected
      fingerprint, the expected profile and enforced containment, and the session that
      is reported. */
  lemma AcceptedTraceIsAttested(kind: Kind, trace: seq<Event>, expectation: Expectation, report: Report)
    requires ValidateTrace(kind, trace, expectation) == Ok(report)
    ensures trace != [] && trace[0].typ == Ready && Attests(trace[0], expectation)
    ensures trace[0].strings[NativeSessionId] == report.nativeSessionId
  {
    ReadyAttests(trace[0], expectation);
  }

  /** Whatever else a trace holds, it is rejected if its ready event does not attest. */
  lemma WithoutAttestationRejected(kind: Kind, trace: seq<Event>, expectation: Expectation)
    requires trace != [] && !Attests(trace[0], expectation)
    ensures ValidateTrace(kind, trace, expectation).Err?
  {
    ReadyAttests(trace[0], expectation);
  }

  /** So no attested field of an accepted trace can be changed. */
  lemma AttestationCannotBeFlipped(kind: Kind, trace: seq<Event>, expectation: Expectation, other: string)
    requires ValidateTrace(kind, trace, expectation).Ok?
    ensures trace != []
    ensures ValidateTrace(kind, trace[0 := trace[0].(containmentEnforced := false)], expectation).Err?
    ensures other != expectation.containmentProfile ==>
      ValidateTrace(kind, trace[0 := trace[0].(strings := trace[0].strings[ContainmentProfile := other])], expectation).Err?
    ensures other != expectation.configurationFingerprint ==>
      ValidateTrace(kind, trace[0 := trace[0].(strings := trace[0].strings[ConfigurationFingerprint := other])], expectation).Err?
    ensures IsBlank(other) ==>
      ValidateTrace(kind, trace[0 := trace[0].(strings := trace[0].strings[NativeSessionId := other])], expectation).Err?
  {
    var ready := trace[0];
    WithoutAttestationRejected(kind, trace[0 := ready.(containmentEnforced := false)], expectation);
    ChangedFieldRejected(kind, trace, expectation, ContainmentProfile, other);
    ChangedFieldRejected(kind, trace, expectation, ConfigurationFingerprint, other);
    ChangedFieldRejected(kind, trace, expectation, NativeSessionId, other);
  }

  lemma ChangedFieldRejected(kind: Kind, trace: seq<Event>, expectation: Expectation, field: Field, other: string)
    requires trace != []
    requires match field
      case ContainmentProfile => true
      case ConfigurationFingerprint => true
      case NativeSessionId => true
      case _ => false
    ensures (match field
             case ContainmentProfile => other != expectation.containmentProfile
             case ConfigurationFingerprint => other != expectation.configurationFingerprint
             case _ => IsBlank(other)) ==>
      ValidateTrace(kind, trace[0 := trace[0].(strings := trace[0].strings[field := other])], expectation).Err?
  {
    var changed := trace[0 := trace[0].(strings := trace[0].strings[field := other])];
    if !Attests(changed[0], expectation) {
      WithoutAttestationRejected(kind, changed, expectation);
    }
  }

  // ----- content identity

  /** A trimmed name without NUL, and "sha256:" before 64 lowercase hexadecimal digits. */
  ghost predicate NamesContent(v: SkillVersion) {
    && |v.name| > 0 && !IsWhitespace(v.name[0]) && !IsWhitespace(v.name[|v.name| - 1])
    && (forall i :: 0 <= i < |v.name| ==> v.name[i] != '\0')
    && exists hex: string :: IsHash(v.contentDigest, hex)
  }

  ghost predicate IsHash(digest: string, hex: string) {
    && digest == "sha256:" + hex && |hex| == 64
    && forall i :: 0 <= i < |hex| ==> hex[i] in "0123456789abcdef"
  }

  lemma HexDigitsAreListed(c: char)
    ensures IsHexDigit(c) <==> c in "0123456789abcdef"
  {
    var digits := "0123456789abcdef";
    if '0' <= c <= '9' {
      assert digits[c as int - '0' as int] == c;
    } else if 'a' <= c <= 'f' {
      assert digits[c as int - 'a' as int + 10] == c;
    }
  }

  lemma ContentIdentityIsExact(v: SkillVersion)
    ensures IsContentIdentified(v) <==> NamesContent(v)
  {
    if IsContentIdentified(v) {
      var hex := v.contentDigest[7..];
      forall i | 0 <= i < |hex| ensures hex[i] in "0123456789abcdef" {
        assert hex[i] == v.contentDigest[i + 7];
        HexDigitsAreListed(hex[i]);
      }
      assert IsHash(v.contentDigest, hex);
    }
    if NamesContent(v) {
      var hex :| IsHash(v.contentDigest, hex);
      forall i | 7 <= i < 71 ensures IsHexDigit(v.contentDigest[i]) {
        assert v.contentDigest[i] == hex[i - 7];
        HexDigitsAreListed(hex[i - 7]);
      }
    }
  }

  // ----- prepared Skills

  /** The preparation states the version, from some source. */
  ghost predicate Prepares(p: Preparation, version: SkillVersion) {
    && p.name == Some(version.name) && p.contentDigest == Some(version.contentDigest)
    && p.source.Some? && !IsBlank(p.source.value)
  }

  ghost predicate PreparedAs(p: Preparation, version: SkillVersion, expectation: Expectation) {
    Prepares(p, version) && version in expectation.allowedSkills && NamesContent(version)
  }

  lemma AcceptedPreparation(p: Preparation, prior: seq<SkillVersion>, expectation: Expectation)
    requires AcceptPreparation(p, prior, expectation).Ok?
    ensures PreparedAs(p, AcceptPreparation(p, prior, expectation).value, expectation)
  {
    ContentIdentityIsExact(AcceptPreparation(p, prior, expectation).value);
  }

  lemma {:induction false} AcceptedPreparations(ps: seq<Preparation>, prior: seq<SkillVersion>, expectation: Expectation)
    returns (added: seq<SkillVersion>)
    requires PreparedVersions(ps, prior, expectation).Ok?
    ensures PreparedVersions(ps, prior, expectation) == Ok(prior + added) && |added| == |ps|
    ensures forall i :: 0 <= i < |ps| ==> PreparedAs(ps[i], added[i], expectation)
    decreases |ps|
  {
    if ps == [] {
      added := [];
      assert prior + added == prior;
    } else {
      var version := AcceptPreparation(ps[0], prior, expectation).value;
      AcceptedPreparation(ps[0], prior, expectation);
      var later := AcceptedPreparations(ps[1..], prior + [version], expectation);
      added := [version] + later;
      AppendIsAssociative(prior, [version], later);
      forall i | 0 <= i < |ps| ensures PreparedAs(ps[i], added[i], expectation) {
        if i > 0 {
          assert ps[i] == ps[1..][i - 1] && added[i] == later[i - 1];
        }
      }
    }
  }

  lemma {:induction false} NativeNamesAreReported(skills: seq<Option<string>>)
    requires NativeSkillNames(skills).Ok?
    ensures var names := NativeSkillNames(skills).value;
      |names| == |skills| && forall i :: 0 <= i < |skills| ==> skills[i] == Some(names[i])
  {
    if skills != [] {
      NativeNamesAreReported(skills[1..]);
    }
  }

  lemma {:induction false} NothingUndiscovered(expected: seq<SkillVersion>, native: seq<string>, i: nat)
    requires FindUndiscovered(expected, native).None? && i < |expected|
    ensures expected[i].name in native
  {
    if i > 0 {
      NothingUndiscovered(expected[1..], native, i - 1);
    }
  }

  lemma ValidSkillParts(trace: seq<Event>, expectation: Expectation, native: seq<string>, versions: seq<SkillVersion>)
    requires trace != [] && ValidateSkills(trace, expectation) == Ok((native, versions))
    ensures trace[0].nativeSkills.Some? && NativeSkillNames(trace[0].nativeSkills.value) == Ok(native)
    ensures FindUndiscovered(expectation.expectedSkills, native).None?
    ensures trace[0].preparations.Some?
    ensures PreparedVersions(trace[0].preparations.value, [], expectation) == Ok(expectation.expectedSkills)
  {
  }

  /** The ready event of an accepted trace prepares exactly the pinned Skills, in order,
      each allowed and identified by its content, and lists the reported native Skills,
      among them every pinned one. */
  lemma AcceptedTracePreparesPinnedSkills(kind: Kind, trace: seq<Event>, expectation: Expectation, report: Report)
    returns (preparations: seq<Preparation>, native: seq<Option<string>>)
    requires ValidateTrace(kind, trace, expectation) == Ok(report)
    ensures trace != [] && trace[0].preparations == Some(preparations) && trace[0].nativeSkills == Some(native)
    ensures |preparations| == |expectation.expectedSkills|
    ensures forall i :: 0 <= i < |preparations| ==>
      && PreparedAs(preparations[i], expectation.expectedSkills[i], expectation)
      && expectation.expectedSkills[i].name in report.nativeSkills
    ensures |native| == |report.nativeSkills|
    ensures forall i :: 0 <= i < |native| ==> native[i] == Some(report.nativeSkills[i])
  {
    var _, _ := AcceptedParts(kind, trace, expectation, report);
    ValidSkillParts(trace, expectation, report.nativeSkills, report.skillVersions);
    preparations, native := trace[0].preparations.value, trace[0].nativeSkills.value;
    var added := AcceptedPreparations(preparations, [], expectation);
    assert [] + added == added;
    NativeNamesAreReported(native);
    forall i | 0 <= i < |preparations| ensures expectation.expectedSkills[i].name in report.nativeSkills {
      NothingUndiscovered(expectation.expectedSkills, report.nativeSkills, i);
    }
  }

  // ----- the Result

  /** Every field of the Result that binds it, spelled out. */
  ghost predicate BindsTo(e: Event, expectation: Expectation) {
    && CommissionId in e.strings && e.strings[CommissionId] == expectation.commissionId
    && AssignmentId in e.strings && e.strings[AssignmentId] == expectation.assignmentId
    && AttemptId in e.strings && e.strings[AttemptId] == expectation.attemptId
    && MandateRevision in e.numbers && e.numbers[MandateRevision] == expectation.mandateRevision
    && PlanRevision in e.numbers && e.numbers[PlanRevision] == expectation.planRevision
  }

  /** Both revisions are 64-bit integers, as the control plane stores them. */
  predicate HasI64Revisions(expectation: Expectation) {
    && -0x8000_0000_0000_0000 <= expectation.mandateRevision < 0x8000_0000_0000_0000
    && -0x8000_0000_0000_0000 <= expectation.planRevision < 0x8000_0000_0000_0000
  }

  /** A Result is valid exactly when it is bound, reports no effects, has a legible
      summary and a cost; both are taken from it. */
  lemma ResultIsValidExactly(e: Event, expectation: Expectation)
    requires HasI64Revisions(expectation)
    ensures ValidateResult(e, expectation).Ok? <==>
      && BindsTo(e, expectation) && e.knownEffects == Some(0)
      && Summary in e.strings && !IsBlank(e.strings[Summary])
      && CostCents in e.numbers && FitsU64(e.numbers[CostCents])
    ensures ValidateResult(e, expectation).Ok? ==>
      ValidateResult(e, expectation).value == Submission(e.strings[Summary], e.numbers[CostCents])
  {
  }

  lemma SummaryIsSubmitted(kind: Kind, events: seq<Event>, submission: Option<Submission>)
    requires ValidateLifecycle(kind, events, submission).Ok?
    ensures ValidateLifecycle(kind, events, submission).value.summary == if submission.Some? then submission.value.summary else ""
  {
    LifecycleNeverSummarizes(kind, FRESH, events);
  }

  /** The Result at this position is the only one, bound, and reported as it is. */
  ghost predicate IsReportedResult(trace: seq<Event>, r: nat, expectation: Expectation, summary: string, costCents: u64) {
    && IsOnlyResult(trace, r) && BindsTo(trace[r], expectation) && trace[r].knownEffects == Some(0)
    && Summary in trace[r].strings && trace[r].strings[Summary] == summary
    && CostCents in trace[r].numbers && trace[r].numbers[CostCents] == costCents
  }

  lemma SubmissionIsTheResult(trace: seq<Event>, expectation: Expectation, submission: Submission) returns (r: nat)
    requires ValidateResults(trace, expectation) == Ok(Some(submission)) && HasI64Revisions(expectation)
    ensures IsReportedResult(trace, r, expectation, submission.summary, submission.costCents)
  {
    r := SingleResultPosition(trace);
    ResultIsValidExactly(trace[r], expectation);
  }

  lemma NoSubmissionNoResult(trace: seq<Event>, expectation: Expectation, i: nat)
    requires ValidateResults(trace, expectation) == Ok(None) && i < |trace|
    ensures trace[i].typ != TypedResult
  {
    NoResultWhenListIsEmpty(trace, i);
  }

  /** Whatever the terminal state: an accepted trace has at most one Result; if it has one,
      it is bound and its summary and cost are reported, otherwise neither is. */
  lemma AcceptedTraceReportsItsResult(kind: Kind, trace: seq<Event>, expectation: Expectation, report: Report)
    returns (result: Option<nat>)
    requires ValidateTrace(kind, trace, expectation) == Ok(report) && HasI64Revisions(expectation)
    ensures result.None? ==>
      (forall i: nat :: i < |trace| ==> trace[i].typ != TypedResult) && report.costCents == 0 && report.summary == ""
    ensures result.Some? ==> IsReportedResult(trace, result.value, expectation, report.summary, report.costCents)
    ensures report.state == Completed ==> result.Some?
  {
    var submission, lifecycle := AcceptedParts(kind, trace, expectation, report);
    SummaryIsSubmitted(kind, VendorEvents(trace), submission);
    if report.state == Completed {
      CompletedNeedsSubmission(kind, VendorEvents(trace), submission);
    }
    if submission.Some? {
      var r := SubmissionIsTheResult(trace, expectation, submission.value);
      result := Some(r);
    } else {
      forall i: nat | i < |trace| ensures trace[i].typ != TypedResult {
        NoSubmissionNoResult(trace, expectation, i);
      }
      result := None;
    }
  }
}
