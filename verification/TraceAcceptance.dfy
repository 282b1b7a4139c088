/** The whole contract as one condition on the trace: exactly which traces of any adapter
    kind are accepted. */
module TraceAcceptance {
  import opened Prelude
  import opened AdapterEvents
  import opened AdapterContract
  import opened TraceGuarantees
  import opened TraceAttestation
  import opened LifecycleMeaning
  import Routing

  // ----- the ready event

  lemma {:induction false} NoReadyMeansZero(trace: seq<Event>)
    requires forall i :: 0 <= i < |trace| ==> trace[i].typ != Ready
    ensures ReadyCount(trace) == 0
  {
    if trace != [] {
      assert trace[0].typ != Ready;
      assert forall i :: 0 <= i < |trace| - 1 ==> trace[1..][i] == trace[i + 1];
      NoReadyMeansZero(trace[1..]);
    }
  }

  lemma BeginsReadyExactly(trace: seq<Event>)
    ensures BeginsReady(trace) <==> trace != [] && trace[0].typ == Ready && ReadyCount(trace) == 1
  {
    if trace != [] && trace[0].typ == Ready {
      var rest := trace[1..];
      if ReadyCount(rest) == 0 {
        forall i: nat | 0 < i < |trace| ensures trace[i].typ != Ready {
          NoReadyWhenCountIsZero(rest, i - 1);
        }
      } else if BeginsReady(trace) {
        assert forall i :: 0 <= i < |rest| ==> rest[i] == trace[i + 1];
        NoReadyMeansZero(rest);
      }
    }
  }

  // ----- prepared Skills

  ghost predicate AllPrepared(ps: seq<Preparation>, versions: seq<SkillVersion>, expectation: Expectation) {
    |ps| == |versions| && forall i :: 0 <= i < |ps| ==> PreparedAs(ps[i], versions[i], expectation)
  }

  ghost predicate NoneTwice(versions: seq<SkillVersion>) {
    forall i, j :: 0 <= i < j < |versions| ==> versions[i] != versions[j]
  }

  lemma ContentIsLegible(v: SkillVersion)
    requires NamesContent(v)
    ensures !IsBlank(v.name) && !IsBlank(v.contentDigest)
  {
    var hex :| IsHash(v.contentDigest, hex);
    assert !IsWhitespace(v.name[0]);
    assert v.contentDigest[0] == 's' && !IsWhitespace(v.contentDigest[0]);
  }

  lemma PreparationExactly(p: Preparation, prior: seq<SkillVersion>, expectation: Expectation, version: SkillVersion)
    ensures AcceptPreparation(p, prior, expectation) == Ok(version) <==>
      PreparedAs(p, version, expectation) && version !in prior
  {
    ContentIdentityIsExact(version);
    if NamesContent(version) {
      ContentIsLegible(version);
    }
    if AcceptPreparation(p, prior, expectation) == Ok(version) {
      assert IsContentIdentified(version);
    }
  }

  lemma {:induction false} PreparationsExactly(ps: seq<Preparation>, prior: seq<SkillVersion>, expectation: Expectation,
                                               versions: seq<SkillVersion>)
    requires NoneTwice(prior)
    ensures PreparedVersions(ps, prior, expectation) == Ok(prior + versions) <==>
      AllPrepared(ps, versions, expectation) && NoneTwice(prior + versions)
    decreases |ps|
  {
    if ps == [] {
      assert prior + versions == prior <==> versions == [] by { assert |prior + versions| == |prior| + |versions|; }
    } else if versions == [] {
      if PreparedVersions(ps, prior, expectation).Ok? {
        var added := AcceptedPreparations(ps, prior, expectation);
        assert |prior + added| == |prior| + |added|;
      }
    } else {
      var v, later := versions[0], versions[1..];
      PreparationExactly(ps[0], prior, expectation, v);
      AppendIsAssociative(prior, [v], later);
      assert versions == [v] + later;
      AllPreparedUnfolds(ps, versions, expectation);
      NoneTwiceAppend(prior, v, later);
      if AcceptPreparation(ps[0], prior, expectation) == Ok(v) {
        NoneTwiceSnoc(prior, v);
        PreparationsExactly(ps[1..], prior + [v], expectation, later);
      } else if PreparedVersions(ps, prior, expectation) == Ok(prior + versions) {
        FirstPrepared(ps, prior, expectation, versions);
      }
    }
  }

  lemma FirstPrepared(ps: seq<Preparation>, prior: seq<SkillVersion>, expectation: Expectation, versions: seq<SkillVersion>)
    requires ps != [] && versions != [] && PreparedVersions(ps, prior, expectation) == Ok(prior + versions)
    ensures AcceptPreparation(ps[0], prior, expectation) == Ok(versions[0])
  {
    var v := AcceptPreparation(ps[0], prior, expectation).value;
    var added := AcceptedPreparations(ps[1..], prior + [v], expectation);
    AppendIsAssociative(prior, [v], added);
    assert prior + versions == prior + ([v] + added);
    assert (prior + versions)[|prior|] == versions[0] && (prior + ([v] + added))[|prior|] == v;
  }

  lemma AllPreparedUnfolds(ps: seq<Preparation>, versions: seq<SkillVersion>, expectation: Expectation)
    requires ps != [] && versions != []
    ensures AllPrepared(ps, versions, expectation) <==>
      PreparedAs(ps[0], versions[0], expectation) && AllPrepared(ps[1..], versions[1..], expectation)
  {
    if PreparedAs(ps[0], versions[0], expectation) && AllPrepared(ps[1..], versions[1..], expectation) {
      forall i | 0 <= i < |ps| ensures PreparedAs(ps[i], versions[i], expectation) {
        if i > 0 {
          assert ps[i] == ps[1..][i - 1] && versions[i] == versions[1..][i - 1];
        }
      }
    }
  }

  lemma NoneTwiceSnoc(prior: seq<SkillVersion>, v: SkillVersion)
    requires NoneTwice(prior) && v !in prior
    ensures NoneTwice(prior + [v])
  {
  }

  lemma NoneTwiceAppend(prior: seq<SkillVersion>, v: SkillVersion, later: seq<SkillVersion>)
    ensures NoneTwice(prior + ([v] + later)) ==> v !in prior
  {
    var all := prior + ([v] + later);
    if v in prior {
      var i :| 0 <= i < |prior| && prior[i] == v;
      assert all[i] == v && all[|prior|] == v;
    }
  }

  // ----- invoked Skills

  /** The version an invocation names. */
  function Named(e: Event): SkillVersion {
    Routing.SkillVersion(if SkillName in e.strings then e.strings[SkillName] else "",
                         if ContentDigest in e.strings then e.strings[ContentDigest] else "")
  }

  /** The invocation names an allowed and discovered version, by its content, from some source. */
  ghost predicate InvokesAllowed(e: Event, native: seq<string>, allowed: seq<SkillVersion>) {
    && SkillName in e.strings && ContentDigest in e.strings && Source in e.strings && !IsBlank(e.strings[Source])
    && NamesContent(Named(e)) && Named(e) in allowed && Named(e).name in native
  }

  ghost predicate InvokedAt(trace: seq<Event>, i: nat) {
    i < |trace| && trace[i].typ == SkillInvoked
  }

  ghost predicate AgreesWith(v: SkillVersion, versions: seq<SkillVersion>) {
    forall w :: w in versions && w.name == v.name ==> w == v
  }

  /** Every invocation is allowed, and no two name different versions of one Skill. */
  ghost predicate InvocationsAreSound(trace: seq<Event>, native: seq<string>, allowed: seq<SkillVersion>) {
    && (forall i: nat :: InvokedAt(trace, i) ==> InvokesAllowed(trace[i], native, allowed))
    && (forall i: nat, j: nat :: InvokedAt(trace, i) && InvokedAt(trace, j) && Named(trace[i]).name == Named(trace[j]).name ==>
          Named(trace[i]) == Named(trace[j]))
  }

  ghost predicate AllAgree(trace: seq<Event>, versions: seq<SkillVersion>) {
    forall i: nat :: InvokedAt(trace, i) ==> AgreesWith(Named(trace[i]), versions)
  }

  lemma InvocationExactly(e: Event, prior: seq<SkillVersion>, native: seq<string>, allowed: seq<SkillVersion>)
    requires UniqueNames(prior)
    ensures var next := AcceptInvocation(e, prior, native, allowed);
      && (next.Ok? <==> InvokesAllowed(e, native, allowed) && AgreesWith(Named(e), prior))
      && (next.Ok? ==> UniqueNames(next.value) && forall v :: v in next.value <==> v in prior || v == Named(e))
  {
    ContentIdentityIsExact(Named(e));
    FindNamedFinds(prior, Named(e).name);
    if NamesContent(Named(e)) {
      ContentIsLegible(Named(e));
    }
    if AcceptInvocation(e, prior, native, allowed).Ok? {
      AcceptedInvocation(e, prior, native, allowed);
    }
  }

  lemma SkipsAhead(trace: seq<Event>)
    requires trace != []
    ensures forall i: nat :: InvokedAt(trace[1..], i) <==> InvokedAt(trace, i + 1)
    ensures forall i: nat :: i < |trace[1..]| ==> trace[1..][i] == trace[i + 1]
  {
  }

  lemma SoundUnfolds(trace: seq<Event>, native: seq<string>, allowed: seq<SkillVersion>)
    requires trace != []
    ensures InvocationsAreSound(trace, native, allowed) <==>
      && InvocationsAreSound(trace[1..], native, allowed)
      && (trace[0].typ == SkillInvoked ==> InvokesAllowed(trace[0], native, allowed) && AllAgree(trace[1..], [Named(trace[0])]))
  {
    SkipsAhead(trace);
    var rest := trace[1..];
    if InvocationsAreSound(trace, native, allowed) {
      SoundRest(trace, native, allowed);
    }
    if InvocationsAreSound(rest, native, allowed)
       && (trace[0].typ == SkillInvoked ==> InvokesAllowed(trace[0], native, allowed) && AllAgree(rest, [Named(trace[0])])) {
      SoundWhole(trace, native, allowed);
    }
  }

  lemma SoundRest(trace: seq<Event>, native: seq<string>, allowed: seq<SkillVersion>)
    requires trace != [] && InvocationsAreSound(trace, native, allowed)
    ensures InvocationsAreSound(trace[1..], native, allowed)
    ensures trace[0].typ == SkillInvoked ==> InvokesAllowed(trace[0], native, allowed) && AllAgree(trace[1..], [Named(trace[0])])
  {
    SkipsAhead(trace);
    var rest := trace[1..];
    forall i: nat | InvokedAt(rest, i) ensures InvokesAllowed(rest[i], native, allowed) {
      assert InvokedAt(trace, i + 1);
    }
    forall i: nat, j: nat | InvokedAt(rest, i) && InvokedAt(rest, j) && Named(rest[i]).name == Named(rest[j]).name
      ensures Named(rest[i]) == Named(rest[j])
    {
      assert InvokedAt(trace, i + 1) && InvokedAt(trace, j + 1);
    }
    if trace[0].typ == SkillInvoked {
      assert InvokedAt(trace, 0);
      forall i: nat | InvokedAt(rest, i) ensures AgreesWith(Named(rest[i]), [Named(trace[0])]) {
        assert InvokedAt(trace, i + 1);
      }
    }
  }

  lemma SoundWhole(trace: seq<Event>, native: seq<string>, allowed: seq<SkillVersion>)
    requires trace != [] && InvocationsAreSound(trace[1..], native, allowed)
    requires trace[0].typ == SkillInvoked ==> InvokesAllowed(trace[0], native, allowed) && AllAgree(trace[1..], [Named(trace[0])])
    ensures InvocationsAreSound(trace, native, allowed)
  {
    SkipsAhead(trace);
    var rest := trace[1..];
    forall i: nat | InvokedAt(trace, i) ensures InvokesAllowed(trace[i], native, allowed) {
      if i > 0 {
        assert InvokedAt(rest, i - 1);
      }
    }
    forall i: nat, j: nat | InvokedAt(trace, i) && InvokedAt(trace, j) && Named(trace[i]).name == Named(trace[j]).name
      ensures Named(trace[i]) == Named(trace[j])
    {
      if i > 0 && j > 0 {
        assert InvokedAt(rest, i - 1) && InvokedAt(rest, j - 1);
      } else if i > 0 {
        assert InvokedAt(rest, i - 1) && AgreesWith(Named(rest[i - 1]), [Named(trace[0])]);
      } else if j > 0 {
        assert InvokedAt(rest, j - 1) && AgreesWith(Named(rest[j - 1]), [Named(trace[0])]);
      }
    }
  }

  lemma AgreeUnfolds(trace: seq<Event>, versions: seq<SkillVersion>)
    requires trace != []
    ensures AllAgree(trace, versions) <==>
      AllAgree(trace[1..], versions) && (trace[0].typ == SkillInvoked ==> AgreesWith(Named(trace[0]), versions))
  {
    SkipsAhead(trace);
    var rest := trace[1..];
    if AllAgree(trace, versions) {
      forall i: nat | InvokedAt(rest, i) ensures AgreesWith(Named(rest[i]), versions) {
        assert InvokedAt(trace, i + 1);
      }
      assert trace[0].typ == SkillInvoked ==> InvokedAt(trace, 0);
    }
    if AllAgree(rest, versions) && (trace[0].typ == SkillInvoked ==> AgreesWith(Named(trace[0]), versions)) {
      forall i: nat | InvokedAt(trace, i) ensures AgreesWith(Named(trace[i]), versions) {
        if i > 0 {
          assert InvokedAt(rest, i - 1);
        }
      }
    }
  }

  lemma AgreeWithMore(trace: seq<Event>, prior: seq<SkillVersion>, v: SkillVersion, next: seq<SkillVersion>)
    requires forall w :: w in next <==> w in prior || w == v
    ensures AllAgree(trace, next) <==> AllAgree(trace, prior) && AllAgree(trace, [v])
  {
    forall i: nat | InvokedAt(trace, i)
      ensures AgreesWith(Named(trace[i]), next) <==> AgreesWith(Named(trace[i]), prior) && AgreesWith(Named(trace[i]), [v])
    {
    }
  }

  lemma {:induction false} InvokedExactly(trace: seq<Event>, prior: seq<SkillVersion>, native: seq<string>, allowed: seq<SkillVersion>)
    requires UniqueNames(prior)
    ensures InvokedFrom(trace, prior, native, allowed).Ok? <==>
      InvocationsAreSound(trace, native, allowed) && AllAgree(trace, prior)
    decreases |trace|
  {
    if trace != [] {
      SoundUnfolds(trace, native, allowed);
      AgreeUnfolds(trace, prior);
      if trace[0].typ != SkillInvoked {
        InvokedExactly(trace[1..], prior, native, allowed);
      } else {
        InvocationExactly(trace[0], prior, native, allowed);
        var next := AcceptInvocation(trace[0], prior, native, allowed);
        if next.Ok? {
          InvokedExactly(trace[1..], next.value, native, allowed);
          AgreeWithMore(trace[1..], prior, Named(trace[0]), next.value);
        }
      }
    }
  }

  ghost predicate IsInvoked(trace: seq<Event>, v: SkillVersion) {
    exists i: nat :: InvokedAt(trace, i) && Named(trace[i]) == v
  }

  lemma InvokedUnfolds(trace: seq<Event>, v: SkillVersion)
    requires trace != []
    ensures IsInvoked(trace, v) <==> IsInvoked(trace[1..], v) || (trace[0].typ == SkillInvoked && Named(trace[0]) == v)
  {
    SkipsAhead(trace);
    if i: nat :| InvokedAt(trace, i) && Named(trace[i]) == v {
      if i > 0 {
        assert InvokedAt(trace[1..], i - 1);
      }
    }
    if i: nat :| InvokedAt(trace[1..], i) && Named(trace[1..][i]) == v {
      assert InvokedAt(trace, i + 1);
    }
    if trace[0].typ == SkillInvoked {
      assert InvokedAt(trace, 0);
    }
  }

  /** The versions gathered are those named by the invocations, and no others. */
  lemma {:induction false} GatheredAreInvoked(trace: seq<Event>, prior: seq<SkillVersion>, native: seq<string>,
                                              allowed: seq<SkillVersion>, v: SkillVersion)
    requires UniqueNames(prior) && InvokedFrom(trace, prior, native, allowed).Ok?
    ensures v in InvokedFrom(trace, prior, native, allowed).value <==> v in prior || IsInvoked(trace, v)
    decreases |trace|
  {
    if trace != [] {
      InvokedUnfolds(trace, v);
      var next := prior;
      if trace[0].typ == SkillInvoked {
        InvocationExactly(trace[0], prior, native, allowed);
        next := AcceptInvocation(trace[0], prior, native, allowed).value;
      }
      GatheredAreInvoked(trace[1..], next, native, allowed, v);
    }
  }

  // ----- Skills as a whole

  ghost predicate AreNames(skills: seq<Option<string>>, names: seq<string>) {
    |skills| == |names| && forall i :: 0 <= i < |skills| ==> skills[i] == Some(names[i])
  }

  lemma {:induction false} NamesExactly(skills: seq<Option<string>>, names: seq<string>)
    ensures NativeSkillNames(skills) == Ok(names) <==> AreNames(skills, names)
  {
    if skills != [] {
      if names != [] {
        NamesExactly(skills[1..], names[1..]);
        assert names == [names[0]] + names[1..];
      }
      if NativeSkillNames(skills) == Ok(names) {
        NativeNamesAreReported(skills);
      }
      if AreNames(skills, names) {
        assert AreNames(skills[1..], names[1..]);
      }
    }
  }

  lemma {:induction false} MissingExactly(expected: seq<SkillVersion>, present: seq<SkillVersion>)
    ensures FindMissing(expected, present).None? <==> forall s :: s in expected ==> s in present
  {
    if expected != [] {
      MissingExactly(expected[1..], present);
      assert expected == [expected[0]] + expected[1..];
    }
  }

  lemma {:induction false} UndiscoveredExactly(expected: seq<SkillVersion>, native: seq<string>)
    ensures FindUndiscovered(expected, native).None? <==> forall s :: s in expected ==> s.name in native
  {
    if expected != [] {
      UndiscoveredExactly(expected[1..], native);
      assert expected == [expected[0]] + expected[1..];
    }
  }

  /** The ready event lists its native Skills and prepares exactly the pinned ones, each
      once and among them; every invocation is sound, and every pinned Skill is invoked. */
  ghost predicate SkillsAreSound(trace: seq<Event>, native: seq<string>, expectation: Expectation)
    requires trace != []
  {
    var expected := expectation.expectedSkills;
    && trace[0].nativeSkills.Some? && AreNames(trace[0].nativeSkills.value, native)
    && trace[0].preparations.Some? && AllPrepared(trace[0].preparations.value, expected, expectation) && NoneTwice(expected)
    && (forall s :: s in expected ==> s.name in native)
    && InvocationsAreSound(trace, native, expectation.allowedSkills)
    && (forall s :: s in expected ==> IsInvoked(trace, s))
  }

  lemma SkillChecks(trace: seq<Event>, expectation: Expectation, native: seq<string>, versions: seq<SkillVersion>)
    requires trace != []
    ensures ValidateSkills(trace, expectation) == Ok((native, versions)) <==>
      && trace[0].nativeSkills.Some? && NativeSkillNames(trace[0].nativeSkills.value) == Ok(native)
      && FindUndiscovered(expectation.expectedSkills, native).None?
      && trace[0].preparations.Some?
      && PreparedVersions(trace[0].preparations.value, [], expectation) == Ok(expectation.expectedSkills)
      && InvokedFrom(trace, [], native, expectation.allowedSkills) == Ok(versions)
      && FindMissing(expectation.expectedSkills, versions).None?
  {
  }

  lemma SkillsExactly(trace: seq<Event>, expectation: Expectation, native: seq<string>)
    requires trace != []
    ensures (exists versions :: ValidateSkills(trace, expectation) == Ok((native, versions))) <==>
      SkillsAreSound(trace, native, expectation)
  {
    var expected, allowed := expectation.expectedSkills, expectation.allowedSkills;
    var invoked := InvokedFrom(trace, [], native, allowed);
    InvokedExactly(trace, [], native, allowed);
    UndiscoveredExactly(expected, native);
    if trace[0].nativeSkills.Some? {
      NamesExactly(trace[0].nativeSkills.value, native);
    }
    if trace[0].preparations.Some? {
      PreparationsExactly(trace[0].preparations.value, [], expectation, expected);
      assert [] + expected == expected;
    }
    if invoked.Ok? {
      SkillChecks(trace, expectation, native, invoked.value);
      MissingExactly(expected, invoked.value);
      forall s ensures s in invoked.value <==> IsInvoked(trace, s) {
        GatheredAreInvoked(trace, [], native, allowed, s);
      }
    }
    if versions :| ValidateSkills(trace, expectation) == Ok((native, versions)) {
      SkillChecks(trace, expectation, native, versions);
    }
  }

  // ----- the Result

  /** There is no Result, or one that is bound, without effects, legible and priced. */
  ghost predicate IsTheResult(trace: seq<Event>, result: Option<nat>, expectation: Expectation) {
    if result.None? then forall i: nat :: i < |trace| ==> trace[i].typ != TypedResult
    else
      var r := result.value;
      && IsOnlyResult(trace, r) && BindsTo(trace[r], expectation) && trace[r].knownEffects == Some(0)
      && Summary in trace[r].strings && !IsBlank(trace[r].strings[Summary])
      && CostCents in trace[r].numbers && FitsU64(trace[r].numbers[CostCents])
  }

  ghost function SubmittedBy(trace: seq<Event>, result: Option<nat>, expectation: Expectation): Option<Submission>
    requires IsTheResult(trace, result, expectation)
  {
    if result.None? then None
    else Some(Submission(trace[result.value].strings[Summary], trace[result.value].numbers[CostCents]))
  }

  lemma {:induction false} NoResultsListed(trace: seq<Event>)
    requires forall i: nat :: i < |trace| ==> trace[i].typ != TypedResult
    ensures TypedResults(trace) == []
  {
    if trace != [] {
      var rest := trace[1..];
      assert forall i: nat :: i < |rest| ==> rest[i] == trace[i + 1];
      NoResultsListed(rest);
    }
  }

  lemma {:induction false} OneResultListed(trace: seq<Event>, r: nat)
    requires IsOnlyResult(trace, r)
    ensures TypedResults(trace) == [trace[r]]
  {
    var rest := trace[1..];
    assert forall i: nat :: i < |rest| ==> rest[i] == trace[i + 1];
    if r == 0 {
      NoResultsListed(rest);
    } else {
      OneResultListed(rest, r - 1);
    }
  }

  lemma ResultsExactly(trace: seq<Event>, expectation: Expectation, result: Option<nat>)
    requires HasI64Revisions(expectation) && IsTheResult(trace, result, expectation)
    ensures ValidateResults(trace, expectation) == Ok(SubmittedBy(trace, result, expectation))
  {
    if result.None? {
      NoResultsListed(trace);
    } else {
      OneResultListed(trace, result.value);
      ResultIsValidExactly(trace[result.value], expectation);
    }
  }

  lemma AcceptedResults(trace: seq<Event>, expectation: Expectation) returns (result: Option<nat>)
    requires HasI64Revisions(expectation) && ValidateResults(trace, expectation).Ok?
    ensures IsTheResult(trace, result, expectation)
  {
    if TypedResults(trace) == [] {
      forall i: nat | i < |trace| ensures trace[i].typ != TypedResult {
        NoResultWhenListIsEmpty(trace, i);
      }
      result := None;
    } else {
      var r := SingleResultPosition(trace);
      ResultIsValidExactly(trace[r], expectation);
      result := Some(r);
    }
  }

  // ----- the whole trace

  /** Everything acceptance asks for, given where the Result, the start and the terminal
      are and which native Skills are listed. */
  ghost predicate MeetsContract(kind: Kind, trace: seq<Event>, expectation: Expectation,
                                native: seq<string>, result: Option<nat>, start: nat, terminal: nat) {
    && BeginsReady(trace) && Attests(trace[0], expectation) && !IsBlank(expectation.containmentProfile)
    && SkillsAreSound(trace, native, expectation)
    && IsTheResult(trace, result, expectation)
    && InOrder(kind, VendorEvents(trace), start, terminal)
    && IsAcceptable(kind, VendorEvents(trace), terminal, SummaryOf(SubmittedBy(trace, result, expectation)))
  }

  lemma TraceChecks(kind: Kind, trace: seq<Event>, expectation: Expectation)
    ensures ValidateTrace(kind, trace, expectation).Ok? <==>
      && trace != [] && trace[0].typ == Ready && ReadyCount(trace) == 1
      && ValidateReady(trace[0], expectation).Ok?
      && ValidateSkills(trace, expectation).Ok?
      && ValidateResults(trace, expectation).Ok?
      && ValidateLifecycle(kind, VendorEvents(trace), ValidateResults(trace, expectation).value).Ok?
  {
  }

  lemma AcceptedMeetsContract(kind: Kind, trace: seq<Event>, expectation: Expectation)
    returns (native: seq<string>, result: Option<nat>, start: nat, terminal: nat)
    requires HasI64Revisions(expectation) && ValidateTrace(kind, trace, expectation).Ok?
    ensures MeetsContract(kind, trace, expectation, native, result, start, terminal)
  {
    TraceChecks(kind, trace, expectation);
    BeginsReadyExactly(trace);
    ReadyAttests(trace[0], expectation);
    native := ValidateSkills(trace, expectation).value.0;
    var versions := ValidateSkills(trace, expectation).value.1;
    assert ValidateSkills(trace, expectation) == Ok((native, versions));
    SkillsExactly(trace, expectation, native);
    result := AcceptedResults(trace, expectation);
    ResultsExactly(trace, expectation, result);
    LifecycleExactly(kind, VendorEvents(trace), SubmittedBy(trace, result, expectation));
    start, terminal :| InOrder(kind, VendorEvents(trace), start, terminal)
      && IsAcceptable(kind, VendorEvents(trace), terminal, SummaryOf(SubmittedBy(trace, result, expectation)));
  }

  lemma ContractIsAccepted(kind: Kind, trace: seq<Event>, expectation: Expectation,
                           native: seq<string>, result: Option<nat>, start: nat, terminal: nat)
    requires HasI64Revisions(expectation) && MeetsContract(kind, trace, expectation, native, result, start, terminal)
    ensures ValidateTrace(kind, trace, expectation).Ok?
  {
    TraceChecks(kind, trace, expectation);
    BeginsReadyExactly(trace);
    ReadyAttests(trace[0], expectation);
    SkillsExactly(trace, expectation, native);
    ResultsExactly(trace, expectation, result);
    LifecycleExactly(kind, VendorEvents(trace), SubmittedBy(trace, result, expectation));
  }

  /** A trace of any kind is accepted exactly when it meets the contract as spelled out. */
  lemma AcceptedExactly(kind: Kind, trace: seq<Event>, expectation: Expectation)
    requires HasI64Revisions(expectation)
    ensures ValidateTrace(kind, trace, expectation).Ok? <==>
      exists native, result, start, terminal :: MeetsContract(kind, trace, expectation, native, result, start, terminal)
  {
    if ValidateTrace(kind, trace, expectation).Ok? {
      var native, result, start, terminal := AcceptedMeetsContract(kind, trace, expectation);
    }
    if native, result, start, terminal :| MeetsContract(kind, trace, expectation, native, result, start, terminal) {
      ContractIsAccepted(kind, trace, expectation, native, result, start, terminal);
    }
  }
}
