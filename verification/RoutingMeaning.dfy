/** What the tests of Worker routing mean, field by field: when a configuration meets a
    request, when it can run, which of two ranks above the other, and when one may
    stand in for another. */
module RoutingMeaning {
  import opened Prelude
  import opened Routing

  // ----- meeting a request

  ghost function Elements<T>(s: seq<T>): set<T> {
    set x | x in s
  }

  /** Two Skills of one name have one version. */
  ghost predicate SameVersionIfNamed(a: SkillVersion, b: SkillVersion) {
    a.name == b.name ==> a == b
  }

  /** The Skills the Worker would be given for the request. */
  ghost function SkillsInPlay(c: Configuration, r: Request): set<SkillVersion> {
    Elements(r.skills) + Elements(r.selectedSkills) + Elements(c.selectedSkills)
  }

  ghost predicate SuppliesSkills(c: Configuration, r: Request) {
    && Elements(r.skills) + Elements(r.selectedSkills) <= Elements(c.skills)
    && (forall own, asked :: own in c.selectedSkills && (asked in r.skills || asked in r.selectedSkills) ==>
          SameVersionIfNamed(own, asked))
  }

  /** Pi takes part only when qualified, and with Skills of one name. */
  ghost predicate SuitsPi(c: Configuration, r: Request) {
    && c.productionQualified
    && forall a, b :: a in SkillsInPlay(c, r) && b in SkillsInPlay(c, r) ==> a.name == b.name
  }

  ghost predicate SuppliesLimits(c: Configuration, r: Request) {
    && r.minContextTokens <= c.capacityTokens
    && r.concurrencySlots <= c.maxConcurrencySlots
    && r.maxStorageBytes <= c.maxStorageBytes
  }

  /** Everything a configuration has to supply, field by field. */
  ghost predicate MeetsRequest(c: Configuration, r: Request) {
    && (r.requireConfigurations == [] || c.id in r.requireConfigurations)
    && c.id !in r.excludeConfigurations
    && Elements(r.capabilities) <= Elements(c.capabilities)
    && Elements(r.tools) <= Elements(c.tools)
    && SuppliesSkills(c, r)
    && (c.kind == PiRpc ==> SuitsPi(c, r))
    && SuppliesLimits(c, r)
    && (r.contextStrategy == None || r.contextStrategy == Some(c.contextStrategy))
    && Elements(r.assignmentConstraints) <= Elements(c.assignmentConstraints)
    && r.authorityAction in c.authorityActions
    && Elements(r.authorityScopeTypes) <= Elements(c.authorityScopeTypes)
  }

  lemma SingletonOrEmpty(names: set<string>)
    ensures |names| <= 1 <==> forall a, b :: a in names && b in names ==> a == b
  {
    if |names| <= 1 {
      forall a, b | a in names && b in names ensures a == b {
        if a != b {
          assert {a, b} <= names && |{a, b}| == 2;
          SmallerSet({a, b}, names);
        }
      }
    } else {
      var a :| a in names;
      assert |names - {a}| >= 1;
      var b :| b in names - {a};
      assert a in names && b in names && a != b;
    }
  }

  lemma SmallerSet(a: set<string>, b: set<string>)
    requires a <= b
    ensures |a| <= |b|
  {
    assert b == a + (b - a);
  }

  lemma NameIsListed(skills: seq<SkillVersion>, name: string)
    ensures name in SkillNames(skills) <==> exists s :: s in Elements(skills) && s.name == name
  {
    if s :| s in Elements(skills) && s.name == name {
      assert s in skills;
    }
    if name in SkillNames(skills) {
      var s :| s in skills && s.name == name;
      assert s in Elements(skills);
    }
  }

  lemma NameIsInPlay(c: Configuration, r: Request, name: string)
    ensures name in SkillNames(r.skills) + SkillNames(r.selectedSkills) + SkillNames(c.selectedSkills) <==>
      exists s :: s in SkillsInPlay(c, r) && s.name == name
  {
    NameIsListed(r.skills, name);
    NameIsListed(r.selectedSkills, name);
    NameIsListed(c.selectedSkills, name);
    forall s | s in Elements(r.skills) || s in Elements(r.selectedSkills) || s in Elements(c.selectedSkills)
      ensures s in SkillsInPlay(c, r) { }
  }

  lemma NamesOfSkillsInPlay(c: Configuration, r: Request)
    ensures var names := SkillNames(r.skills) + SkillNames(r.selectedSkills) + SkillNames(c.selectedSkills);
      |names| <= 1 <==> forall a, b :: a in SkillsInPlay(c, r) && b in SkillsInPlay(c, r) ==> a.name == b.name
  {
    var names := SkillNames(r.skills) + SkillNames(r.selectedSkills) + SkillNames(c.selectedSkills);
    SingletonOrEmpty(names);
    forall name ensures name in names <==> exists s :: s in SkillsInPlay(c, r) && s.name == name {
      NameIsInPlay(c, r, name);
    }
    if |names| <= 1 {
      forall a, b | a in SkillsInPlay(c, r) && b in SkillsInPlay(c, r) ensures a.name == b.name {
        assert a.name in names && b.name in names;
      }
    }
    if forall a, b :: a in SkillsInPlay(c, r) && b in SkillsInPlay(c, r) ==> a.name == b.name {
      forall m, n | m in names && n in names ensures m == n {
        var a :| a in SkillsInPlay(c, r) && a.name == m;
        var b :| b in SkillsInPlay(c, r) && b.name == n;
      }
    }
  }

  lemma PiGates(c: Configuration, r: Request)
    ensures !GateFails(ProductionQualification, c, r) && !GateFails(PiSingleNativeSkill, c, r) <==>
      (c.kind == PiRpc ==> SuitsPi(c, r))
  {
    NamesOfSkillsInPlay(c, r);
  }

  lemma SkillGate(c: Configuration, r: Request)
    ensures !GateFails(RequiredSkills, c, r) <==> SuppliesSkills(c, r)
  {
    if SuppliesSkills(c, r) {
      assert forall x :: x in r.skills ==> x in Elements(c.skills);
      assert forall x :: x in r.selectedSkills ==> x in Elements(c.skills);
    }
    if !GateFails(RequiredSkills, c, r) {
      forall own, asked | own in c.selectedSkills && (asked in r.skills || asked in r.selectedSkills)
        ensures SameVersionIfNamed(own, asked)
      {
        assert !OtherVersionRequired(own, r.skills) && !OtherVersionRequired(own, r.selectedSkills);
      }
    }
  }

  lemma ContainsAllIsSubset<T>(actual: seq<T>, required: seq<T>)
    ensures ContainsAll(actual, required) <==> Elements(required) <= Elements(actual)
  {
    if Elements(required) <= Elements(actual) {
      forall x | x in required ensures x in actual {
        assert x in Elements(required);
      }
    }
  }

  lemma SetGates(c: Configuration, r: Request)
    ensures !GateFails(RequiredCapabilities, c, r) <==> Elements(r.capabilities) <= Elements(c.capabilities)
    ensures !GateFails(RequiredTools, c, r) <==> Elements(r.tools) <= Elements(c.tools)
    ensures !GateFails(AssignmentConstraints, c, r) <==> Elements(r.assignmentConstraints) <= Elements(c.assignmentConstraints)
    ensures !GateFails(AuthorityScopeCompatibility, c, r) <==> Elements(r.authorityScopeTypes) <= Elements(c.authorityScopeTypes)
  {
    ContainsAllIsSubset(c.capabilities, r.capabilities);
    ContainsAllIsSubset(c.tools, r.tools);
    ContainsAllIsSubset(c.assignmentConstraints, r.assignmentConstraints);
    ContainsAllIsSubset(c.authorityScopeTypes, r.authorityScopeTypes);
  }

  lemma EligibleByGates(c: Configuration, r: Request)
    ensures Eligible(c, r) <==>
      && !GateFails(ProductionQualification, c, r) && !GateFails(RequiredConfiguration, c, r)
      && !GateFails(ExcludedConfiguration, c, r) && !GateFails(RequiredCapabilities, c, r) && !GateFails(RequiredTools, c, r)
      && !GateFails(RequiredSkills, c, r) && !GateFails(PiSingleNativeSkill, c, r) && !GateFails(ContextCapacity, c, r)
      && !GateFails(ContextStrategy, c, r) && !GateFails(AssignmentConstraints, c, r)
      && !GateFails(AuthorityCompatibility, c, r) && !GateFails(AuthorityScopeCompatibility, c, r)
      && !GateFails(ResourceLimits, c, r)
  {
  }

  /** A configuration fails no gate exactly when it supplies every field of the request. */
  lemma EligibleMeetsRequest(c: Configuration, r: Request)
    ensures Eligible(c, r) <==> MeetsRequest(c, r)
    ensures GatesFor(r)(c) == [] <==> MeetsRequest(c, r)
  {
    EligibleByGates(c, r);
    PiGates(c, r);
    SkillGate(c, r);
    SetGates(c, r);
    assert !GateFails(ContextCapacity, c, r) && !GateFails(ResourceLimits, c, r) <==> SuppliesLimits(c, r);
    assert !GateFails(ContextStrategy, c, r) <==> (r.contextStrategy == None || r.contextStrategy == Some(c.contextStrategy));
  }

  /** Which field each of the other gates is about. */
  lemma EachGateIsItsField(c: Configuration, r: Request)
    ensures GateFails(RequiredConfiguration, c, r) <==> |r.requireConfigurations| > 0 && c.id !in Elements(r.requireConfigurations)
    ensures GateFails(ExcludedConfiguration, c, r) <==> c.id in Elements(r.excludeConfigurations)
    ensures GateFails(ContextCapacity, c, r) <==> r.minContextTokens > c.capacityTokens
    ensures GateFails(ContextStrategy, c, r) <==> r.contextStrategy != None && r.contextStrategy != Some(c.contextStrategy)
    ensures GateFails(AuthorityCompatibility, c, r) <==> r.authorityAction !in Elements(c.authorityActions)
    ensures GateFails(ResourceLimits, c, r) <==>
      !(r.concurrencySlots <= c.maxConcurrencySlots && r.maxStorageBytes <= c.maxStorageBytes)
  {
  }

  lemma EachPiGateIsItsField(c: Configuration, r: Request)
    ensures GateFails(ProductionQualification, c, r) <==> c.kind == PiRpc && !c.productionQualified
    ensures GateFails(PiSingleNativeSkill, c, r) <==>
      && c.kind == PiRpc && c.productionQualified
      && exists a, b :: a in SkillsInPlay(c, r) && b in SkillsInPlay(c, r) && a.name != b.name
  {
    NamesOfSkillsInPlay(c, r);
  }

  // ----- being able to run

  /** Declared available, not tried in vain, qualified if it is Pi, and with its pinned
      adapter in place if it has one. */
  ghost predicate CanRun(c: Configuration, executable: set<string>, unavailable: set<string>) {
    && c.available && c.id !in unavailable
    && (c.kind == PiRpc ==> c.productionQualified)
    && (c.kind in {CodexAppServer, ClaudeAgentSdk, PiRpc, OpenCodeServer} ==> c.id in executable)
  }

  lemma UsableCanRun(c: Configuration, executable: set<string>, unavailable: set<string>)
    ensures IsUsable(c, executable, unavailable) <==> CanRun(c, executable, unavailable)
  {
  }

  // ----- standing in

  ghost predicate NoMoreThan100Below(preferred: nat, candidate: nat) {
    preferred <= candidate + 100
  }

  /** In the preferred configuration's class, and within 100 basis points of its scores. */
  ghost predicate StaysClose(preferred: Configuration, c: Configuration) {
    && c.replacementClass == preferred.replacementClass
    && NoMoreThan100Below(preferred.metrics.expectedVerifiedCorrectness, c.metrics.expectedVerifiedCorrectness)
    && NoMoreThan100Below(preferred.metrics.preferenceAdherence, c.metrics.preferenceAdherence)
    && NoMoreThan100Below(preferred.metrics.firstPassAcceptance, c.metrics.firstPassAcceptance)
  }

  lemma ApproximatelyEqualStaysClose(preferred: Configuration, c: Configuration)
    ensures ApproximatelyEqual(preferred, c) <==> StaysClose(preferred, c)
  {
  }

  // ----- ranking

  /** The scores that rank a configuration, most important first; more is better. */
  ghost function Scores(c: Configuration): seq<int> {
    var correctness: int, adherence: int, firstPass: int :=
      c.metrics.expectedVerifiedCorrectness, c.metrics.preferenceAdherence, c.metrics.firstPassAcceptance;
    var time: int, cost: int, continuity: int := c.metrics.elapsedMs, c.metrics.costCents, c.metrics.continuity;
    [correctness, adherence, firstPass, -time, -cost, continuity]
  }

  /** At the first score in which they differ, the one has more. */
  ghost predicate ScoresMore(a: Configuration, b: Configuration) {
    exists k :: 0 <= k < 6 && Scores(a)[..k] == Scores(b)[..k] && Scores(a)[k] > Scores(b)[k]
  }

  /** A proper prefix, or smaller at the first different character. */
  ghost predicate SpelledBefore(a: string, b: string) {
    exists i: nat :: FirstDifferenceAt(a, b, i)
  }

  ghost predicate FirstDifferenceAt(a: string, b: string, i: nat) {
    && i <= |a| && i < |b| && a[..i] == b[..i]
    && (i == |a| || a[i] < b[i])
  }

  ghost predicate RanksAbove(a: Configuration, b: Configuration) {
    ScoresMore(a, b) || (Scores(a) == Scores(b) && SpelledBefore(a.id, b.id))
  }

  lemma {:induction false} CompareStringFindsDifference(a: string, b: string)
    ensures CompareString(a, b).Less? <==> SpelledBefore(a, b)
    ensures CompareString(a, b).Equal? <==> a == b
  {
    if a == [] || b == [] {
      if b != [] {
        assert FirstDifferenceAt(a, b, 0);
      }
    } else {
      CompareStringFindsDifference(a[1..], b[1..]);
      assert a == [a[0]] + a[1..] && b == [b[0]] + b[1..];
      if a[0] < b[0] {
        assert FirstDifferenceAt(a, b, 0);
      }
      if a[0] == b[0] {
        DifferenceMoves(a, b);
      } else if i: nat :| FirstDifferenceAt(a, b, i) {
        assert i == 0;
      }
    }
  }

  lemma DifferenceMoves(a: string, b: string)
    requires a != [] && b != [] && a[0] == b[0]
    ensures SpelledBefore(a, b) <==> SpelledBefore(a[1..], b[1..])
  {
    if i: nat :| FirstDifferenceAt(a, b, i) {
      assert i > 0 && a[1..][..i - 1] == a[..i][1..] && b[1..][..i - 1] == b[..i][1..];
      assert FirstDifferenceAt(a[1..], b[1..], i - 1);
    }
    if i: nat :| FirstDifferenceAt(a[1..], b[1..], i) {
      assert a[..i + 1] == [a[0]] + a[1..][..i] && b[..i + 1] == [b[0]] + b[1..][..i];
      assert FirstDifferenceAt(a, b, i + 1);
    }
  }

  lemma ScoresAgree(a: Configuration, b: Configuration, k: nat)
    requires k <= 6
    ensures Scores(a)[..k] == Scores(b)[..k] <==> forall i :: 0 <= i < k ==> Scores(a)[i] == Scores(b)[i]
  {
    if Scores(a)[..k] == Scores(b)[..k] {
      forall i | 0 <= i < k ensures Scores(a)[i] == Scores(b)[i] {
        assert Scores(a)[..k][i] == Scores(b)[..k][i];
      }
    }
  }

  lemma ScoresMoreByKeys(a: Configuration, b: Configuration)
    ensures var s, t := Scores(a), Scores(b);
      ScoresMore(a, b) <==>
        || s[0] > t[0]
        || (s[0] == t[0] && s[1] > t[1])
        || (s[0] == t[0] && s[1] == t[1] && s[2] > t[2])
        || (s[0] == t[0] && s[1] == t[1] && s[2] == t[2] && s[3] > t[3])
        || (s[0] == t[0] && s[1] == t[1] && s[2] == t[2] && s[3] == t[3] && s[4] > t[4])
        || (s[0] == t[0] && s[1] == t[1] && s[2] == t[2] && s[3] == t[3] && s[4] == t[4] && s[5] > t[5])
  {
    ScoresAgree(a, b, 0);
    ScoresAgree(a, b, 1);
    ScoresAgree(a, b, 2);
    ScoresAgree(a, b, 3);
    ScoresAgree(a, b, 4);
    ScoresAgree(a, b, 5);
  }

  /** The comparison prefers, in this order: more correctness, more adherence, more
      first-pass acceptance, less time, less cost, more continuity, and the earlier id. */
  lemma PrecedesRanksAbove(a: Configuration, b: Configuration)
    ensures Precedes(a, b) <==> RanksAbove(a, b)
  {
    ScoresMoreByKeys(a, b);
    CompareStringFindsDifference(a.id, b.id);
    ScoresAgree(a, b, 6);
    assert Scores(a)[..6] == Scores(a) && Scores(b)[..6] == Scores(b);
  }
}
