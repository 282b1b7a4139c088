/** Routing is canonical and its fallback does not drift. */
module RoutingOrder {
  import opened Prelude
  import opened Routing
  import opened RoutingMeaning

  // ----- the seven keys form a strict total order

  lemma {:induction false} CompareStringIsTotal(a: string, b: string)
    ensures CompareString(a, b).Equal? <==> a == b
    ensures CompareString(a, b).Less? <==> CompareString(b, a).Greater?
  {
    if a != [] && b != [] {
      CompareStringIsTotal(a[1..], b[1..]);
      assert a == [a[0]] + a[1..] && b == [b[0]] + b[1..];
    }
  }

  lemma {:induction false} CompareStringIsTransitive(a: string, b: string, c: string)
    requires CompareString(a, b).Less? && CompareString(b, c).Less?
    ensures CompareString(a, c).Less?
  {
    if a != [] && a[0] == b[0] == c[0] {
      CompareStringIsTransitive(a[1..], b[1..], c[1..]);
    }
  }

  /** Two configurations tie only if they share an id; otherwise exactly one ranks above. */
  lemma OrderIsTotal(a: Configuration, b: Configuration)
    ensures CompareConfigurations(a, b).Equal? <==> a.id == b.id && a.metrics == b.metrics
    ensures RanksAbove(a, b) <==> CompareConfigurations(b, a).Greater?
    ensures a.id != b.id ==> (RanksAbove(a, b) <==> !RanksAbove(b, a))
  {
    PrecedesRanksAbove(a, b);
    PrecedesRanksAbove(b, a);
    CompareStringIsTotal(a.id, b.id);
    CompareStringIsTotal(b.id, a.id);
  }

  lemma PrecedesIsTransitive(a: Configuration, b: Configuration, c: Configuration)
    requires Precedes(a, b) && Precedes(b, c)
    ensures Precedes(a, c)
  {
    if CompareString(a.id, b.id).Less? && CompareString(b.id, c.id).Less? {
      CompareStringIsTransitive(a.id, b.id, c.id);
    }
  }

  lemma OrderIsTransitive(a: Configuration, b: Configuration, c: Configuration)
    requires RanksAbove(a, b) && RanksAbove(b, c)
    ensures RanksAbove(a, c)
  {
    PrecedesRanksAbove(a, b);
    PrecedesRanksAbove(b, c);
    PrecedesRanksAbove(a, c);
    PrecedesIsTransitive(a, b, c);
  }

  // ----- sorting

  ghost predicate UniqueIds(s: seq<Configuration>) {
    forall i, j :: 0 <= i < j < |s| ==> s[i].id != s[j].id
  }

  ghost predicate IsSorted(s: seq<Configuration>) {
    forall i, j :: 0 <= i < j < |s| ==> RanksAbove(s[i], s[j])
  }

  /** The duplicate check of catalog validation: accepts exactly the catalogs with unique ids. */
  method FindDuplicateId(catalog: seq<Configuration>) returns (duplicate: Option<string>)
    ensures duplicate.None? <==> UniqueIds(catalog)
    ensures duplicate.Some? ==> exists i, j :: 0 <= i < j < |catalog| && catalog[i].id == catalog[j].id == duplicate.value
  {
    var ids: set<string> := {};
    for k := 0 to |catalog|
      invariant UniqueIds(catalog[..k])
      invariant forall id :: id in ids <==> exists i :: 0 <= i < k && catalog[i].id == id
    {
      if catalog[k].id in ids {
        var i :| 0 <= i < k && catalog[i].id == catalog[k].id;
        assert catalog[i].id == catalog[k].id;
        return Some(catalog[k].id);
      }
      ids := ids + {catalog[k].id};
    }
    assert catalog[..|catalog|] == catalog;
    return None;
  }

  lemma {:induction false} InsertKeepsElements(c: Configuration, s: seq<Configuration>)
    ensures multiset(Insert(c, s)) == multiset{c} + multiset(s)
  {
    if s != [] {
      assert s == [s[0]] + s[1..];
      InsertKeepsElements(c, s[1..]);
    }
  }

  lemma ConsSorted(first: Configuration, rest: seq<Configuration>)
    requires IsSorted(rest) && forall d :: d in rest ==> RanksAbove(first, d)
    ensures IsSorted([first] + rest)
  {
    var all := [first] + rest;
    forall i, j | 0 <= i < j < |all| ensures RanksAbove(all[i], all[j]) {
      assert all[j] == rest[j - 1];
      if i > 0 {
        assert all[i] == rest[i - 1];
      }
    }
  }

  lemma {:induction false} InsertSorts(c: Configuration, s: seq<Configuration>)
    requires IsSorted(s) && forall i :: 0 <= i < |s| ==> s[i].id != c.id
    ensures IsSorted(Insert(c, s))
  {
    if s != [] {
      OrderIsTotal(s[0], c);
      PrecedesRanksAbove(s[0], c);
      if RanksAbove(s[0], c) {
        InsertSorts(c, s[1..]);
        InsertKeepsElements(c, s[1..]);
        forall d | d in Insert(c, s[1..]) ensures RanksAbove(s[0], d) {
          assert d in multiset(Insert(c, s[1..]));
          assert d == c || d in s[1..];
        }
        ConsSorted(s[0], Insert(c, s[1..]));
      } else {
        forall k | 0 < k < |s| ensures RanksAbove(c, s[k]) {
          OrderIsTransitive(c, s[0], s[k]);
        }
        ConsSorted(c, s);
      }
    }
  }

  lemma {:induction false} SortSorts(s: seq<Configuration>)
    requires UniqueIds(s)
    ensures IsSorted(Sort(s)) && multiset(Sort(s)) == multiset(s)
  {
    if s != [] {
      assert s == [s[0]] + s[1..];
      SortSorts(s[1..]);
      var rest := Sort(s[1..]);
      forall i | 0 <= i < |rest| ensures rest[i].id != s[0].id {
        assert rest[i] in multiset(rest);
        assert rest[i] in s[1..];
      }
      InsertSorts(s[0], rest);
      InsertKeepsElements(s[0], rest);
    }
  }

  lemma HeadIsAbove(a: seq<Configuration>, c: Configuration)
    requires IsSorted(a) && c in a
    ensures c == a[0] || RanksAbove(a[0], c)
  {
    var i :| 0 <= i < |a| && a[i] == c;
    if i > 0 {
      assert RanksAbove(a[0], a[i]);
    }
  }

  lemma NeverBothAbove(a: Configuration, b: Configuration)
    ensures !(RanksAbove(a, b) && RanksAbove(b, a))
  {
    PrecedesRanksAbove(a, b);
    OrderIsTotal(b, a);
  }

  lemma SortedHeadsAgree(a: seq<Configuration>, b: seq<Configuration>)
    requires IsSorted(a) && IsSorted(b) && multiset(a) == multiset(b) && a != [] && b != []
    ensures a[0] == b[0]
  {
    var first, other := a[0], b[0];
    assert first in multiset(b) && other in multiset(a);
    HeadIsAbove(a, other);
    assert other == first || RanksAbove(first, other);
    HeadIsAbove(b, first);
    assert first == other || RanksAbove(other, first);
    NeverBothAbove(first, other);
  }

  lemma TailElements(s: seq<Configuration>)
    requires s != []
    ensures multiset(s[1..]) == multiset(s) - multiset{s[0]}
  {
    assert s == [s[0]] + s[1..];
  }

  /** A set of configurations has one sorted listing. */
  lemma {:induction false} SortedListingIsUnique(a: seq<Configuration>, b: seq<Configuration>)
    requires IsSorted(a) && IsSorted(b) && multiset(a) == multiset(b)
    ensures a == b
  {
    assert |a| == |multiset(a)| == |multiset(b)| == |b|;
    if a != [] {
      SortedHeadsAgree(a, b);
      TailElements(a);
      TailElements(b);
      SortedListingIsUnique(a[1..], b[1..]);
      assert a == [a[0]] + a[1..] && b == [b[0]] + b[1..];
    }
  }

  // ----- permutations of the catalog

  lemma {:induction false} EligibleAppend(a: seq<Configuration>, b: seq<Configuration>, gates: Gates)
    ensures EligibleOf(a + b, gates) == EligibleOf(a, gates) + EligibleOf(b, gates)
  {
    if a == [] {
      assert a + b == b;
    } else {
      var ab := a + b;
      assert ab[0] == a[0] && ab[1..] == a[1..] + b;
      EligibleAppend(a[1..], b, gates);
      AppendIsAssociative(if gates(a[0]) == [] then [a[0]] else [], EligibleOf(a[1..], gates), EligibleOf(b, gates));
    }
  }

  lemma {:induction false} IneligibleAppend(a: seq<Configuration>, b: seq<Configuration>, gates: Gates)
    ensures IneligibleOf(a + b, gates) == IneligibleOf(a, gates) + IneligibleOf(b, gates)
  {
    if a == [] {
      assert a + b == b;
    } else {
      var ab := a + b;
      assert ab[0] == a[0] && ab[1..] == a[1..] + b;
      IneligibleAppend(a[1..], b, gates);
      AppendIsAssociative(if gates(a[0]) == [] then [] else [Ineligible(a[0].id, gates(a[0]))],
                          IneligibleOf(a[1..], gates), IneligibleOf(b, gates));
    }
  }

  lemma GatesAppend(a: seq<Configuration>, b: seq<Configuration>, gates: Gates)
    ensures EligibleOf(a + b, gates) == EligibleOf(a, gates) + EligibleOf(b, gates)
    ensures IneligibleOf(a + b, gates) == IneligibleOf(a, gates) + IneligibleOf(b, gates)
  {
    EligibleAppend(a, b, gates);
    IneligibleAppend(a, b, gates);
  }

  lemma MiddleMoves<T>(x: seq<T>, m: seq<T>, y: seq<T>)
    ensures multiset(x + m + y) == multiset(m) + multiset(x + y)
  {
  }

  /** Moving one configuration to the front only reorders the two lists. */
  lemma MoveToFront(x: seq<Configuration>, c: Configuration, y: seq<Configuration>, gates: Gates)
    ensures multiset(EligibleOf(x + [c] + y, gates)) == multiset(EligibleOf([c], gates)) + multiset(EligibleOf(x + y, gates))
    ensures multiset(IneligibleOf(x + [c] + y, gates)) == multiset(IneligibleOf([c], gates)) + multiset(IneligibleOf(x + y, gates))
  {
    var m := [c];
    GatesAppend(x + m, y, gates);
    GatesAppend(x, m, gates);
    GatesAppend(x, y, gates);
    MiddleMoves(EligibleOf(x, gates), EligibleOf(m, gates), EligibleOf(y, gates));
    MiddleMoves(IneligibleOf(x, gates), IneligibleOf(m, gates), IneligibleOf(y, gates));
  }

  lemma SplitAround(s: seq<Configuration>, c: Configuration) returns (x: seq<Configuration>, y: seq<Configuration>)
    requires c in multiset(s)
    ensures s == x + [c] + y && multiset(x + y) == multiset(s) - multiset{c}
  {
    var p :| 0 <= p < |s| && s[p] == c;
    x, y := s[..p], s[p + 1..];
    assert s == x + [c] + y;
    MiddleMoves(x, [c], y);
  }

  lemma {:induction false} PermutedCatalog(a: seq<Configuration>, b: seq<Configuration>, gates: Gates)
    requires multiset(a) == multiset(b)
    ensures multiset(EligibleOf(a, gates)) == multiset(EligibleOf(b, gates))
    ensures multiset(IneligibleOf(a, gates)) == multiset(IneligibleOf(b, gates))
    decreases |a|
  {
    if a == [] {
      assert |multiset(b)| == 0;
    } else {
      var c := a[0];
      var u, v := SplitAround(a, c);
      var x, y := SplitAround(b, c);
      PermutedCatalog(u + v, x + y, gates);
      MoveToFront(u, c, v, gates);
      MoveToFront(x, c, y, gates);
    }
  }

  lemma {:induction false} EligibleAreListed(catalog: seq<Configuration>, gates: Gates, c: Configuration)
    ensures c in EligibleOf(catalog, gates) <==> c in catalog && gates(c) == []
  {
    if catalog != [] {
      EligibleAreListed(catalog[1..], gates, c);
      assert catalog == [catalog[0]] + catalog[1..];
    }
  }

  lemma {:induction false} EligibleIdsAreUnique(catalog: seq<Configuration>, gates: Gates)
    requires UniqueIds(catalog)
    ensures UniqueIds(EligibleOf(catalog, gates))
  {
    if catalog != [] {
      var later := EligibleOf(catalog[1..], gates);
      EligibleIdsAreUnique(catalog[1..], gates);
      forall k | 0 <= k < |later| ensures later[k].id != catalog[0].id {
        EligibleAreListed(catalog[1..], gates, later[k]);
      }
    }
  }

  /** Routing does not depend on the order of the catalog: the selection, the
      ranked eligible list and the fallback agree, and the ineligible entries are
      the same up to order. */
  lemma RouteIsCanonical(a: seq<Configuration>, b: seq<Configuration>, gates: Gates,
                         executable: set<string>, unavailable: set<string>)
    requires UniqueIds(a) && UniqueIds(b) && multiset(a) == multiset(b)
    ensures var ra, rb := RouteOf(a, gates, executable, unavailable), RouteOf(b, gates, executable, unavailable);
      && ra.(ineligible := []) == rb.(ineligible := [])
      && multiset(ra.ineligible) == multiset(rb.ineligible)
  {
    PermutedCatalog(a, b, gates);
    EligibleIdsAreUnique(a, gates);
    EligibleIdsAreUnique(b, gates);
    SortSorts(EligibleOf(a, gates));
    SortSorts(EligibleOf(b, gates));
    SortedListingIsUnique(Sort(EligibleOf(a, gates)), Sort(EligibleOf(b, gates)));
  }

  // ----- what is selected

  /** A configuration that can run and may stand in for the preferred one. */
  ghost predicate IsAlternative(c: Configuration, preferred: Configuration, executable: set<string>, unavailable: set<string>) {
    CanRun(c, executable, unavailable) && StaysClose(preferred, c)
  }

  lemma AlternativeByTests(c: Configuration, preferred: Configuration, executable: set<string>, unavailable: set<string>)
    ensures IsAlternative(c, preferred, executable, unavailable) <==>
      IsUsable(c, executable, unavailable) && ApproximatelyEqual(preferred, c)
  {
    UsableCanRun(c, executable, unavailable);
    ApproximatelyEqualStaysClose(preferred, c);
  }

  lemma {:induction false} AlternativesAreExact(sorted: seq<Configuration>, preferred: Configuration,
                                                executable: set<string>, unavailable: set<string>)
    requires IsSorted(sorted)
    ensures var found := Alternatives(sorted, preferred, executable, unavailable);
      && IsSorted(found) && |found| <= |sorted|
      && forall c :: c in found <==> c in sorted && IsAlternative(c, preferred, executable, unavailable)
  {
    if sorted != [] {
      assert sorted == [sorted[0]] + sorted[1..];
      AlternativesAreExact(sorted[1..], preferred, executable, unavailable);
      AlternativeByTests(sorted[0], preferred, executable, unavailable);
      var later := Alternatives(sorted[1..], preferred, executable, unavailable);
      forall k | 0 <= k < |later| ensures RanksAbove(sorted[0], later[k]) {
        assert later[k] in sorted[1..];
      }
    }
  }

  ghost predicate IsBest(c: Configuration, s: seq<Configuration>) {
    c in s && forall d :: d in s && d.id != c.id ==> RanksAbove(c, d)
  }

  /** The head of the sorted listing is the best configuration. */
  lemma BestIsFirst(s: seq<Configuration>, best: Configuration)
    requires UniqueIds(s) && IsBest(best, s)
    ensures Sort(s) != [] && Sort(s)[0] == best
  {
    SortSorts(s);
    var sorted := Sort(s);
    assert best in multiset(sorted);
    assert sorted[0] in multiset(s);
    if sorted[0] != best {
      var i, j :| 0 <= i < |s| && 0 <= j < |s| && s[i] == best && s[j] == sorted[0];
      assert RanksAbove(best, sorted[0]) && RanksAbove(sorted[0], best);
      OrderIsTotal(best, sorted[0]);
    }
  }

  ghost predicate IsBestAlternative(c: Configuration, eligible: seq<Configuration>, preferred: Configuration,
                                    executable: set<string>, unavailable: set<string>)
  {
    && c in eligible && IsAlternative(c, preferred, executable, unavailable)
    && (forall d :: d in eligible && d != c && IsAlternative(d, preferred, executable, unavailable) ==> RanksAbove(c, d))
  }

  lemma FirstAlternativeIsBest(eligible: seq<Configuration>, sorted: seq<Configuration>,
                               executable: set<string>, unavailable: set<string>)
    requires IsSorted(sorted) && multiset(sorted) == multiset(eligible) && sorted != []
    ensures match SelectedBy(sorted, executable, unavailable)
      case Some(c) => IsBestAlternative(c, eligible, sorted[0], executable, unavailable)
      case None => forall d :: d in eligible ==> !IsAlternative(d, sorted[0], executable, unavailable)
  {
    AlternativesAreExact(sorted, sorted[0], executable, unavailable);
    assert forall d :: d in eligible <==> d in multiset(sorted);
    assert forall d :: d in sorted <==> d in multiset(sorted);
  }

  /** Given the best eligible configuration, the selection is the best of the
      usable eligible configurations approximately equal to it, and there is none
      exactly when no such configuration exists. */
  lemma SelectionIsBestAlternative(catalog: seq<Configuration>, gates: Gates, executable: set<string>,
                                   unavailable: set<string>, preferred: Configuration)
    requires UniqueIds(catalog) && IsBest(preferred, EligibleOf(catalog, gates))
    ensures var eligible, selected := EligibleOf(catalog, gates), RouteOf(catalog, gates, executable, unavailable).selected;
      match selected
      case Some(c) => IsBestAlternative(c, eligible, preferred, executable, unavailable)
      case None => forall d :: d in eligible ==> !IsAlternative(d, preferred, executable, unavailable)
  {
    var eligible := EligibleOf(catalog, gates);
    EligibleIdsAreUnique(catalog, gates);
    BestIsFirst(eligible, preferred);
    SortSorts(eligible);
    FirstAlternativeIsBest(eligible, Sort(eligible), executable, unavailable);
  }

  /** A usable best configuration is itself selected. */
  lemma UsableBestIsSelected(catalog: seq<Configuration>, gates: Gates, executable: set<string>,
                             unavailable: set<string>, preferred: Configuration)
    requires UniqueIds(catalog) && IsBest(preferred, EligibleOf(catalog, gates))
    requires CanRun(preferred, executable, unavailable)
    ensures RouteOf(catalog, gates, executable, unavailable).selected == Some(preferred)
  {
    UsableCanRun(preferred, executable, unavailable);
    EligibleIdsAreUnique(catalog, gates);
    BestIsFirst(EligibleOf(catalog, gates), preferred);
    UsablePreferredIsSelected(Sort(EligibleOf(catalog, gates)), executable, unavailable);
  }

  /** Attention is required exactly when no usable eligible configuration is approximately
      equal to the preferred one; the Principal is then asked about the preferred one,
      or for any eligible configuration if there is none. */
  lemma AttentionNamesThePreferred(catalog: seq<Configuration>, gates: Gates, executable: set<string>, unavailable: set<string>)
    requires UniqueIds(catalog)
    ensures var eligible, decision := EligibleOf(catalog, gates), RouteOf(catalog, gates, executable, unavailable);
      && (decision.attention.None? <==> decision.status.Selected?)
      && (decision.attention == Some(ProvideConfiguration) <==> eligible == [])
      && (forall preferred :: IsBest(preferred, eligible) ==>
            (decision.attention == Some(MakeAvailableOrApprove(preferred.id))
             <==> forall d :: d in eligible ==> !IsAlternative(d, preferred, executable, unavailable)))
  {
    var eligible := EligibleOf(catalog, gates);
    EligibleIdsAreUnique(catalog, gates);
    SortSorts(eligible);
    assert |Sort(eligible)| == |multiset(Sort(eligible))| == |multiset(eligible)| == |eligible|;
    forall preferred | IsBest(preferred, eligible)
      ensures RouteOf(catalog, gates, executable, unavailable).attention == Some(MakeAvailableOrApprove(preferred.id))
         <==> forall d :: d in eligible ==> !IsAlternative(d, preferred, executable, unavailable)
    {
      BestIsFirst(eligible, preferred);
      SelectionIsBestAlternative(catalog, gates, executable, unavailable, preferred);
    }
  }

  // ----- rerouting after failures

  ghost function UntriedCount(sorted: seq<Configuration>, unavailable: set<string>): nat {
    if sorted == [] then 0
    else (if sorted[0].id in unavailable then 0 else 1) + UntriedCount(sorted[1..], unavailable)
  }

  lemma {:induction false} TryingReducesUntried(sorted: seq<Configuration>, unavailable: set<string>, id: string)
    ensures UntriedCount(sorted, unavailable + {id}) <= UntriedCount(sorted, unavailable)
    ensures id !in unavailable && (exists c :: c in sorted && c.id == id) ==>
      UntriedCount(sorted, unavailable + {id}) < UntriedCount(sorted, unavailable)
  {
    if sorted != [] {
      TryingReducesUntried(sorted[1..], unavailable, id);
    }
  }

  lemma {:induction false} SelectedIsUntried(sorted: seq<Configuration>, preferred: Configuration,
                                             executable: set<string>, unavailable: set<string>, c: Configuration)
    requires c in Alternatives(sorted, preferred, executable, unavailable)
    ensures c in sorted && IsAlternative(c, preferred, executable, unavailable)
  {
    if sorted[0] != c || !IsAlternative(sorted[0], preferred, executable, unavailable) {
      SelectedIsUntried(sorted[1..], preferred, executable, unavailable, c);
    }
  }

  /** The selections made when each one fails and is added to the unavailable set. */
  ghost function Reroutes(sorted: seq<Configuration>, executable: set<string>, unavailable: set<string>): seq<Configuration>
    decreases UntriedCount(sorted, unavailable)
  {
    match SelectedBy(sorted, executable, unavailable)
    case None => []
    case Some(c) =>
      SelectedIsUntried(sorted, sorted[0], executable, unavailable, c);
      TryingReducesUntried(sorted, unavailable, c.id);
      [c] + Reroutes(sorted, executable, unavailable + {c.id})
  }

  /** Marking a configuration unavailable removes it from the alternatives and nothing else. */
  lemma {:induction false} AlternativesAfterFailure(sorted: seq<Configuration>, preferred: Configuration,
                                                    executable: set<string>, unavailable: set<string>, id: string)
    requires forall i :: 0 <= i < |sorted| ==> sorted[i].id != id
    ensures Alternatives(sorted, preferred, executable, unavailable + {id})
         == Alternatives(sorted, preferred, executable, unavailable)
  {
    if sorted != [] {
      AlternativesAfterFailure(sorted[1..], preferred, executable, unavailable, id);
    }
  }

  lemma {:induction false} FailureDropsTheHead(sorted: seq<Configuration>, preferred: Configuration,
                                               executable: set<string>, unavailable: set<string>)
    requires UniqueIds(sorted)
    requires Alternatives(sorted, preferred, executable, unavailable) != []
    ensures var found := Alternatives(sorted, preferred, executable, unavailable);
      Alternatives(sorted, preferred, executable, unavailable + {found[0].id}) == found[1..]
  {
    var found := Alternatives(sorted, preferred, executable, unavailable);
    if IsAlternative(sorted[0], preferred, executable, unavailable) {
      AlternativesAfterFailure(sorted[1..], preferred, executable, unavailable, sorted[0].id);
    } else {
      FailureDropsTheHead(sorted[1..], preferred, executable, unavailable);
    }
  }

  /** A whole reroute sequence walks exactly the alternatives of the original
      preferred configuration, best first. */
  lemma {:induction false} ReroutesWalkTheAlternatives(sorted: seq<Configuration>, executable: set<string>, unavailable: set<string>)
    requires UniqueIds(sorted) && sorted != []
    ensures Reroutes(sorted, executable, unavailable) == Alternatives(sorted, sorted[0], executable, unavailable)
    decreases UntriedCount(sorted, unavailable)
  {
    var found := Alternatives(sorted, sorted[0], executable, unavailable);
    if found != [] {
      var c := found[0];
      SelectedIsUntried(sorted, sorted[0], executable, unavailable, c);
      TryingReducesUntried(sorted, unavailable, c.id);
      FailureDropsTheHead(sorted, sorted[0], executable, unavailable);
      ReroutesWalkTheAlternatives(sorted, executable, unavailable + {c.id});
    }
  }

  lemma SortedEligible(catalog: seq<Configuration>, gates: Gates)
    requires UniqueIds(catalog)
    ensures var eligible := EligibleOf(catalog, gates);
      UniqueIds(Sort(eligible)) && IsSorted(Sort(eligible)) && |Sort(eligible)| == |eligible|
  {
    var eligible := EligibleOf(catalog, gates);
    EligibleIdsAreUnique(catalog, gates);
    SortSorts(eligible);
    assert |Sort(eligible)| == |multiset(Sort(eligible))| == |multiset(eligible)| == |eligible|;
    SortedKeepsUniqueIds(eligible, Sort(eligible));
  }

  lemma WalkStaysClose(sorted: seq<Configuration>, executable: set<string>, unavailable: set<string>)
    requires UniqueIds(sorted) && IsSorted(sorted) && sorted != []
    ensures var walk := Reroutes(sorted, executable, unavailable);
      IsSorted(walk) && |walk| <= |sorted| && forall c :: c in walk ==> StaysClose(sorted[0], c)
  {
    ReroutesWalkTheAlternatives(sorted, executable, unavailable);
    AlternativesAreExact(sorted, sorted[0], executable, unavailable);
    forall c | c in Reroutes(sorted, executable, unavailable) ensures StaysClose(sorted[0], c) {
      assert IsAlternative(c, sorted[0], executable, unavailable);
    }
  }

  /** However often routing falls back, with other inputs fixed: no configuration
      repeats, each choice ranks strictly below the one before, there are at most
      as many choices as eligible configurations, and every choice is in the
      original preferred configuration's class and within 100 basis points of it. */
  lemma ReroutesNeverDrift(catalog: seq<Configuration>, gates: Gates, executable: set<string>, unavailable: set<string>)
    requires UniqueIds(catalog) && EligibleOf(catalog, gates) != []
    ensures var sorted := Sort(EligibleOf(catalog, gates));
      var walk := Reroutes(sorted, executable, unavailable);
      && sorted != []
      && IsSorted(walk)
      && |walk| <= |EligibleOf(catalog, gates)|
      && forall c :: c in walk ==> StaysClose(sorted[0], c)
  {
    SortedEligible(catalog, gates);
    WalkStaysClose(Sort(EligibleOf(catalog, gates)), executable, unavailable);
  }

  lemma SortedKeepsUniqueIds(s: seq<Configuration>, sorted: seq<Configuration>)
    requires UniqueIds(s) && IsSorted(sorted) && multiset(s) == multiset(sorted)
    ensures UniqueIds(sorted)
  {
    forall i, j | 0 <= i < j < |sorted| ensures sorted[i].id != sorted[j].id {
      OrderIsTotal(sorted[i], sorted[j]);
      assert sorted[i] in multiset(s) && sorted[j] in multiset(s);
      var p :| 0 <= p < |s| && s[p] == sorted[i];
      var q :| 0 <= q < |s| && s[q] == sorted[j];
      assert sorted[i] != sorted[j];
    }
  }

  // ----- the whole decision, from the catalog and the request

  /** The best configuration that meets the request. */
  ghost predicate IsPreferred(p: Configuration, catalog: seq<Configuration>, r: Request) {
    && p in catalog && MeetsRequest(p, r)
    && forall c :: c in catalog && MeetsRequest(c, r) && c.id != p.id ==> RanksAbove(p, c)
  }

  lemma PreferredIsBest(p: Configuration, catalog: seq<Configuration>, r: Request)
    ensures IsPreferred(p, catalog, r) <==> IsBest(p, EligibleOf(catalog, GatesFor(r)))
  {
    forall c ensures c in EligibleOf(catalog, GatesFor(r)) <==> c in catalog && MeetsRequest(c, r) {
      EligibleAreListed(catalog, GatesFor(r), c);
      EligibleMeetsRequest(c, r);
    }
  }

  /** The configuration meets the request, can run, may stand in for the preferred one, and
      ranks above every other that does. */
  ghost predicate IsSelection(c: Configuration, p: Configuration, catalog: seq<Configuration>, r: Request,
                              executable: set<string>, unavailable: set<string>)
  {
    && c in catalog && MeetsRequest(c, r) && IsAlternative(c, p, executable, unavailable)
    && forall d :: d in catalog && MeetsRequest(d, r) && d != c && IsAlternative(d, p, executable, unavailable) ==> RanksAbove(c, d)
  }

  /** Routing a request: with `p` the best configuration that meets it, the best one that
      meets it, can run and is close to `p` is selected, and none exactly when there is
      no such one. */
  lemma RouteSelectsForRequest(catalog: seq<Configuration>, r: Request, executable: set<string>, unavailable: set<string>, p: Configuration)
    requires UniqueIds(catalog) && IsPreferred(p, catalog, r)
    ensures match RouteOf(catalog, GatesFor(r), executable, unavailable).selected
      case Some(c) => IsSelection(c, p, catalog, r, executable, unavailable)
      case None => forall d :: d in catalog && MeetsRequest(d, r) ==> !IsAlternative(d, p, executable, unavailable)
  {
    PreferredIsBest(p, catalog, r);
    SelectionIsBestAlternative(catalog, GatesFor(r), executable, unavailable, p);
    forall c ensures c in EligibleOf(catalog, GatesFor(r)) <==> c in catalog && MeetsRequest(c, r) {
      EligibleAreListed(catalog, GatesFor(r), c);
      EligibleMeetsRequest(c, r);
    }
  }

  lemma {:induction false} IdsAreListed(s: seq<Configuration>, i: nat)
    requires i < |s|
    ensures |Ids(s)| == |s| && Ids(s)[i] == s[i].id
  {
    if i > 0 {
      IdsAreListed(s[1..], i - 1);
    } else if |s| > 1 {
      IdsAreListed(s[1..], 0);
    }
  }

  /** What is reported of the ranking and the fallback: the eligible ids are those of a
      sorted listing of what meets the request, the preferred one is reported exactly
      when it cannot run, and a replacement exactly when it is then replaced. */
  lemma FallbackIsReported(catalog: seq<Configuration>, r: Request, executable: set<string>, unavailable: set<string>, p: Configuration)
    returns (sorted: seq<Configuration>)
    requires UniqueIds(catalog) && IsPreferred(p, catalog, r)
    ensures IsSorted(sorted) && forall c :: c in sorted <==> c in catalog && MeetsRequest(c, r)
    ensures var d := RouteOf(catalog, GatesFor(r), executable, unavailable);
      && |d.eligible| == |sorted| && (forall i :: 0 <= i < |sorted| ==> d.eligible[i] == sorted[i].id)
      && (d.preferredUnavailable == if CanRun(p, executable, unavailable) then None else Some(p.id))
      && (d.automaticReplacement ==
            if !CanRun(p, executable, unavailable) && d.selected.Some? then Some(d.selected.value.id) else None)
  {
    var eligible := EligibleOf(catalog, GatesFor(r));
    sorted := Sort(eligible);
    PreferredIsBest(p, catalog, r);
    EligibleIdsAreUnique(catalog, GatesFor(r));
    SortSorts(eligible);
    BestIsFirst(eligible, p);
    UsableCanRun(p, executable, unavailable);
    forall c ensures c in sorted <==> c in catalog && MeetsRequest(c, r) {
      assert c in sorted <==> c in multiset(sorted);
      EligibleAreListed(catalog, GatesFor(r), c);
      EligibleMeetsRequest(c, r);
    }
    IdsAreListed(sorted, 0);
    forall i | 0 <= i < |sorted| ensures Ids(sorted)[i] == sorted[i].id {
      IdsAreListed(sorted, i);
    }
  }

  /** Each configuration that fails a gate is listed with exactly the gates it fails. */
  lemma {:induction false} IneligibleAreListed(catalog: seq<Configuration>, gates: Gates, entry: Ineligible)
    ensures entry in IneligibleOf(catalog, gates) <==>
      exists c :: c in catalog && gates(c) != [] && entry == Ineligible(c.id, gates(c))
  {
    if catalog != [] {
      IneligibleAreListed(catalog[1..], gates, entry);
      assert catalog == [catalog[0]] + catalog[1..];
      UnfoldIneligible(catalog, gates, []);
    }
  }
}
