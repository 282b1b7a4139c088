/** What the greedy frontier computes, said without mentioning how: it is the
    lexicographically first feasible set of candidates. */
module FrontierOptimality {
  import opened Scopes
  import opened Frontier

  /** Resource totals before they are known to fit a machine word. */
  datatype Load = Load(concurrency: nat, storage: nat, cpuMillis: nat, memoryMib: nat)

  const IDLE := Load(0, 0, 0, 0)

  ghost function Plus(a: Load, b: Load): Load {
    Load(a.concurrency + b.concurrency, a.storage + b.storage, a.cpuMillis + b.cpuMillis, a.memoryMib + b.memoryMib)
  }

  ghost function AsLoad(r: Resources): Load {
    Load(r.concurrency, r.storage, r.cpuMillis, r.memoryMib)
  }

  ghost predicate AtMost(a: Load, b: Load) {
    a.concurrency <= b.concurrency && a.storage <= b.storage && a.cpuMillis <= b.cpuMillis && a.memoryMib <= b.memoryMib
  }

  ghost function TotalLoad<T>(works: seq<Work<T>>): Load {
    if works == [] then IDLE else Plus(AsLoad(works[0].resources), TotalLoad(works[1..]))
  }

  ghost predicate PairwiseCompatible<T>(works: seq<Work<T>>) {
    forall i, j :: 0 <= i < j < |works| ==> !Conflicts(Occupy(works[i]), Occupy(works[j]))
  }

  ghost predicate ConflictsWithAny<T>(work: Work<T>, occupied: seq<OccupiedWork>) {
    exists j :: 0 <= j < |occupied| && Conflicts(Occupy(work), occupied[j])
  }

  ghost predicate CompatibleWith<T>(works: seq<Work<T>>, occupied: seq<OccupiedWork>) {
    forall i, j :: 0 <= i < |works| && 0 <= j < |occupied| ==> !Conflicts(Occupy(works[i]), occupied[j])
  }

  /** A set of works that may all start together. */
  ghost predicate Feasible<T>(works: seq<Work<T>>, occupied: seq<OccupiedWork>, used: Resources, ceilings: Resources) {
    && PairwiseCompatible(works)
    && CompatibleWith(works, occupied)
    && (works != [] ==> AtMost(Plus(AsLoad(used), TotalLoad(works)), AsLoad(ceilings)))
  }

  lemma ConflictIsSymmetric(a: OccupiedWork, b: OccupiedWork)
    ensures Conflicts(a, b) <==> Conflicts(b, a)
  {
    OverlapIsSymmetric(a.writeScopes, b.writeScopes);
  }

  ghost predicate Admissible<T>(work: Work<T>, occupied: seq<OccupiedWork>, used: Resources, ceilings: Resources) {
    Judge(Occupy(work), work.resources, occupied, used, ceilings).Admitted?
  }

  lemma PairwiseCons<T>(first: Work<T>, rest: seq<Work<T>>)
    ensures PairwiseCompatible([first] + rest) <==> PairwiseCompatible(rest) && CompatibleWith(rest, [Occupy(first)])
  {
    var works := [first] + rest;
    forall i | 0 <= i < |rest| ensures Conflicts(Occupy(first), Occupy(rest[i])) <==> Conflicts(Occupy(rest[i]), Occupy(first)) {
      ConflictIsSymmetric(Occupy(first), Occupy(rest[i]));
    }
    if PairwiseCompatible(works) {
      forall i, j | 0 <= i < j < |rest| ensures !Conflicts(Occupy(rest[i]), Occupy(rest[j])) {
        assert works[i + 1] == rest[i] && works[j + 1] == rest[j];
      }
      forall i | 0 <= i < |rest| ensures !Conflicts(Occupy(rest[i]), Occupy(first)) {
        assert works[0] == first && works[i + 1] == rest[i];
      }
    }
    if PairwiseCompatible(rest) && CompatibleWith(rest, [Occupy(first)]) {
      forall i, j | 0 <= i < j < |works| ensures !Conflicts(Occupy(works[i]), Occupy(works[j])) {
        assert works[j] == rest[j - 1];
        if i == 0 {
          assert !Conflicts(Occupy(rest[j - 1]), [Occupy(first)][0]);
        } else {
          assert works[i] == rest[i - 1];
        }
      }
    }
  }

  lemma CompatibleCons<T>(first: Work<T>, rest: seq<Work<T>>, occupied: seq<OccupiedWork>)
    ensures CompatibleWith([first] + rest, occupied) <==> !ConflictsWithAny(first, occupied) && CompatibleWith(rest, occupied)
  {
    var works := [first] + rest;
    if CompatibleWith(works, occupied) {
      forall j | 0 <= j < |occupied| ensures !Conflicts(Occupy(first), occupied[j]) {
        assert works[0] == first;
      }
      forall i, j | 0 <= i < |rest| && 0 <= j < |occupied| ensures !Conflicts(Occupy(rest[i]), occupied[j]) {
        assert works[i + 1] == rest[i];
      }
    }
    if !ConflictsWithAny(first, occupied) && CompatibleWith(rest, occupied) {
      forall i, j | 0 <= i < |works| && 0 <= j < |occupied| ensures !Conflicts(Occupy(works[i]), occupied[j]) {
        if i > 0 {
          assert works[i] == rest[i - 1];
        }
      }
    }
  }

  lemma CompatibleSnoc<T>(works: seq<Work<T>>, occupied: seq<OccupiedWork>, last: OccupiedWork)
    ensures CompatibleWith(works, occupied + [last]) <==> CompatibleWith(works, occupied) && CompatibleWith(works, [last])
  {
    var more := occupied + [last];
    if CompatibleWith(works, more) {
      forall i, j | 0 <= i < |works| && 0 <= j < |occupied| ensures !Conflicts(Occupy(works[i]), occupied[j]) {
        assert more[j] == occupied[j];
      }
      forall i | 0 <= i < |works| ensures !Conflicts(Occupy(works[i]), last) {
        assert more[|occupied|] == last;
      }
    }
    if CompatibleWith(works, occupied) && CompatibleWith(works, [last]) {
      forall i, j | 0 <= i < |works| && 0 <= j < |more| ensures !Conflicts(Occupy(works[i]), more[j]) {
        if j == |occupied| {
          assert more[j] == [last][0];
        } else {
          assert more[j] == occupied[j];
        }
      }
    }
  }

  lemma LoadCons<T>(first: Work<T>, rest: seq<Work<T>>)
    ensures TotalLoad([first] + rest) == Plus(AsLoad(first.resources), TotalLoad(rest))
  {
    var works := [first] + rest;
    assert works[0] == first && works[1..] == rest;
  }

  lemma AdmissibleParts<T>(work: Work<T>, occupied: seq<OccupiedWork>, used: Resources, ceilings: Resources)
    ensures Admissible(work, occupied, used, ceilings) <==>
      && !ConflictsWithAny(work, occupied)
      && AtMost(Plus(AsLoad(used), AsLoad(work.resources)), AsLoad(ceilings))
  {
  }

  /** Feasibility is hereditary: a feasible set is a feasible first element
      followed by a set that is feasible after reserving it, and conversely. */
  lemma FeasibleCons<T>(first: Work<T>, rest: seq<Work<T>>, occupied: seq<OccupiedWork>,
                        used: Resources, ceilings: Resources)
    ensures Feasible([first] + rest, occupied, used, ceilings) <==>
      && Admissible(first, occupied, used, ceilings)
      && Feasible(rest, occupied + [Occupy(first)], Reserve(used, first.resources, ceilings), ceilings)
  {
    PairwiseCons(first, rest);
    CompatibleCons(first, rest, occupied);
    CompatibleSnoc(rest, occupied, Occupy(first));
    LoadCons(first, rest);
    AdmissibleParts(first, occupied, used, ceilings);
    assert rest == [] ==> TotalLoad(rest) == IDLE;
  }

  /** The greedy choice as a mask over the candidates. */
  ghost function Choice<T>(candidates: seq<Work<T>>, occupied: seq<OccupiedWork>,
                           used: Resources, ceilings: Resources): (mask: seq<bool>)
    ensures |mask| == |candidates|
  {
    Chosen(Greedy(candidates, occupied, used, ceilings))
  }

  /** The choice on the tail, after whatever was decided about the head. */
  lemma ChoiceTail<T>(candidates: seq<Work<T>>, occupied: seq<OccupiedWork>, used: Resources, ceilings: Resources)
    requires candidates != []
    ensures var first, choice := candidates[0], Choice(candidates, occupied, used, ceilings);
      && choice[0] == Admissible(first, occupied, used, ceilings)
      && choice[1..] ==
         if choice[0]
         then Choice(candidates[1..], occupied + [Occupy(first)], Reserve(used, first.resources, ceilings), ceilings)
         else Choice(candidates[1..], occupied, used, ceilings)
  {
  }

  /** Feasibility of a mask, decided on its first candidate. */
  lemma FeasibleByFirst<T>(candidates: seq<Work<T>>, mask: seq<bool>, occupied: seq<OccupiedWork>,
                           used: Resources, ceilings: Resources)
    requires |mask| == |candidates| > 0
    ensures var first, later := candidates[0], Pick(candidates[1..], mask[1..]);
      Feasible(Pick(candidates, mask), occupied, used, ceilings) <==>
        if mask[0]
        then && Admissible(first, occupied, used, ceilings)
             && Feasible(later, occupied + [Occupy(first)], Reserve(used, first.resources, ceilings), ceilings)
        else Feasible(later, occupied, used, ceilings)
  {
    var first, later := candidates[0], Pick(candidates[1..], mask[1..]);
    assert Pick(candidates, mask) == if mask[0] then [first] + later else later;
    FeasibleCons(first, later, occupied, used, ceilings);
  }

  /** Everything admitted together may indeed run together. */
  lemma {:induction false} GreedyIsFeasible<T>(candidates: seq<Work<T>>, occupied: seq<OccupiedWork>,
                                               used: Resources, ceilings: Resources)
    ensures Feasible(Pick(candidates, Choice(candidates, occupied, used, ceilings)), occupied, used, ceilings)
  {
    if candidates != [] {
      var first, rest, choice := candidates[0], candidates[1..], Choice(candidates, occupied, used, ceilings);
      ChoiceTail(candidates, occupied, used, ceilings);
      FeasibleByFirst(candidates, choice, occupied, used, ceilings);
      if choice[0] {
        GreedyIsFeasible(rest, occupied + [Occupy(first)], Reserve(used, first.resources, ceilings), ceilings);
      } else {
        GreedyIsFeasible(rest, occupied, used, ceilings);
      }
    }
  }

  ghost predicate AgreeBefore(a: seq<bool>, b: seq<bool>, k: nat)
    requires k <= |a| == |b|
  {
    forall i :: 0 <= i < k ==> a[i] == b[i]
  }

  lemma AgreeOnTails(a: seq<bool>, b: seq<bool>, k: nat)
    requires 0 < k <= |a| == |b| && AgreeBefore(a, b, k)
    ensures a[0] == b[0] && AgreeBefore(a[1..], b[1..], k - 1)
  {
  }

  /** Where a feasible mask first departs from the greedy one, the greedy one admits. */
  lemma {:induction false} GreedyWinsAt<T>(candidates: seq<Work<T>>, occupied: seq<OccupiedWork>,
                                           used: Resources, ceilings: Resources, mask: seq<bool>, k: nat)
    requires |mask| == |candidates| && k < |mask|
    requires Feasible(Pick(candidates, mask), occupied, used, ceilings)
    requires AgreeBefore(mask, Choice(candidates, occupied, used, ceilings), k)
    requires mask[k]
    ensures Choice(candidates, occupied, used, ceilings)[k]
    decreases k
  {
    var first, rest, choice := candidates[0], candidates[1..], Choice(candidates, occupied, used, ceilings);
    ChoiceTail(candidates, occupied, used, ceilings);
    FeasibleByFirst(candidates, mask, occupied, used, ceilings);
    if k > 0 {
      AgreeOnTails(mask, choice, k);
      var occupied' := if mask[0] then occupied + [Occupy(first)] else occupied;
      var used' := if mask[0] then Reserve(used, first.resources, ceilings) else used;
      assert choice[1..] == Choice(rest, occupied', used', ceilings);
      GreedyWinsAt(rest, occupied', used', ceilings, mask[1..], k - 1);
      assert choice[k] == choice[1..][k - 1];
    }
  }

  ghost predicate LexicographicallyBefore(a: seq<bool>, b: seq<bool>)
    requires |a| == |b|
  {
    exists k :: 0 <= k < |a| && a[k] && !b[k] && AgreeBefore(a, b, k)
  }

  lemma FirstDifference(a: seq<bool>, b: seq<bool>) returns (k: nat)
    requires |a| == |b| && a != b
    ensures k < |a| && a[k] != b[k] && AgreeBefore(a, b, k)
  {
    k := 0;
    while k < |a| && a[k] == b[k]
      invariant k <= |a| && AgreeBefore(a, b, k)
    {
      k := k + 1;
    }
  }

  /** The selection precedes every other feasible set in candidate order. */
  lemma GreedyIsLexicographicallyFirst<T>(candidates: seq<Work<T>>, occupied: seq<OccupiedWork>,
                                          used: Resources, ceilings: Resources, mask: seq<bool>)
    requires |mask| == |candidates|
    requires Feasible(Pick(candidates, mask), occupied, used, ceilings)
    requires mask != Choice(candidates, occupied, used, ceilings)
    ensures LexicographicallyBefore(Choice(candidates, occupied, used, ceilings), mask)
  {
    var choice := Choice(candidates, occupied, used, ceilings);
    var k := FirstDifference(choice, mask);
    if mask[k] {
      GreedyWinsAt(candidates, occupied, used, ceilings, mask, k);
    }
  }

  /** No held candidate could be added to the final selection. */
  lemma GreedyIsMaximal<T>(candidates: seq<Work<T>>, occupied: seq<OccupiedWork>,
                           used: Resources, ceilings: Resources, k: nat)
    requires k < |candidates| && !Choice(candidates, occupied, used, ceilings)[k]
    ensures !Feasible(Pick(candidates, Choice(candidates, occupied, used, ceilings)[k := true]), occupied, used, ceilings)
  {
    var mask := Choice(candidates, occupied, used, ceilings)[k := true];
    if Feasible(Pick(candidates, mask), occupied, used, ceilings) {
      GreedyWinsAt(candidates, occupied, used, ceilings, mask, k);
    }
  }

  ghost function ItemsOf<T>(works: seq<Work<T>>): seq<T> {
    if works == [] then [] else [works[0].item] + ItemsOf(works[1..])
  }

  ghost function Firsts<T>(held: seq<(T, HoldReason)>): seq<T> {
    if held == [] then [] else [held[0].0] + Firsts(held[1..])
  }

  /** Any list of decisions splits the candidates in two. */
  lemma {:induction false} DecisionsPartition<T>(candidates: seq<Work<T>>, decisions: seq<Decision>)
    requires |decisions| == |candidates|
    ensures multiset(SelectedItems(candidates, decisions)) + multiset(Firsts(HeldItems(candidates, decisions)))
         == multiset(ItemsOf(candidates))
  {
    if candidates != [] {
      DecisionsPartition(candidates[1..], decisions[1..]);
      UnfoldFirst(candidates, decisions, [], []);
      if decisions[0].Held? {
        var held := HeldItems(candidates, decisions);
        assert held[0] == (candidates[0].item, decisions[0].reason) && held[1..] == HeldItems(candidates[1..], decisions[1..]);
      }
    }
  }

  /** The items the frontier selects and those it holds are together exactly the
      candidates, and an item is selected exactly as often as its works are chosen. */
  lemma SelectionPartitionsCandidates<T>(candidates: seq<Work<T>>, occupied: seq<OccupiedWork>,
                                         used: Resources, ceilings: Resources)
    ensures var decisions := Greedy(candidates, occupied, used, ceilings);
      var selected, held := SelectedItems(candidates, decisions), HeldItems(candidates, decisions);
      && selected == ItemsOf(Pick(candidates, Choice(candidates, occupied, used, ceilings)))
      && multiset(selected) + multiset(Firsts(held)) == multiset(ItemsOf(candidates))
      && |selected| + |held| == |candidates|
  {
    var decisions := Greedy(candidates, occupied, used, ceilings);
    DecisionsPartition(candidates, decisions);
    SelectedItemsArePicked(candidates, decisions);
    DecisionsCount(candidates, decisions);
  }

  lemma {:induction false} DecisionsCount<T>(candidates: seq<Work<T>>, decisions: seq<Decision>)
    requires |decisions| == |candidates|
    ensures |SelectedItems(candidates, decisions)| + |HeldItems(candidates, decisions)| == |candidates|
  {
    if candidates != [] {
      DecisionsCount(candidates[1..], decisions[1..]);
    }
  }

  /** The selected items are those of the picked works. */
  lemma {:induction false} SelectedItemsArePicked<T>(candidates: seq<Work<T>>, decisions: seq<Decision>)
    requires |decisions| == |candidates|
    ensures SelectedItems(candidates, decisions) == ItemsOf(Pick(candidates, Chosen(decisions)))
  {
    if candidates != [] {
      SelectedItemsArePicked(candidates[1..], decisions[1..]);
      assert Chosen(decisions)[1..] == Chosen(decisions[1..]);
      var works := Pick(candidates, Chosen(decisions));
      if decisions[0].Admitted? {
        assert works[0] == candidates[0] && works[1..] == Pick(candidates[1..], Chosen(decisions[1..]));
      } else {
        assert works == Pick(candidates[1..], Chosen(decisions[1..]));
      }
    }
  }

  /** Some earlier admitted candidate conflicts with candidate `k`. */
  ghost predicate ConflictsBelow<T>(candidates: seq<Work<T>>, choice: seq<bool>, k: nat)
    requires k < |candidates| == |choice|
  {
    exists j :: 0 <= j < k && choice[j] && Conflicts(Occupy(candidates[k]), Occupy(candidates[j]))
  }

  lemma ConflictsBelowCons<T>(candidates: seq<Work<T>>, choice: seq<bool>, k: nat)
    requires 0 < k < |candidates| == |choice|
    ensures ConflictsBelow(candidates, choice, k) <==>
      || (choice[0] && Conflicts(Occupy(candidates[k]), Occupy(candidates[0])))
      || ConflictsBelow(candidates[1..], choice[1..], k - 1)
  {
    if j :| 0 <= j < k && choice[j] && Conflicts(Occupy(candidates[k]), Occupy(candidates[j])) {
      if j > 0 {
        assert choice[1..][j - 1] && candidates[1..][j - 1] == candidates[j];
      }
    }
    if j :| 0 <= j < k - 1 && choice[1..][j] && Conflicts(Occupy(candidates[1..][k - 1]), Occupy(candidates[1..][j])) {
      assert choice[j + 1] && candidates[j + 1] == candidates[1..][j];
    }
  }

  lemma ConflictsWithAnySnoc<T>(work: Work<T>, occupied: seq<OccupiedWork>, last: OccupiedWork)
    ensures ConflictsWithAny(work, occupied + [last]) <==> ConflictsWithAny(work, occupied) || Conflicts(Occupy(work), last)
  {
    var more := occupied + [last];
    assert more[|occupied|] == last;
    assert forall j :: 0 <= j < |occupied| ==> more[j] == occupied[j];
  }

  /** A candidate is held for overlap exactly when it conflicts with work that
      was already occupied or with a candidate admitted before it. */
  lemma {:induction false} OverlapHoldsAreExact<T>(candidates: seq<Work<T>>, occupied: seq<OccupiedWork>,
                                                   used: Resources, ceilings: Resources, k: nat)
    requires k < |candidates|
    ensures Greedy(candidates, occupied, used, ceilings)[k] == Held(DeclaredWriteOverlap) <==>
      ConflictsWithAny(candidates[k], occupied) || ConflictsBelow(candidates, Choice(candidates, occupied, used, ceilings), k)
    decreases k
  {
    if k > 0 {
      var first, rest, choice := candidates[0], candidates[1..], Choice(candidates, occupied, used, ceilings);
      ChoiceTail(candidates, occupied, used, ceilings);
      ConflictsBelowCons(candidates, choice, k);
      ConflictsWithAnySnoc(candidates[k], occupied, Occupy(first));
      if choice[0] {
        OverlapHoldsAreExact(rest, occupied + [Occupy(first)], Reserve(used, first.resources, ceilings), ceilings, k - 1);
      } else {
        OverlapHoldsAreExact(rest, occupied, used, ceilings, k - 1);
      }
    }
  }

  // ----- every decision, from the inputs alone

  /** Two works exclude each other exactly when some path lies within scopes of both and
      they do not take part in one and the same competition. */
  lemma ConflictIsExact(a: OccupiedWork, b: OccupiedWork)
    ensures Conflicts(a, b) <==>
      && ShareAPath(a.writeScopes, b.writeScopes)
      && !(a.competition.Some? && b.competition.Some?
           && a.competition.value.group == b.competition.value.group
           && a.competition.value.uncertainty == b.competition.value.uncertainty
           && a.competition.value.rule == b.competition.value.rule)
  {
    OverlapIsSharedPath(a.writeScopes, b.writeScopes);
  }

  /** The request exceeds the Commission's slots or storage beside the load. */
  ghost predicate ExceedsBudget(load: Load, requested: Resources, ceilings: Resources) {
    load.concurrency + requested.concurrency > ceilings.concurrency || load.storage + requested.storage > ceilings.storage
  }

  /** The request exceeds the host's CPU or memory beside the load. */
  ghost predicate ExceedsHost(load: Load, requested: Resources, ceilings: Resources) {
    load.cpuMillis + requested.cpuMillis > ceilings.cpuMillis || load.memoryMib + requested.memoryMib > ceilings.memoryMib
  }

  /** What is in use when candidate `k` is judged: the initial use and all admitted before. */
  ghost function LoadBefore<T>(candidates: seq<Work<T>>, choice: seq<bool>, used: Resources, k: nat): Load
    requires k <= |candidates| == |choice|
  {
    Plus(AsLoad(used), TotalLoad(Pick(candidates[..k], choice[..k])))
  }

  lemma LoadBeforeTail<T>(candidates: seq<Work<T>>, choice: seq<bool>, used: Resources, ceilings: Resources, k: nat)
    requires 0 < k <= |candidates| == |choice|
    requires choice[0] ==> Admissible(candidates[0], [], used, ceilings)
    ensures LoadBefore(candidates, choice, used, k)
         == LoadBefore(candidates[1..], choice[1..], if choice[0] then Reserve(used, candidates[0].resources, ceilings) else used, k - 1)
  {
    var works, mask := candidates[..k], choice[..k];
    assert works[1..] == candidates[1..][..k - 1] && mask[1..] == choice[1..][..k - 1];
    var later := Pick(works[1..], mask[1..]);
    if choice[0] {
      assert Pick(works, mask) == [candidates[0]] + later;
      LoadCons(candidates[0], later);
    } else {
      assert Pick(works, mask) == [] + later == later;
    }
  }

  lemma JudgedByLoad(work: OccupiedWork, requested: Resources, occupied: seq<OccupiedWork>, used: Resources, ceilings: Resources)
    ensures Judge(work, requested, occupied, used, ceilings) ==
      if exists j :: 0 <= j < |occupied| && Conflicts(work, occupied[j]) then Held(DeclaredWriteOverlap)
      else if ExceedsBudget(AsLoad(used), requested, ceilings) then Held(CompleteResourceBudgetUnavailable)
      else if ExceedsHost(AsLoad(used), requested, ceilings) then Held(HostCapacityUnavailable)
      else Admitted
  {
  }

  /** Each decision and its reason, from the inputs: held for overlap if it conflicts with
      what runs or was admitted before, otherwise for the budget, otherwise for the host,
      each if the totals then in use leave no room; admitted otherwise. */
  lemma {:induction false} DecisionsAreExact<T>(candidates: seq<Work<T>>, occupied: seq<OccupiedWork>,
                                                used: Resources, ceilings: Resources, k: nat)
    requires k < |candidates|
    ensures var choice := Choice(candidates, occupied, used, ceilings);
      var load, requested := LoadBefore(candidates, choice, used, k), candidates[k].resources;
      Greedy(candidates, occupied, used, ceilings)[k] ==
        if ConflictsWithAny(candidates[k], occupied) || ConflictsBelow(candidates, choice, k) then Held(DeclaredWriteOverlap)
        else if ExceedsBudget(load, requested, ceilings) then Held(CompleteResourceBudgetUnavailable)
        else if ExceedsHost(load, requested, ceilings) then Held(HostCapacityUnavailable)
        else Admitted
    decreases k
  {
    var first, rest, choice := candidates[0], candidates[1..], Choice(candidates, occupied, used, ceilings);
    if k == 0 {
      JudgedByLoad(Occupy(first), first.resources, occupied, used, ceilings);
      assert LoadBefore(candidates, choice, used, 0) == AsLoad(used);
    } else {
      ChoiceTail(candidates, occupied, used, ceilings);
      ConflictsBelowCons(candidates, choice, k);
      ConflictsWithAnySnoc(candidates[k], occupied, Occupy(first));
      AdmissibleAlone(first, occupied, used, ceilings);
      LoadBeforeTail(candidates, choice, used, ceilings, k);
      if choice[0] {
        DecisionsAreExact(rest, occupied + [Occupy(first)], Reserve(used, first.resources, ceilings), ceilings, k - 1);
      } else {
        DecisionsAreExact(rest, occupied, used, ceilings, k - 1);
      }
    }
  }

  lemma AdmissibleAlone<T>(work: Work<T>, occupied: seq<OccupiedWork>, used: Resources, ceilings: Resources)
    ensures Admissible(work, occupied, used, ceilings) ==> Admissible(work, [], used, ceilings)
  {
  }

  ghost function Refused(decisions: seq<Decision>): (mask: seq<bool>)
    ensures |mask| == |decisions|
    ensures forall i :: 0 <= i < |mask| ==> mask[i] == decisions[i].Held?
  {
    seq(|decisions|, i requires 0 <= i < |decisions| => decisions[i].Held?)
  }

  /** The held items are those of the works not picked, in order. */
  lemma {:induction false} HeldItemsAreTheRest<T>(candidates: seq<Work<T>>, decisions: seq<Decision>)
    requires |decisions| == |candidates|
    ensures Firsts(HeldItems(candidates, decisions)) == ItemsOf(Pick(candidates, Refused(decisions)))
  {
    if candidates != [] {
      HeldItemsAreTheRest(candidates[1..], decisions[1..]);
      assert Refused(decisions)[1..] == Refused(decisions[1..]);
      var works, held := Pick(candidates, Refused(decisions)), HeldItems(candidates, decisions);
      var laterWorks, laterHeld := Pick(candidates[1..], Refused(decisions[1..])), HeldItems(candidates[1..], decisions[1..]);
      if decisions[0].Held? {
        assert works[0] == candidates[0] && works[1..] == laterWorks;
        assert held[0] == (candidates[0].item, decisions[0].reason) && held[1..] == laterHeld;
      } else {
        assert works == laterWorks && held == laterHeld;
      }
    }
  }

  /** Held items come with their own reasons: an item is listed with a reason exactly
      when a candidate with that item is held for it. */
  lemma {:induction false} HeldItemsAreExact<T>(candidates: seq<Work<T>>, decisions: seq<Decision>, item: T, reason: HoldReason)
    requires |decisions| == |candidates|
    ensures (item, reason) in HeldItems(candidates, decisions) <==>
      exists k :: 0 <= k < |candidates| && candidates[k].item == item && decisions[k] == Held(reason)
  {
    if candidates != [] {
      HeldItemsAreExact(candidates[1..], decisions[1..], item, reason);
      UnfoldFirst(candidates, decisions, [], []);
      assert forall k :: 0 < k < |candidates| ==> candidates[k] == candidates[1..][k - 1] && decisions[k] == decisions[1..][k - 1];
      if k :| 0 <= k < |candidates| - 1 && candidates[1..][k].item == item && decisions[1..][k] == Held(reason) {
        assert candidates[k + 1].item == item && decisions[k + 1] == Held(reason);
      }
    }
  }
}
