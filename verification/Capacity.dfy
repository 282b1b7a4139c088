/** The closed-form Worker ceiling reported at setup, against the loop that admits Workers. */
module Capacity {
  import opened Prelude
  import opened Frontier
  import opened FrontierOptimality
  import opened Scheduling

  const WORKER_CPU_REQUEST_MILLIS: u64 := 250
  const WORKER_MEMORY_REQUEST_MIB: u64 := 320
  const HOST_MEMORY_RESERVE_MIB: u64 := 1024

  function Min(a: nat, b: nat): nat {
    if a <= b then a else b
  }

  function WorkerCeiling(cpus: u64, memoryMib: u64): nat
    requires cpus * 1000 < U64_LIMIT
  {
    Min(cpus * 1000 / WORKER_CPU_REQUEST_MILLIS,
        SaturatingSub(memoryMib, HOST_MEMORY_RESERVE_MIB) / WORKER_MEMORY_REQUEST_MIB)
  }

  /** The examples that the repository fixes: memory binds, CPU binds, CPU binds, nothing fits. */
  lemma WorkerCeilingExamples()
    ensures WorkerCeiling(12, 7837) == 21 && WorkerCeiling(12, 16384) == 48
    ensures WorkerCeiling(2, 65536) == 8 && WorkerCeiling(12, 1300) == 0
  {
  }

  /** The host dimensions of the ceilings that admission uses. */
  ghost predicate HostCeilings(ceilings: Resources, cpus: u64, memoryMib: u64) {
    && ceilings.cpuMillis == cpus * 1000
    && ceilings.memoryMib == SaturatingSub(memoryMib, HOST_MEMORY_RESERVE_MIB)
  }

  ghost predicate AllWorkers(works: seq<Task>, worker: Resources) {
    forall i :: 0 <= i < |works| ==> works[i].resources == worker
  }

  /** The first `n` copies of a request fit beside what is used. */
  ghost predicate CopiesFit(n: nat, used: Resources, worker: Resources, ceilings: Resources) {
    used.cpuMillis + n * worker.cpuMillis <= ceilings.cpuMillis && used.memoryMib + n * worker.memoryMib <= ceilings.memoryMib
  }

  lemma {:induction false} AtLeastOnce(n: nat, x: nat)
    requires n >= 1
    ensures x <= n * x
  {
    if n > 1 {
      AtLeastOnce(n - 1, x);
      assert n * x == (n - 1) * x + x;
    }
  }

  lemma FullHostFitsNoCopies(n: nat, used: Resources, worker: Resources, ceilings: Resources)
    requires n >= 1 && !CopiesFit(1, used, worker, ceilings)
    ensures !CopiesFit(n, used, worker, ceilings)
  {
    AtLeastOnce(n, worker.cpuMillis);
    AtLeastOnce(n, worker.memoryMib);
  }

  lemma CopiesAfterReserve(n: nat, used: Resources, worker: Resources, ceilings: Resources)
    requires ResourcesFit(used, worker, ceilings) && HostFits(used, worker, ceilings)
    ensures CopiesFit(n + 1, used, worker, ceilings) <==> CopiesFit(n, Reserve(used, worker, ceilings), worker, ceilings)
  {
    assert (n + 1) * worker.cpuMillis == worker.cpuMillis + n * worker.cpuMillis;
    assert (n + 1) * worker.memoryMib == worker.memoryMib + n * worker.memoryMib;
  }

  /** Identical Workers are admitted in order until the host is full, then held for the host. */
  lemma {:induction false} IdenticalWorkers(works: seq<Task>, worker: Resources, occupied: seq<OccupiedWork>,
                                            used: Resources, ceilings: Resources, i: nat)
    requires AllWorkers(works, worker) && i < |works|
    requires PairwiseCompatible(works) && CompatibleWith(works, occupied)
    requires used.concurrency + |works| * worker.concurrency <= ceilings.concurrency
    requires used.storage + |works| * worker.storage <= ceilings.storage
    ensures Greedy(works, occupied, used, ceilings)[i] ==
      if CopiesFit(i + 1, used, worker, ceilings) then Admitted else Held(HostCapacityUnavailable)
    decreases i
  {
    var first, rest := works[0], works[1..];
    assert |works| * worker.concurrency == worker.concurrency + |rest| * worker.concurrency;
    assert |works| * worker.storage == worker.storage + |rest| * worker.storage;
    assert ResourcesFit(used, worker, ceilings);
    if i > 0 {
      forall k | 0 <= k < |rest| ensures !Conflicts(Occupy(rest[k]), Occupy(first)) {
        assert rest[k] == works[k + 1];
        ConflictIsSymmetric(Occupy(first), Occupy(rest[k]));
      }
      if HostFits(used, worker, ceilings) {
        IdenticalWorkers(rest, worker, occupied + [Occupy(first)], Reserve(used, worker, ceilings), ceilings, i - 1);
        CopiesAfterReserve(i, used, worker, ceilings);
      } else {
        IdenticalWorkers(rest, worker, occupied, used, ceilings, i - 1);
        FullHostFitsNoCopies(i, used, worker, ceilings);
        FullHostFitsNoCopies(i + 1, used, worker, ceilings);
      }
    }
  }

  lemma CopiesFitIsDivision(n: nat, request: nat, room: nat)
    requires request > 0
    ensures n * request <= room <==> n <= room / request
  {
    var q := room / request;
    assert q * request <= room < (q + 1) * request;
    if n <= q {
      assert n * request <= q * request;
    } else {
      assert n * request >= (q + 1) * request;
    }
  }

  /** Of any number of default Workers with disjoint scopes on an idle host, the
      frontier admits exactly the first `WorkerCeiling` and holds the others for
      host capacity, as long as the Commission's own limits do not bind. */
  lemma {:induction false} WorkerCeilingMatchesAdmission(works: seq<Task>, worker: Resources, cpus: u64, memoryMib: u64,
                                      ceilings: Resources, i: nat)
    requires cpus * 1000 < U64_LIMIT && HostCeilings(ceilings, cpus, memoryMib)
    requires worker.cpuMillis == WORKER_CPU_REQUEST_MILLIS && worker.memoryMib == WORKER_MEMORY_REQUEST_MIB
    requires AllWorkers(works, worker) && PairwiseCompatible(works) && i < |works|
    requires |works| * worker.concurrency <= ceilings.concurrency && |works| * worker.storage <= ceilings.storage
    ensures Greedy(works, [], Resources(0, 0, 0, 0), ceilings)[i] ==
      if i < WorkerCeiling(cpus, memoryMib) then Admitted else Held(HostCapacityUnavailable)
  {
    IdenticalWorkers(works, worker, [], Resources(0, 0, 0, 0), ceilings, i);
    CopiesFitIsDivision(i + 1, WORKER_CPU_REQUEST_MILLIS, ceilings.cpuMillis);
    CopiesFitIsDivision(i + 1, WORKER_MEMORY_REQUEST_MIB, ceilings.memoryMib);
  }
}
