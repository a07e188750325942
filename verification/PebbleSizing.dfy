/** How `agi create` splits a host's RAM between the OS, the merged AGI process,
    Pebble's block cache and Pebble's memtables. All quantities are bytes. */
module PebbleSizing {

  const MIB := 1024 * 1024
  const GIB := 1024 * MIB

  const NON_PEBBLE_OVERHEAD := 4 * GIB
  const EFS_JITTER_FLOOR := 8
  const THRESHOLD_CEILING := 32

  datatype Backend = Aws | Gcp | Docker

  /** Go's integer division by a positive constant: it truncates toward zero. */
  function Quo(a: int, b: int): int
    requires b > 0
  {
    if a >= 0 then a / b else -((-a) / b)
  }

  function OSReserve(backend: Backend): int {
    if backend.Docker? then 3 * GIB else 6 * GIB
  }

  datatype MemoryReport = NotEnoughRam | Usable(totalMem: int, memSize: int)

  /** The acceptance test applied to the total that `free -b` reports. */
  function AvailableMemory(total: int, backend: Backend): MemoryReport {
    var memSize := total - OSReserve(backend);
    var minViable := if backend.Docker? then GIB else NON_PEBBLE_OVERHEAD + GIB;
    if memSize < minViable then NotEnoughRam else Usable(total, memSize)
  }

  function TotalBudget(totalMem: int, memSize: int, backend: Backend): int {
    if backend.Docker? then Quo(memSize, 2)
    else
      var halfHost := Quo(totalMem, 2);
      var afterOverhead := if memSize - NON_PEBBLE_OVERHEAD < 0 then 0 else memSize - NON_PEBBLE_OVERHEAD;
      var budget := if afterOverhead < halfHost then afterOverhead else halfHost;
      if budget < 512 * MIB then 512 * MIB else budget
  }

  function CacheBytes(totalMem: int, memSize: int, backend: Backend): int {
    var half := if backend.Docker? then Quo(memSize, 2) else Quo(TotalBudget(totalMem, memSize, backend), 2);
    var floored := if half < 256 * MIB then 256 * MIB else half;
    if floored > 16 * GIB then 16 * GIB else floored
  }

  /** What the block cache leaves of the budget. */
  function MemTableBudget(totalMem: int, memSize: int, backend: Backend): int {
    TotalBudget(totalMem, memSize, backend) - CacheBytes(totalMem, memSize, backend)
  }

  function MemTableBytes(totalMem: int, memSize: int, backend: Backend): int {
    if backend.Docker? then
      if memSize >= 6 * GIB then 256 * MIB else 64 * MIB
    else
      var memtableBudget := MemTableBudget(totalMem, memSize, backend);
      if memtableBudget < 64 * MIB then 64 * MIB
      else
        var per := Quo(memtableBudget, EFS_JITTER_FLOOR);
        if per >= GIB then GIB
        else if per >= 512 * MIB then 512 * MIB
        else if per >= 256 * MIB then 256 * MIB
        else if per >= 128 * MIB then 128 * MIB
        else 64 * MIB
  }

  function StopWritesThreshold(totalMem: int, memSize: int, memTableBytes: nat, backend: Backend): int {
    if backend.Docker? then 0
    else if memTableBytes == 0 then EFS_JITTER_FLOOR
    else
      var mb := MemTableBudget(totalMem, memSize, backend);
      var n := (if mb < 0 then 0 else mb) / memTableBytes;
      if n < EFS_JITTER_FLOOR then EFS_JITTER_FLOOR
      else if n > THRESHOLD_CEILING then THRESHOLD_CEILING
      else n
  }

  function LBaseMaxBytes(backend: Backend, memTableBytes: int): int {
    if backend.Docker? then 0 else memTableBytes * 4
  }

  /** The values that `generateConfigs` derives for one host. */
  datatype Plan = Plan(budget: int, cache: int, memTable: int, threshold: int, lbase: int)
  {
    /** RAM held by memtables when writers are just about to be stopped. */
    function MemTablePeak(): int { threshold * memTable }
  }

  function PlanFor(total: int, backend: Backend): (p: Plan)
    ensures p.memTable in {64 * MIB, 128 * MIB, 256 * MIB, 512 * MIB, GIB}
  {
    var memSize := total - OSReserve(backend);
    var mt := MemTableBytes(total, memSize, backend);
    Plan(TotalBudget(total, memSize, backend), CacheBytes(total, memSize, backend), mt,
         StopWritesThreshold(total, memSize, mt, backend), LBaseMaxBytes(backend, mt))
  }

  /** Everything Pebble may hold at its peak fits its own budget; the budget is at most half
      the host and leaves the OS reserve and the process overhead untouched. */
  ghost predicate Conserves(total: int, p: Plan) {
    && p.cache + p.MemTablePeak() <= p.budget
    && 2 * p.budget <= total
    && p.budget + NON_PEBBLE_OVERHEAD + 6 * GIB <= total
  }

  /** One rung of the memtable ladder: the rung is the largest that fits eight times, so the
      count lies in [8, 16) on every rung but the last. */
  lemma RungCount(mb: int, mt: int)
    requires mb >= 512 * MIB
    requires mt in {64 * MIB, 128 * MIB, 256 * MIB, 512 * MIB, GIB}
    requires mb / 8 >= mt
    requires mt < GIB ==> mb / 8 < 2 * mt
    ensures 8 <= mb / mt
    ensures mt < GIB ==> mb / mt < 16
    ensures (mb / mt) * mt <= mb < (mb / mt + 1) * mt
  {
  }

  /** The shape of the plan of an accepted cloud host. */
  lemma AcceptedPlan(total: int, backend: Backend)
    requires !backend.Docker? && AvailableMemory(total, backend).Usable?
    ensures
      var p := PlanFor(total, backend);
      var mb := p.budget - p.cache;
      && p.budget == (if total - 10 * GIB < total / 2 then total - 10 * GIB else total / 2)
      && p.cache == (if p.budget / 2 > 16 * GIB then 16 * GIB else p.budget / 2)
      && 512 * MIB <= mb
      && mb / 8 >= p.memTable && (p.memTable < GIB ==> mb / 8 < 2 * p.memTable)
      && 8 <= mb / p.memTable && (p.memTable < GIB ==> mb / p.memTable < 16)
      && p.threshold == (if mb / p.memTable > 32 then 32 else mb / p.memTable)
      && (mb / p.memTable) * p.memTable <= mb
  {
    var p := PlanFor(total, backend);
    RungCount(p.budget - p.cache, p.memTable);
  }

  lemma MemoryIsConserved(total: int, backend: Backend)
    requires !backend.Docker? && AvailableMemory(total, backend).Usable?
    ensures Conserves(total, PlanFor(total, backend))
    ensures 8 <= PlanFor(total, backend).threshold <= 32
    ensures 512 * MIB <= PlanFor(total, backend).cache <= 16 * GIB
  {
    AcceptedPlan(total, backend);
  }

  /** The 5 GiB acceptance cut-off is tight to the byte: over every host size, the peak fits the
      budget exactly from one byte below the smallest accepted host upwards. */
  lemma PeakFitsExactlyFromCutoff(total: int, backend: Backend)
    requires !backend.Docker?
    ensures
      var p := PlanFor(total, backend);
      p.cache + p.MemTablePeak() <= p.budget <==> total >= 11 * GIB - 1
    ensures AvailableMemory(total, backend).Usable? <==> total >= 11 * GIB
  {
    if total >= 11 * GIB {
      AcceptedPlan(total, backend);
    } else {
      SmallHostPlan(total, backend);
    }
  }

  /** Below the cut-off the smallest memtable is picked and the floor of eight always wins. */
  lemma SmallHostPlan(total: int, backend: Backend)
    requires !backend.Docker? && total < 11 * GIB
    ensures
      var p := PlanFor(total, backend);
      && p.memTable == 64 * MIB && p.threshold == 8
      && p.budget - p.cache <= 512 * MIB
      && (p.budget - p.cache == 512 * MIB <==> total == 11 * GIB - 1)
  {
    var p := PlanFor(total, backend);
    assert 512 * MIB <= p.budget <= GIB - 1;
    assert p.budget == GIB - 1 <==> total == 11 * GIB - 1;
    assert p.cache == p.budget / 2;
  }

  ghost predicate OnRung(mb: int, mt: int, threshold: int) {
    && mt in {64 * MIB, 128 * MIB, 256 * MIB, 512 * MIB, GIB}
    && 8 * mt <= mb && (mt < GIB ==> mb < 16 * mt)
    && threshold == (if mb / mt > 32 then 32 else mb / mt)
  }

  /** The plan of an accepted cloud host, without the floors that no longer bind. */
  ghost predicate CloudPlan(total: int, p: Plan) {
    && p.budget == (if total - 10 * GIB < total / 2 then total - 10 * GIB else total / 2)
    && p.cache == (if p.budget / 2 > 16 * GIB then 16 * GIB else p.budget / 2)
    && OnRung(p.budget - p.cache, p.memTable, p.threshold)
    && p.lbase == 4 * p.memTable
  }

  lemma AcceptedIsCloudPlan(total: int, backend: Backend)
    requires !backend.Docker? && AvailableMemory(total, backend).Usable?
    ensures CloudPlan(total, PlanFor(total, backend))
  {
    AcceptedPlan(total, backend);
  }

  lemma CloudPlansAreMonotone(small: int, p: Plan, large: int, q: Plan)
    requires 0 <= small <= large && CloudPlan(small, p) && CloudPlan(large, q)
    ensures p.budget <= q.budget && p.cache <= q.cache && p.memTable <= q.memTable
    ensures p.lbase <= q.lbase && p.MemTablePeak() <= q.MemTablePeak()
  {
    PeakIsMonotone(p.budget - p.cache, p.memTable, p.threshold, q.budget - q.cache, q.memTable, q.threshold);
  }

  /** More RAM never shrinks the cache, the memtables, LBase or the memtable peak. */
  lemma SizingIsMonotone(small: int, large: int, backend: Backend)
    requires !backend.Docker? && small <= large
    requires AvailableMemory(small, backend).Usable?
    ensures
      var p, q := PlanFor(small, backend), PlanFor(large, backend);
      && p.budget <= q.budget && p.cache <= q.cache && p.memTable <= q.memTable
      && p.lbase <= q.lbase && p.MemTablePeak() <= q.MemTablePeak()
  {
    AcceptedIsCloudPlan(small, backend);
    AcceptedIsCloudPlan(large, backend);
    CloudPlansAreMonotone(small, PlanFor(small, backend), large, PlanFor(large, backend));
  }

  lemma PeakIsMonotone(mp: int, mt: int, n: int, mq: int, mt': int, n': int)
    requires mp <= mq && OnRung(mp, mt, n) && OnRung(mq, mt', n')
    ensures mt <= mt' && n * mt <= n' * mt'
  {
    if mt == mt' {
      DivMono(mp, mq, mt);
      MulMono(n, n', mt);
    } else {
      // A lower rung holds less than sixteen of its memtables, that is eight of the next size.
      DivTimes(mp, mt);
      MulMono(n, mp / mt, mt);
      EightFit(mq, mt');
      MulMono(8, n', mt');
    }
  }

  lemma DivMono(a: int, b: int, d: int)
    requires a <= b && d > 0
    ensures a / d <= b / d
  {
    if a / d > b / d {
      MulMono(b / d + 1, a / d, d);
      assert false;
    }
  }

  lemma MulMono(a: int, b: int, d: int)
    requires a <= b && d > 0
    ensures a * d <= b * d
  {
  }

  lemma DivTimes(a: int, d: int)
    requires d > 0
    ensures (a / d) * d <= a
  {
  }

  lemma EightFit(a: int, d: int)
    requires d > 0 && 8 * d <= a
    ensures 8 <= a / d
  {
    if a / d < 8 {
      MulMono(a / d + 1, 8, d);
      assert false;
    }
  }

  lemma CountAtLowerRungs(total: int, backend: Backend)
    requires !backend.Docker? && AvailableMemory(total, backend).Usable?
    ensures PlanFor(total, backend).memTable < GIB ==> PlanFor(total, backend).threshold <= 15
  {
    AcceptedPlan(total, backend);
  }

  lemma CountOnOneRung(small: int, p: Plan, large: int, q: Plan)
    requires 0 <= small <= large && CloudPlan(small, p) && CloudPlan(large, q) && p.memTable == q.memTable
    ensures p.threshold <= q.threshold
  {
    DivMono(p.budget - p.cache, q.budget - q.cache, p.memTable);
  }

  /** No accepted smaller host has a higher count. */
  ghost predicate CountNeverFellTo(large: int, backend: Backend) {
    forall small: int | small <= large && AvailableMemory(small, backend).Usable? ::
      PlanFor(small, backend).threshold <= PlanFor(large, backend).threshold
  }

  /** Where the count has not fallen: exactly on the hosts of the smallest rung, and on those with at
      least fifteen memtables. */
  lemma ThresholdNeverFellExactly(large: int, backend: Backend)
    requires !backend.Docker? && AvailableMemory(large, backend).Usable?
    ensures CountNeverFellTo(large, backend)
       <==> PlanFor(large, backend).memTable == 64 * MIB || PlanFor(large, backend).threshold >= 15
  {
    var q := PlanFor(large, backend);
    if q.memTable == 64 * MIB || q.threshold >= 15 {
      forall small: int | small <= large && AvailableMemory(small, backend).Usable?
        ensures PlanFor(small, backend).threshold <= q.threshold
      {
        SizingIsMonotone(small, large, backend);
        CountAtLowerRungs(small, backend);
        if PlanFor(small, backend).memTable == q.memTable {
          AcceptedIsCloudPlan(small, backend);
          AcceptedIsCloudPlan(large, backend);
          CountOnOneRung(small, PlanFor(small, backend), large, q);
        }
      }
    } else {
      // The greatest host of the smallest rung has fifteen of its memtables.
      var small := 12 * GIB - 2;
      assert PlanFor(small, backend).threshold == 15;
      AcceptedIsCloudPlan(large, backend);
      assert small <= large;
    }
  }

  /** And it does fall: one more GiB can trade fifteen half-GiB memtables for eight of twice the
      size. */
  lemma ThresholdIsNotMonotone()
    ensures PlanFor(31 * GIB, Aws).threshold == 15 && PlanFor(31 * GIB, Aws).memTable == 512 * MIB
    ensures PlanFor(32 * GIB, Aws).threshold == 8 && PlanFor(32 * GIB, Aws).memTable == GIB
  {
  }

  /** The ceiling of 32 is never in play below the 1 GiB rung. */
  lemma CeilingBindsOnTopRungOnly(total: int, backend: Backend)
    requires !backend.Docker? && AvailableMemory(total, backend).Usable?
    ensures PlanFor(total, backend).threshold > 15 ==> PlanFor(total, backend).memTable == GIB
  {
    AcceptedPlan(total, backend);
  }
}
