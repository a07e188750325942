/** The monitor's prediction of how much RAM an AGI host needs, and its agreement with the split
    that `agi create` makes of the host the monitor then asks for. */
module MonitorSizing {
  import opened PebbleSizing

  /** The sizing knobs of the monitor that the formula reads. */
  datatype Knobs = Knobs(
    ramFloorGB: int,
    cachePeakMultiplier: int,
    ramThresMinFreeGB: int,
    cacheTargetPct: int,
    cacheMinGB: int,
    cacheMaxGB: int)

  const DEFAULTS := Knobs(10, 4, 2, 10, 1, 16)

  /** Go's conversion of a float to an integer: it truncates toward zero. */
  function Trunc(x: real): int {
    if x >= 0.0 then x.Floor else -((-x).Floor)
  }

  function CacheTargetGB(k: Knobs, logSizeBytes: int): real {
    var wanted := (k.cacheTargetPct as real) / 100.0 * (logSizeBytes as real / GIB as real);
    var floored := if wanted < k.cacheMinGB as real then k.cacheMinGB as real else wanted;
    if k.cacheMaxGB > 0 && floored > k.cacheMaxGB as real then k.cacheMaxGB as real else floored
  }

  function Multiplier(k: Knobs): real {
    if k.cachePeakMultiplier <= 0 then 1.0 else k.cachePeakMultiplier as real
  }

  /** The `+ 0.5` makes this round to nearest: it can predict up to half a GiB less than the
      formula asks for. */
  function RequiredRamGB(k: Knobs, logSizeBytes: int): int {
    Trunc(k.ramFloorGB as real + Multiplier(k) * CacheTargetGB(k, logSizeBytes)
          + k.ramThresMinFreeGB as real + 0.5)
  }

  /** `create` accepts the host and gives Pebble at least the cache the monitor aimed for. */
  ghost predicate Serves(k: Knobs, logSizeBytes: int, total: int, backend: Backend) {
    && AvailableMemory(total, backend).Usable?
    && PlanFor(total, backend).cache as real >= CacheTargetGB(k, logSizeBytes) * GIB as real
  }

  /** The two sides are in lockstep: every host with the predicted RAM serves the ingest it was
      predicted for. */
  ghost predicate Lockstep(k: Knobs, backend: Backend) {
    forall logSizeBytes: int, total: int ::
      total >= RequiredRamGB(k, logSizeBytes) * GIB ==> Serves(k, logSizeBytes, total, backend)
  }

  /** The cache target apart from its formula, in whole numbers: a percentage of the log size where that
      lies between the limits, otherwise the limit it crosses. A ceiling of zero or less is none, and a
      positive ceiling wins over the floor. */
  lemma TargetExact(k: Knobs, logSizeBytes: int)
    ensures
      var t := CacheTargetGB(k, logSizeBytes);
      var share, unit := k.cacheTargetPct * logSizeBytes, 100 * 1073741824;
      && (k.cacheMaxGB > 0 && (share > k.cacheMaxGB * unit || k.cacheMinGB > k.cacheMaxGB)
          ==> t == k.cacheMaxGB as real)
      && (share < k.cacheMinGB * unit && !(0 < k.cacheMaxGB < k.cacheMinGB) ==> t == k.cacheMinGB as real)
      && (k.cacheMinGB * unit <= share && (k.cacheMaxGB <= 0 || share <= k.cacheMaxGB * unit)
            && !(0 < k.cacheMaxGB < k.cacheMinGB)
          ==> t * unit as real == share as real)
  {
    var share := k.cacheTargetPct * logSizeBytes;
    var wanted := (k.cacheTargetPct as real) / 100.0 * (logSizeBytes as real / GIB as real);
    WantedIsShare(k.cacheTargetPct, logSizeBytes);
    assert wanted * 107374182400.0 == share as real;
  }

  lemma WantedIsShare(pct: int, bytes: int)
    ensures (pct as real) / 100.0 * (bytes as real / 1073741824.0) * 107374182400.0 == (pct * bytes) as real
  {
    var p, b := pct as real, bytes as real;
    assert p / 100.0 * 100.0 == p && b / 1073741824.0 * 1073741824.0 == b;
    assert p / 100.0 * (b / 1073741824.0) * (100.0 * 1073741824.0)
        == (p / 100.0 * 100.0) * (b / 1073741824.0 * 1073741824.0);
    assert p * b == (pct * bytes) as real;
  }

  /** The prediction is the formula rounded to nearest: at most half a GiB off to either side, a half
      rounding up; it does not round up in general. (A formula below minus a half rounds toward zero.) */
  lemma RequiredIsNearest(k: Knobs, logSizeBytes: int)
    ensures
      var m := if k.cachePeakMultiplier <= 0 then 1.0 else k.cachePeakMultiplier as real;
      var exact := k.ramFloorGB as real + m * CacheTargetGB(k, logSizeBytes) + k.ramThresMinFreeGB as real;
      var r := RequiredRamGB(k, logSizeBytes) as real;
      if exact >= -0.5 then exact - 0.5 < r <= exact + 0.5 else exact + 0.5 <= r < exact + 1.5
  {
  }

  /** With the default knobs, in whole numbers: 16 GiB up to 10 GiB of logs, 76 GiB from 160 GiB of logs,
      and in between ten times the prediction is within five of 120 plus four per GiB of logs. */
  lemma DefaultPrediction(logSizeBytes: int)
    ensures
      var r := RequiredRamGB(DEFAULTS, logSizeBytes);
      if logSizeBytes <= 10 * GIB then r == 16
      else if logSizeBytes >= 160 * GIB then r == 76
      else (10 * r - 5) * GIB <= 120 * GIB + 4 * logSizeBytes < (10 * r + 5) * GIB
  {
    TargetExact(DEFAULTS, logSizeBytes);
    RequiredIsNearest(DEFAULTS, logSizeBytes);
  }

  /** What is left of the formula after rounding, when the multiplier is at least 4. */
  lemma RequiredAtLeast(k: Knobs, logSizeBytes: int, target: real)
    requires k.ramFloorGB >= 0 && k.ramThresMinFreeGB >= 0 && k.cachePeakMultiplier >= 4
    requires target == CacheTargetGB(k, logSizeBytes) >= 0.0
    ensures RequiredRamGB(k, logSizeBytes) as real >=
            k.ramFloorGB as real + 4.0 * target + k.ramThresMinFreeGB as real - 0.5
  {
    var product := Multiplier(k) * CacheTargetGB(k, logSizeBytes);
    assert Multiplier(k) >= 4.0;
    assert product >= 4.0 * CacheTargetGB(k, logSizeBytes);
  }

  /** The create side turns 4 GiB of host per GiB of cache, and 8.5 GiB on top, into that cache. */
  lemma HostYieldsCache(target: real, total: int, backend: Backend)
    requires !backend.Docker? && 1.0 <= target <= 16.0
    requires total as real >= (4.0 * target + 8.5) * 1073741824.0
    ensures AvailableMemory(total, backend).Usable?
    ensures PlanFor(total, backend).cache as real >= target * 1073741824.0
  {
    assert total as real >= 12.5 * 1073741824.0;
    AcceptedPlan(total, backend);
  }

  /** Lockstep for every knob setting that keeps the documented relations to the create side, with
      `ramThresMinFreeGB + 1` GiB to spare: the host may report that much less than its nominal
      RAM. */
  lemma LockstepWithHeadroom(k: Knobs, logSizeBytes: int, total: int, backend: Backend)
    requires !backend.Docker?
    requires k.ramFloorGB >= 10 && k.cachePeakMultiplier >= 4 && k.ramThresMinFreeGB >= 0
    requires 1 <= k.cacheMinGB && 1 <= k.cacheMaxGB <= 16
    requires total >= (RequiredRamGB(k, logSizeBytes) - k.ramThresMinFreeGB - 1) * GIB
    ensures Serves(k, logSizeBytes, total, backend)
  {
    var target := CacheTargetGB(k, logSizeBytes);
    assert 1.0 <= target <= 16.0;
    RequiredAtLeast(k, logSizeBytes, target);
    var n := RequiredRamGB(k, logSizeBytes) - k.ramThresMinFreeGB - 1;
    assert n as real >= 4.0 * target + 8.5;
    assert total as real >= (n as real) * 1073741824.0;
    HostYieldsCache(target, total, backend);
  }

  /** In particular every host with the whole predicted RAM serves. */
  lemma RequiredRamServes(k: Knobs, logSizeBytes: int, total: int, backend: Backend)
    requires !backend.Docker?
    requires k.ramFloorGB >= 10 && k.cachePeakMultiplier >= 4 && k.ramThresMinFreeGB >= 0
    requires 1 <= k.cacheMinGB && 1 <= k.cacheMaxGB <= 16
    requires total >= RequiredRamGB(k, logSizeBytes) * GIB
    ensures Serves(k, logSizeBytes, total, backend)
  {
    var r := RequiredRamGB(k, logSizeBytes);
    assert (r - k.ramThresMinFreeGB - 1) * GIB <= r * GIB;
    LockstepWithHeadroom(k, logSizeBytes, total, backend);
  }

  lemma DefaultsAreInLockstep(backend: Backend)
    requires !backend.Docker?
    ensures Lockstep(DEFAULTS, backend)
  {
    forall logSizeBytes: int, total: int | total >= RequiredRamGB(DEFAULTS, logSizeBytes) * GIB
      ensures Serves(DEFAULTS, logSizeBytes, total, backend)
    {
      RequiredRamServes(DEFAULTS, logSizeBytes, total, backend);
    }
  }

  /** With the other knobs at their defaults, the cache ceiling must be a real one and no higher
      than the create side's own 16 GiB cap. Zero switches the clamp off and breaks lockstep. */
  lemma LockstepExactInCacheMax(cacheMaxGB: int, backend: Backend)
    requires !backend.Docker?
    ensures Lockstep(DEFAULTS.(cacheMaxGB := cacheMaxGB), backend) <==> 1 <= cacheMaxGB <= 16
  {
    var k := DEFAULTS.(cacheMaxGB := cacheMaxGB);
    if 1 <= cacheMaxGB <= 16 {
      forall logSizeBytes: int, total: int | total >= RequiredRamGB(k, logSizeBytes) * GIB
        ensures Serves(k, logSizeBytes, total, backend)
      {
        RequiredRamServes(k, logSizeBytes, total, backend);
      }
    } else {
      // 170 GiB of logs aim for a 17 GiB cache, which no host is given.
      var logs, total := 170 * GIB, RequiredRamGB(k, 170 * GIB) * GIB;
      assert CacheTargetGB(k, logs) == 17.0;
      assert !Serves(k, logs, total, backend);
    }
  }

  /** With the other knobs at their defaults, 4 is the least multiplier that keeps lockstep. */
  lemma LockstepExactInMultiplier(multiplier: int, backend: Backend)
    requires !backend.Docker?
    ensures Lockstep(DEFAULTS.(cachePeakMultiplier := multiplier), backend) <==> multiplier >= 4
  {
    var k := DEFAULTS.(cachePeakMultiplier := multiplier);
    if multiplier >= 4 {
      forall logSizeBytes: int, total: int | total >= RequiredRamGB(k, logSizeBytes) * GIB
        ensures Serves(k, logSizeBytes, total, backend)
      {
        RequiredRamServes(k, logSizeBytes, total, backend);
      }
    } else {
      var logs := 160 * GIB;
      assert CacheTargetGB(k, logs) == 16.0;
      assert Multiplier(k) in {1.0, 2.0, 3.0};
      assert RequiredRamGB(k, logs) <= 60;
      var total := 60 * GIB;
      assert PlanFor(total, backend).cache == 15 * GIB;
      assert !Serves(k, logs, total, backend);
    }
  }
}
