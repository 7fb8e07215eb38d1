/**
 * The two-tier cache of country profiles: a module-level payload in memory
 * and a payload file, both valid for twelve hours, in front of a full
 * rebuild from the three sources. Clock readings are parameters, in
 * milliseconds; the payload file is an optional snapshot (`None` when it is
 * missing or unreadable), and the outcome of each file write is a parameter.
 */
module Cache {
  import opened Common
  import opened Profiles

  /** `CACHE_TTL_MS`: twelve hours. */
  const TTL_MS: int := 12 * 60 * 60 * 1000

  /** A cached payload; `updatedAt` is absent when the file has none. */
  datatype Payload = Payload(updatedAt: Option<int>, profiles: map<string, Profile>)

  /**
   * How `writeCacheFile` ended. Its failures are ignored, and they differ only
   * in what they leave behind: the old file (the directory or the file could
   * not be opened) or a file that no longer parses (the write failed after
   * truncating it), which `readCacheFile` then reads as `null`.
   */
  datatype WriteOutcome = Written | Kept | Damaged

  /** Both tiers: `memoryCache` and the payload file. */
  datatype Tiers = Tiers(memory: Option<Payload>, disk: Option<Payload>)

  /** `p.updatedAt && now - p.updatedAt < CACHE_TTL_MS`. */
  predicate Fresh(p: Payload, now: int)
  {
    p.updatedAt.Some? && now - p.updatedAt.value < TTL_MS
  }

  /**
   * `buildAndCacheProfiles` on the tiers `t`: the payload stamped `stamp`,
   * adopted into memory, and the file left as `write` says; a failed build
   * leaves both tiers as they were.
   */
  function Rebuilt(t: Tiers, stamp: int, up: Upstream, write: WriteOutcome): (res: (Result<Payload>, Tiers))
    ensures res.0.Ok? <==> Build(up).Ok?
    ensures res.0.Ok? ==> res.0.value == Payload(Some(stamp), Build(up).value) && res.1.memory == Some(res.0.value)
    ensures res.0.Ok? && write == Written ==> res.1.disk == Some(res.0.value)
    ensures res.0.Ok? && write == Kept ==> res.1.disk == t.disk
    ensures res.0.Ok? && write == Damaged ==> res.1.disk == None
    ensures res.0.Err? ==> res.0.error == Build(up).error && res.1 == t
  {
    match Build(up)
    case Err(e) => (Err(e), t)
    case Ok(profiles) =>
      var p := Payload(Some(stamp), profiles);
      (Ok(p), Tiers(Some(p), AfterWrite(t.disk, p, write)))
  }

  /** The payload file after `writeCacheFile(p)` ended as `write`. */
  function AfterWrite(file: Option<Payload>, p: Payload, write: WriteOutcome): Option<Payload>
  {
    match write
    case Written => Some(p)
    case Kept => file
    case Damaged => None
  }

  /**
   * `getCountryProfiles({ forceRefresh: force })` at time `now`: the result
   * and the new tiers. A successful call leaves the returned payload in
   * memory; a failed one changes nothing; the file is untouched, or it
   * receives the returned payload, or a failed write leaves it unreadable.
   */
  function Get(t: Tiers, force: bool, now: int, stamp: int, up: Upstream, write: WriteOutcome): (res: (Result<Payload>, Tiers))
    ensures res.0.Ok? ==> res.1.memory == Some(res.0.value)
    ensures res.0.Err? ==> res.1 == t
    ensures res.1.disk == t.disk || (res.0.Ok? && res.1.disk in {Some(res.0.value), None})
  {
    if !force && t.memory.Some? && Fresh(t.memory.value, now) then (Ok(t.memory.value), t)
    else if !force && t.disk.Some? && Fresh(t.disk.value, now) then (Ok(t.disk.value), Tiers(t.disk, t.disk))
    else Rebuilt(t, stamp, up, write)
  }

  /** A fresh memory payload is returned as it is, with no rebuild and no file read. */
  lemma MemoryHit(memory: Option<Payload>, disk: Option<Payload>, now: int, stamp: int, up: Upstream, write: WriteOutcome)
    requires memory.Some? && Fresh(memory.value, now)
    ensures Get(Tiers(memory, disk), false, now, stamp, up, write) == (Ok(memory.value), Tiers(memory, disk))
  {
  }

  /** Otherwise a fresh file payload is adopted into memory and returned, whatever the sources hold. */
  lemma FileHit(t: Tiers, now: int, stamp: int, up: Upstream, write: WriteOutcome, up': Upstream, stamp': int,
                write': WriteOutcome)
    requires t.memory.None? || !Fresh(t.memory.value, now)
    requires t.disk.Some? && Fresh(t.disk.value, now)
    ensures Get(t, false, now, stamp, up, write) == (Ok(t.disk.value), Tiers(t.disk, t.disk))
    ensures Get(t, false, now, stamp, up, write) == Get(t, false, now, stamp', up', write')
  {
  }

  /** A forced call ignores both tiers and rebuilds. */
  lemma ForcedRebuilds(t: Tiers, now: int, stamp: int, up: Upstream, write: WriteOutcome)
    ensures Get(t, true, now, stamp, up, write) == Rebuilt(t, stamp, up, write)
    ensures Get(t, true, now, stamp, up, write).0.Ok? <==> Build(up).Ok?
  {
  }

  /**
   * After a successful call, memory holds exactly the returned payload
   * (even when the file write failed), and that payload is either one that
   * was fresh at `now` or the new one stamped `stamp`.
   */
  lemma MemoryHoldsResult(t: Tiers, force: bool, now: int, stamp: int, up: Upstream, write: WriteOutcome)
    requires Get(t, force, now, stamp, up, write).0.Ok?
    ensures var (r, t') := Get(t, force, now, stamp, up, write);
      && t'.memory == Some(r.value)
      && r.value.updatedAt.Some?
      && (Fresh(r.value, now) || (r.value.updatedAt == Some(stamp) && Build(up) == Ok(r.value.profiles)))
  {
  }

  /** A failed call changes neither tier. */
  lemma FailureKeepsTiers(t: Tiers, force: bool, now: int, stamp: int, up: Upstream, write: WriteOutcome)
    requires Get(t, force, now, stamp, up, write).0.Err?
    ensures Get(t, force, now, stamp, up, write).1 == t
    ensures Build(up).Err? && Get(t, force, now, stamp, up, write).0.error == Build(up).error
  {
  }

  /**
   * A second unforced call while the first result is still fresh is served
   * from memory: same payload, tiers unchanged, no rebuild.
   */
  lemma SecondCallServedFromMemory(t: Tiers, force: bool, now: int, stamp: int, up: Upstream, write: WriteOutcome,
                                   now': int, stamp': int, up': Upstream, write': WriteOutcome)
    requires Get(t, force, now, stamp, up, write).0.Ok?
    requires Fresh(Get(t, force, now, stamp, up, write).0.value, now')
    ensures var (r, t') := Get(t, force, now, stamp, up, write);
      Get(t', false, now', stamp', up', write') == (r, t')
  {
    MemoryHoldsResult(t, force, now, stamp, up, write);
  }

  /** A rebuild stamped at `stamp` stays fresh for exactly twelve hours. */
  lemma RebuildFreshFor(t: Tiers, stamp: int, up: Upstream, write: WriteOutcome, now': int)
    requires Rebuilt(t, stamp, up, write).0.Ok?
    ensures Fresh(Rebuilt(t, stamp, up, write).0.value, now') <==> now' < stamp + TTL_MS
  {
  }

  /**
   * A write that failed after truncating the file leaves nothing to fall
   * back on: once the rebuilt payload is stale in memory, the next unforced
   * call rebuilds instead of reading the file.
   */
  lemma DamagedFileRebuilds(t: Tiers, stamp: int, up: Upstream, now: int, stamp': int, up': Upstream,
                            write': WriteOutcome)
    requires Rebuilt(t, stamp, up, Damaged).0.Ok?
    requires !Fresh(Rebuilt(t, stamp, up, Damaged).0.value, now)
    ensures var t' := Rebuilt(t, stamp, up, Damaged).1;
      t'.disk == None && Get(t', false, now, stamp', up', write') == Rebuilt(t', stamp', up', write')
  {
  }

  /** The service's module state: `memoryCache` and the cache file. */
  class ProfileCache {
    var memory: Option<Payload>
    var disk: Option<Payload>

    /** A fresh process: nothing in memory, whatever the file holds. */
    constructor(file: Option<Payload>)
      ensures memory == None && disk == file
    {
      memory := None;
      disk := file;
    }

    function State(): Tiers
      reads this
    {
      Tiers(memory, disk)
    }

    /** `buildAndCacheProfiles`: build, write the file (a failed write is ignored), adopt into memory. */
    method BuildAndCache(stamp: int, up: Upstream, write: WriteOutcome) returns (r: Result<Payload>)
      modifies this
      ensures (r, State()) == Rebuilt(old(State()), stamp, up, write)
    {
      var profiles := Build(up);
      if profiles.Err? {
        return Err(profiles.error);
      }
      var payload := Payload(Some(stamp), profiles.value);
      disk := AfterWrite(disk, payload, write);
      memory := Some(payload);
      r := Ok(payload);
    }

    /** `getCountryProfiles`: memory, then the file, then a rebuild. */
    method GetCountryProfiles(force: bool, now: int, stamp: int, up: Upstream, write: WriteOutcome)
      returns (r: Result<Payload>)
      modifies this
      ensures (r, State()) == Get(old(State()), force, now, stamp, up, write)
    {
      if !force && memory.Some? && Fresh(memory.value, now) {
        return Ok(memory.value);
      }
      if !force {
        var cache := disk;
        if cache.Some? && Fresh(cache.value, now) {
          memory := cache;
          return Ok(cache.value);
        }
      }
      r := BuildAndCache(stamp, up, write);
    }
  }
}
