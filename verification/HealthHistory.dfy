/**
 The HealthHistory object: a cache of the history file that verdicts are folded into, that is
 pruned, and that is merged with the file on every save.
 */
module HealthHistory {
  import opened Options
  import opened Sequences
  import opened Sorting
  import opened HealthRecords
  import opened HealthSources
  import opened HealthMerge

  /** The history file, shared by every process. */
  class SharedFile {
    var content: Option<HistoryFile>

    constructor (content: Option<HistoryFile>)
      ensures this.content == content
    {
      this.content := content;
    }
  }

  // ---- what one run saw of the sources ----

  function SourceOf(c: Checked): string {
    if c.source == "" then "?" else c.source
  }

  predicate Counted(c: Checked) {
    !("published-" <= SourceOf(c))
  }

  predicate CountedFor(c: Checked, source: string) {
    Counted(c) && SourceOf(c) == source
  }

  /** How many of the configs count for a source. */
  function Seen(checked: seq<Checked>, source: string): nat {
    if checked == [] then 0
    else Seen(checked[..|checked| - 1], source) + if CountedFor(checked[|checked| - 1], source) then 1 else 0
  }

  /** How many of them passed. */
  function SeenAlive(checked: seq<Checked>, source: string): nat {
    if checked == [] then 0
    else
      var c := checked[|checked| - 1];
      SeenAlive(checked[..|checked| - 1], source) + if CountedFor(c, source) && c.alive == Some(true) then 1 else 0
  }

  datatype Stats = Stats(checked: nat, alive: nat)

  ghost predicate RunStats(checked: seq<Checked>, stats: map<string, Stats>) {
    forall s :: if s in stats then Seen(checked, s) > 0 && stats[s] == Stats(Seen(checked, s), SeenAlive(checked, s))
                else Seen(checked, s) == 0 && SeenAlive(checked, s) == 0
  }

  lemma {:induction false} SeenIff(checked: seq<Checked>, source: string)
    ensures Seen(checked, source) > 0 <==> exists i :: 0 <= i < |checked| && CountedFor(checked[i], source)
  {
    if checked != [] {
      var before := checked[..|checked| - 1];
      SeenIff(before, source);
      assert forall i :: 0 <= i < |before| ==> before[i] == checked[i];
    }
  }

  lemma {:induction false} SeenAliveIff(checked: seq<Checked>, source: string)
    ensures SeenAlive(checked, source) <= Seen(checked, source)
    ensures SeenAlive(checked, source) > 0 <==>
            exists i :: 0 <= i < |checked| && CountedFor(checked[i], source) && checked[i].alive == Some(true)
  {
    if checked != [] {
      var before := checked[..|checked| - 1];
      SeenAliveIff(before, source);
      assert forall i :: 0 <= i < |before| ==> before[i] == checked[i];
    }
  }

  /** The names of the fast track are no sources, a config without a name counts for "?", and any other for its own. */
  lemma SourcesOfRun(checked: seq<Checked>, stats: map<string, Stats>, i: nat)
    requires RunStats(checked, stats) && i < |checked|
    ensures forall s :: s in stats ==> s != "" && !("published-" <= s)
    ensures forall s :: s in stats ==> stats[s].alive <= stats[s].checked
    ensures checked[i].source == "" ==> "?" in stats
    ensures checked[i].source != "" && !("published-" <= checked[i].source) ==> checked[i].source in stats
  {
    var c := checked[i];
    SeenIff(checked, SourceOf(c));
    assert Counted(c) ==> CountedFor(c, SourceOf(c));
    forall s | s in stats
      ensures s != "" && !("published-" <= s) && stats[s].alive <= stats[s].checked
    {
      SeenIff(checked, s);
      SeenAliveIff(checked, s);
    }
  }

  /** `source_run_stats`. */
  method SourceRunStats(checked: seq<Checked>) returns (stats: map<string, Stats>)
    ensures RunStats(checked, stats)
  {
    stats := map[];
    for i := 0 to |checked|
      invariant RunStats(checked[..i], stats)
    {
      var c := checked[i];
      ghost var done := checked[..i + 1];
      assert done[..|done| - 1] == checked[..i] && done[|done| - 1] == c;
      if Counted(c) {
        var source := SourceOf(c);
        var item := if source in stats then stats[source] else Stats(0, 0);
        stats := stats[source := Stats(item.checked + 1, if c.alive == Some(true) then item.alive + 1 else item.alive)];
      }
    }
    assert checked[..|checked|] == checked;
  }

  /** The source records after one run. */
  ghost predicate Measured(
    policy: SourcePolicy, before: map<string, SourceRecord>, stats: map<string, Stats>, now: int,
    after: map<string, SourceRecord>)
    requires policy.Sane()
  {
    && after.Keys == before.Keys + stats.Keys
    && forall s :: s in after ==>
         after[s] == if s !in stats then before[s]
                     else
                       var prior := if s in before then before[s] else NewSource;
                       Measure(policy, prior, Sample(stats[s].checked, stats[s].alive, now))
  }

  /** Each source that was counted has been seen once more, just now, with these numbers. */
  ghost predicate ShowsRun(
    before: map<string, SourceRecord>, stats: map<string, Stats>, now: int, after: map<string, SourceRecord>) {
    forall s :: s in stats ==>
      && s in after && after[s].updatedAt == now
      && after[s].runs == (if s in before then before[s].runs else 0) + 1
      && after[s].lastChecked == stats[s].checked && after[s].lastAlive == stats[s].alive
  }

  lemma MeasuredShowsRun(
    policy: SourcePolicy, before: map<string, SourceRecord>, stats: map<string, Stats>, now: int,
    after: map<string, SourceRecord>)
    requires policy.Sane() && Measured(policy, before, stats, now, after)
    ensures ShowsRun(before, stats, now, after)
  {
    forall s | s in stats
      ensures s in after && after[s].updatedAt == now
      ensures after[s].runs == (if s in before then before[s].runs else 0) + 1
      ensures after[s].lastChecked == stats[s].checked && after[s].lastAlive == stats[s].alive
    {
      assert s in after;
      MeasureShows(
        policy, if s in before then before[s] else NewSource, Sample(stats[s].checked, stats[s].alive, now));
    }
  }

  /** The loop of `update_sources`: one record after the other, each source once. */
  method UpdateEach<R>(before: map<string, R>, next: map<string, R>) returns (after: map<string, R>)
    ensures after.Keys == before.Keys + next.Keys
    ensures forall s :: s in after ==> after[s] == if s in next then next[s] else before[s]
  {
    after := before;
    var todo := next.Keys;
    while todo != {}
      invariant todo <= next.Keys
      invariant forall s :: s in after <==> s in before || (s in next && s !in todo)
      invariant forall s :: s in after ==> after[s] == if s in next && s !in todo then next[s] else before[s]
      decreases todo
    {
      var s :| s in todo;
      after := after[s := next[s]];
      todo := todo - {s};
    }
  }

  /** `del configs[key]` for the first n of the keys. */
  method RemoveFirst<R>(before: map<string, R>, keys: seq<string>, n: nat) returns (after: map<string, R>)
    requires n <= |keys|
    ensures after == before - (set k | k in keys[..n])
  {
    after := before;
    for i := 0 to n
      invariant forall k :: k in after <==> k in before && k !in keys[..i]
      invariant forall k :: k in after ==> after[k] == before[k]
    {
      assert keys[..i + 1] == keys[..i] + [keys[i]];
      after := after - {keys[i]};
    }
  }

  lemma EntriesInOrder(configs: map<string, Record>, now: int, entries: seq<(int, string)>, order: seq<string>)
    requires Distinct(entries)
    requires forall e :: e in entries <==> e.1 in Evictable(configs, now) && e.0 == configs[e.1].lastSeen
    requires |order| == |entries|
    requires forall i :: 0 <= i < |order| ==> order[i] == SortBy(entries, EntryLe)[i].1
    ensures OldestFirst(configs, now, order)
  {
    var sorted := SortBy(entries, EntryLe);
    EntryOrder();
    SortByOrders(entries, EntryLe);
    SortByDistinct(entries, EntryLe);
    SameElements(sorted, entries);
    forall i | 0 <= i < |order|
      ensures order[i] in Evictable(configs, now) && sorted[i] == (configs[order[i]].lastSeen, order[i])
    {
      assert sorted[i] in entries;
    }
    forall k | k in Evictable(configs, now)
      ensures k in order
    {
      assert (configs[k].lastSeen, k) in entries;
      var i :| 0 <= i < |sorted| && sorted[i] == (configs[k].lastSeen, k);
      assert order[i] == k;
    }
  }

  predicate EntryLe(a: (int, string), b: (int, string)) {
    a.0 < b.0 || (a.0 == b.0 && StringLe(a.1, b.1))
  }

  lemma EntryOrder()
    ensures TotalPreorder(EntryLe)
  {
    StringOrder();
  }

  /** The evictable keys, each once, oldest first. */
  ghost predicate OldestFirst(configs: map<string, Record>, now: int, order: seq<string>) {
    && Distinct(order)
    && (forall k :: k in order <==> k in Evictable(configs, now))
    && forall i, j :: 0 <= i < j < |order| ==>
         order[i] in configs && order[j] in configs && Older(configs, order[i], order[j])
  }

  /** `evictable.sort()`. */
  method EvictionOrder(configs: map<string, Record>, now: int) returns (order: seq<string>)
    ensures OldestFirst(configs, now, order)
  {
    var entries: seq<(int, string)> := [];
    var todo := Evictable(configs, now);
    while todo != {}
      invariant todo <= Evictable(configs, now)
      invariant Distinct(entries)
      invariant forall e :: e in entries <==> e.1 in Evictable(configs, now) - todo && e.0 == configs[e.1].lastSeen
      decreases todo
    {
      var k :| k in todo;
      todo := todo - {k};
      entries := entries + [(configs[k].lastSeen, k)];
    }
    var sorted := SortBy(entries, EntryLe);
    order := seq(|sorted|, i requires 0 <= i < |sorted| => sorted[i].1);
    EntriesInOrder(configs, now, entries, order);
  }

  lemma FirstAreOldest(configs: map<string, Record>, now: int, order: seq<string>, n: nat)
    requires n <= |order| && OldestFirst(configs, now, order)
    ensures var gone := set k | k in order[..n];
            && gone <= Evictable(configs, now) && |gone| == n && |order| == |Evictable(configs, now)|
            && forall a, b :: a in gone && b in Evictable(configs, now) - gone ==> Older(configs, a, b)
  {
    DistinctSize(order);
    DistinctSize(order[..n]);
    assert (set k | k in order) == Evictable(configs, now);
    var gone := set k | k in order[..n];
    forall m | 0 <= m < n
      ensures order[m] in gone
    {
      assert order[..n][m] == order[m];
    }
    forall a, b | a in gone && b in Evictable(configs, now) - gone
      ensures a in configs && Older(configs, a, b)
    {
      var i :| 0 <= i < n && order[i] == a;
      var j :| 0 <= j < |order| && order[j] == b;
      assert j >= n;
    }
  }

  /** `_prune_over_cap`: sort the evictable records by (last_seen, key) and drop the first of them. */
  method EvictOverCap(
    configs: map<string, Record>, cap: nat, now: int)
    returns (kept: map<string, Record>, gone: set<string>)
    ensures EvictedByCap(configs, cap, now, gone) && kept == configs - gone
  {
    kept, gone := configs, {};
    if cap > 0 && |configs| > cap {
      var order := EvictionOrder(configs, now);
      var drop := Min(|configs| - cap, |order|);
      FirstAreOldest(configs, now, order, drop);
      gone := set k | k in order[..drop];
      kept := RemoveFirst(configs, order, drop);
    }
  }

  /** The three steps of `prune`, on a cache that holds a config record. */
  method TakePruneSteps(policy: Policy, before: Cache, now: int)
    returns (after: Cache, gone: set<string>, dropped: set<string>)
    ensures PruneSteps(policy, before, now, gone, after, dropped)
  {
    var kept, evicted := EvictOverCap(Young(policy, before, now), policy.maxRecords, now);
    gone, dropped := evicted, DroppedKeys(policy, before, now, evicted);
    after := Cache(kept, YoungSources(policy, before, now), before.loadedAt);
  }

  /**
   What `Save` ensures of a save makes it a step of the processes that share the file: the cache it
   finds is that of the process, and it leaves the file and the cache that the step leaves.
   */
  lemma SavedIsStep(
    policy: Policy, w: World, p: nat, pruneAt: int, stamp: int, mergeAt: int, gone: set<string>, memory: Cache,
    dropped: set<string>, merged: HistoryFile)
    requires p in w.caches && PrunedTo(policy, w.caches[p], pruneAt, gone, memory, dropped)
    requires MergedFile(policy, memory, dropped, w.disk, stamp, mergeAt, merged)
    ensures Takes(
              policy, w, Step.Save(p, pruneAt, stamp, mergeAt, gone, memory, dropped, merged),
              World(Some(merged), w.caches[p := Cache(merged.configs, merged.sources, stamp)]))
  {
  }

  class HealthHistory {
    const policy: Policy
    const sourcePolicy: SourcePolicy
    const disk: SharedFile
    var loaded: bool
    var configs: map<string, Record>
    var sources: map<string, SourceRecord>
    var loadedAt: int
    var prunedKeys: set<string>

    constructor (policy: Policy, sourcePolicy: SourcePolicy, disk: SharedFile)
      ensures this.policy == policy && this.sourcePolicy == sourcePolicy && this.disk == disk && !loaded
    {
      this.policy, this.sourcePolicy, this.disk := policy, sourcePolicy, disk;
      loaded, configs, sources, loadedAt, prunedKeys := false, map[], map[], 0, {};
    }

    function Memory(): Cache
      reads this
    {
      Cache(configs, sources, loadedAt)
    }

    /** `load`: the file is read once, and stamps the cache. */
    method Load(now: int)
      modifies this`loaded, this`configs, this`sources, this`loadedAt
      ensures loaded
      ensures old(loaded) ==> Memory() == old(Memory())
      ensures !old(loaded) ==>
                Memory() == match disk.content
                            case Some(f) => Cache(f.configs, f.sources, now)
                            case None => Cache(map[], map[], now)
      ensures !old(loaded) ==>
                forall w: World, p: nat :: p !in w.caches && w.disk == disk.content ==>
                  Takes(policy, w, Step.Load(p, now), World(w.disk, w.caches[p := Memory()]))
    {
      if !loaded {
        match disk.content {
          case Some(f) => configs, sources := f.configs, f.sources;
          case None => configs, sources := map[], map[];
        }
        loaded, loadedAt := true, now;
      }
    }

    /** `update`, on a loaded cache. */
    method Update(checked: seq<Checked>, now: int)
      requires loaded
      modifies this`configs
      ensures configs == ApplyAll(policy, old(configs), checked, now)
    {
      ghost var before := configs;
      for i := 0 to |checked|
        invariant configs == ApplyAll(policy, before, checked[..i], now)
      {
        var c := checked[i];
        ApplyAllSnoc(policy, before, checked, i, now);
        if c.alive.Some? {
          var record := if c.key in configs then configs[c.key] else NewRecord;
          var alive := c.alive.value;
          record := record.(recent := LastN(record.recent + [alive], policy.window));
          record := record.(lastSeen := now, country := c.country);
          if RealSource(c.source) {
            record := record.(source := Some(c.source));
          }
          if alive {
            record := record.(lastAlive := now, passes := record.passes + 1);
            record := record.(consecutiveFailures := 0, bannedUntil := 0);
          } else {
            var failures := record.consecutiveFailures + 1;
            record := record.(fails := record.fails + 1, consecutiveFailures := failures);
            if failures >= policy.threshold {
              record := record.(bannedUntil := now + policy.cooldown);
            }
          }
          configs := configs[c.key := record];
        }
      }
      assert checked[..|checked|] == checked;
    }

    /** `is_config_banned`, on a loaded cache and with the history enabled. */
    method IsConfigBanned(key: string, now: int) returns (banned: bool)
      requires loaded
      ensures banned == Banned(configs, key, now)
    {
      banned := key in configs && configs[key].bannedUntil > now;
    }

    /** `consecutive_successes`: count back from the latest verdict to the first that failed. */
    method ConsecutiveSuccesses(key: string) returns (streak: nat)
      requires loaded
      ensures streak == if key in configs then Streak(configs[key].recent) else 0
    {
      var recent := if key in configs then configs[key].recent else [];
      streak := 0;
      assert recent[..|recent|] == recent;
      while streak < |recent| && recent[|recent| - 1 - streak]
        invariant streak <= |recent|
        invariant Streak(recent) == streak + Streak(recent[..|recent| - streak])
      {
        var rest := recent[..|recent| - streak];
        assert rest[..|rest| - 1] == recent[..|recent| - streak - 1];
        streak := streak + 1;
      }
    }

    /** `update_sources`, on a loaded cache and with source health enabled. */
    method UpdateSources(checked: seq<Checked>, now: int) returns (stats: map<string, Stats>)
      requires loaded && sourcePolicy.Sane()
      modifies this`sources
      ensures RunStats(checked, stats) && Measured(sourcePolicy, old(sources), stats, now, sources)
      ensures ShowsRun(old(sources), stats, now, sources)
    {
      stats := SourceRunStats(checked);
      var before := sources;
      sources := UpdateEach(before, map s | s in stats ::
        var prior := if s in before then before[s] else NewSource;
        Measure(sourcePolicy, prior, Sample(stats[s].checked, stats[s].alive, now)));
      MeasuredShowsRun(sourcePolicy, before, stats, now, sources);
    }

    /** `prune`. It returns the number of records that aged out. */
    method Prune(now: int) returns (aged: nat, ghost gone: set<string>, ghost dropped: set<string>)
      requires loaded
      modifies this`configs, this`sources, this`prunedKeys
      ensures PrunedTo(policy, old(Memory()), now, gone, Memory(), dropped)
      ensures prunedKeys == old(prunedKeys) + dropped
      ensures aged == AgedOut(policy, old(Memory()), now)
    {
      gone, dropped, aged := {}, {}, 0;
      if configs == map[] {
        return;
      }
      aged := AgedOut(policy, Memory(), now);
      var after, evicted, removed := TakePruneSteps(policy, Memory(), now);
      configs, sources := after.configs, after.sources;
      prunedKeys := prunedKeys + removed;
      gone, dropped := evicted, removed;
    }

    /** The file that a save has written: the merge of that cache with what the file held. */
    ghost predicate MergedFrom(memory: Cache, was: Option<HistoryFile>, stamp: int, mergeAt: int)
      reads this, disk
    {
      disk.content.Some? && disk.content.value.updatedAt == stamp
        && MergedFile(policy, memory, prunedKeys, was, stamp, mergeAt, disk.content.value)
    }

    /** What `save` does under the lock: merge, write, adopt. */
    method WriteMerged(stamp: int, mergeAt: int)
      modifies this`configs, this`sources, this`loadedAt, disk
      ensures MergedFrom(old(Memory()), old(disk.content), stamp, mergeAt)
      ensures Memory() == Cache(disk.content.value.configs, disk.content.value.sources, stamp)
    {
      var merged := MergeWithDisk(policy, Memory(), prunedKeys, disk.content, stamp, mergeAt);
      disk.content := Some(merged);
      configs, sources, loadedAt := merged.configs, merged.sources, stamp;
    }

    /**
     `save`: prune, merge with the file under the lock, write, adopt what was written. The clock is
     read three times. A failed write leaves the file alone and the cache pruned.
     */
    method Save(pruneAt: int, stamp: int, mergeAt: int, writes: bool)
      returns (saved: bool, ghost gone: set<string>, ghost memory: Cache)
      modifies this`configs, this`sources, this`prunedKeys, this`loadedAt, disk
      ensures saved == (old(loaded) && writes)
      ensures !old(loaded) ==> Memory() == old(Memory()) && prunedKeys == old(prunedKeys)
      ensures old(loaded) ==> PrunedTo(policy, old(Memory()), pruneAt, gone, memory, prunedKeys)
      ensures !saved ==> disk.content == old(disk.content) && (old(loaded) ==> Memory() == memory)
      ensures saved ==>
                && MergedFrom(memory, old(disk.content), stamp, mergeAt)
                && Memory() == Cache(disk.content.value.configs, disk.content.value.sources, stamp)
    {
      gone, memory := {}, Memory();
      if !loaded {
        return false, gone, memory;
      }
      prunedKeys := {};
      ghost var dropped;
      var aged;
      aged, gone, dropped := Prune(pruneAt);
      memory := Memory();
      assert prunedKeys == dropped;
      saved := writes;
      if writes {
        WriteMerged(stamp, mergeAt);
      }
    }
  }
}
