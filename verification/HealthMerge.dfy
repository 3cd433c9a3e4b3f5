/**
 Ageing, the record cap, and the merge of a cache with the file on disk, as relations between
 values; the methods of HealthHistory are proved against them.
 */
module HealthMerge {
  import opened Options
  import opened Sequences
  import opened Sorting
  import opened HealthRecords
  import opened HealthSources

  datatype HistoryFile = HistoryFile(configs: map<string, Record>, sources: map<string, SourceRecord>, updatedAt: int)

  /** What a process holds in memory, and when that last reflected the file. */
  datatype Cache = Cache(configs: map<string, Record>, sources: map<string, SourceRecord>, loadedAt: int)

  // ---- prune ----

  predicate StaleConfig(r: Record, cutoff: int, now: int) {
    r.lastSeen < cutoff && r.bannedUntil <= now
  }

  predicate StaleSource(r: SourceRecord, cutoff: int, now: int) {
    r.updatedAt < cutoff && r.bannedUntil <= now
  }

  function StaleConfigs(configs: map<string, Record>, cutoff: int, now: int): set<string> {
    set k | k in configs && StaleConfig(configs[k], cutoff, now)
  }

  function StaleSources(sources: map<string, SourceRecord>, cutoff: int, now: int): set<string> {
    set k | k in sources && StaleSource(sources[k], cutoff, now)
  }

  /** The records the cap may evict: those under no active ban. */
  function Evictable(configs: map<string, Record>, now: int): set<string> {
    set k | k in configs && configs[k].bannedUntil <= now
  }

  function UnderBan(configs: map<string, Record>, now: int): set<string> {
    set k | k in configs && configs[k].bannedUntil > now
  }

  /** The order of eviction: (last_seen, key). */
  predicate Older(configs: map<string, Record>, a: string, b: string)
    requires a in configs && b in configs
  {
    configs[a].lastSeen < configs[b].lastSeen || (configs[a].lastSeen == configs[b].lastSeen && StringLe(a, b))
  }

  /** The cap removes the overflow, or every evictable record when bans exempt more, oldest first. */
  ghost predicate EvictedByCap(configs: map<string, Record>, cap: nat, now: int, gone: set<string>) {
    && gone <= Evictable(configs, now)
    && |gone| == (if cap == 0 || |configs| <= cap then 0 else Min(|configs| - cap, |Evictable(configs, now)|))
    && forall a, b :: a in gone && b in Evictable(configs, now) - gone ==> Older(configs, a, b)
  }

  /** The configs that are left to the cap once the stale ones are dropped. */
  function Young(policy: Policy, before: Cache, now: int): map<string, Record> {
    before.configs - StaleConfigs(before.configs, now - policy.retention, now)
  }

  function YoungSources(policy: Policy, before: Cache, now: int): map<string, SourceRecord> {
    before.sources - StaleSources(before.sources, now - policy.retention, now)
  }

  function DroppedKeys(policy: Policy, before: Cache, now: int, gone: set<string>): set<string> {
    var cutoff := now - policy.retention;
    StaleConfigs(before.configs, cutoff, now) + gone + StaleSources(before.sources, cutoff, now)
  }

  /** The steps of `prune`: the stale configs go, then what the cap evicts, then the stale sources. */
  ghost predicate PruneSteps(
    policy: Policy, before: Cache, now: int, gone: set<string>, after: Cache, dropped: set<string>) {
    && EvictedByCap(Young(policy, before, now), policy.maxRecords, now, gone)
    && after == Cache(Young(policy, before, now) - gone, YoungSources(policy, before, now), before.loadedAt)
    && dropped == DroppedKeys(policy, before, now, gone)
  }

  /**
   What `prune` leaves of a cache, which records the cap evicted, and all the keys it dropped. An
   empty configs section ends the call before the sources are looked at.
   */
  ghost predicate PrunedTo(
    policy: Policy, before: Cache, now: int, gone: set<string>, after: Cache, dropped: set<string>) {
    if before.configs == map[] then after == before && gone == dropped == {}
    else PruneSteps(policy, before, now, gone, after, dropped)
  }

  /** What `prune` reports: the records of both sections that aged out. */
  function AgedOut(policy: Policy, before: Cache, now: int): nat {
    var cutoff := now - policy.retention;
    if before.configs == map[] then 0
    else |StaleConfigs(before.configs, cutoff, now)| + |StaleSources(before.sources, cutoff, now)|
  }

  /** The cap's choice is determined: no two sets meet its description. */
  lemma EvictionUnique(configs: map<string, Record>, cap: nat, now: int, g: set<string>, h: set<string>)
    requires EvictedByCap(configs, cap, now, g) && EvictedByCap(configs, cap, now, h)
    ensures g == h
  {
    SmallerSet(g, h);
    SmallerSet(h, g);
    if a :| a in g && a !in h {
      if b :| b in h && b !in g {
        assert Older(configs, a, b) && Older(configs, b, a);
        StringLeTotal(a, b);
      }
    }
  }

  lemma SmallerSet<T>(a: set<T>, b: set<T>)
    ensures a < b ==> |a| < |b|
  {
    assert a < b ==> b == a + (b - a);
  }

  /** `prune` never drops a record under an active ban, neither of a config nor of a source. */
  lemma PruneKeepsBans(
    policy: Policy, before: Cache, now: int, gone: set<string>, after: Cache, dropped: set<string>, k: string)
    requires PrunedTo(policy, before, now, gone, after, dropped)
    ensures k in before.configs && before.configs[k].bannedUntil > now ==>
              k in after.configs && after.configs[k] == before.configs[k]
    ensures k in before.sources && before.sources[k].bannedUntil > now ==>
              k in after.sources && after.sources[k] == before.sources[k]
  {
    assert k in gone ==> k in Evictable(Young(policy, before, now), now);
  }

  lemma CapLeaves(configs: map<string, Record>, cap: nat, now: int, gone: set<string>)
    requires EvictedByCap(configs, cap, now, gone) && cap > 0
    ensures |configs - gone| <= cap || |configs - gone| == |UnderBan(configs, now)|
  {
    assert (configs - gone).Keys == configs.Keys - gone;
    assert configs.Keys == (configs.Keys - gone) + gone;
    assert |configs.Keys| == |configs.Keys - gone| + |gone|;
    assert configs.Keys == Evictable(configs, now) + UnderBan(configs, now);
    assert |configs.Keys| == |Evictable(configs, now)| + |UnderBan(configs, now)|;
  }

  lemma BansStayYoung(policy: Policy, before: Cache, now: int)
    ensures UnderBan(Young(policy, before, now), now) == UnderBan(before.configs, now)
  {
  }

  /** With a positive cap the cache holds at most max(cap, active bans) configs after `prune`. */
  lemma PruneCapsCache(policy: Policy, before: Cache, now: int, gone: set<string>, after: Cache, dropped: set<string>)
    requires PrunedTo(policy, before, now, gone, after, dropped) && policy.maxRecords > 0
    ensures |after.configs| <= policy.maxRecords || |after.configs| == |UnderBan(before.configs, now)|
  {
    if before.configs != map[] {
      var young := Young(policy, before, now);
      CapLeaves(young, policy.maxRecords, now, gone);
      BansStayYoung(policy, before, now);
    }
  }

  lemma EvictedIsOlder(configs: map<string, Record>, cap: nat, now: int, gone: set<string>, a: string, b: string)
    requires EvictedByCap(configs, cap, now, gone)
    requires a in gone && b in configs && b !in gone && configs[b].bannedUntil <= now
    ensures a in configs && Older(configs, a, b)
  {
    assert b in Evictable(configs, now) - gone;
  }

  /** What `prune` dropped is no more recently seen, ties by key, than any unbanned record it left. */
  lemma PruneDropsOldest(
    policy: Policy, before: Cache, now: int, gone: set<string>, after: Cache, dropped: set<string>, lost: string,
    kept: string)
    requires PrunedTo(policy, before, now, gone, after, dropped)
    requires lost in before.configs && lost !in after.configs
    requires kept in before.configs && kept in after.configs && before.configs[kept].bannedUntil <= now
    ensures Older(before.configs, lost, kept)
    ensures before.configs[lost].lastSeen <= before.configs[kept].lastSeen
    ensures before.configs[lost].lastSeen == before.configs[kept].lastSeen ==> StringLe(lost, kept)
  {
    if lost in gone {
      EvictedIsOlder(Young(policy, before, now), policy.maxRecords, now, gone, lost, kept);
    }
  }

  /**
   What age alone decides: records past the retention go unless a ban is active, and all others stay when
   there is no cap. Every key that goes is recorded.
   */
  lemma PruneByAgeIff(
    policy: Policy, before: Cache, now: int, gone: set<string>, after: Cache, dropped: set<string>, k: string)
    requires PrunedTo(policy, before, now, gone, after, dropped) && before.configs != map[]
    ensures k in before.configs && k in after.configs ==>
              before.configs[k].lastSeen >= now - policy.retention || before.configs[k].bannedUntil > now
    ensures policy.maxRecords == 0 && k in before.configs
            && (before.configs[k].lastSeen >= now - policy.retention || before.configs[k].bannedUntil > now) ==>
              k in after.configs
    ensures k in before.sources ==>
              (k in after.sources <==>
               before.sources[k].updatedAt >= now - policy.retention || before.sources[k].bannedUntil > now)
    ensures (k in before.configs && k !in after.configs) || (k in before.sources && k !in after.sources) ==>
              k in dropped
  {
    assert policy.maxRecords == 0 ==> |gone| == 0 && gone == {};
  }

  /** Nothing is lost track of: what is left, what aged out and what the cap evicted are what there was. */
  lemma PruneAddsUp(
    policy: Policy, before: Cache, now: int, gone: set<string>, after: Cache, dropped: set<string>)
    requires PrunedTo(policy, before, now, gone, after, dropped)
    ensures |before.configs| + |before.sources| ==
            |after.configs| + |after.sources| + AgedOut(policy, before, now) + |gone|
  {
    if before.configs != map[] {
      var cutoff := now - policy.retention;
      SizeWithout(before.configs, StaleConfigs(before.configs, cutoff, now));
      SizeWithout(before.sources, StaleSources(before.sources, cutoff, now));
      SizeWithout(Young(policy, before, now), gone);
    }
  }

  lemma SizeWithout<R>(m: map<string, R>, keys: set<string>)
    requires keys <= m.Keys
    ensures |m| == |m - keys| + |keys|
  {
    assert (m - keys).Keys == m.Keys - keys;
    assert m.Keys == (m.Keys - keys) + keys;
    assert |m.Keys| == |m.Keys - keys| + |keys|;
  }

  /**
   Sources are said to age out like configs. They do so exactly when the cache holds a config
   record: `prune` returns early on an empty configs section.
   */
  lemma SourcesAgeOutIff(
    policy: Policy, before: Cache, now: int, gone: set<string>, after: Cache, dropped: set<string>, k: string)
    requires PrunedTo(policy, before, now, gone, after, dropped)
    requires k in before.sources && StaleSource(before.sources[k], now - policy.retention, now)
    ensures k !in after.sources <==> before.configs != map[]
  {
  }

  // ---- merge ----

  predicate MemoryWins(memory: int, disk: int, tiesGoToDisk: bool) {
    memory > disk || (memory == disk && !tiesGoToDisk)
  }

  /** One section of the merged file, key by key. */
  ghost predicate MergedSection<R>(
    memory: map<string, R>, disk: map<string, R>, dropped: set<string>, tiesGoToDisk: bool, cutoff: int,
    recency: R -> int, merged: map<string, R>)
  {
    && (forall k :: k in merged <==>
          if k in dropped then k in disk && recency(disk[k]) >= cutoff else k in memory || k in disk)
    && (forall k :: k in merged ==>
          merged[k] == if k in dropped || k !in memory then disk[k]
                       else if k !in disk || MemoryWins(recency(memory[k]), recency(disk[k]), tiesGoToDisk)
                         then memory[k]
                       else disk[k])
  }

  function LastSeen(r: Record): int {
    r.lastSeen
  }

  function UpdatedAt(r: SourceRecord): int {
    r.updatedAt
  }

  /** The file `save` writes, given what `prune` left and dropped. A missing file takes the cache as it is. */
  ghost predicate MergedFile(
    policy: Policy, memory: Cache, dropped: set<string>, disk: Option<HistoryFile>, stamp: int, mergeAt: int,
    merged: HistoryFile)
  {
    && merged.updatedAt == stamp
    && match disk
       case None => merged.configs == memory.configs && merged.sources == memory.sources
       case Some(d) =>
         var ties, cutoff := d.updatedAt > memory.loadedAt, mergeAt - policy.retention;
         && MergedSection(memory.configs, d.configs, dropped, ties, cutoff, LastSeen, merged.configs)
         && MergedSection(memory.sources, d.sources, dropped, ties, cutoff, UpdatedAt, merged.sources)
  }

  lemma MergedSectionUnique<R(!new)>(
    memory: map<string, R>, disk: map<string, R>, dropped: set<string>, ties: bool, cutoff: int, recency: R -> int,
    a: map<string, R>, b: map<string, R>)
    requires MergedSection(memory, disk, dropped, ties, cutoff, recency, a)
    requires MergedSection(memory, disk, dropped, ties, cutoff, recency, b)
    ensures a == b
  {
    assert a.Keys == b.Keys;
  }

  /** The first loop: the records of memory, but for those to do, have been laid over those of the disk. */
  ghost predicate Overlaid<R>(
    memory: map<string, R>, disk: map<string, R>, dropped: set<string>, tiesGoToDisk: bool, recency: R -> int,
    todo: set<string>, combined: map<string, R>)
  {
    && combined.Keys == disk.Keys + (memory.Keys - todo - dropped)
    && forall k :: k in combined ==>
         combined[k] == if k in dropped || k !in memory || k in todo then disk[k]
                        else if k !in disk || MemoryWins(recency(memory[k]), recency(disk[k]), tiesGoToDisk)
                          then memory[k]
                        else disk[k]
  }

  lemma OverlayOne<R>(
    memory: map<string, R>, disk: map<string, R>, dropped: set<string>, tiesGoToDisk: bool, recency: R -> int,
    todo: set<string>, combined: map<string, R>, k: string)
    requires Overlaid(memory, disk, dropped, tiesGoToDisk, recency, todo, combined)
    requires k in todo && todo <= memory.Keys
    ensures Overlaid(
              memory, disk, dropped, tiesGoToDisk, recency, todo - {k},
              if k !in dropped
                 && (k !in combined || MemoryWins(recency(memory[k]), recency(combined[k]), tiesGoToDisk))
              then combined[k := memory[k]] else combined)
  {
  }

  /** The second loop: of these keys only records inside the retention window are left. */
  ghost predicate WithoutOld<R>(
    before: map<string, R>, recency: R -> int, cutoff: int, keys: set<string>, combined: map<string, R>)
  {
    && (forall k :: k in combined <==> k in before && (k in keys ==> recency(before[k]) >= cutoff))
    && forall k :: k in combined ==> combined[k] == before[k]
  }

  lemma DropOne<R>(
    before: map<string, R>, recency: R -> int, cutoff: int, keys: set<string>, combined: map<string, R>, k: string)
    requires WithoutOld(before, recency, cutoff, keys, combined)
    ensures WithoutOld(
              before, recency, cutoff, keys + {k},
              if k !in combined || recency(combined[k]) < cutoff then combined - {k} else combined)
  {
  }

  lemma BothLoopsMerge<R>(
    memory: map<string, R>, disk: map<string, R>, dropped: set<string>, tiesGoToDisk: bool, cutoff: int,
    recency: R -> int, overlaid: map<string, R>, combined: map<string, R>)
    requires Overlaid(memory, disk, dropped, tiesGoToDisk, recency, {}, overlaid)
    requires WithoutOld(overlaid, recency, cutoff, dropped, combined)
    ensures MergedSection(memory, disk, dropped, tiesGoToDisk, cutoff, recency, combined)
  {
  }

  method Overlay<R>(
    memory: map<string, R>, disk: map<string, R>, dropped: set<string>, tiesGoToDisk: bool, recency: R -> int)
    returns (combined: map<string, R>)
    ensures Overlaid(memory, disk, dropped, tiesGoToDisk, recency, {}, combined)
  {
    combined := disk;
    var todo := memory.Keys;
    while todo != {}
      invariant todo <= memory.Keys
      invariant Overlaid(memory, disk, dropped, tiesGoToDisk, recency, todo, combined)
      decreases |todo|
    {
      var k :| k in todo;
      OverlayOne(memory, disk, dropped, tiesGoToDisk, recency, todo, combined, k);
      todo := todo - {k};
      if k !in dropped {
        if k !in combined || MemoryWins(recency(memory[k]), recency(combined[k]), tiesGoToDisk) {
          combined := combined[k := memory[k]];
        }
      }
    }
  }

  method DropOld<R>(before: map<string, R>, dropped: set<string>, cutoff: int, recency: R -> int)
    returns (combined: map<string, R>)
    ensures WithoutOld(before, recency, cutoff, dropped, combined)
  {
    combined := before;
    var pruned := dropped;
    while pruned != {}
      invariant pruned <= dropped
      invariant WithoutOld(before, recency, cutoff, dropped - pruned, combined)
      decreases |pruned|
    {
      var k :| k in pruned;
      DropOne(before, recency, cutoff, dropped - pruned, combined, k);
      assert dropped - (pruned - {k}) == dropped - pruned + {k};
      pruned := pruned - {k};
      if k !in combined || recency(combined[k]) < cutoff {
        combined := combined - {k};
      }
    }
    assert dropped - pruned == dropped;
  }

  /** The loops of `_merged_with_disk` over one section. */
  method MergeSection<R>(
    memory: map<string, R>, disk: map<string, R>, dropped: set<string>, tiesGoToDisk: bool, cutoff: int,
    recency: R -> int)
    returns (combined: map<string, R>)
    ensures MergedSection(memory, disk, dropped, tiesGoToDisk, cutoff, recency, combined)
  {
    var before := Overlay(memory, disk, dropped, tiesGoToDisk, recency);
    combined := DropOld(before, dropped, cutoff, recency);
    BothLoopsMerge(memory, disk, dropped, tiesGoToDisk, cutoff, recency, before, combined);
  }

  /** `_merged_with_disk`, stamped the way `save` stamps its result. */
  method MergeWithDisk(
    policy: Policy, memory: Cache, dropped: set<string>, disk: Option<HistoryFile>, stamp: int, mergeAt: int)
    returns (merged: HistoryFile)
    ensures MergedFile(policy, memory, dropped, disk, stamp, mergeAt, merged)
  {
    match disk {
      case None => merged := HistoryFile(memory.configs, memory.sources, stamp);
      case Some(d) =>
        var ties, cutoff := d.updatedAt > memory.loadedAt, mergeAt - policy.retention;
        var configs := MergeSection(memory.configs, d.configs, dropped, ties, cutoff, LastSeen);
        var sources := MergeSection(memory.sources, d.sources, dropped, ties, cutoff, UpdatedAt);
        merged := HistoryFile(configs, sources, stamp);
    }
  }

  // ---- any number of processes sharing one file ----

  /** The shared file and the caches of the processes that have loaded it. */
  datatype World = World(disk: Option<HistoryFile>, caches: map<nat, Cache>)

  datatype Step =
    | Load(p: nat, now: int)
    | Work(p: nat, configs: map<string, Record>, sources: map<string, SourceRecord>)
    | Save(p: nat, pruneAt: int, stamp: int, mergeAt: int, gone: set<string>, memory: Cache, dropped: set<string>,
      merged: HistoryFile)

  /** A save is atomic under the file lock. Work stands for any change of a cache between saves. */
  ghost predicate Takes(policy: Policy, w: World, s: Step, w': World) {
    match s
    case Load(p, now) =>
      && p !in w.caches && w'.disk == w.disk
      && w'.caches == w.caches[p := if w.disk.Some? then Cache(w.disk.value.configs, w.disk.value.sources, now)
                                    else Cache(map[], map[], now)]
    case Work(p, configs, sources) =>
      && p in w.caches && w'.disk == w.disk
      && w'.caches == w.caches[p := Cache(configs, sources, w.caches[p].loadedAt)]
    case Save(p, pruneAt, stamp, mergeAt, gone, memory, dropped, merged) =>
      && p in w.caches
      && PrunedTo(policy, w.caches[p], pruneAt, gone, memory, dropped)
      && MergedFile(policy, memory, dropped, w.disk, stamp, mergeAt, merged)
      && w'.disk == Some(merged)
      && w'.caches == w.caches[p := Cache(merged.configs, merged.sources, stamp)]
  }

  /** The two sections of the file, which go by last_seen and by updated_at. */
  datatype Section = InConfigs | InSources

  ghost predicate OnDisk(w: World, section: Section, k: string) {
    w.disk.Some? && match section
                    case InConfigs => k in w.disk.value.configs
                    case InSources => k in w.disk.value.sources
  }

  ghost function DiskRecency(w: World, section: Section, k: string): int
    requires OnDisk(w, section, k)
  {
    match section
    case InConfigs => w.disk.value.configs[k].lastSeen
    case InSources => w.disk.value.sources[k].updatedAt
  }

  /** A record that one step leaves in the file is no less recent than before. */
  ghost predicate Carried(w: World, w': World, section: Section, k: string) {
    OnDisk(w, section, k) && OnDisk(w', section, k) ==> DiskRecency(w, section, k) <= DiskRecency(w', section, k)
  }

  /** The step is a save whose prune dropped the record while its disk copy was past retention. */
  ghost predicate AgedOutBy(policy: Policy, w: World, s: Step, section: Section, k: string) {
    s.Save? && k in s.dropped && OnDisk(w, section, k) && DiskRecency(w, section, k) < s.mergeAt - policy.retention
  }

  /** One step, seen from one record of either section. */
  lemma StepKeepsRecords(policy: Policy, w: World, s: Step, w': World, section: Section, k: string)
    requires Takes(policy, w, s, w') && OnDisk(w, section, k)
    ensures Carried(w, w', section, k) && (OnDisk(w', section, k) || AgedOutBy(policy, w, s, section, k))
  {
    match section
    case InConfigs =>
    case InSources =>
  }

  /** The copy of a record that a save has in memory; what its prune dropped is none, unless there is no file. */
  function Mine<R>(memory: map<string, R>, dropped: set<string>, noFile: bool, k: string): Option<R> {
    if k in memory && (noFile || k !in dropped) then Some(memory[k]) else None
  }

  function Theirs<R>(disk: Option<map<string, R>>, k: string): Option<R> {
    if disk.Some? && k in disk.value then Some(disk.value[k]) else None
  }

  /** The saved record is the more recent one of the two copies, and of equally recent ones the later observer's. */
  ghost predicate Latest<R>(mine: Option<R>, theirs: Option<R>, tiesGoToDisk: bool, recency: R -> int, saved: R) {
    && (mine == Some(saved) || theirs == Some(saved))
    && (mine.Some? ==> recency(saved) >= recency(mine.value))
    && (theirs.Some? ==> recency(saved) >= recency(theirs.value))
    && (mine.Some? && theirs.Some? && recency(mine.value) == recency(theirs.value) ==>
          saved == if tiesGoToDisk then theirs.value else mine.value)
  }

  /** In both sections a saved record is the memory or the disk copy, the more recent one; ties go by load time. */
  lemma SavedRecordIsLatest(policy: Policy, w: World, s: Step, w': World, k: string)
    requires Takes(policy, w, s, w') && s.Save?
    ensures var ties := w.disk.Some? && w.disk.value.updatedAt > s.memory.loadedAt;
            var none := w.disk.None?;
            && (OnDisk(w', InConfigs, k) ==>
                  Latest(Mine(s.memory.configs, s.dropped, none, k),
                         Theirs(if none then None else Some(w.disk.value.configs), k), ties, LastSeen,
                         w'.disk.value.configs[k]))
            && (OnDisk(w', InSources, k) ==>
                  Latest(Mine(s.memory.sources, s.dropped, none, k),
                         Theirs(if none then None else Some(w.disk.value.sources), k), ties, UpdatedAt,
                         w'.disk.value.sources[k]))
  {
  }

  ghost predicate TakesAt(policy: Policy, ws: seq<World>, steps: seq<Step>, i: nat)
    requires i < |steps| && |ws| == |steps| + 1
  {
    Takes(policy, ws[i], steps[i], ws[i + 1])
  }

  ghost predicate Behaviour(policy: Policy, ws: seq<World>, steps: seq<Step>) {
    |ws| == |steps| + 1 && forall i :: 0 <= i < |steps| ==> TakesAt(policy, ws, steps, i)
  }

  lemma StepOfBehaviour(policy: Policy, ws: seq<World>, steps: seq<Step>, i: nat, section: Section, k: string)
    requires Behaviour(policy, ws, steps) && i < |steps| && OnDisk(ws[i], section, k)
    ensures Carried(ws[i], ws[i + 1], section, k)
    ensures OnDisk(ws[i + 1], section, k) || AgedOutBy(policy, ws[i], steps[i], section, k)
  {
    assert TakesAt(policy, ws, steps, i);
    StepKeepsRecords(policy, ws[i], steps[i], ws[i + 1], section, k);
  }

  /** Over any interleaving, a record that stays in the file, config or source, never gets less recent. */
  lemma {:induction false} RecencyNeverDecreases(
    policy: Policy, ws: seq<World>, steps: seq<Step>, i: nat, j: nat, section: Section, k: string)
    requires Behaviour(policy, ws, steps) && i <= j < |ws|
    requires forall n :: i <= n <= j ==> OnDisk(ws[n], section, k)
    ensures Carried(ws[i], ws[j], section, k)
    decreases j - i
  {
    if i < j {
      RecencyNeverDecreases(policy, ws, steps, i, j - 1, section, k);
      StepOfBehaviour(policy, ws, steps, j - 1, section, k);
    }
  }

  /**
   Over any interleaving, a record that was in the file and is not any more was dropped by the prune
   of some save in between, while its disk copy was past retention by that save's clock.
   */
  lemma {:induction false} RecordsLeaveByRetention(
    policy: Policy, ws: seq<World>, steps: seq<Step>, i: nat, j: nat, section: Section, k: string)
    returns (n: nat)
    requires Behaviour(policy, ws, steps) && i <= j < |ws|
    requires OnDisk(ws[i], section, k) && !OnDisk(ws[j], section, k)
    ensures i <= n < j && AgedOutBy(policy, ws[n], steps[n], section, k)
    decreases j - i
  {
    n := j - 1;
    if OnDisk(ws[n], section, k) {
      StepOfBehaviour(policy, ws, steps, n, section, k);
    } else {
      n := RecordsLeaveByRetention(policy, ws, steps, i, j - 1, section, k);
    }
  }

  // ---- the cap and the file ----

  ghost predicate InMemory(memory: Cache, section: Section, k: string) {
    match section
    case InConfigs => k in memory.configs
    case InSources => k in memory.sources
  }

  /** A pruned key is in the saved file exactly when its disk copy is inside the retention window. */
  lemma EvictedComesBackIff(policy: Policy, w: World, s: Step, w': World, section: Section, k: string)
    requires Takes(policy, w, s, w') && s.Save? && k in s.dropped
    ensures OnDisk(w', section, k) <==>
            if w.disk.Some? then OnDisk(w, section, k) && DiskRecency(w, section, k) >= s.mergeAt - policy.retention
            else InMemory(s.memory, section, k)
  {
  }

  /** The configs that a save takes over from the disk alone: not in the cache, and not both pruned and too old. */
  ghost function FromDisk(policy: Policy, w: World, s: Step): set<string>
    requires s.Save?
  {
    if w.disk.None? then {}
    else
      var disk := w.disk.value.configs;
      set k | k in disk && k !in s.memory.configs
        && (k !in s.dropped || disk[k].lastSeen >= s.mergeAt - policy.retention)
  }

  /** What a prune drops is not in the cache it leaves, since no config key is the name of a source. */
  lemma DroppedAreGone(policy: Policy, before: Cache, now: int, gone: set<string>, after: Cache, dropped: set<string>)
    requires PrunedTo(policy, before, now, gone, after, dropped) && before.configs.Keys !! before.sources.Keys
    ensures after.configs.Keys !! dropped
  {
  }

  lemma MergedKeys(
    memory: map<string, Record>, disk: map<string, Record>, dropped: set<string>, ties: bool, cutoff: int,
    merged: map<string, Record>)
    requires MergedSection(memory, disk, dropped, ties, cutoff, LastSeen, merged) && memory.Keys !! dropped
    ensures merged.Keys ==
            memory.Keys + set k | k in disk && k !in memory && (k !in dropped || disk[k].lastSeen >= cutoff)
  {
  }

  lemma UnionSize(a: set<string>, b: set<string>)
    requires a !! b
    ensures |a + b| == |a| + |b|
  {
  }

  lemma SavedKeys(policy: Policy, w: World, s: Step, w': World)
    requires Takes(policy, w, s, w') && s.Save? && s.memory.configs.Keys !! s.dropped
    ensures w'.disk.value.configs.Keys == s.memory.configs.Keys + FromDisk(policy, w, s)
  {
    if w.disk.Some? {
      var d := w.disk.value;
      MergedKeys(
        s.memory.configs, d.configs, s.dropped, d.updatedAt > s.memory.loadedAt, s.mergeAt - policy.retention,
        w'.disk.value.configs);
    }
  }

  lemma SavedCount(policy: Policy, w: World, s: Step, w': World)
    requires s.Save? && w'.disk.Some?
    requires w'.disk.value.configs.Keys == s.memory.configs.Keys + FromDisk(policy, w, s)
    ensures |w'.disk.value.configs| == |s.memory.configs| + |FromDisk(policy, w, s)|
  {
    UnionSize(s.memory.configs.Keys, FromDisk(policy, w, s));
    assert |w'.disk.value.configs.Keys| == |w'.disk.value.configs| && |s.memory.configs.Keys| == |s.memory.configs|;
  }

  /** max(cap, active bans) */
  function CapOrBans(policy: Policy, before: Cache, now: int): nat {
    var bans := |UnderBan(before.configs, now)|;
    if bans > policy.maxRecords then bans else policy.maxRecords
  }

  /**
   The cap bounds the cache that `prune` leaves. When it bounds the file: the file holds as many configs
   more as the save takes over from the disk alone, so it stays within max(cap, active bans) exactly when
   those fit into what the cache leaves free; and it holds the configs of the cache exactly when every
   other config on disk was pruned and is past retention.
   */
  lemma CapBoundsFileIff(policy: Policy, w: World, s: Step, w': World)
    requires Takes(policy, w, s, w') && s.Save? && policy.maxRecords > 0
    requires w.caches[s.p].configs.Keys !! w.caches[s.p].sources.Keys
    ensures var bound := CapOrBans(policy, w.caches[s.p], s.pruneAt);
            && |s.memory.configs| <= bound
            && (|w'.disk.value.configs| <= bound <==> |FromDisk(policy, w, s)| <= bound - |s.memory.configs|)
    ensures w'.disk.value.configs.Keys == s.memory.configs.Keys <==>
            forall k :: OnDisk(w, InConfigs, k) && k !in s.memory.configs ==> AgedOutBy(policy, w, s, InConfigs, k)
  {
    var before := w.caches[s.p];
    DroppedAreGone(policy, before, s.pruneAt, s.gone, s.memory, s.dropped);
    SavedKeys(policy, w, s, w');
    SavedCount(policy, w, s, w');
    PruneCapsCache(policy, before, s.pruneAt, s.gone, s.memory, s.dropped);
    OnlyOursIff(policy, w, s);
  }

  lemma OnlyOursIff(policy: Policy, w: World, s: Step)
    requires s.Save?
    ensures s.memory.configs.Keys + FromDisk(policy, w, s) == s.memory.configs.Keys <==>
            forall k :: OnDisk(w, InConfigs, k) && k !in s.memory.configs ==> AgedOutBy(policy, w, s, InConfigs, k)
  {
    forall k
      ensures k in FromDisk(policy, w, s) <==>
              OnDisk(w, InConfigs, k) && k !in s.memory.configs && !AgedOutBy(policy, w, s, InConfigs, k)
    {
    }
  }

  lemma OneOfTwoEvicted(a: string, b: string, r: Record, now: int)
    requires r.bannedUntil <= now && a != b && StringLe(a, b)
    ensures var both := map[a := r, b := r]; |both| == 2 && EvictedByCap(both, 1, now, {a})
  {
    var both := map[a := r, b := r];
    assert both.Keys == {a, b} && |both| == |both.Keys|;
    assert Evictable(both, now) == {a, b};
  }

  lemma OneOfTwoYoung(policy: Policy, a: string, b: string, r: Record, now: int)
    requires policy.retention > 0 && now == r.lastSeen
    ensures var before := Cache(map[a := r, b := r], map[], now);
            && Young(policy, before, now) == before.configs && YoungSources(policy, before, now) == map[]
            && DroppedKeys(policy, before, now, {a}) == {a}
  {
    var before := Cache(map[a := r, b := r], map[], now);
    assert StaleConfigs(before.configs, now - policy.retention, now) == {};
    assert StaleSources(before.sources, now - policy.retention, now) == {};
  }

  lemma OneOfTwoPruned(policy: Policy, a: string, b: string, r: Record, now: int)
    requires policy.maxRecords == 1 && policy.retention > 0 && r.bannedUntil <= now == r.lastSeen
    requires a != b && StringLe(a, b)
    ensures PrunedTo(policy, Cache(map[a := r, b := r], map[], now), now, {a}, Cache(map[b := r], map[], now), {a})
  {
    var both := map[a := r, b := r];
    OneOfTwoEvicted(a, b, r, now);
    OneOfTwoYoung(policy, a, b, r, now);
    assert a in both;
    assert both - {a} == map[b := r];
  }

  lemma OneOfTwoMerged(policy: Policy, a: string, b: string, r: Record, now: int)
    requires policy.retention > 0 && now == r.lastSeen && a != b
    ensures var both := map[a := r, b := r];
            MergedFile(policy, Cache(map[b := r], map[], now), {a}, Some(HistoryFile(both, map[], now)), now + 1, now,
                       HistoryFile(both, map[], now + 1))
  {
    var both, memory, none: map<string, SourceRecord> := map[a := r, b := r], map[b := r], map[];
    assert MergedSection(memory, both, {a}, false, now - policy.retention, LastSeen, both);
    assert MergedSection(none, none, {a}, false, now - policy.retention, UpdatedAt, none);
  }

  /** A file over the cap: with room for one record, two fresh ones on disk survive the save, though one is evicted. */
  lemma CapDoesNotBoundFile(policy: Policy, a: string, b: string) returns (w: World, s: Step, w': World)
    requires policy.maxRecords == 1 && policy.retention > 0 && a != b && StringLe(a, b)
    ensures Takes(policy, w, s, w') && s.Save?
    ensures |w'.disk.value.configs| > policy.maxRecords
  {
    var r := NewRecord.(lastSeen := 100);
    var both := map[a := r, b := r];
    var memory := Cache(map[b := r], map[], 100);
    var merged := HistoryFile(both, map[], 101);
    w := World(Some(HistoryFile(both, map[], 100)), map[0 := Cache(both, map[], 100)]);
    s := Save(0, 100, 101, 100, {a}, memory, {a}, merged);
    w' := World(Some(merged), w.caches[0 := Cache(both, map[], 101)]);
    OneOfTwoEvicted(a, b, r, 100);
    OneOfTwoPruned(policy, a, b, r, 100);
    OneOfTwoMerged(policy, a, b, r, 100);
  }

  /** Another file over the cap: nothing is pruned at all, but another process has written a record since the load. */
  lemma ForeignRecordsPassCap(policy: Policy, a: string, b: string) returns (w: World, s: Step, w': World)
    requires policy.maxRecords == 1 && policy.retention > 0 && a != b
    ensures Takes(policy, w, s, w') && s.Save? && s.dropped == {}
    ensures |w'.disk.value.configs| > policy.maxRecords
  {
    var r := NewRecord.(lastSeen := 100);
    var none: map<string, SourceRecord> := map[];
    var memory := Cache(map[a := r], none, 100);
    var merged := HistoryFile(map[a := r, b := r], none, 101);
    w := World(Some(HistoryFile(map[b := r], none, 100)), map[0 := memory]);
    s := Save(0, 100, 101, 100, {}, memory, {}, merged);
    w' := World(Some(merged), w.caches[0 := Cache(merged.configs, none, 101)]);
    OneIsKept(policy, a, r, 100);
    assert MergedSection(memory.configs, w.disk.value.configs, {}, false, 100 - policy.retention, LastSeen,
      merged.configs);
    assert MergedSection(none, none, {}, false, 100 - policy.retention, UpdatedAt, none);
    assert merged.configs.Keys == {a, b} && |merged.configs| == |merged.configs.Keys|;
  }

  lemma OneIsKept(policy: Policy, a: string, r: Record, now: int)
    requires policy.maxRecords == 1 && policy.retention > 0 && r.bannedUntil <= now == r.lastSeen
    ensures var one := Cache(map[a := r], map[], now); PrunedTo(policy, one, now, {}, one, {})
  {
    var one := Cache(map[a := r], map[], now);
    assert StaleConfigs(one.configs, now - policy.retention, now) == {};
    assert StaleSources(one.sources, now - policy.retention, now) == {};
    assert |one.configs| == |one.configs.Keys| == |{a}|;
    assert one.configs - {} == one.configs && one.sources - {} == one.sources;
  }

  // ---- the evidence of both runs ----

  /** A record after more verdicts. */
  function JudgeAll(policy: Policy, base: Record, verdicts: seq<Verdict>): Record {
    if verdicts == [] then base
    else Judge(policy, JudgeAll(policy, base, verdicts[..|verdicts| - 1]), verdicts[|verdicts| - 1])
  }

  function Evidence(r: Record): nat {
    r.passes + r.fails
  }

  lemma {:induction false} JudgeAllCounts(policy: Policy, base: Record, verdicts: seq<Verdict>)
    ensures Evidence(JudgeAll(policy, base, verdicts)) == Evidence(base) + |verdicts|
  {
    if verdicts != [] {
      JudgeAllCounts(policy, base, verdicts[..|verdicts| - 1]);
    }
  }

  /**
   When no run's evidence is lost: of two copies of a record that two runs have each added verdicts to, the
   merge keeps the evidence of both exactly when the side that does not win has added none. Of more recent
   verdicts on both sides the winner's are counted, and the others are not.
   */
  lemma EvidenceIsKeptIff(
    policy: Policy, memory: map<string, Record>, disk: map<string, Record>, dropped: set<string>, ties: bool,
    cutoff: int, merged: map<string, Record>, k: string, base: Record, mine: seq<Verdict>, theirs: seq<Verdict>)
    requires MergedSection(memory, disk, dropped, ties, cutoff, LastSeen, merged)
    requires k in memory && k in disk && k !in dropped
    requires memory[k] == JudgeAll(policy, base, mine) && disk[k] == JudgeAll(policy, base, theirs)
    ensures var mineWins := MemoryWins(memory[k].lastSeen, disk[k].lastSeen, ties);
            && k in merged
            && merged[k] == JudgeAll(policy, base, if mineWins then mine else theirs)
            && (Evidence(merged[k]) == Evidence(base) + |mine| + |theirs| <==>
                 (if mineWins then theirs else mine) == [])
  {
    JudgeAllCounts(policy, base, mine);
    JudgeAllCounts(policy, base, theirs);
  }

  /** A source record after more samples. */
  function MeasureOn(policy: SourcePolicy, base: SourceRecord, samples: seq<Sample>): SourceRecord
    requires policy.Sane()
  {
    if samples == [] then base
    else Measure(policy, MeasureOn(policy, base, samples[..|samples| - 1]), samples[|samples| - 1])
  }

  lemma {:induction false} MeasureOnCounts(policy: SourcePolicy, base: SourceRecord, samples: seq<Sample>)
    requires policy.Sane()
    ensures MeasureOn(policy, base, samples).runs == base.runs + |samples|
  {
    if samples != [] {
      MeasureOnCounts(policy, base, samples[..|samples| - 1]);
    }
  }

  /** The same of a source record, whose evidence is the runs it has seen. */
  lemma SourceEvidenceIsKeptIff(
    policy: SourcePolicy, memory: map<string, SourceRecord>, disk: map<string, SourceRecord>, dropped: set<string>,
    ties: bool, cutoff: int, merged: map<string, SourceRecord>, k: string, base: SourceRecord, mine: seq<Sample>,
    theirs: seq<Sample>)
    requires policy.Sane() && MergedSection(memory, disk, dropped, ties, cutoff, UpdatedAt, merged)
    requires k in memory && k in disk && k !in dropped
    requires memory[k] == MeasureOn(policy, base, mine) && disk[k] == MeasureOn(policy, base, theirs)
    ensures var mineWins := MemoryWins(memory[k].updatedAt, disk[k].updatedAt, ties);
            && k in merged
            && merged[k] == MeasureOn(policy, base, if mineWins then mine else theirs)
            && (merged[k].runs == base.runs + |mine| + |theirs| <==> (if mineWins then theirs else mine) == [])
  {
    MeasureOnCounts(policy, base, mine);
    MeasureOnCounts(policy, base, theirs);
  }

  /**
   The winner takes the whole record: when two processes each add a verdict to the same record, the
   merged one counts one verdict more than before, not two, whichever side wins.
   */
  lemma ConcurrentVerdictIsLost(
    policy: Policy, base: Record, mine: Verdict, theirs: Verdict, k: string, ties: bool, cutoff: int,
    merged: map<string, Record>)
    requires MergedSection(map[k := Judge(policy, base, mine)], map[k := Judge(policy, base, theirs)], {}, ties, cutoff,
             LastSeen, merged)
    ensures merged.Keys == {k} && merged[k].passes + merged[k].fails == base.passes + base.fails + 1
    ensures merged[k] == Judge(policy, base, if MemoryWins(mine.at, theirs.at, ties) then mine else theirs)
  {
    assert k in merged;
  }
}
