/**
 The crawl of a repository directory under two limits: a depth, and a budget of files that is split
 among the subdirectories before they are crawled.

 What the server answers is a function of the place in the crawl, not of the path, so a directory may
 contain itself and may answer differently each time it is met.
 */
module Crawl {
  import opened Options
  import opened Sequences

  /** Where the crawl is: the indexes of the directory entries that led there. */
  type Place = seq<nat>

  datatype Entry = File(path: string) | Dir | Other

  /** list is None when the listing raises; fetch is None when it does, for the i-th file of a directory. */
  datatype Server = Server(list: Place -> Option<seq<Entry>>, fetch: (Place, nat) -> Option<string>)

  type Found = (string, string)

  /** The account of a crawl: files is None when the call raises; the other two count the requests made for it. */
  datatype Outcome = Outcome(files: Option<seq<Found>>, listings: nat, attempts: nat)
  {
    /** What a caller that catches everything gets. */
    function Files(): seq<Found> {
      if files.None? then [] else files.value
    }
  }

  function IsFile(): Entry -> bool {
    (e: Entry) => e.File?
  }

  function IsDir(): Entry -> bool {
    (e: Entry) => e.Dir?
  }

  // ---- one directory ----

  /** `_fetch_one_file`: failures and empty files leave nothing. */
  function FetchedFile(server: Server, place: Place, i: nat, e: Entry): seq<Found> {
    var content := server.fetch(place, i);
    if e.File? && content.Some? && content.value != "" then [(e.path, content.value)] else []
  }

  function FetchedFiles(server: Server, place: Place, files: seq<Entry>): (r: seq<Found>)
    ensures |r| <= |files|
  {
    if files == [] then []
    else
      var last := |files| - 1;
      FetchedFiles(server, place, files[..last]) + FetchedFile(server, place, last, files[last])
  }

  function NonNegative(n: int): nat {
    if n < 0 then 0 else n
  }

  /** `sub_budgets`: equal parts, and one more file for the first directories while the remainder lasts. */
  function EvenSplit(budget: nat, n: nat): (r: seq<nat>)
    requires n > 0
    ensures |r| == n
  {
    seq(n, i => budget / n + if i < budget % n then 1 else 0)
  }

  /** What one directory asks for: the files it brings, the fetches made, and the budgets it passes on. */
  datatype Level = Level(here: seq<Found>, tried: nat, budgets: seq<nat>)

  function LevelOf(server: Server, place: Place, maxFiles: int, entries: seq<Entry>): Level {
    var dirs := |Filter(entries, IsDir())|;
    var tried := Take(Filter(entries, IsFile()), NonNegative(maxFiles));
    var here := FetchedFiles(server, place, tried);
    Level(here, |tried|, if |here| < maxFiles && dirs > 0 then EvenSplit(maxFiles - |here|, dirs) else [])
  }

  /** None when the listing raises. */
  function LevelAt(server: Server, place: Place, maxFiles: int): Option<Level> {
    var entries := server.list(place);
    if entries.None? then None else Some(LevelOf(server, place, maxFiles, entries.value))
  }

  // ---- what a crawl returns and costs ----

  /** What every directory asks for, by its place and the budget that reaches it. */
  type Plan = (Place, int) -> Option<Level>

  function PlanOf(server: Server): Plan {
    (place: Place, maxFiles: int) => LevelAt(server, place, maxFiles)
  }

  function Combined(level: Level, below: Outcome): Outcome {
    Outcome(Some(level.here + below.Files()), 1 + below.listings, level.tried + below.attempts)
  }

  function Crawled(plan: Plan, place: Place, maxDepth: int, maxFiles: int): Outcome
    decreases NonNegative(maxDepth), 1, 0
  {
    if maxDepth <= 0 then Outcome(Some([]), 0, 0)
    else
      var level := plan(place, maxFiles);
      if level.None? then Outcome(None, 1, 0)
      else Combined(level.value, CrawledDirs(plan, place, maxDepth, level.value.budgets))
  }

  /** The subdirectories that have a budget, in order; one that raises brings nothing. */
  function CrawledDirs(plan: Plan, place: Place, maxDepth: int, budgets: seq<nat>): (r: Outcome)
    requires maxDepth > 0
    ensures r.files.Some?
    decreases NonNegative(maxDepth), 0, |budgets|
  {
    if budgets == [] then Outcome(Some([]), 0, 0)
    else
      var last := |budgets| - 1;
      var before := CrawledDirs(plan, place, maxDepth, budgets[..last]);
      if budgets[last] <= 0 then before
      else
        Joined(before, Crawled(plan, place + [last], maxDepth - 1, budgets[last]))
  }

  /** The account of one more subdirectory. */
  function Joined(before: Outcome, sub: Outcome): (r: Outcome)
    ensures r.files.Some?
  {
    Outcome(Some(before.Files() + sub.Files()), before.listings + sub.listings, before.attempts + sub.attempts)
  }

  lemma NextDir(plan: Plan, place: Place, maxDepth: int, budgets: seq<nat>, i: nat)
    requires maxDepth > 0 && i < |budgets|
    ensures CrawledDirs(plan, place, maxDepth, budgets[..i + 1]) ==
            var before := CrawledDirs(plan, place, maxDepth, budgets[..i]);
            if budgets[i] <= 0 then before
            else Joined(before, Crawled(plan, place + [i], maxDepth - 1, budgets[i]))
  {
    assert budgets[..i + 1][..i] == budgets[..i];
  }

  // ---- the crawl ----

  /** The two lists that the entries are separated into. */
  method Separate(entries: seq<Entry>) returns (files: seq<Entry>, dirs: seq<Entry>)
    ensures files == Filter(entries, IsFile()) && dirs == Filter(entries, IsDir())
  {
    files, dirs := [], [];
    for i := 0 to |entries|
      invariant files == Filter(entries[..i], IsFile()) && dirs == Filter(entries[..i], IsDir())
    {
      assert entries[..i + 1] == entries[..i] + [entries[i]];
      FilterSnoc(entries[..i], entries[i], IsFile());
      FilterSnoc(entries[..i], entries[i], IsDir());
      if entries[i].File? {
        files := files + [entries[i]];
      } else if entries[i].Dir? {
        dirs := dirs + [entries[i]];
      }
    }
    assert entries[..|entries|] == entries;
  }

  /** The server's plan; the trigger keeps the levels folded in the proof of the recursion. */
  ghost predicate IsPlan(plan: Plan, server: Server) {
    forall place: Place, maxFiles: int {:trigger LevelAt(server, place, maxFiles)} ::
      plan(place, maxFiles) == LevelAt(server, place, maxFiles)
  }

  /** The server as an object: its two methods are the requests, and each counts itself. */
  class GitHub {
    const server: Server
    ghost var listings: nat
    ghost var attempts: nat

    constructor (server: Server)
      ensures this.server == server && listings == 0 && attempts == 0
    {
      this.server, listings, attempts := server, 0, 0;
    }

    /** What the requests since an earlier moment come to. */
    ghost predicate Sent(listingsBefore: nat, attemptsBefore: nat, listed: nat, tried: nat)
      reads this
    {
      listings == listingsBefore + listed && attempts == attemptsBefore + tried
    }

    method List(place: Place) returns (entries: Option<seq<Entry>>)
      modifies this
      ensures entries == server.list(place) && Sent(old(listings), old(attempts), 1, 0)
    {
      entries := server.list(place);
      listings := listings + 1;
    }

    method Fetch(place: Place, i: nat) returns (content: Option<string>)
      modifies this
      ensures content == server.fetch(place, i) && Sent(old(listings), old(attempts), 0, 1)
    {
      content := server.fetch(place, i);
      attempts := attempts + 1;
    }
  }

  class GitHubClient {
    const github: GitHub

    constructor (github: GitHub)
      ensures this.github == github
    {
      this.github := github;
    }

    /** `_fetch_one_file`: one fetch; failures and empty files leave nothing. */
    method FetchOneFile(place: Place, i: nat, e: Entry) returns (item: seq<Found>)
      modifies github
      ensures item == FetchedFile(github.server, place, i, e)
      ensures github.Sent(old(github.listings), old(github.attempts), 0, 1)
    {
      var content := github.Fetch(place, i);
      item := if e.File? && content.Some? && content.value != "" then [(e.path, content.value)] else [];
    }

    /** The fetches of one level, and how many of them brought a file. */
    method FetchFiles(place: Place, files: seq<Entry>) returns (results: seq<Found>, fetchedHere: nat)
      modifies github
      ensures results == FetchedFiles(github.server, place, files) && fetchedHere == |results|
      ensures github.Sent(old(github.listings), old(github.attempts), 0, |files|)
    {
      results, fetchedHere := [], 0;
      for i := 0 to |files|
        invariant results == FetchedFiles(github.server, place, files[..i]) && fetchedHere == |results|
        invariant github.Sent(old(github.listings), old(github.attempts), 0, i)
      {
        assert files[..i + 1][..i] == files[..i];
        var item := FetchOneFile(place, i, files[i]);
        if item != [] {
          results := results + item;
          fetchedHere := fetchedHere + 1;
        }
      }
      assert files[..|files|] == files;
    }

    /** The listing of one directory, its files, and the budgets for its subdirectories; None when it raises. */
    method FetchLevel(place: Place, maxFiles: int, ghost plan: Plan) returns (level: Option<(seq<Found>, seq<nat>)>)
      requires IsPlan(plan, github.server)
      modifies github
      ensures level.Some? <==> plan(place, maxFiles).Some?
      ensures level.Some? ==>
                level.value == (plan(place, maxFiles).value.here, plan(place, maxFiles).value.budgets)
      ensures var tried := if level.None? then 0 else plan(place, maxFiles).value.tried;
              github.Sent(old(github.listings), old(github.attempts), 1, tried)
    {
      assert plan(place, maxFiles) == LevelAt(github.server, place, maxFiles);
      var entries := github.List(place);
      if entries.None? {
        return None;
      }
      var files, dirs := Separate(entries.value);
      var results: seq<Found> := [];
      var remaining := maxFiles;
      if remaining > 0 {
        var fetchedHere;
        results, fetchedHere := FetchFiles(place, Take(files, remaining));
        remaining := remaining - fetchedHere;
      }
      level := Some((results, if remaining > 0 && dirs != [] then EvenSplit(remaining, |dirs|) else []));
    }

    /** `fetch_directory`. It returns the files of the account, and sends exactly the requests counted there. */
    method FetchDirectory(place: Place, maxDepth: int, maxFiles: int, ghost plan: Plan)
      returns (files: Option<seq<Found>>)
      requires IsPlan(plan, github.server)
      modifies github
      ensures files == Crawled(plan, place, maxDepth, maxFiles).files
      ensures var account := Crawled(plan, place, maxDepth, maxFiles);
              github.Sent(old(github.listings), old(github.attempts), account.listings, account.attempts)
      decreases NonNegative(maxDepth), 1
    {
      if maxDepth <= 0 {
        return Some([]);
      }
      var level := FetchLevel(place, maxFiles, plan);
      if level.None? {
        return None;
      }
      var below := FetchSubdirectories(place, maxDepth, level.value.1, plan);
      return Some(level.value.0 + below);
    }

    /** The subdirectories: their budgets are fixed first, and their results joined in order. */
    method FetchSubdirectories(place: Place, maxDepth: int, budgets: seq<nat>, ghost plan: Plan)
      returns (results: seq<Found>)
      requires maxDepth > 0 && IsPlan(plan, github.server)
      modifies github
      ensures results == CrawledDirs(plan, place, maxDepth, budgets).Files()
      ensures var account := CrawledDirs(plan, place, maxDepth, budgets);
              github.Sent(old(github.listings), old(github.attempts), account.listings, account.attempts)
      decreases NonNegative(maxDepth), 0
    {
      results := [];
      for i := 0 to |budgets|
        invariant results == CrawledDirs(plan, place, maxDepth, budgets[..i]).Files()
        invariant var account := CrawledDirs(plan, place, maxDepth, budgets[..i]);
                  github.Sent(old(github.listings), old(github.attempts), account.listings, account.attempts)
      {
        NextDir(plan, place, maxDepth, budgets, i);
        if budgets[i] > 0 {
          var sub := FetchDirectory(place + [i], maxDepth - 1, budgets[i], plan);
          results := results + if sub.Some? then sub.value else [];
        }
      }
      assert budgets[..|budgets|] == budgets;
    }
  }

  // ---- the limits hold ----

  function Sum(budgets: seq<nat>): nat {
    if budgets == [] then 0 else Sum(budgets[..|budgets| - 1]) + budgets[|budgets| - 1]
  }

  lemma {:induction false} SumOfParts(quotient: nat, extra: nat, budgets: seq<nat>)
    requires forall i :: 0 <= i < |budgets| ==> budgets[i] == quotient + if i < extra then 1 else 0
    ensures Sum(budgets) == quotient * |budgets| + Min(|budgets|, extra)
  {
    if budgets != [] {
      SumOfParts(quotient, extra, budgets[..|budgets| - 1]);
      TimesNext(quotient, |budgets| - 1);
    }
  }

  lemma TimesNext(a: nat, k: nat)
    ensures a * (k + 1) == a * k + a && (k + 1) * a == k * a + a
  {
  }

  /** The split gives away the whole budget, and no more. */
  lemma SplitIsExact(budget: nat, n: nat)
    requires n > 0
    ensures Sum(EvenSplit(budget, n)) == budget
  {
    SumOfParts(budget / n, budget % n, EvenSplit(budget, n));
  }

  /** No directory gets more than one file more than another, and an earlier one never less than a later. */
  lemma SplitIsEven(budget: nat, n: nat, i: nat, j: nat)
    requires i < j < n
    ensures EvenSplit(budget, n)[j] <= EvenSplit(budget, n)[i] <= EvenSplit(budget, n)[j] + 1
  {
  }

  /** The first max_files files are all tried, and each that is served and not empty is brought. */
  lemma FirstFilesAreBrought(server: Server, place: Place, maxFiles: nat, entries: seq<Entry>, i: nat)
    requires i < |Filter(entries, IsFile())| && i < maxFiles
    requires server.fetch(place, i).Some? && server.fetch(place, i).value != ""
    ensures var f := Filter(entries, IsFile())[i];
            && f.File?
            && (f.path, server.fetch(place, i).value) in LevelOf(server, place, maxFiles, entries).here
            && LevelOf(server, place, maxFiles, entries).tried == Min(maxFiles, |Filter(entries, IsFile())|)
  {
    var files := Filter(entries, IsFile());
    FilterMembers(entries, IsFile(), files[i]);
    ServedIsFetched(server, place, Take(files, maxFiles), i);
  }

  lemma {:induction false} ServedIsFetched(server: Server, place: Place, files: seq<Entry>, i: nat)
    requires i < |files| && files[i].File? && server.fetch(place, i).Some? && server.fetch(place, i).value != ""
    ensures (files[i].path, server.fetch(place, i).value) in FetchedFiles(server, place, files)
  {
    if i < |files| - 1 {
      ServedIsFetched(server, place, files[..|files| - 1], i);
    }
  }

  /** No directory brings or passes on more than the budget that reaches it. */
  ghost predicate KeepsBudget(plan: Plan) {
    forall place, maxFiles :: plan(place, maxFiles).Some? ==>
      WithinBudget(plan(place, maxFiles).value, NonNegative(maxFiles))
  }

  ghost predicate WithinBudget(level: Level, budget: nat) {
    |level.here| + Sum(level.budgets) <= budget && level.tried <= budget
  }

  lemma LevelIsWithinBudget(server: Server, place: Place, maxFiles: int, entries: seq<Entry>)
    ensures WithinBudget(LevelOf(server, place, maxFiles, entries), NonNegative(maxFiles))
  {
    var level := LevelOf(server, place, maxFiles, entries);
    if level.budgets != [] {
      SplitIsExact(maxFiles - |level.here|, |Filter(entries, IsDir())|);
    }
  }

  lemma PlanKeepsBudget(server: Server)
    ensures KeepsBudget(PlanOf(server))
  {
    forall place, maxFiles | server.list(place).Some?
      ensures WithinBudget(LevelAt(server, place, maxFiles).value, NonNegative(maxFiles))
    {
      LevelIsWithinBudget(server, place, maxFiles, server.list(place).value);
    }
  }

  function MaxListings(depth: int, budget: nat): int {
    if depth <= 0 then 0 else 1 + (depth - 1) * budget
  }

  function MaxAttempts(depth: int, budget: nat): int {
    if depth <= 0 then 0 else depth * budget
  }

  ghost predicate Bounded(r: Outcome, depth: int, budget: nat) {
    |r.Files()| <= budget && r.listings <= MaxListings(depth, budget) && r.attempts <= MaxAttempts(depth, budget)
  }

  /** What the subdirectories may cost together, with this budget among them. */
  ghost predicate BoundedBelow(r: Outcome, depth: int, budget: nat) {
    |r.Files()| <= budget && r.listings <= (depth - 1) * budget && r.attempts <= (depth - 1) * budget
  }

  /** One level: its own requests, and those of the levels below. */
  lemma LevelIsBounded(depth: int, budget: nat, level: Level, below: Outcome)
    requires depth > 0 && WithinBudget(level, budget) && BoundedBelow(below, depth, Sum(level.budgets))
    ensures Bounded(Combined(level, below), depth, budget)
  {
    TimesMonotone(depth - 1, Sum(level.budgets), budget);
    TimesNext(budget, depth - 1);
  }

  lemma TimesMonotone(a: nat, b: nat, c: nat)
    requires b <= c
    ensures a * b <= a * c
  {
  }

  lemma NextDirIsBounded(depth: int, granted: nat, share: nat, before: Outcome, sub: Outcome, r: Outcome)
    requires depth > 0 && BoundedBelow(before, depth, granted) && share > 0 && Bounded(sub, depth - 1, share)
    requires |r.Files()| == |before.Files()| + |sub.Files()|
    requires r.listings == before.listings + sub.listings && r.attempts == before.attempts + sub.attempts
    ensures BoundedBelow(r, depth, granted + share)
  {
    assert (depth - 1) * (granted + share) == (depth - 1) * granted + (depth - 1) * share;
    if depth > 1 {
      assert (depth - 1) * share == share + (depth - 2) * share;
    }
  }

  const NOTHING := Outcome(Some([]), 0, 0)

  lemma NothingIsBounded(depth: int, budget: nat)
    requires depth > 0
    ensures BoundedBelow(NOTHING, depth, budget) && MaxListings(depth, budget) >= 1 && MaxAttempts(depth, budget) >= 0
  {
    assert (depth - 1) * budget >= 0 && depth * budget >= 0;
  }

  lemma {:induction false} CrawlIsBounded(plan: Plan, place: Place, maxDepth: int, maxFiles: int)
    requires KeepsBudget(plan)
    ensures Bounded(Crawled(plan, place, maxDepth, maxFiles), maxDepth, NonNegative(maxFiles))
    decreases NonNegative(maxDepth), 1, 0
  {
    if maxDepth > 0 {
      NothingIsBounded(maxDepth, NonNegative(maxFiles));
      var level := plan(place, maxFiles);
      if level.Some? {
        DirsAreBounded(plan, place, maxDepth, level.value.budgets);
        var below := CrawledDirs(plan, place, maxDepth, level.value.budgets);
        LevelIsBounded(maxDepth, NonNegative(maxFiles), level.value, below);
      }
    }
  }

  lemma {:induction false} DirsAreBounded(plan: Plan, place: Place, maxDepth: int, budgets: seq<nat>)
    requires maxDepth > 0 && KeepsBudget(plan)
    ensures BoundedBelow(CrawledDirs(plan, place, maxDepth, budgets), maxDepth, Sum(budgets))
    decreases NonNegative(maxDepth), 0, |budgets|
  {
    if budgets == [] {
      NothingIsBounded(maxDepth, 0);
    } else {
      var last := |budgets| - 1;
      DirsAreBounded(plan, place, maxDepth, budgets[..last]);
      if budgets[last] > 0 {
        CrawlIsBounded(plan, place + [last], maxDepth - 1, budgets[last]);
        var before := CrawledDirs(plan, place, maxDepth, budgets[..last]);
        var sub := Crawled(plan, place + [last], maxDepth - 1, budgets[last]);
        NextDirIsBounded(
          maxDepth, Sum(budgets[..last]), budgets[last], before, sub, CrawledDirs(plan, place, maxDepth, budgets));
      }
    }
  }

  /**
   Whatever the tree is, cyclic or not, and whatever fails: at most max_files files come back, for at
   most 1 + (max_depth - 1) * max_files listings and max_depth * max_files fetches.
   */
  lemma EveryCrawlIsBounded(server: Server, place: Place, maxDepth: int, maxFiles: int)
    ensures Bounded(Crawled(PlanOf(server), place, maxDepth, maxFiles), maxDepth, NonNegative(maxFiles))
  {
    PlanKeepsBudget(server);
    CrawlIsBounded(PlanOf(server), place, maxDepth, maxFiles);
  }

  // ---- nothing is made up ----

  /** The file is the i-th of the directory at that place, and has been fetched from there. */
  ghost predicate FetchedAt(server: Server, at: Place, i: nat, f: Found) {
    && server.list(at).Some?
    && var files := Filter(server.list(at).value, IsFile());
       i < |files| && files[i].File? && files[i].path == f.0 && server.fetch(at, i) == Some(f.1) && f.1 != ""
  }

  lemma {:induction false} FetchedIsThere(server: Server, place: Place, files: seq<Entry>, f: Found) returns (i: nat)
    requires f in FetchedFiles(server, place, files)
    ensures i < |files| && files[i].File? && files[i].path == f.0 && server.fetch(place, i) == Some(f.1) && f.1 != ""
  {
    var last := |files| - 1;
    if f in FetchedFile(server, place, last, files[last]) {
      i := last;
    } else {
      i := FetchedIsThere(server, place, files[..last], f);
    }
  }

  lemma HereIsFetched(server: Server, place: Place, maxFiles: int, f: Found) returns (i: nat)
    requires LevelAt(server, place, maxFiles).Some? && f in LevelAt(server, place, maxFiles).value.here
    ensures FetchedAt(server, place, i, f)
  {
    var files := Filter(server.list(place).value, IsFile());
    var tried := Take(files, NonNegative(maxFiles));
    i := FetchedIsThere(server, place, tried, f);
    assert tried[i] == files[i];
  }

  /** The file is one that the plan brings at that place, fewer than depth levels down. */
  ghost predicate Brought(plan: Plan, place: Place, depth: int, f: Found, at: Place, budget: int) {
    place <= at && |at| < |place| + depth && plan(at, budget).Some? && f in plan(at, budget).value.here
  }

  lemma {:induction false} FilesAreBrought(plan: Plan, place: Place, maxDepth: int, maxFiles: int, f: Found)
    returns (at: Place, budget: int)
    requires f in Crawled(plan, place, maxDepth, maxFiles).Files()
    ensures Brought(plan, place, maxDepth, f, at, budget)
    decreases NonNegative(maxDepth), 1, 0
  {
    var level := plan(place, maxFiles).value;
    if f in level.here {
      at, budget := place, maxFiles;
    } else {
      at, budget := DirFilesAreBrought(plan, place, maxDepth, level.budgets, f);
    }
  }

  lemma FilesOfLastDir(plan: Plan, place: Place, maxDepth: int, budgets: seq<nat>, f: Found)
    requires maxDepth > 0 && f in CrawledDirs(plan, place, maxDepth, budgets).Files()
    ensures budgets != []
    ensures var last := |budgets| - 1;
            || f in CrawledDirs(plan, place, maxDepth, budgets[..last]).Files()
            || f in Crawled(plan, place + [last], maxDepth - 1, budgets[last]).Files()
  {
  }

  lemma {:induction false} DirFilesAreBrought(plan: Plan, place: Place, maxDepth: int, budgets: seq<nat>, f: Found)
    returns (at: Place, budget: int)
    requires maxDepth > 0 && f in CrawledDirs(plan, place, maxDepth, budgets).Files()
    ensures Brought(plan, place, maxDepth, f, at, budget)
    decreases NonNegative(maxDepth), 0, |budgets|
  {
    var last := |budgets| - 1;
    FilesOfLastDir(plan, place, maxDepth, budgets, f);
    if f in CrawledDirs(plan, place, maxDepth, budgets[..last]).Files() {
      at, budget := DirFilesAreBrought(plan, place, maxDepth, budgets[..last], f);
    } else {
      at, budget := FilesAreBrought(plan, place + [last], maxDepth - 1, budgets[last], f);
      assert place <= place + [last];
    }
  }

  /** Every file of the result is one that some directory of the tree, within the depth, has served, not empty. */
  lemma FilesAreServed(server: Server, place: Place, maxDepth: int, maxFiles: int, f: Found) returns (at: Place, i: nat)
    requires f in Crawled(PlanOf(server), place, maxDepth, maxFiles).Files()
    ensures place <= at && |at| < |place| + maxDepth && FetchedAt(server, at, i, f)
  {
    var budget;
    at, budget := FilesAreBrought(PlanOf(server), place, maxDepth, maxFiles, f);
    i := HereIsFetched(server, at, budget, f);
  }

  // ---- in which order, and when the call raises ----

  /** The call raises exactly when the listing of its own directory does; below that nothing makes it raise. */
  lemma RaisesIff(server: Server, place: Place, maxDepth: int, maxFiles: int)
    ensures Crawled(PlanOf(server), place, maxDepth, maxFiles).files.None? <==>
            maxDepth > 0 && server.list(place).None?
    ensures maxDepth <= 0 ==> Crawled(PlanOf(server), place, maxDepth, maxFiles) == Outcome(Some([]), 0, 0)
  {
  }

  /** The files of a directory come before those below it, and those of a subdirectory before the next one's. */
  lemma {:induction false} FilesInOrder(plan: Plan, place: Place, maxDepth: int, maxFiles: int, n: nat)
    requires maxDepth > 0 && plan(place, maxFiles).Some? && n <= |plan(place, maxFiles).value.budgets|
    ensures var level := plan(place, maxFiles).value;
            level.here + CrawledDirs(plan, place, maxDepth, level.budgets[..n]).Files()
              <= Crawled(plan, place, maxDepth, maxFiles).Files()
  {
    var level := plan(place, maxFiles).value;
    DirsInOrder(plan, place, maxDepth, level.budgets, n);
  }

  lemma {:induction false} DirsInOrder(plan: Plan, place: Place, maxDepth: int, budgets: seq<nat>, n: nat)
    requires maxDepth > 0 && n <= |budgets|
    ensures CrawledDirs(plan, place, maxDepth, budgets[..n]).Files()
              <= CrawledDirs(plan, place, maxDepth, budgets).Files()
    decreases |budgets|
  {
    var last := |budgets| - 1;
    if n < |budgets| {
      DirsInOrder(plan, place, maxDepth, budgets[..last], n);
      assert budgets[..last][..n] == budgets[..n];
      NextDir(plan, place, maxDepth, budgets, last);
      assert budgets[..last + 1] == budgets;
    } else {
      assert budgets[..n] == budgets;
    }
  }

  // ---- the limits are reached ----

  /** Every directory holds m files that fail, and m directories. */
  function Failing(m: nat): Server {
    Server(_ => Some(seq(m, _ => File("")) + seq(m, _ => Dir)), (_, _) => None)
  }

  lemma {:induction false} AllKept<T>(s: seq<T>, keep: T -> bool)
    requires forall i :: 0 <= i < |s| ==> keep(s[i])
    ensures Filter(s, keep) == s
  {
    if s != [] {
      AllKept(s[1..], keep);
      assert s == [s[0]] + s[1..];
    }
  }

  lemma {:induction false} NoneKept<T>(s: seq<T>, keep: T -> bool)
    requires forall i :: 0 <= i < |s| ==> !keep(s[i])
    ensures Filter(s, keep) == []
  {
    if s != [] {
      NoneKept(s[1..], keep);
    }
  }

  lemma FailingEntries(m: nat, place: Place)
    ensures var entries := Failing(m).list(place);
            && entries.Some?
            && |Filter(entries.value, IsFile())| == m
            && |Filter(entries.value, IsDir())| == m
  {
    var files, dirs := seq(m, _ => File("")), seq(m, _ => Dir);
    FilterConcat(files, dirs, IsFile());
    FilterConcat(files, dirs, IsDir());
    AllKept(files, IsFile());
    AllKept(dirs, IsDir());
    NoneKept(files, IsDir());
    NoneKept(dirs, IsFile());
  }

  lemma {:induction false} NothingFetched(m: nat, place: Place, files: seq<Entry>)
    ensures FetchedFiles(Failing(m), place, files) == []
  {
    if files != [] {
      NothingFetched(m, place, files[..|files| - 1]);
    }
  }

  /** Every directory holds m files, and every file is served. */
  function Serving(m: nat): Server {
    Server(_ => Some(seq(m, _ => File(""))), (_, _) => Some("x"))
  }

  lemma {:induction false} AllFetched(m: nat, place: Place, files: seq<Entry>)
    requires forall i :: 0 <= i < |files| ==> files[i].File?
    ensures |FetchedFiles(Serving(m), place, files)| == |files|
  {
    if files != [] {
      AllFetched(m, place, files[..|files| - 1]);
    }
  }

  lemma ServingLevel(m: nat, place: Place)
    ensures LevelAt(Serving(m), place, m).Some? && |LevelAt(Serving(m), place, m).value.here| == m
  {
    var files := seq(m, _ => File(""));
    AllKept(files, IsFile());
    AllFetched(m, place, files);
    assert Serving(m).list(place) == Some(files);
    assert Take(Filter(files, IsFile()), m) == files;
  }

  /** So many files do come back: the first bound is reached as well. */
  lemma FilesAreReached(maxDepth: nat, maxFiles: nat)
    requires maxDepth > 0
    ensures |Crawled(PlanOf(Serving(maxFiles)), [], maxDepth, maxFiles).Files()| == maxFiles
  {
    ServingLevel(maxFiles, []);
    EveryCrawlIsBounded(Serving(maxFiles), [], maxDepth, maxFiles);
  }

  /** Such a directory passes its whole budget on, having tried as many files. */
  ghost predicate PassesOn(plan: Plan, m: nat) {
    forall place, budget :: 0 <= budget <= m ==>
      && plan(place, budget).Some?
      && var level := plan(place, budget).value;
         && level.here == [] && level.tried == budget
         && (budget == 0 ==> level.budgets == [])
         && (budget == 1 ==> forall i :: 0 <= i < |level.budgets| ==> level.budgets[i] == if i == 0 then 1 else 0)
         && (budget == 1 ==> level.budgets != [])
         && (budget == m ==> |level.budgets| == m && forall i :: 0 <= i < m ==> level.budgets[i] == 1)
  }

  lemma SplitOfOne(n: nat)
    requires n > 0
    ensures forall i :: 0 <= i < n ==> EvenSplit(1, n)[i] == if i == 0 then 1 else 0
  {
    if n > 1 {
      assert 1 / n == 0 && 1 % n == 1;
    }
  }

  lemma SplitAmongAll(n: nat)
    requires n > 0
    ensures forall i :: 0 <= i < n ==> EvenSplit(n, n)[i] == 1
  {
    assert n / n == 1 && n % n == 0;
  }

  lemma FailingLevel(m: nat, place: Place, budget: nat)
    requires budget <= m
    ensures LevelAt(Failing(m), place, budget) ==
              Some(Level([], budget, if budget > 0 then EvenSplit(budget, m) else []))
  {
    FailingEntries(m, place);
    NothingFetched(m, place, Take(Filter(Failing(m).list(place).value, IsFile()), budget));
  }

  lemma FailingPassesOn(m: nat)
    ensures PassesOn(PlanOf(Failing(m)), m)
  {
    if m > 0 {
      SplitOfOne(m);
      SplitAmongAll(m);
    }
    forall place, budget | 0 <= budget <= m
      ensures LevelAt(Failing(m), place, budget) ==
                Some(Level([], budget, if budget > 0 then EvenSplit(budget, m) else []))
    {
      FailingLevel(m, place, budget);
    }
  }

  /** A budget of one file costs one listing and one fetch on every level. */
  lemma {:induction false} OneFile(plan: Plan, m: nat, place: Place, depth: nat)
    requires m > 0 && PassesOn(plan, m)
    ensures var r := Crawled(plan, place, depth, 1);
            r.listings == depth && r.attempts == depth
    decreases depth, 1, 0
  {
    if depth > 0 {
      OnlyTheFirst(plan, m, place, depth, plan(place, 1).value.budgets);
    }
  }

  lemma {:induction false} OnlyTheFirst(plan: Plan, m: nat, place: Place, depth: nat, budgets: seq<nat>)
    requires depth > 0 && m > 0 && PassesOn(plan, m)
    requires forall i :: 0 <= i < |budgets| ==> budgets[i] == if i == 0 then 1 else 0
    ensures var r := CrawledDirs(plan, place, depth, budgets);
            r.listings == (if budgets == [] then 0 else depth - 1) && r.attempts == r.listings
    decreases depth, 0, |budgets|
  {
    if budgets != [] {
      var last := |budgets| - 1;
      OnlyTheFirst(plan, m, place, depth, budgets[..last]);
      OneFile(plan, m, place + [last], depth - 1);
    }
  }

  /** a times k, as a sum. */
  function Repeated(a: nat, k: nat): nat {
    if k == 0 then 0 else Repeated(a, k - 1) + a
  }

  lemma {:induction false} RepeatedIsProduct(a: nat, k: nat)
    ensures Repeated(a, k) == a * k
  {
    if k > 0 {
      RepeatedIsProduct(a, k - 1);
      TimesNext(a, k - 1);
    }
  }

  lemma LastDir(plan: Plan, place: Place, depth: nat, budgets: seq<nat>)
    requires depth > 0 && budgets != [] && budgets[|budgets| - 1] > 0
    ensures var last := |budgets| - 1;
            CrawledDirs(plan, place, depth, budgets) ==
            Joined(CrawledDirs(plan, place, depth, budgets[..last]),
              Crawled(plan, place + [last], depth - 1, budgets[last]))
  {
  }

  lemma {:induction false} EveryDir(plan: Plan, m: nat, place: Place, depth: nat, budgets: seq<nat>)
    requires depth > 0 && (budgets != [] ==> m > 0) && PassesOn(plan, m)
    requires forall i :: 0 <= i < |budgets| ==> budgets[i] == 1
    ensures var r := CrawledDirs(plan, place, depth, budgets);
            r.listings == Repeated(depth - 1, |budgets|) && r.attempts == r.listings
    decreases |budgets|
  {
    if budgets != [] {
      var last := |budgets| - 1;
      LastDir(plan, place, depth, budgets);
      EveryDir(plan, m, place, depth, budgets[..last]);
      OneFile(plan, m, place + [last], depth - 1);
    }
  }

  lemma CrawlOfLevel(plan: Plan, place: Place, depth: nat, budget: nat, level: Level)
    requires depth > 0 && plan(place, budget) == Some(level)
    ensures Crawled(plan, place, depth, budget) == Combined(level, CrawledDirs(plan, place, depth, level.budgets))
  {
  }

  lemma LevelOfAll(plan: Plan, m: nat, place: Place) returns (level: Level)
    requires PassesOn(plan, m)
    ensures plan(place, m) == Some(level) && level.here == [] && level.tried == m && |level.budgets| == m
    ensures forall i :: 0 <= i < m ==> level.budgets[i] == 1
  {
    level := plan(place, m).value;
  }

  lemma WholeBudget(plan: Plan, m: nat, place: Place, depth: nat)
    requires depth > 0 && PassesOn(plan, m)
    ensures var r := Crawled(plan, place, depth, m);
            r.listings == 1 + Repeated(depth - 1, m) && r.attempts == m + Repeated(depth - 1, m)
  {
    var level := LevelOfAll(plan, m, place);
    CrawlOfLevel(plan, place, depth, m, level);
    EveryDir(plan, m, place, depth, level.budgets);
  }

  /** The bounds cannot be lowered: for every depth and budget there is a tree that takes all of them. */
  lemma BoundsAreReached(maxDepth: nat, maxFiles: nat)
    requires maxDepth > 0
    ensures var r := Crawled(PlanOf(Failing(maxFiles)), [], maxDepth, maxFiles);
            r.listings == MaxListings(maxDepth, maxFiles) && r.attempts == MaxAttempts(maxDepth, maxFiles)
  {
    FailingPassesOn(maxFiles);
    WholeBudget(PlanOf(Failing(maxFiles)), maxFiles, [], maxDepth);
    Totals(maxDepth, maxFiles);
  }

  lemma Totals(depth: nat, budget: nat)
    requires depth > 0
    ensures MaxListings(depth, budget) == 1 + Repeated(depth - 1, budget)
    ensures MaxAttempts(depth, budget) == budget + Repeated(depth - 1, budget)
  {
    RepeatedIsProduct(depth - 1, budget);
    TimesNext(budget, depth - 1);
  }
}
