/** Deduplication with a preference order, sorting, and the per-country and total limits. */
module Merger {
  import opened Options
  import opened Sequences
  import opened Sorting
  import opened Configs

  /** `_latency_sort_key`: a missing latency is the worst, and no worse than another missing one. */
  predicate LatencyLe(a: Config, b: Config) {
    b.latency.None? || (a.latency.Some? && a.latency.value <= b.latency.value)
  }

  /** When both latencies are known a has no higher one; a known latency comes before a missing one. */
  predicate FasterOrSame(a: Config, b: Config) {
    b.latency.Some? ==> a.latency.Some? && a.latency.value <= b.latency.value
  }

  /** `_dedup_rank(a) <= _dedup_rank(b)` */
  predicate RankLe(a: Config, b: Config) {
    (!a.Dead() && b.Dead()) || (a.Dead() == b.Dead() && LatencyLe(a, b))
  }

  predicate RankLt(a: Config, b: Config) {
    !RankLe(b, a)
  }

  // ---- deduplicate ----

  function Keys(s: seq<Config>): (r: seq<DedupKey>)
    ensures |r| == |s|
  {
    seq(|s|, i requires 0 <= i < |s| => s[i].dedupKey)
  }

  predicate HasKey(s: seq<Config>, k: DedupKey) {
    k in Keys(s)
  }

  lemma KeysSnoc(s: seq<Config>, c: Config)
    ensures Keys(s + [c]) == Keys(s) + [c.dedupKey]
  {
  }

  /** The keys in the order in which they are first seen. */
  function FirstSeen(s: seq<Config>): seq<DedupKey> {
    Uniq(Keys(s))
  }

  /** The survivor of a key: a later duplicate replaces it only when it ranks strictly better. */
  function Best(s: seq<Config>, k: DedupKey): (c: Config)
    requires HasKey(s, k)
    ensures c.dedupKey == k && c in s
  {
    var init, last := s[..|s| - 1], s[|s| - 1];
    assert s == init + [last] && Keys(s) == Keys(init) + [last.dedupKey];
    if !HasKey(init, k) then last
    else if last.dedupKey == k && RankLt(last, Best(init, k)) then last
    else Best(init, k)
  }

  function Survivors(s: seq<Config>, keys: seq<DedupKey>): (r: seq<Config>)
    requires forall i :: 0 <= i < |keys| ==> HasKey(s, keys[i])
    ensures |r| == |keys|
  {
    seq(|keys|, i requires 0 <= i < |keys| => Best(s, keys[i]))
  }

  function Dedup(s: seq<Config>): seq<Config> {
    assert forall k :: k in FirstSeen(s) <==> HasKey(s, k) by {
      forall k
        ensures k in FirstSeen(s) <==> HasKey(s, k)
      {
        UniqMembers(Keys(s), k);
      }
    }
    Survivors(s, FirstSeen(s))
  }

  /** The entries that are not None. */
  function Present(s: seq<Option<Config>>): seq<Config> {
    if s == [] then []
    else Present(s[..|s| - 1]) + if s[|s| - 1].Some? then [s[|s| - 1].value] else []
  }

  lemma PresentSnoc(s: seq<Option<Config>>, i: nat)
    requires i < |s|
    ensures Present(s[..i + 1]) == Present(s[..i]) + if s[i].Some? then [s[i].value] else []
  {
    assert s[..i + 1][..i] == s[..i];
  }

  lemma BestSnoc(s: seq<Config>, c: Config, k: DedupKey)
    ensures HasKey(s + [c], k) <==> HasKey(s, k) || k == c.dedupKey
    ensures HasKey(s + [c], k) ==>
              Best(s + [c], k) == if !HasKey(s, k) || (k == c.dedupKey && RankLt(c, Best(s, k))) then c else Best(s, k)
  {
    KeysSnoc(s, c);
    assert (s + [c])[..|s|] == s;
  }

  /** What the dictionary of `deduplicate` holds once it has gone through s. */
  ghost predicate SeenIs(seen: map<DedupKey, Config>, s: seq<Config>) {
    forall k :: (k in seen <==> HasKey(s, k)) && (k in seen ==> seen[k] == Best(s, k))
  }

  lemma SeenSnoc(seen: map<DedupKey, Config>, s: seq<Config>, c: Config)
    requires SeenIs(seen, s)
    ensures c.dedupKey in seen <==> HasKey(s, c.dedupKey)
    ensures SeenIs(
              if c.dedupKey !in seen || RankLt(c, seen[c.dedupKey]) then seen[c.dedupKey := c] else seen,
              s + [c])
  {
    var after := if c.dedupKey !in seen || RankLt(c, seen[c.dedupKey]) then seen[c.dedupKey := c] else seen;
    forall k
      ensures k in after <==> HasKey(s + [c], k)
      ensures k in after ==> after[k] == Best(s + [c], k)
    {
      BestSnoc(s, c, k);
      assert k in seen <==> HasKey(s, k);
    }
  }

  method Deduplicate(configs: seq<Option<Config>>) returns (result: seq<Config>)
    ensures result == Dedup(Present(configs))
  {
    var seen: map<DedupKey, Config> := map[];
    var order: seq<DedupKey> := [];
    for i := 0 to |configs|
      invariant order == FirstSeen(Present(configs[..i])) && SeenIs(seen, Present(configs[..i]))
    {
      ghost var before := Present(configs[..i]);
      PresentSnoc(configs, i);
      if configs[i].Some? {
        var config := configs[i].value;
        var key := config.dedupKey;
        SeenSnoc(seen, before, config);
        UniqSnoc(Keys(before), key);
        KeysSnoc(before, config);
        if key !in seen {
          seen := seen[key := config];
          order := order + [key];
        } else if RankLt(config, seen[key]) {
          seen := seen[key := config];
        }
      } else {
        assert Present(configs[..i + 1]) == before;
      }
    }
    assert configs[..|configs|] == configs;
    forall k
      ensures k in order <==> k in seen
    {
      UniqMembers(Keys(Present(configs)), k);
    }
    result := seq(|order|, i requires 0 <= i < |order| && order[i] in seen => seen[order[i]]);
  }

  /** c is the earliest config of its key that no other of that key outranks. */
  ghost predicate EarliestMinimal(s: seq<Config>, k: DedupKey, c: Config) {
    exists i :: 0 <= i < |s| && s[i] == c && c.dedupKey == k
      && (forall j :: 0 <= j < |s| && s[j].dedupKey == k ==> RankLe(c, s[j]))
      && (forall j :: 0 <= j < i && s[j].dedupKey == k ==> RankLt(c, s[j]))
  }

  lemma {:induction false} BestIsEarliestMinimal(s: seq<Config>, k: DedupKey)
    requires HasKey(s, k)
    ensures EarliestMinimal(s, k, Best(s, k))
  {
    var init, last := s[..|s| - 1], s[|s| - 1];
    assert s == init + [last];
    BestSnoc(init, last, k);
    if HasKey(init, k) && !(last.dedupKey == k && RankLt(last, Best(init, k))) {
      BestIsEarliestMinimal(init, k);
      EarliestMinimalSnoc(s, k, Best(init, k));
    } else if HasKey(init, k) {
      BestIsEarliestMinimal(init, k);
      LastIsEarliestMinimal(s, k, Best(init, k));
    } else {
      FirstIsEarliestMinimal(s, k);
    }
  }

  lemma FirstIsEarliestMinimal(s: seq<Config>, k: DedupKey)
    requires s != [] && !HasKey(s[..|s| - 1], k) && s[|s| - 1].dedupKey == k
    ensures EarliestMinimal(s, k, s[|s| - 1])
  {
    var init := s[..|s| - 1];
    assert forall j :: 0 <= j < |init| ==> Keys(init)[j] == s[j].dedupKey;
    assert s[|init|] == s[|s| - 1];
  }

  lemma LastIsEarliestMinimal(s: seq<Config>, k: DedupKey, c: Config)
    requires s != [] && EarliestMinimal(s[..|s| - 1], k, c) && s[|s| - 1].dedupKey == k && RankLt(s[|s| - 1], c)
    ensures EarliestMinimal(s, k, s[|s| - 1])
  {
    var init := s[..|s| - 1];
    assert forall j :: 0 <= j < |init| ==> init[j] == s[j];
    assert s[|init|] == s[|s| - 1];
  }

  lemma EarliestMinimalSnoc(s: seq<Config>, k: DedupKey, c: Config)
    requires s != [] && EarliestMinimal(s[..|s| - 1], k, c)
    requires s[|s| - 1].dedupKey == k ==> RankLe(c, s[|s| - 1])
    ensures EarliestMinimal(s, k, c)
  {
    var init := s[..|s| - 1];
    var i :| 0 <= i < |init| && init[i] == c && c.dedupKey == k
      && (forall j :: 0 <= j < |init| && init[j].dedupKey == k ==> RankLe(c, init[j]))
      && (forall j :: 0 <= j < i && init[j].dedupKey == k ==> RankLt(c, init[j]));
    assert s[i] == c;
    forall j | 0 <= j < |s| && s[j].dedupKey == k
      ensures RankLe(c, s[j]) && (j < i ==> RankLt(c, s[j]))
    {
      assert j < |init| ==> init[j] == s[j];
    }
  }

  /**
   What `deduplicate` returns: one config for each key, in first-seen order, and for each key the
   earliest of minimal rank; so a key with a config that is not dead keeps one that is not.
   */
  lemma DedupKeepsBest(s: seq<Config>, i: nat)
    requires i < |Dedup(s)|
    ensures |Dedup(s)| == |FirstSeen(s)| && Dedup(s)[i].dedupKey == FirstSeen(s)[i]
    ensures EarliestMinimal(s, FirstSeen(s)[i], Dedup(s)[i])
    ensures var r := Dedup(s)[i];
            forall c :: c in s && c.dedupKey == FirstSeen(s)[i] ==>
              (c.isAlive == Some(false)) == (r.isAlive == Some(false)) ==> FasterOrSame(r, c)
    ensures (exists c :: c in s && c.dedupKey == FirstSeen(s)[i] && !c.Dead()) ==> !Dedup(s)[i].Dead()
  {
    UniqMembers(Keys(s), FirstSeen(s)[i]);
    BestIsEarliestMinimal(s, FirstSeen(s)[i]);
  }

  // ---- deduplicating in parts ----

  function Better(a: Config, b: Config): Config {
    if RankLt(b, a) then b else a
  }

  /** The better of the best of two parts that hold the key between them. */
  function BestOfTwo(a: seq<Config>, b: seq<Config>, k: DedupKey): Config
    requires HasKey(a, k) || HasKey(b, k)
  {
    if !HasKey(b, k) then Best(a, k) else if !HasKey(a, k) then Best(b, k) else Better(Best(a, k), Best(b, k))
  }

  lemma KeysConcat(a: seq<Config>, b: seq<Config>)
    ensures Keys(a + b) == Keys(a) + Keys(b)
  {
  }

  lemma BestOfOneMore(a: seq<Config>, b: seq<Config>, c: Config, k: DedupKey)
    requires HasKey(a + b + [c], k)
    requires HasKey(a + b, k) ==> (HasKey(a, k) || HasKey(b, k)) && Best(a + b, k) == BestOfTwo(a, b, k)
    ensures (HasKey(a, k) || HasKey(b + [c], k)) && Best(a + b + [c], k) == BestOfTwo(a, b + [c], k)
  {
    KeysConcat(a, b);
    KeysConcat(a, b + [c]);
    assert a + (b + [c]) == a + b + [c];
    BestSnoc(a + b, c, k);
    BestSnoc(b, c, k);
  }

  lemma {:induction false} BestOfConcat(a: seq<Config>, b: seq<Config>, k: DedupKey)
    requires HasKey(a + b, k)
    ensures HasKey(a, k) || HasKey(b, k)
    ensures Best(a + b, k) == BestOfTwo(a, b, k)
    decreases |b|
  {
    var s := a + b;
    KeysConcat(a, b);
    if b == [] {
      assert s == a;
    } else {
      var init, last := b[..|b| - 1], b[|b| - 1];
      assert s == (a + init) + [last] && b == init + [last];
      if HasKey(a + init, k) {
        BestOfConcat(a, init, k);
      }
      BestOfOneMore(a, init, last, k);
    }
  }

  lemma {:induction false} BestOfOnly(s: seq<Config>, i: nat)
    requires Distinct(Keys(s)) && i < |s|
    ensures HasKey(s, s[i].dedupKey) && Best(s, s[i].dedupKey) == s[i]
  {
    var init, last := s[..|s| - 1], s[|s| - 1];
    assert s == init + [last];
    KeysSnoc(init, last);
    assert Keys(s)[i] == s[i].dedupKey;
    assert Keys(init) == Keys(s)[..|init|];
    if i < |init| {
      BestOfOnly(init, i);
      assert Keys(s)[i] != Keys(s)[|s| - 1];
    } else {
      assert last.dedupKey !in Keys(init);
    }
  }

  lemma DedupKeys(s: seq<Config>)
    ensures Keys(Dedup(s)) == FirstSeen(s) && FirstSeen(Dedup(s)) == FirstSeen(s)
    ensures Distinct(Keys(Dedup(s)))
  {
    UniqIsDistinct(Keys(s));
    assert Keys(Dedup(s)) == FirstSeen(s);
    UniqOfDistinct(FirstSeen(s));
  }

  lemma BestOfDedup(s: seq<Config>, k: DedupKey)
    ensures HasKey(Dedup(s), k) <==> HasKey(s, k)
    ensures HasKey(s, k) ==> Best(Dedup(s), k) == Best(s, k)
  {
    DedupKeys(s);
    UniqMembers(Keys(s), k);
    if k in FirstSeen(s) {
      var i :| 0 <= i < |FirstSeen(s)| && FirstSeen(s)[i] == k;
      BestOfOnly(Dedup(s), i);
    }
  }

  /** `deduplicate` is idempotent. */
  lemma DedupIdempotent(s: seq<Config>)
    ensures Dedup(Dedup(s)) == Dedup(s)
  {
    DedupKeys(s);
    forall i | 0 <= i < |FirstSeen(s)|
      ensures Dedup(Dedup(s))[i] == Dedup(s)[i]
    {
      UniqMembers(Keys(s), FirstSeen(s)[i]);
      BestOfDedup(s, FirstSeen(s)[i]);
    }
  }

  /** Deduplicating the parts first makes no difference. */
  lemma DedupInParts(a: seq<Config>, b: seq<Config>)
    ensures Dedup(Dedup(a) + Dedup(b)) == Dedup(a + b)
  {
    var d, s := Dedup(a) + Dedup(b), a + b;
    FirstSeenInParts(a, b);
    forall i | 0 <= i < |FirstSeen(s)|
      ensures HasKey(d, FirstSeen(s)[i]) && HasKey(s, FirstSeen(s)[i])
      ensures Best(d, FirstSeen(s)[i]) == Best(s, FirstSeen(s)[i])
    {
      var k := FirstSeen(s)[i];
      UniqMembers(Keys(s), k);
      UniqMembers(Keys(d), k);
      BestOfConcat(a, b, k);
      BestOfConcat(Dedup(a), Dedup(b), k);
      BestOfDedup(a, k);
      BestOfDedup(b, k);
    }
  }

  lemma FirstSeenInParts(a: seq<Config>, b: seq<Config>)
    ensures FirstSeen(Dedup(a) + Dedup(b)) == FirstSeen(a + b)
  {
    DedupKeys(a);
    DedupKeys(b);
    KeysConcat(a, b);
    KeysConcat(Dedup(a), Dedup(b));
    UniqConcat(Keys(a), Keys(b));
    UniqConcat(FirstSeen(a), FirstSeen(b));
    forall x
      ensures x !in FirstSeen(a) <==> x !in Keys(a)
    {
      UniqMembers(Keys(a), x);
    }
    SameFilter(FirstSeen(b), (x: DedupKey) => x !in Keys(a), (x: DedupKey) => x !in FirstSeen(a));
  }

  lemma {:induction false} SameFilter<T>(s: seq<T>, p: T -> bool, q: T -> bool)
    requires forall i :: 0 <= i < |s| ==> p(s[i]) == q(s[i])
    ensures Filter(s, p) == Filter(s, q)
  {
    if s != [] {
      SameFilter(s[1..], p, q);
    }
  }

  // ---- sort, limit, merge ----

  datatype SortMode = ByLatency | ByCountry | Unknown

  /** `country_key(a) <= country_key(b)`: unknown countries last, then by name, then by latency. */
  predicate CountryLe(a: Config, b: Config) {
    match (a.country, b.country)
    case (Some(x), Some(y)) => if x == y then LatencyLe(a, b) else StringLe(x, y)
    case (Some(_), None) => true
    case (None, Some(_)) => false
    case (None, None) => LatencyLe(a, b)
  }

  function SortConfigs(s: seq<Config>, mode: SortMode): seq<Config> {
    match mode
    case ByLatency => SortBy(s, LatencyLe)
    case ByCountry => SortBy(s, CountryLe)
    case Unknown => s
  }

  lemma LatencyOrder()
    ensures TotalPreorder(LatencyLe)
  {
  }

  lemma CountryOrder()
    ensures TotalPreorder(CountryLe)
  {
    forall x, y
      ensures CountryLe(x, y) || CountryLe(y, x)
    {
      if x.country.Some? && y.country.Some? {
        StringLeTotal(x.country.value, y.country.value);
      }
    }
    forall x, y, z | CountryLe(x, y) && CountryLe(y, z)
      ensures CountryLe(x, z)
    {
      CountryLeTransitive(x, y, z);
    }
  }

  lemma CountryLeTransitive(x: Config, y: Config, z: Config)
    requires CountryLe(x, y) && CountryLe(y, z)
    ensures CountryLe(x, z)
  {
    if x.country.Some? && y.country.Some? && z.country.Some? {
      var a, b, c := x.country.value, y.country.value, z.country.value;
      if a != b && b != c {
        StringLeTransitive(a, b, c);
        if a == c {
          StringLeTotal(a, b);
        }
      }
    }
  }

  /** `(config.country or "").upper() or None` */
  function CountryBucket(upper: string -> string, c: Config): Option<string> {
    if c.country.None? || c.country.value == "" || upper(c.country.value) == "" then None
    else Some(upper(c.country.value))
  }

  function BucketOf(upper: string -> string): Config -> Option<string> {
    (c: Config) => CountryBucket(upper, c)
  }

  /** The configs of one bucket, in their order. */
  function Only(bucketOf: Config -> Option<string>, s: seq<Config>, bucket: Option<string>): seq<Config> {
    if s == [] then []
    else
      var last := s[|s| - 1];
      Only(bucketOf, s[..|s| - 1], bucket) + if bucketOf(last) == bucket then [last] else []
  }

  /** Keep a config while fewer than cap of its bucket come before it. */
  function LimitBy(bucketOf: Config -> Option<string>, s: seq<Config>, cap: nat): seq<Config> {
    if s == [] then []
    else
      var init, last := s[..|s| - 1], s[|s| - 1];
      LimitBy(bucketOf, init, cap) + if |Only(bucketOf, init, bucketOf(last))| < cap then [last] else []
  }

  /** `limit_per_country`: 0 is no limit. */
  function LimitPerCountry(upper: string -> string, s: seq<Config>, cap: nat): seq<Config> {
    if cap == 0 then s else LimitBy(BucketOf(upper), s, cap)
  }

  function Count(counts: map<Option<string>, nat>, bucket: Option<string>): nat {
    if bucket in counts then counts[bucket] else 0
  }

  ghost predicate CountsAre(
    counts: map<Option<string>, nat>, bucketOf: Config -> Option<string>, s: seq<Config>, cap: nat) {
    forall b :: Count(counts, b) == Min(|Only(bucketOf, s, b)|, cap)
  }

  method CountAndLimit(bucketOf: Config -> Option<string>, s: seq<Config>, cap: nat) returns (result: seq<Config>)
    ensures result == LimitBy(bucketOf, s, cap)
  {
    var counts: map<Option<string>, nat> := map[];
    result := [];
    for i := 0 to |s|
      invariant result == LimitBy(bucketOf, s[..i], cap)
      invariant CountsAre(counts, bucketOf, s[..i], cap)
    {
      ghost var now := s[..i + 1];
      assert now[..i] == s[..i] && now[i] == s[i];
      var bucket := bucketOf(s[i]);
      if Count(counts, bucket) < cap {
        result := result + [s[i]];
        counts := counts[bucket := Count(counts, bucket) + 1];
      }
    }
    assert s[..|s|] == s;
  }

  method LimitEachCountry(upper: string -> string, s: seq<Config>, cap: nat) returns (result: seq<Config>)
    ensures result == LimitPerCountry(upper, s, cap)
  {
    if cap == 0 {
      return s;
    }
    result := CountAndLimit(BucketOf(upper), s, cap);
  }

  lemma TakeSnoc<T>(s: seq<T>, x: T, n: nat)
    ensures Take(s + [x], n) == Take(s, n) + if |s| < n then [x] else []
  {
  }

  /** The limit keeps exactly the first cap configs of each bucket, in their order. */
  lemma {:induction false} LimitKeepsFirst(
    bucketOf: Config -> Option<string>, s: seq<Config>, cap: nat, b: Option<string>)
    ensures Only(bucketOf, LimitBy(bucketOf, s, cap), b) == Take(Only(bucketOf, s, b), cap)
  {
    if s != [] {
      var init, last := s[..|s| - 1], s[|s| - 1];
      LimitKeepsFirst(bucketOf, init, cap, b);
      var r := LimitBy(bucketOf, init, cap);
      assert (r + [last])[..|r|] == r && r + [] == r;
      assert Only(bucketOf, r + [last], b) == Only(bucketOf, r, b) + if bucketOf(last) == b then [last] else [];
      TakeSnoc(Only(bucketOf, init, b), last, cap);
      assert Only(bucketOf, s, b) == Only(bucketOf, init, b) + if bucketOf(last) == b then [last] else [];
    }
  }

  ghost predicate Pairwise(s: seq<Config>, rel: (Config, Config) -> bool) {
    forall i, j :: 0 <= i < j < |s| ==> rel(s[i], s[j])
  }

  /** What a limit leaves is still in order, whatever the order. */
  lemma {:induction false} LimitKeepsPairwise(
    bucketOf: Config -> Option<string>, s: seq<Config>, cap: nat, rel: (Config, Config) -> bool)
    requires Pairwise(s, rel)
    ensures Pairwise(LimitBy(bucketOf, s, cap), rel)
    ensures forall i :: 0 <= i < |LimitBy(bucketOf, s, cap)| ==> LimitBy(bucketOf, s, cap)[i] in s
  {
    if s != [] {
      var init, last := s[..|s| - 1], s[|s| - 1];
      LimitKeepsPairwise(bucketOf, init, cap, rel);
      var r := LimitBy(bucketOf, init, cap);
      forall i | 0 <= i < |r|
        ensures rel(r[i], last) && r[i] in s
      {
        var j :| 0 <= j < |init| && init[j] == r[i];
        assert s[j] == r[i];
      }
    }
  }

  function MergeAndFilter(
    upper: string -> string, s: seq<Option<Config>>, maxTotal: nat, mode: SortMode, cap: nat): seq<Config> {
    var limited := LimitPerCountry(upper, SortConfigs(Dedup(Present(s)), mode), cap);
    if maxTotal > 0 then Take(limited, maxTotal) else limited
  }

  predicate OrderedAs(mode: SortMode, a: Config, b: Config) {
    match mode
    case ByLatency => LatencyLe(a, b)
    case ByCountry => CountryLe(a, b)
    case Unknown => true
  }

  /** In the order of the mode, and of different keys. */
  function Apart(mode: SortMode): (Config, Config) -> bool {
    (a: Config, b: Config) => OrderedAs(mode, a, b) && a.dedupKey != b.dedupKey
  }

  lemma SortedApart(s: seq<Config>, le: (Config, Config) -> bool)
    requires Distinct(Keys(s)) && TotalPreorder(le)
    ensures Pairwise(SortBy(s, le), (a: Config, b: Config) => le(a, b) && a.dedupKey != b.dedupKey)
  {
    var r := SortBy(s, le);
    forall i, j | 0 <= i < j < |s|
      ensures s[i] != s[j]
    {
      assert Keys(s)[i] != Keys(s)[j];
    }
    SortByOrders(s, le);
    SortByDistinct(s, le);
    SameElements(r, s);
    forall i, j | 0 <= i < j < |r|
      ensures r[i].dedupKey != r[j].dedupKey
    {
      KeysTellApart(s, r[i], r[j]);
    }
  }

  lemma KeysTellApart(s: seq<Config>, c: Config, d: Config)
    requires Distinct(Keys(s)) && c in s && d in s && c != d
    ensures c.dedupKey != d.dedupKey
  {
    var a :| 0 <= a < |s| && s[a] == c;
    var b :| 0 <= b < |s| && s[b] == d;
    assert Keys(s)[a] != Keys(s)[b];
  }

  lemma SortConfigsApart(s: seq<Config>, mode: SortMode)
    requires Distinct(Keys(s))
    ensures Pairwise(SortConfigs(s, mode), Apart(mode))
    ensures forall c :: c in SortConfigs(s, mode) <==> c in s
  {
    match mode
    case ByLatency =>
      LatencyOrder();
      SortedApart(s, LatencyLe);
      SameElements(SortBy(s, LatencyLe), s);
    case ByCountry =>
      CountryOrder();
      SortedApart(s, CountryLe);
      SameElements(SortBy(s, CountryLe), s);
    case Unknown =>
      forall i, j | 0 <= i < j < |s|
        ensures s[i].dedupKey != s[j].dedupKey
      {
        assert Keys(s)[i] != Keys(s)[j];
      }
  }

  lemma {:induction false} OnlyOfPrefix(bucketOf: Config -> Option<string>, s: seq<Config>, n: nat, b: Option<string>)
    requires n <= |s|
    ensures |Only(bucketOf, s[..n], b)| <= |Only(bucketOf, s, b)|
  {
    if n < |s| {
      OnlyOfPrefix(bucketOf, s[..|s| - 1], n, b);
      assert s[..|s| - 1][..n] == s[..n];
    } else {
      assert s[..n] == s;
    }
  }

  /**
   The whole of `merge_and_filter`: in order, no key twice, every config the survivor of its key, no
   country over its cap and no more than max_total in all, where 0 is no limit.
   */
  lemma MergeAndFilterKeepsLimits(
    upper: string -> string, s: seq<Option<Config>>, maxTotal: nat, mode: SortMode, cap: nat, b: Option<string>)
    ensures var r := MergeAndFilter(upper, s, maxTotal, mode, cap);
            && Pairwise(r, Apart(mode))
            && (forall i :: 0 <= i < |r| ==> r[i] in Dedup(Present(s)))
            && (maxTotal > 0 ==> |r| <= maxTotal)
            && (cap > 0 ==> |Only(BucketOf(upper), r, b)| <= cap)
  {
    var d := Dedup(Present(s));
    DedupKeys(Present(s));
    SortConfigsApart(d, mode);
    LimitStage(upper, SortConfigs(d, mode), maxTotal, Apart(mode), cap, b);
  }

  /** The order of the result, in the terms of its configs, and what no mode and no limit leaves as it is. */
  lemma MergeAndFilterOrder(
    upper: string -> string, s: seq<Option<Config>>, maxTotal: nat, mode: SortMode, cap: nat, i: nat, j: nat)
    requires i < j < |MergeAndFilter(upper, s, maxTotal, mode, cap)|
    ensures var r := MergeAndFilter(upper, s, maxTotal, mode, cap);
            match mode
            case ByLatency => FasterOrSame(r[i], r[j])
            case ByCountry =>
              && (r[j].country.Some? ==> r[i].country.Some? && StringLe(r[i].country.value, r[j].country.value))
              && (r[i].country == r[j].country ==> FasterOrSame(r[i], r[j]))
            case Unknown => cap == 0 && maxTotal == 0 ==> r == Dedup(Present(s))
  {
    MergeAndFilterKeepsLimits(upper, s, maxTotal, mode, cap, None);
    var r := MergeAndFilter(upper, s, maxTotal, mode, cap);
    assert Apart(mode)(r[i], r[j]);
    if mode.ByCountry? && r[i].country.Some? && r[j].country.Some? {
      StringLeTotal(r[i].country.value, r[j].country.value);
    }
  }

  /** Two configs share a bucket exactly when their countries are one but for case, or neither has any. */
  lemma OneBucketIff(upper: string -> string, a: Config, b: Config)
    requires forall t :: upper(t) == "" <==> t == ""
    ensures CountryBucket(upper, a) == CountryBucket(upper, b) <==>
            upper(if a.country.Some? then a.country.value else "") ==
              upper(if b.country.Some? then b.country.value else "")
  {
  }

  lemma {:induction false} KeptOrFull(bucketOf: Config -> Option<string>, s: seq<Config>, cap: nat, i: nat)
    requires i < |s|
    ensures s[i] in LimitBy(bucketOf, s, cap) || |Only(bucketOf, LimitBy(bucketOf, s, cap), bucketOf(s[i]))| == cap
  {
    var init, last := s[..|s| - 1], s[|s| - 1];
    LimitKeepsFirst(bucketOf, init, cap, bucketOf(s[i]));
    LimitKeepsFirst(bucketOf, s, cap, bucketOf(s[i]));
    if i < |init| {
      KeptOrFull(bucketOf, init, cap, i);
      assert s[i] == init[i];
      assert s[i] in LimitBy(bucketOf, init, cap) ==> s[i] in LimitBy(bucketOf, s, cap);
    }
  }

  /**
   Nothing is dropped without need: a survivor that `merge_and_filter` leaves out met a full total, or
   its country is full in the result.
   */
  lemma MergeAndFilterDropsNoMore(
    upper: string -> string, s: seq<Option<Config>>, maxTotal: nat, mode: SortMode, cap: nat, c: Config)
    requires c in Dedup(Present(s))
    ensures var r := MergeAndFilter(upper, s, maxTotal, mode, cap);
            || c in r
            || (maxTotal > 0 && |r| == maxTotal)
            || (cap > 0 && |Only(BucketOf(upper), r, CountryBucket(upper, c))| == cap)
  {
    var d := Dedup(Present(s));
    var sorted := SortConfigs(d, mode);
    DedupKeys(Present(s));
    SortConfigsApart(d, mode);
    assert c in sorted;
    var i :| 0 <= i < |sorted| && sorted[i] == c;
    var limited := LimitPerCountry(upper, sorted, cap);
    if cap > 0 {
      KeptOrFull(BucketOf(upper), sorted, cap, i);
    }
    if maxTotal > 0 && |limited| > maxTotal {
      assert |Take(limited, maxTotal)| == maxTotal;
    } else {
      assert MergeAndFilter(upper, s, maxTotal, mode, cap) == limited;
    }
  }

  lemma LimitStage(
    upper: string -> string, s: seq<Config>, maxTotal: nat, rel: (Config, Config) -> bool, cap: nat, b: Option<string>)
    requires Pairwise(s, rel)
    ensures var limited := LimitPerCountry(upper, s, cap);
            var r := if maxTotal > 0 then Take(limited, maxTotal) else limited;
            && Pairwise(r, rel) && (forall i :: 0 <= i < |r| ==> r[i] in s)
            && (cap > 0 ==> |Only(BucketOf(upper), r, b)| <= cap)
  {
    var limited := LimitPerCountry(upper, s, cap);
    LimitKeepsPairwise(BucketOf(upper), s, cap, rel);
    LimitKeepsFirst(BucketOf(upper), s, cap, b);
    PrefixKeeps(limited, if maxTotal > 0 then maxTotal else |limited|, rel, BucketOf(upper), b);
    assert Take(limited, |limited|) == limited;
  }

  lemma PrefixKeeps(
    s: seq<Config>, n: nat, rel: (Config, Config) -> bool, bucketOf: Config -> Option<string>, b: Option<string>)
    requires Pairwise(s, rel)
    ensures Pairwise(Take(s, n), rel) && (forall i :: 0 <= i < |Take(s, n)| ==> Take(s, n)[i] == s[i])
    ensures |Only(bucketOf, Take(s, n), b)| <= |Only(bucketOf, s, b)|
  {
    OnlyOfPrefix(bucketOf, s, |Take(s, n)|, b);
    assert Take(s, n) == s[..|Take(s, n)|];
  }
}
