/**
 The country-balanced limit, the whitelist's quota borrowing, and the mix of the two lists.

 Python's `str.upper` is the parameter `upper`.
 */
module Aggregate {
  import opened Options
  import opened Sequences
  import opened Sorting
  import opened Configs
  import opened RoundRobin
  import Merger

  const UNKNOWN := "__UNKNOWN__"

  /** The bucket order: best quality first, then the lower latency, unknown latencies last. */
  predicate QualityLe(a: Config, b: Config) {
    a.quality > b.quality || (a.quality == b.quality && Merger.LatencyLe(a, b))
  }

  lemma QualityOrder()
    ensures TotalPreorder(QualityLe)
  {
  }

  // ---- grouping by country ----

  type Grouping = Config -> Option<string>

  /** The country a config is grouped under: None for an unknown one. */
  function CountryOf(upper: string -> string): Grouping {
    (c: Config) => if c.country.None? then None else Some(upper(c.country.value))
  }

  /** Two configs are grouped together exactly when both have no country, or theirs is one but for case. */
  lemma GroupedTogetherIff(upper: string -> string, a: Config, b: Config)
    ensures CountryOf(upper)(a) == CountryOf(upper)(b) <==>
            if a.country.None? || b.country.None? then a.country == b.country
            else upper(a.country.value) == upper(b.country.value)
  {
  }

  /** The fallback name comes after every country code in capital letters. */
  lemma UnknownComesLast(code: string)
    requires code != "" && forall i :: 0 <= i < |code| ==> 'A' <= code[i] <= 'Z'
    ensures StringLe(code, UNKNOWN) && !StringLe(UNKNOWN, code)
  {
  }

  /** The first cap configs of one country; a cap of 0 is none. */
  function Capped(countryOf: Grouping, s: seq<Config>, country: Option<string>, cap: nat): seq<Config> {
    var all := Merger.Only(countryOf, s, country);
    if cap == 0 then all else Take(all, cap)
  }

  lemma CappedSnoc(countryOf: Grouping, s: seq<Config>, c: Config, k: Option<string>, cap: nat)
    ensures var was := Capped(countryOf, s, k, cap);
            Capped(countryOf, s + [c], k, cap) ==
            if countryOf(c) == k && (cap == 0 || |was| < cap) then was + [c] else was
  {
    var all := Merger.Only(countryOf, s, k);
    assert (s + [c])[..|s|] == s;
    assert Merger.Only(countryOf, s + [c], k) == if countryOf(c) == k then all + [c] else all + [];
    assert all + [] == all;
    Merger.TakeSnoc(all, c, cap);
    assert Take(all, cap) + [] == Take(all, cap);
  }

  /** The buckets of the configs gone through so far. */
  ghost predicate GroupsAre(groups: map<string, seq<Config>>, countryOf: Grouping, s: seq<Config>, cap: nat) {
    forall k :: if k in groups then groups[k] != [] && groups[k] == Capped(countryOf, s, Some(k), cap)
                else Capped(countryOf, s, Some(k), cap) == []
  }

  /** The loop that fills the buckets; the configs without a country have one of their own. */
  method Group(
    countryOf: Grouping, s: seq<Config>, cap: nat)
    returns (groups: map<string, seq<Config>>, unknown: seq<Config>)
    ensures unknown == Capped(countryOf, s, None, cap) && GroupsAre(groups, countryOf, s, cap)
  {
    groups, unknown := map[], [];
    for i := 0 to |s|
      invariant unknown == Capped(countryOf, s[..i], None, cap) && GroupsAre(groups, countryOf, s[..i], cap)
    {
      assert s[..i + 1] == s[..i] + [s[i]];
      ghost var was := groups;
      CappedSnoc(countryOf, s[..i], s[i], None, cap);
      var country := countryOf(s[i]);
      if country.None? {
        if cap == 0 || |unknown| < cap {
          unknown := unknown + [s[i]];
        }
      } else {
        var bucket := if country.value in groups then groups[country.value] else [];
        if cap == 0 || |bucket| < cap {
          bucket := bucket + [s[i]];
        }
        groups := groups[country.value := bucket];
      }
      forall k
        ensures if k in groups then groups[k] != [] && groups[k] == Capped(countryOf, s[..i + 1], Some(k), cap)
                else Capped(countryOf, s[..i + 1], Some(k), cap) == []
      {
        CappedSnoc(countryOf, s[..i], s[i], Some(k), cap);
        assert k in was ==> was[k] == Capped(countryOf, s[..i], Some(k), cap);
      }
    }
    assert s[..|s|] == s;
  }

  // ---- the country-balanced limit ----

  /**
   The bucket a name stands for in the rounds. When some config has no country, the bucket of those
   takes the place of whatever was grouped under the name of the fallback.
   */
  function BucketFor(countryOf: Grouping, s: seq<Config>, cap: nat, k: string): seq<Config> {
    var unknown := Capped(countryOf, s, None, cap);
    if k == UNKNOWN && unknown != [] then SortBy(unknown, QualityLe)
    else SortBy(Capped(countryOf, s, Some(k), cap), QualityLe)
  }

  /** Inside a bucket the better config comes first, and of equally good ones the faster one. */
  lemma BestFirst(countryOf: Grouping, s: seq<Config>, cap: nat, k: string, i: nat, j: nat)
    requires i < j < |BucketFor(countryOf, s, cap, k)|
    ensures var b := BucketFor(countryOf, s, cap, k);
            b[i].quality > b[j].quality || (b[i].quality == b[j].quality && Merger.FasterOrSame(b[i], b[j]))
  {
    QualityOrder();
    SortByOrders(Capped(countryOf, s, None, cap), QualityLe);
    SortByOrders(Capped(countryOf, s, Some(k), cap), QualityLe);
  }

  /** A cap leaves the first configs of a country, as many as it allows. */
  lemma CapKeepsFirst(countryOf: Grouping, s: seq<Config>, country: Option<string>, cap: nat)
    ensures var all, kept := Merger.Only(countryOf, s, country), Capped(countryOf, s, country, cap);
            kept <= all && |kept| == if cap == 0 then |all| else Min(cap, |all|)
  {
  }

  /** `sorted(groups)`: the names of the buckets that are not empty, in order, each once. */
  ghost predicate CountryOrder(countryOf: Grouping, s: seq<Config>, cap: nat, cs: seq<string>) {
    && Distinct(cs) && SortedBy(cs, StringLe)
    && forall k :: k in cs <==> BucketFor(countryOf, s, cap, k) != []
  }

  function BucketsOf(countryOf: Grouping, s: seq<Config>, cap: nat, cs: seq<string>): (r: seq<seq<Config>>)
    ensures |r| == |cs|
  {
    seq(|cs|, i requires 0 <= i < |cs| => BucketFor(countryOf, s, cap, cs[i]))
  }

  method SortedKeys(keys: set<string>) returns (cs: seq<string>)
    ensures Distinct(cs) && SortedBy(cs, StringLe) && forall k :: k in cs <==> k in keys
  {
    var todo, names: seq<string> := keys, [];
    while todo != {}
      invariant todo <= keys && Distinct(names)
      invariant forall k :: k in names <==> k in keys && k !in todo
      decreases todo
    {
      var k :| k in todo;
      todo := todo - {k};
      names := names + [k];
    }
    cs := SortBy(names, StringLe);
    StringOrder();
    SortByOrders(names, StringLe);
    SortByDistinct(names, StringLe);
    SameElements(cs, names);
  }

  /** The order of the countries is determined, so the result of the limit is. */
  lemma CountryOrderUnique(a: seq<string>, b: seq<string>)
    requires Distinct(a) && Distinct(b) && SortedBy(a, StringLe) && SortedBy(b, StringLe)
    requires forall k :: k in a <==> k in b
    ensures a == b
    decreases |a|
  {
    assert a != [] ==> a[0] in b;
    assert b != [] ==> b[0] in a;
    if a != [] {
      var i :| 0 <= i < |a| && a[i] == b[0];
      var j :| 0 <= j < |b| && b[j] == a[0];
      StringLeTotal(a[0], b[0]);
      assert a[0] == b[0];
      var x, y := a[1..], b[1..];
      forall k
        ensures k in x <==> k in y
      {
        TailMembers(a, k);
        TailMembers(b, k);
      }
      CountryOrderUnique(x, y);
      assert a == [a[0]] + x && b == [b[0]] + y;
    }
  }

  lemma TailMembers(a: seq<string>, k: string)
    requires a != [] && Distinct(a)
    ensures k in a[1..] <==> k in a && k != a[0]
  {
    assert a == [a[0]] + a[1..];
  }

  /** What the grouping leaves to the rounds, once the unknown bucket is in and every bucket is sorted. */
  method SortBuckets(
    countryOf: Grouping, s: seq<Config>, cap: nat, groups: map<string, seq<Config>>, unknown: seq<Config>)
    returns (sorted: map<string, seq<Config>>)
    requires unknown == Capped(countryOf, s, None, cap) && GroupsAre(groups, countryOf, s, cap)
    ensures forall k :: if k in sorted then sorted[k] == BucketFor(countryOf, s, cap, k) && sorted[k] != []
                        else BucketFor(countryOf, s, cap, k) == []
  {
    var all := groups;
    if unknown != [] {
      all := all[UNKNOWN := SortBy(unknown, QualityLe)];
      QualityOrder();
      SortByOrders(unknown, QualityLe);
      SortByOrdered(SortBy(unknown, QualityLe), QualityLe);
    }
    sorted := map k | k in all :: SortBy(all[k], QualityLe);
  }

  /** The result that a positive limit has, with the countries in this order. */
  ghost predicate Limited(
    countryOf: Grouping, configs: seq<Config>, maxTotal: nat, mode: Merger.SortMode, cap: nat, cs: seq<string>,
    result: seq<Config>)
  {
    var s := Merger.SortConfigs(configs, mode);
    CountryOrder(countryOf, s, cap, cs) && result == FirstItems(BucketsOf(countryOf, s, cap, cs), maxTotal)
  }

  /** The result of `_country_balanced_limit`: there is only one, since the order of the countries is determined. */
  ghost predicate BalancedLimit(
    countryOf: Grouping, configs: seq<Config>, maxTotal: int, mode: Merger.SortMode, cap: nat, result: seq<Config>)
  {
    if maxTotal <= 0 then result == configs
    else exists cs :: Limited(countryOf, configs, maxTotal, mode, cap, cs, result)
  }

  lemma SameCountries(countryOf: Grouping, s: seq<Config>, cap: nat, a: seq<string>, b: seq<string>)
    requires CountryOrder(countryOf, s, cap, a) && CountryOrder(countryOf, s, cap, b)
    ensures a == b
  {
    forall k
      ensures k in a <==> k in b
    {
      assert k in a <==> BucketFor(countryOf, s, cap, k) != [];
    }
    CountryOrderUnique(a, b);
  }

  /** The limit determines its result. */
  lemma BalancedLimitUnique(
    countryOf: Grouping, configs: seq<Config>, maxTotal: int, mode: Merger.SortMode, cap: nat, a: seq<Config>,
    b: seq<Config>)
    requires BalancedLimit(countryOf, configs, maxTotal, mode, cap, a)
    requires BalancedLimit(countryOf, configs, maxTotal, mode, cap, b)
    ensures a == b
  {
    if maxTotal > 0 {
      var x :| Limited(countryOf, configs, maxTotal, mode, cap, x, a);
      var y :| Limited(countryOf, configs, maxTotal, mode, cap, y, b);
      SameCountries(countryOf, Merger.SortConfigs(configs, mode), cap, x, y);
    }
  }

  /**
   `_country_balanced_limit`. With a positive limit it takes the first max_total items of the sorted
   buckets in (round, country) order; otherwise everything, as it came.
   */
  method CountryBalancedLimit(countryOf: Grouping, configs: seq<Config>, maxTotal: int, mode: Merger.SortMode, cap: nat)
    returns (result: seq<Config>, ghost cs: seq<string>)
    ensures maxTotal <= 0 ==> result == configs
    ensures maxTotal > 0 ==> Limited(countryOf, configs, maxTotal, mode, cap, cs, result)
  {
    cs := [];
    if maxTotal <= 0 {
      return configs, cs;
    }
    var s := Merger.SortConfigs(configs, mode);
    var groups, unknown := Group(countryOf, s, cap);
    var sorted := SortBuckets(countryOf, s, cap, groups, unknown);
    var countries := SortedKeys(sorted.Keys);
    cs := countries;
    var buckets := seq(|countries|, i requires 0 <= i < |countries| && countries[i] in sorted => sorted[countries[i]]);
    assert buckets == BucketsOf(countryOf, s, cap, cs);
    result := TakeInRounds(buckets, maxTotal);
  }

  // ---- how many configs the limit keeps ----

  function SizesOf(countryOf: Grouping, s: seq<Config>, ks: seq<Option<string>>): nat {
    if ks == [] then 0
    else SizesOf(countryOf, s, ks[..|ks| - 1]) + |Merger.Only(countryOf, s, ks[|ks| - 1])|
  }

  lemma {:induction false} SizesSnoc(countryOf: Grouping, s: seq<Config>, c: Config, ks: seq<Option<string>>)
    requires Distinct(ks)
    ensures SizesOf(countryOf, s + [c], ks) == SizesOf(countryOf, s, ks) + if countryOf(c) in ks then 1 else 0
  {
    if ks != [] {
      var init, k := ks[..|ks| - 1], ks[|ks| - 1];
      assert ks == init + [k];
      SizesSnoc(countryOf, s, c, init);
      assert (s + [c])[..|s|] == s;
    }
  }

  /** Every config is in one of the buckets, and in one only. */
  lemma {:induction false} SizesAddUp(countryOf: Grouping, s: seq<Config>, ks: seq<Option<string>>)
    requires Distinct(ks) && forall i :: 0 <= i < |s| ==> countryOf(s[i]) in ks
    ensures SizesOf(countryOf, s, ks) == |s|
  {
    if s == [] {
      NoSizes(countryOf, ks);
    } else {
      var init, c := s[..|s| - 1], s[|s| - 1];
      assert s == init + [c];
      SizesAddUp(countryOf, init, ks);
      SizesSnoc(countryOf, init, c, ks);
    }
  }

  lemma {:induction false} NoSizes(countryOf: Grouping, ks: seq<Option<string>>)
    ensures SizesOf(countryOf, [], ks) == 0
  {
    if ks != [] {
      NoSizes(countryOf, ks[..|ks| - 1]);
    }
  }

  lemma {:induction false} OnlyIsThere(countryOf: Grouping, s: seq<Config>, i: nat)
    requires i < |s|
    ensures Merger.Only(countryOf, s, countryOf(s[i])) != []
  {
    if i < |s| - 1 {
      OnlyIsThere(countryOf, s[..|s| - 1], i);
    }
  }

  /** The buckets hold all the configs when every config has a country and there is no cap. */
  lemma KnownBucketsTotal(countryOf: Grouping, s: seq<Config>, cs: seq<string>)
    requires CountryOrder(countryOf, s, 0, cs)
    requires forall i :: 0 <= i < |s| ==> countryOf(s[i]).Some?
    ensures Total(BucketsOf(countryOf, s, 0, cs)) == |s|
  {
    NoneOfUnknown(countryOf, s);
    var ks := seq(|cs|, i requires 0 <= i < |cs| => Some(cs[i]));
    forall i | 0 <= i < |s|
      ensures countryOf(s[i]) in ks
    {
      OnlyIsThere(countryOf, s, i);
      var k := countryOf(s[i]).value;
      assert BucketFor(countryOf, s, 0, k) != [] && k in cs;
      var j :| 0 <= j < |cs| && cs[j] == k;
      assert ks[j] == Some(k);
    }
    SizesAddUp(countryOf, s, ks);
    BucketSizes(countryOf, s, cs, ks);
  }

  lemma {:induction false} NoneOfUnknown(countryOf: Grouping, s: seq<Config>)
    requires forall i :: 0 <= i < |s| ==> countryOf(s[i]).Some?
    ensures Merger.Only(countryOf, s, None) == []
  {
    if s != [] {
      NoneOfUnknown(countryOf, s[..|s| - 1]);
    }
  }

  lemma {:induction false} BucketSizes(countryOf: Grouping, s: seq<Config>, cs: seq<string>, ks: seq<Option<string>>)
    requires |ks| == |cs| && forall i :: 0 <= i < |cs| ==> ks[i] == Some(cs[i])
    requires Merger.Only(countryOf, s, None) == []
    ensures Total(BucketsOf(countryOf, s, 0, cs)) == SizesOf(countryOf, s, ks)
  {
    if cs != [] {
      var b := BucketsOf(countryOf, s, 0, cs);
      assert b[..|b| - 1] == BucketsOf(countryOf, s, 0, cs[..|cs| - 1]);
      BucketSizes(countryOf, s, cs[..|cs| - 1], ks[..|ks| - 1]);
    }
  }

  /** Without a cap, and when every config has a country, the limit keeps min(max_total, all) of them. */
  lemma LimitKeepsAllItCan(
    countryOf: Grouping, configs: seq<Config>, maxTotal: nat, mode: Merger.SortMode, cs: seq<string>)
    requires CountryOrder(countryOf, Merger.SortConfigs(configs, mode), 0, cs)
    requires forall i :: 0 <= i < |configs| ==> countryOf(configs[i]).Some?
    ensures |FirstItems(BucketsOf(countryOf, Merger.SortConfigs(configs, mode), 0, cs), maxTotal)| ==
              Min(maxTotal, |configs|)
  {
    var s := Merger.SortConfigs(configs, mode);
    SortedSame(configs, mode);
    forall i | 0 <= i < |s|
      ensures countryOf(s[i]).Some?
    {
      assert s[i] in configs;
    }
    KnownBucketsTotal(countryOf, s, cs);
    FirstItemsCount(BucketsOf(countryOf, s, 0, cs), maxTotal);
  }

  lemma SortedSame(configs: seq<Config>, mode: Merger.SortMode)
    ensures |Merger.SortConfigs(configs, mode)| == |configs|
    ensures forall c :: c in Merger.SortConfigs(configs, mode) <==> c in configs
  {
    SameElements(SortBy(configs, Merger.LatencyLe), configs);
    SameElements(SortBy(configs, Merger.CountryLe), configs);
  }

  // ---- the whitelist: mostly RU, the rest from the EU list ----

  function Floor(x: real): int {
    x.Floor
  }

  function Clamp(ratio: real): (r: real)
    ensures 0.0 <= r <= 1.0
  {
    if ratio < 0.0 then 0.0 else if ratio > 1.0 then 1.0 else ratio
  }

  /** `int(max_total * ru_ratio)` */
  function RuTarget(maxTotal: nat, ratio: real): (t: nat)
    ensures t <= maxTotal
  {
    TargetInRange(maxTotal, Clamp(ratio));
    Floor(maxTotal as real * Clamp(ratio))
  }

  /** The RU quota is the share of the total, rounded down; a ratio outside [0, 1] counts as the nearer end. */
  lemma RuTargetIsShare(maxTotal: nat, ratio: real)
    ensures ratio <= 0.0 ==> RuTarget(maxTotal, ratio) == 0
    ensures ratio >= 1.0 ==> RuTarget(maxTotal, ratio) == maxTotal
    ensures 0.0 <= ratio <= 1.0 ==>
              RuTarget(maxTotal, ratio) as real <= maxTotal as real * ratio < RuTarget(maxTotal, ratio) as real + 1.0
  {
    if ratio <= 0.0 {
      assert Clamp(ratio) == 0.0 && maxTotal as real * 0.0 == 0.0;
    } else if ratio >= 1.0 {
      assert Clamp(ratio) == 1.0 && maxTotal as real * 1.0 == maxTotal as real;
    }
  }

  lemma TargetInRange(maxTotal: nat, ratio: real)
    requires 0.0 <= ratio <= 1.0
    ensures 0 <= Floor(maxTotal as real * ratio) <= maxTotal
  {
    assert 0.0 <= maxTotal as real * ratio <= maxTotal as real;
  }

  /** How many of the RU and of the EU candidates are taken, once the shortfall has been borrowed. */
  function Shares(maxTotal: nat, ruTarget: nat, ru: nat, eu: nat): (nat, nat)
    requires ruTarget <= maxTotal
  {
    var euTarget := maxTotal - ruTarget;
    var r, e := Min(ru, ruTarget), Min(eu, euTarget);
    var shortfall := maxTotal - r - e;
    if shortfall <= 0 then (r, e)
    else if euTarget > 0 && r < ruTarget && eu > e then (r, e + Min(shortfall, eu - e))
    else if e < euTarget && ru > r then (r + Min(shortfall, ru - r), e)
    else (r, e)
  }

  /**
   All the quotas can give: everything up to max_total, but no EU config when the EU quota is zero. The
   lists have been cut at max_total first, unless it is 0.
   */
  lemma SharesTotal(maxTotal: nat, ruTarget: nat, ru: nat, eu: nat, ruKept: nat, euKept: nat)
    requires ruTarget <= maxTotal
    requires ruKept == (if maxTotal == 0 then ru else Min(maxTotal, ru))
    requires euKept == (if maxTotal == 0 then eu else Min(maxTotal, eu))
    ensures var s := Shares(maxTotal, ruTarget, ruKept, euKept);
            && s.0 + s.1 == Min(maxTotal, if ruTarget < maxTotal then ru + eu else ru)
            && s.0 <= ru && s.1 <= eu
            && s.0 >= Min(ru, ruTarget) && s.1 >= Min(eu, maxTotal - ruTarget)
            && (s == (ruTarget, maxTotal - ruTarget) <==> ru >= ruTarget && eu >= maxTotal - ruTarget)
  {
  }

  function InCountries(countries: set<string>): Config -> bool {
    (c: Config) => c.country.Some? && c.country.value in countries
  }

  /** The country-balanced limit of a list in which every config has a country. */
  method Balanced(
    upper: string -> string, configs: seq<Config>, maxTotal: nat, mode: Merger.SortMode)
    returns (result: seq<Config>)
    requires forall i :: 0 <= i < |configs| ==> configs[i].country.Some?
    ensures |result| == if maxTotal == 0 then |configs| else Min(maxTotal, |configs|)
    ensures forall i :: 0 <= i < |result| ==> result[i] in configs
    ensures BalancedLimit(CountryOf(upper), configs, maxTotal, mode, 0, result)
  {
    ghost var cs;
    result, cs := CountryBalancedLimit(CountryOf(upper), configs, maxTotal, mode, 0);
    if maxTotal > 0 {
      LimitKeepsAllItCan(CountryOf(upper), configs, maxTotal, mode, cs);
      ItemsAreConfigs(CountryOf(upper), configs, maxTotal, mode, 0, cs);
    }
  }

  /** The quotas and the borrowing. Each list gives its best: a prefix of what the country-balanced limit left. */
  method Borrow<T>(
    ruSorted: seq<T>, euSorted: seq<T>, ruTarget: nat, maxTotal: nat)
    returns (ruResult: seq<T>, euResult: seq<T>)
    requires ruTarget <= maxTotal
    ensures ruResult <= ruSorted && euResult <= euSorted
    ensures (|ruResult|, |euResult|) == Shares(maxTotal, ruTarget, |ruSorted|, |euSorted|)
  {
    var euTarget := maxTotal - ruTarget;
    ruResult, euResult := Take(ruSorted, ruTarget), Take(euSorted, euTarget);
    var shortfall := maxTotal - |ruResult| - |euResult|;
    if shortfall > 0 {
      if euTarget > 0 && |ruResult| < ruTarget && |euSorted| > |euResult| {
        euResult := euResult + Take(euSorted[|euResult|..], shortfall);
      } else if |euResult| < euTarget && |ruSorted| > |ruResult| {
        ruResult := ruResult + Take(ruSorted[|ruResult|..], shortfall);
      }
    }
  }

  /** The quotas and the borrowing, applied to the two sorted pools. */
  function Combine(ru: seq<Config>, eu: seq<Config>, maxTotal: nat, ruTarget: nat): seq<Config>
    requires ruTarget <= maxTotal
  {
    var s := Shares(maxTotal, ruTarget, |ru|, |eu|);
    Take(ru, s.0) + Take(eu, s.1)
  }

  method BorrowAndJoin(ruSorted: seq<Config>, euSorted: seq<Config>, ruTarget: nat, maxTotal: nat)
    returns (result: seq<Config>, ruCount: nat)
    requires ruTarget <= maxTotal
    ensures result == Combine(ruSorted, euSorted, maxTotal, ruTarget) && ruCount <= |result|
    ensures (ruCount, |result| - ruCount) == Shares(maxTotal, ruTarget, |ruSorted|, |euSorted|)
    ensures result[..ruCount] <= ruSorted && result[ruCount..] <= euSorted
  {
    var ruResult, euResult := Borrow(ruSorted, euSorted, ruTarget, maxTotal);
    result, ruCount := ruResult + euResult, |ruResult|;
    SplitOfConcat(ruResult, euResult);
    assert ruResult == Take(ruSorted, |ruResult|) && euResult == Take(euSorted, |euResult|);
  }

  function PoolSize(configs: seq<Config>, countries: set<string>, maxTotal: nat): int {
    var found := |Filter(configs, InCountries(countries))|;
    if maxTotal == 0 then found else Min(maxTotal, found)
  }

  /** The configs of the given countries, as the country-balanced limit leaves them without its cap. */
  method Candidates(
    upper: string -> string, configs: seq<Config>, countries: set<string>, maxTotal: nat, mode: Merger.SortMode)
    returns (result: seq<Config>)
    ensures |result| == PoolSize(configs, countries, maxTotal) && AllFrom(result, configs, countries)
    ensures BalancedLimit(CountryOf(upper), Filter(configs, InCountries(countries)), maxTotal, mode, 0, result)
  {
    var found := Filter(configs, InCountries(countries));
    forall c
      ensures c in found <==> c in configs && InCountries(countries)(c)
    {
      FilterMembers(configs, InCountries(countries), c);
    }
    assert forall i :: 0 <= i < |found| ==> found[i] in found;
    result := Balanced(upper, found, maxTotal, mode);
  }

  ghost predicate AllFrom(s: seq<Config>, configs: seq<Config>, countries: set<string>) {
    forall c :: c in s ==> c in configs && c.country.Some? && c.country.value in countries
  }

  /** min(max_total, RU + EU), or min(max_total, RU) when the EU quota is zero. */
  function BalanceSize(configs: seq<Config>, maxTotal: nat, ratio: real, euCountries: set<string>): int {
    var ru, eu := |Filter(configs, InCountries({"RU"}))|, |Filter(configs, InCountries(euCountries))|;
    Min(maxTotal, if RuTarget(maxTotal, ratio) < maxTotal then ru + eu else ru)
  }

  /** The whole result of the whitelist balance; there is only one, as each pool has one balanced limit. */
  ghost predicate WhitelistOf(
    result: seq<Config>, ruCount: nat, upper: string -> string, configs: seq<Config>, maxTotal: nat, ratio: real,
    euCountries: set<string>, mode: Merger.SortMode)
  {
    exists ru, eu ::
      && BalancedLimit(CountryOf(upper), Filter(configs, InCountries({"RU"})), maxTotal, mode, 0, ru)
      && BalancedLimit(CountryOf(upper), Filter(configs, InCountries(euCountries)), maxTotal, mode, 0, eu)
      && result == Combine(ru, eu, maxTotal, RuTarget(maxTotal, ratio))
      && ruCount == Shares(maxTotal, RuTarget(maxTotal, ratio), |ru|, |eu|).0
  }

  lemma WhitelistOfPools(
    ru: seq<Config>, eu: seq<Config>, upper: string -> string, configs: seq<Config>, maxTotal: nat, ratio: real,
    euCountries: set<string>, mode: Merger.SortMode)
    requires BalancedLimit(CountryOf(upper), Filter(configs, InCountries({"RU"})), maxTotal, mode, 0, ru)
    requires BalancedLimit(CountryOf(upper), Filter(configs, InCountries(euCountries)), maxTotal, mode, 0, eu)
    ensures var ruTarget := RuTarget(maxTotal, ratio);
            WhitelistOf(
              Combine(ru, eu, maxTotal, ruTarget), Shares(maxTotal, ruTarget, |ru|, |eu|).0,
              upper, configs, maxTotal, ratio, euCountries, mode)
  {
  }

  lemma WhitelistUnique(
    a: seq<Config>, m: nat, b: seq<Config>, n: nat, upper: string -> string, configs: seq<Config>, maxTotal: nat,
    ratio: real, euCountries: set<string>, mode: Merger.SortMode)
    requires WhitelistOf(a, m, upper, configs, maxTotal, ratio, euCountries, mode)
    requires WhitelistOf(b, n, upper, configs, maxTotal, ratio, euCountries, mode)
    ensures a == b && m == n
  {
    var ruPool, euPool := Filter(configs, InCountries({"RU"})), Filter(configs, InCountries(euCountries));
    var target := RuTarget(maxTotal, ratio);
    var ru, eu :|
      && BalancedLimit(CountryOf(upper), ruPool, maxTotal, mode, 0, ru)
      && BalancedLimit(CountryOf(upper), euPool, maxTotal, mode, 0, eu)
      && a == Combine(ru, eu, maxTotal, target) && m == Shares(maxTotal, target, |ru|, |eu|).0;
    var ru', eu' :|
      && BalancedLimit(CountryOf(upper), ruPool, maxTotal, mode, 0, ru')
      && BalancedLimit(CountryOf(upper), euPool, maxTotal, mode, 0, eu')
      && b == Combine(ru', eu', maxTotal, target) && n == Shares(maxTotal, target, |ru'|, |eu'|).0;
    BalancedLimitUnique(CountryOf(upper), ruPool, maxTotal, mode, 0, ru, ru');
    BalancedLimitUnique(CountryOf(upper), euPool, maxTotal, mode, 0, eu, eu');
  }

  /** The two sorted pools. */
  method Pools(
    upper: string -> string, configs: seq<Config>, maxTotal: nat, ratio: real, euCountries: set<string>,
    mode: Merger.SortMode)
    returns (ru: seq<Config>, eu: seq<Config>)
    ensures |ru| == PoolSize(configs, {"RU"}, maxTotal) && AllFrom(ru, configs, {"RU"})
    ensures |eu| == PoolSize(configs, euCountries, maxTotal) && AllFrom(eu, configs, euCountries)
    ensures var ruTarget := RuTarget(maxTotal, ratio);
            WhitelistOf(
              Combine(ru, eu, maxTotal, ruTarget), Shares(maxTotal, ruTarget, |ru|, |eu|).0,
              upper, configs, maxTotal, ratio, euCountries, mode)
  {
    ru := Candidates(upper, configs, {"RU"}, maxTotal, mode);
    eu := Candidates(upper, configs, euCountries, maxTotal, mode);
    WhitelistOfPools(ru, eu, upper, configs, maxTotal, ratio, euCountries, mode);
  }

  /**
   `_whitelist_balance`, with the number of RU configs that it logs. The sort mode is the setting's; the
   per-country cap does not apply here. With max_total 0 nothing is returned, although 0 is no limit to
   the country-balanced limit.
   */
  method WhitelistBalance(
    upper: string -> string, configs: seq<Config>, maxTotal: nat, ratio: real, euCountries: set<string>,
    mode: Merger.SortMode)
    returns (result: seq<Config>, ruCount: nat)
    ensures ruCount <= |result|
    ensures |result| == BalanceSize(configs, maxTotal, ratio, euCountries)
    ensures var ru, eu := |Filter(configs, InCountries({"RU"}))|, |Filter(configs, InCountries(euCountries))|;
            var ruTarget := RuTarget(maxTotal, ratio);
            && ((ruCount == ruTarget && |result| == maxTotal) <==> ru >= ruTarget && eu >= maxTotal - ruTarget)
            && ruCount >= Min(ru, ruTarget) && |result| - ruCount >= Min(eu, maxTotal - ruTarget)
    ensures AllFrom(result[..ruCount], configs, {"RU"}) && AllFrom(result[ruCount..], configs, euCountries)
    ensures WhitelistOf(result, ruCount, upper, configs, maxTotal, ratio, euCountries, mode)
  {
    var ru, eu := Pools(upper, configs, maxTotal, ratio, euCountries, mode);
    result, ruCount := BorrowAndJoin(ru, eu, RuTarget(maxTotal, ratio), maxTotal);
    BalanceCounts(configs, maxTotal, ratio, euCountries, |ru|, |eu|);
  }

  lemma BalanceCounts(
    configs: seq<Config>, maxTotal: nat, ratio: real, euCountries: set<string>, ruKept: nat, euKept: nat)
    requires ruKept == PoolSize(configs, {"RU"}, maxTotal) && euKept == PoolSize(configs, euCountries, maxTotal)
    ensures var ru, eu := |Filter(configs, InCountries({"RU"}))|, |Filter(configs, InCountries(euCountries))|;
            var ruTarget := RuTarget(maxTotal, ratio);
            var s := Shares(maxTotal, ruTarget, ruKept, euKept);
            && s.0 + s.1 == BalanceSize(configs, maxTotal, ratio, euCountries)
            && ((s.0 == ruTarget && s.0 + s.1 == maxTotal) <==> ru >= ruTarget && eu >= maxTotal - ruTarget)
            && s.0 >= Min(ru, ruTarget) && s.1 >= Min(eu, maxTotal - ruTarget)
  {
    SharesTotal(
      maxTotal, RuTarget(maxTotal, ratio), |Filter(configs, InCountries({"RU"}))|,
      |Filter(configs, InCountries(euCountries))|, ruKept, euKept);
  }

  lemma SplitOfConcat<T>(a: seq<T>, b: seq<T>)
    ensures (a + b)[..|a|] == a && (a + b)[|a|..] == b
  {
  }

  lemma FromBoth(s: seq<Config>, n: nat, configs: seq<Config>, a: set<string>, b: set<string>)
    requires n <= |s| && AllFrom(s[..n], configs, a) && AllFrom(s[n..], configs, b)
    ensures forall c :: c in s ==> c in configs
  {
    assert s == s[..n] + s[n..];
  }

  // ---- every item of the result is one of the configs ----

  lemma {:induction false} OnlyMembers(countryOf: Grouping, s: seq<Config>, k: Option<string>, c: Config)
    ensures c in Merger.Only(countryOf, s, k) ==> c in s
  {
    if s != [] {
      OnlyMembers(countryOf, s[..|s| - 1], k, c);
    }
  }

  lemma BucketMembers(countryOf: Grouping, s: seq<Config>, cap: nat, k: string, c: Config)
    ensures c in BucketFor(countryOf, s, cap, k) ==> c in s
  {
    var unknown, known := Capped(countryOf, s, None, cap), Capped(countryOf, s, Some(k), cap);
    SameElements(SortBy(unknown, QualityLe), unknown);
    SameElements(SortBy(known, QualityLe), known);
    OnlyMembers(countryOf, s, None, c);
    OnlyMembers(countryOf, s, Some(k), c);
  }

  lemma ItemsAreConfigs(
    countryOf: Grouping, configs: seq<Config>, maxTotal: nat, mode: Merger.SortMode, cap: nat, cs: seq<string>)
    ensures var r := FirstItems(BucketsOf(countryOf, Merger.SortConfigs(configs, mode), cap, cs), maxTotal);
            forall i :: 0 <= i < |r| ==> r[i] in configs
  {
    var s := Merger.SortConfigs(configs, mode);
    var buckets := BucketsOf(countryOf, s, cap, cs);
    var items, slots := ItemsUpTo(buckets, MaxLen(buckets)), Slots(buckets);
    SameCount(buckets, MaxLen(buckets));
    SortedSame(configs, mode);
    forall i | 0 <= i < |items|
      ensures items[i] in configs
    {
      ItemOfSlot(buckets, MaxLen(buckets), i);
      BucketMembers(countryOf, s, cap, cs[slots[i].1], items[i]);
    }
  }

  // ---- the mix of the two lists ----

  /** The keys that one list has already used. */
  class UsedKeys {
    var keys: set<DedupKey>

    constructor ()
      ensures keys == {}
    {
      keys := {};
    }
  }

  /** Up to target configs, in order, none with a key that is used or repeated. */
  function Unique(configs: seq<Config>, target: nat, used: set<DedupKey>): seq<Config> {
    if target == 0 || configs == [] then []
    else if configs[0].dedupKey in used then Unique(configs[1..], target, used)
    else [configs[0]] + Unique(configs[1..], target - 1, used + {configs[0].dedupKey})
  }

  function KeySet(s: seq<Config>): set<DedupKey> {
    set i | 0 <= i < |s| :: s[i].dedupKey
  }

  /** What `_take_unique_configs` promises: no key twice, none that was used, and no room wasted. */
  lemma {:induction false} UniqueIsUnique(configs: seq<Config>, target: nat, used: set<DedupKey>)
    ensures var r := Unique(configs, target, used);
            && Distinct(Merger.Keys(r)) && |r| <= target
            && (forall i :: 0 <= i < |r| ==> r[i].dedupKey !in used && r[i] in configs)
            && (|r| < target ==> forall i :: 0 <= i < |configs| ==> configs[i].dedupKey in used + KeySet(r))
  {
    if target > 0 && configs != [] {
      var c := configs[0];
      if c.dedupKey in used {
        UniqueIsUnique(configs[1..], target, used);
      } else {
        UniqueIsUnique(configs[1..], target - 1, used + {c.dedupKey});
        var rest := Unique(configs[1..], target - 1, used + {c.dedupKey});
        var r := [c] + rest;
        assert Merger.Keys(r) == [c.dedupKey] + Merger.Keys(rest);
        assert r[0] == c && r[1..] == rest;
        assert KeySet(r) == {c.dedupKey} + KeySet(rest) by {
          KeySetCons(c, rest);
        }
      }
    }
  }

  lemma KeySetCons(c: Config, rest: seq<Config>)
    ensures KeySet([c] + rest) == {c.dedupKey} + KeySet(rest)
  {
    var r := [c] + rest;
    assert r[0] == c && forall i :: 0 <= i < |rest| ==> r[i + 1] == rest[i];
    forall k
      ensures k in KeySet(r) <==> k == c.dedupKey || k in KeySet(rest)
    {
      if k in KeySet(rest) {
        var i :| 0 <= i < |rest| && rest[i].dedupKey == k;
        assert r[i + 1].dedupKey == k;
      }
    }
  }

  lemma KeySetSnoc(s: seq<Config>, c: Config)
    ensures KeySet(s + [c]) == KeySet(s) + {c.dedupKey}
  {
    var r := s + [c];
    assert r[|s|] == c && forall i :: 0 <= i < |s| ==> r[i] == s[i];
    forall k
      ensures k in KeySet(r) <==> k == c.dedupKey || k in KeySet(s)
    {
      if k in KeySet(s) {
        var i :| 0 <= i < |s| && s[i].dedupKey == k;
        assert r[i].dedupKey == k;
      }
    }
  }

  /** `_take_unique_configs`: it adds the keys it takes to the caller's set. */
  method TakeUnique(configs: seq<Config>, target: nat, used: UsedKeys) returns (selected: seq<Config>)
    modifies used
    ensures selected == Unique(configs, target, old(used.keys))
    ensures used.keys == old(used.keys) + KeySet(selected)
  {
    selected := [];
    if target == 0 {
      return;
    }
    for i := 0 to |configs|
      invariant |selected| < target
      invariant selected + Unique(configs[i..], target - |selected|, used.keys) ==
                Unique(configs, target, old(used.keys))
      invariant used.keys == old(used.keys) + KeySet(selected)
    {
      var key := configs[i].dedupKey;
      assert configs[i..][1..] == configs[i + 1..];
      if key in used.keys {
        continue;
      }
      KeySetSnoc(selected, configs[i]);
      ghost var rest := Unique(configs[i + 1..], target - |selected| - 1, used.keys + {key});
      assert selected + ([configs[i]] + rest) == (selected + [configs[i]]) + rest;
      selected := selected + [configs[i]];
      used.keys := used.keys + {key};
      if |selected| >= target {
        assert selected + [] == selected;
        return;
      }
    }
    assert selected + [] == selected;
  }

  /** A part of the mix: no key twice, none that was used before, no more than its target, all from one list. */
  ghost predicate PartOf(part: seq<Config>, list: seq<Config>, target: nat, used: set<DedupKey>) {
    && Distinct(Merger.Keys(part)) && |part| <= target
    && forall i :: 0 <= i < |part| ==> part[i].dedupKey !in used && part[i] in list
  }

  /** The candidates of the blacklist, and the part taken from them. */
  method BlacklistPart(
    upper: string -> string, blacklist: seq<Config>, target: nat, maxConfigs: nat, mode: Merger.SortMode, cap: nat,
    used: UsedKeys)
    returns (part: seq<Config>, ghost candidates: seq<Config>)
    modifies used
    ensures PartOf(part, blacklist, target, old(used.keys)) && used.keys == old(used.keys) + KeySet(part)
    ensures part == Unique(candidates, target, old(used.keys))
    ensures BalancedLimit(CountryOf(upper), blacklist, maxConfigs, mode, cap, candidates)
  {
    ghost var cs;
    var limited;
    limited, cs := CountryBalancedLimit(CountryOf(upper), blacklist, maxConfigs, mode, cap);
    if maxConfigs > 0 {
      ItemsAreConfigs(CountryOf(upper), blacklist, maxConfigs, mode, cap, cs);
    }
    candidates := limited;
    part := TakeUnique(limited, target, used);
    UniqueIsUnique(limited, target, old(used.keys));
  }

  function Unused(used: set<DedupKey>): Config -> bool {
    (c: Config) => c.dedupKey !in used
  }

  /** The balanced whitelist, without the configs whose keys are used. */
  method WhitelistCandidates(
    upper: string -> string, whitelist: seq<Config>, target: nat, ratio: real, euCountries: set<string>,
    mode: Merger.SortMode, used: set<DedupKey>)
    returns (candidates: seq<Config>, ghost ruCount: nat)
    ensures forall c :: c in candidates ==> c in whitelist && c.dedupKey !in used
    ensures |candidates| == BalanceSize(Filter(whitelist, Unused(used)), target, ratio, euCountries)
    ensures WhitelistOf(candidates, ruCount, upper, Filter(whitelist, Unused(used)), target, ratio, euCountries, mode)
  {
    var source := Filter(whitelist, Unused(used));
    var count;
    candidates, count := WhitelistBalance(upper, source, target, ratio, euCountries, mode);
    ruCount := count;
    FromBoth(candidates, ruCount, source, {"RU"}, euCountries);
    forall c | c in candidates
      ensures c in whitelist && c.dedupKey !in used
    {
      FilterMembers(whitelist, Unused(used), c);
    }
  }

  /** The same for the whitelist: the configs whose keys are used do not even become candidates. */
  method WhitelistPart(
    upper: string -> string, whitelist: seq<Config>, target: nat, ratio: real, euCountries: set<string>,
    mode: Merger.SortMode, used: UsedKeys)
    returns (part: seq<Config>, ghost candidates: seq<Config>, ghost ruCount: nat)
    modifies used
    ensures PartOf(part, whitelist, target, old(used.keys)) && used.keys == old(used.keys) + KeySet(part)
    ensures part == Unique(candidates, target, old(used.keys))
    ensures |candidates| == BalanceSize(Filter(whitelist, Unused(old(used.keys))), target, ratio, euCountries)
    ensures WhitelistOf(
              candidates, ruCount, upper, Filter(whitelist, Unused(old(used.keys))), target, ratio, euCountries, mode)
  {
    var balanced;
    balanced, ruCount := WhitelistCandidates(upper, whitelist, target, ratio, euCountries, mode, used.keys);
    candidates := balanced;
    UniqueIsUnique(balanced, target, used.keys);
    part := TakeUnique(balanced, target, used);
  }

  /**
   The mix: the first configs with new keys of the balanced blacklist, and after them those of the
   whitelist balance of what the blacklist part has not used. A part that is short of its target leaves
   no candidate with an unused key.
   */
  ghost predicate IsMix(
    result: seq<Config>, blackCandidates: seq<Config>, whiteCandidates: seq<Config>, blackTarget: nat, whiteTarget: nat)
  {
    var black := Unique(blackCandidates, blackTarget, {});
    var white := Unique(whiteCandidates, whiteTarget, KeySet(black));
    && result == black + white
    && (|black| < blackTarget ==> AllUsed(blackCandidates, KeySet(black)))
    && (|white| < whiteTarget ==> AllUsed(whiteCandidates, KeySet(black) + KeySet(white)))
  }

  ghost predicate AllUsed(s: seq<Config>, used: set<DedupKey>) {
    forall i :: 0 <= i < |s| ==> s[i].dedupKey in used
  }

  lemma MixIsMix(blackCandidates: seq<Config>, whiteCandidates: seq<Config>, blackTarget: nat, whiteTarget: nat)
    ensures var black := Unique(blackCandidates, blackTarget, {});
            IsMix(black + Unique(whiteCandidates, whiteTarget, KeySet(black)), blackCandidates, whiteCandidates,
              blackTarget, whiteTarget)
  {
    var black := Unique(blackCandidates, blackTarget, {});
    UniqueIsUnique(blackCandidates, blackTarget, {});
    UniqueIsUnique(whiteCandidates, whiteTarget, KeySet(black));
  }

  /** `_build_mixed_output`: the blacklist part followed by the whitelist part. */
  method BuildMixedOutput(
    upper: string -> string, blacklist: seq<Config>, whitelist: seq<Config>,
    maxTotal: int, blackTarget: nat, whiteTarget: nat, maxConfigs: nat, ratio: real, euCountries: set<string>,
    mode: Merger.SortMode, cap: nat)
    returns (
      result: seq<Config>, black: nat, ghost blackCandidates: seq<Config>, ghost whiteCandidates: seq<Config>,
      ghost ruCount: nat)
    ensures maxTotal <= 0 ==> result == []
    ensures Distinct(Merger.Keys(result))
    ensures black <= |result| && black <= blackTarget && |result| - black <= whiteTarget
    ensures forall i :: 0 <= i < |result| ==> result[i] in if i < black then blacklist else whitelist
    ensures maxTotal > 0 ==>
              && IsMix(result, blackCandidates, whiteCandidates, blackTarget, whiteTarget)
              && black == |Unique(blackCandidates, blackTarget, {})|
              && BalancedLimit(CountryOf(upper), blacklist, maxConfigs, mode, cap, blackCandidates)
              && WhitelistOf(
                   whiteCandidates, ruCount, upper,
                   Filter(whitelist, Unused(KeySet(Unique(blackCandidates, blackTarget, {})))), whiteTarget, ratio,
                   euCountries, mode)
  {
    result, black, blackCandidates, whiteCandidates, ruCount := [], 0, [], [], 0;
    if maxTotal <= 0 {
      return;
    }
    var used := new UsedKeys();
    var blackPart, whitePart;
    blackPart, blackCandidates := BlacklistPart(upper, blacklist, blackTarget, maxConfigs, mode, cap, used);
    ghost var usedNow := used.keys;
    assert usedNow == KeySet(blackPart);
    whitePart, whiteCandidates, ruCount := WhitelistPart(upper, whitelist, whiteTarget, ratio, euCountries, mode, used);
    MixKeysDistinct(blackPart, whitePart, usedNow);
    MixIsMix(blackCandidates, whiteCandidates, blackTarget, whiteTarget);
    result, black := blackPart + whitePart, |blackPart|;
  }

  lemma MixKeysDistinct(a: seq<Config>, b: seq<Config>, used: set<DedupKey>)
    requires Distinct(Merger.Keys(a)) && Distinct(Merger.Keys(b)) && KeySet(a) <= used
    requires forall i :: 0 <= i < |b| ==> b[i].dedupKey !in used
    ensures Distinct(Merger.Keys(a + b))
  {
    Merger.KeysConcat(a, b);
    forall i | 0 <= i < |a|
      ensures a[i].dedupKey in used
    {
      assert a[i].dedupKey in KeySet(a);
    }
  }
}
