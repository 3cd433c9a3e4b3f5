/**
 The per-source record: `update_sources` accumulates samples until the floor is met, judges the
 window once, and climbs or resets the ban ladder.
 */
module HealthSources {
  import opened Options
  import opened Sequences
  import HealthRecords

  const TEN_YEARS := 10 * 365 * 24 * 3600

  datatype SourceRecord = SourceRecord(
    runs: nat, badRuns: nat, bannedUntil: int, lastChecked: nat, lastAlive: nat, lastAliveRate: real,
    updatedAt: int, sampleChecked: nat, sampleAlive: nat)

  datatype SourcePolicy =
    SourcePolicy(minChecked: nat, badRate: real, badRunsToBan: nat, disableRuns: nat, cooldown: nat)
  {
    predicate Sane() {
      minChecked >= 1 && badRunsToBan >= 1
    }
  }

  /** What one run saw of a source. */
  datatype Sample = Sample(checked: nat, alive: nat, at: int)

  const NewSource := SourceRecord(0, 0, 0, 0, 0, 0.0, 0, 0, 0)

  predicate BadRate(policy: SourcePolicy, alive: nat, checked: nat)
    requires checked > 0
  {
    alive as real / checked as real <= policy.badRate
  }

  /** The ladder at the end of a window: one bad window more, or forgiven. */
  function Climb(policy: SourcePolicy, r: SourceRecord, bad: bool, at: int): SourceRecord {
    var n := r.badRuns + 1;
    if !bad then r.(badRuns := 0, bannedUntil := 0)
    else r.(badRuns := n,
            bannedUntil := if policy.disableRuns > 0 && n >= policy.disableRuns then at + TEN_YEARS
                           else if n >= policy.badRunsToBan then at + policy.cooldown
                           else r.bannedUntil)
  }

  /** What `update_sources` does to the record of one source. */
  function Measure(policy: SourcePolicy, r: SourceRecord, s: Sample): SourceRecord
    requires policy.Sane()
  {
    var seen := r.(runs := r.runs + 1, lastChecked := s.checked, lastAlive := s.alive,
                   lastAliveRate := if s.checked > 0 then s.alive as real / s.checked as real else 0.0,
                   updatedAt := s.at);
    var checked, alive := r.sampleChecked + s.checked, r.sampleAlive + s.alive;
    if checked < policy.minChecked then seen.(sampleChecked := checked, sampleAlive := alive)
    else Climb(policy, seen.(sampleChecked := 0, sampleAlive := 0), BadRate(policy, alive, checked), s.at)
  }

  // ---- the windows of a sample history ----

  function CheckedIn(s: seq<Sample>): nat {
    if s == [] then 0 else CheckedIn(s[..|s| - 1]) + s[|s| - 1].checked
  }

  function AliveIn(s: seq<Sample>): nat {
    if s == [] then 0 else AliveIn(s[..|s| - 1]) + s[|s| - 1].alive
  }

  function Flatten(w: seq<seq<Sample>>): seq<Sample> {
    if w == [] then [] else Flatten(w[..|w| - 1]) + w[|w| - 1]
  }

  /** A window that was judged as soon as its samples reached the floor, and not before. */
  ghost predicate FirstReached(policy: SourcePolicy, w: seq<Sample>) {
    w != [] && CheckedIn(w) >= policy.minChecked && CheckedIn(w[..|w| - 1]) < policy.minChecked
  }

  /** The samples cut into judged windows and a pending rest: there is one way to do it. */
  ghost predicate Windows(policy: SourcePolicy, s: seq<Sample>, windows: seq<seq<Sample>>, pending: seq<Sample>) {
    && s == Flatten(windows) + pending
    && (forall i :: 0 <= i < |windows| ==> FirstReached(policy, windows[i]))
    && CheckedIn(pending) < policy.minChecked
  }

  ghost predicate BadWindow(policy: SourcePolicy, w: seq<Sample>) {
    CheckedIn(w) > 0 && BadRate(policy, AliveIn(w), CheckedIn(w))
  }

  ghost function TrailingBad(policy: SourcePolicy, windows: seq<seq<Sample>>): nat {
    if windows == [] || !BadWindow(policy, windows[|windows| - 1]) then 0
    else 1 + TrailingBad(policy, windows[..|windows| - 1])
  }

  /** The ladder: a number of consecutive bad windows, the last judged at some time, bans until then. */
  function LadderBan(policy: SourcePolicy, bad: nat, at: int): int {
    if bad == 0 then 0
    else if policy.disableRuns > 0 && bad >= policy.disableRuns then at + 315_360_000
    else if bad >= policy.badRunsToBan then at + policy.cooldown
    else 0
  }

  ghost predicate FaithfulLadder(policy: SourcePolicy, windows: seq<seq<Sample>>, r: SourceRecord) {
    && r.badRuns == TrailingBad(policy, windows)
    && r.bannedUntil == (if windows == [] || windows[|windows| - 1] == [] then 0
                         else var w := windows[|windows| - 1]; LadderBan(policy, r.badRuns, w[|w| - 1].at))
  }

  ghost predicate FaithfulSource(
    policy: SourcePolicy, windows: seq<seq<Sample>>, pending: seq<Sample>, r: SourceRecord) {
    && r.sampleChecked == CheckedIn(pending) && r.sampleAlive == AliveIn(pending)
    && FaithfulLadder(policy, windows, r)
  }

  /** What a record says of the number of its samples and of the last of them. */
  ghost predicate ShowsLast(s: seq<Sample>, r: SourceRecord) {
    && r.runs == |s|
    && (s == [] ==> r == NewSource)
    && (s != [] ==>
          var last := s[|s| - 1];
          && r.updatedAt == last.at && r.lastChecked == last.checked && r.lastAlive == last.alive
          && (last.checked == 0 ==> r.lastAliveRate == 0.0)
          && (last.checked > 0 ==> r.lastAliveRate * last.checked as real == last.alive as real))
  }

  /** A rate is bad up to the limit, the limit included. */
  lemma BadRateIff(policy: SourcePolicy, alive: nat, checked: nat)
    requires checked > 0
    ensures BadRate(policy, alive, checked) <==> alive as real <= policy.badRate * checked as real
  {
    var a, c := alive as real, checked as real;
    assert a == a / c * c;
    if a / c <= policy.badRate {
      TimesMonotone(a / c, policy.badRate, c);
    } else if a <= policy.badRate * c {
      StrictlyMonotone(policy.badRate, a / c, c);
    }
  }

  lemma TimesMonotone(a: real, b: real, c: real)
    requires a <= b && c >= 0.0
    ensures a * c <= b * c
  {
  }

  lemma StrictlyMonotone(a: real, b: real, c: real)
    requires a < b && c > 0.0
    ensures a * c < b * c
  {
  }

  lemma ClimbFaithful(policy: SourcePolicy, windows: seq<seq<Sample>>, r: SourceRecord, w: seq<Sample>)
    requires policy.Sane() && FaithfulLadder(policy, windows, r) && w != []
    requires forall i :: 0 <= i < |windows| ==> windows[i] != []
    ensures FaithfulLadder(policy, windows + [w], Climb(policy, r, BadWindow(policy, w), w[|w| - 1].at))
  {
    assert (windows + [w])[..|windows|] == windows;
  }

  lemma MeasureFaithful(
    policy: SourcePolicy, windows: seq<seq<Sample>>, pending: seq<Sample>, r: SourceRecord, s: Sample)
    requires policy.Sane() && FaithfulSource(policy, windows, pending, r)
    requires forall i :: 0 <= i < |windows| ==> windows[i] != []
    ensures var p := pending + [s];
            if CheckedIn(p) < policy.minChecked then FaithfulSource(policy, windows, p, Measure(policy, r, s))
            else FaithfulSource(policy, windows + [p], [], Measure(policy, r, s))
  {
    var p := pending + [s];
    assert p[..|p| - 1] == pending;
    assert CheckedIn(p) == r.sampleChecked + s.checked && AliveIn(p) == r.sampleAlive + s.alive;
    if CheckedIn(p) >= policy.minChecked {
      assert BadWindow(policy, p) == BadRate(policy, AliveIn(p), CheckedIn(p));
      ClimbFaithful(policy, windows, r.(runs := r.runs + 1, lastChecked := s.checked, lastAlive := s.alive,
                    lastAliveRate := if s.checked > 0 then s.alive as real / s.checked as real else 0.0,
                    updatedAt := s.at, sampleChecked := 0, sampleAlive := 0), p);
    }
  }

  function MeasureAll(policy: SourcePolicy, s: seq<Sample>): SourceRecord
    requires policy.Sane()
  {
    if s == [] then NewSource else Measure(policy, MeasureAll(policy, s[..|s| - 1]), s[|s| - 1])
  }

  lemma MeasureShows(policy: SourcePolicy, r: SourceRecord, s: Sample)
    requires policy.Sane()
    ensures var m := Measure(policy, r, s);
            && m.runs == r.runs + 1 && m.updatedAt == s.at && m.lastChecked == s.checked && m.lastAlive == s.alive
            && m.lastAliveRate == if s.checked == 0 then 0.0 else s.alive as real / s.checked as real
  {
  }

  /** A record shows how many samples there were, and the last of them: it ages from that one on. */
  lemma {:induction false} LastSampleIsShown(policy: SourcePolicy, s: seq<Sample>)
    requires policy.Sane()
    ensures ShowsLast(s, MeasureAll(policy, s))
  {
    if s != [] {
      var before, last := MeasureAll(policy, s[..|s| - 1]), s[|s| - 1];
      LastSampleIsShown(policy, s[..|s| - 1]);
      MeasureShows(policy, before, last);
    }
  }

  lemma WindowsGrow(policy: SourcePolicy, s: seq<Sample>, windows: seq<seq<Sample>>, pending: seq<Sample>, x: Sample)
    requires policy.Sane() && Windows(policy, s, windows, pending)
    ensures var p := pending + [x];
            if CheckedIn(p) < policy.minChecked then Windows(policy, s + [x], windows, p)
            else Windows(policy, s + [x], windows + [p], [])
  {
    var p := pending + [x];
    assert p[..|p| - 1] == pending;
    assert s + [x] == Flatten(windows) + p;
    assert (windows + [p])[..|windows|] == windows;
    assert Flatten(windows + [p]) == Flatten(windows) + p;
  }

  /**
   Whatever samples the runs bring, every sample is judged exactly once or still pending, the ladder
   counts the bad windows since the last good one, and the ban is the one that count earns.
   */
  lemma {:induction false} SourceLadder(policy: SourcePolicy, s: seq<Sample>)
    returns (windows: seq<seq<Sample>>, pending: seq<Sample>)
    requires policy.Sane()
    ensures Windows(policy, s, windows, pending)
    ensures FaithfulSource(policy, windows, pending, MeasureAll(policy, s))
  {
    if s == [] {
      windows, pending := [], [];
    } else {
      var before, last := s[..|s| - 1], s[|s| - 1];
      assert s == before + [last];
      windows, pending := SourceLadder(policy, before);
      WindowsGrow(policy, before, windows, pending, last);
      MeasureFaithful(policy, windows, pending, MeasureAll(policy, before), last);
      pending := pending + [last];
      if CheckedIn(pending) >= policy.minChecked {
        windows, pending := windows + [pending], [];
      }
    }
  }

  /** The cut into windows is unique, so the ladder is a function of the samples alone. */
  lemma {:induction false} WindowsUnique(
    policy: SourcePolicy, s: seq<Sample>, w1: seq<seq<Sample>>, p1: seq<Sample>, w2: seq<seq<Sample>>, p2: seq<Sample>)
    requires Windows(policy, s, w1, p1) && Windows(policy, s, w2, p2)
    ensures w1 == w2 && p1 == p2
    decreases |w1|
  {
    if w1 == [] || w2 == [] {
      if w1 != [] {
        FirstWindow(w1);
        assert w1[0] <= s && s == p2;
        PrefixSum(w1[0], p2);
      }
      if w2 != [] {
        FirstWindow(w2);
        assert w2[0] <= s && s == p1;
        PrefixSum(w2[0], p1);
      }
    } else {
      WithoutFirst(policy, s, w1, p1);
      WithoutFirst(policy, s, w2, p2);
      SameFirst(policy, s, w1[0], w2[0]);
      WindowsUnique(policy, s[|w1[0]|..], w1[1..], p1, w2[1..], p2);
      assert w1 == [w1[0]] + w1[1..] && w2 == [w2[0]] + w2[1..];
    }
  }

  lemma WithoutFirst(policy: SourcePolicy, s: seq<Sample>, windows: seq<seq<Sample>>, pending: seq<Sample>)
    requires Windows(policy, s, windows, pending) && windows != []
    ensures windows[0] <= s && FirstReached(policy, windows[0])
    ensures Windows(policy, s[|windows[0]|..], windows[1..], pending)
  {
    FirstWindow(windows);
    assert s[|windows[0]|..] == Flatten(windows[1..]) + pending;
  }

  /** Of two windows at the start of the samples neither is shorter. */
  lemma SameFirst(policy: SourcePolicy, s: seq<Sample>, a: seq<Sample>, b: seq<Sample>)
    requires a <= s && b <= s && FirstReached(policy, a) && FirstReached(policy, b)
    ensures a == b
  {
    if |a| < |b| {
      assert a <= b[..|b| - 1];
      PrefixSum(a, b[..|b| - 1]);
    } else if |b| < |a| {
      assert b <= a[..|a| - 1];
      PrefixSum(b, a[..|a| - 1]);
    }
  }

  lemma {:induction false} FirstWindow(w: seq<seq<Sample>>)
    requires w != []
    ensures Flatten(w) == w[0] + Flatten(w[1..])
  {
    if |w| > 1 {
      FirstWindow(w[..|w| - 1]);
      assert w[..|w| - 1][1..] == w[1..][..|w| - 2];
    }
  }

  lemma {:induction false} PrefixSum(a: seq<Sample>, b: seq<Sample>)
    ensures a <= b ==> CheckedIn(a) <= CheckedIn(b)
  {
    if b != [] && |a| < |b| {
      PrefixSum(a, b[..|b| - 1]);
    } else if a <= b {
      assert a == b;
    }
  }
}
