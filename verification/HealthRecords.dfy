/**
 The per-config verdict record: `update` folds verdicts into it one at a time. `Faithful` says
 what a record means in terms of the whole verdict history of its config.
 */
module HealthRecords {
  import opened Options
  import opened Sequences

  datatype Record = Record(
    passes: nat, fails: nat, consecutiveFailures: nat, recent: seq<bool>, bannedUntil: int,
    lastSeen: int, lastAlive: int, source: Option<string>, country: Option<string>)

  /** The quality settings, after their coercion to the documented minimums. */
  datatype Policy = Policy(window: nat, threshold: nat, cooldown: nat, retention: nat, maxRecords: nat) {
    predicate Sane() {
      window >= 1 && threshold >= 1
    }
  }

  /** One probed config as `update` sees it; alive is None when the probe reached no verdict. */
  datatype Checked = Checked(key: string, alive: Option<bool>, source: string, country: Option<string>)

  /** A verdict on one config, at a time. */
  datatype Verdict = Verdict(alive: bool, at: int, source: string, country: Option<string>)

  const NewRecord := Record(0, 0, 0, [], 0, 0, 0, None, None)

  /** The names the fast track publishes under are not sources, and neither is the empty name. */
  predicate RealSource(name: string) {
    name != "" && !("published-" <= name)
  }

  /** Python's `s[-n:]` for n > 0. */
  function LastN<T>(s: seq<T>, n: nat): (r: seq<T>)
    ensures |r| == Min(|s|, n)
  {
    if |s| <= n then s else s[|s| - n..]
  }

  /** What `update` does to the record of one config. */
  function Judge(policy: Policy, r: Record, v: Verdict): Record {
    var failures := r.consecutiveFailures + 1;
    r.(recent := LastN(r.recent + [v.alive], policy.window),
       lastSeen := v.at,
       lastAlive := if v.alive then v.at else r.lastAlive,
       source := if RealSource(v.source) then Some(v.source) else r.source,
       country := v.country,
       passes := if v.alive then r.passes + 1 else r.passes,
       fails := if v.alive then r.fails else r.fails + 1,
       consecutiveFailures := if v.alive then 0 else failures,
       bannedUntil := if v.alive then 0
                      else if failures >= policy.threshold then v.at + policy.cooldown
                      else r.bannedUntil)
  }

  /** The fast track and nameless configs leave a record with its source; any other name replaces it. */
  lemma FastTrackKeepsSource(policy: Policy, r: Record, v: Verdict)
    ensures v.source == "" || "published-" <= v.source ==> Judge(policy, r, v).source == r.source
    ensures v.source != "" && !("published-" <= v.source) ==> Judge(policy, r, v).source == Some(v.source)
  {
  }

  /** One config of an `update` call: no verdict, no change. */
  function Apply(policy: Policy, records: map<string, Record>, c: Checked, now: int): map<string, Record> {
    match c.alive
    case None => records
    case Some(alive) =>
      var prior := if c.key in records then records[c.key] else NewRecord;
      records[c.key := Judge(policy, prior, Verdict(alive, now, c.source, c.country))]
  }

  function ApplyAll(
    policy: Policy, records: map<string, Record>, checked: seq<Checked>, now: int): map<string, Record> {
    if checked == [] then records
    else Apply(policy, ApplyAll(policy, records, checked[..|checked| - 1], now), checked[|checked| - 1], now)
  }

  lemma ApplyAllSnoc(policy: Policy, records: map<string, Record>, checked: seq<Checked>, i: nat, now: int)
    requires i < |checked|
    ensures ApplyAll(policy, records, checked[..i + 1], now) ==
            Apply(policy, ApplyAll(policy, records, checked[..i], now), checked[i], now)
  {
    assert checked[..i + 1][..i] == checked[..i];
  }

  // ---- what a record says about the history of its config ----

  function TrailingFails(h: seq<Verdict>): nat {
    if h == [] || h[|h| - 1].alive then 0 else 1 + TrailingFails(h[..|h| - 1])
  }

  function TrailingPasses(h: seq<Verdict>): nat {
    if h == [] || !h[|h| - 1].alive then 0 else 1 + TrailingPasses(h[..|h| - 1])
  }

  ghost predicate LastAliveIs(h: seq<Verdict>, at: int) {
    if forall i :: 0 <= i < |h| ==> !h[i].alive then at == 0
    else exists i :: 0 <= i < |h| && h[i].alive && h[i].at == at && forall j :: i < j < |h| ==> !h[j].alive
  }

  ghost predicate LastSourceIs(h: seq<Verdict>, source: Option<string>) {
    if forall i :: 0 <= i < |h| ==> !RealSource(h[i].source) then source == None
    else exists i :: 0 <= i < |h| && RealSource(h[i].source) && Some(h[i].source) == source
                     && forall j :: i < j < |h| ==> !RealSource(h[j].source)
  }

  function Alive(h: seq<Verdict>): (r: seq<bool>)
    ensures |r| == |h|
  {
    seq(|h|, i requires 0 <= i < |h| => h[i].alive)
  }

  ghost predicate Faithful(policy: Policy, h: seq<Verdict>, r: Record) {
    && h != []
    && r.passes == |Filter(Alive(h), (b: bool) => b)|
    && r.passes + r.fails == |h|
    && r.recent == LastN(Alive(h), policy.window)
    && r.consecutiveFailures == TrailingFails(h)
    && r.bannedUntil == (if TrailingFails(h) >= policy.threshold then h[|h| - 1].at + policy.cooldown else 0)
    && r.lastSeen == h[|h| - 1].at
    && r.country == h[|h| - 1].country
    && LastAliveIs(h, r.lastAlive)
    && LastSourceIs(h, r.source)
  }

  lemma LastNSnoc<T>(s: seq<T>, x: T, n: nat)
    requires n >= 1
    ensures LastN(LastN(s, n) + [x], n) == LastN(s + [x], n)
  {
  }

  /** A new verdict keeps a faithful record faithful. */
  lemma {:induction false} JudgeFaithful(policy: Policy, h: seq<Verdict>, r: Record, v: Verdict)
    requires policy.Sane()
    requires if h == [] then r == NewRecord else Faithful(policy, h, r)
    ensures Faithful(policy, h + [v], Judge(policy, r, v))
  {
    var h' := h + [v];
    assert h'[..|h'| - 1] == h;
    assert Alive(h') == Alive(h) + [v.alive];
    FilterSnoc(Alive(h), v.alive, (b: bool) => b);
    LastNSnoc(Alive(h), v.alive, policy.window);
    LastAliveSnoc(h, r.lastAlive, v);
    LastSourceSnoc(h, r.source, v);
  }

  lemma LastAliveSnoc(h: seq<Verdict>, at: int, v: Verdict)
    requires LastAliveIs(h, at)
    ensures LastAliveIs(h + [v], if v.alive then v.at else at)
  {
    var h' := h + [v];
    if v.alive {
      assert h'[|h|].alive && h'[|h|].at == v.at;
    } else if !(forall i :: 0 <= i < |h| ==> !h[i].alive) {
      var i :| 0 <= i < |h| && h[i].alive && h[i].at == at && forall j :: i < j < |h| ==> !h[j].alive;
      assert h'[i].alive && h'[i].at == at;
    }
  }

  lemma LastSourceSnoc(h: seq<Verdict>, source: Option<string>, v: Verdict)
    requires LastSourceIs(h, source)
    ensures LastSourceIs(h + [v], if RealSource(v.source) then Some(v.source) else source)
  {
    var h' := h + [v];
    if RealSource(v.source) {
      assert RealSource(h'[|h|].source);
    } else if !(forall i :: 0 <= i < |h| ==> !RealSource(h[i].source)) {
      var i :| 0 <= i < |h| && RealSource(h[i].source) && Some(h[i].source) == source
               && forall j :: i < j < |h| ==> !RealSource(h[j].source);
      assert RealSource(h'[i].source);
    }
  }

  // ---- whole runs ----

  /** One `update` call. */
  datatype Batch = Batch(checked: seq<Checked>, at: int)

  function Replay(policy: Policy, run: seq<Batch>): map<string, Record> {
    if run == [] then map[]
    else
      var last := run[|run| - 1];
      ApplyAll(policy, Replay(policy, run[..|run| - 1]), last.checked, last.at)
  }

  /** The verdict, if any, that one probed config brings about a key. */
  function Verdict1(c: Checked, at: int, key: string): seq<Verdict> {
    if c.key == key && c.alive.Some? then [Verdict(c.alive.value, at, c.source, c.country)] else []
  }

  /** The verdicts one call brings about a key. */
  function Verdicts(checked: seq<Checked>, at: int, key: string): seq<Verdict> {
    if checked == [] then []
    else Verdicts(checked[..|checked| - 1], at, key) + Verdict1(checked[|checked| - 1], at, key)
  }

  function History(run: seq<Batch>, key: string): seq<Verdict> {
    if run == [] then []
    else
      var last := run[|run| - 1];
      History(run[..|run| - 1], key) + Verdicts(last.checked, last.at, key)
  }

  ghost predicate Summarises(policy: Policy, records: map<string, Record>, key: string, h: seq<Verdict>) {
    if key in records then Faithful(policy, h, records[key]) else h == []
  }

  lemma JudgedKeyFaithful(
    policy: Policy, records: map<string, Record>, c: Checked, now: int, h: seq<Verdict>, v: Verdict)
    requires policy.Sane() && Summarises(policy, records, c.key, h)
    requires c.alive.Some? && v == Verdict(c.alive.value, now, c.source, c.country)
    ensures Summarises(policy, Apply(policy, records, c, now), c.key, h + [v])
  {
    JudgeFaithful(policy, h, if c.key in records then records[c.key] else NewRecord, v);
  }

  lemma OtherKeyUntouched(policy: Policy, records: map<string, Record>, c: Checked, now: int, key: string)
    requires c.key != key || c.alive.None?
    ensures var after := Apply(policy, records, c, now);
            (key in after <==> key in records) && (key in records ==> after[key] == records[key])
  {
  }

  lemma ApplyFaithful(policy: Policy, records: map<string, Record>, c: Checked, now: int, key: string, h: seq<Verdict>)
    requires policy.Sane() && Summarises(policy, records, key, h)
    ensures Summarises(policy, Apply(policy, records, c, now), key, h + Verdict1(c, now, key))
  {
    if c.key == key && c.alive.Some? {
      JudgedKeyFaithful(policy, records, c, now, h, Verdict(c.alive.value, now, c.source, c.country));
    } else {
      OtherKeyUntouched(policy, records, c, now, key);
      assert h + Verdict1(c, now, key) == h;
    }
  }

  lemma {:induction false} ApplyAllFaithful(
    policy: Policy, records: map<string, Record>, checked: seq<Checked>, now: int, key: string, h: seq<Verdict>)
    requires policy.Sane() && Summarises(policy, records, key, h)
    ensures Summarises(policy, ApplyAll(policy, records, checked, now), key, h + Verdicts(checked, now, key))
  {
    if checked == [] {
      assert h + Verdicts(checked, now, key) == h;
    } else {
      var c, before := checked[|checked| - 1], checked[..|checked| - 1];
      ApplyAllFaithful(policy, records, before, now, key, h);
      ApplyFaithful(policy, ApplyAll(policy, records, before, now), c, now, key, h + Verdicts(before, now, key));
      assert h + Verdicts(checked, now, key) == h + Verdicts(before, now, key) + Verdict1(c, now, key);
    }
  }

  /** Over every sequence of `update` calls, each record is a faithful summary of its config's verdicts. */
  lemma {:induction false} ReplayFaithful(policy: Policy, run: seq<Batch>, key: string)
    requires policy.Sane()
    ensures Summarises(policy, Replay(policy, run), key, History(run, key))
  {
    if run != [] {
      var last, before := run[|run| - 1], run[..|run| - 1];
      ReplayFaithful(policy, before, key);
      ApplyAllFaithful(policy, Replay(policy, before), last.checked, last.at, key, History(before, key));
    }
  }

  predicate Banned(records: map<string, Record>, key: string, now: int) {
    key in records && records[key].bannedUntil > now
  }

  /** The ban, in terms of the verdicts: enough trailing failures, and the last of them too recent. */
  lemma BannedIffFailing(policy: Policy, run: seq<Batch>, key: string, now: int)
    requires policy.Sane() && now >= 0
    ensures var h := History(run, key);
            Banned(Replay(policy, run), key, now) <==>
            h != [] && TrailingFails(h) >= policy.threshold && now < h[|h| - 1].at + policy.cooldown
  {
    ReplayFaithful(policy, run, key);
    if key in Replay(policy, run) {
      FaithfulBan(policy, History(run, key), Replay(policy, run)[key], now);
    }
  }

  lemma FaithfulBan(policy: Policy, h: seq<Verdict>, r: Record, now: int)
    requires Faithful(policy, h, r) && now >= 0
    ensures r.bannedUntil > now <==>
            TrailingFails(h) >= policy.threshold && now < h[|h| - 1].at + policy.cooldown
  {
  }

  function Streak(recent: seq<bool>): nat {
    if recent == [] || !recent[|recent| - 1] then 0 else 1 + Streak(recent[..|recent| - 1])
  }

  lemma {:induction false} StreakOfWindow(s: seq<bool>, n: nat)
    ensures Streak(LastN(s, n)) == Min(n, Streak(s))
  {
    if n > 0 && s != [] {
      var w, before := LastN(s, n), s[..|s| - 1];
      assert w[|w| - 1] == s[|s| - 1];
      assert w[..|w| - 1] == LastN(before, n - 1);
      StreakOfWindow(before, n - 1);
    }
  }

  lemma {:induction false} StreakIsTrailing(h: seq<Verdict>)
    ensures Streak(Alive(h)) == TrailingPasses(h)
  {
    if h != [] {
      StreakIsTrailing(h[..|h| - 1]);
      assert Alive(h)[..|h| - 1] == Alive(h[..|h| - 1]);
    }
  }

  /** `consecutive_successes`: the trailing passes, as far as the window reaches. */
  lemma StreakIsTrailingPasses(policy: Policy, run: seq<Batch>, key: string)
    requires policy.Sane() && key in Replay(policy, run)
    ensures Streak(Replay(policy, run)[key].recent) == Min(policy.window, TrailingPasses(History(run, key)))
  {
    ReplayFaithful(policy, run, key);
    StreakOfWindow(Alive(History(run, key)), policy.window);
    StreakIsTrailing(History(run, key));
  }
}
