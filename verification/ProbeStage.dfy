/**
 The sing-box probe stage: one task per config, a semaphore, an early-stop event, a deadline, and
 cancellation that may hit a task at any of its awaits.

 A task runs without interruption between two awaits, so the stage is a state machine whose steps
 are those stretches of `_check_one`. `Step` says what each step does; the methods of the class
 do it in place; the lemmas are about every schedule of steps.
 */
module ProbeStage {
  import opened Options
  import opened Sequences

  datatype Settings = Settings(attemptsPerConfig: int, minAttemptSuccesses: int, concurrency: int, maxAlive: int) {
    function Attempts(): nat {
      if attemptsPerConfig < 1 then 1 else attemptsPerConfig
    }

    function Required(): (r: nat)
      ensures 1 <= r <= Attempts()
    {
      Min(Attempts(), if minAttemptSuccesses < 1 then 1 else minAttemptSuccesses)
    }

    function FailuresAllowed(): nat {
      Attempts() - Required()
    }

    function Slots(): nat {
      if concurrency < 1 then 1 else concurrency
    }
  }

  /** The settings: at least one attempt, at least one success required and no more than attempts, at least one slot. */
  lemma SettingsMean(s: Settings)
    ensures s.Attempts() >= 1 && (s.attemptsPerConfig >= 1 ==> s.Attempts() == s.attemptsPerConfig)
    ensures s.attemptsPerConfig < 1 ==> s.Attempts() == 1
    ensures s.Required() + s.FailuresAllowed() == s.Attempts()
    ensures 1 <= s.minAttemptSuccesses <= s.Attempts() ==> s.Required() == s.minAttemptSuccesses
    ensures s.minAttemptSuccesses < 1 ==> s.Required() == 1
    ensures s.minAttemptSuccesses > s.Attempts() ==> s.Required() == s.Attempts()
    ensures s.Slots() >= 1 && (s.concurrency >= 1 ==> s.Slots() == s.concurrency)
              && (s.concurrency < 1 ==> s.Slots() == 1)
  {
  }

  /** Where a task is suspended, or how it ended. A raised task ended with an exception or a cancellation. */
  datatype Task =
    | Created
    | AtSemaphore
    | Probing(successes: nat, failures: nat)
    | AtAliveLock
    | Ended(raised: bool)
  {
    predicate Inside() {
      Probing? || AtAliveLock?
    }
  }

  /** The fields of a config that the stage writes; passed and failed count the attempts of a finished probe. */
  datatype Config = Config(isAlive: Option<bool>, wasChecked: bool, passed: nat, failed: nat)

  const Untouched := Config(None, false, 0, 0)

  datatype State = State(
    tasks: seq<Task>, configs: seq<Config>, alive: seq<nat>, done: bool, free: nat,
    budgetSkipped: nat, doneCount: nat, noVerdictCount: nat)

  datatype Probe = Passed | Failed | NoVerdict | Raised

  datatype Event =
    | Begin(i: nat)
    | Enter(i: nat, pastDeadline: bool)
    | Answer(i: nat, probe: Probe)
    | Append(i: nat)
    | Cancel(i: nat)

  function Initial(s: Settings, n: nat): State {
    State(seq(n, _ => Created), seq(n, _ => Untouched), [], false, s.Slots(), 0, 0, 0)
  }

  predicate Enabled(st: State, e: Event) {
    && |st.tasks| == |st.configs|
    && e.i < |st.tasks|
    && match e
       case Begin(i) => st.tasks[i].Created?
       case Enter(i, _) => st.tasks[i].AtSemaphore? && st.free > 0
       case Answer(i, _) => st.tasks[i].Probing?
       case Append(i) => st.tasks[i].AtAliveLock?
       case Cancel(i) => !st.tasks[i].Ended?
  }

  function End(st: State, i: nat, raised: bool): State
    requires i < |st.tasks|
  {
    st.(tasks := st.tasks[i := Ended(raised)], free := if st.tasks[i].Inside() then st.free + 1 else st.free)
  }

  /** `cfg.xray_was_checked = False; cfg.is_alive = None`, then return. */
  function EndWithoutVerdict(st: State, i: nat): State
    requires i < |st.tasks| == |st.configs|
  {
    End(st, i, false).(configs := st.configs[i := st.configs[i].(isAlive := None, wasChecked := false)])
  }

  /** The attempt loop is over. */
  function Conclude(s: Settings, st: State, i: nat, passed: nat, failed: nat): State
    requires i < |st.tasks| == |st.configs|
  {
    var verdict := passed >= s.Required();
    var c := st.configs[i].(isAlive := Some(verdict), passed := passed, failed := failed);
    var st1 := st.(configs := st.configs[i := c], doneCount := st.doneCount + 1);
    if verdict then st1.(tasks := st1.tasks[i := AtAliveLock]) else End(st1, i, false)
  }

  /** The attempt loop goes on, unless the stage is done or the attempts are used up. */
  function NextAttempt(s: Settings, st: State, i: nat, passed: nat, failed: nat): State
    requires i < |st.tasks| == |st.configs|
  {
    if passed + failed >= s.Attempts() then Conclude(s, st, i, passed, failed)
    else if st.done then EndWithoutVerdict(st, i)
    else st.(tasks := st.tasks[i := Probing(passed, failed)])
  }

  /** What a task does with the answer of its probe. */
  function TakeAnswer(s: Settings, st: State, i: nat, probe: Probe): State
    requires i < |st.tasks| == |st.configs| && st.tasks[i].Probing?
  {
    var p, f := st.tasks[i].successes, st.tasks[i].failures;
    match probe
    case NoVerdict => EndWithoutVerdict(st, i).(noVerdictCount := st.noVerdictCount + 1)
    case Raised => End(st, i, true)
    case Passed =>
      if p + 1 >= s.Required() then Conclude(s, st, i, p + 1, f) else NextAttempt(s, st, i, p + 1, f)
    case Failed =>
      if f + 1 > s.FailuresAllowed() then Conclude(s, st, i, p, f + 1) else NextAttempt(s, st, i, p, f + 1)
  }

  /** One stretch of one task. A step that cannot be taken changes nothing. */
  function Step(s: Settings, st: State, e: Event): (r: State)
    ensures |r.tasks| == |st.tasks| && |r.configs| == |st.configs|
  {
    if !Enabled(st, e) then st
    else
      match e
      case Begin(i) =>
        if st.done then End(st, i, false) else st.(tasks := st.tasks[i := AtSemaphore])
      case Enter(i, pastDeadline) =>
        if st.done then End(st, i, false)
        else if pastDeadline then EndWithoutVerdict(st, i).(budgetSkipped := st.budgetSkipped + 1)
        else st.(tasks := st.tasks[i := Probing(0, 0)], free := st.free - 1,
                 configs := st.configs[i := st.configs[i].(wasChecked := true)])
      case Answer(i, probe) => TakeAnswer(s, st, i, probe)
      case Append(i) =>
        var alive := st.alive + [i];
        End(st, i, false).(alive := alive, done := st.done || (s.maxAlive > 0 && |alive| >= s.maxAlive))
      case Cancel(i) => End(st, i, true)
  }

  function Run(s: Settings, n: nat, schedule: seq<Event>): (r: State)
    ensures |r.tasks| == |r.configs| == n
  {
    if schedule == [] then Initial(s, n)
    else Step(s, Run(s, n, schedule[..|schedule| - 1]), schedule[|schedule| - 1])
  }

  predicate AllEnded(st: State) {
    forall i :: 0 <= i < |st.tasks| ==> st.tasks[i].Ended?
  }

  /** The clean-up after the gather: tasks that raised leave no verdict, and the list is cut to its limit. */
  function CleanUp(st: State): seq<Config>
    requires |st.tasks| == |st.configs|
  {
    seq(|st.configs|, i requires 0 <= i < |st.configs| =>
      if st.tasks[i] == Ended(true) then st.configs[i].(isAlive := None, wasChecked := false) else st.configs[i])
  }

  function Result(s: Settings, st: State): seq<nat> {
    if s.maxAlive > 0 then Take(st.alive, s.maxAlive) else st.alive
  }

  // ---- what every schedule keeps ----

  ghost predicate TaskOk(s: Settings, t: Task, c: Config) {
    match t
    case Created => c == Untouched
    case AtSemaphore => c == Untouched
    case Probing(p, f) => c.isAlive.None? && c.wasChecked && p < s.Required() && f <= s.FailuresAllowed()
    case AtAliveLock => c.isAlive == Some(true) && c.wasChecked && c.passed >= s.Required()
    case Ended(true) => true
    case Ended(false) => VerdictOk(s, c)
  }

  /** A verdict is earned, and without a verdict the config does not count as checked. */
  ghost predicate VerdictOk(s: Settings, c: Config) {
    match c.isAlive
    case None => !c.wasChecked
    case Some(true) => c.wasChecked && c.passed >= s.Required()
    case Some(false) => c.wasChecked && c.failed > s.FailuresAllowed() && c.passed < s.Required()
  }

  function InsideTasks(tasks: seq<Task>): nat {
    if tasks == [] then 0 else InsideTasks(tasks[1..]) + if tasks[0].Inside() then 1 else 0
  }

  ghost predicate Inv(s: Settings, st: State) {
    && |st.tasks| == |st.configs|
    && (forall i :: 0 <= i < |st.tasks| ==> TaskOk(s, st.tasks[i], st.configs[i]))
    && Distinct(st.alive)
    && (forall k :: 0 <= k < |st.alive| ==> Listed(st, st.alive[k]))
    && (forall i :: 0 <= i < |st.tasks| && st.tasks[i] == Ended(false) && st.configs[i].isAlive == Some(true) ==>
         i in st.alive)
    && st.free + InsideTasks(st.tasks) == s.Slots()
    && (st.done <==> s.maxAlive > 0 && |st.alive| >= s.maxAlive)
  }

  ghost predicate Listed(st: State, i: nat)
    requires |st.tasks| == |st.configs|
  {
    i < |st.tasks| && st.tasks[i] == Ended(false) && st.configs[i].isAlive == Some(true)
  }

  lemma {:induction false} InsideUpdate(tasks: seq<Task>, i: nat, t: Task)
    requires i < |tasks|
    ensures InsideTasks(tasks[i := t]) + (if tasks[i].Inside() then 1 else 0)
         == InsideTasks(tasks) + (if t.Inside() then 1 else 0)
  {
    if i == 0 {
      assert tasks[0 := t][1..] == tasks[1..];
    } else {
      assert tasks[i := t][1..] == tasks[1..][i - 1 := t];
      InsideUpdate(tasks[1..], i - 1, t);
    }
  }

  lemma {:induction false} NoneInside(n: nat)
    ensures InsideTasks(seq(n, _ => Created)) == 0
  {
    if n > 0 {
      assert seq(n, _ => Created)[1..] == seq(n - 1, _ => Created);
      NoneInside(n - 1);
    }
  }

  /** One task moves on: what has to be checked of it for the invariant to survive. */
  lemma Moved(s: Settings, st: State, st': State, i: nat, t: Task, c: Config)
    requires Inv(s, st) && i < |st.tasks| && !st.tasks[i].Ended?
    requires st'.tasks == st.tasks[i := t] && st'.configs == st.configs[i := c]
    requires TaskOk(s, t, c)
    requires st'.free + (if t.Inside() then 1 else 0) == st.free + (if st.tasks[i].Inside() then 1 else 0)
    requires st'.alive == if t == Ended(false) && c.isAlive == Some(true) then st.alive + [i] else st.alive
    requires st'.done <==> s.maxAlive > 0 && |st'.alive| >= s.maxAlive
    ensures Inv(s, st')
  {
    InsideUpdate(st.tasks, i, t);
    forall k | 0 <= k < |st.alive|
      ensures st.alive[k] != i
    {
      assert Listed(st, st.alive[k]);
    }
    forall k | 0 <= k < |st.alive|
      ensures Listed(st', st.alive[k])
    {
      StaysListed(st, st', i, t, c, st.alive[k]);
    }
  }

  lemma StaysListed(st: State, st': State, i: nat, t: Task, c: Config, j: nat)
    requires |st.tasks| == |st.configs| && i < |st.tasks| && j != i && Listed(st, j)
    requires st'.tasks == st.tasks[i := t] && st'.configs == st.configs[i := c]
    ensures Listed(st', j)
  {
  }

  lemma AnswerKeepsInv(s: Settings, st: State, i: nat, probe: Probe)
    requires Inv(s, st) && i < |st.tasks| && st.tasks[i].Probing?
    ensures Inv(s, TakeAnswer(s, st, i, probe))
  {
    var st' := TakeAnswer(s, st, i, probe);
    assert TaskOk(s, st.tasks[i], st.configs[i]);
    assert st.configs == st.configs[i := st.configs[i]];
    Moved(s, st, st', i, st'.tasks[i], st'.configs[i]);
  }

  lemma StepKeepsInv(s: Settings, st: State, e: Event)
    requires Inv(s, st)
    ensures Inv(s, Step(s, st, e))
  {
    var st' := Step(s, st, e);
    if Enabled(st, e) && e.Answer? {
      AnswerKeepsInv(s, st, e.i, e.probe);
    } else if Enabled(st, e) {
      assert TaskOk(s, st.tasks[e.i], st.configs[e.i]);
      assert st.configs == st.configs[e.i := st.configs[e.i]];
      Moved(s, st, st', e.i, st'.tasks[e.i], st'.configs[e.i]);
    }
  }

  lemma InitialInv(s: Settings, n: nat)
    ensures Inv(s, Initial(s, n))
  {
    NoneInside(n);
  }

  lemma {:induction false} RunKeepsInv(s: Settings, n: nat, schedule: seq<Event>)
    ensures Inv(s, Run(s, n, schedule))
  {
    if schedule == [] {
      InitialInv(s, n);
    } else {
      RunKeepsInv(s, n, schedule[..|schedule| - 1]);
      StepKeepsInv(s, Run(s, n, schedule[..|schedule| - 1]), schedule[|schedule| - 1]);
    }
  }

  /** In every schedule at most max(1, concurrency) probes are under way at once. */
  lemma ConcurrencyIsBounded(s: Settings, n: nat, schedule: seq<Event>)
    ensures InsideTasks(Run(s, n, schedule).tasks) <= s.Slots()
  {
    RunKeepsInv(s, n, schedule);
  }

  // ---- what the probes answered ----

  /**
   What has happened to one config: the answers of its probes, how many of them came when the stage was done,
   whether its task was cancelled, whether it entered the semaphore past the deadline, and whether it began
   or entered when the stage was done.
   */
  datatype History = History(probes: seq<Probe>, afterDone: nat, cancelled: bool, late: bool, stopped: bool) {
    predicate Interrupted() {
      cancelled || Raised in probes
    }

    /** The task never gets to its probes. */
    predicate Barred() {
      late || stopped
    }

    function Answered(probe: Probe, done: bool): History {
      this.(probes := probes + [probe], afterDone := if done then afterDone + 1 else afterDone)
    }
  }

  const Nothing := History([], 0, false, false, false)

  function HistoryOf(s: Settings, n: nat, schedule: seq<Event>, i: nat): History {
    if schedule == [] then Nothing
    else
      var before, e := schedule[..|schedule| - 1], schedule[|schedule| - 1];
      Extended(HistoryOf(s, n, before, i), Run(s, n, before), e, i)
  }

  /** One event more, if it is one of this config and can happen. */
  function Extended(h: History, st: State, e: Event, i: nat): History {
    if e.i != i || !Enabled(st, e) then h
    else
      match e
      case Answer(_, probe) => h.Answered(probe, st.done)
      case Begin(_) => h.(stopped := st.done)
      case Enter(_, pastDeadline) => h.(late := pastDeadline, stopped := st.done)
      case Cancel(_) => h.(cancelled := true)
      case _ => h
  }

  function Count(probes: seq<Probe>, p: Probe): nat {
    if probes == [] then 0 else Count(probes[..|probes| - 1], p) + if probes[|probes| - 1] == p then 1 else 0
  }

  lemma CountAnswered(h: History, probe: Probe, done: bool, p: Probe)
    ensures Count(h.Answered(probe, done).probes, p) == Count(h.probes, p) + if probe == p then 1 else 0
    ensures h.Answered(probe, done).Interrupted() <==> h.Interrupted() || probe == Raised
    ensures p in h.Answered(probe, done).probes <==> p in h.probes || probe == p
  {
    assert (h.probes + [probe])[..|h.probes|] == h.probes;
  }

  predicate EnoughPassed(s: Settings, probes: seq<Probe>) {
    Count(probes, Passed) >= s.Required()
  }

  predicate TooManyFailed(s: Settings, probes: seq<Probe>) {
    Count(probes, Failed) > s.FailuresAllowed()
  }

  /** A task and its config, in terms of what has happened to them so far. */
  ghost predicate Told(s: Settings, done: bool, t: Task, c: Config, h: History) {
    match t
    case Created => h == Nothing
    case AtSemaphore => h == Nothing
    case Probing(p, f) =>
      && !h.Interrupted() && !h.Barred() && NoVerdict !in h.probes && h.afterDone == 0
      && Count(h.probes, Passed) == p && Count(h.probes, Failed) == f
      && !EnoughPassed(s, h.probes) && !TooManyFailed(s, h.probes)
    case AtAliveLock =>
      && !h.Interrupted() && !h.Barred() && NoVerdict !in h.probes && h.afterDone <= 1
      && c.isAlive == Some(true) && EnoughPassed(s, h.probes) && !TooManyFailed(s, h.probes)
    case Ended(true) => h.Interrupted() && !h.Barred() && h.afterDone <= 1
    case Ended(false) =>
      && !h.Interrupted() && h.afterDone <= 1 && (h.Barred() ==> h.probes == []) && (h.stopped ==> done)
      && (c.isAlive == Some(true) <==> EnoughPassed(s, h.probes))
      && (c.isAlive == Some(false) <==> TooManyFailed(s, h.probes))
      && (c.isAlive.None? ==> done || h.Barred() || NoVerdict in h.probes)
  }

  /** The answers so far and one more, and what follows from it for the attempt loop. */
  lemma CountsTold(s: Settings, p: nat, f: nat, h: History, probe: Probe, done: bool)
    requires Count(h.probes, Passed) == p && Count(h.probes, Failed) == f
    ensures var probes := h.Answered(probe, done).probes;
            && Count(probes, Passed) == (if probe == Passed then p + 1 else p)
            && Count(probes, Failed) == (if probe == Failed then f + 1 else f)
            && (NoVerdict in probes <==> NoVerdict in h.probes || probe == NoVerdict)
            && (h.Answered(probe, done).Interrupted() <==> h.Interrupted() || probe == Raised)
            && h.Answered(probe, done).Barred() == h.Barred()
  {
    CountAnswered(h, probe, done, Passed);
    CountAnswered(h, probe, done, Failed);
    CountAnswered(h, probe, done, NoVerdict);
  }

  /** The attempt loop ends, or goes on, with these counts. */
  lemma NextTold(s: Settings, st: State, i: nat, p: nat, f: nat, h: History)
    requires i < |st.tasks| == |st.configs| && st.tasks[i].Probing? && st.configs[i].isAlive.None?
    requires !h.Interrupted() && !h.Barred() && NoVerdict !in h.probes
    requires h.afterDone == if st.done then 1 else 0
    requires Count(h.probes, Passed) == p && Count(h.probes, Failed) == f
    requires p <= s.Required() && f <= s.FailuresAllowed() + 1 && (p < s.Required() || f <= s.FailuresAllowed())
    ensures var over := p == s.Required() || f > s.FailuresAllowed();
            var st' := if over then Conclude(s, st, i, p, f) else NextAttempt(s, st, i, p, f);
            && |st'.tasks| == |st'.configs| == |st.tasks|
            && Told(s, st'.done, st'.tasks[i], st'.configs[i], h)
  {
  }

  lemma AnswerTold(s: Settings, st: State, i: nat, probe: Probe, h: History)
    requires i < |st.tasks| == |st.configs| && st.tasks[i].Probing?
    requires Told(s, st.done, st.tasks[i], st.configs[i], h)
    requires st.configs[i].isAlive.None?
    ensures var st' := TakeAnswer(s, st, i, probe);
            && |st'.tasks| == |st'.configs| == |st.tasks|
            && Told(s, st'.done, st'.tasks[i], st'.configs[i], h.Answered(probe, st.done))
  {
    var p, f := st.tasks[i].successes, st.tasks[i].failures;
    CountsTold(s, p, f, h, probe, st.done);
    match probe
    case Passed => NextTold(s, st, i, p + 1, f, h.Answered(probe, st.done));
    case Failed => NextTold(s, st, i, p, f + 1, h.Answered(probe, st.done));
    case _ =>
  }

  /** A step touches one task and its config only, and the event stays set. */
  lemma StepTouchesOne(s: Settings, st: State, e: Event, i: nat)
    requires i < |st.tasks| == |st.configs| && i != e.i
    ensures Step(s, st, e).tasks[i] == st.tasks[i] && Step(s, st, e).configs[i] == st.configs[i]
    ensures st.done ==> Step(s, st, e).done
  {
  }

  /** Every step keeps what the tasks say of the answers their probes gave. */
  lemma StepKeepsTold(s: Settings, st: State, e: Event, i: nat, h: History)
    requires Inv(s, st) && i < |st.tasks| && Told(s, st.done, st.tasks[i], st.configs[i], h)
    ensures var st' := Step(s, st, e);
            Told(s, st'.done, st'.tasks[i], st'.configs[i], Extended(h, st, e, i))
  {
    assert TaskOk(s, st.tasks[i], st.configs[i]);
    if i != e.i {
      StepTouchesOne(s, st, e, i);
    } else if Enabled(st, e) && e.Answer? {
      AnswerTold(s, st, i, e.probe, h);
    }
  }

  lemma {:induction false} RunKeepsTold(s: Settings, n: nat, schedule: seq<Event>, i: nat)
    requires i < n
    ensures var st := Run(s, n, schedule);
            Told(s, st.done, st.tasks[i], st.configs[i], HistoryOf(s, n, schedule, i))
  {
    if schedule != [] {
      var before, e := schedule[..|schedule| - 1], schedule[|schedule| - 1];
      RunKeepsInv(s, n, before);
      RunKeepsTold(s, n, before, i);
      StepKeepsTold(s, Run(s, n, before), e, i, HistoryOf(s, n, before, i));
    }
  }

  /**
   The verdict of a config, from what has happened to it. It is True exactly when enough of its probes
   passed and False exactly when too many failed, unless a probe raised or the task was cancelled. There is
   none only for one of those two reasons, after a probe without a verdict, past the deadline, or because
   the stage was done. A config without a verdict does not count as checked.
   */
  ghost predicate VerdictEarned(s: Settings, done: bool, h: History, c: Config) {
    && (c.isAlive == Some(true) <==> !h.Interrupted() && EnoughPassed(s, h.probes))
    && (c.isAlive == Some(false) <==> !h.Interrupted() && TooManyFailed(s, h.probes))
    && (c.isAlive.None? ==> h.Interrupted() || NoVerdict in h.probes || h.late || done)
    && (h.Barred() ==> h.probes == [] && c.isAlive.None?)
    && (c.isAlive.None? <==> !c.wasChecked)
  }

  /** A task past the deadline, or one that finds the stage done, has ended without a probe; it is not undone. */
  lemma BarredIsNotProbed(s: Settings, n: nat, schedule: seq<Event>, i: nat)
    requires i < n && HistoryOf(s, n, schedule, i).Barred()
    ensures HistoryOf(s, n, schedule, i).probes == [] && Run(s, n, schedule).tasks[i] == Ended(false)
    ensures CleanUp(Run(s, n, schedule))[i].isAlive.None? && !CleanUp(Run(s, n, schedule))[i].wasChecked
  {
    RunKeepsInv(s, n, schedule);
    RunKeepsTold(s, n, schedule, i);
    var st := Run(s, n, schedule);
    assert TaskOk(s, st.tasks[i], st.configs[i]);
  }

  /** Once the stage is done a config gets no more than the answer of the probe that is under way. */
  lemma NoProbeAfterDone(s: Settings, n: nat, schedule: seq<Event>, i: nat)
    requires i < n
    ensures HistoryOf(s, n, schedule, i).afterDone <= 1
    ensures HistoryOf(s, n, schedule, i).afterDone == 1 ==> !Run(s, n, schedule).tasks[i].Probing?
  {
    RunKeepsTold(s, n, schedule, i);
  }

  lemma VerdictIsEarned(s: Settings, n: nat, schedule: seq<Event>, i: nat)
    requires i < n && Run(s, n, schedule).tasks[i].Ended?
    ensures var st := Run(s, n, schedule);
            VerdictEarned(s, st.done, HistoryOf(s, n, schedule, i), CleanUp(st)[i])
  {
    RunKeepsInv(s, n, schedule);
    RunKeepsTold(s, n, schedule, i);
    var st := Run(s, n, schedule);
    assert TaskOk(s, st.tasks[i], st.configs[i]);
  }

  /** Without an answer there is no verdict: a True needs a passing probe and a False a failing one. */
  lemma VerdictNeedsAnswer(s: Settings, n: nat, schedule: seq<Event>, i: nat)
    requires i < n && Run(s, n, schedule).tasks[i].Ended?
    ensures var c, probes := CleanUp(Run(s, n, schedule))[i], HistoryOf(s, n, schedule, i).probes;
            && (c.isAlive == Some(true) ==> Passed in probes)
            && (c.isAlive == Some(false) ==> Failed in probes)
            && (probes == [] ==> c.isAlive.None? && !c.wasChecked)
  {
    VerdictIsEarned(s, n, schedule, i);
    CountedIsThere(HistoryOf(s, n, schedule, i).probes, Passed);
    CountedIsThere(HistoryOf(s, n, schedule, i).probes, Failed);
    var c := CleanUp(Run(s, n, schedule))[i];
    match c.isAlive
    case Some(true) => assert c.isAlive == Some(true);
    case Some(false) => assert c.isAlive == Some(false);
    case None =>
  }

  lemma {:induction false} CountedIsThere(probes: seq<Probe>, p: Probe)
    ensures Count(probes, p) > 0 ==> p in probes
  {
    if probes != [] {
      CountedIsThere(probes[..|probes| - 1], p);
    }
  }

  /**
   Whatever the schedule: every verdict is the one its config's probes have earned; the returned configs
   are distinct, at most max_alive when that is positive, and had enough passing probes; and an alive
   config is missing from the list only when the list is full. Only a full list leaves a config without a
   verdict of which neither its probes, nor the deadline, nor a cancellation is the cause.
   */
  lemma VerdictsOfEverySchedule(s: Settings, n: nat, schedule: seq<Event>)
    requires AllEnded(Run(s, n, schedule))
    ensures var st := Run(s, n, schedule);
            var configs, result := CleanUp(st), Result(s, st);
            var full := s.maxAlive > 0 && |result| == s.maxAlive;
            && |configs| == n
            && Distinct(result) && (s.maxAlive > 0 ==> |result| <= s.maxAlive)
            && (forall k :: 0 <= k < |result| ==>
                  && result[k] < n && configs[result[k]].isAlive == Some(true)
                  && EnoughPassed(s, HistoryOf(s, n, schedule, result[k]).probes))
            && (forall i :: 0 <= i < n ==>
                  VerdictOk(s, configs[i]) && VerdictEarned(s, full, HistoryOf(s, n, schedule, i), configs[i]))
            && (forall i :: 0 <= i < n && configs[i].isAlive == Some(true) && i !in result ==> full)
  {
    RunKeepsInv(s, n, schedule);
    var st := Run(s, n, schedule);
    var configs, result := CleanUp(st), Result(s, st);
    assert st.done <==> s.maxAlive > 0 && |result| == s.maxAlive;
    forall i | 0 <= i < n
      ensures VerdictOk(s, configs[i]) && VerdictEarned(s, st.done, HistoryOf(s, n, schedule, i), configs[i])
    {
      assert TaskOk(s, st.tasks[i], st.configs[i]);
      VerdictIsEarned(s, n, schedule, i);
    }
    forall k | 0 <= k < |result|
      ensures result[k] < n && configs[result[k]].isAlive == Some(true)
      ensures EnoughPassed(s, HistoryOf(s, n, schedule, result[k]).probes)
    {
      assert result[k] == st.alive[k] && Listed(st, st.alive[k]);
      VerdictIsEarned(s, n, schedule, result[k]);
    }
  }

  // ---- what the counters count ----

  function Tallied(holds: nat -> bool, n: nat): nat {
    if n == 0 then 0 else Tallied(holds, n - 1) + if holds(n - 1) then 1 else 0
  }

  lemma {:induction false} TalliedUpdate(f: nat -> bool, g: nat -> bool, n: nat, i: nat)
    requires forall j: nat :: j != i ==> f(j) == g(j)
    ensures Tallied(g, n) ==
            if i < n then Tallied(f, n) - (if f(i) then 1 else 0) + (if g(i) then 1 else 0) else Tallied(f, n)
  {
    if n > 0 {
      TalliedUpdate(f, g, n - 1, i);
    }
  }

  /** The attempts of a config were enough for a verdict, whatever became of its task then. */
  predicate Decided(s: Settings, h: History) {
    EnoughPassed(s, h.probes) || TooManyFailed(s, h.probes)
  }

  predicate Skipped(h: History) {
    h.late && !h.stopped
  }

  function Deciding(s: Settings, n: nat, schedule: seq<Event>): nat -> bool {
    (i: nat) => Decided(s, HistoryOf(s, n, schedule, i))
  }

  function Skipping(s: Settings, n: nat, schedule: seq<Event>): nat -> bool {
    (i: nat) => Skipped(HistoryOf(s, n, schedule, i))
  }

  function Inconclusive(s: Settings, n: nat, schedule: seq<Event>): nat -> bool {
    (i: nat) => NoVerdict in HistoryOf(s, n, schedule, i).probes
  }

  /** One step adds to a counter exactly when the history of its config comes to count. */
  lemma StepCounts(s: Settings, st: State, e: Event, h: History)
    requires Inv(s, st) && e.i < |st.tasks| && Told(s, st.done, st.tasks[e.i], st.configs[e.i], h)
    ensures var st', h' := Step(s, st, e), Extended(h, st, e, e.i);
            && st'.doneCount - st.doneCount == (if Decided(s, h') then 1 else 0) - (if Decided(s, h) then 1 else 0)
            && st'.budgetSkipped - st.budgetSkipped == (if Skipped(h') then 1 else 0) - (if Skipped(h) then 1 else 0)
            && st'.noVerdictCount - st.noVerdictCount ==
               (if NoVerdict in h'.probes then 1 else 0) - (if NoVerdict in h.probes then 1 else 0)
  {
    if Enabled(st, e) && e.Answer? {
      CountsTold(s, st.tasks[e.i].successes, st.tasks[e.i].failures, h, e.probe, st.done);
    }
  }

  lemma HistoryOfOther(s: Settings, n: nat, schedule: seq<Event>, i: nat)
    requires schedule != [] && (schedule[|schedule| - 1].i != i || i >= n)
    ensures HistoryOf(s, n, schedule, i) == HistoryOf(s, n, schedule[..|schedule| - 1], i)
  {
  }

  /**
   The three counters that the stage logs: the configs whose attempts were enough for a verdict, those that
   came past the deadline before the stage was done, and those with a probe that gave no verdict.
   */
  lemma {:induction false} CountersCount(s: Settings, n: nat, schedule: seq<Event>)
    ensures var st := Run(s, n, schedule);
            && st.doneCount == Tallied(Deciding(s, n, schedule), n)
            && st.budgetSkipped == Tallied(Skipping(s, n, schedule), n)
            && st.noVerdictCount == Tallied(Inconclusive(s, n, schedule), n)
  {
    if schedule == [] {
      NothingCounts(s, n, n);
    } else {
      var before, e := schedule[..|schedule| - 1], schedule[|schedule| - 1];
      CountersCount(s, n, before);
      forall j: nat | j != e.i
        ensures HistoryOf(s, n, schedule, j) == HistoryOf(s, n, before, j)
      {
        HistoryOfOther(s, n, schedule, j);
      }
      TalliedUpdate(Deciding(s, n, before), Deciding(s, n, schedule), n, e.i);
      TalliedUpdate(Skipping(s, n, before), Skipping(s, n, schedule), n, e.i);
      TalliedUpdate(Inconclusive(s, n, before), Inconclusive(s, n, schedule), n, e.i);
      if e.i < n {
        RunKeepsInv(s, n, before);
        RunKeepsTold(s, n, before, e.i);
        StepCounts(s, Run(s, n, before), e, HistoryOf(s, n, before, e.i));
      }
    }
  }

  lemma {:induction false} NothingCounts(s: Settings, n: nat, m: nat)
    ensures Tallied(Deciding(s, n, []), m) == Tallied(Skipping(s, n, []), m) == Tallied(Inconclusive(s, n, []), m) == 0
  {
    if m > 0 {
      NothingCounts(s, n, m - 1);
    }
  }

  // ---- the stage cannot hang ----

  function Work(s: Settings, t: Task): nat {
    match t
    case Created => s.Attempts() + 4
    case AtSemaphore => s.Attempts() + 3
    case Probing(p, f) => 2 + if p + f < s.Attempts() then s.Attempts() - p - f else 0
    case AtAliveLock => 1
    case Ended(_) => 0
  }

  function TotalWork(s: Settings, tasks: seq<Task>): nat {
    if tasks == [] then 0 else Work(s, tasks[0]) + TotalWork(s, tasks[1..])
  }

  lemma {:induction false} WorkUpdate(s: Settings, tasks: seq<Task>, i: nat, t: Task)
    requires i < |tasks|
    ensures TotalWork(s, tasks[i := t]) + Work(s, tasks[i]) == TotalWork(s, tasks) + Work(s, t)
  {
    if i == 0 {
      assert tasks[0 := t][1..] == tasks[1..];
    } else {
      assert tasks[i := t][1..] == tasks[1..][i - 1 := t];
      WorkUpdate(s, tasks[1..], i - 1, t);
    }
  }

  /** A task that moves has less to do than before. */
  lemma TaskAdvances(s: Settings, st: State, e: Event)
    requires Inv(s, st) && Enabled(st, e)
    ensures var st' := Step(s, st, e);
            st'.tasks == st.tasks[e.i := st'.tasks[e.i]] && Work(s, st'.tasks[e.i]) < Work(s, st.tasks[e.i])
  {
    assert TaskOk(s, st.tasks[e.i], st.configs[e.i]);
  }

  /** Every step that is taken leaves less to do. */
  lemma StepsMakeProgress(s: Settings, st: State, e: Event)
    requires Inv(s, st) && Enabled(st, e)
    ensures TotalWork(s, Step(s, st, e).tasks) < TotalWork(s, st.tasks)
  {
    TaskAdvances(s, st, e);
    WorkUpdate(s, st.tasks, e.i, Step(s, st, e).tasks[e.i]);
  }

  lemma {:induction false} SomeInside(tasks: seq<Task>) returns (i: nat)
    requires InsideTasks(tasks) > 0
    ensures i < |tasks| && tasks[i].Inside()
  {
    if tasks[0].Inside() {
      i := 0;
    } else {
      i := SomeInside(tasks[1..]);
      i := i + 1;
    }
  }

  /** Until every task has ended some task can move, without help from a cancellation. */
  lemma NoDeadlock(s: Settings, n: nat, schedule: seq<Event>) returns (e: Event)
    requires !AllEnded(Run(s, n, schedule))
    ensures Enabled(Run(s, n, schedule), e) && !e.Cancel?
  {
    RunKeepsInv(s, n, schedule);
    var st := Run(s, n, schedule);
    var i :| 0 <= i < |st.tasks| && !st.tasks[i].Ended?;
    if st.tasks[i].AtSemaphore? && st.free == 0 {
      i := SomeInside(st.tasks);
    }
    var t := st.tasks[i];
    e := if t.Created? then Begin(i) else if t.AtSemaphore? then Enter(i, false)
         else if t.Probing? then Answer(i, Passed) else Append(i);
  }

  // ---- the stage in place ----

  class Stage {
    const settings: Settings
    var tasks: seq<Task>
    var configs: seq<Config>
    var alive: seq<nat>
    var done: bool
    var free: nat
    var budgetSkipped: nat
    var doneCount: nat
    var noVerdictCount: nat

    constructor (settings: Settings, n: nat)
      ensures this.settings == settings && Now() == Initial(settings, n)
    {
      this.settings := settings;
      tasks, configs, alive, done := seq(n, _ => Created), seq(n, _ => Untouched), [], false;
      free, budgetSkipped, doneCount, noVerdictCount := settings.Slots(), 0, 0, 0;
    }

    function Now(): State
      reads this
    {
      State(tasks, configs, alive, done, free, budgetSkipped, doneCount, noVerdictCount)
    }

    method Leave(i: nat, raised: bool)
      requires i < |tasks|
      modifies this`tasks, this`free
      ensures Now() == End(old(Now()), i, raised)
    {
      if tasks[i].Inside() {
        free := free + 1;
      }
      tasks := tasks[i := Ended(raised)];
    }

    method Forget(i: nat)
      requires i < |tasks| == |configs|
      modifies this`tasks, this`free, this`configs
      ensures Now() == EndWithoutVerdict(old(Now()), i)
    {
      configs := configs[i := configs[i].(isAlive := None, wasChecked := false)];
      Leave(i, false);
    }

    /** A task starts, looks at the event, and waits for the semaphore. */
    method StartTask(i: nat)
      requires Enabled(Now(), Begin(i))
      modifies this`tasks, this`free
      ensures Now() == Step(settings, old(Now()), Begin(i))
    {
      if done {
        Leave(i, false);
      } else {
        tasks := tasks[i := AtSemaphore];
      }
    }

    /** The semaphore is acquired: the event and the deadline are looked at, and the first probe starts. */
    method EnterSemaphore(i: nat, pastDeadline: bool)
      requires Enabled(Now(), Enter(i, pastDeadline))
      modifies this
      ensures Now() == Step(settings, old(Now()), Enter(i, pastDeadline))
    {
      if done {
        Leave(i, false);
      } else if pastDeadline {
        budgetSkipped := budgetSkipped + 1;
        Forget(i);
      } else {
        configs := configs[i := configs[i].(wasChecked := true)];
        tasks := tasks[i := Probing(0, 0)];
        free := free - 1;
      }
    }

    /** A probe answers: count it, and leave the attempt loop, go round it again, or give up. */
    method ProbeAnswered(i: nat, probe: Probe)
      requires Enabled(Now(), Answer(i, probe))
      modifies this
      ensures Now() == Step(settings, old(Now()), Answer(i, probe))
    {
      var successes, failures := tasks[i].successes, tasks[i].failures;
      var over := false;
      match probe {
        case NoVerdict =>
          noVerdictCount := noVerdictCount + 1;
          Forget(i);
          return;
        case Raised =>
          Leave(i, true);
          return;
        case Passed =>
          successes := successes + 1;
          over := successes >= settings.Required();
        case Failed =>
          failures := failures + 1;
          over := failures > settings.FailuresAllowed();
      }
      if !over && successes + failures < settings.Attempts() {
        if done {
          Forget(i);
        } else {
          tasks := tasks[i := Probing(successes, failures)];
        }
        return;
      }
      var verdict := successes >= settings.Required();
      configs := configs[i := configs[i].(isAlive := Some(verdict), passed := successes, failed := failures)];
      doneCount := doneCount + 1;
      if verdict {
        tasks := tasks[i := AtAliveLock];
      } else {
        Leave(i, false);
      }
    }

    /** The alive lock is acquired: list the config, and stop the stage when the list is full. */
    method AppendAlive(i: nat)
      requires Enabled(Now(), Append(i))
      modifies this
      ensures Now() == Step(settings, old(Now()), Append(i))
    {
      alive := alive + [i];
      if settings.maxAlive > 0 && |alive| >= settings.maxAlive {
        done := true;
      }
      Leave(i, false);
    }

    /** The results loop after the gather, and the cut of the returned list. */
    method Collect() returns (result: seq<nat>)
      requires |tasks| == |configs|
      modifies this`configs
      ensures configs == CleanUp(old(Now())) && result == Result(settings, old(Now()))
    {
      ghost var before := Now();
      for i := 0 to |tasks|
        invariant |configs| == |before.configs|
        invariant forall j :: 0 <= j < |configs| ==>
                    configs[j] == if j < i then CleanUp(before)[j] else before.configs[j]
      {
        if tasks[i] == Ended(true) {
          configs := configs[i := configs[i].(isAlive := None, wasChecked := false)];
        }
      }
      result := alive;
      if settings.maxAlive > 0 && |alive| > settings.maxAlive {
        result := alive[..settings.maxAlive];
      }
    }
  }
}
