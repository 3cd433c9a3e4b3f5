/**
 The optimistic-concurrency publisher: GET the blob sha, PUT with that sha, and recover from
 5xx answers, rate limits, 409 conflicts and 422 races while other committers keep changing
 the repository.

 A call leaves a log of everything that happened to the published path, its own requests and
 the competing commits alike. The log is a list that grows at its end.
 */
module Publisher {
  import opened Options

  type Blob = string

  const CONFLICT_RETRIES := 2
  const DEFAULT_WAIT := 60.0
  const WAIT_CAP := 300.0

  // ---- what a request can be answered with ----

  /** What Python's `float()` makes of a header: a number, a special float, or a ValueError. */
  datatype Numeral = Finite(value: real) | NotANumber | PlusInfinity | MinusInfinity | NotNumeric

  /** `Retry-After`: missing or empty, a number of seconds, or an HTTP date (seconds since the epoch). */
  datatype RetryAfter = NoRetryAfter | Delay(delay: Numeral) | HttpDate(at: real)

  /** The body of a GET answer, as far as the publisher looks at it. */
  datatype Body = InvalidJson | NoSha | HasSha(sha: string)

  datatype Answer =
    | NetworkError
    | Response(status: nat, retryAfter: RetryAfter, remainingIsZero: bool, reset: Option<Numeral>, body: Body)
  {
    predicate Has(codes: set<nat>) {
      Response? && status in codes
    }

    predicate Success() {
      Has({200, 201})
    }

    predicate Transient() {
      Has({500, 502, 503, 504})
    }

    /** `_is_rate_limited`. */
    predicate ShowsLimit() {
      Response? && (status == 429 || remainingIsZero || retryAfter != NoRetryAfter)
    }

    predicate RateLimited() {
      Has({403, 429}) && ShowsLimit()
    }

    predicate TokenRefused() {
      Has({401, 403}) && !ShowsLimit()
    }

    /** A 2xx answer that holds a sha. */
    predicate HoldsSha() {
      Response? && 200 <= status < 300 && body.HasSha?
    }
  }

  /** How `_get_file_sha` ends. `Aborted` is GitHubPublishError, `Invalid` a ValueError. */
  datatype Lookup = Found(sha: string) | Missing | Failed | Aborted | Invalid

  datatype Outcome = Returned(ok: bool) | RaisedAbort | RaisedValueError

  /** The answers that matter are told apart by their status, and a 401 or 403 by its headers. */
  lemma AnswersToldApart(a: Answer)
    requires a.Response?
    ensures a.Success() <==> a.status == 200 || a.status == 201
    ensures a.Transient() <==> a.status == 500 || 502 <= a.status <= 504
    ensures a.RateLimited() <==>
            a.status == 429 || (a.status == 403 && (a.remainingIsZero || a.retryAfter != NoRetryAfter))
    ensures a.TokenRefused() <==>
            (a.status == 401 || a.status == 403) && !a.remainingIsZero && a.retryAfter == NoRetryAfter
  {
  }

  // ---- the log ----

  datatype Event =
    | Commit(file: Option<Blob>)
    | Get(answer: Answer)
    | Looked(result: Lookup)
    | Put(sha: Option<string>, content: Blob, applied: bool, answer: Answer)
    | RateSleep(seconds: real, now: real)
    | TooLong(now: real)
    | ShortSleep

  datatype Log = Start | Then(before: Log, last: Event)

  /** The file after everything in the log, given what it was when the call began. */
  ghost function FileAfter(start: Option<Blob>, log: Log): Option<Blob> {
    match log
    case Start => start
    case Then(p, Commit(f)) => f
    case Then(p, Put(_, c, true, _)) => Some(c)
    case Then(p, _) => FileAfter(start, p)
  }

  /** The server takes a PUT that names the current blob, or one without a sha when there is no file. */
  predicate Accepts(blobSha: Blob -> string, sha: Option<string>, file: Option<Blob>) {
    match sha
    case Some(s) => file.Some? && blobSha(file.value) == s
    case None => file.None?
  }

  /** What is assumed of the server; nothing is assumed of the other committers. */
  ghost predicate Legal(blobSha: Blob -> string, start: Option<Blob>, log: Log) {
    match log
    case Start => true
    case Then(p, e) =>
      && Legal(blobSha, start, p)
      && match e
         case Get(a) =>
           a.HoldsSha() ==>
             FileAfter(start, p).Some? && blobSha(FileAfter(start, p).value) == a.body.sha
         case Put(s, _, applied, a) =>
           && (applied ==> Accepts(blobSha, s, FileAfter(start, p)))
           && (a.Success() ==> applied)
         case _ => true
  }

  /** Distinct contents have distinct blob shas, and no sha is empty. */
  ghost predicate GoodHash(blobSha: Blob -> string) {
    && (forall a, b :: blobSha(a) == blobSha(b) ==> a == b)
    && (forall a :: blobSha(a) != "")
  }

  /** The log without the competing commits: what the publisher itself did and saw. */
  ghost function Calls(log: Log): Log {
    match log
    case Start => Start
    case Then(p, Commit(_)) => Calls(p)
    case Then(p, e) => Then(Calls(p), e)
  }

  // ---- what the publisher may do, judged from its own calls ----

  /** How far the lookup under way has come: the GET that was answered last, and what it was sent for. */
  datatype Asking = NotAsked | Once(answer: Answer) | Again(answer: Answer) | AfterWait(answer: Answer)

  /** What matters about the calls made so far. */
  datatype Tally = Tally(
    puts: nat, gets: nat, rateSleeps: nat, lookups: nat, races: nat,
    first: Option<Lookup>, latest: Option<Lookup>, lastGet: Option<Answer>, lastPut: Option<Answer>,
    previous: Option<Event>, last: Option<Event>, asking: Asking)
  {
    /** The first lookup of the call reported the file; FirstLookupSees ties it to what the server answered. */
    ghost predicate Existed() {
      first.Some? && first.value.Found?
    }

    ghost predicate EndsWithPut(a: Answer) {
      last.Some? && last.value.Put? && last.value.answer == a && lastPut == Some(a)
    }

    ghost predicate EndsWithLookup() {
      last.Some? && last.value.Looked?
    }

    ghost predicate RetriedAfterWait() {
      previous.Some? && previous.value.RateSleep?
    }

    ghost predicate HasWaited() {
      last.Some? && last.value.RateSleep?
    }

    /** The answer that came last, if nothing has happened since. */
    ghost function Answered(): Option<Answer> {
      match last
      case Some(Get(a)) => Some(a)
      case Some(Put(_, _, _, a)) => Some(a)
      case _ => None
    }

    ghost predicate WithinBounds() {
      puts <= 9 && gets <= 12 && rateSleeps <= 8
    }
  }

  ghost function Add(t: Tally, e: Event): Tally {
    var u := t.(previous := t.last, last := Some(e));
    match e
    case Commit(_) => u
    case Get(a) => u.(gets := t.gets + 1, lastGet := Some(a), asking := Asked(t, a))
    case Looked(r) =>
      var first := if t.first.Some? then t.first else Some(r);
      u.(lookups := t.lookups + 1, first := first, latest := Some(r), asking := NotAsked)
    case Put(_, _, _, a) => u.(puts := t.puts + 1, lastPut := Some(a), races := t.races + if a.Has({422}) then 1 else 0)
    case RateSleep(_, _) => u.(rateSleeps := t.rateSleeps + 1)
    case TooLong(_) => u
    case ShortSleep => u
  }

  ghost function Asked(t: Tally, a: Answer): Asking {
    match t.asking
    case NotAsked => Once(a)
    case Once(_) => if t.HasWaited() then AfterWait(a) else Again(a)
    case _ => AfterWait(a)
  }

  ghost function TallyOf(calls: Log): Tally {
    match calls
    case Start => Tally(0, 0, 0, 0, 0, None, None, None, None, None, None, NotAsked)
    case Then(p, e) => Add(TallyOf(p), e)
  }

  /** A lookup begins the call, follows a PUT answered 409 as long as retries are left, or the first 422. */
  ghost predicate LookupDue(t: Tally) {
    && t.asking.NotAsked?
    && (t.lookups == 0
        || (t.last.Some? && t.last.value.Put?
            && var a := t.last.value.answer;
               || (a.Has({409}) && t.lookups <= CONFLICT_RETRIES && t.races == 0)
               || (a.Has({422}) && t.races == 1)))
  }

  /** Inside a lookup a GET is repeated once after a transient 5xx, and once after a rate limit. */
  ghost predicate GetAllowed(t: Tally) {
    match t.asking
    case NotAsked => LookupDue(t)
    case Once(a) => t.HasWaited() || (a.Transient() && t.last == Some(ShortSleep))
    case Again(_) => t.HasWaited()
    case AfterWait(_) => false
  }

  /** A lookup ends when no repetition is left, and then reports what the answer it is left with says. */
  ghost predicate LookedAllowed(t: Tally, r: Lookup) {
    match t.asking
    case NotAsked => LookupDue(t) && r == Invalid
    case Once(a) => !a.Transient() && EndsLookup(t, a, r)
    case Again(a) => EndsLookup(t, a, r)
    case AfterWait(a) => r == Interpret(a)
  }

  ghost predicate EndsLookup(t: Tally, a: Answer, r: Lookup) {
    if a.RateLimited() then r == Aborted && t.last.Some? && t.last.value.TooLong? else r == Interpret(a)
  }

  /** A PUT carries what the latest lookup found, or no sha when that found nothing and nothing was there at first. */
  ghost predicate PutAllowed(t: Tally, sha: Option<string>) {
    && t.asking.NotAsked?
    && match sha
       case Some(s) => t.latest == Some(Found(s))
       case None => !t.Existed() && (t.latest == Some(Missing) || (t.latest == Some(Failed) && t.races > 0))
  }

  /** A PUT follows a lookup (the first, or one for a 409 or a 422) or one of the two waits. */
  ghost predicate PutDue(t: Tally) {
    && t.last.Some?
    && match t.last.value
       case Looked(_) => t.puts == 0 || (t.lastPut.Some? && t.lastPut.value.Has({409, 422}))
       case ShortSleep => true
       case RateSleep(_, _) => true
       case _ => false
  }

  /** A rate limit is waited out once for each GET or PUT. */
  ghost predicate WaitDue(t: Tally) {
    && t.Answered().Some? && t.Answered().value.RateLimited()
    && !t.asking.AfterWait?
    && (t.asking.NotAsked? ==> !t.RetriedAfterWait())
  }

  /** The pause before a repetition: of the first GET of a lookup, or of the first PUT of the call. */
  ghost predicate PauseDue(t: Tally) {
    && t.Answered().Some? && t.Answered().value.Transient()
    && (t.asking.Once? || (t.asking.NotAsked? && t.puts == 1))
  }

  ghost predicate WithinCap(wait: Option<real>) {
    wait.Some? && wait.value <= WAIT_CAP
  }

  /** The discipline of one step, judged from the answers that came before it. */
  ghost predicate StepAllowed(t: Tally, e: Event, content: Blob) {
    match e
    case Commit(_) => true
    case Get(_) => GetAllowed(t)
    case Looked(r) => LookedAllowed(t, r)
    case Put(s, c, _, _) => PutAllowed(t, s) && PutDue(t) && c == content
    case RateSleep(seconds, now) =>
      WaitDue(t) && WaitSeconds(t.Answered().value, now) == Some(seconds) && seconds <= WAIT_CAP
    case TooLong(now) => WaitDue(t) && !WithinCap(WaitSeconds(t.Answered().value, now))
    case ShortSleep => PauseDue(t)
  }

  ghost predicate Disciplined(calls: Log, content: Blob) {
    calls.Then? ==> Disciplined(calls.before, content) && StepAllowed(TallyOf(calls.before), calls.last, content)
  }

  /** The call ended with a PUT answered 200 or 201, or with a first GET that already saw the content. */
  ghost predicate Won(t: Tally, wanted: string) {
    && t.last.Some?
    && match t.last.value
       case Put(_, _, _, a) => a.Success()
       case Looked(r) => r == Found(wanted) && t.lookups == 1
       case _ => false
  }

  /** No retry the protocol grants is left unused when the call returns False. */
  ghost predicate GaveUp(t: Tally) {
    && t.last.Some?
    && match t.last.value
       case Looked(Failed) => t.puts == 0 || t.Existed() || (t.lastPut.Some? && t.lastPut.value.Has({409}))
       case Looked(Missing) => t.Existed() && t.puts > 0
       case Put(_, _, _, NetworkError) => true
       case Put(_, _, _, a) =>
         && !a.Success()
         && (a.RateLimited() ==> t.RetriedAfterWait())
         && (a.TokenRefused() ==> t.races > 0)
         && (a.Transient() ==> t.puts > 1)
         && (a.Has({409}) ==> t.lookups == 3 || t.races > 0)
         && (a.Has({422}) ==> t.races > 1)
       case _ => false
  }

  /** GitHubPublishError: a lookup raised it, a rate limit would outlast the cap, or the token was refused. */
  ghost predicate AbortedCall(t: Tally) {
    && t.last.Some?
    && match t.last.value
       case Looked(r) => r == Aborted
       case TooLong(_) => t.asking.NotAsked?
       case Put(_, _, _, a) => a.TokenRefused() && t.races == 0
       case _ => false
  }

  /** How the call ended is what its own log shows. */
  ghost predicate Explained(t: Tally, wanted: string, outcome: Outcome) {
    match outcome
    case Returned(true) => Won(t, wanted)
    case Returned(false) => GaveUp(t) && !Won(t, wanted)
    case RaisedAbort => AbortedCall(t) && !Won(t, wanted)
    case RaisedValueError => t.last == Some(Looked(Invalid)) || (RefusedToPut(t) && !Won(t, wanted))
  }

  /** The endpoint check can refuse once more between the first lookup and the first PUT. */
  ghost predicate RefusedToPut(t: Tally) {
    && t.lookups == 1 && t.puts == 0
    && t.last.Some? && t.last.value.Looked? && (t.last.value.result.Found? || t.last.value.result.Missing?)
  }

  /** The calls leave no choice: a log explains one way to end at most. */
  lemma OutcomeIsDetermined(t: Tally, wanted: string, a: Outcome, b: Outcome)
    requires Explained(t, wanted, a) && Explained(t, wanted, b)
    ensures a == b
  {
  }

  // ---- waiting out a rate limit ----

  function AtLeastOne(x: real): real {
    if x > 1.0 then x else 1.0
  }

  /** `max(1.0, float(x) - offset)` where Python's max keeps 1.0 against a NaN; None is an infinite wait. */
  function Wait(x: Numeral, offset: real): Option<real> {
    match x
    case Finite(v) => Some(AtLeastOne(v - offset))
    case NotANumber => Some(1.0)
    case MinusInfinity => Some(1.0)
    case PlusInfinity => None
    case NotNumeric => Some(DEFAULT_WAIT)
  }

  /** A wait from one time on lasts until the other, or one second when that is sooner. */
  predicate LastsUntil(wait: Option<real>, from: real, until: real) {
    && wait.Some? && wait.value >= 1.0 && from + wait.value >= until
    && (wait.value > 1.0 ==> from + wait.value == until)
  }

  /** What the headers ask for: Retry-After, or else the reset time, or else 60 seconds. */
  predicate MeetsHeaders(a: Answer, now: real, wait: Option<real>)
    requires a.Response?
  {
    match a.retryAfter
    case Delay(Finite(d)) => LastsUntil(wait, 0.0, d)
    case HttpDate(at) => LastsUntil(wait, now, at)
    case Delay(PlusInfinity) => wait == None
    case Delay(NotNumeric) => wait == Some(60.0)
    case Delay(_) => wait == Some(1.0)
    case NoRetryAfter =>
      match a.reset
      case None => wait == Some(60.0)
      case Some(Finite(r)) => LastsUntil(wait, now, r)
      case Some(PlusInfinity) => wait == None
      case Some(NotNumeric) => wait == Some(60.0)
      case Some(_) => wait == Some(1.0)
  }

  function WaitSeconds(a: Answer, now: real): (wait: Option<real>)
    requires a.Response?
    ensures wait.Some? ==> wait.value >= 1.0
    ensures MeetsHeaders(a, now, wait)
  {
    match a.retryAfter
    case Delay(d) => Wait(d, 0.0)
    case HttpDate(at) => Some(AtLeastOne(at - now))
    case NoRetryAfter => if a.reset.Some? then Wait(a.reset.value, now) else Some(DEFAULT_WAIT)
  }

  /** What `_get_file_sha` makes of the answer it is left with. An answer 409 counts as no file. */
  function Interpret(a: Answer): (r: Lookup)
    ensures r.Found? <==> a.HoldsSha()
    ensures r.Found? ==> a.body == HasSha(r.sha)
    ensures r.Aborted? <==> a.TokenRefused()
    ensures r.Invalid? <==> a.Response? && 200 <= a.status < 300 && a.body.InvalidJson?
    ensures r.Missing? <==> a.Response? && (a.status in {404, 409} || (200 <= a.status < 300 && a.body.NoSha?))
  {
    if a.NetworkError? then Failed
    else if a.status in {404, 409} then Missing
    else if a.TokenRefused() then Aborted
    else if !(200 <= a.status < 300) then Failed
    else match a.body
         case InvalidJson => Invalid
         case NoSha => Missing
         case HasSha(s) => Found(s)
  }

  // ---- the repository, shared with other committers ----

  class Repository {
    const blobSha: Blob -> string
    var file: Option<Blob>
    ghost const start: Option<Blob>
    ghost var log: Log

    constructor (blobSha: Blob -> string, file: Option<Blob>)
      ensures Valid() && log == Start
      ensures this.blobSha == blobSha && this.file == file
    {
      this.blobSha, this.file, this.start, this.log := blobSha, file, file, Start;
    }

    ghost predicate Valid()
      reads this
    {
      Legal(blobSha, start, log) && file == FileAfter(start, log)
    }

    ghost function Mine(): Log
      reads this
    {
      Calls(log)
    }

    ghost function Score(): Tally
      reads this
    {
      TallyOf(Mine())
    }

    /** The calls of the log, one event later. */
    ghost predicate Grew(was: Log, e: Event)
      reads this
    {
      && Mine() == Then(was, e)
      && Score() == Add(TallyOf(was), e)
      && forall c :: Disciplined(Mine(), c) <==> Disciplined(was, c) && StepAllowed(TallyOf(was), e, c)
    }

    /** Any number of competing commits: they may write, overwrite and delete the file. */
    method OtherCommits()
      requires Valid()
      modifies this
      ensures Valid() && Mine() == old(Mine())
    {
      var n: nat := *;
      while n > 0
        invariant Valid() && Mine() == old(Mine())
      {
        file := *;
        log := Then(log, Commit(file));
        n := n - 1;
      }
    }

    ghost method Note(e: Event)
      requires Valid() && !e.Commit? && !e.Get? && !e.Put?
      modifies this`log
      ensures Valid() && Grew(old(Mine()), e)
    {
      log := Then(log, e);
    }

    /** One GET. Any answer may come back, but a sha in a 2xx answer is the current blob's. */
    method Request() returns (a: Answer)
      requires Valid()
      modifies this
      ensures Valid() && Grew(old(Mine()), Get(a))
    {
      OtherCommits();
      a := *;
      if a.HoldsSha() {
        a := a.(body := if file.Some? then HasSha(blobSha(file.value)) else NoSha);
      }
      log := Then(log, Get(a));
    }

    /** One PUT. It may be applied under any answer, and is applied under 200 and 201. */
    method Store(sha: Option<string>, content: Blob) returns (a: Answer, ghost applied: bool)
      requires Valid()
      modifies this
      ensures Valid() && Grew(old(Mine()), Put(sha, content, applied, a))
    {
      OtherCommits();
      a := *;
      var write: bool := *;
      write := write && Accepts(blobSha, sha, file);
      if a.Success() && !write {
        a := NetworkError;
      }
      if write {
        file := Some(content);
      }
      applied := write;
      log := Then(log, Put(sha, content, applied, a));
    }
  }

  class GitHubPublisher {
    const repo: Repository

    constructor (repo: Repository)
      ensures this.repo == repo
    {
      this.repo := repo;
    }

    ghost predicate Ready(content: Blob)
      reads repo
    {
      repo.Valid() && Disciplined(repo.Mine(), content)
    }

    /** `_get_client`: the endpoint check may refuse on any call (ValueError). */
    method EndpointTrusted() returns (ok: bool)
    {
      ok := *;
    }

    /** `_wait_for_rate_limit`: False is the abort for a wait beyond the cap. */
    method WaitForRateLimit(a: Answer, ghost content: Blob)
      returns (slept: bool, ghost seconds: real, ghost now: real)
      requires Ready(content) && WaitDue(repo.Score()) && repo.Score().Answered() == Some(a)
      modifies repo`log
      ensures Ready(content)
      ensures slept <==> WithinCap(WaitSeconds(a, now))
      ensures slept ==> 1.0 <= seconds <= 300.0 && MeetsHeaders(a, now, Some(seconds))
      ensures slept ==> WaitSeconds(a, now) == Some(seconds) && repo.Grew(old(repo.Mine()), RateSleep(seconds, now))
      ensures !slept ==> repo.Grew(old(repo.Mine()), TooLong(now))
    {
      var clock: real := *;
      now := clock;
      var wait := WaitSeconds(a, clock);
      seconds := 0.0;
      if wait.None? || wait.value > WAIT_CAP {
        repo.Note(TooLong(clock));
        return false, seconds, now;
      }
      seconds := wait.value;
      repo.Note(RateSleep(wait.value, clock));
      slept := true;
    }

    /** What a lookup leaves unchanged, and how much it may add. */
    ghost predicate OnlyLookedUp(was: Tally, now: Tally) {
      && now.puts == was.puts && now.races == was.races && now.lastPut == was.lastPut
      && now.gets <= was.gets + 3 && now.rateSleeps <= was.rateSleeps + 1
    }

    /** What a lookup that has not ended leaves unchanged. */
    ghost predicate StillLooking(was: Tally, now: Tally) {
      OnlyLookedUp(was, now) && now.lookups == was.lookups && now.first == was.first
    }

    /** `_get_file_sha`: at most three GETs and one rate-limit sleep; it reports what the last answer says. */
    method GetFileSha(ghost content: Blob) returns (r: Lookup)
      requires Ready(content) && LookupDue(repo.Score())
      modifies repo
      ensures Ready(content)
      ensures repo.Mine().Then? && repo.Mine().last == Looked(r) && LookedAllowed(TallyOf(repo.Mine().before), r)
      ensures repo.Score().last == Some(Looked(r)) && repo.Score().latest == Some(r) && repo.Score().asking.NotAsked?
      ensures repo.Score().lookups == old(repo.Score().lookups) + 1
      ensures repo.Score().first == if old(repo.Score().first.Some?) then old(repo.Score().first) else Some(r)
      ensures OnlyLookedUp(old(repo.Score()), repo.Score())
    {
      r := QueryFileSha(content);
      repo.Note(Looked(r));
    }

    method QueryFileSha(ghost content: Blob) returns (r: Lookup)
      requires Ready(content) && LookupDue(repo.Score())
      modifies repo
      ensures Ready(content) && LookedAllowed(repo.Score(), r)
      ensures StillLooking(old(repo.Score()), repo.Score())
    {
      var trusted := EndpointTrusted();
      if !trusted {
        return Invalid;
      }
      var a := RequestTwice(content);
      if a.Has({404}) {
        return Missing;
      }
      if a.RateLimited() {
        var slept;
        slept, a := RequestAfterLimit(a, content);
        if !slept {
          return Aborted;
        }
      }
      r := Interpret(a);
    }

    /** The GET after a rate-limited one, unless the wait would outlast the cap. */
    method RequestAfterLimit(first: Answer, ghost content: Blob) returns (slept: bool, a: Answer)
      requires Ready(content) && WaitDue(repo.Score()) && repo.Score().Answered() == Some(first)
      requires repo.Score().asking in {Once(first), Again(first)}
      modifies repo
      ensures Ready(content) && StillLooking(old(repo.Score()), repo.Score())
      ensures repo.Score().gets <= old(repo.Score().gets) + 1
      ensures slept ==> repo.Score().asking == AfterWait(a)
      ensures !slept ==>
                && repo.Score().asking == old(repo.Score().asking)
                && repo.Score().last.Some? && repo.Score().last.value.TooLong?
    {
      ghost var seconds, now;
      slept, seconds, now := WaitForRateLimit(first, content);
      a := first;
      if slept {
        a := repo.Request();
      }
    }

    /** One GET, repeated once when it is answered with a transient 5xx. */
    method RequestTwice(ghost content: Blob) returns (a: Answer)
      requires Ready(content) && LookupDue(repo.Score())
      modifies repo
      ensures Ready(content) && repo.Score().Answered() == Some(a)
      ensures repo.Score().asking == Again(a) || (repo.Score().asking == Once(a) && !a.Transient())
      ensures StillLooking(old(repo.Score()), repo.Score())
      ensures repo.Score().gets <= old(repo.Score().gets) + 2
      ensures repo.Score().rateSleeps == old(repo.Score().rateSleeps)
    {
      a := repo.Request();
      if a.Transient() {
        repo.Note(ShortSleep);
        a := repo.Request();
      }
    }

    /** What a round of PUTs leaves unchanged, and how much it may add. */
    ghost predicate OnlyPut(was: Tally, now: Tally, n: nat) {
      && now.gets == was.gets && now.lookups == was.lookups && now.first == was.first && now.latest == was.latest
      && now.asking == was.asking
      && was.puts <= now.puts <= was.puts + n && now.rateSleeps <= was.rateSleeps + 1
      && was.races <= now.races
    }

    /** The second PUT that a rate-limited first one gets. Aborted: the wait would outlast the cap. */
    method RetryIfRateLimited(sha: Option<string>, content: Blob, first: Answer) returns (a: Answer, aborted: bool)
      requires Ready(content) && PutAllowed(repo.Score(), sha)
      requires repo.Score().EndsWithPut(first) && !repo.Score().RetriedAfterWait()
      modifies repo
      ensures Ready(content) && (!aborted ==> repo.Score().EndsWithPut(a))
      ensures OnlyPut(old(repo.Score()), repo.Score(), 1)
      ensures aborted ==> AbortedCall(repo.Score()) && a == first && a.RateLimited()
      ensures aborted ==>
                && repo.Score().last.value.TooLong?
                && !WithinCap(WaitSeconds(first, repo.Score().last.value.now))
      ensures !aborted && a.RateLimited() ==> repo.Score().RetriedAfterWait()
      ensures repo.Score().races + (if first.Has({422}) then 1 else 0) ==
              old(repo.Score().races) + if a.Has({422}) then 1 else 0
      ensures a.Transient() && !first.Transient() ==> repo.Score().puts == old(repo.Score().puts) + 1
    {
      a, aborted := first, false;
      if a.RateLimited() {
        ghost var seconds, now, applied;
        var slept;
        slept, seconds, now := WaitForRateLimit(a, content);
        if !slept {
          return a, true;
        }
        a, applied := repo.Store(sha, content);
      }
    }

    /** One PUT, repeated once when it is rate limited. */
    method PutWaiting(sha: Option<string>, content: Blob) returns (a: Answer, aborted: bool)
      requires Ready(content) && PutAllowed(repo.Score(), sha)
      requires repo.Score().EndsWithLookup() && PutDue(repo.Score())
      modifies repo
      ensures Ready(content) && (!aborted ==> repo.Score().EndsWithPut(a))
      ensures OnlyPut(old(repo.Score()), repo.Score(), 2) && repo.Score().puts > old(repo.Score().puts)
      ensures aborted ==> AbortedCall(repo.Score()) && a.RateLimited()
      ensures !aborted && a.RateLimited() ==> repo.Score().RetriedAfterWait()
      ensures repo.Score().races == old(repo.Score().races) + if a.Has({422}) then 1 else 0
    {
      ghost var applied;
      a, applied := repo.Store(sha, content);
      a, aborted := RetryIfRateLimited(sha, content, a);
    }

    /**
     `publish_file`. `content` is None when the text has no UTF-8 form. The contract speaks of the
     log only; what it means for the repository is said by the lemmas at the end of this module.
     */
    method PublishFile(content: Option<Blob>) returns (outcome: Outcome)
      requires repo.Valid() && repo.log == Start && GoodHash(repo.blobSha)
      modifies repo
      ensures repo.Valid() && repo.Score().WithinBounds()
      ensures content.None? ==> outcome == Returned(false) && repo.log == Start
      ensures content.Some? ==>
                && Disciplined(repo.Mine(), content.value)
                && Explained(repo.Score(), repo.blobSha(content.value), outcome)
                && (Shows(FirstGet(repo.Mine()), repo.blobSha(content.value)) ==>
                      repo.Score().puts == 0 && outcome == Returned(true))
    {
      if content.None? {
        return Returned(false);
      }
      var text := content.value;
      var looked := GetFileSha(text);
      FirstLookupSees(repo.Mine(), text);
      match looked {
        case Failed => return Returned(false);
        case Aborted => return RaisedAbort;
        case Invalid => return RaisedValueError;
        case Found(_) =>
        case Missing =>
      }
      if looked == Found(repo.blobSha(text)) {
        return Returned(true);
      }
      var sha := if looked.Found? then Some(looked.sha) else None;
      var trusted := EndpointTrusted();
      if !trusted {
        return RaisedValueError;
      }
      outcome := FirstRound(text, sha, looked.Found?);
      FirstLookupSees(repo.Mine(), text);
    }

    /** The first PUT of the call, repeated once when it is answered with a transient 5xx. */
    method PrimaryPut(text: Blob, sha: Option<string>) returns (a: Answer)
      requires Ready(text) && PutAllowed(repo.Score(), sha)
      requires repo.Score().EndsWithLookup() && repo.Score().puts == 0
      modifies repo
      ensures Ready(text) && repo.Score().EndsWithPut(a) && !repo.Score().RetriedAfterWait()
      ensures OnlyPut(old(repo.Score()), repo.Score(), 2) && repo.Score().rateSleeps == old(repo.Score().rateSleeps)
      ensures repo.Score().races == old(repo.Score().races) + if a.Has({422}) then 1 else 0
      ensures repo.Score().puts > if a.Transient() then 1 else 0
    {
      ghost var applied;
      a, applied := repo.Store(sha, text);
      if a.Transient() {
        repo.Note(ShortSleep);
        a, applied := repo.Store(sha, text);
      }
    }

    /** The primary PUT with its 5xx and rate-limit retries, then whatever its answer calls for. */
    method FirstRound(text: Blob, sha: Option<string>, existed: bool) returns (outcome: Outcome)
      requires Ready(text) && PutAllowed(repo.Score(), sha)
      requires repo.Score().first.Some? && existed == repo.Score().Existed()
      requires repo.Score().EndsWithLookup()
      requires repo.Score().lookups == 1 && repo.Score().puts == 0 && repo.Score().races == 0
      requires repo.Score().gets <= 3 && repo.Score().rateSleeps <= 1
      modifies repo
      ensures repo.Score().first == old(repo.Score().first)
      ensures Ready(text) && repo.Score().WithinBounds()
      ensures Explained(repo.Score(), repo.blobSha(text), outcome)
    {
      var a := PrimaryPut(text, sha);
      if a.NetworkError? {
        return Returned(false);
      }
      var aborted;
      a, aborted := RetryIfRateLimited(sha, text, a);
      if aborted {
        return RaisedAbort;
      }
      if a.NetworkError? {
        return Returned(false);
      }
      if a.Success() {
        return Returned(true);
      }
      if a.status == 409 {
        outcome := ResolveConflict(text, existed, a);
      } else {
        outcome := Finish(text, existed, a);
      }
    }

    /** The 409 loop: look the sha up again and retry, at most CONFLICT_RETRIES times. */
    method ResolveConflict(text: Blob, existed: bool, first: Answer) returns (outcome: Outcome)
      requires Ready(text) && repo.Score().first.Some? && existed == repo.Score().Existed()
      requires first.Has({409}) && repo.Score().EndsWithPut(first)
      requires repo.Score().lookups == 1 && 1 <= repo.Score().puts <= 3 && repo.Score().races == 0
      requires repo.Score().asking.NotAsked?
      requires repo.Score().gets <= 3 && repo.Score().rateSleeps <= 2
      modifies repo
      ensures repo.Score().first == old(repo.Score().first)
      ensures Ready(text) && repo.Score().WithinBounds()
      ensures Explained(repo.Score(), repo.blobSha(text), outcome)
    {
      var a := first;
      for attempt := 1 to CONFLICT_RETRIES + 1
        invariant Ready(text) && repo.Score().first.Some? && existed == repo.Score().Existed()
        invariant repo.Score().EndsWithPut(a) && a.Has({409}) && repo.Score().races == 0
        invariant repo.Score().first == old(repo.Score().first) && repo.Score().asking.NotAsked?
        invariant repo.Score().lookups == attempt && 1 <= repo.Score().puts <= 1 + 2 * attempt
        invariant repo.Score().gets <= 3 * attempt && repo.Score().rateSleeps <= 2 * attempt
      {
        var ended;
        ended, a := ConflictRetry(text, existed, a);
        if ended.Some? {
          return ended.value;
        }
        if a.status != 409 {
          outcome := Finish(text, existed, a);
          return;
        }
      }
      return Returned(false);
    }

    /** One pass of the 409 loop: how the call ended in it, or the answer it leaves. */
    method ConflictRetry(text: Blob, existed: bool, first: Answer) returns (ended: Option<Outcome>, a: Answer)
      requires Ready(text) && existed == repo.Score().Existed()
      requires first.Has({409}) && repo.Score().EndsWithPut(first) && LookupDue(repo.Score())
      requires repo.Score().puts >= 1 && repo.Score().first.Some? && repo.Score().lookups >= 1
      modifies repo
      ensures Ready(text)
      ensures ended.Some? ==> Explained(repo.Score(), repo.blobSha(text), ended.value)
      ensures ended.None? ==>
                && repo.Score().EndsWithPut(a) && a.Response? && !a.Success() && repo.Score().asking.NotAsked?
                && (a.RateLimited() ==> repo.Score().RetriedAfterWait())
                && repo.Score().races == old(repo.Score().races) + if a.Has({422}) then 1 else 0
      ensures repo.Score().lookups == old(repo.Score().lookups) + 1 && repo.Score().first == old(repo.Score().first)
      ensures ended.None? ==> repo.Score().puts > old(repo.Score().puts)
      ensures repo.Score().puts <= old(repo.Score().puts) + 2
      ensures repo.Score().gets <= old(repo.Score().gets) + 3
      ensures repo.Score().rateSleeps <= old(repo.Score().rateSleeps) + 2
    {
      a := first;
      var looked := GetFileSha(text);
      var sha := None;
      match looked {
        case Aborted => return Some(RaisedAbort), a;
        case Invalid => return Some(RaisedValueError), a;
        case Failed => return Some(Returned(false)), a;
        case Missing =>
          if existed {
            return Some(Returned(false)), a;
          }
        case Found(s) => sha := Some(s);
      }
      var aborted;
      a, aborted := PutWaiting(sha, text);
      ended := if aborted then Some(RaisedAbort)
               else if a.NetworkError? then Some(Returned(false))
               else if a.Success() then Some(Returned(true)) else None;
    }

    /** The tail of `publish_file`: 422 recovery, refused tokens, and every other non-success answer. */
    method Finish(text: Blob, existed: bool, a: Answer) returns (outcome: Outcome)
      requires Ready(text) && existed == repo.Score().Existed()
      requires repo.Score().EndsWithPut(a) && a.Response? && !a.Success() && !a.Has({409})
      requires repo.Score().asking.NotAsked?
      requires 1 <= repo.Score().lookups <= 3 && repo.Score().races == if a.Has({422}) then 1 else 0
      requires repo.Score().puts <= 7 && repo.Score().gets <= 9 && repo.Score().rateSleeps <= 6
      requires a.RateLimited() ==> repo.Score().RetriedAfterWait()
      requires a.Transient() ==> repo.Score().puts > 1
      requires repo.Score().puts >= 1 && repo.Score().first.Some?
      modifies repo
      ensures repo.Score().first == old(repo.Score().first)
      ensures Ready(text) && repo.Score().WithinBounds()
      ensures Explained(repo.Score(), repo.blobSha(text), outcome)
    {
      if a.status == 422 {
        // A lookup that fails here counts as no file.
        var looked := GetFileSha(text);
        var sha := None;
        match looked {
          case Aborted => return RaisedAbort;
          case Invalid => return RaisedValueError;
          case Found(s) => sha := Some(s);
          case _ =>
            if existed {
              return Returned(false);
            }
        }
        var second, aborted := PutWaiting(sha, text);
        return if aborted then RaisedAbort else Returned(second.Success());
      }
      if a.TokenRefused() {
        return RaisedAbort;
      }
      return Returned(false);
    }
  }

  // ---- what a disciplined call means for the repository ----

  /** The file had exactly this content at some moment of the log. */
  ghost predicate Held(start: Option<Blob>, log: Log, content: Blob) {
    FileAfter(start, log) == Some(content) || (log.Then? && Held(start, log.before, content))
  }

  /** What the latest GET of the log looked at. */
  ghost function LastSeen(start: Option<Blob>, log: Log): Option<Blob> {
    match log
    case Start => None
    case Then(p, Get(_)) => FileAfter(start, p)
    case Then(p, _) => LastSeen(start, p)
  }

  ghost predicate IsPrefix(p: Log, log: Log) {
    p == log || (log.Then? && IsPrefix(p, log.before))
  }

  lemma {:induction false} DisciplinedPrefix(p: Log, log: Log, content: Blob)
    requires IsPrefix(p, log) && Disciplined(Calls(log), content)
    ensures Disciplined(Calls(p), content)
  {
    if p != log {
      DisciplinedPrefix(p, log.before, content);
    }
  }

  lemma {:induction false} LegalPrefix(blobSha: Blob -> string, start: Option<Blob>, p: Log, log: Log)
    requires IsPrefix(p, log) && Legal(blobSha, start, log)
    ensures Legal(blobSha, start, p)
  {
    if p != log {
      LegalPrefix(blobSha, start, p, log.before);
    }
  }

  /** The last GET before the first PUT: the answer that the first lookup is left with. */
  ghost function FirstGet(calls: Log): Option<Answer> {
    match calls
    case Start => None
    case Then(p, Get(a)) => if TallyOf(p).puts == 0 then Some(a) else FirstGet(p)
    case Then(p, _) => FirstGet(p)
  }

  ghost predicate Shows(a: Option<Answer>, s: string) {
    a.Some? && a.value.HoldsSha() && a.value.body.sha == s
  }

  ghost predicate ShowsFile(a: Option<Answer>) {
    a.Some? && a.value.HoldsSha()
  }

  /** What the tally knows of the answers to the GETs. */
  ghost predicate TalliesGets(t: Tally, firstGet: Option<Answer>) {
    && (!t.asking.NotAsked? ==> t.lastGet == Some(t.asking.answer))
    && (t.first.Some? <==> t.lookups > 0)
    && (t.lookups == 0 ==> t.puts == 0 && t.lastGet == firstGet && (t.asking.NotAsked? ==> firstGet.None?))
    && (t.lookups > 0 && !t.asking.NotAsked? ==> t.puts > 0)
    && (t.last.Some? && t.last.value.Put? ==> t.puts > 0)
  }

  lemma {:induction false} GetsAreTallied(calls: Log, content: Blob)
    requires Disciplined(calls, content)
    ensures TalliesGets(TallyOf(calls), FirstGet(calls))
  {
    if calls.Then? {
      GetsAreTallied(calls.before, content);
    }
  }

  /** The first lookup reports the file exactly when the first GET, its repetitions included, showed it. */
  lemma {:induction false} FirstLookupSees(calls: Log, content: Blob)
    requires Disciplined(calls, content) && TallyOf(calls).first.Some?
    ensures TallyOf(calls).Existed() <==> ShowsFile(FirstGet(calls))
    ensures forall s :: TallyOf(calls).first == Some(Found(s)) <==> Shows(FirstGet(calls), s)
  {
    GetsAreTallied(calls.before, content);
    if TallyOf(calls.before).first.Some? {
      FirstLookupSees(calls.before, content);
    }
  }

  /** A sha in the latest GET is the sha of the file that GET looked at, which the path did hold. */
  lemma {:induction false} GetSawFile(blobSha: Blob -> string, start: Option<Blob>, log: Log, s: string)
    requires Legal(blobSha, start, log)
    requires Shows(TallyOf(Calls(log)).lastGet, s)
    ensures LastSeen(start, log).Some? && blobSha(LastSeen(start, log).value) == s
    ensures Held(start, log, LastSeen(start, log).value)
  {
    if !log.last.Get? {
      GetSawFile(blobSha, start, log.before, s);
    }
  }

  /** A sha that the latest lookup reported was read by the latest GET. */
  lemma {:induction false} LookupSawFile(
    blobSha: Blob -> string, start: Option<Blob>, log: Log, content: Blob, s: string)
    requires Legal(blobSha, start, log) && Disciplined(Calls(log), content)
    requires TallyOf(Calls(log)).latest == Some(Found(s)) && TallyOf(Calls(log)).asking.NotAsked?
    ensures LastSeen(start, log).Some? && blobSha(LastSeen(start, log).value) == s
  {
    match log.last
    case Looked(_) =>
      GetsAreTallied(Calls(log.before), content);
      GetSawFile(blobSha, start, log.before, s);
    case Get(_) =>
    case _ => LookupSawFile(blobSha, start, log.before, content, s);
  }

  /** `publish_file` returns True only if the repository held the content during the call. */
  lemma {:induction false} TrueMeansHeld(blobSha: Blob -> string, start: Option<Blob>, log: Log, content: Blob)
    requires GoodHash(blobSha) && Legal(blobSha, start, log) && Disciplined(Calls(log), content)
    requires Explained(TallyOf(Calls(log)), blobSha(content), Returned(true))
    ensures Held(start, log, content)
  {
    match log.last
    case Commit(_) => TrueMeansHeld(blobSha, start, log.before, content);
    case Looked(_) =>
      GetsAreTallied(Calls(log.before), content);
      GetSawFile(blobSha, start, log.before, blobSha(content));
    case _ =>
  }

  /** The first GET of the call is that of any part of it that a PUT follows. */
  lemma {:induction false} FirstGetIsBeforePut(log: Log, content: Blob, p: Log, e: Event)
    requires Disciplined(Calls(log), content) && IsPrefix(Then(p, e), log) && e.Put?
    ensures FirstGet(Calls(log)) == FirstGet(Calls(p)) && TallyOf(Calls(log)).puts > 0
    ensures TallyOf(Calls(p)).first.Some?
  {
    if Then(p, e) == log {
      GetsAreTallied(Calls(p), content);
    } else {
      FirstGetIsBeforePut(log.before, content, p, e);
    }
  }

  /**
   No update is lost: an applied PUT that replaces a file carries its sha, and replaces exactly
   what the latest GET looked at; without a sha it creates the file where there is none. When the
   first GET saw the file, no PUT of the call creates it again.
   */
  lemma {:induction false} NoLostUpdate(
    blobSha: Blob -> string, start: Option<Blob>, log: Log, content: Blob, p: Log, sha: Option<string>, c: Blob,
    a: Answer)
    requires GoodHash(blobSha) && Legal(blobSha, start, log) && Disciplined(Calls(log), content)
    requires IsPrefix(Then(p, Put(sha, c, true, a)), log)
    ensures c == content
    ensures match FileAfter(start, p)
            case Some(b) => sha == Some(blobSha(b)) && LastSeen(start, p) == Some(b)
            case None => sha == None
    ensures ShowsFile(FirstGet(Calls(log))) ==> FileAfter(start, p).Some?
  {
    LegalPrefix(blobSha, start, Then(p, Put(sha, c, true, a)), log);
    DisciplinedPrefix(Then(p, Put(sha, c, true, a)), log, content);
    if sha.Some? {
      LookupSawFile(blobSha, start, p, content, sha.value);
    }
    FirstGetIsBeforePut(log, content, p, Put(sha, c, true, a));
    FirstLookupSees(Calls(p), content);
  }

  /** Once the first GET saw the file, only a competing commit can bring a deleted file back. */
  lemma {:induction false} NeverResurrects(
    blobSha: Blob -> string, start: Option<Blob>, log: Log, content: Blob, p: Log, e: Event)
    requires GoodHash(blobSha) && Legal(blobSha, start, log) && Disciplined(Calls(log), content)
    requires IsPrefix(Then(p, e), log) && ShowsFile(FirstGet(Calls(log)))
    requires FileAfter(start, p).None? && FileAfter(start, Then(p, e)).Some?
    ensures e.Commit?
  {
    if e.Put? && e.applied {
      NoLostUpdate(blobSha, start, log, content, p, e.sha, e.content, e.answer);
    }
  }

  /**
   Every PUT of the call carries a sha once the first GET saw the file, applied or not.
   */
  lemma {:induction false} ExistingFileIsUpdated(log: Log, content: Blob, p: Log, e: Event)
    requires Disciplined(Calls(log), content) && IsPrefix(Then(p, e), log) && e.Put?
    requires ShowsFile(FirstGet(Calls(log)))
    ensures e.sha.Some?
  {
    DisciplinedPrefix(Then(p, e), log, content);
    FirstGetIsBeforePut(log, content, p, e);
    FirstLookupSees(Calls(p), content);
  }

  // ---- what False tells the caller ----

  /** What the caller knows of its calls: everything but whether a PUT was applied. */
  ghost function Unapplied(calls: Log): Log {
    match calls
    case Start => Start
    case Then(p, Put(s, c, _, a)) => Then(Unapplied(p), Put(s, c, false, a))
    case Then(p, e) => Then(Unapplied(p), e)
  }

  ghost predicate Published(log: Log) {
    log.Then? && (Published(log.before) || (log.last.Put? && log.last.applied))
  }

  /** The server applies no PUT under an answer of this kind, say a 4xx. */
  ghost predicate Refuses(refusal: Answer -> bool, log: Log) {
    log.Then? ==> Refuses(refusal, log.before) && (log.last.Put? && log.last.applied ==> !refusal(log.last.answer))
  }

  ghost predicate AllRefused(refusal: Answer -> bool, calls: Log) {
    calls.Then? ==> AllRefused(refusal, calls.before) && (calls.last.Put? ==> refusal(calls.last.answer))
  }

  lemma {:induction false} RefusedAlike(refusal: Answer -> bool, calls: Log)
    ensures AllRefused(refusal, Unapplied(calls)) <==> AllRefused(refusal, calls)
  {
    if calls.Then? {
      RefusedAlike(refusal, calls.before);
    }
  }

  lemma {:induction false} RefusedIsNotPublished(refusal: Answer -> bool, log: Log)
    requires Refuses(refusal, log) && AllRefused(refusal, Calls(log))
    ensures !Published(log)
  {
    if log.Then? {
      RefusedIsNotPublished(refusal, log.before);
    }
  }

  /**
   The same calls with the same answers in a repository where every PUT that was not refused is applied:
   before each event a competing commit puts the file into the state that the event needs.
   */
  ghost function Twin(start: Option<Blob>, refusal: Answer -> bool, log: Log): Log {
    match log
    case Start => Start
    case Then(p, Commit(_)) => Twin(start, refusal, p)
    case Then(p, Put(s, c, _, a)) =>
      var file := if s.Some? then LastSeen(start, p) else None;
      Then(Then(Twin(start, refusal, p), Commit(file)), Put(s, c, !refusal(a), a))
    case Then(p, e) => Then(Then(Twin(start, refusal, p), Commit(FileAfter(start, p))), e)
  }

  lemma {:induction false} TwinIsLegal(
    blobSha: Blob -> string, start: Option<Blob>, refusal: Answer -> bool, log: Log, content: Blob)
    requires Legal(blobSha, start, log) && Disciplined(Calls(log), content)
    requires forall a :: refusal(a) ==> !a.Success()
    ensures Legal(blobSha, start, Twin(start, refusal, log)) && Refuses(refusal, Twin(start, refusal, log))
  {
    if log.Then? {
      TwinIsLegal(blobSha, start, refusal, log.before, content);
      if log.last.Put? && log.last.sha.Some? {
        LookupSawFile(blobSha, start, log.before, content, log.last.sha.value);
      }
    }
  }

  lemma {:induction false} TwinLooksTheSame(start: Option<Blob>, refusal: Answer -> bool, log: Log)
    ensures Unapplied(Calls(Twin(start, refusal, log))) == Unapplied(Calls(log))
    ensures Published(Twin(start, refusal, log)) <==> !AllRefused(refusal, Calls(log))
  {
    if log.Then? {
      TwinLooksTheSame(start, refusal, log.before);
    }
  }

  /**
   When a call that ended in False, or in any other way, proves that nothing was published: exactly when
   every PUT was answered with a refusal, whatever answers the server is trusted to give only when it has
   applied nothing.
   */
  lemma FalseProvesNothingIff(
    blobSha: Blob -> string, start: Option<Blob>, refusal: Answer -> bool, log: Log, content: Blob)
    requires Legal(blobSha, start, log) && Disciplined(Calls(log), content)
    requires forall a :: refusal(a) ==> !a.Success()
    ensures AllRefused(refusal, Calls(log)) <==>
            forall l ::
              Legal(blobSha, start, l) && Refuses(refusal, l) && Unapplied(Calls(l)) == Unapplied(Calls(log)) ==>
                !Published(l)
  {
    TwinIsLegal(blobSha, start, refusal, log, content);
    TwinLooksTheSame(start, refusal, log);
    RefusedAlike(refusal, Calls(log));
    if AllRefused(refusal, Calls(log)) {
      forall l | Legal(blobSha, start, l) && Refuses(refusal, l) && Unapplied(Calls(l)) == Unapplied(Calls(log))
        ensures !Published(l)
      {
        RefusedAlike(refusal, Calls(l));
        RefusedIsNotPublished(refusal, l);
      }
    }
  }

  /** A server that may have applied a PUT whatever it answers. */
  function NoRefusal(): Answer -> bool {
    (_: Answer) => false
  }

  lemma {:induction false} NothingRefusedIff(calls: Log)
    ensures AllRefused(NoRefusal(), calls) <==> TallyOf(calls).puts == 0
  {
    if calls.Then? {
      NothingRefusedIff(calls.before);
    }
  }

  lemma {:induction false} NothingRefuses(log: Log)
    ensures Refuses(NoRefusal(), log)
  {
    if log.Then? {
      NothingRefuses(log.before);
    }
  }

  /** Of a server that is trusted with no refusal, only a call without a PUT tells: no answer to a PUT does. */
  lemma FalseProvesNothingIffNoPut(blobSha: Blob -> string, start: Option<Blob>, log: Log, content: Blob)
    requires Legal(blobSha, start, log) && Disciplined(Calls(log), content)
    ensures TallyOf(Calls(log)).puts == 0 <==>
            forall l :: Legal(blobSha, start, l) && Unapplied(Calls(l)) == Unapplied(Calls(log)) ==> !Published(l)
  {
    FalseProvesNothingIff(blobSha, start, NoRefusal(), log, content);
    NothingRefusedIff(Calls(log));
    forall l: Log
      ensures Refuses(NoRefusal(), l)
    {
      NothingRefuses(l);
    }
  }

  /**
   False is no proof that nothing was published: a 5xx answer can hide an applied PUT, and the
   retry can fail on the network.
   */
  lemma FalseMayHavePublished(blobSha: Blob -> string, content: Blob) returns (log: Log)
    requires GoodHash(blobSha)
    ensures Legal(blobSha, None, log) && Disciplined(Calls(log), content)
    ensures Explained(TallyOf(Calls(log)), blobSha(content), Returned(false))
    ensures FileAfter(None, log) == Some(content)
  {
    var l1 := NothingThere(blobSha, content);
    var busy := Response(502, NoRetryAfter, false, None, NoSha);
    var l2 := Then(Then(l1, Put(None, content, true, busy)), ShortSleep);
    log := Then(l2, Put(None, content, false, NetworkError));
    assert TallyOf(l2) == Add(Add(TallyOf(l1), Put(None, content, true, busy)), ShortSleep);
    assert FileAfter(None, l2.before) == Some(content) && FileAfter(None, l2) == Some(content);
    assert Calls(l2.before) == l2.before && Calls(l2) == l2 && Calls(log) == log;
    assert Disciplined(l2.before, content) && Disciplined(l2, content);
    assert Legal(blobSha, None, l2.before);
  }

  /** A first lookup that finds no file. */
  lemma NothingThere(blobSha: Blob -> string, content: Blob) returns (log: Log)
    ensures Legal(blobSha, None, log) && FileAfter(None, log) == None && Calls(log) == log
    ensures Disciplined(log, content)
    ensures var t := TallyOf(log);
            && t.puts == 0 && t.lookups == 1 && t.races == 0 && t.asking.NotAsked?
            && t.first == Some(Missing) && t.latest == Some(Missing) && t.last == Some(Looked(Missing))
  {
    var gone := Response(404, NoRetryAfter, false, None, NoSha);
    var asked := Then(Start, Get(gone));
    log := Then(asked, Looked(Missing));
    assert LookupDue(TallyOf(Start)) && StepAllowed(TallyOf(Start), Get(gone), content);
    assert Calls(asked) == asked && Disciplined(asked, content) && Legal(blobSha, None, asked);
    assert TallyOf(asked) == Add(TallyOf(Start), Get(gone));
  }
}
