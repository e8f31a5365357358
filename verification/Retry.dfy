/** client.go: the retry loops that open a stream, run an embedding and run a completion. */
module RetryLoops {
  import opened Utf8
  import opened Ledger
  import opened Options
  import opened Streams

  datatype Config = Config(retryCount: int, fallbackEnabled: bool)

  /** Passes a retry loop makes at most. */
  function Tries(config: Config): nat {
    if config.retryCount >= 0 then config.retryCount + 1 else 0
  }

  datatype Response =
    | TransportError
    | Response(status: int, retryable: bool, body: Body)

  /** What one pass of a retry loop meets. */
  datatype Trial = Trial(
    cancelled: bool,           // the context ends during the back-off
    pick: Option<Deployment>,  // the router's choice
    providerKnown: bool,
    embeds: bool,              // the provider supports embeddings
    priced: bool,
    permit: bool,
    builds: bool,
    response: Response,
    parses: bool)

  datatype Failure = LLMError(retryable: bool) | OtherError

  // ---------------------------------------------------------------- when a loop succeeds

  /** What one attempt on a deployment comes to. */
  datatype Stage = Passes | Fails | Stops

  /** Attempt `a` has a deployment to run on: the router's choice, or without fallback an earlier one. */
  ghost predicate HasTarget(config: Config, trials: nat -> Trial, a: nat) {
    trials(a).pick.Some? || (!config.fallbackEnabled && exists b :: 0 <= b < a && trials(b).pick.Some?)
  }

  ghost function StreamStage(trial: Trial): Stage {
    if !trial.providerKnown then Fails
    else if !trial.priced then Stops
    else if !trial.permit then Fails
    else if !trial.builds then Stops
    else if trial.response.TransportError? then Fails
    else if trial.response.status < 400 then Passes
    else if trial.response.status >= 500 || trial.response.retryable then Fails
    else Stops
  }

  ghost function RequestStage(trial: Trial): Stage {
    if !trial.priced then Stops
    else if !trial.permit || !trial.builds || trial.response.TransportError? then Fails
    else if trial.response.status >= 400 then if trial.response.retryable then Fails else Stops
    else if trial.parses then Passes
    else Fails
  }

  datatype Loop = OpenStream | Embed | Complete

  /** What attempt `a` of a loop comes to, if it is reached. */
  ghost function StageAt(loop: Loop, config: Config, trials: nat -> Trial, a: nat): Stage {
    match loop
    case OpenStream => if HasTarget(config, trials, a) then StreamStage(trials(a)) else Fails
    case Embed =>
      if HasTarget(config, trials, a) && trials(a).providerKnown && trials(a).embeds then RequestStage(trials(a))
      else Fails
    case Complete => RequestStage(trials(a))
  }

  /** The first `n` attempts failed, each after a wait that was not cancelled. */
  ghost predicate AllFailed(loop: Loop, config: Config, trials: nat -> Trial, n: nat) {
    forall b: nat | b < n :: StageAt(loop, config, trials, b) == Fails && (b > 0 ==> !trials(b).cancelled)
  }

  ghost predicate PassesAt(loop: Loop, config: Config, trials: nat -> Trial, a: nat) {
    && AllFailed(loop, config, trials, a) && (a > 0 ==> !trials(a).cancelled)
    && StageAt(loop, config, trials, a) == Passes
  }

  /** Some attempt passes, and all before it failed without ending the loop. */
  ghost predicate SomePass(loop: Loop, config: Config, trials: nat -> Trial) {
    exists a: nat :: a <= config.retryCount && PassesAt(loop, config, trials, a)
  }

  /** A loop that ends at attempt `n` without success was never going to have any. */
  lemma NoPass(loop: Loop, config: Config, trials: nat -> Trial, n: nat)
    requires AllFailed(loop, config, trials, n)
    requires n > config.retryCount || (n > 0 && trials(n).cancelled) || StageAt(loop, config, trials, n) == Stops
    ensures !SomePass(loop, config, trials)
  {
    forall a: nat | a <= config.retryCount
      ensures !PassesAt(loop, config, trials, a)
    {
      assert a < n ==> StageAt(loop, config, trials, a) == Fails;
    }
  }

  // ---------------------------------------------------------------- which deployments a loop uses

  /** The deployment a stream or embedding loop stands on after `n` attempts: the latest choice of the router with
      fallback, the first without. */
  ghost function Standing(config: Config, trials: nat -> Trial, n: nat): Option<Deployment> {
    if n == 0 then None
    else
      var before, pick := Standing(config, trials, n - 1), trials(n - 1).pick;
      if pick.Some? && (config.fallbackEnabled || before.None?) then pick else before
  }

  /** The deployment a completion uses at a given attempt: it changes when fallback is on and
      the router names another one after a failed attempt. */
  function DeploymentAt(config: Config, first: Deployment, trials: nat -> Trial, attempt: nat): Deployment {
    if attempt == 0 then first
    else
      var before := DeploymentAt(config, first, trials, attempt - 1);
      var pick := trials(attempt - 1).pick;
      if config.fallbackEnabled && pick.Some? && pick.value.id != before.id then pick.value else before
  }

  /** The deployment attempt `a` of a stream or embedding loop runs on, if it has one. */
  ghost function TargetAt(config: Config, trials: nat -> Trial, a: nat): Option<Deployment> {
    if HasTarget(config, trials, a) then Standing(config, trials, a + 1) else None
  }

  lemma {:induction false} StandsOnSome(config: Config, trials: nat -> Trial, n: nat)
    ensures Standing(config, trials, n).Some? <==> exists b: nat :: b < n && trials(b).pick.Some?
  {
    if n > 0 {
      StandsOnSome(config, trials, n - 1);
    }
  }

  /** `b` is the latest attempt before `n` at which the router named a deployment. */
  ghost predicate LatestPick(trials: nat -> Trial, n: nat, b: nat) {
    b < n && trials(b).pick.Some? && forall c: nat :: b < c < n ==> trials(c).pick.None?
  }

  ghost predicate FirstPick(trials: nat -> Trial, n: nat, b: nat) {
    b < n && trials(b).pick.Some? && forall c: nat :: c < b ==> trials(c).pick.None?
  }

  /** With fallback a loop stands on the latest choice of the router, without on the first. */
  lemma {:induction false} StandsOnPick(config: Config, trials: nat -> Trial, n: nat, b: nat)
    requires if config.fallbackEnabled then LatestPick(trials, n, b) else FirstPick(trials, n, b)
    ensures Standing(config, trials, n) == trials(b).pick
  {
    if b < n - 1 {
      StandsOnPick(config, trials, n - 1, b);
    } else if !config.fallbackEnabled {
      StandsOnSome(config, trials, b);
    }
  }

  /** An attempt runs on what the router named for it, or without fallback on what the router named first. */
  lemma RunsOnPick(config: Config, trials: nat -> Trial, a: nat, b: nat)
    requires HasTarget(config, trials, a) && (if config.fallbackEnabled then b == a else FirstPick(trials, a + 1, b))
    ensures TargetAt(config, trials, a) == trials(b).pick
  {
    StandsOnPick(config, trials, a + 1, b);
  }

  /** With fallback a completion is on what the router named last, if it named any, without on the first deployment. */
  lemma {:induction false} CompletesOnPick(config: Config, first: Deployment, trials: nat -> Trial, a: nat, b: nat)
    ensures !config.fallbackEnabled || (forall c: nat :: c < a ==> trials(c).pick.None?) ==>
      DeploymentAt(config, first, trials, a) == first
    ensures config.fallbackEnabled && LatestPick(trials, a, b) ==>
      DeploymentAt(config, first, trials, a).id == trials(b).pick.value.id
  {
    if a > 0 {
      CompletesOnPick(config, first, trials, a - 1, b);
    }
  }

  /** The reports of attempt `a` on `at`, where the loop stood on `before`: one exactly if it is another deployment. */
  ghost function Report(model: string, before: Option<Deployment>, at: Option<Deployment>, ok: bool): seq<Event> {
    if before.Some? && at.Some? && before.value.id != at.value.id
    then [FallbackReported(model, at.value.modelName, ok)] else []
  }

  /** What the first `n` attempts report. */
  ghost function Reports(loop: Loop, config: Config, model: string, trials: nat -> Trial, n: nat): seq<Event>
    requires loop != Complete
  {
    if n == 0 then []
    else
      var a := n - 1;
      Reports(loop, config, model, trials, a) +
      Report(model, Standing(config, trials, a), TargetAt(config, trials, a),
             StageAt(loop, config, trials, a) == Passes)
  }

  ghost function CompletionReports(config: Config, model: string, first: Deployment, trials: nat -> Trial, n: nat)
    : seq<Event>
  {
    if n == 0 then []
    else
      var a := n - 1;
      var before := if a == 0 then None else Some(DeploymentAt(config, first, trials, a - 1));
      CompletionReports(config, model, first, trials, a) +
      Report(model, before, Some(DeploymentAt(config, first, trials, a)),
             StageAt(Complete, config, trials, a) == Passes)
  }

  /** The attempt gets as far as sending its request. */
  ghost predicate Sends(loop: Loop, trial: Trial) {
    && trial.priced && trial.permit && trial.builds && (loop == Complete || trial.providerKnown)
    && (loop == Embed ==> trial.embeds)
  }

  /** The deployments the first `n` attempts send requests to. */
  ghost function Sent(loop: Loop, config: Config, trials: nat -> Trial, n: nat): seq<Deployment>
    requires loop != Complete
  {
    if n == 0 then []
    else
      var at := TargetAt(config, trials, n - 1);
      Sent(loop, config, trials, n - 1) + if at.Some? && Sends(loop, trials(n - 1)) then [at.value] else []
  }

  ghost function CompletionsSent(config: Config, first: Deployment, trials: nat -> Trial, n: nat): seq<Deployment> {
    if n == 0 then []
    else
      CompletionsSent(config, first, trials, n - 1) +
      if Sends(Complete, trials(n - 1)) then [DeploymentAt(config, first, trials, n - 1)] else []
  }

  /** Attempt `a` is reached: all before it failed, and the waits were not cancelled. */
  ghost predicate ReachedAt(loop: Loop, config: Config, trials: nat -> Trial, a: nat) {
    a <= config.retryCount && AllFailed(loop, config, trials, a) && (a > 0 ==> !trials(a).cancelled)
  }

  /** Exactly the first `n` attempts are reached. */
  ghost predicate Reaches(loop: Loop, config: Config, trials: nat -> Trial, n: nat) {
    forall a: nat :: a < n <==> ReachedAt(loop, config, trials, a)
  }

  /** After an error answer a loop goes on exactly if the error is retryable or, when opening a stream, the status is
      500 or more. */
  lemma ErrorGoesOnIff(loop: Loop, config: Config, trials: nat -> Trial, a: nat)
    requires ReachedAt(loop, config, trials, a) && (loop != Complete ==> HasTarget(config, trials, a))
    requires Sends(loop, trials(a)) && trials(a).response.Response? && trials(a).response.status >= 400
    requires a < config.retryCount && !trials(a + 1).cancelled
    ensures ReachedAt(loop, config, trials, a + 1) <==>
      trials(a).response.retryable || (loop == OpenStream && trials(a).response.status >= 500)
  {
    assert ReachedAt(loop, config, trials, a + 1) <==> StageAt(loop, config, trials, a) == Fails;
  }

  lemma ReachesTo(loop: Loop, config: Config, trials: nat -> Trial, n: nat)
    requires AllFailed(loop, config, trials, n) && n <= Tries(config)
    requires n > config.retryCount || (n > 0 && trials(n).cancelled)
    ensures Reaches(loop, config, trials, n)
  {
  }

  lemma ReachesLast(loop: Loop, config: Config, trials: nat -> Trial, n: nat)
    requires ReachedAt(loop, config, trials, n) && StageAt(loop, config, trials, n) != Fails
    ensures Reaches(loop, config, trials, n + 1)
  {
  }

  // ---------------------------------------------------------------- writing the log

  /** The log after one more event. */
  ghost method Note(log: seq<Event>, e: Event) returns (longer: seq<Event>)
    ensures Open(Request, longer) == Entry(Request, Open(Request, log), e)
    ensures Open(Permit, longer) == Entry(Permit, Open(Permit, log), e)
    ensures Fallbacks(longer) == FallbackEntry(Fallbacks(log), e)
    ensures Puts(longer) == Puts(log) + if e == PutContext then 1 else 0
    ensures Successes(longer) == Successes(log) + if e == Attempted(true) then 1 else 0
    ensures Begun(Request, longer) == Begun(Request, log) + if e.Begin? && e.kind == Request then 1 else 0
    ensures Asked(longer) == if e.Begin? && e.kind == Request then Asked(log) + [e.deployment] else Asked(log)
    ensures Reported(longer) == if e.FallbackReported? then Reported(log) + [e] else Reported(log)
  {
    Noted(log, e);
    longer := log + [e];
  }

  /** Both logs tell the same of fallbacks, outcomes and the plugin context. */
  ghost predicate SameStory(log: seq<Event>, longer: seq<Event>) {
    && Fallbacks(longer) == Fallbacks(log) && Puts(longer) == Puts(log) && Successes(longer) == Successes(log)
    && Reported(longer) == Reported(log)
  }

  ghost predicate NothingOpen(log: seq<Event>) {
    Open(Request, log) == Idle && Open(Permit, log) == Idle
  }

  ghost predicate InUse(log: seq<Event>, deployment: Deployment) {
    Open(Request, log) == Busy(deployment) && Open(Permit, log) == Busy(deployment)
  }

  /** A switch recorded by a retry loop and not reported yet. */
  datatype FallbackAttempt = FallbackAttempt(originalModel: string, fallbackModel: string)

  ghost predicate Awaits(log: seq<Event>, pending: Option<FallbackAttempt>) {
    match pending
    case None => Fallbacks(log) == Settled
    case Some(f) => Fallbacks(log) == Pending(f.originalModel, f.fallbackModel)
  }

  /** Ends an attempt, and reports the fallback it was, if it was one. */
  method Conclude(pending: Option<FallbackAttempt>, ok: bool, ghost log: seq<Event>) returns (ghost longer: seq<Event>)
    requires Awaits(log, pending)
    ensures Fallbacks(longer) == Settled
    ensures Open(Request, longer) == Open(Request, log) && Open(Permit, longer) == Open(Permit, log)
    ensures Begun(Request, longer) == Begun(Request, log)
    ensures Puts(longer) == Puts(log) && Successes(longer) == Successes(log) + if ok then 1 else 0
    ensures Asked(longer) == Asked(log)
    ensures Reported(longer) == Reported(log) +
      match pending case None => [] case Some(f) => [FallbackReported(f.originalModel, f.fallbackModel, ok)]
  {
    longer := Note(log, Attempted(ok));
    if pending.Some? {
      longer := Note(longer, FallbackReported(pending.value.originalModel, pending.value.fallbackModel, ok));
    }
  }

  /** The deployment of an attempt: the router's choice, or without fallback the one from before. A change after an
      error is a switch, to be reported. */
  method Route(config: Config, model: string, trial: Trial, deployment: Option<Deployment>, lastErr: bool,
               ghost log: seq<Event>)
    returns (target: Deployment, pending: Option<FallbackAttempt>, ghost longer: seq<Event>)
    requires Fallbacks(log) == Settled && (deployment.Some? ==> lastErr)
    requires config.fallbackEnabled || deployment.None? ==> trial.pick.Some?
    ensures target ==
      if config.fallbackEnabled || deployment.None? then trial.pick.value else deployment.value
    ensures pending ==
      if deployment.Some? && target.id != deployment.value.id then Some(FallbackAttempt(model, target.modelName))
      else None
    ensures Awaits(longer, pending)
    ensures Open(Request, longer) == Open(Request, log) && Open(Permit, longer) == Open(Permit, log)
    ensures Begun(Request, longer) == Begun(Request, log)
    ensures Puts(longer) == Puts(log) && Successes(longer) == Successes(log)
    ensures Asked(longer) == Asked(log) && Reported(longer) == Reported(log)
  {
    longer, pending := log, None;
    if deployment.Some? && !config.fallbackEnabled {
      return deployment.value, pending, longer;
    }
    target := trial.pick.value;
    if deployment.Some? && target.id != deployment.value.id {
      longer := Note(longer, Switched(model, target.modelName));
      if lastErr {
        pending := Some(FallbackAttempt(model, target.modelName));
      }
    }
  }

  // ---------------------------------------------------------------- opening a stream

  datatype Outcome = TryAgain | GiveUp | Streaming(body: Body)

  /** One attempt to open a stream on `target`. */
  method AttemptStream(trial: Trial, target: Deployment, ghost log: seq<Event>)
    returns (outcome: Outcome, ghost longer: seq<Event>)
    requires NothingOpen(log)
    ensures SameStory(log, longer) && Begun(Request, longer) <= Begun(Request, log) + 1
    ensures if outcome.Streaming? then InUse(longer, target) else NothingOpen(longer)
    ensures outcome.Streaming? ==> trial.response.Response? && outcome.body == trial.response.body
    ensures StreamStage(trial) == match outcome case Streaming(_) => Passes case GiveUp => Stops case TryAgain => Fails
    ensures Asked(longer) == if Sends(OpenStream, trial) then Asked(log) + [target] else Asked(log)
    ensures outcome.Streaming? <==>
      Sends(OpenStream, trial) && trial.response.Response? && trial.response.status < 400
    ensures outcome == GiveUp <==>
      && trial.providerKnown
      && (|| !trial.priced || (trial.permit && !trial.builds)
          || (&& trial.permit && trial.response.Response? && 400 <= trial.response.status < 500
              && !trial.response.retryable))
  {
    longer := log;
    if !trial.providerKnown {
      return TryAgain, longer;
    }
    if !trial.priced {
      return GiveUp, longer;
    }
    if !trial.permit {
      return TryAgain, longer;
    }
    longer := Note(longer, Begin(Permit, target));
    if !trial.builds {
      longer := Note(longer, End(Permit, target));
      return GiveUp, longer;
    }
    longer := Note(longer, Begin(Request, target));
    if trial.response.Response? && trial.response.status < 400 {
      return Streaming(trial.response.body), longer;
    }
    longer := Note(longer, End(Permit, target));
    longer := Note(longer, End(Request, target));
    if trial.response.TransportError? || trial.response.status >= 500 || trial.response.retryable {
      return TryAgain, longer;
    }
    return GiveUp, longer;
  }

  /** What the stream reader of an open stream is given. */
  datatype Reading = Reading(
    mode: Mode, maxBytes: int, waits: bool, upstream: (nat, seq<Byte>) -> Attempt, cancelAt: Option<nat>)

  /** Every body, of an opening attempt or a recovery, replays `text`. */
  ghost predicate AllReplay(trials: nat -> Trial, reading: Reading, text: seq<Byte>) {
    && reading.mode != Other
    && EveryRecoveryReplays(reading.mode, reading.maxBytes, reading.upstream, text)
    && (forall a :: trials(a).response.Response? ==> Replays([], trials(a).response.body.lines, text))
  }

  /** Opens a stream: a reader on success, null when every attempt failed or one failed for good. Which attempts are
      `reached`, where they send their requests and which switches they report follows from the picks. */
  method ChatCompletionStream(config: Config, model: string, rateLimited: bool, trials: nat -> Trial,
                              reading: Reading, ghost text: seq<Byte>)
    returns (reader: StreamReader?, ghost log: seq<Event>, ghost reached: nat)
    ensures reader != null <==> !rateLimited && SomePass(OpenStream, config, trials)
    ensures reader != null && AllReplay(trials, reading, text) ==> reader.exact
    ensures Fallbacks(log) == Settled
    ensures Successes(log) == if reader != null then 1 else 0
    ensures if rateLimited then reached == 0 else Reaches(OpenStream, config, trials, reached)
    ensures Accounted(OpenStream, config, model, trials, reached, log)
    ensures reader == null ==> NothingOpen(log) && Puts(log) == 1
    ensures reader != null ==>
      && fresh(reader) && reader.Ready() && !reader.closed && reader.delivered == [] && reader.retryCount == 0
      && reader.log == log && Puts(log) == 0 && reader.text == text
      && reader.maxRetries == config.retryCount && reader.begunBefore == Begun(Request, log)
      && reader.lines == reader.first && reader.Skip() == 0
      && reached > 0 && PassesAt(OpenStream, config, trials, reached - 1)
      && TargetAt(config, trials, reached - 1) == Some(reader.deployment)
      && trials(reached - 1).response.body.lines == reader.first
    ensures Begun(Request, log) <= Tries(config)
  {
    log, reader, reached := [], null, 0;
    if rateLimited {
      log := Note(log, PutContext);
      return;
    }
    var found;
    found, log, reached := OpenBody(config, model, trials);
    match found {
      case None =>
        log := Note(log, PutContext);
      case Some(o) =>
        reader := new StreamReader(reading.mode, config.retryCount, reading.maxBytes, reading.waits, reading.upstream,
                                   reading.cancelAt, o.body, o.target, log, text);
    }
  }

  datatype OpenedBody = OpenedBody(target: Deployment, body: Body)

  /** The log tells of the first `n` attempts which deployments they sent a request to and what they reported. */
  ghost predicate Accounted(loop: Loop, config: Config, model: string, trials: nat -> Trial, n: nat, log: seq<Event>)
    requires loop != Complete
  {
    Reported(log) == Reports(loop, config, model, trials, n) && Asked(log) == Sent(loop, config, trials, n)
  }

  /** The first `a` attempts have failed, and a stream or embedding loop stands where they leave it. */
  ghost predicate Trying(loop: Loop, config: Config, model: string, trials: nat -> Trial, a: nat,
                         deployment: Option<Deployment>, log: seq<Event>)
    requires loop != Complete
  {
    && a <= Tries(config) && AllFailed(loop, config, trials, a) && deployment == Standing(config, trials, a)
    && Begun(Request, log) <= a && Accounted(loop, config, model, trials, a, log)
    && NothingOpen(log) && Fallbacks(log) == Settled && Puts(log) == 0 && Successes(log) == 0
  }

  /** An attempt without a deployment sends and reports nothing. */
  lemma NoTarget(loop: Loop, config: Config, model: string, trials: nat -> Trial, a: nat,
                 deployment: Option<Deployment>, log: seq<Event>)
    requires loop != Complete && Trying(loop, config, model, trials, a, deployment, log)
    requires ReachedAt(loop, config, trials, a)
    requires trials(a).pick.None? && (config.fallbackEnabled || deployment.None?)
    ensures Trying(loop, config, model, trials, a + 1, deployment, log)
  {
    StandsOnSome(config, trials, a);
  }

  /** Attempt `a` was made and reported. */
  ghost predicate Turned(loop: Loop, config: Config, model: string, trials: nat -> Trial, a: nat, log: seq<Event>)
    requires loop != Complete
  {
    && Accounted(loop, config, model, trials, a + 1, log) && Begun(Request, log) <= a + 1
    && Fallbacks(log) == Settled && Puts(log) == 0
    && Successes(log) == if StageAt(loop, config, trials, a) == Passes then 1 else 0
  }

  /** A stream or embedding loop is over after the attempts it reaches, the last of which passed if `ok`. */
  ghost predicate Over(loop: Loop, config: Config, model: string, trials: nat -> Trial, reached: nat, log: seq<Event>,
                       ok: bool)
    requires loop != Complete
  {
    && (ok <==> SomePass(loop, config, trials)) && (ok ==> reached > 0 && PassesAt(loop, config, trials, reached - 1))
    && Reaches(loop, config, trials, reached) && Accounted(loop, config, model, trials, reached, log)
    && Fallbacks(log) == Settled && Puts(log) == 0 && Begun(Request, log) <= Tries(config)
    && Successes(log) == if ok then 1 else 0
  }

  /** It ends before attempt `n`, for want of attempts or because the context ends in the wait. */
  lemma OverBefore(loop: Loop, config: Config, model: string, trials: nat -> Trial, n: nat,
                   deployment: Option<Deployment>, log: seq<Event>)
    requires loop != Complete && Trying(loop, config, model, trials, n, deployment, log)
    requires n > config.retryCount || (n > 0 && trials(n).cancelled)
    ensures Over(loop, config, model, trials, n, log, false)
  {
    NoPass(loop, config, trials, n);
    ReachesTo(loop, config, trials, n);
  }

  /** It ends with attempt `a`, which passes or fails for good. */
  lemma OverWith(loop: Loop, config: Config, model: string, trials: nat -> Trial, a: nat, log: seq<Event>)
    requires loop != Complete && ReachedAt(loop, config, trials, a) && StageAt(loop, config, trials, a) != Fails
    requires Turned(loop, config, model, trials, a, log)
    ensures Over(loop, config, model, trials, a + 1, log, StageAt(loop, config, trials, a) == Passes)
  {
    ReachesLast(loop, config, trials, a);
    if StageAt(loop, config, trials, a) == Passes {
      assert PassesAt(loop, config, trials, a);
    } else {
      NoPass(loop, config, trials, a);
    }
  }

  /** The retry loop: the body of the first attempt that passes, if it is reached. */
  method OpenBody(config: Config, model: string, trials: nat -> Trial)
    returns (found: Option<OpenedBody>, ghost log: seq<Event>, ghost reached: nat)
    ensures found.Some? <==> SomePass(OpenStream, config, trials)
    ensures Over(OpenStream, config, model, trials, reached, log, found.Some?)
    ensures found.Some? ==>
      && trials(reached - 1).response.Response? && trials(reached - 1).response.body == found.value.body
      && TargetAt(config, trials, reached - 1) == Some(found.value.target)
    ensures if found.Some? then InUse(log, found.value.target) else NothingOpen(log)
  {
    log := [];
    var lastErr := false;
    var deployment: Option<Deployment> := None;
    var attempt := 0;
    while attempt <= config.retryCount
      invariant 0 <= attempt && Trying(OpenStream, config, model, trials, attempt, deployment, log)
      invariant deployment.Some? ==> lastErr
    {
      var over;
      over, found, deployment, log, reached := OpenOnce(config, model, trials, attempt, deployment, lastErr, log);
      if over {
        return;
      }
      lastErr := true;
      attempt := attempt + 1;
    }
    OverBefore(OpenStream, config, model, trials, attempt, deployment, log);
    return None, log, attempt;
  }

  /** One turn of the loop, which may end it. */
  method OpenOnce(config: Config, model: string, trials: nat -> Trial, a: nat, deployment: Option<Deployment>,
                  lastErr: bool, ghost log: seq<Event>)
    returns (over: bool, found: Option<OpenedBody>, next: Option<Deployment>, ghost longer: seq<Event>,
             ghost reached: nat)
    requires Trying(OpenStream, config, model, trials, a, deployment, log) && (deployment.Some? ==> lastErr)
    requires a <= config.retryCount
    ensures if over then Over(OpenStream, config, model, trials, reached, longer, found.Some?)
            else found.None? && Trying(OpenStream, config, model, trials, a + 1, next, longer)
    ensures found.Some? ==>
      && trials(reached - 1).response.Response? && trials(reached - 1).response.body == found.value.body
      && TargetAt(config, trials, reached - 1) == Some(found.value.target)
    ensures if found.Some? then InUse(longer, found.value.target) else NothingOpen(longer)
  {
    found, next, longer, reached := None, deployment, log, a;
    if a > 0 && trials(a).cancelled {
      OverBefore(OpenStream, config, model, trials, a, deployment, log);
      return true, found, next, longer, reached;
    }
    if (a == 0 || config.fallbackEnabled || deployment.None?) && trials(a).pick.None? {
      NoTarget(OpenStream, config, model, trials, a, deployment, log);
      return false, found, next, longer, reached;
    }
    var target, outcome;
    target, outcome, longer := StreamTurn(config, model, trials, a, deployment, lastErr, log);
    next, reached, over := Some(target), a + 1, outcome != TryAgain;
    if over {
      OverWith(OpenStream, config, model, trials, a, longer);
    }
    if outcome.Streaming? {
      found := Some(OpenedBody(target, outcome.body));
    }
  }

  /** An attempt with a deployment: it is routed, made and reported. */
  method StreamTurn(config: Config, model: string, trials: nat -> Trial, a: nat, deployment: Option<Deployment>,
                    lastErr: bool, ghost log: seq<Event>)
    returns (target: Deployment, outcome: Outcome, ghost longer: seq<Event>)
    requires Trying(OpenStream, config, model, trials, a, deployment, log) && (deployment.Some? ==> lastErr)
    requires ReachedAt(OpenStream, config, trials, a)
    requires trials(a).pick.Some? || (!config.fallbackEnabled && deployment.Some?)
    ensures Some(target) == TargetAt(config, trials, a) == Standing(config, trials, a + 1)
    ensures StageAt(OpenStream, config, trials, a) ==
      match outcome case Streaming(_) => Passes case GiveUp => Stops case TryAgain => Fails
    ensures outcome.Streaming? ==> trials(a).response.Response? && outcome.body == trials(a).response.body
    ensures if outcome.Streaming? then InUse(longer, target) else NothingOpen(longer)
    ensures outcome == TryAgain ==> Trying(OpenStream, config, model, trials, a + 1, Some(target), longer)
    ensures Turned(OpenStream, config, model, trials, a, longer)
  {
    StandsOnSome(config, trials, a);
    var pending;
    target, pending, longer := Route(config, model, trials(a), deployment, lastErr, log);
    outcome, longer := AttemptStream(trials(a), target, longer);
    longer := Conclude(pending, outcome.Streaming?, longer);
  }

  /** Opens a stream, makes any calls on it and closes it. Whatever happens, every request start has
      its end, every permit is back, the plugin context was returned exactly once, and the router
      saw at most one request per opening attempt and per recovery. If every body replays a text,
      the caller got a prefix of it, and all of it before a regular end. */
  method ServeStream(config: Config, model: string, rateLimited: bool, trials: nat -> Trial,
                     reading: Reading, calls: seq<Call>, ghost text: seq<Byte>)
    returns (opens: bool, replies: seq<Reply>, ghost log: seq<Event>)
    ensures opens <==> !rateLimited && SomePass(OpenStream, config, trials)
    ensures opens ==> |replies| == |calls|
    ensures opens && AllReplay(trials, reading, text) ==> Received(replies) <= text && EndsComplete(replies, text)
    ensures Open(Request, log) == Idle && Open(Permit, log) == Idle && Puts(log) == 1
    ensures Begun(Request, log) <= if config.retryCount >= 0 then 2 * config.retryCount + 1 else 0
    ensures !opens ==> replies == []
  {
    var reader;
    ghost var reached;
    reader, log, reached := ChatCompletionStream(config, model, rateLimited, trials, reading, text);
    if reader == null {
      return false, [], log;
    }
    ghost var tale;
    replies, tale := reader.Run(calls);
    reader.Close();
    return true, replies, reader.log;
  }

  // ---------------------------------------------------------------- embeddings and completions

  /** One embedding or completion request, with its two deferred clean-ups. */
  method ExecuteOnce(trial: Trial, target: Deployment, ghost log: seq<Event>)
    returns (failure: Option<Failure>, ghost longer: seq<Event>)
    requires NothingOpen(log)
    ensures NothingOpen(longer) && SameStory(log, longer) && Begun(Request, longer) <= Begun(Request, log) + 1
    ensures RequestStage(trial) ==
      if failure.None? then Passes else if failure.value == LLMError(false) then Stops else Fails
    ensures Asked(longer) == if Sends(Complete, trial) then Asked(log) + [target] else Asked(log)
    ensures failure.None? <==>
      Sends(Complete, trial) && trial.response.Response? && trial.response.status < 400 && trial.parses
    ensures failure == Some(LLMError(false)) <==>
      || !trial.priced
      || (&& trial.permit && trial.builds && trial.response.Response? && trial.response.status >= 400
          && !trial.response.retryable)
  {
    longer := log;
    if !trial.priced {
      return Some(LLMError(false)), longer;
    }
    if !trial.permit {
      return Some(LLMError(true)), longer;
    }
    longer := Note(longer, Begin(Permit, target));
    if !trial.builds {
      longer := Note(longer, End(Permit, target));
      return Some(OtherError), longer;
    }
    longer := Note(longer, Begin(Request, target));
    if trial.response.TransportError? {
      failure := Some(OtherError);
    } else if trial.response.status >= 400 {
      failure := Some(LLMError(trial.response.retryable));
    } else if !trial.parses {
      failure := Some(OtherError);
    } else {
      failure := None;
    }
    longer := Note(longer, End(Request, target));
    longer := Note(longer, End(Permit, target));
  }

  /** Sends an embedding request. Which attempts are `reached`, where they send their requests and which switches they
      report follows from the picks. */
  method Embedding(config: Config, model: string, rateLimited: bool, trials: nat -> Trial)
    returns (ok: bool, ghost log: seq<Event>, ghost reached: nat)
    ensures ok <==> !rateLimited && SomePass(Embed, config, trials)
    ensures if rateLimited then reached == 0 else Reaches(Embed, config, trials, reached)
    ensures Accounted(Embed, config, model, trials, reached, log)
    ensures NothingOpen(log) && Fallbacks(log) == Settled
    ensures Successes(log) == if ok then 1 else 0
    ensures Begun(Request, log) <= Tries(config)
  {
    if rateLimited {
      return false, [], 0;
    }
    ok, log, reached := EmbedWithRetry(config, model, trials);
  }

  method EmbedWithRetry(config: Config, model: string, trials: nat -> Trial)
    returns (ok: bool, ghost log: seq<Event>, ghost reached: nat)
    ensures ok <==> SomePass(Embed, config, trials)
    ensures Over(Embed, config, model, trials, reached, log, ok) && NothingOpen(log)
  {
    log := [];
    var lastErr := false;
    var deployment: Option<Deployment> := None;
    var attempt := 0;
    while attempt <= config.retryCount
      invariant 0 <= attempt && Trying(Embed, config, model, trials, attempt, deployment, log)
      invariant deployment.Some? ==> lastErr
    {
      var over;
      over, ok, deployment, log, reached := EmbedOnce(config, model, trials, attempt, deployment, lastErr, log);
      if over {
        return;
      }
      lastErr := true;
      attempt := attempt + 1;
    }
    OverBefore(Embed, config, model, trials, attempt, deployment, log);
    return false, log, attempt;
  }

  /** One turn of the loop, which may end it. */
  method EmbedOnce(config: Config, model: string, trials: nat -> Trial, a: nat, deployment: Option<Deployment>,
                   lastErr: bool, ghost log: seq<Event>)
    returns (over: bool, ok: bool, next: Option<Deployment>, ghost longer: seq<Event>, ghost reached: nat)
    requires Trying(Embed, config, model, trials, a, deployment, log) && (deployment.Some? ==> lastErr)
    requires a <= config.retryCount
    ensures if over then Over(Embed, config, model, trials, reached, longer, ok) && NothingOpen(longer)
            else Trying(Embed, config, model, trials, a + 1, next, longer)
  {
    ok, next, longer, reached := false, deployment, log, a;
    if a > 0 && trials(a).cancelled {
      OverBefore(Embed, config, model, trials, a, deployment, log);
      return true, ok, next, longer, reached;
    }
    if (a == 0 || config.fallbackEnabled || deployment.None?) && trials(a).pick.None? {
      NoTarget(Embed, config, model, trials, a, deployment, log);
      return false, ok, next, longer, reached;
    }
    var target, failure;
    target, failure, longer := EmbedTurn(config, model, trials, a, deployment, lastErr, log);
    ok, next, reached := failure.None?, Some(target), a + 1;
    over := ok || (failure.value.LLMError? && !failure.value.retryable);
    if over {
      OverWith(Embed, config, model, trials, a, longer);
    }
  }

  method EmbedTurn(config: Config, model: string, trials: nat -> Trial, a: nat, deployment: Option<Deployment>,
                   lastErr: bool, ghost log: seq<Event>)
    returns (target: Deployment, failure: Option<Failure>, ghost longer: seq<Event>)
    requires Trying(Embed, config, model, trials, a, deployment, log) && (deployment.Some? ==> lastErr)
    requires ReachedAt(Embed, config, trials, a)
    requires trials(a).pick.Some? || (!config.fallbackEnabled && deployment.Some?)
    ensures Some(target) == TargetAt(config, trials, a) == Standing(config, trials, a + 1)
    ensures StageAt(Embed, config, trials, a) ==
      if failure.None? then Passes else if failure.value == LLMError(false) then Stops else Fails
    ensures failure.Some? && failure.value != LLMError(false) ==>
      Trying(Embed, config, model, trials, a + 1, Some(target), longer)
    ensures NothingOpen(longer) && Turned(Embed, config, model, trials, a, longer)
  {
    StandsOnSome(config, trials, a);
    var pending;
    target, pending, longer := Route(config, model, trials(a), deployment, lastErr, log);
    if !trials(a).providerKnown || !trials(a).embeds {
      failure := Some(OtherError);
    } else {
      failure, longer := ExecuteOnce(trials(a), target, longer);
    }
    longer := Conclude(pending, failure.None?, longer);
  }

  datatype Completion = Completed | Cancelled(attempt: nat) | Exhausted

  /** All attempts before `a` failed, and the wait before `a` is cancelled. */
  ghost predicate CancelledAt(config: Config, trials: nat -> Trial, a: nat) {
    0 < a <= config.retryCount && AllFailed(Complete, config, trials, a) && trials(a).cancelled
  }

  /** The failed attempt before `a` switched deployments. */
  ghost predicate SwitchedBefore(config: Config, first: Deployment, trials: nat -> Trial, a: nat)
    requires a > 0
  {
    DeploymentAt(config, first, trials, a) != DeploymentAt(config, first, trials, a - 1)
  }

  /** A switch goes unreported: the context ends in the wait right after it. */
  ghost predicate Unreported(config: Config, first: Deployment, trials: nat -> Trial) {
    exists a: nat :: CancelledAt(config, trials, a) && SwitchedBefore(config, first, trials, a)
  }

  /** How a completion ends, told from its inputs. */
  ghost predicate EndsAs(config: Config, trials: nat -> Trial, r: Completion) {
    && (r == Completed <==> SomePass(Complete, config, trials))
    && (r.Cancelled? <==> exists a: nat :: CancelledAt(config, trials, a))
    && (r.Cancelled? ==> CancelledAt(config, trials, r.attempt))
  }

  lemma OneCancellation(config: Config, trials: nat -> Trial, a: nat, b: nat)
    requires CancelledAt(config, trials, a) && CancelledAt(config, trials, b)
    ensures a == b
  {
  }

  lemma EndsCancelled(config: Config, first: Deployment, trials: nat -> Trial, n: nat)
    requires CancelledAt(config, trials, n)
    ensures EndsAs(config, trials, Cancelled(n))
    ensures Unreported(config, first, trials) <==> SwitchedBefore(config, first, trials, n)
  {
    NoPass(Complete, config, trials, n);
    if Unreported(config, first, trials) {
      var a: nat :| CancelledAt(config, trials, a) && SwitchedBefore(config, first, trials, a);
      OneCancellation(config, trials, a, n);
    }
  }

  /** No wait is cancelled in a loop that ends at attempt `n` for another reason. */
  lemma NoCancellation(config: Config, trials: nat -> Trial, n: nat)
    requires AllFailed(Complete, config, trials, n) && (n > 0 ==> !trials(n).cancelled || n > config.retryCount)
    requires n > config.retryCount || StageAt(Complete, config, trials, n) != Fails
    ensures forall a: nat :: !CancelledAt(config, trials, a)
  {
    forall a: nat
      ensures !CancelledAt(config, trials, a)
    {
      assert a < n && a > 0 ==> !trials(a).cancelled;
    }
  }

  lemma EndsPassed(config: Config, first: Deployment, trials: nat -> Trial, n: nat)
    requires n <= config.retryCount && PassesAt(Complete, config, trials, n)
    ensures EndsAs(config, trials, Completed) && !Unreported(config, first, trials)
  {
    NoCancellation(config, trials, n);
  }

  lemma EndsFailed(config: Config, first: Deployment, trials: nat -> Trial, n: nat)
    requires AllFailed(Complete, config, trials, n)
    requires
      n > config.retryCount || (StageAt(Complete, config, trials, n) == Stops && (n > 0 ==> !trials(n).cancelled))
    ensures EndsAs(config, trials, Exhausted) && !Unreported(config, first, trials)
  {
    NoPass(Complete, config, trials, n);
    NoCancellation(config, trials, n);
  }

  /** Attempt `a` runs on `deployment`, and a switch to it is pending exactly if there was one. */
  ghost predicate OnTrack(config: Config, model: string, first: Deployment, trials: nat -> Trial, a: nat,
                          deployment: Deployment, pending: Option<FallbackAttempt>)
  {
    if a > config.retryCount then pending.None?
    else
      && deployment == DeploymentAt(config, first, trials, a)
      && (pending.Some? <==> a > 0 && SwitchedBefore(config, first, trials, a))
      && (pending.Some? ==> pending.value == FallbackAttempt(model, deployment.modelName))
  }

  /** The log tells of the first `n` attempts which deployments they sent a request to and what they reported. */
  ghost predicate CompletionsAccounted(config: Config, model: string, first: Deployment, trials: nat -> Trial, n: nat,
                                       log: seq<Event>)
  {
    && Reported(log) == CompletionReports(config, model, first, trials, n)
    && Asked(log) == CompletionsSent(config, first, trials, n)
  }

  /** The first `a` attempts have failed, and the loop stands where they leave it. */
  ghost predicate Underway(config: Config, model: string, first: Deployment, trials: nat -> Trial, a: nat,
                           deployment: Deployment, pending: Option<FallbackAttempt>, log: seq<Event>)
  {
    && a <= Tries(config) && AllFailed(Complete, config, trials, a) && Begun(Request, log) <= a
    && OnTrack(config, model, first, trials, a, deployment, pending) && Awaits(log, pending)
    && NothingOpen(log) && Successes(log) == 0 && CompletionsAccounted(config, model, first, trials, a, log)
  }

  /** An attempt on the deployment at hand, with the report of the switch to it. */
  method CompletionTurn(config: Config, model: string, ghost first: Deployment, trials: nat -> Trial, a: nat,
                        deployment: Deployment, pending: Option<FallbackAttempt>, ghost log: seq<Event>)
    returns (failure: Option<Failure>, ghost longer: seq<Event>)
    requires a <= config.retryCount && Underway(config, model, first, trials, a, deployment, pending, log)
    ensures StageAt(Complete, config, trials, a) ==
      if failure.None? then Passes else if failure.value == LLMError(false) then Stops else Fails
    ensures NothingOpen(longer) && Fallbacks(longer) == Settled
    ensures CompletionsAccounted(config, model, first, trials, a + 1, longer)
    ensures Successes(longer) == (if failure.None? then 1 else 0) && Begun(Request, longer) <= a + 1
  {
    failure, longer := ExecuteOnce(trials(a), deployment, log);
    longer := Conclude(pending, failure.None?, longer);
  }

  /** After failed attempt `a`, if there is another: the deployment to go on with, and the switch to be reported. */
  method SwitchAfter(config: Config, model: string, ghost first: Deployment, trials: nat -> Trial, a: nat,
                     deployment: Deployment, ghost log: seq<Event>)
    returns (next: Deployment, pending: Option<FallbackAttempt>, ghost longer: seq<Event>)
    requires a <= config.retryCount && deployment == DeploymentAt(config, first, trials, a) && Fallbacks(log) == Settled
    requires AllFailed(Complete, config, trials, a + 1) && Begun(Request, log) <= a + 1
    requires NothingOpen(log) && Successes(log) == 0 && CompletionsAccounted(config, model, first, trials, a + 1, log)
    ensures Underway(config, model, first, trials, a + 1, next, pending, longer)
  {
    next, pending, longer := deployment, None, log;
    var pick := trials(a).pick;
    if config.fallbackEnabled && a < config.retryCount && pick.Some? && pick.value.id != deployment.id {
      next, pending := pick.value, Some(FallbackAttempt(model, pick.value.modelName));
      longer := Note(longer, Switched(model, pick.value.modelName));
    }
  }

  /** A completion is over: how, after which attempts, with what in the log, and whether a switch goes unreported. */
  ghost predicate CompletionOver(config: Config, model: string, first: Deployment, trials: nat -> Trial, reached: nat,
                                 log: seq<Event>, r: Completion)
  {
    && EndsAs(config, trials, r) && Reaches(Complete, config, trials, reached)
    && CompletionsAccounted(config, model, first, trials, reached, log) && Begun(Request, log) <= Tries(config)
    && Successes(log) == (if r == Completed then 1 else 0)
    && (Fallbacks(log) != Settled <==> Unreported(config, first, trials))
  }

  lemma CompletionCancelled(config: Config, model: string, first: Deployment, trials: nat -> Trial, n: nat,
                            deployment: Deployment, pending: Option<FallbackAttempt>, log: seq<Event>)
    requires Underway(config, model, first, trials, n, deployment, pending, log)
    requires 0 < n <= config.retryCount && trials(n).cancelled
    ensures CompletionOver(config, model, first, trials, n, log, Cancelled(n))
  {
    EndsCancelled(config, first, trials, n);
    ReachesTo(Complete, config, trials, n);
  }

  lemma CompletionExhausted(config: Config, model: string, first: Deployment, trials: nat -> Trial, n: nat,
                            deployment: Deployment, pending: Option<FallbackAttempt>, log: seq<Event>)
    requires Underway(config, model, first, trials, n, deployment, pending, log) && n > config.retryCount
    ensures CompletionOver(config, model, first, trials, n, log, Exhausted)
  {
    EndsFailed(config, first, trials, n);
    ReachesTo(Complete, config, trials, n);
  }

  lemma CompletionEnds(config: Config, model: string, first: Deployment, trials: nat -> Trial, a: nat, log: seq<Event>)
    requires ReachedAt(Complete, config, trials, a) && StageAt(Complete, config, trials, a) != Fails
    requires CompletionsAccounted(config, model, first, trials, a + 1, log) && Begun(Request, log) <= a + 1
    requires Fallbacks(log) == Settled
    requires Successes(log) == if StageAt(Complete, config, trials, a) == Passes then 1 else 0
    ensures var r := if StageAt(Complete, config, trials, a) == Passes then Completed else Exhausted;
      CompletionOver(config, model, first, trials, a + 1, log, r)
  {
    ReachesLast(Complete, config, trials, a);
    if StageAt(Complete, config, trials, a) == Passes {
      EndsPassed(config, first, trials, a);
    } else {
      EndsFailed(config, first, trials, a);
    }
  }

  /** A completion with retries. Unlike the other two loops it switches before the back-off,
      so a switch goes unreported exactly when the context ends in the wait right after it. */
  method ExecuteWithRetry(config: Config, model: string, first: Deployment, trials: nat -> Trial)
    returns (r: Completion, ghost log: seq<Event>, ghost reached: nat)
    ensures EndsAs(config, trials, r)
    ensures NothingOpen(log) && CompletionOver(config, model, first, trials, reached, log, r)
  {
    log := [];
    var deployment := first;
    var pending: Option<FallbackAttempt> := None;
    var attempt := 0;
    while attempt <= config.retryCount
      invariant 0 <= attempt && Underway(config, model, first, trials, attempt, deployment, pending, log)
    {
      if attempt > 0 && trials(attempt).cancelled {
        CompletionCancelled(config, model, first, trials, attempt, deployment, pending, log);
        return Cancelled(attempt), log, attempt;
      }
      var failure;
      failure, log := CompletionTurn(config, model, first, trials, attempt, deployment, pending, log);
      if failure.None? {
        CompletionEnds(config, model, first, trials, attempt, log);
        return Completed, log, attempt + 1;
      }
      if failure.value.LLMError? && !failure.value.retryable {
        CompletionEnds(config, model, first, trials, attempt, log);
        return Exhausted, log, attempt + 1;
      }
      deployment, pending, log := SwitchAfter(config, model, first, trials, attempt, deployment, log);
      attempt := attempt + 1;
    }
    CompletionExhausted(config, model, first, trials, attempt, deployment, pending, log);
    return Exhausted, log, attempt;
  }

  /** One failed attempt, a switch to another deployment, and a context that ends in the wait: the switch is in the
      log and no report of it. */
  method SwitchUnreported() returns (r: Completion, ghost log: seq<Event>)
    ensures r == Cancelled(1) && Fallbacks(log) != Settled
  {
    var config := Config(1, true);
    var first, second := Deployment("a", "p", "m"), Deployment("b", "p", "n");
    var trial := Trial(false, Some(second), true, true, true, true, true, TransportError, true);
    var trials := (a: nat) => if a == 0 then trial else trial.(cancelled := true);
    assert first.id != second.id;
    assert StageAt(Complete, config, trials, 0) == Fails;
    assert CancelledAt(config, trials, 1);
    assert DeploymentAt(config, first, trials, 0) == first && DeploymentAt(config, first, trials, 1) == second;
    assert SwitchedBefore(config, first, trials, 1);
    ghost var reached;
    r, log, reached := ExecuteWithRetry(config, "m", first, trials);
    OneCancellation(config, trials, r.attempt, 1);
  }
}
