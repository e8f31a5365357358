/** What the client reports to its collaborators while it serves one request, as an
    append-only log, and the accounts that are read off that log. */
module Ledger {

  datatype Deployment = Deployment(id: string, providerName: string, modelName: string)

  datatype Kind =
    | Request  // ReportRequestStart / ReportRequestEnd on the router
    | Permit   // a concurrency permit and its release function

  datatype Event =
    | Begin(kind: Kind, deployment: Deployment)
    | End(kind: Kind, deployment: Deployment)
    | PutContext                // the plugin context goes back to its pool
    | Switched(model: string, fallback: string)  // an attempt runs on another deployment than the one before
    | Attempted(ok: bool)                        // an attempt's outcome is known
    | FallbackReported(model: string, fallback: string, ok: bool)

  datatype Account = Idle | Busy(deployment: Deployment) | Unbalanced

  function Entry(kind: Kind, before: Account, e: Event): Account {
    match e
    case Begin(k, d) => if k != kind then before else if before == Idle then Busy(d) else Unbalanced
    case End(k, d) => if k != kind then before else if before == Busy(d) then Idle else Unbalanced
    case _ => before
  }

  /** The begin/end account of one kind: at most one thing is open at a time, and it is
      ended once, for the deployment it was begun for. */
  function Open(kind: Kind, log: seq<Event>): Account {
    if log == [] then Idle else Entry(kind, Open(kind, log[..|log| - 1]), log[|log| - 1])
  }

  function Begun(kind: Kind, log: seq<Event>): nat {
    if log == [] then 0
    else
      var last := log[|log| - 1];
      Begun(kind, log[..|log| - 1]) + if last.Begin? && last.kind == kind then 1 else 0
  }

  function Puts(log: seq<Event>): nat {
    if log == [] then 0
    else Puts(log[..|log| - 1]) + if log[|log| - 1] == PutContext then 1 else 0
  }

  /** Attempts that succeeded. */
  function Successes(log: seq<Event>): nat {
    if log == [] then 0
    else Successes(log[..|log| - 1]) + if log[|log| - 1] == Attempted(true) then 1 else 0
  }

  /** The deployments that requests were sent to. */
  function Asked(log: seq<Event>): seq<Deployment> {
    if log == [] then []
    else
      var last := log[|log| - 1];
      if last.Begin? && last.kind == Request then Asked(log[..|log| - 1]) + [last.deployment]
      else Asked(log[..|log| - 1])
  }

  /** The fallback reports. */
  function Reported(log: seq<Event>): seq<Event> {
    if log == [] then []
    else
      var last := log[|log| - 1];
      if last.FallbackReported? then Reported(log[..|log| - 1]) + [last] else Reported(log[..|log| - 1])
  }

  datatype Fallback =
    | Settled                                          // nothing to report
    | Pending(model: string, fallback: string)         // switched, outcome not known yet
    | Due(model: string, fallback: string, ok: bool)   // switched, outcome known, report still due
    | Misreported

  function FallbackEntry(before: Fallback, e: Event): Fallback {
    match e
    case Switched(m, f) => if before == Settled then Pending(m, f) else Misreported
    case Attempted(ok) =>
      (match before
       case Settled => Settled
       case Pending(m, f) => Due(m, f, ok)
       case _ => Misreported)
    case FallbackReported(m, f, ok) => if before == Due(m, f, ok) then Settled else Misreported
    case _ => before
  }

  /** The fallback account: a switch is reported once, after its attempt's outcome, with that outcome. */
  function Fallbacks(log: seq<Event>): Fallback {
    if log == [] then Settled else FallbackEntry(Fallbacks(log[..|log| - 1]), log[|log| - 1])
  }

  /** Writes one event; what it does to each account. */
  lemma Noted(log: seq<Event>, e: Event)
    ensures forall k :: Open(k, log + [e]) == Entry(k, Open(k, log), e)
    ensures Fallbacks(log + [e]) == FallbackEntry(Fallbacks(log), e)
    ensures Puts(log + [e]) == Puts(log) + if e == PutContext then 1 else 0
    ensures Successes(log + [e]) == Successes(log) + if e == Attempted(true) then 1 else 0
    ensures forall k :: Begun(k, log + [e]) == Begun(k, log) + if e.Begin? && e.kind == k then 1 else 0
    ensures Asked(log + [e]) == if e.Begin? && e.kind == Request then Asked(log) + [e.deployment] else Asked(log)
    ensures Reported(log + [e]) == if e.FallbackReported? then Reported(log) + [e] else Reported(log)
  {
    assert (log + [e])[..|log|] == log;
  }

  /** An account that has gone wrong stays wrong, so a good account at the end of a log
      vouches for every moment before it. */
  lemma {:induction false} BalancedPrefixes(kind: Kind, log: seq<Event>, n: nat)
    requires n <= |log|
    ensures Open(kind, log) != Unbalanced ==> Open(kind, log[..n]) != Unbalanced
    ensures Fallbacks(log) != Misreported ==> Fallbacks(log[..n]) != Misreported
  {
    if n == |log| {
      assert log[..n] == log;
    } else {
      var front := log[..|log| - 1];
      assert front[..n] == log[..n];
      BalancedPrefixes(kind, front, n);
    }
  }
}
