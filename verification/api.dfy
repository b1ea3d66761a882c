/** The analysis service client of lib/api.ts: three request wrappers with one
    error contract, and `pollAnalysisCompletion`, a bounded status-polling loop.
    The network is a script: the k-th status query (counting from 0) receives
    `statuses(k)`, and the one results fetch receives `results`. Sleeps are
    recorded in the trace instead of being waited for. */
module Api {
  import opened Common
  import opened ApiTypes

  const StartFailurePrefix := "Failed to start analysis: "
  const StatusFailurePrefix := "Failed to get analysis status: "
  const ResultsFailurePrefix := "Failed to get analysis results: "

  /** Every wrapper: a non-ok response becomes an `ApiError` carrying the HTTP status;
      an ok response resolves with its decoded body. */
  function Checked<T>(reply: Reply<T>, prefix: string): (r: Outcome<T>)
    ensures r.Resolved? <==> reply.Ok?
    ensures r.Resolved? ==> r.value == reply.body
    ensures r.Rejected? ==> r.error.ApiError? && r.error.status == reply.status
                            && r.error.message == prefix + reply.statusText
  {
    match reply
    case Ok(body) => Resolved(body)
    case NotOk(status, statusText) => Rejected(ApiError(status, prefix + statusText))
  }

  /** `startAnalysis`: POST /analyze; resolves with the new job's `request_id`. */
  function StartAnalysis(reply: Reply<string>): (r: Outcome<string>)
    ensures r.Resolved? <==> reply.Ok?
    ensures r.Resolved? ==> r.value == reply.body
    ensures r.Rejected? ==> r.error == ApiError(reply.status, StartFailurePrefix + reply.statusText)
  {
    Checked(reply, StartFailurePrefix)
  }

  /** `getAnalysisStatus`: GET /analysis/{id}/status. */
  function GetAnalysisStatus(reply: Reply<AnalysisStatus>): (r: Outcome<AnalysisStatus>)
    ensures r.Resolved? <==> reply.Ok?
    ensures r.Resolved? ==> r.value == reply.body
    ensures r.Rejected? ==> r.error == ApiError(reply.status, StatusFailurePrefix + reply.statusText)
  {
    Checked(reply, StatusFailurePrefix)
  }

  /** `getAnalysisResults`: GET /analysis/{id}. */
  function GetAnalysisResults(reply: Reply<AnalysisResults>): (r: Outcome<AnalysisResults>)
    ensures r.Resolved? <==> reply.Ok?
    ensures r.Resolved? ==> r.value == reply.body
    ensures r.Rejected? ==> r.error == ApiError(reply.status, ResultsFailurePrefix + reply.statusText)
  {
    Checked(reply, ResultsFailurePrefix)
  }

  /** The arguments of `pollAnalysisCompletion`; `hasObserver` says whether the
      optional `onStatusUpdate` callback was passed. */
  datatype PollOptions = PollOptions(requestId: string, hasObserver: bool, interval: int, maxAttempts: int)

  /** The rest of a polling run that has already made `attempts` attempts. */
  function PollFrom(opts: PollOptions, statuses: nat -> Reply<AnalysisStatus>, results: Reply<AnalysisResults>,
                    attempts: nat): PollRun<AnalysisResults>
    decreases opts.maxAttempts - attempts
  {
    if attempts >= opts.maxAttempts then PollRun(Rejected(PlainError(TimedOutMessage)), [])
    else
      var query := [StatusRequest(opts.requestId)];
      match GetAnalysisStatus(statuses(attempts))
      case Rejected(e) => PollRun(Rejected(e), query)
      case Resolved(status) =>
        var seen := Answered(opts, status);
        if status == Completed then
          PollRun(GetAnalysisResults(results), seen + [ResultsRequest(opts.requestId)])
        else if status == Failed then
          PollRun(Rejected(PlainError(AnalysisFailedMessage)), seen)
        else
          var rest := PollFrom(opts, statuses, results, attempts + 1);
          PollRun(rest.outcome, seen + [Slept(opts.interval)] + rest.trace)
  }

  /** What one pass of the loop body did: the events it caused, and either the
      outcome it left the loop with or that it goes round again. */
  datatype Pass = Stop(outcome: Outcome<AnalysisResults>, events: seq<Event>) | Continue(events: seq<Event>)

  /** One pass of the loop body at attempt `a`. */
  method PollAttempt(opts: PollOptions, statuses: nat -> Reply<AnalysisStatus>,
                     results: Reply<AnalysisResults>, a: nat)
    returns (pass: Pass)
    requires a < opts.maxAttempts
    ensures pass.Stop? <==> !KeepsPolling(statuses(a))
    ensures pass.Stop? ==> PollFrom(opts, statuses, results, a) == PollRun(pass.outcome, pass.events)
    ensures pass.Continue? ==> var rest := PollFrom(opts, statuses, results, a + 1);
                               PollFrom(opts, statuses, results, a) == PollRun(rest.outcome, pass.events + rest.trace)
  {
    var statusResponse := GetAnalysisStatus(statuses(a));
    var events := [StatusRequest(opts.requestId)];
    if statusResponse.Rejected? {
      return Stop(Rejected(statusResponse.error), events);
    }
    var status := statusResponse.value;
    if opts.hasObserver {
      events := events + [Observed(status)];
    }
    if status == Completed {
      return Stop(GetAnalysisResults(results), events + [ResultsRequest(opts.requestId)]);
    }
    if status == Failed {
      return Stop(Rejected(PlainError(AnalysisFailedMessage)), events);
    }
    return Continue(events + [Slept(opts.interval)]);
  }

  /** `pollAnalysisCompletion` as the loop of lib/api.ts. */
  method PollAnalysisCompletion(opts: PollOptions, statuses: nat -> Reply<AnalysisStatus>,
                                results: Reply<AnalysisResults>)
    returns (outcome: Outcome<AnalysisResults>, trace: seq<Event>)
    ensures PollRun(outcome, trace) == PollFrom(opts, statuses, results, 0)
    ensures opts.maxAttempts <= 0 ==> outcome == Rejected(PlainError(TimedOutMessage)) && trace == []
  {
    ghost var whole := PollFrom(opts, statuses, results, 0);
    var attempts: nat := 0;
    trace := [];
    while attempts < opts.maxAttempts
      invariant whole.outcome == PollFrom(opts, statuses, results, attempts).outcome
      invariant whole.trace == trace + PollFrom(opts, statuses, results, attempts).trace
      decreases opts.maxAttempts - attempts
    {
      var pass := PollAttempt(opts, statuses, results, attempts);
      if pass.Stop? {
        return pass.outcome, trace + pass.events;
      }
      AppendAssoc(trace, pass.events, PollFrom(opts, statuses, results, attempts + 1).trace);
      trace := trace + pass.events;
      attempts := attempts + 1;
    }
    outcome := Rejected(PlainError(TimedOutMessage));
  }

  // ---------------------------------------------------------------------------
  // What a run does, in terms of the first reply that ends it
  // ---------------------------------------------------------------------------

  /** A run from attempt `a` settles as the reply at `s = Settle(...)` dictates:
      timeout when the attempts ran out, the status call's `ApiError` on a non-ok
      reply, "Analysis failed" on `failed`, the results call's outcome on `completed`. */
  lemma {:induction false} PollOutcome(opts: PollOptions, statuses: nat -> Reply<AnalysisStatus>,
                                       results: Reply<AnalysisResults>, a: nat)
    ensures var run := PollFrom(opts, statuses, results, a);
            var s := Settle(statuses, a, opts.maxAttempts);
            && (s >= opts.maxAttempts ==> run.outcome == Rejected(PlainError(TimedOutMessage)))
            && (s < opts.maxAttempts && statuses(s).NotOk? ==>
                  run.outcome == Rejected(ApiError(statuses(s).status, StatusFailurePrefix + statuses(s).statusText)))
            && (s < opts.maxAttempts && statuses(s) == Ok(Failed) ==>
                  run.outcome == Rejected(PlainError(AnalysisFailedMessage)))
            && (s < opts.maxAttempts && statuses(s) == Ok(Completed) ==>
                  run.outcome == GetAnalysisResults(results))
    decreases opts.maxAttempts - a
  {
    if a < opts.maxAttempts && KeepsPolling(statuses(a)) {
      PollOutcome(opts, statuses, results, a + 1);
    }
  }

  /** The events of one attempt that got an ok reply, before what follows it. */
  function Answered(opts: PollOptions, status: AnalysisStatus): seq<Event> {
    [StatusRequest(opts.requestId)] + (if opts.hasObserver then [Observed(status)] else [])
  }

  lemma AnsweredCounts(opts: PollOptions, status: AnalysisStatus, kind: EventKind)
    ensures Count(Answered(opts, status), kind)
         == (if kind == StatusRequestKind then 1 else 0) + (if kind == ObservedKind && opts.hasObserver then 1 else 0)
    ensures Observations(Answered(opts, status)) == if opts.hasObserver then [status] else []
  {
    var observed := if opts.hasObserver then [Observed(status)] else [];
    CountAppend([StatusRequest(opts.requestId)], observed, kind);
    ObservationsAppend([StatusRequest(opts.requestId)], observed);
    CountSingle(StatusRequest(opts.requestId), kind);
    if opts.hasObserver {
      CountSingle(Observed(status), kind);
    }
  }

  /** An attempt that got `pending` or `processing`: its events, a sleep, then the rest of the run. */
  lemma PollingStepShape(opts: PollOptions, statuses: nat -> Reply<AnalysisStatus>,
                         results: Reply<AnalysisResults>, a: nat)
    requires a < opts.maxAttempts && KeepsPolling(statuses(a))
    ensures var rest := PollFrom(opts, statuses, results, a + 1);
            PollFrom(opts, statuses, results, a).trace
            == Answered(opts, statuses(a).body) + ([Slept(opts.interval)] + rest.trace)
  {
    var rest := PollFrom(opts, statuses, results, a + 1);
    AppendAssoc(Answered(opts, statuses(a).body), [Slept(opts.interval)], rest.trace);
  }

  lemma PollingStepCounts(opts: PollOptions, statuses: nat -> Reply<AnalysisStatus>,
                          results: Reply<AnalysisResults>, a: nat, kind: EventKind)
    requires a < opts.maxAttempts && KeepsPolling(statuses(a))
    ensures Count(PollFrom(opts, statuses, results, a).trace, kind)
         == (if kind == StatusRequestKind || kind == SleptKind then 1 else 0)
            + (if kind == ObservedKind && opts.hasObserver then 1 else 0)
            + Count(PollFrom(opts, statuses, results, a + 1).trace, kind)
  {
    var status := statuses(a).body;
    var rest := PollFrom(opts, statuses, results, a + 1).trace;
    PollingStepShape(opts, statuses, results, a);
    CountAppend(Answered(opts, status), [Slept(opts.interval)] + rest, kind);
    CountAppend([Slept(opts.interval)], rest, kind);
    AnsweredCounts(opts, status, kind);
    CountSingle(Slept(opts.interval), kind);
  }

  lemma PollingStepObservations(opts: PollOptions, statuses: nat -> Reply<AnalysisStatus>,
                                results: Reply<AnalysisResults>, a: nat)
    requires a < opts.maxAttempts && KeepsPolling(statuses(a))
    ensures Observations(PollFrom(opts, statuses, results, a).trace)
         == (if opts.hasObserver then [statuses(a).body] else [])
            + Observations(PollFrom(opts, statuses, results, a + 1).trace)
  {
    var status := statuses(a).body;
    var rest := PollFrom(opts, statuses, results, a + 1).trace;
    PollingStepShape(opts, statuses, results, a);
    ObservationsAppend(Answered(opts, status), [Slept(opts.interval)] + rest);
    ObservationsAppend([Slept(opts.interval)], rest);
    AnsweredCounts(opts, status, ObservedKind);
    CountSingle(Slept(opts.interval), ObservedKind);
    assert [] + Observations(rest) == Observations(rest);
  }

  /** The events of the attempt that ends the run. */
  lemma FinalStepShape(opts: PollOptions, statuses: nat -> Reply<AnalysisStatus>,
                       results: Reply<AnalysisResults>, a: nat)
    requires a < opts.maxAttempts && !KeepsPolling(statuses(a))
    ensures var t := PollFrom(opts, statuses, results, a).trace;
            && (statuses(a).NotOk? ==> t == [StatusRequest(opts.requestId)])
            && (statuses(a) == Ok(Completed) ==> t == Answered(opts, Completed) + [ResultsRequest(opts.requestId)])
            && (statuses(a) == Ok(Failed) ==> t == Answered(opts, Failed))
  {
  }

  lemma FinalStepCounts(opts: PollOptions, statuses: nat -> Reply<AnalysisStatus>,
                        results: Reply<AnalysisResults>, a: nat, kind: EventKind)
    requires a < opts.maxAttempts && !KeepsPolling(statuses(a))
    ensures Count(PollFrom(opts, statuses, results, a).trace, kind)
         == (if kind == StatusRequestKind then 1 else 0)
            + (if kind == ResultsRequestKind && statuses(a) == Ok(Completed) then 1 else 0)
            + (if kind == ObservedKind && opts.hasObserver && statuses(a).Ok? then 1 else 0)
    ensures Observations(PollFrom(opts, statuses, results, a).trace)
         == if opts.hasObserver && statuses(a).Ok? then [statuses(a).body] else []
  {
    FinalStepShape(opts, statuses, results, a);
    var reply := statuses(a);
    if reply.NotOk? {
      CountSingle(StatusRequest(opts.requestId), kind);
    } else if reply.body == Completed {
      CountAppend(Answered(opts, Completed), [ResultsRequest(opts.requestId)], kind);
      ObservationsAppend(Answered(opts, Completed), [ResultsRequest(opts.requestId)]);
      CountSingle(ResultsRequest(opts.requestId), kind);
      AnsweredCounts(opts, Completed, kind);
    } else {
      AnsweredCounts(opts, Failed, kind);
    }
  }

  /** A run from attempt `a` makes one status request per attempt up to and including
      the stopping one (none there when the attempts ran out), sleeps once after each
      in-progress status, and fetches results only when it stopped on `completed`. */
  lemma {:induction false} PollCounts(opts: PollOptions, statuses: nat -> Reply<AnalysisStatus>,
                                      results: Reply<AnalysisResults>, a: nat, kind: EventKind)
    ensures CountsAsSettled(opts, statuses, results, a, kind)
    decreases opts.maxAttempts - a
  {
    if a < opts.maxAttempts {
      if KeepsPolling(statuses(a)) {
        PollCounts(opts, statuses, results, a + 1, kind);
        PollCountsPolling(opts, statuses, results, a, kind);
      } else {
        PollCountsFinal(opts, statuses, results, a, kind);
      }
    } else {
      assert Settle(statuses, a, opts.maxAttempts) == a;
      assert PollFrom(opts, statuses, results, a).trace == [];
    }
  }

  /** The number of events of each kind in a run from attempt `a`, in terms of the
      attempt `s` at which the loop stops (`maxAttempts` when it never does). */
  predicate CountsAsSettled(opts: PollOptions, statuses: nat -> Reply<AnalysisStatus>,
                            results: Reply<AnalysisResults>, a: nat, kind: EventKind)
  {
    var run := PollFrom(opts, statuses, results, a);
    var s := Settle(statuses, a, opts.maxAttempts);
    var stopped := s < opts.maxAttempts;
    && (kind == StatusRequestKind ==> Count(run.trace, kind) == if stopped then s - a + 1 else s - a)
    && (kind == SleptKind ==> Count(run.trace, kind) == s - a)
    && (kind == ResultsRequestKind ==>
          Count(run.trace, kind) == if stopped && statuses(s) == Ok(Completed) then 1 else 0)
    && (kind == CombinedRequestKind ==> Count(run.trace, kind) == 0)
  }

  lemma PollCountsPolling(opts: PollOptions, statuses: nat -> Reply<AnalysisStatus>,
                          results: Reply<AnalysisResults>, a: nat, kind: EventKind)
    requires a < opts.maxAttempts && KeepsPolling(statuses(a))
    requires CountsAsSettled(opts, statuses, results, a + 1, kind)
    ensures CountsAsSettled(opts, statuses, results, a, kind)
  {
    PollingStepCounts(opts, statuses, results, a, kind);
    assert Settle(statuses, a, opts.maxAttempts) == Settle(statuses, a + 1, opts.maxAttempts);
  }

  lemma PollCountsFinal(opts: PollOptions, statuses: nat -> Reply<AnalysisStatus>,
                        results: Reply<AnalysisResults>, a: nat, kind: EventKind)
    requires a < opts.maxAttempts && !KeepsPolling(statuses(a))
    ensures CountsAsSettled(opts, statuses, results, a, kind)
  {
    FinalStepCounts(opts, statuses, results, a, kind);
    assert Settle(statuses, a, opts.maxAttempts) == a;
  }

  lemma PollCountsAll(opts: PollOptions, statuses: nat -> Reply<AnalysisStatus>,
                      results: Reply<AnalysisResults>)
    ensures var run := PollFrom(opts, statuses, results, 0);
            var s := Settle(statuses, 0, opts.maxAttempts);
            var stopped := s < opts.maxAttempts;
            && Count(run.trace, StatusRequestKind) == (if stopped then s + 1 else s)
            && Count(run.trace, SleptKind) == s
            && Count(run.trace, ResultsRequestKind) == (if stopped && statuses(s) == Ok(Completed) then 1 else 0)
            && Count(run.trace, CombinedRequestKind) == 0
  {
    PollCounts(opts, statuses, results, 0, StatusRequestKind);
    PollCounts(opts, statuses, results, 0, SleptKind);
    PollCounts(opts, statuses, results, 0, ResultsRequestKind);
    PollCounts(opts, statuses, results, 0, CombinedRequestKind);
  }

  /** A run from attempt `a` hands the observer, if there is one, the status of every
      ok reply it received, in request order. */
  lemma {:induction false} PollObservations(opts: PollOptions, statuses: nat -> Reply<AnalysisStatus>,
                                            results: Reply<AnalysisResults>, a: nat)
    ensures Observations(PollFrom(opts, statuses, results, a).trace)
         == ExpectedObservations(opts.hasObserver, statuses, a, opts.maxAttempts)
    decreases opts.maxAttempts - a
  {
    if a < opts.maxAttempts {
      if KeepsPolling(statuses(a)) {
        PollObservations(opts, statuses, results, a + 1);
        PollObservationsPolling(opts, statuses, results, a);
      } else {
        PollObservationsFinal(opts, statuses, results, a);
      }
    } else {
      assert Settle(statuses, a, opts.maxAttempts) == a;
      assert PollFrom(opts, statuses, results, a).trace == [];
    }
  }

  lemma PollObservationsPolling(opts: PollOptions, statuses: nat -> Reply<AnalysisStatus>,
                                results: Reply<AnalysisResults>, a: nat)
    requires a < opts.maxAttempts && KeepsPolling(statuses(a))
    requires Observations(PollFrom(opts, statuses, results, a + 1).trace)
          == ExpectedObservations(opts.hasObserver, statuses, a + 1, opts.maxAttempts)
    ensures Observations(PollFrom(opts, statuses, results, a).trace)
         == ExpectedObservations(opts.hasObserver, statuses, a, opts.maxAttempts)
  {
    PollingStepObservations(opts, statuses, results, a);
    var s := Settle(statuses, a + 1, opts.maxAttempts);
    assert Settle(statuses, a, opts.maxAttempts) == s;
    AnsweredStatusesStep(statuses, a, if s < opts.maxAttempts then s + 1 else s);
  }

  lemma PollObservationsFinal(opts: PollOptions, statuses: nat -> Reply<AnalysisStatus>,
                              results: Reply<AnalysisResults>, a: nat)
    requires a < opts.maxAttempts && !KeepsPolling(statuses(a))
    ensures Observations(PollFrom(opts, statuses, results, a).trace)
         == ExpectedObservations(opts.hasObserver, statuses, a, opts.maxAttempts)
  {
    FinalStepCounts(opts, statuses, results, a, ObservedKind);
    assert Settle(statuses, a, opts.maxAttempts) == a;
    AnsweredStatusesStep(statuses, a, a + 1);
  }

  /** The options when only the id and perhaps an observer are passed. */
  function DefaultPollOptions(requestId: string, hasObserver: bool): (opts: PollOptions)
    ensures opts.requestId == requestId && opts.hasObserver == hasObserver
    ensures opts.interval == DefaultInterval && opts.maxAttempts == DefaultMaxAttempts
  {
    PollOptions(requestId, hasObserver, DefaultInterval, DefaultMaxAttempts)
  }

  // ---------------------------------------------------------------------------
  // The loop's promises, stated over the script of replies
  // ---------------------------------------------------------------------------

  /** The poller resolves if and only if `completed` arrives within the first
      `maxAttempts` statuses with only `pending`/`processing` before it, and the
      results fetch succeeds; it then returns exactly that fetch's body. Reaching
      `completed` is also exactly when it fetches results, once, for the same id,
      as its last action. */
  lemma PollResolvesIff(opts: PollOptions, statuses: nat -> Reply<AnalysisStatus>, results: Reply<AnalysisResults>)
    ensures var run := PollFrom(opts, statuses, results, 0);
            var reached := exists i: nat :: i < opts.maxAttempts && PollingThrough(statuses, i)
                                             && statuses(i) == Ok(Completed);
            && (run.outcome.Resolved? <==> reached && results.Ok?)
            && (run.outcome.Resolved? ==> run.outcome.value == results.body)
            && (reached <==> Count(run.trace, ResultsRequestKind) == 1)
            && (reached ==> |run.trace| > 0 && run.trace[|run.trace| - 1] == ResultsRequest(opts.requestId))
  {
    var run := PollFrom(opts, statuses, results, 0);
    var s := Settle(statuses, 0, opts.maxAttempts);
    PollOutcome(opts, statuses, results, 0);
    PollCountsAll(opts, statuses, results);
    var reached := exists i: nat :: i < opts.maxAttempts && PollingThrough(statuses, i)
                                    && statuses(i) == Ok(Completed);
    if reached {
      var i: nat :| i < opts.maxAttempts && PollingThrough(statuses, i) && statuses(i) == Ok(Completed);
      SettleIsFirstStop(statuses, opts.maxAttempts, i);
      CompletedRunEndsWithFetch(opts, statuses, results, 0);
    } else if s < opts.maxAttempts && statuses(s) == Ok(Completed) {
      assert PollingThrough(statuses, s);
    }
  }

  /** A run that reaches `completed` ends with the results request. */
  lemma {:induction false} CompletedRunEndsWithFetch(opts: PollOptions, statuses: nat -> Reply<AnalysisStatus>,
                                                     results: Reply<AnalysisResults>, a: nat)
    requires Settle(statuses, a, opts.maxAttempts) < opts.maxAttempts
    requires statuses(Settle(statuses, a, opts.maxAttempts)) == Ok(Completed)
    ensures var t := PollFrom(opts, statuses, results, a).trace;
            |t| > 0 && t[|t| - 1] == ResultsRequest(opts.requestId)
    decreases opts.maxAttempts - a
  {
    if statuses(a) != Ok(Completed) {
      CompletedRunEndsWithFetch(opts, statuses, results, a + 1);
    }
  }

  /** The first `failed` ends the run at once: "Analysis failed", one status request
      per attempt up to it, a sleep only after each earlier status, no results fetch. */
  lemma PollFailsAtFirstFailed(opts: PollOptions, statuses: nat -> Reply<AnalysisStatus>,
                               results: Reply<AnalysisResults>, i: nat)
    requires i < opts.maxAttempts && PollingThrough(statuses, i) && statuses(i) == Ok(Failed)
    ensures var run := PollFrom(opts, statuses, results, 0);
            && run.outcome == Rejected(PlainError(AnalysisFailedMessage))
            && Count(run.trace, StatusRequestKind) == i + 1
            && Count(run.trace, SleptKind) == i
            && Count(run.trace, ResultsRequestKind) == 0
  {
    SettleIsFirstStop(statuses, opts.maxAttempts, i);
    PollOutcome(opts, statuses, results, 0);
    PollCountsAll(opts, statuses, results);
  }

  /** A non-ok status response is not retried: the run rejects with that call's
      `ApiError` (carrying the HTTP status) right after that request. */
  lemma PollPropagatesStatusError(opts: PollOptions, statuses: nat -> Reply<AnalysisStatus>,
                                  results: Reply<AnalysisResults>, i: nat)
    requires i < opts.maxAttempts && PollingThrough(statuses, i) && statuses(i).NotOk?
    ensures var run := PollFrom(opts, statuses, results, 0);
            && run.outcome == Rejected(ApiError(statuses(i).status, StatusFailurePrefix + statuses(i).statusText))
            && Count(run.trace, StatusRequestKind) == i + 1
            && Count(run.trace, SleptKind) == i
            && Count(run.trace, ResultsRequestKind) == 0
  {
    SettleIsFirstStop(statuses, opts.maxAttempts, i);
    PollOutcome(opts, statuses, results, 0);
    PollCountsAll(opts, statuses, results);
  }

  /** The poller times out exactly when all of the first `maxAttempts` statuses are
      `pending` or `processing`; it has then made `maxAttempts` status requests and
      as many sleeps and never fetched results. */
  lemma PollTimesOutIff(opts: PollOptions, statuses: nat -> Reply<AnalysisStatus>, results: Reply<AnalysisResults>)
    ensures var run := PollFrom(opts, statuses, results, 0);
            && (run.outcome == Rejected(PlainError(TimedOutMessage)) <==> PollingThrough(statuses, opts.maxAttempts))
            && (PollingThrough(statuses, opts.maxAttempts) ==>
                  var n := if opts.maxAttempts <= 0 then 0 else opts.maxAttempts;
                  && Count(run.trace, StatusRequestKind) == n
                  && Count(run.trace, SleptKind) == n
                  && Count(run.trace, ResultsRequestKind) == 0)
  {
    var s := Settle(statuses, 0, opts.maxAttempts);
    PollOutcome(opts, statuses, results, 0);
    PollCountsAll(opts, statuses, results);
    if PollingThrough(statuses, opts.maxAttempts) {
      if opts.maxAttempts > 0 {
        SettleIsFirstStop(statuses, opts.maxAttempts, opts.maxAttempts);
      }
    } else {
      assert s < opts.maxAttempts;
    }
  }

  /** With an observer, it is called once per answered status request, in request
      order, with that request's status; without one nothing is observed. */
  lemma PollObservesEachStatus(opts: PollOptions, statuses: nat -> Reply<AnalysisStatus>,
                               results: Reply<AnalysisResults>)
    ensures var run := PollFrom(opts, statuses, results, 0);
            Observations(run.trace)
            == if opts.hasObserver then AnsweredStatuses(statuses, 0, Count(run.trace, StatusRequestKind)) else []
  {
    PollObservations(opts, statuses, results, 0);
    PollCountsAll(opts, statuses, results);
  }

  /** With the defaults a run makes at most thirty status requests and spends at
      most a minute asleep, whatever the server answers. */
  lemma PollWithDefaultsIsBounded(requestId: string, hasObserver: bool, statuses: nat -> Reply<AnalysisStatus>,
                                  results: Reply<AnalysisResults>)
    ensures var run := PollFrom(DefaultPollOptions(requestId, hasObserver), statuses, results, 0);
            && Count(run.trace, StatusRequestKind) <= 30
            && Count(run.trace, SleptKind) * DefaultInterval <= 60000
  {
    PollCountsAll(DefaultPollOptions(requestId, hasObserver), statuses, results);
  }

  /** Interval 10, three attempts, statuses pending, processing, completed: three
      status requests, two sleeps, then one results fetch, whose body is returned. */
  lemma CompletesOnThirdAttempt(requestId: string, results: AnalysisResults)
    ensures var statuses := (j: nat) => if j == 0 then Ok(Pending) else if j == 1 then Ok(Processing) else Ok(Completed);
            var run := PollFrom(PollOptions(requestId, false, 10, 3), statuses, Ok(results), 0);
            && run.outcome == Resolved(results)
            && run.trace == [StatusRequest(requestId), Slept(10), StatusRequest(requestId), Slept(10),
                             StatusRequest(requestId), ResultsRequest(requestId)]
  {
    var opts := PollOptions(requestId, false, 10, 3);
    var statuses := (j: nat) => if j == 0 then Ok(Pending) else if j == 1 then Ok(Processing) else Ok(Completed);
    var third := PollFrom(opts, statuses, Ok(results), 2);
    assert third == PollRun(Resolved(results), [StatusRequest(requestId)] + [ResultsRequest(requestId)]);
    var second := PollFrom(opts, statuses, Ok(results), 1);
    assert second == PollRun(third.outcome, [StatusRequest(requestId)] + [Slept(10)] + third.trace);
    assert PollFrom(opts, statuses, Ok(results), 0)
        == PollRun(second.outcome, [StatusRequest(requestId)] + [Slept(10)] + second.trace);
  }

  /** Two attempts, both pending: a timeout after exactly two status requests and
      no results fetch. */
  lemma TimesOutAfterTwoPending(requestId: string, results: Reply<AnalysisResults>)
    ensures var run := PollFrom(PollOptions(requestId, false, 10, 2), (j: nat) => Ok(Pending), results, 0);
            && run.outcome == Rejected(PlainError(TimedOutMessage))
            && run.trace == [StatusRequest(requestId), Slept(10), StatusRequest(requestId), Slept(10)]
  {
    var opts := PollOptions(requestId, false, 10, 2);
    var statuses := (j: nat) => Ok(Pending);
    var third := PollFrom(opts, statuses, results, 2);
    assert third == PollRun(Rejected(PlainError(TimedOutMessage)), []);
    var second := PollFrom(opts, statuses, results, 1);
    assert second == PollRun(third.outcome, [StatusRequest(requestId)] + [Slept(10)] + third.trace);
    assert PollFrom(opts, statuses, results, 0)
        == PollRun(second.outcome, [StatusRequest(requestId)] + [Slept(10)] + second.trace);
  }
}
