/** The second client, app/lib/api.ts. Its `getAnalysisStatus` and
    `getAnalysisResults` are the same as those of lib/api.ts (see `Api`); what
    differs is `startAnalysis`, which throws a plain `Error`, and
    `pollAnalysisCompletion`, which asks the combined endpoint `/api/analyze/{id}`
    for the status and the results in one reply and always calls its observer. */
module VariantApi {
  import opened Common
  import opened ApiTypes
  import Api

  const StartFailedMessage := "Failed to start analysis"
  const FetchFailedMessage := "Failed to fetch analysis status"

  /** `startAnalysis` (POST /api/analyze): a non-ok reply rejects with a plain
      `Error` whose message carries neither the HTTP status nor its text. */
  function VariantStartAnalysis(reply: Reply<string>): (r: Outcome<string>)
    ensures r.Resolved? <==> reply.Ok?
    ensures r.Resolved? ==> r.value == reply.body
    ensures r.Rejected? ==> r.error == PlainError(StartFailedMessage)
  {
    match reply
    case Ok(body) => Resolved(body)
    case NotOk(_, _) => Rejected(PlainError(StartFailedMessage))
  }

  /** The body of `/api/analyze/{id}`: the status, and `results` when the server
      sent them (the client does not check). */
  datatype CombinedBody = CombinedBody(status: AnalysisStatus, results: Option<AnalysisResults>)

  /** The status part of a combined reply, so that the stopping rule of both
      pollers can be stated over the same kind of script. */
  function StatusOf(reply: Reply<CombinedBody>): (r: Reply<AnalysisStatus>)
    ensures r.Ok? <==> reply.Ok?
    ensures r.Ok? ==> r.body == reply.body.status
    ensures r.NotOk? ==> r.status == reply.status && r.statusText == reply.statusText
  {
    match reply
    case Ok(body) => Ok(body.status)
    case NotOk(status, statusText) => NotOk(status, statusText)
  }

  function StatusesOf(replies: nat -> Reply<CombinedBody>): nat -> Reply<AnalysisStatus> {
    (j: nat) => StatusOf(replies(j))
  }

  /** The arguments of the variant `pollAnalysisCompletion`; the observer is not optional. */
  datatype VariantPollOptions = VariantPollOptions(requestId: string, interval: int, maxAttempts: int)

  /** The events of one attempt that got an ok reply. */
  function Seen(opts: VariantPollOptions, status: AnalysisStatus): seq<Event> {
    [CombinedRequest(opts.requestId), Observed(status)]
  }

  /** The rest of a variant polling run that has already made `attempts` attempts;
      it resolves with the `results` field as sent. */
  function VariantPollFrom(opts: VariantPollOptions, replies: nat -> Reply<CombinedBody>,
                           attempts: nat): PollRun<Option<AnalysisResults>>
    decreases opts.maxAttempts - attempts
  {
    if attempts >= opts.maxAttempts then PollRun(Rejected(PlainError(TimedOutMessage)), [])
    else
      match replies(attempts)
      case NotOk(_, _) => PollRun(Rejected(PlainError(FetchFailedMessage)), [CombinedRequest(opts.requestId)])
      case Ok(data) =>
        if data.status == Completed then PollRun(Resolved(data.results), Seen(opts, data.status))
        else if data.status == Failed then PollRun(Rejected(PlainError(AnalysisFailedMessage)), Seen(opts, data.status))
        else
          var rest := VariantPollFrom(opts, replies, attempts + 1);
          PollRun(rest.outcome, Seen(opts, data.status) + [Slept(opts.interval)] + rest.trace)
  }

  /** What one pass of the loop body did. */
  datatype VariantPass =
    | Stop(outcome: Outcome<Option<AnalysisResults>>, events: seq<Event>)
    | Continue(events: seq<Event>)

  /** One pass of the loop body at attempt `a`. */
  method VariantPollAttempt(opts: VariantPollOptions, replies: nat -> Reply<CombinedBody>, a: nat)
    returns (pass: VariantPass)
    requires a < opts.maxAttempts
    ensures pass.Stop? <==> !KeepsPolling(StatusOf(replies(a)))
    ensures pass.Stop? ==> VariantPollFrom(opts, replies, a) == PollRun(pass.outcome, pass.events)
    ensures pass.Continue? ==> var rest := VariantPollFrom(opts, replies, a + 1);
                               VariantPollFrom(opts, replies, a) == PollRun(rest.outcome, pass.events + rest.trace)
  {
    var response := replies(a);
    var events := [CombinedRequest(opts.requestId)];
    if response.NotOk? {
      return Stop(Rejected(PlainError(FetchFailedMessage)), events);
    }
    var data := response.body;
    events := events + [Observed(data.status)];
    if data.status == Completed {
      return Stop(Resolved(data.results), events);
    }
    if data.status == Failed {
      return Stop(Rejected(PlainError(AnalysisFailedMessage)), events);
    }
    return Continue(events + [Slept(opts.interval)]);
  }

  /** The variant `pollAnalysisCompletion` as the loop of app/lib/api.ts. */
  method VariantPollAnalysisCompletion(opts: VariantPollOptions, replies: nat -> Reply<CombinedBody>)
    returns (outcome: Outcome<Option<AnalysisResults>>, trace: seq<Event>)
    ensures PollRun(outcome, trace) == VariantPollFrom(opts, replies, 0)
    ensures opts.maxAttempts <= 0 ==> outcome == Rejected(PlainError(TimedOutMessage)) && trace == []
  {
    ghost var whole := VariantPollFrom(opts, replies, 0);
    var attempts: nat := 0;
    trace := [];
    while attempts < opts.maxAttempts
      invariant whole.outcome == VariantPollFrom(opts, replies, attempts).outcome
      invariant whole.trace == trace + VariantPollFrom(opts, replies, attempts).trace
      decreases opts.maxAttempts - attempts
    {
      var pass := VariantPollAttempt(opts, replies, attempts);
      if pass.Stop? {
        return pass.outcome, trace + pass.events;
      }
      AppendAssoc(trace, pass.events, VariantPollFrom(opts, replies, attempts + 1).trace);
      trace := trace + pass.events;
      attempts := attempts + 1;
    }
    outcome := Rejected(PlainError(TimedOutMessage));
  }

  // ---------------------------------------------------------------------------
  // What a run does, in terms of the first reply that ends it
  // ---------------------------------------------------------------------------

  /** A run from attempt `a` settles as the reply at `s` dictates: timeout when the
      attempts ran out, "Failed to fetch analysis status" on a non-ok reply,
      "Analysis failed" on `failed`, and the reply's `results` on `completed`. */
  lemma {:induction false} VariantPollOutcome(opts: VariantPollOptions, replies: nat -> Reply<CombinedBody>, a: nat)
    ensures var run := VariantPollFrom(opts, replies, a);
            var s := Settle(StatusesOf(replies), a, opts.maxAttempts);
            && (s >= opts.maxAttempts ==> run.outcome == Rejected(PlainError(TimedOutMessage)))
            && (s < opts.maxAttempts && replies(s).NotOk? ==>
                  run.outcome == Rejected(PlainError(FetchFailedMessage)))
            && (s < opts.maxAttempts && replies(s).Ok? && replies(s).body.status == Failed ==>
                  run.outcome == Rejected(PlainError(AnalysisFailedMessage)))
            && (s < opts.maxAttempts && replies(s).Ok? && replies(s).body.status == Completed ==>
                  run.outcome == Resolved(replies(s).body.results))
    decreases opts.maxAttempts - a
  {
    if a < opts.maxAttempts && KeepsPolling(StatusOf(replies(a))) {
      VariantPollOutcome(opts, replies, a + 1);
    }
  }

  lemma SeenCounts(opts: VariantPollOptions, status: AnalysisStatus, kind: EventKind)
    ensures Count(Seen(opts, status), kind) == if kind == CombinedRequestKind || kind == ObservedKind then 1 else 0
    ensures Observations(Seen(opts, status)) == [status]
  {
    var seen := Seen(opts, status);
    assert seen == [CombinedRequest(opts.requestId)] + [Observed(status)];
    CountAppend([CombinedRequest(opts.requestId)], [Observed(status)], kind);
    ObservationsAppend([CombinedRequest(opts.requestId)], [Observed(status)]);
    CountSingle(CombinedRequest(opts.requestId), kind);
    CountSingle(Observed(status), kind);
  }

  /** An attempt that got `pending` or `processing`: its events, a sleep, then the rest of the run. */
  lemma VariantPollingStep(opts: VariantPollOptions, replies: nat -> Reply<CombinedBody>, a: nat)
    requires a < opts.maxAttempts && KeepsPolling(StatusOf(replies(a)))
    ensures var rest := VariantPollFrom(opts, replies, a + 1);
            VariantPollFrom(opts, replies, a).trace
            == Seen(opts, replies(a).body.status) + ([Slept(opts.interval)] + rest.trace)
  {
    var rest := VariantPollFrom(opts, replies, a + 1);
    AppendAssoc(Seen(opts, replies(a).body.status), [Slept(opts.interval)], rest.trace);
  }

  lemma VariantPollingStepCounts(opts: VariantPollOptions, replies: nat -> Reply<CombinedBody>, a: nat,
                                 kind: EventKind)
    requires a < opts.maxAttempts && KeepsPolling(StatusOf(replies(a)))
    ensures Count(VariantPollFrom(opts, replies, a).trace, kind)
         == (if kind == CombinedRequestKind || kind == ObservedKind || kind == SleptKind then 1 else 0)
            + Count(VariantPollFrom(opts, replies, a + 1).trace, kind)
    ensures Observations(VariantPollFrom(opts, replies, a).trace)
         == [replies(a).body.status] + Observations(VariantPollFrom(opts, replies, a + 1).trace)
  {
    var status := replies(a).body.status;
    var rest := VariantPollFrom(opts, replies, a + 1).trace;
    VariantPollingStep(opts, replies, a);
    CountAppend(Seen(opts, status), [Slept(opts.interval)] + rest, kind);
    CountAppend([Slept(opts.interval)], rest, kind);
    ObservationsAppend(Seen(opts, status), [Slept(opts.interval)] + rest);
    ObservationsAppend([Slept(opts.interval)], rest);
    SeenCounts(opts, status, kind);
    CountSingle(Slept(opts.interval), kind);
    assert [] + Observations(rest) == Observations(rest);
  }

  lemma VariantFinalStep(opts: VariantPollOptions, replies: nat -> Reply<CombinedBody>, a: nat, kind: EventKind)
    requires a < opts.maxAttempts && !KeepsPolling(StatusOf(replies(a)))
    ensures Count(VariantPollFrom(opts, replies, a).trace, kind)
         == (if kind == CombinedRequestKind then 1 else 0)
            + (if kind == ObservedKind && replies(a).Ok? then 1 else 0)
    ensures Observations(VariantPollFrom(opts, replies, a).trace)
         == if replies(a).Ok? then [replies(a).body.status] else []
  {
    var reply := replies(a);
    if reply.NotOk? {
      assert VariantPollFrom(opts, replies, a).trace == [CombinedRequest(opts.requestId)];
      CountSingle(CombinedRequest(opts.requestId), kind);
    } else {
      assert VariantPollFrom(opts, replies, a).trace == Seen(opts, reply.body.status);
      SeenCounts(opts, reply.body.status, kind);
    }
  }

  /** A run from attempt `a` makes one combined request per attempt up to and
      including the stopping one, sleeps once after each in-progress status, and
      never uses the separate status or results endpoints. */
  lemma {:induction false} VariantPollCounts(opts: VariantPollOptions, replies: nat -> Reply<CombinedBody>,
                                             a: nat, kind: EventKind)
    ensures VariantCountsAsSettled(opts, replies, a, kind)
    decreases opts.maxAttempts - a
  {
    if a < opts.maxAttempts {
      if KeepsPolling(StatusOf(replies(a))) {
        VariantPollCounts(opts, replies, a + 1, kind);
        VariantPollCountsPolling(opts, replies, a, kind);
      } else {
        VariantPollCountsFinal(opts, replies, a, kind);
      }
    } else {
      assert Settle(StatusesOf(replies), a, opts.maxAttempts) == a;
      assert VariantPollFrom(opts, replies, a).trace == [];
    }
  }

  /** The number of events of each kind in a variant run from attempt `a`, in terms of
      the attempt `s` at which the loop stops (`maxAttempts` when it never does). */
  predicate VariantCountsAsSettled(opts: VariantPollOptions, replies: nat -> Reply<CombinedBody>, a: nat, kind: EventKind)
  {
    var run := VariantPollFrom(opts, replies, a);
    var s := Settle(StatusesOf(replies), a, opts.maxAttempts);
    var stopped := s < opts.maxAttempts;
    && (kind == CombinedRequestKind ==> Count(run.trace, kind) == if stopped then s - a + 1 else s - a)
    && (kind == SleptKind ==> Count(run.trace, kind) == s - a)
    && (kind == StatusRequestKind ==> Count(run.trace, kind) == 0)
    && (kind == ResultsRequestKind ==> Count(run.trace, kind) == 0)
  }

  lemma VariantPollCountsPolling(opts: VariantPollOptions, replies: nat -> Reply<CombinedBody>, a: nat, kind: EventKind)
    requires a < opts.maxAttempts && KeepsPolling(StatusOf(replies(a)))
    requires VariantCountsAsSettled(opts, replies, a + 1, kind)
    ensures VariantCountsAsSettled(opts, replies, a, kind)
  {
    var statuses := StatusesOf(replies);
    assert statuses(a) == StatusOf(replies(a));
    VariantPollingStepCounts(opts, replies, a, kind);
    assert Settle(statuses, a, opts.maxAttempts) == Settle(statuses, a + 1, opts.maxAttempts);
  }

  lemma VariantPollCountsFinal(opts: VariantPollOptions, replies: nat -> Reply<CombinedBody>, a: nat, kind: EventKind)
    requires a < opts.maxAttempts && !KeepsPolling(StatusOf(replies(a)))
    ensures VariantCountsAsSettled(opts, replies, a, kind)
  {
    var statuses := StatusesOf(replies);
    assert statuses(a) == StatusOf(replies(a));
    VariantFinalStep(opts, replies, a, kind);
    assert Settle(statuses, a, opts.maxAttempts) == a;
  }

  /** The observer sees the status of every ok reply, in request order. */
  lemma {:induction false} VariantPollObservations(opts: VariantPollOptions, replies: nat -> Reply<CombinedBody>, a: nat)
    ensures Observations(VariantPollFrom(opts, replies, a).trace)
         == ExpectedObservations(true, StatusesOf(replies), a, opts.maxAttempts)
    decreases opts.maxAttempts - a
  {
    if a < opts.maxAttempts {
      if KeepsPolling(StatusOf(replies(a))) {
        VariantPollObservations(opts, replies, a + 1);
        VariantPollObservationsPolling(opts, replies, a);
      } else {
        VariantPollObservationsFinal(opts, replies, a);
      }
    } else {
      assert Settle(StatusesOf(replies), a, opts.maxAttempts) == a;
      assert VariantPollFrom(opts, replies, a).trace == [];
    }
  }

  lemma VariantPollObservationsPolling(opts: VariantPollOptions, replies: nat -> Reply<CombinedBody>, a: nat)
    requires a < opts.maxAttempts && KeepsPolling(StatusOf(replies(a)))
    requires Observations(VariantPollFrom(opts, replies, a + 1).trace)
          == ExpectedObservations(true, StatusesOf(replies), a + 1, opts.maxAttempts)
    ensures Observations(VariantPollFrom(opts, replies, a).trace)
         == ExpectedObservations(true, StatusesOf(replies), a, opts.maxAttempts)
  {
    var statuses := StatusesOf(replies);
    assert statuses(a) == StatusOf(replies(a));
    VariantPollingStepCounts(opts, replies, a, ObservedKind);
    var s := Settle(statuses, a + 1, opts.maxAttempts);
    assert Settle(statuses, a, opts.maxAttempts) == s;
    AnsweredStatusesStep(statuses, a, if s < opts.maxAttempts then s + 1 else s);
  }

  lemma VariantPollObservationsFinal(opts: VariantPollOptions, replies: nat -> Reply<CombinedBody>, a: nat)
    requires a < opts.maxAttempts && !KeepsPolling(StatusOf(replies(a)))
    ensures Observations(VariantPollFrom(opts, replies, a).trace)
         == ExpectedObservations(true, StatusesOf(replies), a, opts.maxAttempts)
  {
    var statuses := StatusesOf(replies);
    assert statuses(a) == StatusOf(replies(a));
    VariantFinalStep(opts, replies, a, ObservedKind);
    assert Settle(statuses, a, opts.maxAttempts) == a;
    AnsweredStatusesStep(statuses, a, a + 1);
  }

  // ---------------------------------------------------------------------------
  // The two pollers side by side
  // ---------------------------------------------------------------------------

  /** Fed the same statuses (a non-ok combined reply playing the part of a non-ok
      status reply) and with an observer on the lib/api.ts side, the two pollers
      stop at the same attempt: they make as many requests, sleep as often and
      observe the same statuses; they time out together and fail on `failed`
      together. Where they part: the variant never fetches results separately,
      resolves whenever it reaches `completed` (whatever `results` holds, and
      whatever a results fetch would have answered), and turns a non-ok reply into
      a plain error without the HTTP status. */
  lemma PollersAgree(opts: VariantPollOptions, replies: nat -> Reply<CombinedBody>, results: Reply<AnalysisResults>)
    ensures var libOpts := Api.PollOptions(opts.requestId, true, opts.interval, opts.maxAttempts);
            var lib := Api.PollFrom(libOpts, StatusesOf(replies), results, 0);
            var variant := VariantPollFrom(opts, replies, 0);
            && Count(variant.trace, CombinedRequestKind) == Count(lib.trace, StatusRequestKind)
            && Count(variant.trace, SleptKind) == Count(lib.trace, SleptKind)
            && Count(variant.trace, ResultsRequestKind) == 0
            && Observations(variant.trace) == Observations(lib.trace)
            && (variant.outcome == Rejected(PlainError(TimedOutMessage))
                <==> lib.outcome == Rejected(PlainError(TimedOutMessage)))
            && (variant.outcome == Rejected(PlainError(AnalysisFailedMessage))
                <==> lib.outcome == Rejected(PlainError(AnalysisFailedMessage)))
            && (variant.outcome.Resolved? <==> Count(lib.trace, ResultsRequestKind) == 1)
            && (lib.outcome.Rejected? && lib.outcome.error.ApiError? && Count(lib.trace, ResultsRequestKind) == 0
                <==> variant.outcome == Rejected(PlainError(FetchFailedMessage)))
  {
    PollersAgreeOnEvents(opts, replies, results);
    PollersAgreeOnOutcome(opts, replies, results);
  }

  /** The two runs make as many status requests, sleep as often and observe the same statuses. */
  lemma PollersAgreeOnEvents(opts: VariantPollOptions, replies: nat -> Reply<CombinedBody>,
                             results: Reply<AnalysisResults>)
    ensures var libOpts := Api.PollOptions(opts.requestId, true, opts.interval, opts.maxAttempts);
            var lib := Api.PollFrom(libOpts, StatusesOf(replies), results, 0);
            var variant := VariantPollFrom(opts, replies, 0);
            && Count(variant.trace, CombinedRequestKind) == Count(lib.trace, StatusRequestKind)
            && Count(variant.trace, SleptKind) == Count(lib.trace, SleptKind)
            && Count(variant.trace, ResultsRequestKind) == 0
            && Observations(variant.trace) == Observations(lib.trace)
  {
    var libOpts := Api.PollOptions(opts.requestId, true, opts.interval, opts.maxAttempts);
    var statuses := StatusesOf(replies);
    VariantPollCounts(opts, replies, 0, CombinedRequestKind);
    VariantPollCounts(opts, replies, 0, SleptKind);
    VariantPollCounts(opts, replies, 0, ResultsRequestKind);
    VariantPollObservations(opts, replies, 0);
    Api.PollCounts(libOpts, statuses, results, 0, StatusRequestKind);
    Api.PollCounts(libOpts, statuses, results, 0, SleptKind);
    Api.PollObservations(libOpts, statuses, results, 0);
  }

  /** The two runs time out together and fail on `failed` together; the variant
      resolves exactly when the lib/api.ts poller fetches results, and reports a
      fetch failure exactly when the other rejects with the status reply's error. */
  lemma PollersAgreeOnOutcome(opts: VariantPollOptions, replies: nat -> Reply<CombinedBody>,
                              results: Reply<AnalysisResults>)
    ensures var libOpts := Api.PollOptions(opts.requestId, true, opts.interval, opts.maxAttempts);
            var lib := Api.PollFrom(libOpts, StatusesOf(replies), results, 0);
            var variant := VariantPollFrom(opts, replies, 0);
            && (variant.outcome == Rejected(PlainError(TimedOutMessage))
                <==> lib.outcome == Rejected(PlainError(TimedOutMessage)))
            && (variant.outcome == Rejected(PlainError(AnalysisFailedMessage))
                <==> lib.outcome == Rejected(PlainError(AnalysisFailedMessage)))
            && (variant.outcome.Resolved? <==> Count(lib.trace, ResultsRequestKind) == 1)
            && (lib.outcome.Rejected? && lib.outcome.error.ApiError? && Count(lib.trace, ResultsRequestKind) == 0
                <==> variant.outcome == Rejected(PlainError(FetchFailedMessage)))
  {
    var libOpts := Api.PollOptions(opts.requestId, true, opts.interval, opts.maxAttempts);
    var statuses := StatusesOf(replies);
    var s := Settle(statuses, 0, opts.maxAttempts);
    VariantPollOutcome(opts, replies, 0);
    Api.PollOutcome(libOpts, statuses, results, 0);
    Api.PollCounts(libOpts, statuses, results, 0, ResultsRequestKind);
    if s < opts.maxAttempts {
      assert statuses(s) == StatusOf(replies(s));
    }
  }
}
