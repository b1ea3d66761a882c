/** The vocabulary both API client files declare (lib/api.ts and app/lib/api.ts):
    the job status, the opaque results payload, what a rejected promise carries,
    an abstract `fetch` reply, and the observable events of a polling run. */
module ApiTypes {
  import opened Common

  datatype AnalysisStatus = Pending | Processing | Completed | Failed

  /** The results document; the client hands it on without looking inside. */
  datatype AnalysisResults = AnalysisResults(json: string)

  /** What a rejected promise carries: the client's `ApiError` (HTTP status and
      message) or a plain `Error` with only a message. */
  datatype Error = ApiError(status: int, message: string) | PlainError(message: string)

  /** How an `async` call settles. */
  datatype Outcome<+T> = Resolved(value: T) | Rejected(error: Error)

  /** One `fetch`: either `response.ok` with its decoded JSON body, or a non-2xx
      status with its status text. */
  datatype Reply<+T> = Ok(body: T) | NotOk(status: int, statusText: string)

  /** The default pause between status requests, in milliseconds, and the default
      number of attempts, in both clients. */
  const DefaultInterval := 2000
  const DefaultMaxAttempts := 30

  const AnalysisFailedMessage := "Analysis failed"
  const TimedOutMessage := "Analysis timed out"

  /** A status that makes the poller wait and ask again. */
  predicate InProgress(status: AnalysisStatus) {
    status == Pending || status == Processing
  }

  /** A status reply after which the loop goes round again. */
  predicate KeepsPolling(reply: Reply<AnalysisStatus>) {
    reply.Ok? && InProgress(reply.body)
  }

  /** The first `i` status replies all kept the loop going. */
  predicate PollingThrough(statuses: nat -> Reply<AnalysisStatus>, i: int) {
    forall j: nat :: j < i ==> KeepsPolling(statuses(j))
  }

  /** The index of the first reply at or after `from` that ends the loop, or
      `maxAttempts` when the attempts run out first (`from` itself when there are
      no attempts left). */
  function Settle(statuses: nat -> Reply<AnalysisStatus>, from: nat, maxAttempts: int): (s: nat)
    ensures from <= s
    ensures from < maxAttempts ==> s <= maxAttempts
    ensures from >= maxAttempts ==> s == from
    ensures forall j: nat :: from <= j < s ==> KeepsPolling(statuses(j))
    ensures s < maxAttempts ==> !KeepsPolling(statuses(s))
    decreases maxAttempts - from
  {
    if from >= maxAttempts || !KeepsPolling(statuses(from)) then from
    else Settle(statuses, from + 1, maxAttempts)
  }

  /** `Settle` from the first attempt is the unique stopping point. */
  lemma SettleIsFirstStop(statuses: nat -> Reply<AnalysisStatus>, maxAttempts: int, i: nat)
    requires PollingThrough(statuses, i)
    requires i < maxAttempts ==> !KeepsPolling(statuses(i))
    requires i <= maxAttempts
    ensures Settle(statuses, 0, maxAttempts) == i
  {
  }

  // ---------------------------------------------------------------------------
  // Observable events of a polling run
  // ---------------------------------------------------------------------------

  datatype Event =
    | StatusRequest(requestId: string)    // GET .../analysis/{id}/status
    | CombinedRequest(requestId: string)  // GET /api/analyze/{id}
    | ResultsRequest(requestId: string)   // GET .../analysis/{id}
    | Observed(status: AnalysisStatus)    // onStatusUpdate(status)
    | Slept(interval: int)                // setTimeout(resolve, interval)

  datatype EventKind = StatusRequestKind | CombinedRequestKind | ResultsRequestKind | ObservedKind | SleptKind

  function KindOf(e: Event): EventKind {
    match e
    case StatusRequest(_) => StatusRequestKind
    case CombinedRequest(_) => CombinedRequestKind
    case ResultsRequest(_) => ResultsRequestKind
    case Observed(_) => ObservedKind
    case Slept(_) => SleptKind
  }

  /** A polling run: how the returned promise settles and what happened on the way. */
  datatype PollRun<+T> = PollRun(outcome: Outcome<T>, trace: seq<Event>)

  function Count(trace: seq<Event>, kind: EventKind): nat {
    if |trace| == 0 then 0
    else (if KindOf(trace[0]) == kind then 1 else 0) + Count(trace[1..], kind)
  }

  /** The statuses handed to the observer, in call order. */
  function Observations(trace: seq<Event>): seq<AnalysisStatus> {
    if |trace| == 0 then []
    else ObservationOf(trace[0]) + Observations(trace[1..])
  }

  lemma {:induction false} CountAppend(a: seq<Event>, b: seq<Event>, kind: EventKind)
    ensures Count(a + b, kind) == Count(a, kind) + Count(b, kind)
    decreases |a|
  {
    if |a| == 0 {
      assert a + b == b;
    } else {
      assert (a + b)[0] == a[0];
      assert (a + b)[1..] == a[1..] + b;
      CountAppend(a[1..], b, kind);
    }
  }

  lemma CountSingle(e: Event, kind: EventKind)
    ensures Count([e], kind) == if KindOf(e) == kind then 1 else 0
    ensures Observations([e]) == ObservationOf(e)
  {
    assert [e][1..] == [];
  }

  /** The observation contributed by one event. */
  function ObservationOf(e: Event): seq<AnalysisStatus> {
    if e.Observed? then [e.status] else []
  }

  lemma {:induction false} ObservationsAppend(a: seq<Event>, b: seq<Event>)
    ensures Observations(a + b) == Observations(a) + Observations(b)
    decreases |a|
  {
    if |a| == 0 {
      assert a + b == b;
    } else {
      assert (a + b)[0] == a[0];
      assert (a + b)[1..] == a[1..] + b;
      ObservationsAppend(a[1..], b);
      AppendAssoc(ObservationOf(a[0]), Observations(a[1..]), Observations(b));
    }
  }

  /** The bodies of the ok replies among queries `from` .. `to`-1, in order. */
  function AnsweredStatuses(statuses: nat -> Reply<AnalysisStatus>, from: nat, to: nat): seq<AnalysisStatus>
    decreases to - from
  {
    if from >= to then []
    else (if statuses(from).Ok? then [statuses(from).body] else []) + AnsweredStatuses(statuses, from + 1, to)
  }

  /** What an observer sees over a run from attempt `a`: the answered statuses up to
      and including the one that stops the loop (all of the first `maxAttempts` when
      none does), or nothing without an observer. */
  function ExpectedObservations(hasObserver: bool, statuses: nat -> Reply<AnalysisStatus>, a: nat, maxAttempts: int)
    : seq<AnalysisStatus>
  {
    var s := Settle(statuses, a, maxAttempts);
    if hasObserver then AnsweredStatuses(statuses, a, if s < maxAttempts then s + 1 else s) else []
  }

  lemma AnsweredStatusesStep(statuses: nat -> Reply<AnalysisStatus>, from: nat, to: nat)
    requires from < to
    ensures AnsweredStatuses(statuses, from, to)
         == (if statuses(from).Ok? then [statuses(from).body] else []) + AnsweredStatuses(statuses, from + 1, to)
    ensures from + 1 == to ==> AnsweredStatuses(statuses, from, to) == (if statuses(from).Ok? then [statuses(from).body] else [])
  {
  }
}
