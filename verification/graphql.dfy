/** The scrapers' GraphQL call: up to five attempts, retrying the gateway and rate-limit
    statuses, then the HTTP status check and the `errors` member of the answer. What the server
    answers to each attempt is an input; the tokens and back-off sleeps between attempts are
    not part of this module. */
module GraphQL {
  import opened Wrappers
  import opened GitHub

  /** The number of attempts before giving up. */
  const MaxRetries: nat := 5

  /** The prefix of the error raised for an answer carrying GraphQL errors. */
  const ErrorsPrefix := "GraphQL errors: "

  /** What the server answers to one attempt: the status code, the `errors` member of the
      body rendered as text when there is one, and the `data` member. */
  datatype Answer<D> = Answer(status: int, errors: Option<string>, data: D)

  /** The server's answer to each attempt, by attempt number. */
  type Server<D> = nat -> Answer<D>

  /** How a call ends: with the data, with the `RuntimeError` that reports GraphQL errors, or
      with the `HTTPError` of `raise_for_status`. */
  datatype Outcome<D> = Data(data: D) | QueryError(message: string) | HttpError(status: int)

  /** The statuses `raise_for_status` rejects: client and server errors. */
  predicate IsHttpError(status: int) {
    400 <= status < 600
  }

  /** An answer that is not retried ends the call: an error status raises, an `errors` member
      raises, anything else returns the data. */
  function Settle<D>(a: Answer<D>): Outcome<D> {
    if IsHttpError(a.status) then HttpError(a.status)
    else if a.errors.Some? then QueryError(ErrorsPrefix + a.errors.value)
    else Data(a.data)
  }

  /** The attempts from number `k` on: the outcome and the number of attempts made in all. */
  function Attempts<D>(server: Server<D>, k: nat): (r: (Outcome<D>, nat))
    requires k < MaxRetries
    ensures k < r.1 <= MaxRetries
    ensures forall j :: k <= j < r.1 - 1 ==> Retryable(server(j).status)
    ensures r.1 < MaxRetries ==> !Retryable(server(r.1 - 1).status)
    ensures !Retryable(server(r.1 - 1).status) ==> r.0 == Settle(server(r.1 - 1))
    ensures Retryable(server(r.1 - 1).status) ==> r.0 == HttpError(server(r.1 - 1).status)
    decreases MaxRetries - k
  {
    var a := server(k);
    if !Retryable(a.status) then (Settle(a), k + 1)
    else if k + 1 == MaxRetries then (HttpError(a.status), k + 1)
    else Attempts(server, k + 1)
  }

  /** `graphql`: the call's outcome and the number of requests it made. */
  function Graphql<D>(server: Server<D>): (r: (Outcome<D>, nat))
    ensures 1 <= r.1 <= MaxRetries
    ensures forall j :: 0 <= j < r.1 - 1 ==> Retryable(server(j).status)
    ensures r.1 < MaxRetries ==> !Retryable(server(r.1 - 1).status)
  {
    Attempts(server, 0)
  }

  /** The answer that settles a call is the first one among the first five that is not
      retried; when all five are retried the call fails with the last status. */
  lemma SettlesAtFirst<D>(server: Server<D>, j: nat)
    requires j < MaxRetries
    requires forall i :: 0 <= i < j ==> Retryable(server(i).status)
    requires !Retryable(server(j).status) || j == MaxRetries - 1
    ensures Graphql(server).1 == j + 1
    ensures !Retryable(server(j).status) ==> Graphql(server).0 == Settle(server(j))
    ensures Retryable(server(j).status) ==> Graphql(server).0 == HttpError(server(j).status)
  {
  }

  /** Data comes back only from an attempt whose status is neither retried nor an error and
      whose answer carries no `errors` member, after retried attempts only. */
  lemma DataOnlyWhenClean<D>(server: Server<D>)
    requires Graphql(server).0.Data?
    ensures exists j :: (
      && 0 <= j < MaxRetries
      && (forall i :: 0 <= i < j ==> Retryable(server(i).status))
      && !Retryable(server(j).status) && !IsHttpError(server(j).status)
      && server(j).errors.None?
      && Graphql(server).0.data == server(j).data)
  {
    var r := Graphql(server);
    var j := r.1 - 1;
    assert !Retryable(server(j).status);
  }

  /** A call that ends with a status error ends with a status the server sent. */
  lemma HttpErrorIsServerStatus<D>(server: Server<D>)
    requires Graphql(server).0.HttpError?
    ensures IsHttpError(Graphql(server).0.status)
    ensures exists j :: 0 <= j < MaxRetries && Graphql(server).0.status == server(j).status
  {
    var r := Graphql(server);
    var j := r.1 - 1;
    assert r.0.status == server(j).status;
  }
}
