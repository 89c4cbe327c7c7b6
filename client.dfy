/**
 * `search_datajud`: reads the credentials, builds the Elasticsearch query
 * and turns what the HTTP exchange produced into the dictionary the screen
 * reads, either the decoded response or `{"error": message}`.
 *
 * The HTTP exchange itself (the POST, basic authentication, the 30-second
 * timeout and JSON decoding) is a parameter: a function from the request to
 * the outcome the `requests` library reports.
 */
module Client {
  import opened Wrappers
  import opened Text
  import opened Records

  const CredentialsFormatError := "Formato de credenciais inválido. " + "Use 'usuario:senha'."
  const UnauthorizedError := "Credenciais inválidas (401). " + "Verifique seu usuário e senha."
  const TimeoutError := "A requisição expirou (Timeout). " + "Tente novamente mais tarde."
  const ConnectionErrorPrefix := "Erro na conexão: "

  function NotFoundError(tribunal: string): string {
    "Tribunal '" + tribunal + "' não encontrado ou API indisponível."
  }

  function ConnectionError(reason: string): string {
    ConnectionErrorPrefix + reason
  }

  /** The user name and password sent with HTTP basic authentication. */
  datatype Credentials = Credentials(user: string, password: string)

  /**
   * `user, password = credentials.split(':')`: accepted exactly when the
   * text holds a single colon, which then separates user and password.
   * Either part may be empty.
   */
  function ParseCredentials(s: string): (c: Option<Credentials>)
    ensures c.Some? <==> Count(s, ':') == 1
    ensures c.Some? ==> c.value.user + ":" + c.value.password == s
    ensures c.Some? ==> ':' !in c.value.user && ':' !in c.value.password
  {
    var pieces := Split(s, ':');
    if |pieces| == 2 then
      JoinSplit(s, ':');
      assert Join(pieces, ":") == pieces[0] + ":" + pieces[1];
      Some(Credentials(pieces[0], pieces[1]))
    else None
  }

  /** Any user and password free of colons are read back from "user:password". */
  lemma ParseCredentialsInverse(user: string, password: string)
    requires ':' !in user && ':' !in password
    ensures ParseCredentials(user + ":" + password) == Some(Credentials(user, password))
  {
    var pieces := [user, password];
    assert Join(pieces, ":") == user + ":" + password;
    SplitJoin(pieces, ':');
  }

  /** A lone colon is accepted, as an empty user with an empty password. */
  lemma EmptyPartsAccepted()
    ensures ParseCredentials(":") == Some(Credentials("", ""))
  {
    ParseCredentialsInverse("", "");
  }

  /** A `match` clause of the query: the field searched and the text looked for. */
  datatype MatchClause = Match(field: string, text: string)

  /** The search body: `size` and a `bool` query of `should` clauses with `minimum_should_match`. */
  datatype Payload = Payload(size: nat, should: seq<MatchClause>, minimumShouldMatch: nat)

  const SubjectField := "assuntos.nome"
  const ClassField := "classeProcessual.nome"
  const PageSize := 50

  /** The query for a cause: up to 50 lawsuits whose subject or class matches the text. */
  function BuildPayload(queryText: string): (p: Payload)
    ensures p.size == PageSize && p.minimumShouldMatch == 1
    ensures |p.should| == 2 && p.should[0].field == SubjectField && p.should[1].field == ClassField
    ensures forall k :: 0 <= k < |p.should| ==> p.should[k].text == queryText
  {
    Payload(PageSize, [Match(SubjectField, queryText), Match(ClassField, queryText)], 1)
  }

  /** How many of the clauses a document matches, given the search engine's notion of a match. */
  function MatchedClauses<D>(clauses: seq<MatchClause>, doc: D, matches: (MatchClause, D) -> bool): nat {
    if clauses == [] then 0
    else (if matches(clauses[0], doc) then 1 else 0) + MatchedClauses(clauses[1..], doc, matches)
  }

  /** Elasticsearch's reading of a `bool` query made of `should` clauses only. */
  predicate Selects<D>(p: Payload, doc: D, matches: (MatchClause, D) -> bool) {
    MatchedClauses(p.should, doc, matches) >= p.minimumShouldMatch
  }

  /** The query selects a lawsuit exactly when its subjects or its class match the text. */
  lemma BuildPayloadSelects<D>(queryText: string, doc: D, matches: (MatchClause, D) -> bool)
    ensures Selects(BuildPayload(queryText), doc, matches)
            <==> matches(Match(SubjectField, queryText), doc) || matches(Match(ClassField, queryText), doc)
  {
    var p := BuildPayload(queryText);
    var subject := if matches(Match(SubjectField, queryText), doc) then 1 else 0;
    var byClass := if matches(Match(ClassField, queryText), doc) then 1 else 0;
    assert p.should[1..][1..] == [];
    assert MatchedClauses(p.should[1..], doc, matches) == byClass;
    assert MatchedClauses(p.should, doc, matches) == subject + byClass;
  }

  const EndpointPrefix := "https://api-publica.datajud.cnj.jus.br/api_publica_"
  const EndpointSuffix := "/_search"

  /** The search endpoint of a tribunal's index. */
  function EndpointUrl(tribunal: string): string {
    EndpointPrefix + tribunal + EndpointSuffix
  }

  /** Different tribunals are searched at different addresses. */
  lemma EndpointUrlInjective(a: string, b: string)
    requires EndpointUrl(a) == EndpointUrl(b)
    ensures a == b
  {
    var n := |EndpointPrefix|;
    assert a == EndpointUrl(a)[n..n + |a|];
    assert b == EndpointUrl(b)[n..n + |b|];
  }

  const TimeoutSeconds := 30

  /** What `requests.post` is called with. */
  datatype Request = Request(url: string, payload: Payload, auth: Credentials, timeoutSeconds: nat)

  /** What the body of a response decodes to. */
  datatype Decoding = Decoded(body: Body) | Undecodable(reason: string)

  /**
   * How the exchange ended: the library's `Timeout`, another
   * `RequestException` raised before a response (with its text), or a
   * response with its status, the text `raise_for_status` would raise for
   * it, and its content.
   */
  datatype Outcome =
    | TimedOut
    | TransportFailed(reason: string)
    | Responded(status: int, statusError: string, content: Decoding)

  /** The statuses for which `raise_for_status` raises. */
  predicate IsErrorStatus(status: int) {
    400 <= status < 600
  }

  /** A response that is neither an error status nor undecodable. */
  predicate Delivered(outcome: Outcome) {
    outcome.Responded? && !IsErrorStatus(outcome.status) && outcome.content.Decoded?
  }

  /**
   * The handling of the exchange's outcome, in the order the source tests
   * it: 401, 404, any other error status, then decoding; timeouts and the
   * other library errors are caught around all of it.
   */
  function Classify(tribunal: string, outcome: Outcome): (b: Body)
    ensures Delivered(outcome) ==> b == outcome.content.body
    ensures !Delivered(outcome) ==> b.error.Some? && b.hits.None?
  {
    match outcome
    case TimedOut => ErrorBody(TimeoutError)
    case TransportFailed(reason) => ErrorBody(ConnectionError(reason))
    case Responded(status, statusError, content) =>
      if status == 401 then ErrorBody(UnauthorizedError)
      else if status == 404 then ErrorBody(NotFoundError(tribunal))
      else if IsErrorStatus(status) then ErrorBody(ConnectionError(statusError))
      else
        match content
        case Decoded(body) => body
        case Undecodable(reason) => ErrorBody(ConnectionError(reason))
  }

  /** The message each failing outcome produces. */
  lemma ClassifyMessages(tribunal: string, outcome: Outcome)
    ensures outcome.TimedOut? ==> Classify(tribunal, outcome).error == Some(TimeoutError)
    ensures outcome.TransportFailed? ==> Classify(tribunal, outcome).error == Some(ConnectionError(outcome.reason))
    ensures outcome.Responded? && outcome.status == 401 ==> Classify(tribunal, outcome).error == Some(UnauthorizedError)
    ensures outcome.Responded? && outcome.status == 404 ==> Classify(tribunal, outcome).error == Some(NotFoundError(tribunal))
    ensures outcome.Responded? && IsErrorStatus(outcome.status) && outcome.status != 401 && outcome.status != 404
            ==> Classify(tribunal, outcome).error == Some(ConnectionError(outcome.statusError))
    ensures outcome.Responded? && !IsErrorStatus(outcome.status) && outcome.content.Undecodable?
            ==> Classify(tribunal, outcome).error == Some(ConnectionError(outcome.content.reason))
  {
  }

  /**
   * The messages are told apart by their first character, so the message
   * shown names the failure: wrong credential format, rejected credentials,
   * unknown tribunal, timeout or connection error.
   */
  lemma MessagesDistinct(tribunal: string, reason: string)
    ensures CredentialsFormatError[0] == 'F' && UnauthorizedError[0] == 'C' && NotFoundError(tribunal)[0] == 'T'
    ensures TimeoutError[0] == 'A' && ConnectionError(reason)[0] == 'E'
  {
  }

  /** The request for a tribunal, a cause and accepted credentials. */
  function PrepareRequest(tribunal: string, queryText: string, credentials: Credentials): Request {
    Request(EndpointUrl(tribunal), BuildPayload(queryText), credentials, TimeoutSeconds)
  }

  /**
   * `search_datajud(tribunal, query_text, credentials)` with the HTTP
   * exchange `send`: credentials that do not split in two are refused
   * before anything is sent; otherwise the outcome of sending the request
   * is classified.
   */
  function Search(tribunal: string, queryText: string, credentials: string, send: Request -> Outcome): (b: Body)
    ensures Count(credentials, ':') != 1 ==> b == ErrorBody(CredentialsFormatError)
    ensures Count(credentials, ':') == 1 ==>
              exists user, password :: user + ":" + password == credentials && ':' !in user && ':' !in password
                && b == Classify(tribunal, send(Request(EndpointUrl(tribunal), BuildPayload(queryText), Credentials(user, password), TimeoutSeconds)))
  {
    match ParseCredentials(credentials)
    case None => ErrorBody(CredentialsFormatError)
    case Some(c) => Classify(tribunal, send(PrepareRequest(tribunal, queryText, c)))
  }

  /** With malformed credentials the answer does not depend on the network: no request is made. */
  lemma SearchRefusesWithoutSending(tribunal: string, queryText: string, credentials: string,
                                    send1: Request -> Outcome, send2: Request -> Outcome)
    requires Count(credentials, ':') != 1
    ensures Search(tribunal, queryText, credentials, send1) == Search(tribunal, queryText, credentials, send2)
    ensures Search(tribunal, queryText, credentials, send1).error == Some(CredentialsFormatError)
  {
  }

  /** Search results reach the screen only from a delivered response to the request for these inputs. */
  lemma SearchResultsComeFromResponse(tribunal: string, queryText: string, credentials: string, send: Request -> Outcome)
    requires Search(tribunal, queryText, credentials, send).hits.Some?
    ensures ParseCredentials(credentials).Some?
    ensures var outcome := send(PrepareRequest(tribunal, queryText, ParseCredentials(credentials).value));
            Delivered(outcome) && Search(tribunal, queryText, credentials, send) == outcome.content.body
  {
  }
}
