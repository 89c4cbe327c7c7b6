/**
 * The search form and the result screen: the submit handler, the reading of
 * `hits.hits` and `hits.total.value` with their defaults, and the loop that
 * builds one summary-table row and one detail card per lawsuit.
 *
 * Streamlit widgets are not modelled; a screen is the value the handler
 * decides to show.
 */
module Presenter {
  import opened Wrappers
  import opened Text
  import opened Records
  import opened Dates
  import Client

  /** A row of the summary table: number, class, subjects and the value of the cause. */
  datatype SummaryRow = SummaryRow(number: string, classe: string, subjects: string, value: real)

  /** The detail card (expander) of one lawsuit. */
  datatype Card = Card(number: string, instance: string, court: string, classe: string, subjects: string,
                       value: real, filed: string, lastMovement: string)

  /**
   * What a submission shows: an error, the warning that nothing was found,
   * or the count of lawsuits with the summary rows and cards.
   */
  datatype Screen =
    | ErrorBanner(message: string)
    | NoMatches
    | Matches(total: int, rows: seq<SummaryRow>, cards: seq<Card>)

  const MissingFieldsMessage := "Por favor, preencha a Causa/Assunto " + "e as Credenciais."

  /** `results.get("hits", {}).get("hits", [])`. */
  function HitsOf(results: Body): (hits: seq<Hit>)
    ensures results.hits.Some? && results.hits.value.hits.Some? ==> hits == results.hits.value.hits.value
    ensures results.hits.None? || results.hits.value.hits.None? ==> hits == []
  {
    results.hits.GetOr(HitsSection(None, None)).hits.GetOr([])
  }

  /** `results.get("hits", {}).get("total", {}).get("value", 0)`. */
  function TotalOf(results: Body): (total: int)
    ensures results.hits.Some? && results.hits.value.total.Some? && results.hits.value.total.value.value.Some?
            ==> total == results.hits.value.total.value.value.value
    ensures results.hits.None? || results.hits.value.total.None? || results.hits.value.total.value.value.None?
            ==> total == 0
  {
    results.hits.GetOr(HitsSection(None, None)).total.GetOr(Total(None)).value.GetOr(0)
  }

  /** `hit.get("_source", {})`. */
  function SourceOf(hit: Hit): Process {
    hit.source.GetOr(EmptyProcess)
  }

  /** `obj.get(key, {}).get("nome", default)` for a nested named object. */
  function NameOr(named: Option<Named>, default: string): string {
    named.GetOr(Named(None)).nome.GetOr(default)
  }

  /** The subject names in order, `""` for a subject without one. */
  function SubjectNames(subjects: seq<Named>): (names: seq<string>)
    ensures |names| == |subjects|
    ensures forall i :: 0 <= i < |subjects| ==> names[i] == subjects[i].nome.GetOr("")
  {
    if subjects == [] then []
    else SubjectNames(subjects[..|subjects| - 1]) + [subjects[|subjects| - 1].nome.GetOr("")]
  }

  const SubjectSeparator := ", "

  /** `", ".join([a.get("nome", "") for a in p.get("assuntos", [])])`. */
  function SubjectsColumn(p: Process): string {
    Join(SubjectNames(p.assuntos.GetOr([])), SubjectSeparator)
  }

  /** With no subjects, or the key missing, the column is blank. */
  lemma SubjectsColumnEmpty(p: Process)
    requires p.assuntos.None? || p.assuntos == Some([])
    ensures SubjectsColumn(p) == ""
  {
  }

  /** One more subject appends its name after a separator; the names keep their order. */
  lemma SubjectsColumnSnoc(p: Process, subjects: seq<Named>, last: Named)
    requires p.assuntos == Some(subjects + [last])
    requires subjects != []
    ensures SubjectsColumn(p) == SubjectsColumn(p.(assuntos := Some(subjects))) + SubjectSeparator + last.nome.GetOr("")
  {
    var all := subjects + [last];
    assert all[..|all| - 1] == subjects;
    JoinSnoc(SubjectNames(subjects), last.nome.GetOr(""), SubjectSeparator);
  }

  /** The summary row of a hit. */
  function RowOf(hit: Hit): SummaryRow {
    var p := SourceOf(hit);
    SummaryRow(p.numeroProcesso.GetOr(NotAvailable), NameOr(p.classeProcessual, NotAvailable),
               SubjectsColumn(p), p.valorCausa.GetOr(0.0))
  }

  /**
   * A row shows the lawsuit's number, class and value, and "N/A", "N/A" and
   * 0.0 for whichever is missing; a hit without `_source` gives a row of
   * defaults only.
   */
  lemma RowDefaults(hit: Hit)
    ensures var row := RowOf(hit);
            row.number == (if hit.source.Some? && hit.source.value.numeroProcesso.Some? then hit.source.value.numeroProcesso.value else NotAvailable)
    ensures var row := RowOf(hit);
            row.classe == (if hit.source.Some? && hit.source.value.classeProcessual.Some? && hit.source.value.classeProcessual.value.nome.Some?
                           then hit.source.value.classeProcessual.value.nome.value else NotAvailable)
    ensures var row := RowOf(hit);
            row.value == (if hit.source.Some? && hit.source.value.valorCausa.Some? then hit.source.value.valorCausa.value else 0.0)
    ensures hit.source.None? ==> RowOf(hit) == SummaryRow(NotAvailable, NotAvailable, "", 0.0)
  {
  }

  /**
   * The date of the last movement: "N/A" when `movimentos` is missing or
   * empty, otherwise `format_date` of the last entry's `dataHora`.
   */
  function LastMovementDate(p: Process, parse: DateParser): (date: string)
    ensures p.movimentos.None? || p.movimentos == Some([]) ==> date == NotAvailable
    ensures p.movimentos.Some? && p.movimentos.value != [] ==>
              date == FormatDate(p.movimentos.value[|p.movimentos.value| - 1].dataHora, parse)
    ensures date != ""
  {
    if p.movimentos.None? || p.movimentos.value == [] then NotAvailable
    else FormatDate(p.movimentos.value[|p.movimentos.value| - 1].dataHora, parse)
  }

  /** The detail card of a hit. */
  function CardOf(hit: Hit, parse: DateParser): Card {
    var p := SourceOf(hit);
    var row := RowOf(hit);
    Card(row.number, p.grau.GetOr(NotAvailable), NameOr(p.orgaoJulgador, NotAvailable), row.classe, row.subjects,
         row.value, FormatDate(p.dataAjuizamento, parse), LastMovementDate(p, parse))
  }

  /**
   * A card shows the same number, class, subjects and value as the hit's
   * row, the instance and the court division or "N/A", and two dates that
   * are never blank.
   */
  lemma CardMatchesRow(hit: Hit, parse: DateParser)
    ensures var card, row := CardOf(hit, parse), RowOf(hit);
            card.number == row.number && card.classe == row.classe && card.subjects == row.subjects && card.value == row.value
    ensures CardOf(hit, parse).instance == SourceOf(hit).grau.GetOr(NotAvailable)
    ensures SourceOf(hit).orgaoJulgador.None? || SourceOf(hit).orgaoJulgador.value.nome.None? ==> CardOf(hit, parse).court == NotAvailable
    ensures SourceOf(hit).orgaoJulgador.Some? && SourceOf(hit).orgaoJulgador.value.nome.Some?
            ==> CardOf(hit, parse).court == SourceOf(hit).orgaoJulgador.value.nome.value
    ensures CardOf(hit, parse).filed == FormatDate(SourceOf(hit).dataAjuizamento, parse)
    ensures CardOf(hit, parse).lastMovement == LastMovementDate(SourceOf(hit), parse)
    ensures CardOf(hit, parse).filed != "" && CardOf(hit, parse).lastMovement != ""
  {
  }

  /** The rows and cards of a list of hits, one of each per hit, in hit order. */
  predicate Summarizes(hits: seq<Hit>, rows: seq<SummaryRow>, cards: seq<Card>, parse: DateParser) {
    |rows| == |hits| && |cards| == |hits|
    && (forall i :: 0 <= i < |hits| ==> rows[i] == RowOf(hits[i]))
    && (forall i :: 0 <= i < |hits| ==> cards[i] == CardOf(hits[i], parse))
  }

  /** The loop over `hits` that appends a row to `summary_data` and renders a card for each hit. */
  method SummarizeHits(hits: seq<Hit>, parse: DateParser) returns (rows: seq<SummaryRow>, cards: seq<Card>)
    ensures Summarizes(hits, rows, cards, parse)
  {
    rows, cards := [], [];
    for i := 0 to |hits|
      invariant |rows| == i && |cards| == i
      invariant forall k :: 0 <= k < i ==> rows[k] == RowOf(hits[k])
      invariant forall k :: 0 <= k < i ==> cards[k] == CardOf(hits[k], parse)
    {
      rows := rows + [RowOf(hits[i])];
      cards := cards + [CardOf(hits[i], parse)];
    }
  }

  /**
   * The screen for a search result: its error, if it has one; the
   * "nothing found" warning when the total is 0, whatever the hits; else
   * the total with one row and one card per hit.
   */
  predicate Shows(results: Body, screen: Screen, parse: DateParser) {
    if results.error.Some? then screen == ErrorBanner(results.error.value)
    else if TotalOf(results) == 0 then screen == NoMatches
    else screen.Matches? && screen.total == TotalOf(results) && Summarizes(HitsOf(results), screen.rows, screen.cards, parse)
  }

  /** Lines 135-160: the branch on `"error"`, the branch on the total, then the summary loop. */
  method ShowResults(results: Body, parse: DateParser) returns (screen: Screen)
    ensures Shows(results, screen, parse)
  {
    if results.error.Some? {
      screen := ErrorBanner(results.error.value);
    } else {
      var hits := HitsOf(results);
      var total := TotalOf(results);
      if total == 0 {
        screen := NoMatches;
      } else {
        var rows, cards := SummarizeHits(hits, parse);
        screen := Matches(total, rows, cards);
      }
    }
  }

  /** A screen is determined by the result it shows. */
  lemma ShowsUnique(results: Body, s1: Screen, s2: Screen, parse: DateParser)
    requires Shows(results, s1, parse) && Shows(results, s2, parse)
    ensures s1 == s2
  {
    if results.error.None? && TotalOf(results) != 0 {
      var hits := HitsOf(results);
      assert s1.rows == s2.rows by {
        assert |s1.rows| == |s2.rows|;
        forall i | 0 <= i < |s1.rows| ensures s1.rows[i] == s2.rows[i] { }
      }
      assert s1.cards == s2.cards by {
        assert |s1.cards| == |s2.cards|;
        forall i | 0 <= i < |s1.cards| ensures s1.cards[i] == s2.cards[i] { }
      }
    }
  }

  /** The values of the form's fields when it is submitted. */
  datatype Form = Form(tribunal: string, causa: string, credentials: string)

  /**
   * The submit handler: both the cause and the credentials are required;
   * otherwise the search runs on the lower-cased tribunal and its result is
   * shown.
   */
  method Submit(form: Form, send: Client.Request -> Client.Outcome, parse: DateParser) returns (screen: Screen)
    ensures form.causa == "" || form.credentials == "" ==> screen == ErrorBanner(MissingFieldsMessage)
    ensures form.causa != "" && form.credentials != "" ==>
              Shows(Client.Search(Lower(form.tribunal), form.causa, form.credentials, send), screen, parse)
  {
    if form.causa == "" || form.credentials == "" {
      screen := ErrorBanner(MissingFieldsMessage);
    } else {
      var results := Client.Search(Lower(form.tribunal), form.causa, form.credentials, send);
      screen := ShowResults(results, parse);
    }
  }

  /** Filled-in fields with malformed credentials show the format error, and nothing is sent. */
  lemma SubmitMalformedCredentials(form: Form, send: Client.Request -> Client.Outcome, parse: DateParser, screen: Screen)
    requires form.causa != "" && form.credentials != "" && Count(form.credentials, ':') != 1
    requires Shows(Client.Search(Lower(form.tribunal), form.causa, form.credentials, send), screen, parse)
    ensures screen == ErrorBanner(Client.CredentialsFormatError)
  {
  }

  /** A result with a positive total and hits lists them all, one row each, in the order the API sent them. */
  lemma MatchesListEveryHit(results: Body, screen: Screen, parse: DateParser)
    requires results.error.None? && TotalOf(results) != 0
    requires Shows(results, screen, parse)
    ensures screen.Matches? && |screen.rows| == |HitsOf(results)|
    ensures forall i :: 0 <= i < |screen.rows| ==> screen.rows[i].number == RowOf(HitsOf(results)[i]).number
  {
  }
}
