/**
 * The JSON documents the DataJud search API answers with, as far as the
 * result screen reads them. Each optional field is `None` exactly when the
 * key is absent from its JSON object, which is where the screen substitutes
 * a default.
 */
module Records {
  import opened Wrappers

  /** An object whose only field of interest is `nome` (class, subject, court division). */
  datatype Named = Named(nome: Option<string>)

  /** An entry of `movimentos`. */
  datatype Movement = Movement(dataHora: Option<string>)

  /** The `_source` document of one lawsuit. */
  datatype Process = Process(
    numeroProcesso: Option<string>,
    classeProcessual: Option<Named>,
    assuntos: Option<seq<Named>>,
    valorCausa: Option<real>,
    grau: Option<string>,
    orgaoJulgador: Option<Named>,
    dataAjuizamento: Option<string>,
    movimentos: Option<seq<Movement>>)

  /** An entry of `hits.hits`. */
  datatype Hit = Hit(source: Option<Process>)

  /** `hits.total`. */
  datatype Total = Total(value: Option<int>)

  /** The `hits` object. */
  datatype HitsSection = HitsSection(hits: Option<seq<Hit>>, total: Option<Total>)

  /**
   * The dictionary the search hands to the screen: either a decoded API
   * response or a one-key `{"error": ...}` made up by the client.
   */
  datatype Body = Body(error: Option<string>, hits: Option<HitsSection>)

  /** A lawsuit document in which every key is missing (`{}`). */
  const EmptyProcess := Process(None, None, None, None, None, None, None, None)

  /** `{"error": message}`. */
  function ErrorBody(message: string): Body {
    Body(Some(message), None)
  }
}
