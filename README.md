# DataJud lawsuit search: a Dafny model

The application is a single-page search form over the public DataJud API of
the Brazilian National Council of Justice (CNJ). The user gives:

- a region, which pre-fills the tribunal field from a fixed table of state courts;
- the tribunal;
- a cause or subject;
- credentials written as `user:password`.

The application then POSTs an Elasticsearch query to that tribunal's index. It shows one of three things:

- an error message;
- a "nothing found" warning;
- the number of lawsuits found, with a summary table and one detail card per lawsuit.

This project models the decision logic behind that screen. The modules are:

- `Wrappers`: `Option`, whose `None` stands for a key missing from a JSON object.
- `Text`: the Python string operations the program relies on (`split`, `join`, `lower`, `strip`, `replace`), with their round-trip and normalisation properties.
- `Regions`: the region-to-court table `REGION_MAP` and the method that computes the tribunal field's default.
- `Dates`: `format_date`. The ISO-8601 parser is a parameter. The `strftime("%d/%m/%Y %H:%M")` rendering is modelled digit by digit.
- `Records`: the JSON documents of a search response, as datatypes with optional fields.
- `Client`: `search_datajud`. It covers credential parsing, the query payload, the endpoint URL, and the classification of the HTTP outcome into an error or the decoded body. The HTTP exchange is a parameter `send: Request -> Outcome`.
- `Presenter`: the submit handler. It covers the reading of `hits.hits` and `hits.total.value` with their defaults, and the loop that builds the summary rows and detail cards.

The credential check at `app.py:59` unpacks `credentials.split(':')` into exactly two names, so it splits at every colon. The text is therefore accepted exactly when it holds one colon. Either part may be empty, so `":"` is accepted.

## Model

| member | source | states |
|---|---|---|
| Text.Split | app.py:59 | `str.split(':')` gives one piece more than there are separators, and no piece holds a separator |
| Text.JoinSplit | app.py:59 | joining the pieces of a split with the separator gives back the original text |
| Text.SplitJoin | app.py:59 | splitting a join of separator-free pieces gives the pieces back |
| Text.JoinSnoc | app.py:152 | `", ".join` of one more piece appends the separator and that piece |
| Text.Lower | app.py:114 | `lower()` keeps the length, leaves no upper-case letter, maps each upper-case letter to its lower-case one and keeps every other character |
| Text.LowerOfLowerCase | app.py:114 | lower-casing text without upper-case letters changes nothing |
| Text.Strip | app.py:114 | `strip()` gives the slice of the text left once all-whitespace runs are cut at both ends, and the result neither starts nor ends with whitespace |
| Text.LowerAppend | app.py:114 | lower-casing a concatenation lower-cases each part |
| Text.LowerOfSpaces | app.py:114 | lower-casing keeps whitespace as it is |
| Text.LowerKeepsSpaces | app.py:114 | lower-casing a word with whitespace around it lower-cases the word only |
| Text.StripAround | app.py:114 | stripping whitespace around a core that neither starts nor ends with whitespace gives the core |
| Text.Replace | app.py:50 | after `replace`, the target is gone when the replacement does not contain it; text without the target is unchanged |
| Text.ReplaceAppend | app.py:50 | replacing in a concatenation replaces in each part |
| Regions.RegionKey | app.py:114 | the normalised region is no longer than the input, has no upper-case letter and no whitespace at either end |
| Regions.DefaultTribunal | app.py:116-118 | the default is the table's court for a normalised region that is a key, `"tjdft"` otherwise, and always one of the table's courts |
| Regions.RegionKeysAreCodes | app.py:15-43 | every key of `REGION_MAP` has two characters |
| Regions.RegionCourtsArePrefixed | app.py:15-43 | every court is `"tj"` followed by its key, except that `"df"` maps to `"tjdft"` |
| Regions.RegionCodesDistinct | app.py:15-43 | the 27 listed codes are pairwise different |
| Regions.RegionCodesAreKeys | app.py:15-43 | the listed codes are exactly the table's keys |
| Regions.RegionMapSize | app.py:15-43 | the table has 27 entries |
| Regions.PrefixedTableInjective | app.py:15-43 | a table of two-letter keys mapped to `"tj"` + key, with one five-letter exception, is injective |
| Regions.RegionMapInjective | app.py:15-43 | no two regions share a court |
| Regions.RegionKeysAreLowerCase | app.py:15-43 | every key is non-empty and written in lower-case letters, so the lower-cased input can match it |
| Regions.RegionKeyOfWord | app.py:114 | a word whose lower-case form is lower-case letters, typed with whitespace around it, normalises to that lower-case form |
| Regions.RegionKeyOfTyped | app.py:114-118 | a word in any capitals that lower-cases to a key, typed with whitespace around it, normalises to that key |
| Regions.RegionKeyOfKey | app.py:114-118 | any key typed with whitespace around it normalises to that key |
| Regions.RegionKeyExample | app.py:114 | `" SP "` normalises to `"sp"` |
| Dates.Padded | app.py:51 | zero-padded decimal rendering takes at least the requested width |
| Dates.PaddedValue | app.py:51 | the padded rendering is all digits, and reading them back gives the number |
| Dates.PaddedLength | app.py:51 | a number below 10^width takes exactly `width` digits |
| Dates.Render | app.py:51 | `"%d/%m/%Y %H:%M"` takes at least 16 characters |
| Dates.RenderReadBack | app.py:51 | a valid timestamp renders in exactly 16 characters, from which day, month, year, hour and minute read back |
| Dates.ZuluToOffset | app.py:50 | the text given to the parser holds no `'Z'`, and text without one is passed unchanged |
| Dates.ZuluSuffix | app.py:50 | a trailing `'Z'` reaches the parser as `"+00:00"` |
| Dates.FormatDate | app.py:45-53 | an absent or empty value gives `"N/A"`; otherwise the rendering of what the parser reads from the text with `'Z'` replaced, and the text itself when the parser fails; never blank |
| Dates.FormatZuluTimestamp | app.py:49-51 | a UTC timestamp `...Z` displays as the rendering of what the parser reads from `...+00:00` |
| Dates.RenderExample | app.py:49-51 | 9 May 2023 14:30 displays as `"09/05/2023 14:30"` |
| Client.ParseCredentials | app.py:58-61 | the credentials are accepted exactly when they contain one colon; then user, colon and password rebuild the text, and neither part holds a colon |
| Client.ParseCredentialsInverse | app.py:59 | any colon-free user and password are read back from `user:password` |
| Client.EmptyPartsAccepted | app.py:59 | `":"` is accepted, as an empty user and an empty password |
| Client.BuildPayload | app.py:64-75 | size 50, `minimum_should_match` 1, two `match` clauses on `assuntos.nome` then `classeProcessual.nome`, each carrying the query text unchanged |
| Client.BuildPayloadSelects | app.py:64-75 | under Elasticsearch's `bool`/`should` semantics, the query selects a lawsuit exactly when its subjects or its class match the text |
| Client.EndpointUrlInjective | app.py:56 | different tribunals are searched at different URLs |
| Client.Classify | app.py:77-96 | the decoded body is returned unchanged exactly when the response has no error status and decodes; every other outcome gives an error dictionary without hits |
| Client.ClassifyMessages | app.py:85-96 | the checks run in order 401, 404, other 4xx/5xx, decoding, and each failure produces its message (timeout, connection error with the library's text, rejected credentials, unknown tribunal) |
| Client.MessagesDistinct | app.py:61-96 | the five kinds of error message start with different characters, so the message tells the failure apart |
| Client.Search | app.py:55-96 | malformed credentials give the format error; otherwise the result is the classification of what sending the request, built from the parsed user and password, produced |
| Client.SearchRefusesWithoutSending | app.py:58-61 | with malformed credentials the result does not depend on the network: no request is made |
| Client.SearchResultsComeFromResponse | app.py:77-91 | hits reach the screen only from a delivered response to the request for these inputs |
| Presenter.HitsOf | app.py:138 | `hits.hits`, or the empty list when either level is missing |
| Presenter.TotalOf | app.py:139 | `hits.total.value`, or 0 when any level is missing |
| Presenter.SubjectNames | app.py:152 | one name per subject, in order, with `""` for a subject without `nome` |
| Presenter.SubjectsColumnEmpty | app.py:152 | no subjects, or the key missing, give an empty subject column |
| Presenter.SubjectsColumnSnoc | app.py:152 | one more subject appends `", "` and its name to the column |
| Presenter.RowDefaults | app.py:149-160 | a row shows the number, class and value, or `"N/A"`, `"N/A"` and 0.0 when missing; a hit without `_source` gives a row of defaults |
| Presenter.LastMovementDate | app.py:171 | `"N/A"` when `movimentos` is missing or empty, otherwise `format_date` of the last movement's `dataHora`; never blank |
| Presenter.CardMatchesRow | app.py:162-171 | a card shows the same number, class, subjects and value as the row; the instance and court division, or `"N/A"` when missing; the filing date and last movement formatted, never blank |
| Presenter.SummarizeHits | app.py:146-160 | exactly one row and one card per hit, in hit order, each being the row and card of that hit |
| Presenter.ShowResults | app.py:135-160 | an error key is shown as is; a total of 0 shows the "nothing found" warning even when there are hits; otherwise the total with one row and card per hit |
| Presenter.ShowsUnique | app.py:135-160 | the screen shown is determined by the search result |
| Presenter.Submit | app.py:128-133 | an empty cause or empty credentials give the missing-fields message; otherwise the result of searching the lower-cased tribunal is shown |
| Presenter.SubmitMalformedCredentials | app.py:128-136 | filled-in fields with malformed credentials show the credential-format error |
| Presenter.MatchesListEveryHit | app.py:141-160 | a non-zero total lists every hit, in the API's order |

## Left out

- The Streamlit interface is not modelled: page setup, sidebar, widgets, spinner, markdown, expanders, columns and the data frame (app.py:8-12, 99-205). A screen is the value the handler decides to show. How the tribunal field keeps or resets its pre-filled value is widget state and is not modelled.
- Client.Search: credentials with a character outside Latin-1 (such as `"joão:senha€"`) make the basic-auth encoding inside `requests.post` raise `UnicodeEncodeError`, which is not a `RequestException`, so app.py:93-96 does not catch it and the script stops with a traceback. The model has no outcome for this, and it classifies every accepted credential.
- The HTTP exchange is a parameter (`requests.post`, basic-auth encoding, the 30-second timeout, JSON decoding). The text of the library's exceptions and of `raise_for_status` is carried in the outcome as given.
- The model assumes a `requests` version (2.27 or later) in which a body that does not decode raises a `RequestException` subclass. Such a body is therefore shown as a connection error.
- `datetime.fromisoformat` is a parameter. The model covers which text the parser receives and what happens when the parser fails.
- `Dates.Render`: years below 1000 are rendered with four digits. `%Y` in C libraries does not always pad them.
- The currency formatting `R$ {valor:,.2f}` is not modelled. A row keeps `valorCausa` as a number.
- The pole (party and lawyer) listings in each card only print fields with defaults, and they are not modelled.
- A JSON `null` is not modelled. A key is either present with a value of its expected type, or absent.
- An `error` value that is an object, as Elasticsearch sends it, is modelled as text.
- `Text.Lower` lower-cases ASCII letters only. Python's `str.lower()` also maps other Unicode letters, which the court codes never contain.
