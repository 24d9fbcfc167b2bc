# Get-or-create character: a Dafny model

This project models the core of a small Go service. The service answers
"get or create a character by name". It first looks the name up, case-insensitively,
in a local PostgreSQL `characters` table. When the table has no such character, it
asks the external Dragon Ball API for one with exactly that name. It saves a
character it found there and returns it.

The model has seven modules:

- `Wrappers`: the `Option` and `Result` values that stand for Go's
  `(*T, error)` returns.
- `Domain`: the `Character` record and the ASCII case folding that defines
  "equal up to case".
- `Format`: Go's `%d` for an `int`, and reading a number back out of text, so
  that "the error message names the status code" can be proved.
- `DragonBallApi`: the catalog client without HTTP. These are pure functions
  over an upstream reply (`Response<T>`). A reply is a transport error, or a
  status code with the raw body and the outcome of decoding that body.
  Lookup by name is a first-exact-match search over the decoded `items`.
  Lookup by id classifies the status code: 404 means absent, any other
  non-200 status is an error, and 200 means a hit.
- `Postgres`: the repository as a class. Its field `rows` maps the primary
  key `id` to the row. `SaveCharacter` upserts that map in place.
  `FindCharacterByName` only reads it and may return any row whose name
  matches up to case. A database failure is an injected `fault` argument.
  The database clock NOW() is the `now` argument.
- `Services`: the orchestrator `CharacterService.CreateCharacter`, a method
  that changes the repository. Its postcondition ties the answer and the new
  table to the pure function `GetOrCreate`. Lemmas about `GetOrCreate` state
  the outcomes and the effects of one call. The catalog is held as a function
  value with the port's by-name signature, so every result holds for any
  catalog. `DragonBallCatalog` turns the client model into one. Another
  catalog's error is `CatalogError.Foreign`, known only by its message text.
- `Scenarios`: one client method per test case of the repository's test suite
  (service, repository and client tests). For the service and the repository,
  the methods' contracts alone settle what the test asserts. The client tests
  call pure functions, whose definitions are visible too.

A fetched character is handed back as it was built in memory. Its timestamps
keep Go's zero value (`ZeroTime`), while the row it was saved as carries the
clock value. This is what the code does, and the model keeps it.

A failed store lookup is not reported to the caller. The service treats it
exactly like "not in the store" and goes on to the catalog
(`Services.LookupErrorIsMiss`). Only catalog failures, catalog misses and save
failures reach the caller as errors.

## Model

| member | source | states |
|---|---|---|
| `Domain.FoldCaseAt` | internal/adapters/secondary/db/postgres/character_repository.go:46 | folding keeps the length of a name and lower-cases each character on its own |
| `Domain.EqualFoldPointwise` | internal/adapters/secondary/db/postgres/character_repository.go:46 | two names are equal up to case if and only if they have the same length and agree character by character once lower-cased |
| `Format.NatToDecimalRoundTrip` | internal/adapters/secondary/dragonballapi/client.go:54 | reading back the decimal digits printed for a natural number gives that number |
| `Format.DecimalRoundTrip` | internal/adapters/secondary/dragonballapi/client.go:99 | whatever follows `%d`, if it does not start with a digit, the printed integer (negative too) can be read back exactly |
| `DragonBallApi.BadStatusMessageNamesStatus` | internal/adapters/secondary/dragonballapi/client.go:96-100 | the bad-status error message carries the status code: it can be read back from the text whatever the body is |
| `DragonBallApi.ToDomain` | internal/adapters/secondary/dragonballapi/client.go:69-74 | id, name, ki and race are copied from the upstream item (the id as the JSON number's own text), and the timestamps stay at zero |
| `DragonBallApi.FirstMatch` | internal/adapters/secondary/dragonballapi/client.go:66-67 | an index found is the first item whose name equals the target exactly; none found means no item has that name |
| `DragonBallApi.FindCharacterByName` | internal/adapters/secondary/dragonballapi/client.go:39-79 | a transport failure, any status other than 200 and an undecodable body each give the matching error; otherwise there is no error, the answer is absent exactly when no item has the name, and a found record is the copy of the first exact match |
| `DragonBallApi.FindCharacterByID` | internal/adapters/secondary/dragonballapi/client.go:82-117 | 404 gives absent and no error, and nothing else does; any other non-200 status gives a bad-status error with that code; a decoded 200 reply gives its fields unchanged |
| `DragonBallApi.FirstMatchSkipsOthers` | internal/adapters/secondary/dragonballapi/client.go:66-76 | items put in front that do not carry the name do not change which item is found; its index only shifts by their number |
| `Postgres.Upsert` | internal/adapters/secondary/db/postgres/character_repository.go:27-33 | after an upsert, the row under `c.id` holds c's name, ki and race with updated_at set to now; created_at is kept on conflict and set to now on insert; no other key is added or changed; the primary-key invariant is kept |
| `Postgres.CharacterRepository.constructor` | internal/adapters/secondary/db/postgres/character_repository.go:19-21 | a repository starts over a given table that is keyed by id |
| `Postgres.CharacterRepository.SaveCharacter` | internal/adapters/secondary/db/postgres/character_repository.go:23-39 | with no failure, the table becomes the upsert of the record and no error is returned; a failure returns a save error and leaves the table unchanged |
| `Postgres.CharacterRepository.FindCharacterByName` | internal/adapters/secondary/db/postgres/character_repository.go:42-60 | a failure gives a lookup error; otherwise there is no error, the answer is absent if and only if no row's name matches up to case, and a record returned is a stored row, unchanged, whose name matches; the table is only read |
| `Postgres.UpsertIdempotent` | internal/adapters/secondary/db/postgres/character_repository.go:28-31 | saving the same record twice leaves the same keys, the same name, ki, race and created_at, and only updated_at refreshed |
| `Postgres.UpsertOnlyMatch` | internal/adapters/secondary/db/postgres/character_repository.go:27-50 | when no row matched a name, after saving a record with that name the new row is the one and only match |
| `Postgres.LikeLiteral` | internal/adapters/secondary/db/postgres/character_repository.go:46 | a LIKE pattern with no pattern characters matches exactly the string equal to it |
| `Postgres.ILikeAgreesOnPlainNames` | internal/adapters/secondary/db/postgres/character_repository.go:46 | for a name free of `%`, `_` and `\`, ILIKE with the name as pattern is exactly equality up to case |
| `Postgres.WildcardNameMatchesOtherRow` | internal/adapters/secondary/db/postgres/character_repository.go:46-47 | the lookup as written matches a stored "Goku" for the requested name "%", although the two names differ up to case |
| `Services.NewCharacter` | internal/core/services/character_service.go:53-58 | the record to save copies id, name, ki and race from the catalog's answer, with zero timestamps |
| `Services.CharacterService.constructor` | internal/core/services/character_service.go:18-28 | the service keeps the repository and catalog it is given |
| `Services.CharacterService.CreateCharacter` | internal/core/services/character_service.go:30-67 | the store answers as its lookup contract allows; the answer and the new table are those `GetOrCreate` gives for that lookup, the catalog, the save outcome and the clock; the repository's key invariant is kept |
| `Services.ServedFromStore` | internal/core/services/character_service.go:34-38 | when a row matches, the answer is exactly the record the store lookup returned, a stored row whose name matches; the table is not written, and the answer is the same whatever the catalog and whatever a save would do |
| `Services.LookupErrorIsMiss` | internal/core/services/character_service.go:34-42 | a failed store lookup gives exactly the same outcome as a lookup that found nothing |
| `Services.CatalogAskedOnlyForName` | internal/core/services/character_service.go:42 | the outcome depends on the catalog only through its answer for the requested name |
| `Services.CatalogErrorIsFetchError` | internal/core/services/character_service.go:42-46 | after a store miss, a catalog error gives a fetch error wrapping it, and the message starts with "failed to fetch character from external API"; nothing is saved |
| `Services.CatalogMissIsNotFound` | internal/core/services/character_service.go:47-50 | after a store miss, a catalog miss gives a not-found error naming the character; nothing is saved |
| `Services.CatalogHitIsSaved` | internal/core/services/character_service.go:53-66 | after a store miss, a catalog hit is upserted once with the catalog's id, name, ki and race, and the record returned is the record saved |
| `Services.SaveFailureIsSaveError` | internal/core/services/character_service.go:60-63 | a failed save gives a save error whose message starts with "failed to save character"; no character is returned and the table is unchanged |
| `Services.AtMostOneWrite` | internal/core/services/character_service.go:34-66 | each call leaves the table unchanged or upserts exactly the record it returns; an error never comes with a changed table |
| `Services.DragonBallCatalogIsExact` | internal/adapters/secondary/dragonballapi/client.go:66-72 | the Dragon Ball client used as a catalog answers a name only with a record of exactly that name |
| `Services.SecondCallServedFromStore` | internal/core/services/character_service.go:34-66 | for a catalog that answers a name only with a record of exactly that name (as the Dragon Ball client does, `Services.DragonBallCatalogIsExact`), if a first call fetched and saved a character no row matched before, a second call for the same name is served from the store with the same id and name, leaves the table as it was, and does not depend on the catalog |

## Findings

| source | as written | input that shows it | evidently intended | confidence | as-written member | corrected member |
|---|---|---|---|---|---|---|
| internal/adapters/secondary/db/postgres/character_repository.go:46-47 | the requested name is the ILIKE pattern itself, so `%`, `_` and `\` in it are pattern characters | a table holding "Goku" and a request for the name "%": the row matches, so the service returns Goku without asking the catalog | a case-insensitive exact match on the name | medium, not executed | `Postgres.WildcardNameMatchesOtherRow` | `Postgres.CharacterRepository.FindCharacterByName` |

The corrected lookup matches by `Domain.EqualFold`, and the rest of the model uses it.
`Postgres.ILikeAgreesOnPlainNames` shows that the two agree for every name without
pattern characters.

## Left out

- HTTP transport: the GET request, the URL built from the package-level `BaseURL`, reading the body and JSON decoding with `UseNumber`. The reply is an input instead: a transport error, or a status, a body and the outcome of decoding it.
- `DragonBallApi.FindCharacterByID`: it has no `id` parameter, because in the source the id only forms the request URL.
- SQL execution (`ExecContext`, `QueryRowContext`, `Scan`), contexts and the connection pool. The table is a map, NOW() is the `now` argument, and any driver failure is the injected `fault` argument. A failed statement is taken to leave the table unchanged.
- Which row PostgreSQL returns when several names match: the lookup may return any matching row.
- ILIKE as the database evaluates it. Case folding is ASCII only, not the database locale's `lower()`. Wildcards are handled only in the as-written member under Findings. A pattern ending in `\`, which the database rejects, is read there as a literal backslash.
- Logging (`slog`) throughout: it has no effect on behaviour.
- The HTTP handler (request binding, status mapping), process start-up, schema bootstrap and configuration loading.
- Concurrent requests for the same name: only one call at a time is modelled.
- Services.CreateCharacter: the store and catalog answers are values that are either a result or an error, never both. An arbitrary store implementation returning a record together with an error is not representable. The Go service treats that case as a miss, and the PostgreSQL repository never produces it.
- Interfaces as traits (traits are not used): the store is the PostgreSQL repository model itself. Its nondeterministic choice among matching rows and its injected failures cover what the repository can do. The catalog is any function with the port's by-name signature. The catalog's by-id lookup is not used by the service and is not part of that function type.
- Error wrapping with `%w` is modelled as nested error values with their message text. `errors.Is`/`errors.Unwrap` are not modelled.
