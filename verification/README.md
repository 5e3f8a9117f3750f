# shadow-id user service: a Dafny model

This project models the core of a small Go desktop backend that creates and
fetches users. The core is an in-memory user repository keyed by identifier,
a user service that validates names and emails and checks email uniqueness,
and the create-user and get-user handlers that chain them. Around them sit the
pieces those handlers rely on: the User entity, the application error type with
its kinds and cause chains, the identifier generator, and the pure parts of the
logger.

Modules, one per source component:

- `Wrappers`: `Option` (a Go value that may be nil) and `Result`.
- `Errors` (pkg/errors/errors.go, internal/domain/entities/errors.go): error kinds,
  the four domain sentinels, application errors with a cause, and `Error()` text.
  It also has `Wrap`, `Unwrap`, `IsType` and the constructors.
- `Ids` (pkg/types/id.go): identifiers, validation by UTF-8 byte length, and
  lowercase Base 16 encoding (section 8 of RFC 4648) with its decoder. It also
  has the fallback counter and `NewID`.
- `Entities` (internal/domain/entities/user.go): the User record and its
  constructor, mutators and structural validation.
- `MemoryStore` (internal/infra/storage/memory/user_repository.go): the store as
  `map<ID, User>` and its seven operations. It also defines the store invariants:
  users are keyed by their own ID, and emails are unique.
- `UserService` (internal/infra/services/user_service.go): Go's `unicode.IsSpace`
  and `strings.TrimSpace`, the validation rules, and the uniqueness check.
- `CreateUser`, `GetUser` (internal/app/commands/create_user.go,
  internal/app/queries/get_user.go): the two handlers.
- `Scenarios`: properties that span several calls, such as create then get.
- `Logger` (pkg/logger/logger.go): level parsing, threshold gating, and
  assembling a line from a message and key/value arguments.

The store's read/write lock makes every operation atomic, so each operation is a
pure function from the map before to its reply and the map after. Go randomises
map iteration order. `GetByEmail` and `List` therefore take the order the runtime
chose as a parameter `order`, and `IsEnumeration(order, s)` requires it to list
each key exactly once. Every contract holds for every such order, so "any
matching user" and "any enumeration order" are stated without fixing one.

The clock, the random bytes and the fallback counter are also explicit inputs.
`Time` stands for a clock reading, `Entropy` for the outcome of reading 16 random
bytes, and `IdGen` for the counter.

The model follows the code where it departs from what the error kinds and names suggest:

- Invalid input to create-user is not reported as a Validation-kind error. The
  domain's errors are plain sentinels, and `Wrap` makes them Internal-kind
  (`CreateUser.FailureKinds`).
- A taken email is not reported as a Conflict-kind error. It is the bare
  already-exists sentinel, which has no kind.
- A store lookup by email returns some matching user in map iteration order, not
  "the first".

Two further facts the proofs brought out:

- A successful create keeps emails unique even when the fresh ID collides with a
  stored one (`CreateUser.Handle`), because the overwritten user cannot share the
  new email either.
- The fallback identifiers `id_1` to `id_9999` are shorter than 8 bytes, so the
  same package's `Validate` rejects the first 9999 of them; from `id_10000` on
  they pass (`Ids.FallbackValidateThreshold`). Nothing in the core validates
  generated IDs, so this is noted here and is not a finding.

## Model

| member | source | states |
|---|---|---|
| Errors.TextJoinsChain | pkg/errors/errors.go:27-32 | The `Error()` text of any error is the messages along its cause chain joined by ": ", ending in the innermost error's own text |
| Errors.Chain | pkg/errors/errors.go:19-24 | The cause chain starts at the error; each link but the last is an application error whose cause is the next link; the last has no cause |
| Errors.Unwrap | pkg/errors/errors.go:35-37 | Unwrap steps exactly one link down the cause chain, and is nil exactly when the chain ends at the error |
| Errors.New | pkg/errors/errors.go:40-45 | A new error has the given kind and no code, renders as its message, and has no cause |
| Errors.WrapError | pkg/errors/errors.go:53-66 | Wrapping a non-nil error keeps it as the cause (Unwrap gives it back). It adds one link and renders as message + ": " + inner text. An application error keeps its kind; any other error becomes Internal |
| Errors.Wrap | pkg/errors/errors.go:48-51 | Wrap of nil is nil; of anything else it is the wrapped error above |
| Errors.IsTypeOutermostOnly | pkg/errors/errors.go:102-107 | IsType ignores the cause entirely, and is false for nil and for every error that is not an application error, whatever the kind asked for |
| Errors.WrapAllKeepsKind | pkg/errors/errors.go:53-66 | Wrapping any number of times keeps the kind the first wrap gave, and each wrap adds exactly one chain link |
| Ids.String | pkg/types/id.go:23-25 | The string of an ID rebuilds that very ID |
| Ids.IsEmpty | pkg/types/id.go:28-30 | An ID is empty exactly when its string has length 0 |
| Ids.ByteLength | pkg/types/id.go:37 | Go's string length counts UTF-8 bytes: between 1 and 4 per character, 0 only for the empty string |
| Ids.Validate | pkg/types/id.go:33-41 | Validation succeeds iff the ID has at least 8 bytes. The empty ID gets the "cannot be empty" error; other short IDs get the "at least 8 characters" error |
| Ids.ValidateAscii | pkg/types/id.go:37-40 | For ASCII identifiers validation is exactly "length at least 8" |
| Ids.HexRoundTrip | pkg/types/id.go:19 | Decoding the lowercase Base 16 encoding of bytes gives the bytes back, so the encoding is injective |
| Ids.GenerateCounter | pkg/types/id.go:46-49 | The counter strictly increases by one, and the new value is the one returned |
| Ids.FallbackIDsDistinct | pkg/types/id.go:17 | Different counter values give different "id_" identifiers |
| Ids.NewID | pkg/types/id.go:13-20 | With random bytes: 32 lowercase hex digits that decode to the bytes, valid, counter untouched. On a failed read: the counter advances by one and the ID is the fallback for its new value |
| Ids.SuccessiveIDsDistinct | pkg/types/id.go:13-20 | Two successive NewID calls give different IDs unless the random source repeats the same 16 bytes |
| Ids.FallbackValidateThreshold | pkg/types/id.go:17 | Validate accepts the fallback identifier for counter value n iff n is at least 10000; below that it is refused as shorter than 8 characters |
| Ids.DecimalLength | pkg/types/id.go:17 | The `%d` rendering of n has at most k digits iff n < 10^k |
| Entities.NewUser | internal/domain/entities/user.go:19-28 | A new user has the name and email verbatim and both timestamps equal to the clock value. Its ID comes from NewID |
| Entities.UpdateName | internal/domain/entities/user.go:31-34 | Only the name and the update time change; ID, email and creation time are kept |
| Entities.UpdateEmail | internal/domain/entities/user.go:37-40 | Only the email and the update time change; ID, name and creation time are kept |
| Entities.Validate | internal/domain/entities/user.go:43-51 | An empty name gives the invalid-name sentinel first. Otherwise an empty email gives the invalid-email sentinel. Success iff both are non-empty |
| Entities.UpdatesCommute | internal/domain/entities/user.go:31-40 | Name and email updates touch disjoint fields, so their order does not matter. A non-empty name update keeps a valid user valid |
| MemoryStore.EnumerationSize | internal/infra/storage/memory/user_repository.go:96-99 | Any iteration order lists exactly as many users as the map holds |
| MemoryStore.Create | internal/infra/storage/memory/user_repository.go:26-32 | Create never fails. Afterwards the user is under its own ID and all other entries are unchanged. Count grows by one unless the ID was present, in which case the entry is overwritten |
| MemoryStore.GetByID | internal/infra/storage/memory/user_repository.go:35-47 | Returns the stored user iff the ID is present; an absent ID gives none, never an error |
| MemoryStore.GetByEmail | internal/infra/storage/memory/user_repository.go:50-63 | Returns some stored user with that email, or none exactly when no stored user has it. With well-keyed users the result is the entry under its own ID |
| MemoryStore.Update | internal/infra/storage/memory/user_repository.go:66-76 | An absent ID gives the not-found sentinel and the same map. Otherwise only that entry changes, the key set and count stay the same, and keying stays correct |
| MemoryStore.Delete | internal/infra/storage/memory/user_repository.go:79-89 | An absent ID gives the not-found sentinel and the same map. Otherwise exactly that key goes, all else stays, and count drops by one |
| MemoryStore.List | internal/infra/storage/memory/user_repository.go:92-119 | Empty when offset is at least the count. Otherwise exactly min(limit, count - offset) users, the ones at positions offset onward of the iteration order, each a stored user |
| MemoryStore.Count | internal/infra/storage/memory/user_repository.go:121-127 | The count equals the length of every iteration order over the store |
| MemoryStore.ListAllIsCount | internal/infra/storage/memory/user_repository.go:122-127 | Listing Count users from offset 0 returns Count users that include every stored user |
| MemoryStore.ListAsWritten | internal/infra/storage/memory/user_repository.go:101-113 | For every int64 offset and limit: an offset past the count gives the empty page. Otherwise the call panics when offset + limit overflows, when the offset is negative, or when the limit is negative. With both non-negative and no overflow it agrees with List |
| MemoryStore.ListOverflowWitness | internal/infra/storage/memory/user_repository.go:107-113 | One stored user, offset 1, limit 2^63-1: the code as written panics, the intended result is an empty page |
| UserService.TrimSpace | internal/infra/services/user_service.go:27 | The trimmed name is a contiguous part of the name with only whitespace before and after it. It is empty exactly when every character is a Go whitespace character; otherwise it starts and ends with non-space |
| UserService.ValidateUserCreation | internal/infra/services/user_service.go:25-37 | The invalid-name sentinel iff the name is all whitespace, checked first. Then the invalid-email sentinel iff the email lacks "@" or ".". Otherwise success |
| UserService.ValidateUserUpdate | internal/infra/services/user_service.go:40-43 | Exactly the creation verdict for the same user |
| UserService.DecideUnique | internal/infra/services/user_service.go:46-63 | A lookup error is passed on with "not unique". No match means unique. A match with an empty exclusion means not unique. A match with a non-empty exclusion is unique iff the matched user is the excluded ID |
| UserService.IsEmailUnique | internal/infra/services/user_service.go:46-63 | Never an error over the in-memory store. Unique when no user has the email. With an empty exclusion: unique iff nobody has the email. With a non-empty exclusion, for every store: unique when every holder of the email is the excluded user, and not unique when some user holds it and none of them is the excluded user. With unique emails and a non-empty exclusion: unique iff every holder is the excluded user |
| CreateUser.Handle | internal/app/commands/create_user.go:45-80 | Checks run in order: structural, then rules, then uniqueness, with the stated errors. Success iff name and email pass and nobody has the email. Failure leaves the store alone. Success stores the user verbatim under the new ID and echoes its fields. Keying and email uniqueness are preserved |
| CreateUser.FailureKinds | internal/app/commands/create_user.go:50-66 | Invalid input fails with an Internal-kind error, never Validation-kind; a taken email fails with an error of no kind |
| GetUser.FromLookup | internal/app/queries/get_user.go:38-57 | A lookup error is wrapped and keeps its kind (Internal for plain errors). No user gives a NotFound error reading "user not found". A user gives all five of its fields |
| GetUser.Handle | internal/app/queries/get_user.go:38-57 | An absent ID gives a NotFound error. A present ID gives the stored user's ID, name, email and both times. It reads the store and cannot change it |
| Scenarios.CreateThenGet | internal/app/queries/get_user.go:50-55 | A create with valid input and an unused email succeeds. Getting the ID it returned gives the name and email as given, with equal creation and update times |
| Scenarios.SecondCreateWithSameEmailFails | internal/app/commands/create_user.go:60-66 | After a successful create (valid input, unused email), another create with the same email fails, changes nothing and leaves the first user retrievable. If the name passes, the error is the already-exists sentinel |
| Scenarios.GuardedUpdateKeepsEmailsUnique | internal/infra/services/user_service.go:57-60 | An update the uniqueness check accepts (excluding the user's own ID) keeps emails unique and users keyed by ID |
| Scenarios.DistinctEmailsBothRetrievable | internal/app/commands/create_user.go:45-80 | Two valid creates with distinct, unused emails both succeed, and both users are retrievable afterwards, unless the random source repeats |
| Logger.LevelsTotallyOrdered | pkg/logger/logger.go:12-17 | DEBUG < INFO < WARN < ERROR is a total order |
| Logger.ParseLogLevel | pkg/logger/logger.go:43-56 | Exactly debug/DEBUG, warn/WARN, error/ERROR give those levels; every other string, mixed case included, gives INFO |
| Logger.ParseLevelName | pkg/logger/logger.go:43-56 | Parsing the name a level is written with gives that level back |
| Logger.EnabledIsThreshold | pkg/logger/logger.go:59-84 | A call emits iff the configured level is at most the call's level; ERROR always emits, DEBUG only at DEBUG |
| Logger.FormatValueShowsChain | pkg/logger/logger.go:103-113 | A string value is shown as is, another value as rendered, and an error as the messages along its cause chain, outermost first, joined by ": " |
| Logger.TrailingKeyDropped | pkg/logger/logger.go:91-98 | An unpaired last key adds nothing. For every level and message, the line is still the prefix, the bar separator, and the complete pairs |
| Logger.LogLine | pkg/logger/logger.go:87-98 | The assembled line is "[" + LEVEL + "] " + msg. With arguments it continues with a space and a bar, then one " k=v" per complete pair, in order |
| Logger.Log | pkg/logger/logger.go:59-100 | The line is appended to the output iff the configured level is at most the call's level |
| Logger.LogDebug | pkg/logger/logger.go:59-63 | A DEBUG line is appended only when the configured level is DEBUG |
| Logger.LogInfo | pkg/logger/logger.go:66-70 | An INFO line is appended when the configured level is DEBUG or INFO, and nothing otherwise |
| Logger.LogWarn | pkg/logger/logger.go:73-77 | A WARN line is appended unless the configured level is ERROR |
| Logger.LogError | pkg/logger/logger.go:80-84 | An ERROR line is always appended |

## Findings

| source | as written | input that shows it | evidently intended | confidence | as-written member | corrected member |
|---|---|---|---|---|---|---|
| internal/infra/storage/memory/user_repository.go:107-113 | `end := start + limit` is computed in 64-bit `int`, then clipped to the length | one stored user, offset 1, limit 2^63-1: the sum wraps to -2^63, stays below the count, and `end-start` wraps back to 2^63-1, so `make` on line 112 panics with "len out of range" before the slice on line 113 is reached | the end bound clipped to the number of users: an empty page here | high, not executed | MemoryStore.ListAsWritten | MemoryStore.List |

## Left out

- The read/write lock and the `context.Context` parameters: the lock only makes each operation atomic, so the store is modelled sequentially.
- `time.Now`: every clock reading is a parameter.
- RFC 3339 timestamp formatting in both handlers: results carry the time value itself. The format has whole seconds, so `Time` stands for a reading at that precision.
- `crypto/rand`: the 16 bytes, or the failed read, are the `Entropy` parameter.
- Aliasing: `Create` and `Update` store the caller's pointer, and reads return copies. The model has value semantics, so the copies are implicit.
- The create handler's store-error branch (create_user.go:69-71): the in-memory `Create` always returns nil, so the model's `Create` has no error result and the branch does not exist.
- The handlers' repository-error branches are modelled only where the pure logic is separate from the in-memory store. `GetUser.FromLookup` and `UserService.DecideUnique` take the lookup reply as input. Over the in-memory store those branches cannot happen.
- `fmt.Sprint` in `formatValue`: a value that is neither a string nor an error is represented by its already-rendered text (`Other`).
- The type assertion on keys: it becomes the precondition `KeysAreStrings`, so the panic on a non-string key is not modelled.
- The `log.Logger` output itself: the date, time and file prefix it adds, and the write to standard output. Emission is appending the assembled line to a sequence.
- `Logger.New` and the `Logger` interface: `New` is the parsed level in a record. The interface holds no behaviour.
- internal/infra/config/config.go is not part of this model: it reads environment variables with defaults. Its `getEnvInt` ignores the variable and always returns the default.
- main.go, internal/infra/wails/app.go, internal/app/services/application_service.go and frontend/wailsjs/go/models.ts are not part of this model: they are wiring and GUI glue.
- The repository and service interfaces (internal/domain/repositories/user_repository.go, internal/domain/services/user_service.go) declare no behaviour. The model has the one in-memory implementation.
- Errors.Wrap: returns `None` for a nil error. In Go this is a typed nil `*AppError`, which compares non-nil once stored in an `error` variable. No caller passes nil.
- The `Code` field of an application error: no constructor sets it, so it is always empty.
- `IsValidationError`, `IsNotFoundError`, `IsConflictError` and `IsInternalError` are modelled as `IsType` with the fixed kind. `NewValidationError`, `NewNotFoundError`, `NewConflictError` and `NewInternalError` are modelled as `New` with the fixed kind. Neither group has a contract of its own.
- Ids.GenerateCounter: the counter is an unbounded `nat`. The source's `int64` would wrap after 2^63-1 fallbacks, which is not modelled.
- MemoryStore.List: admits only non-negative offset and limit. Negative values make the source panic unless the offset is past the count; `MemoryStore.ListAsWritten` covers them.
- MemoryStore.Count: returns `int64` in the source. Its overflow cannot happen for a map in memory and is not modelled.
- Invalid UTF-8 strings: a string is a sequence of Unicode characters, so byte-level operations (`len`, `strings.Contains`, `strings.TrimSpace`) are modelled on well-formed text.
