# Test-fixture projects: user store, string helpers, record transformer

This project models the self-contained, sequential pieces of a set of small
example projects (a Go project, a Python project and a mixed Python project)
and proves what they promise:

- the Go in-memory **user store** (`UserService`): a map from ID to user and a
  counter for the next ID. It is a Dafny class whose invariant says that every
  user is stored under its own ID and that every ID lies in `[1, nextID)`;
- the **e-mail pattern** `^[\w.-]+@[\w.-]+\.\w+$`, which Python's
  `validate_email` and Go's `ValidateEmail` share. It is written as a predicate
  over characters (`EmailPattern.Matches`). It is proved equal to a second
  description: exactly one `@`, a nonempty local part, and a domain read
  through its last dot. Python's `$` also matches just before one final
  newline; Go's does not. Both behaviours are modelled, and the two
  validators are proved to agree everywhere else;
- Python's **`slugify`** (lower-case, turn each run of non-word characters into
  one `-`, strip `-` from both ends) and **`truncate`**, with Python's slice
  semantics for a negative bound. Go's **`ValidateName`** uses `len`, which
  counts UTF-8 bytes, so the model computes the byte length from the code
  points;
- the **record transformer** `DataProcessor.process`: a position-wise map
  that copies `id` and doubles `value` (0 when absent);
- the Python and Go **user/admin models** (`User`, `AdminUser`, `NewUser`,
  `NewAdmin`, `IsAdmin`, `String`, `HasPermission`, `grant_permission`) and
  the Python lookup service (`get_all`, `get_by_id`, `create_admin`).

Character classes are ASCII throughout: `\w` is `[A-Za-z0-9_]` and lower-casing
maps only `A`..`Z`. This is exactly Go's RE2 `\w`. Python's `\w` and
`str.lower()` are wider on non-ASCII text.

`AdminUser` in Python is a class because `grant_permission` changes it in
place. The other entities are values. The Go store is a class because
`Create` updates its map and counter.

`create_admin` leaves `permissions` as `None`, not an empty list
(test/fixtures/python-project/models/user.py:16,
test/fixtures/python-project/services/user_service.py:17). It becomes a list
only on the first `grant_permission`.

Files: `wrappers.dfy` (Option, Result), `ascii.dfy`, `utf8.dfy`,
`email_pattern.dfy`, `py_helpers.dfy`, `go_validators.dfy`, `processor.dfy`,
`py_models.dfy`, `py_user_service.dfy`, `go_models.dfy`,
`go_user_service.dfy`.

## Model

| member | source | states |
|---|---|---|
| `GoUserService.UserService.constructor` | test/fixtures/go-project/services/user_service.go:15-21 | a new store keeps the URL, has no users and `nextID == 1`, and satisfies the invariant (keys are the stored users' IDs, all in `[1, nextID)`) |
| `GoUserService.UserService.GetAll` | test/fixtures/go-project/services/user_service.go:23-29 | never an error; the result has one entry per stored user, every entry is a stored user under its own ID, every stored user appears, and no entry repeats (order left open) |
| `GoUserService.UserService.GetByID` | test/fixtures/go-project/services/user_service.go:31-37 | the stored user when the ID is a key, the "user not found" error exactly when it is not, and under the invariant the returned user carries the requested ID; nothing changes |
| `GoUserService.UserService.Create` | test/fixtures/go-project/services/user_service.go:39-45 | never an error; the new user has the old `nextID`, the given name and e-mail and role "user"; `nextID` grows by one; the ID exceeds every ID already stored; the map is the old map plus this one entry; the invariant is kept |
| `GoUserService.CreateTwice` | test/fixtures/go-project/services/user_service.go:41-43 | two successive `Create` calls return strictly increasing IDs and both users end up stored |
| `EmailPattern.MatchesIffShape` | test/fixtures/python-project/utils/helpers.py:4 | a string matches `[\w.-]+@[\w.-]+\.\w+` from start to end exactly when it has one '@', a nonempty `[\w.-]` local part before it, a domain over `[\w.-]` with a dot, something before its last dot and a nonempty run of word characters after it |
| `EmailPattern.MatchesShape` | test/fixtures/go-project/utils/validators.go:5 | the pattern-to-shape direction of the equivalence |
| `EmailPattern.ShapeMatches` | test/fixtures/go-project/utils/validators.go:5 | the shape-to-pattern direction of the equivalence |
| `EmailPattern.MatchEndsWithWordChar` | test/fixtures/python-project/utils/helpers.py:4 | a full match ends on a word character (the `\w+$` tail) |
| `EmailPattern.MatchHasAt` | test/fixtures/python-project/utils/helpers.py:4 | a full match contains an '@' |
| `PyHelpers.ValidateEmailIff` | test/fixtures/python-project/utils/helpers.py:4-7 | `validate_email` accepts exactly the strings that have the address shape once at most one final newline is dropped (the `$` of `re.match`) |
| `PyHelpers.ValidateEmailAcceptsExample` | test/fixtures/python-project/utils/helpers.py:6-7 | "user@example.com" is accepted, and so is the same with a final newline |
| `PyHelpers.ValidateEmailRejectsExample` | test/fixtures/python-project/utils/helpers.py:6-7 | "not-an-email" is rejected |
| `PyHelpers.SlugifyIsSlug` | test/fixtures/python-project/utils/helpers.py:9-10 | every output of `slugify` consists of lower-case word characters and '-', starts and ends with no '-', and never has two '-' in a row |
| `PyHelpers.SlugifyWordChars` | test/fixtures/python-project/utils/helpers.py:9-10 | the word characters of the output are those of the input, lower-cased and in the same order |
| `PyHelpers.SlugifyEmptyIff` | test/fixtures/python-project/utils/helpers.py:9-10 | the output is empty exactly when the input has no word character |
| `PyHelpers.SlugIsFixpoint` | test/fixtures/python-project/utils/helpers.py:9-10 | a string that is already a slug is returned unchanged |
| `PyHelpers.SlugifyIdempotent` | test/fixtures/python-project/utils/helpers.py:9-10 | slugifying twice gives the same as slugifying once |
| `PyHelpers.SlugifyExample` | test/fixtures/python-project/utils/helpers.py:10 | "Hello, World!" becomes "hello-world" |
| `PyHelpers.ReplaceRunsShape` | test/fixtures/python-project/utils/helpers.py:10 | the `re.sub` step on lower-cased text yields only slug characters and no "--" |
| `PyHelpers.ReplaceRunsWordChars` | test/fixtures/python-project/utils/helpers.py:10 | the `re.sub` step keeps every word character, in order |
| `PyHelpers.ReplaceRunsWord` | test/fixtures/python-project/utils/helpers.py:10 | the `re.sub` step copies a run of word characters |
| `PyHelpers.ReplaceRunsGap` | test/fixtures/python-project/utils/helpers.py:10 | the `re.sub` step turns a whole run of non-word characters into a single '-' |
| `PyHelpers.StripLeading` | test/fixtures/python-project/utils/helpers.py:10 | the left half of `strip('-')` removes exactly the leading '-' characters and leaves a string not starting with '-' |
| `PyHelpers.StripTrailing` | test/fixtures/python-project/utils/helpers.py:10 | the right half of `strip('-')` removes exactly the trailing '-' characters and leaves a string not ending with '-' |
| `PyHelpers.StripWordChars` | test/fixtures/python-project/utils/helpers.py:10 | `strip('-')` keeps every word character |
| `PyHelpers.SliceTo` | test/fixtures/python-project/utils/helpers.py:15 | Python's `text[:k]` is a prefix whose length is `k` clamped to the text, or, for negative `k`, the length plus `k` clamped at 0 |
| `PyHelpers.TruncateFits` | test/fixtures/python-project/utils/helpers.py:13-14 | text no longer than the limit is returned unchanged |
| `PyHelpers.TruncateCuts` | test/fixtures/python-project/utils/helpers.py:15 | for a limit of at least 3 and longer text, the result has exactly the limit's length, keeps the first limit−3 characters and ends in "..." |
| `PyHelpers.TruncateDefaultBound` | test/fixtures/python-project/utils/helpers.py:12-15 | with the default limit of 100 the result never exceeds 100 characters |
| `PyHelpers.TruncateSmallLimit` | test/fixtures/python-project/utils/helpers.py:15 | for a limit below 3 the negative slice bound counts from the end, so the result is longer than the limit |
| `PyHelpers.TruncateExample` | test/fixtures/python-project/utils/helpers.py:12-15 | "abcdefghij" with limit 5 becomes "ab..." |
| `GoValidators.ValidateEmailIff` | test/fixtures/go-project/utils/validators.go:5-9 | `ValidateEmail` accepts exactly the strings of the address shape (no newline allowance) |
| `GoValidators.ValidateEmailOneAt` | test/fixtures/go-project/utils/validators.go:5-9 | an accepted string has exactly one '@' and a '.' after it |
| `GoValidators.ValidateEmailRejectsFinalNewline` | test/fixtures/go-project/utils/validators.go:5 | no string ending in a newline is accepted |
| `GoValidators.ValidateEmailAgreesWithPython` | test/fixtures/go-project/utils/validators.go:5-9 | on every string not ending in a newline the Go and Python validators give the same answer |
| `GoValidators.ValidateEmailNewlineExample` | test/fixtures/go-project/utils/validators.go:5 | "user@example.com" followed by a newline is rejected by Go and accepted by Python |
| `GoValidators.ValidateNameRejectsShort` | test/fixtures/go-project/utils/validators.go:11-13 | the empty name and every one-byte name are rejected |
| `GoValidators.ValidateNameAcceptsLong` | test/fixtures/go-project/utils/validators.go:11-13 | every name of two or more characters is accepted |
| `GoValidators.ValidateNameAscii` | test/fixtures/go-project/utils/validators.go:11-13 | on ASCII names, accepted exactly when the length is at least 2 |
| `GoValidators.ValidateNameMultiByte` | test/fixtures/go-project/utils/validators.go:12 | a single non-ASCII character is already two bytes and is accepted |
| `Utf8.Length` | test/fixtures/go-project/utils/validators.go:12 | Go's byte length lies between the character count and four times it |
| `Utf8.LengthConcat` | test/fixtures/go-project/models/user.go:25 | byte length adds up over concatenation |
| `Utf8.LengthAscii` | test/fixtures/go-project/utils/validators.go:12 | on ASCII text the byte length is the character count |
| `Processor.Process` | test/fixtures/mixed-project/processor.py:8-10 | the output has the input's length and its i-th record is the transform of the i-th input record |
| `Processor.TransformFields` | test/fixtures/mixed-project/processor.py:12-17 | the output `id` is the input `id` (None when absent); the output `value` is twice the input's, 0 when absent |
| `Processor.TransformIgnoresOtherKeys` | test/fixtures/mixed-project/processor.py:14-17 | input keys other than `id` and `value` have no effect on the output |
| `Processor.ProcessConcat` | test/fixtures/mixed-project/processor.py:10 | processing a concatenation is the concatenation of the processed parts |
| `Processor.ProcessEmpty` | test/fixtures/mixed-project/processor.py:10 | the empty list is processed to the empty list |
| `PyModels.DefaultRole` | test/fixtures/python-project/models/user.py:5-9 | a user built without a role has role "user" and is not an admin |
| `PyModels.IsAdminIff` | test/fixtures/python-project/models/user.py:11-12 | `is_admin` holds exactly when the role is "admin" |
| `PyModels.AdminUser.constructor` | test/fixtures/python-project/models/user.py:14-16 | the fields are the arguments; role defaults to "user" and permissions to None |
| `PyModels.AdminUser.GrantPermission` | test/fixtures/python-project/models/user.py:18-21 | permissions become the old list (or `[]` when None) with the new permission appended; id, name, e-mail and role are unchanged |
| `PyModels.GrantedAppends` | test/fixtures/python-project/models/user.py:19-21 | granting grows the list by one, keeps the earlier entries in place and puts the new one last, starting from `[]` when None |
| `PyModels.GrantedTwice` | test/fixtures/python-project/models/user.py:21 | granting the same permission twice adds two copies of it |
| `PyUserService.NewUserServiceEmpty` | test/fixtures/python-project/services/user_service.py:6-8 | a new service has an empty cache and `get_all` returns the empty list |
| `PyUserService.GetByIdIff` | test/fixtures/python-project/services/user_service.py:13-14 | a lookup returns a user exactly when the cache holds that user under the key, and None exactly when the key is absent |
| `PyUserService.GetByIdFresh` | test/fixtures/python-project/services/user_service.py:6-8 | on a fresh service every lookup returns None |
| `PyUserService.UserService.CreateAdmin` | test/fixtures/python-project/services/user_service.py:16-18 | a fresh admin with id 0, the given name and e-mail, role "admin", permissions None, for which `is_admin` holds; the service value is untouched |
| `GoModels.IsAdminIff` | test/fixtures/go-project/models/user.go:20-22 | `IsAdmin` holds exactly when the role is "admin" |
| `GoModels.NewUserFields` | test/fixtures/go-project/models/user.go:12-18 | a new user has ID 0, the given name and e-mail, role "user", and is not an admin |
| `GoModels.StringLayout` | test/fixtures/go-project/models/user.go:24-26 | `String()` is the name, " <", the e-mail and ">", so both fields can be read back, and its byte length is the fields' byte lengths plus 3 |
| `GoModels.NewAdminFields` | test/fixtures/go-project/models/admin.go:8-17 | a new admin has ID 0, the given name and e-mail, role "admin", the given permissions, and is an admin |
| `GoModels.AdminUser.HasPermission` | test/fixtures/go-project/models/admin.go:19-26 | true exactly when the permission occurs in the list (so false on an empty or nil list); the admin is a value and is not changed |

## Left out

- Pointer aliasing: Go's `Create`/`GetByID` return `*User` and `NewAdmin` keeps the caller's slice, and Python's `AdminUser` may share its `permissions` list with the caller. Users and lists are values here, so writes through another reference (for example changing `ID` through a returned pointer) are not modelled.
- Go `int` wrap-around of `nextID` after 2^63 − 1 calls to `Create`: integers are unbounded here.
- The iteration order of Go's `range` over a map in `GetAll`: Go leaves it unspecified, so the result is specified up to order.
- Unicode `\w` and `str.lower()` in Python: both are ASCII here. On non-ASCII letters Python's slug and e-mail results differ from the model's.
- Go strings that are not valid UTF-8: strings are sequences of Unicode scalar values here.
- The regex engines themselves (`re`, `regexp`): replaced by the character predicates above.
- `DataProcessor.cache`: never read or written by `process` or `_transform`, so the transformer is pure and carries no state.
- `_transform` on a `value` that is not an integer (`*2` repeats strings; an explicit `None` raises): `value` is an integer or absent.
- An `id` key stored with the value `None` is not told apart from an absent `id`. Python's `get` returns None in both cases, so the output is the same.
- The `dbURL` / `db_url` fields: carried by the constructors, never used.
- `truncate` with a non-integer `max_length`; `max_length` is an integer here.
- Configuration modules (`config/config.go`, `config.py`; environment lookups with defaults), driver programs (`main.go`, `main.py`) and the Flask routes (`server.py`): I/O and glue, not part of this model. The Python store's database URL is a parameter.
- Dataclass-generated equality and printing, and Go's `fmt` machinery beyond the one `Sprintf` format.
