# DiplomaV2 core in Dafny

This project models the backend of DiplomaV2, a team-finder service. Users register, activate their account with an e-mailed token, change or reset their password, edit their profile and upload a profile picture. They publish posts that other users search by name, description, author, type and skills, page by page. The model covers two generations of this code:

- the GORM repositories and use cases under `backend/` and their older copies;
- the hand-written SQL stores of `internal/`.

PostgreSQL is replaced by one in-memory database, `Store.Database`, a class with three tables:

- **users**: a map from id to row. Usernames are unique. E-mails are unique up to ASCII case, because the column is `citext`; non-ASCII letters are not folded.
- **posts**: a sequence in insertion order, each with a foreign key to its author.
- **tokens**: a sequence of rows with increasing ids, each with a foreign key to its user.

The table methods enforce the schema: unique keys are checked in the order primary key, username, e-mail, and deleting a user cascades to that user's posts and tokens. Each id sequence is drawn on every insert, including one that fails. The class invariant `Valid` is preserved by every method. The repositories and use cases are classes that hold the database and change it through those methods. Each method's contract states the new contents of every table.

The pure parts are functions with lemmas about them:

- query-string helpers;
- validation rules;
- base32 token generation;
- the search condition builder, paging and metadata;
- the profile-image numbering;
- the compare-and-swap of the versioned SQL `UPDATE`.

Hashing (SHA-256, bcrypt), the random source and the clock are parameters. `Entities.Primitives` holds the hash functions; `entropy: Option<Bytes>` is the random source, where `None` means `crypto/rand` failed; `now` is the clock.

Where the documentation and the code disagree, the model follows the code:

- `SqlPostStore.DeleteAllForUser` deletes tokens, not posts.
- The older `DeleteToken` compares against a plaintext that is never stored.
- The older `Activation` cannot succeed (see Findings).

## Model

| member | source | states |
|---|---|---|
| Common.WrapInt64 | backend/user/usecase/userUsecaseImpl.go:180-186 | Go's `int` increment wraps around in two's complement: the result is in the int64 range, equals the input when no overflow happens, and is congruent to it modulo 2^64 |
| Common.ByteLen | internal/data/users.go:61-70 | `len` of a Go string counts UTF-8 bytes: between the rune count and four times it, and zero only for the empty string |
| Common.AsciiByteLen | token/repository/tokenImpl.go:71-74 | for an ASCII string the byte length is its character count |
| Strconv.Atoi | backend/user/usecase/userUsecaseImpl.go:178-184 | `strconv.Atoi` accepts only an optionally signed decimal numeral in the int64 range |
| Strconv.AtoiFormatInt | backend/user/usecase/userUsecaseImpl.go:170-186 | parsing the decimal form of any int64 gives it back (what `strconv.Itoa` writes, `strconv.Atoi` reads back) |
| Strconv.AtoiRejectsNonDigit | backend/user/usecase/userUsecaseImpl.go:178-184 | a non-digit after the first position makes `Atoi` fail |
| Strconv.FormatNatValue | backend/user/usecase/userUsecaseImpl.go:170-186 | the decimal digits written for n denote n |
| Strconv.FormatInt | backend/user/usecase/userUsecaseImpl.go:170-186 | a formatted integer is non-empty and contains neither '/' nor ',' |
| Strconv.LastIndex | backend/user/usecase/userUsecaseImpl.go:178 | `strings.LastIndex`: -1 or the position of the character, with no occurrence after it |
| Helpers.ReadString | backend/internal/helpers/helpers.go:15-22 | an absent or empty parameter yields the default, otherwise its first value |
| Helpers.Split | backend/internal/helpers/helpers.go:24-30 | `strings.Split` on ',' always yields at least one part |
| Helpers.JoinSplit | backend/internal/helpers/helpers.go:24-30 | joining the parts of a split with ',' gives back the original string |
| Helpers.SplitParts | backend/internal/helpers/helpers.go:24-30 | a split has one part more than the string has commas, and no part contains a comma |
| Helpers.SplitJoin | backend/internal/helpers/helpers.go:24-30 | splitting the join of comma-free parts gives the parts back |
| Helpers.ReadCSV | backend/internal/helpers/helpers.go:24-30 | an absent parameter yields the default; otherwise the comma-free parts whose join is the raw value, one more than its commas |
| Helpers.ReadInt | backend/internal/helpers/helpers.go:32-43 | an absent parameter yields the default; a non-integer yields the default and records "must be an integer value" under the key; an integer is returned with no error recorded |
| Entities.SetPassword | backend/internal/entity/users.go:42-50 | a bcrypt failure is an error; otherwise the password keeps the plaintext and the hash bcrypt produced |
| Entities.Matches | backend/internal/entity/users.go:52-63 | true exactly on a bcrypt match, false exactly on a mismatch, an error on any other comparison failure |
| Entities.StoredUser | backend/internal/entity/users.go:10-26 | the plaintext password is not a column; every other field is stored as given |
| Entities.StoredToken | backend/internal/entity/users.go:28-35 | the token plaintext is not a column (`gorm:"-"`); every other field is stored as given |
| Base32.EncodeNoPadding | token/repository/tokenImpl.go:58-64 | unpadded base32 of n bytes has ceil(8n/5) characters, all from the RFC 4648 alphabet |
| Validation.CheckErrors | internal/data/users.go:56-70 | a check records its message under its key exactly when it fails |
| UserValidation.EmailErrors | internal/data/users.go:56-59 | an e-mail is accepted exactly when it is non-empty and matches the e-mail pattern |
| UserValidation.UsernameErrors | internal/data/users.go:61-64 | a username is accepted exactly when it has 1 to 500 bytes |
| UserValidation.PasswordPlaintextErrors | internal/data/users.go:66-70 | a password is accepted exactly when it has 8 to 72 bytes |
| UserValidation.NameErrors | internal/data/users.go:73-74 | a name is accepted exactly when it has 1 to 500 bytes |
| UserValidation.UserErrors | internal/data/users.go:72-91 | a user passes exactly when name, e-mail and username pass, plus the password when a plaintext is present; errors are keyed by those four fields only |
| UserValidation.ValidateEmail | internal/data/users.go:56-59 | appends exactly the e-mail errors to the validator |
| UserValidation.ValidateUsername | internal/data/users.go:61-64 | appends exactly the username errors |
| UserValidation.ValidatePasswordPlaintext | internal/data/users.go:66-70 | appends exactly the password errors |
| UserValidation.ValidateName | internal/data/users.go:73-74 | appends exactly the name errors |
| UserValidation.ValidateUser | internal/data/users.go:72-91 | appends the name, e-mail, username and password errors in that order |
| Tables.UserConflict | backend/internal/entity/users.go:11-18 | a write is refused exactly when the id is taken on insert, the username is taken, or the e-mail is taken up to ASCII case; the e-mail constraint is reported exactly when it is the only one violated |
| Tables.WriteUserKeepsValid | backend/internal/entity/users.go:11-18 | a write the unique checks accept keeps ids keyed, usernames unique and e-mails unique up to ASCII case |
| Tables.RewriteKeepsKeys | backend/user/repository/usersImpl.go:66-72 | rewriting a row that keeps its username and e-mail never violates a unique constraint |
| Tables.InsertOfStoredUsernameFails | backend/user/repository/usersImpl.go:24-35 | inserting a row whose username is already stored is refused |
| Tables.RemovePostsMembers | backend/post/repository/postsImpl.go:38-74 | a DELETE keeps exactly the posts its WHERE clause does not select |
| Tables.CountPosts | backend/post/repository/postsImpl.go:43-50 | the rows affected are the posts removed; zero exactly when none is selected |
| Tables.RemovePostsIdempotent | backend/post/repository/postsImpl.go:63-74 | repeating a DELETE removes nothing more |
| Tables.RemovePostsKeepsDistinct | backend/internal/entity/posts.go:9 | deleting posts keeps primary keys distinct |
| Tables.RemovePostById | backend/post/repository/postsImpl.go:38-53 | deleting by a stored id removes exactly that row and keeps the others in order |
| Tables.RemovePostByIdCount | backend/post/repository/postsImpl.go:43-50 | deleting by id affects at most one row |
| Tables.RemoveTokensMembers | token/repository/tokenImpl.go:40-45 | a token DELETE keeps exactly the tokens its WHERE clause does not select |
| Tables.RemoveTokensKeepsOrder | backend/internal/entity/users.go:28-29 | deleting tokens keeps their ids increasing |
| Tables.RemoveTokensIdempotent | token/repository/tokenImpl.go:40-45 | repeating a token DELETE removes nothing more |
| Tables.CascadeKeepsValid | backend/internal/entity/users.go:24-25 | deleting a user with ON DELETE CASCADE leaves no post and no token pointing to a missing user |
| Tables.PostIndex | backend/post/repository/postsImpl.go:27-36 | finds the post with the id, and finds none exactly when no stored post has it |
| Tables.CompareAndSwapUserSpec | internal/data/users.go:218-252 | the versioned UPDATE matches no row exactly when the id is missing or the version moved on; on success it bumps the version and writes the new fields, keeps the creation time and profile image, and keeps the table valid |
| Tables.LostUpdatePrevented | internal/data/users.go:218-252 | of two updates issued from the same read, the second is refused |
| Tables.CompareAndSwapPostSpec | internal/post/data/posts.go:131-159 | the versioned post UPDATE matches no row exactly when no post has that id and version; on success only that post changes, gets version+1, and takes the new name, description, type and author |
| Tables.LeastOwnerSpec | backend/user/repository/usersImpl.go:74-92 | the token join finds no user exactly when no token has the hash and scope and is unexpired; otherwise it returns the least user id among the owners of such tokens (`First` orders by primary key) |
| Tables.LeastOwnerIgnores | backend/user/repository/usersImpl.go:80-85 | an expired token, or a token of another scope, never changes who the join finds |
| Store.UserRow | backend/user/repository/usersImpl.go:24-35 | Create takes the next id for a zero id and fills the version and creation defaults, leaving every other field as given |
| Store.PostRow | backend/post/repository/postsImpl.go:22-25 | the same defaults for a post |
| Store.Database.CreateUser | backend/user/repository/usersImpl.go:24-35 | an insert succeeds exactly when no unique key is violated, stores the row without plaintext, and draws the id sequence even when it fails |
| Store.Database.SaveUser | backend/user/repository/usersImpl.go:66-72 | Save overwrites a stored id without a version check, and inserts a zero or unknown id |
| Store.Database.DeleteUser | backend/user/repository/usersImpl.go:94-111 | removes the row, its posts and its tokens; reports whether a row was affected |
| Store.Database.CompareAndSwapUser | internal/data/users.go:218-252 | applies the versioned UPDATE to the users table |
| Store.Database.CreatePost | backend/post/repository/postsImpl.go:22-25 | an insert succeeds exactly when the id is free and the author exists; the error names the primary key or the author foreign key |
| Store.Database.SavePost | backend/post/repository/postsImpl.go:55-61 | Save overwrites a stored post when its author exists, and otherwise inserts as Create does, reporting a taken id or a missing author |
| Store.Database.DeletePosts | backend/post/repository/postsImpl.go:38-74 | removes the selected posts and reports how many were removed |
| Store.Database.CompareAndSwapPost | internal/post/data/posts.go:131-159 | applies the versioned UPDATE to the posts table |
| Store.Database.InsertToken | token/repository/tokenImpl.go:33-38 | a token insert succeeds exactly when its user exists, gets the next id and is stored without plaintext |
| Store.Database.DeleteTokens | token/repository/tokenImpl.go:40-45 | removes exactly the selected tokens |
| PostSearch.CalculateMetadata | backend/post/repository/postsImpl.go:125-137 | no records gives empty metadata; otherwise the last page is the least page count that covers every record |
| PostSearch.Contains | backend/post/repository/postsImpl.go:116-123 | the loop finds the value exactly when the list holds it |
| PostSearch.SearchConditions | backend/post/repository/postsImpl.go:80-94 | a condition is added only for a non-empty filter, and carries that filter's value |
| PostSearch.SearchConditionsMeanFilters | backend/post/repository/postsImpl.go:80-94 | a post meets all conditions exactly when it matches every given filter (ASCII case-insensitive substring on name and description, equal author and type, and the post's skills contain every requested skill); the author cast fails exactly for a non-numeric author |
| PostSearch.SearchConditionsBadAuthor | backend/post/repository/postsImpl.go:86-88 | the first failing author cast is the author argument, exactly when it is non-empty and not an integer |
| PostSearch.Window | backend/post/repository/postsImpl.go:106 | `Offset(...).Limit(...)` returns at most `limit` consecutive rows starting at the offset, and nothing past the end |
| PostSearch.PagesArePrefix | backend/post/repository/postsImpl.go:106 | the first n pages read in order form a prefix of the rows |
| PostSearch.PagesCoverRows | backend/post/repository/postsImpl.go:125-137 | reading pages 1 to lastPage returns every row, and the page after lastPage is empty |
| PostSearch.Ordered | backend/post/repository/postsImpl.go:102-104 | sorting permutes the rows; without a safelisted sort the query has no ORDER BY, and the model returns the rows in its one fixed table order |
| PostSearch.FirstBadAuthor | backend/post/repository/postsImpl.go:86-88 | the query fails on an author condition that is not an integer, and only then |
| PostSearch.MatchingMembers | backend/post/repository/postsImpl.go:76-114 | the matching posts are exactly the stored posts that satisfy the filters |
| PostSearch.SelectIsMatching | backend/post/repository/postsImpl.go:80-100 | applying the built conditions selects exactly the posts matching the filters, in the model's fixed table order |
| PostSearch.SearchResult | backend/post/repository/postsImpl.go:76-114 | the search fails exactly when the author is not an integer, and the error carries the author text |
| PostSearch.SearchResultMeaning | backend/post/repository/postsImpl.go:76-114 | a page has at most pageSize posts, all stored and matching; metadata is empty exactly when nothing matches, and otherwise counts every match; the page is the window at (page-1)*pageSize of the matches, taken in the model's fixed table order or, when a safelisted sort applies, in the sort's order |
| PostRepository.PostRepository.Insert | backend/post/repository/postsImpl.go:22-25 | Create stores the post with its generated id when the author exists |
| PostRepository.PostRepository.GetByID | backend/post/repository/postsImpl.go:27-36 | returns the post with the id, or post-not-found exactly when none has it |
| PostRepository.PostRepository.Delete | backend/post/repository/postsImpl.go:38-53 | an id below 1 is not found; otherwise the one post with the id is removed, or not found when none has it |
| PostRepository.PostRepository.Update | backend/post/repository/postsImpl.go:55-61 | Save replaces a stored post in place when its author exists, and inserts a post with a zero or unknown id as Create does (next id for a zero id; refused on a taken id or a missing author) |
| PostRepository.PostRepository.DeleteAllForUser | backend/post/repository/postsImpl.go:63-74 | an id below 1 is not found; otherwise no post of the author remains and the others stay |
| PostRepository.PostRepository.GetFilteredPosts | backend/post/repository/postsImpl.go:76-114 | returns the search result over the stored posts |
| PostRepository.PostRepository.GetFilteredPostsWithoutCount | post/repository/postsImpl.go:75-109 | the older copy returns the same page without the metadata |
| SqlPostStore.ByAuthorMembers | internal/post/data/posts.go:161-204 | an author's posts are exactly the stored posts with that author |
| SqlPostStore.NoPostsAfterRemoval | internal/post/data/posts.go:161-204 | after an author's posts are deleted, reading them returns none |
| SqlPostStore.SqlPostStore.GetByID | internal/post/data/posts.go:71-103 | an id below 1 is not found; otherwise the post with the id or not found |
| SqlPostStore.SqlPostStore.GetByAuthor | internal/post/data/posts.go:161-204 | an author below 1 is not found; otherwise the row loop returns exactly that author's posts, in the model's fixed table order |
| SqlPostStore.SqlPostStore.Update | internal/post/data/posts.go:131-159 | the new version on success; not found when the post is gone or was changed since it was read |
| SqlPostStore.SqlPostStore.DeleteAllForUser | internal/post/data/posts.go:206-214 | removes every token of the user, of every scope, and no post |
| SqlUserStore.InsertedColumns | internal/data/users.go:97-119 | the INSERT writes name, username, e-mail, hash and activation; every other column is empty |
| SqlUserStore.TokenUserColumns | internal/data/users.go:254-298 | the token join reads every column except surname, telegram, discord and profile image |
| SqlUserStore.SqlUserStore.Insert | internal/data/users.go:97-119 | succeeds exactly when no unique key is violated, returns version 1 and the generated id, and maps a taken e-mail to the duplicate-email error exactly |
| SqlUserStore.SqlUserStore.Update | internal/data/users.go:218-252 | returns version+1 on success; not found exactly when the row is gone or its version moved on; duplicate e-mail exactly on the e-mail constraint |
| SqlUserStore.SqlUserStore.GetForToken | internal/data/users.go:254-298 | finds a user exactly when an unexpired token of the scope has the hash, and the user found owns such a token |
| SqlUserStore.SqlUserStore.Delete | internal/data/users.go:300-329 | an id below 1 is not found; otherwise the row and its posts and tokens go, or not found when nothing was affected |
| UserRepository.SaveLosesConcurrentUpdate | backend/user/repository/usersImpl.go:66-72 | two Saves from the same read both succeed and the second silently replaces the first, while the versioned UPDATE refuses the second |
| UserRepository.PartialUser | user/repository/usersImpl.go:98-103 | the older join selects only name, username, e-mail and skills, so the user returned has id 0 |
| UserRepository.UserRepository.Insert | backend/user/repository/usersImpl.go:24-35 | Create stores the row exactly when no unique key is violated; a taken e-mail becomes the duplicate-email error and other violations pass through |
| UserRepository.UserRepository.GetByID | backend/user/repository/usersImpl.go:37-50 | returns the row with the id, or not found exactly when none has it |
| UserRepository.UserRepository.GetByEmail | backend/user/repository/usersImpl.go:52-64 | returns the only user whose e-mail equals the argument up to ASCII case, or not found exactly when none does |
| UserRepository.UserRepository.Update | backend/user/repository/usersImpl.go:66-72 | Save overwrites a stored row without a version check, unless another row holds its username or e-mail; a zero or unknown id is inserted instead |
| UserRepository.UserRepository.GetForToken | backend/user/repository/usersImpl.go:74-92 | finds a user exactly when a matching unexpired token exists; the user found is the matching owner with the least id |
| UserRepository.UserRepository.GetForTokenPartial | user/repository/usersImpl.go:91-116 | the same lookup, but the user returned carries only the four selected columns |
| UserRepository.UserRepository.Delete | backend/user/repository/usersImpl.go:94-111 | id 0 is refused (no WHERE clause); otherwise the row goes with its posts and tokens, or not found when it did not exist |
| TokenRepository.GenerateToken | token/repository/tokenImpl.go:51-69 | fails exactly when the random source fails; otherwise a 26-character base32 plaintext whose SHA-256 is the hash, expiring ttl after now, for the given user and scope |
| TokenRepository.TokenPlaintextErrors | token/repository/tokenImpl.go:71-74 | a token plaintext is accepted exactly when it has 26 bytes |
| TokenRepository.ValidateTokenPlaintext | token/repository/tokenImpl.go:71-74 | appends exactly the token errors |
| TokenRepository.GeneratedTokenValid | token/repository/tokenImpl.go:51-74 | every generated plaintext passes token validation |
| TokenRepository.FirstTokenOfSpec | user/tokenRepository/tokenImpl.go:46-50 | `First` on the user's tokens finds none exactly when the user has none; otherwise it finds the token with the least id |
| TokenRepository.DeleteTokenNeedsEmptyString | user/tokenRepository/tokenImpl.go:45-64 | since the plaintext is not stored, DeleteToken deletes exactly when handed the empty string and the user has a token; it deletes the user's first token |
| TokenRepository.TokenRepository.Insert | token/repository/tokenImpl.go:33-38 | stores a fresh token with the next id, or fails on the user foreign key |
| TokenRepository.TokenRepository.New | token/repository/tokenImpl.go:24-31 | a failed random source inserts nothing; otherwise the generated token is inserted, and is returned even when the insert fails |
| TokenRepository.TokenRepository.DeleteAllForUser | token/repository/tokenImpl.go:40-45 | exactly the user's tokens of that scope go; all others stay in order |
| TokenRepository.TokenRepository.DeleteToken | user/tokenRepository/tokenImpl.go:45-64 | deletes the user's first token when the string equals its stored plaintext; otherwise not found or mismatch, with nothing deleted |
| PostUseCase.EditedPost | backend/post/usecase/postUsecaseImpl.go:60-64 | an edit sets name, description, type and skills, bumps the version, and keeps id, author and creation time |
| PostUseCase.PostUseCase.GetPostById | backend/post/usecase/postUsecaseImpl.go:24-30 | the post with the id, or post-not-found exactly when none has it |
| PostUseCase.PostUseCase.CreatePost | backend/post/usecase/postUsecaseImpl.go:32-38 | stores the post exactly when its id is free and its author exists |
| PostUseCase.PostUseCase.DeletePost | backend/post/usecase/postUsecaseImpl.go:40-46 | succeeds exactly for a stored id of at least 1, removing only that post |
| PostUseCase.PostUseCase.UpdatePost | backend/post/usecase/postUsecaseImpl.go:48-71 | an unknown post is not found; another user's post is refused unchanged; the author's post is replaced by its edit and nothing else changes |
| PostUseCase.PostUseCase.GetFilteredPosts | backend/post/usecase/postUsecaseImpl.go:73-79 | the repository's search result |
| PostUseCase.PostUseCase.GetFilteredPostsWithoutCount | post/usecase/postUsecaseImpl.go:72-78 | the older use case's page without metadata |
| UserUseCase.NextProfileImageURL | backend/user/usecase/userUsecaseImpl.go:169-189 | the default photo leads to picture 1; otherwise the numeral after the last '/' is incremented, and a non-numeral is a syntax error; the result is always an image URL of the user |
| UserUseCase.NextImageCountsUp | backend/user/usecase/userUsecaseImpl.go:169-189 | after picture n comes picture n+1 (wrapping at the int64 bound), for any n |
| UserUseCase.EditedUser | backend/user/usecase/userUsecaseImpl.go:118-128 | the edit sets name, surname, username, telegram, discord and skills, replaces the profile image only when one is given, bumps the version, and keeps e-mail, password, activation, id and creation time |
| UserUseCase.KeptEmailIsFree | backend/user/usecase/userUsecaseImpl.go:112-135 | a profile edit that keeps the e-mail never collides on it |
| UserUseCase.PasswordChange | backend/user/usecase/userUsecaseImpl.go:58-89 | a change succeeds exactly when the current password matches, the new one has 8 to 72 bytes, and hashing succeeds; a wrong password and a rejected new password are told apart; success replaces only the hash |
| UserUseCase.PartialUserCannotBeSaved | user/usecase/userUsecaseImpl.go:24-40 | saving the user the older join returns, marked activated, always collides with its owner's row |
| UserUseCase.UserUseCase.Activation | backend/user/usecase/userUsecaseImpl.go:40-56 | no matching activation token is not found, and nothing changes; otherwise the owner with the least id is activated and only that user's activation tokens are deleted |
| UserUseCase.UserUseCase.LegacyActivation | user/usecase/userUsecaseImpl.go:24-40 | the older Activation never activates anyone: with a matching token it fails on a unique constraint and changes nothing |
| UserUseCase.UserUseCase.ChangePassword | backend/user/usecase/userUsecaseImpl.go:58-89 | an unknown user is not found; otherwise the stored row changes exactly as the password change decides, and nothing else changes |
| UserUseCase.UserUseCase.CreateActivationToken | backend/user/usecase/userUsecaseImpl.go:261-267 | a one-hour activation token is stored for an existing user when the random source works |
| UserUseCase.UserUseCase.Registration | backend/user/usecase/userUsecaseImpl.go:99-110 | a conflicting registration stores nothing; otherwise the user is stored, and an activation token follows unless the random source fails |
| UserUseCase.UserUseCase.UpdateUserInfo | backend/user/usecase/userUsecaseImpl.go:112-135 | an unknown user is not found; otherwise the edit is stored exactly when no other user holds the new username |
| UserUseCase.UserUseCase.UploadProfileImage | backend/user/usecase/userUsecaseImpl.go:137-190 | an unknown user is not found, a failed upload is an error, and otherwise the URL is the next picture number after the current one |
| UserUseCase.UserUseCase.ForgotPassword | backend/user/usecase/userUsecaseImpl.go:215-227 | an unknown e-mail is not found and nothing is stored; otherwise a 24-hour password-reset token is appended for the user with that e-mail (up to ASCII case), and its plaintext is returned |
| UserUseCase.UserUseCase.ResetPassword | backend/user/usecase/userUsecaseImpl.go:229-259 | no matching reset token is an invalid token; a hashing failure changes nothing; otherwise only the owner's password hash changes and the owner's reset tokens are deleted |

## Left out

- HTTP handlers, JWT authentication tokens (`createAuthenticationToken`, `Authentication`, `Logout`, `CheckAuth`), the websocket hub, the mailer and its background goroutine: outside the core, and they are I/O.
- Google Cloud Storage: `UploadProfileImage` takes the outcome of opening, connecting and uploading as the `uploaded` parameter, and its three distinct errors are one `UploadFailed`; the object name is not modelled.
- bcrypt, SHA-256 and `crypto/rand`: passed in as `Primitives` and `entropy`. The clock is `now` (an integer), and `time.Add` is modelled without overflow.
- `calculateMetadata` uses float division and `math.Ceil`. `PostSearch.CalculateMetadata` uses integer ceiling division, which agrees for all page sizes and counts that fit a float64 exactly.
- `citext` comparison and the ILIKE patterns are modelled with ASCII case folding only (`Common.LowerChar` lowers A-Z); PostgreSQL also folds non-ASCII letters. ILIKE is modelled as substring search, and the SQL wildcards `%` and `_` inside the user's text are not interpreted.
- PostgreSQL's bigint cast of the author filter is modelled by `Strconv.Atoi`, so its error text is the author string. PostgreSQL also accepts surrounding whitespace (`' 12'` casts to 12) where `Atoi` does not, so for such an author the model reports `InvalidBigint` where the database would return that author's posts.
- Sorting: `sortColumn`/`sortDirection` come from the validator package, which is not part of this model. Sorting is the `sortRows` parameter, which is required to be a permutation.
- The validator package (`backend/internal/validator`, `internal/validator`) is not part of this model. `Validation.Validator` is an append-only list of field errors, so repeated keys are all kept.
- The backend `ValidatePasswordPlaintext` is assumed to be the same rule as in internal/data/users.go.
- internal/data/users.go does not type-check as written. It imports `DiplomaV2/domain/models`, whose `User` (domain/models/users.go:3-11) has only name, surname, username, telegram, discord, e-mail and skills. The file still reads `Password.Plaintext`, `Password.Hash`, `ID`, `CreatedAt`, `Version` and `Activated` (lines 80-141, 232-233). No caller builds this store either, because `NewUserRepository(*sql.DB)` is never called. `SqlUserStore.SqlUserStore.*`, `UserValidation.ValidateUser`, `UserValidation.UserErrors` and the other validators of that file therefore model its evident intent over the fields the code names, those of `Entities.User`. The lost-update protection proved for `SqlUserStore.SqlUserStore.Update` belongs to that intended store, not to code that runs.
- The SQL user store's `GetByID`, `Get` and `GetByEmail` (internal/data/users.go:121-216) would scan into a nil pointer even once the file compiled, so they could never return a user. They are not modelled.
- `internal/post/data/posts.go` `Insert` and `GetAll` are not modelled, and neither are the SQL stores' driver errors and context timeouts.
- Pass-through use cases (`DeleteUser`, `GetUserById`, `GetUserByEmail`, `GetAllUsers`, the older `DeleteToken`, `ResetPassword(email)`, `UpdateUser`) only forward to a modelled repository method, so they have no member of their own.
- PostSearch.Ordered: without a safelisted sort the search query has no ORDER BY, and with one PostgreSQL orders ties of the sort column arbitrarily. The model gives the table one fixed order, and `sortRows` is one fixed function. So `PostSearch.PagesArePrefix` and `PostSearch.PagesCoverRows` assume the database returns the same order to every OFFSET/LIMIT query, which PostgreSQL does not promise.
- SqlPostStore.SqlPostStore.GetByAuthor: `SELECT ... WHERE authorid = $1` has no ORDER BY. The model returns the author's posts in its fixed table order, where the database may return them in any order; only the set of posts returned is promised.
- UserRepository.UserRepository.Insert: the mapping to the duplicate-email error compares the driver's message with lib/pq's text (`pq: duplicate key value ...`). Through GORM's postgres driver, which uses pgx unless told otherwise, the message reads differently, so the raw unique-violation error would pass through instead. The model follows the evident intent and maps the taken e-mail to `DuplicateEmail`.
- Strconv.Atoi: its range error and its syntax error are both reported as `NumberSyntax`, because the callers only test for an error.
- SqlUserStore.SqlUserStore.GetForToken: the query has no ORDER BY, so it may return any matching owner. The model picks one nondeterministically, and its contract states only that the user found owns a matching token.
- TokenRepository.TokenRepository.Insert: only fresh tokens (id 0) are inserted, as every caller does. An explicit token id is not modelled.
- One schema (the `backend/internal/entity` structs) serves every store. The column differences of the older models matter only where a member says so (`PartialUser`, `InsertedColumns`, `TokenUserColumns`).
- Version numbers and the user and post ids are unbounded integers. int64 wrap-around is modelled only for the profile-image counter.
- UserUseCase.UserUseCase.ResetPassword: the validator it fills on an invalid token is local and never read, so only the returned error is modelled.
- Tables.UserConflict: which constraint PostgreSQL reports first when several are violated is not specified. The model fixes the order as primary key, username, e-mail.
- UserValidation.ValidateUser: the source panics when the password hash is missing, so the model requires a hash.

## Findings

| source | as written | input that shows it | evidently intended | confidence | as-written member | corrected member |
|---|---|---|---|---|---|---|
| user/usecase/userUsecaseImpl.go:24-40 with user/repository/usersImpl.go:98-103 | GetForToken selects only name, username, email and skills, so the user has ID 0. Activation sets `Activated` and calls `Save`, which inserts a new row with the owner's username and e-mail | any stored user with an unexpired activation token, activated with that token's plaintext | activate the token's owner in place and delete their activation tokens, as backend/user/usecase/userUsecaseImpl.go:40-56 does | high (proved; not executed) | UserUseCase.UserUseCase.LegacyActivation | UserUseCase.UserUseCase.Activation |
