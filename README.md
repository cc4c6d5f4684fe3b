# Tabs: a verified model of the server's record store and the editor's tab model

The repository is a guitar-tablature editor with two halves:

- **The Go server** keeps users and tabs in one key-value engine (Badger).
  - User records sit under `user_<name>`, tab records under `tab_<uuid>`.
  - Each user also carries an index of the tabs it owns, `User.Tabs`.
  - The login manager layers accounts on the store: bcrypt password hashes, and 30-day JWT session tokens signed with ed25519.
  - The HTTP handlers decode the caller's token and apply one authorisation rule each before calling the store.
- **The TypeScript editor** holds a tab as nested objects: `TabData` → `SectionData` → `MeasureData` → `StringData` → `NoteData`, shaped by a `Config`.
  - A `Selection` cursor moves around in that structure.
  - `save`/`undo`/`load` keep an undo history of up to 20 saves in the browser's `localStorage`.

Each model follows the source's own form:

- The store, the login manager, the editor objects and the cursor are classes whose methods update their fields in place. `modifies` clauses and postconditions state the whole new state.
- Loops in the source are `while` loops with invariants, for example:
  - `CountUsers`, `GetUsers`, `GetPublicTabs`, `RmUser`;
  - the two loops of `RmTabFromUser`;
  - `RandSeq`;
  - the padding loops of `setMeasures`/`setSections`;
  - the candidate scan of `selectStringWithName`.
- Pure code is functions and lemmas: the config, `wrap`, the cursor moves, the JSON mappings, and the save/undo bookkeeping.

Files and modules:

- `wrappers.dfy` (`Wrappers`): Option and Result.
- `crypto.dfy` (`Crypto`): UTF-8 encoding, bcrypt's 72-byte key schedule, and a stand-in for ed25519 that keeps only its verify property.
- `store.dfy` (`RecordStore`): keys, records and the `Store` class.
- `store_invariant.dfy` (`StoreInvariant`): the consistency of the tab index, and its preservation by every write the handlers make.
- `randseq.dfy` (`RandomSequence`): `RandSeq`.
- `login.dfy` (`Login`): tokens and the `LoginManager` class.
- `handlers.dfy` (`Handlers`): the guards and the handlers.
- `config.dfy` (`EditorConfig`), `measure.dfy` (`Measures`), `section.dfy` (`Sections`), `selection.dfy` (`Cursor`), `tabdata.dfy` (`Tabs`): the editor.

## Model

| member | source | states |
|---|---|---|
| RecordStore.Prefix | server/pkg/server/store.go:16-18 | the key is the prefix followed by the name or id, so both can be read back off it |
| RecordStore.DecodeUser | server/pkg/server/store.go:67-78 | bytes that do not decode are an error; a user record gives its user; a tab record gives the zero user, as Go's decoder fills no field |
| RecordStore.DecodeTab | server/pkg/server/store.go:122-136 | bytes that do not decode are an error; a tab record gives its tab; a user record gives the zero tab |
| RecordStore.KeysInTheirNamespace | server/pkg/server/store.go:12-18 | a user key starts with `user_` and not with `tab_`, a tab key the other way round, so the two namespaces never meet |
| RecordStore.KeysInjective | server/pkg/server/store.go:16-18 | different names (ids) give different user (tab) keys |
| RecordStore.UserKeyOfPrefixed | server/pkg/server/store.go:16-18 | every key a `user_` prefix scan visits is the key of the name after the prefix |
| RecordStore.KeyBelowIrreflexive | server/pkg/server/store.go:259-260 | no key comes before itself in the engine's order |
| RecordStore.KeyBelowTransitive | server/pkg/server/store.go:259-260 | the engine's key order is transitive |
| RecordStore.KeyBelowTotal | server/pkg/server/store.go:259-260 | of two different keys one comes first |
| RecordStore.LeastKey | server/pkg/server/store.go:259-260 | every non-empty set of keys has a first key, which is where the iterator goes next |
| RecordStore.AscendingDistinct | server/pkg/server/store.go:259-260 | an iteration in ascending order visits no key twice |
| RecordStore.AscendingUnique | server/pkg/server/store.go:259-260 | two ascending lists of the same keys are equal: a prefix scan's order is fully determined |
| RecordStore.FirstMissing | server/pkg/server/store.go:225-233 | the position of the first listed id whose tab key is absent: every earlier id is present, that one is not |
| RecordStore.IndicesOf | server/pkg/server/store.go:197-202 | exactly the positions holding the id, in increasing order |
| RecordStore.Without | server/pkg/server/store.go:182-216 | the intended removal: an element survives iff it was in the index and is not the id; the result is no longer than the input |
| RecordStore.SpliceEach | server/pkg/server/store.go:204-206 | the splice loop as written succeeds iff the j-th collected index is still inside the list after j earlier splices, and then removes one entry per index |
| RecordStore.CollectIndices | server/pkg/server/store.go:197-202 | the first loop of RmTabFromUser collects exactly `IndicesOf` |
| RecordStore.SpliceAll | server/pkg/server/store.go:204-206 | the second loop splices each collected index in turn, failing exactly where a slice runs past the end (`SpliceEach`) |
| RecordStore.Store.constructor | server/pkg/server/store.go:24-32 | the store opens over what the engine holds |
| RecordStore.Store.CreateUser | server/pkg/server/store.go:55-65 | writes the user at `user_<name>`, overwriting, and changes no other key |
| RecordStore.Store.UpdateUser | server/pkg/server/store.go:110-120 | the same single write as CreateUser |
| RecordStore.Store.GetUser | server/pkg/server/store.go:67-78 | not-found iff the key is absent, a decode error iff the stored bytes do not decode, otherwise the stored user |
| RecordStore.Store.CountUsers | server/pkg/server/store.go:80-92 | the number of keys under `user_`, no more and no less |
| RecordStore.Store.GetUsers | server/pkg/server/store.go:256-278 | fails iff some user record does not decode; otherwise one decoded user per `user_` key, each key visited once, in ascending key order |
| RecordStore.Store.CountAdminUsers | server/pkg/server/store.go:94-108 | fails iff GetUsers fails; otherwise the number of user keys whose record is an administrator |
| RecordStore.Store.GetTab | server/pkg/server/store.go:122-136 | a missing key gives no tab and no error; undecodable bytes give an error; otherwise the stored tab |
| RecordStore.Store.AddTabToUser | server/pkg/server/store.go:155-180 | a missing or undecodable owner is an error with nothing written; otherwise only the owner's record changes, by the id appended at the end of its index |
| RecordStore.Store.CreateTab | server/pkg/server/store.go:138-153 | with no owner nothing is written; otherwise the owner's index gains the id and the tab is stored at `tab_<id>`, and nothing else changes |
| RecordStore.Store.RmTabFromUser | server/pkg/server/store.go:182-216 | as written: the owner's index becomes `SpliceEach` of its stale indices, or, where a slice runs out of range, the write is discarded |
| RecordStore.Store.GetUserTabs | server/pkg/server/store.go:218-243 | an empty index gives an empty list; otherwise a list as long as the index, holding the decoded tabs up to the first missing one and zero tabs after it; it fails iff a tab before that point does not decode |
| RecordStore.Store.RmTab | server/pkg/server/store.go:245-254 | RmTabFromUser's outcome, and on success the tab key deleted too |
| RecordStore.Store.GetTabs | server/pkg/server/store.go:280-302 | fails iff some tab record does not decode; otherwise one decoded tab per `tab_` key, each key visited once, in ascending key order |
| RecordStore.Store.GetPublicTabs | server/pkg/server/store.go:304-330 | exactly the stored public tabs, one per key, in ascending key order, never an error |
| RecordStore.Store.RmUser | server/pkg/server/store.go:332-359 | a missing user is an error with nothing deleted; otherwise exactly the keys of its listed tabs and its own key are deleted |
| RecordStore.Store.SetAdmin | server/pkg/server/store.go:361-385 | a missing user is an error with nothing written; otherwise only that user's admin flag changes |
| RecordStore.Store.SetTab | server/pkg/server/store.go:387-397 | writes the tab at `tab_<id>` and changes no other key |
| StoreInvariant.WellKeyedLookups | server/pkg/server/store.go:55-65 | in a consistent store, the record under a user (tab) key carries that name (id) |
| StoreInvariant.InTabKeysOf | server/pkg/server/store.go:347-357 | RmUser's deleted tab keys are exactly the listed ids' keys and never a user key |
| StoreInvariant.SpliceEachAgreesWhenDistinct | server/pkg/server/store.go:197-206 | on an index listing the id at most once, the two loops never fail and remove exactly its occurrences |
| StoreInvariant.StaleIndicesRemoveTheWrongEntry | server/pkg/server/store.go:204-206 | `["x","x","a"]` minus `"x"` leaves `["x"]`, not `["a"]` |
| StoreInvariant.StaleIndicesPanic | server/pkg/server/store.go:204-206 | `["x","x"]` minus `"x"` runs a slice past the end |
| StoreInvariant.AddFreshUserKeepsValid | server/pkg/server/store.go:55-65 | storing a new user with an empty index keeps the store consistent |
| StoreInvariant.ReplaceUserKeepsValid | server/pkg/server/store.go:361-385 | rewriting a user with the same index keeps the store consistent |
| StoreInvariant.CreateTabKeepsValid | server/pkg/server/store.go:138-180 | CreateTab of a fresh id for a stored owner keeps the store consistent |
| StoreInvariant.SetTabKeepsValid | server/pkg/server/store.go:387-397 | SetTab that keeps the id and owner keeps the store consistent |
| StoreInvariant.RmTabKeepsValid | server/pkg/server/store.go:245-254 | in a consistent store RmTab finds the owner, removes exactly the id from its index and keeps the store consistent |
| StoreInvariant.RmTabKeepsSound | server/pkg/server/store.go:245-254 | after RmTab every listed id still names a stored tab of its lister |
| StoreInvariant.RmTabKeepsComplete | server/pkg/server/store.go:245-254 | after RmTab every stored tab is still listed by its stored owner |
| StoreInvariant.RmUserKeepsValid | server/pkg/server/store.go:332-359 | removing a user with its listed tabs leaves nothing pointing at them: the cascade keeps the store consistent |
| StoreInvariant.AdminKeysAfterPutUser | server/pkg/server/store.go:55-65 | a user write adds or takes out exactly that user as administrator, as its flag says |
| StoreInvariant.AdminKeysAfterPutTab | server/pkg/server/store.go:387-397 | a tab write changes no administrator |
| StoreInvariant.AdminKeysAfterDelete | server/pkg/server/store.go:245-254 | deleting keys takes exactly those out of the administrators |
| StoreInvariant.AdminKeysAfterRmUser | server/pkg/server/store.go:332-359 | RmUser takes out of the administrators the deleted user and nobody else |
| StoreInvariant.AdminKeysAfterReplaceUser | server/pkg/server/store.go:155-216 | rewriting a user with its flag unchanged leaves the administrators as they were |
| StoreInvariant.TabKeyNotAdmin | server/pkg/server/store.go:12-18 | no tab key is an administrator's key |
| Crypto.CharBytes | server/pkg/server/login.go:105 | one to four bytes per character, one exactly for ASCII, and a zero byte only for NUL |
| Crypto.Utf8 | server/pkg/server/login.go:105 | `[]byte(s)`: between one and four bytes per character, with a zero byte iff the text holds a NUL |
| Crypto.AsciiUtf8Length | server/pkg/server/login.go:105 | ASCII text encodes to one byte per character |
| Crypto.Utf8Append | server/pkg/server/login.go:105 | the encoding of two texts joined is the two encodings joined |
| Crypto.BcryptKey | server/pkg/server/login.go:77 | the key bcrypt derives from a password is always 72 bytes |
| Crypto.KeyStartsWithPassword | server/pkg/server/login.go:77 | the key begins with the password's bytes followed by a zero byte |
| Crypto.LongPasswordKeyIsPrefix | server/pkg/server/login.go:77 | a password of 72 bytes or more gives its first 72 bytes as key: bytes past 72 are ignored |
| Crypto.ShortKeyDeterminesPassword | server/pkg/server/login.go:77 | two passwords of at most 72 bytes without a zero byte share a key only when they are equal |
| Crypto.SameKeyIffSameBytes | server/pkg/server/login.go:77 | for texts of at most 72 bytes without a NUL, sharing a key is having the same bytes |
| Crypto.NulRepeatKey | server/pkg/server/login.go:77 | a password, a zero byte and the password again give the same key as the password alone |
| Crypto.NulRepeatSharesKey | server/pkg/server/login.go:77 | so a text and the text doubled around a NUL log in for each other |
| Crypto.Hash | server/pkg/server/login.go:95 | a hash is `$2a$10$`, a 22-character salt and the derived key, so its length is fixed |
| Crypto.CompareHashAndPassword | server/pkg/server/login.go:77 | a hash verifies a password when it is well formed and its key part is the password's key |
| Crypto.HashVerifiesSameKey | server/pkg/server/login.go:77 | a hash verifies exactly the passwords whose key is that of the password it was made from |
| Crypto.GenerateFromPassword | server/pkg/server/login.go:95 | refuses iff the password is over 72 bytes; otherwise the new hash verifies exactly the passwords with the same key |
| Crypto.Sign | server/pkg/server/login.go:140 | a signature records its signer and its message |
| Crypto.Verify | server/pkg/server/login.go:119-121 | a signature verifies under a public key when that key's pair signed this message |
| Crypto.VerifyIffSigned | server/pkg/server/login.go:119-121 | a signature verifies under a key pair exactly when that pair made it over that message |
| RandomSequence.LettersInRange | server/pkg/server/randseq.go:10-15 | the default alphabet has 62 characters, all between `0` and `z`, so ASCII |
| RandomSequence.Alphabet | server/pkg/server/randseq.go:10-15 | no extra parameter gives the 62 letters and digits; one gives that parameter |
| RandomSequence.RandSeq | server/pkg/server/randseq.go:9-25 | more than one extra parameter panics; a positive length with an empty alphabet panics; otherwise `max(n, 0)` characters, each from the alphabet |
| Login.ValidAt | server/pkg/server/login.go:117-124 | the time check of the standard claims: not after exp and not before iat, a zero time being absent |
| Login.ParseToken | server/pkg/server/login.go:117-124 | a token parses iff it is a JWS verifying under our key whose exp and iat admit `now`; the claims are returned unchanged |
| Login.NewTokenUser | server/pkg/server/login.go:131-149 | sub is the name, iat is now, exp is now plus 30 days, and the session comes back unchanged |
| Login.TokenValidForThirtyDays | server/pkg/server/login.go:131-139 | a new token parses exactly from its issue time to 30 days later, carries its user, and never parses under another key pair |
| Login.LoginManager.constructor | server/pkg/server/login.go:46-48 | the manager wraps the given store |
| Login.LoginManager.LogIn | server/pkg/server/login.go:71-85 | succeeds iff the user is stored and the password verifies against its hash; the result is the stored name and flag |
| Login.LoginManager.DecodeToken | server/pkg/server/login.go:117-128 | a token that does not parse is refused without a store read; otherwise the live record of the name in the claims, or the store's error |
| Login.LoginManager.DecodeTokenIgnoresStaleFlag | server/pkg/server/login.go:117-128 | two tokens for the same name decode alike, whatever admin flag each carries |
| Login.LoginManager.FreshTokenDecodes | server/pkg/server/login.go:117-149 | for 30 days a freshly issued token decodes to its user's live record |
| Login.LoginManager.IssuedTokenDecodes | server/pkg/server/login.go:117-149 | a session token decodes to its user's live record at every time of its 30 days, and is refused before and after |
| Login.LoginManager.CreateUser | server/pkg/server/login.go:87-101 | an existing name reports true and writes nothing; a decode error writes nothing; a password over 72 bytes is bcrypt's error and writes nothing; otherwise an absent name is stored with a hash of its password, and nothing else changes |
| Login.LoginManager.CreatedUserLogsIn | server/pkg/server/login.go:71-101 | a user just created logs in exactly with the passwords bcrypt cannot tell from its own; for passwords of at most 72 bytes without a NUL, exactly with its own |
| Login.LoginManager.ChangePassword | server/pkg/server/login.go:103-110 | a password over 72 bytes is bcrypt's error and writes nothing; otherwise only the user's record is rewritten, with a fresh hash, and afterwards LogIn succeeds exactly with the passwords bcrypt cannot tell from the new one |
| Login.LoginManager.SetAdmin | server/pkg/server/login.go:112-114 | the store's SetAdmin |
| Login.NewLoginManager | server/pkg/server/login.go:41-64 | on a store with no user keys, exactly one record is written: administrator `admin` with a 20-character letters-and-digits password, short enough and free of NUL so that it, and only it, logs it in; on any other store nothing is written |
| Handlers.PasswordLongEnough | server/pkg/server/server.go:112-116 | the length check reads Go's `len`, the byte count of the UTF-8 encoding, against 8 |
| Handlers.PasswordLengthInBytes | server/pkg/server/server.go:112-118 | eight or more characters always pass the length check; for ASCII the check is exactly "at least eight characters" |
| Handlers.MayChangeAdmin | server/pkg/server/server.go:148-157 | an administrator, and not on their own name |
| Handlers.MayDeleteUser | server/pkg/server/server.go:189-193 | an administrator, or the user themself |
| Handlers.DeletesLastAdmin | server/pkg/server/server.go:210-214 | the count of administrators is 1 and the target is one |
| Handlers.MayEditTab | server/pkg/server/server.go:493-496 | the caller owns the tab |
| Handlers.MayDeleteTab | server/pkg/server/server.go:363-366 | the caller owns the tab or is an administrator |
| Handlers.MayReadTab | server/pkg/server/server.go:584-596 | the tab is public, or the token decodes to its owner |
| Handlers.LastAdminGuard | server/pkg/server/server.go:189-216 | whenever the last-administrator guard lets a deletion through, another administrator remains |
| Handlers.LoginHandler | server/pkg/server/server.go:57-91 | 200 with a token iff LogIn succeeds, else 401; the token decodes to the user's live record at every time of its 30 days and is refused outside them |
| Handlers.PasswordHandler | server/pkg/server/server.go:93-126 | 401 on a bad token, 400 on a password under eight bytes, 500 on one over 72 bytes, each with nothing written; otherwise only the caller's record changes, and exactly the passwords with the new one's key log in; consistency and administrators are kept |
| Handlers.AdminHandler | server/pkg/server/server.go:128-168 | only an administrator, and never on their own flag, changes exactly the target's flag; consistency is kept and an administrator survives |
| Handlers.DeleteUserHandler | server/pkg/server/server.go:170-225 | 200 iff an administrator or the user themself asks, every user decodes, and the target is not the last administrator; then exactly the user and its tabs go; an administrator always survives and consistency is kept |
| Handlers.GetAllHandler | server/pkg/server/server.go:227-267 | an administrator receives every user, once each in ascending key order, with the hash blanked; anyone else 401 |
| Handlers.RegisterHandler | server/pkg/server/server.go:269-327 | only an administrator registers, under a non-empty new name; an existing name is refused, and a password over 72 bytes is a 500, both with nothing written; the new user has no tabs and its hash verifies the given password |
| Handlers.RmStoredTab | server/pkg/server/server.go:368-373 | in a consistent store RmTab of a found tab never overruns its owner's index, and leaves the store consistent with the same administrators |
| Handlers.DeleteTabHandler | server/pkg/server/server.go:330-377 | a write happens only for the owner or an administrator; it panics iff the id is unknown or the removal loop overruns the owner's index, and in a consistent store only for an unknown id; a bad token still reaches the store as the zero user but, in a consistent store without a user named "", writes nothing |
| Handlers.NewTabHandler | server/pkg/server/server.go:379-416 | the new tab is the caller's, private and empty, and is indexed under the caller; a bad token writes nothing |
| Handlers.EditTab | server/pkg/server/server.go:461-557 | the look-up both edit handlers share: 400 on a bad id or record, a panic on an unknown one, 401 for anyone but the owner, else exactly the one tab rewritten |
| Handlers.PutTabHandler | server/pkg/server/server.go:461-508 | only the owner changes a tab, and only its contents |
| Handlers.PublicTabHandler | server/pkg/server/server.go:510-557 | only the owner changes a tab, and only its public flag |
| Handlers.GetTabHandler | server/pkg/server/server.go:560-602 | a tab is returned iff it exists and is public or the token's live user owns it; an unknown id panics |
| Handlers.PrivateTabsStayPrivate | server/pkg/server/server.go:584-598 | not even an administrator reads another user's private tab |
| Handlers.AllForUserHandler | server/pkg/server/server.go:418-446 | 401 on a bad token; 200 iff no tab before the first missing one fails to decode, else 500 with nothing; on 200 one entry per id of the caller's live index, the decoded tab up to the first missing id and zero tabs after; in a consistent store always 200, every entry the caller's tab of that id |
| Handlers.IndexedTabsStored | server/pkg/server/store.go:225-233 | in a consistent store every id a user lists names a stored tab of that id owned by the user, so the look-up never stops early |
| Handlers.AllPublicHandler | server/pkg/server/server.go:448-459 | always 200, with exactly the stored public tabs, one per key in ascending key order |
| EditorConfig.NewConfig | src/typescript/Config.ts:9-15 | each positional argument lands in the field of its name, whatever the declaration order |
| EditorConfig.Default | src/typescript/Config.ts:27-35 | 1 section, 4 measures, 6 strings, 4 notes, standard tuning; as many string names as strings |
| EditorConfig.ToJson | src/typescript/Config.ts:17-25 | every field is carried over under its own name |
| EditorConfig.FromJson | src/typescript/Config.ts:37-45 | whatever it reads, toJSON writes back |
| EditorConfig.JsonRoundTrip | src/typescript/Config.ts:17-45 | fromJSON after toJSON is the identity, and the other way round |
| Measures.FretValue | src/typescript/MeasureData.ts:28-35 | JavaScript arithmetic reads a null fret as 0 |
| Measures.Incremented | src/typescript/MeasureData.ts:27-32 | from -1 to 18 one up, 19 and above wrap to 0; modulo 20 on [-1, 19] |
| Measures.Decremented | src/typescript/MeasureData.ts:34-39 | from 1 to 20 one down, 0 and below wrap to 19; modulo 20 on [0, 20] |
| Measures.FretStepsInverse | src/typescript/MeasureData.ts:27-39 | on frets 0 to 19, increment and decrement undo each other |
| Measures.Typed | src/typescript/MeasureData.ts:41-47 | relative to the capo, a digit after a 1 gives 10 plus the digit, else the digit |
| Measures.TwoDigitEntry | src/typescript/MeasureData.ts:41-47 | typing two digits from a fret not at capo + 1 gives the two-digit number when the first digit is 1, else the second digit |
| Measures.NoteData.constructor | src/typescript/MeasureData.ts:7-9 | the note holds the given fret |
| Measures.NoteData.ToJson | src/typescript/MeasureData.ts:17-21 | the JSON carries the fret |
| Measures.NoteData.FromJson | src/typescript/MeasureData.ts:11-15 | a new note whose JSON is what was read |
| Measures.NoteData.Default | src/typescript/MeasureData.ts:23-25 | a new note with no fret |
| Measures.NoteData.Increment | src/typescript/MeasureData.ts:27-32 | the fret becomes `Incremented` of the old one |
| Measures.NoteData.Decrement | src/typescript/MeasureData.ts:34-39 | the fret becomes `Decremented` of the old one |
| Measures.NoteData.AddNumber | src/typescript/MeasureData.ts:41-47 | the fret becomes `Typed` of the old one |
| Measures.NoteData.SetNull | src/typescript/MeasureData.ts:49-51 | the fret is cleared |
| Measures.NoteData.Clone | src/typescript/MeasureData.ts:53-55 | a new note with the same fret |
| Measures.NotesJson | src/typescript/MeasureData.ts:71-75 | the JSON of each note, in order |
| Measures.Nulls | src/typescript/MeasureData.ts:77-79 | `max(k, 0)` empty notes |
| Measures.ResizeNotes | src/typescript/MeasureData.ts:128-132 | exactly k notes: the old ones up to k, then empty ones |
| Measures.ResizeNotesIdempotent | src/typescript/MeasureData.ts:128-132 | resizing twice to the same length changes nothing more |
| Measures.StringData.constructor | src/typescript/MeasureData.ts:61-63 | the string holds the given notes |
| Measures.StringData.FromJson | src/typescript/MeasureData.ts:65-69 | a new string of new, distinct notes whose JSON is what was read |
| Measures.StringData.Default | src/typescript/MeasureData.ts:77-79 | a new string of `max(n, 0)` new empty notes |
| Measures.StringData.Clone | src/typescript/MeasureData.ts:81-83 | a new string of new notes with the same JSON |
| Measures.StringData.Resize | src/typescript/MeasureData.ts:128-132 | the notes become `ResizeNotes` of the old ones, the kept ones the same objects |
| Measures.StringData.ToJson | src/typescript/MeasureData.ts:71-75 | one note JSON per note (in order, through `NotesJson`) |
| Measures.StringsJson | src/typescript/MeasureData.ts:107-112 | the JSON of each string, in order |
| Measures.DefaultMeasureJson | src/typescript/MeasureData.ts:114-120 | `startStrings` strings of `startNotesPerMeasure` empty notes, and that many beats |
| Measures.ResizedMeasure | src/typescript/MeasureData.ts:122-137 | beats become `max(k, 1)`, every string has that many notes, the old ones kept up to there and the added ones empty |
| Measures.CloneStrings | src/typescript/MeasureData.ts:104 | new strings of new notes, each with the JSON of its original |
| Measures.ResizeStrings | src/typescript/MeasureData.ts:127-133 | every string of the measure is resized in place |
| Measures.MeasureData.ToJson | src/typescript/MeasureData.ts:107-112 | the beats carried over, and one string JSON per string (in order, through `StringsJson`) |
| Measures.MeasureData.constructor | src/typescript/MeasureData.ts:91-94 | the measure holds the given strings and beats |
| Measures.MeasureData.FromJson | src/typescript/MeasureData.ts:96-101 | a new measure of new objects whose JSON is what was read |
| Measures.MeasureData.Default | src/typescript/MeasureData.ts:114-120 | a new measure whose JSON is `DefaultMeasureJson` |
| Measures.MeasureData.Clone | src/typescript/MeasureData.ts:103-105 | a new measure, all of whose strings and notes are new, with the same JSON: editing it cannot touch the original |
| Measures.MeasureData.SetBeats | src/typescript/MeasureData.ts:122-137 | the measure's JSON becomes `ResizedMeasure` of the old one, its strings the same objects |
| Sections.MeasuresJson | src/typescript/SectionData.ts:24-30 | the JSON of each measure, in order |
| Sections.DefaultSectionJson | src/typescript/SectionData.ts:32-45 | `startMeasures` default measures, the config's string names and an empty name |
| Sections.SpliceStart | src/typescript/SectionData.ts:94-96 | where `splice` starts: a negative index counts from the end, and the start is clamped to the array |
| Sections.LowerChar | src/typescript/SectionData.ts:78 | ASCII upper case goes to lower case, anything else stays |
| Sections.Lower | src/typescript/SectionData.ts:78 | every character lowered, the length kept |
| Sections.FirstMatch | src/typescript/SectionData.ts:73-91 | the first name matching in the given way, or none when no name does |
| Sections.StringChoice | src/typescript/SectionData.ts:70-92 | a chosen index is a string of the section |
| Sections.ExactMatchesEveryWay | src/typescript/SectionData.ts:70-92 | an exact match is also a case-insensitive and a prefix match; nothing is chosen iff no name matches case-insensitively or by prefix |
| Sections.FirstAtIsFirstMatch | src/typescript/SectionData.ts:73-91 | the first index the scan finds is `FirstMatch`; a scan that finds none agrees too |
| Sections.FirstMatchFound | src/typescript/SectionData.ts:75-77 | an exact match with no exact match before it is chosen |
| Sections.SectionData.ToJson | src/typescript/SectionData.ts:24-30 | the string names and name carried over, and one measure JSON per measure (in order, through `MeasuresJson`) |
| Sections.SectionData.constructor | src/typescript/SectionData.ts:10-14 | the section holds the given measures, names and name |
| Sections.SectionData.FromJson | src/typescript/SectionData.ts:16-22 | a new section of new measures whose JSON is what was read |
| Sections.SectionData.AddMeasure | src/typescript/SectionData.ts:51-56 | throws iff the measure's string count differs from the section's, then with nothing changed; otherwise appended at the end; uniform string counts are kept |
| Sections.SectionData.AddDefaultMeasure | src/typescript/SectionData.ts:47-49 | a new default measure appended, or a throw with nothing changed when it does not fit |
| Sections.SectionData.PadWithDefaults | src/typescript/SectionData.ts:65-67 | appends new default measures up to k, or throws with nothing changed; the old measures are kept |
| Sections.SectionData.SetMeasures | src/typescript/SectionData.ts:58-68 | exactly `max(k, 1)` measures: the old ones up to there, then new default ones; or a throw with nothing changed |
| Sections.SectionData.SelectStringWithName | src/typescript/SectionData.ts:70-92 | the selected string becomes the first exact match, else the first case-insensitive match, else the first prefix match, else stays; no other cursor field changes |
| Sections.SectionData.DeleteMeasure | src/typescript/SectionData.ts:94-96 | removes exactly the measure at the splice start and keeps the rest in order; for an index in range, exactly that measure |
| Sections.SectionData.Default | src/typescript/SectionData.ts:32-45 | a new section whose JSON is `DefaultSectionJson`, or a throw exactly when the default measure does not fit its names |
| Cursor.Wrap | src/typescript/Selection.ts:5-13 | one step past either end comes back at the other: on [-1, m] it is `v mod m`, and in range it is the identity |
| Cursor.WrapSaturates | src/typescript/Selection.ts:5-13 | further out it saturates instead of reducing: `wrap(25, 20)` is 0, not 5 |
| Cursor.PrevIndex | src/typescript/Selection.ts:33-38 | one back, modulo the section count |
| Cursor.NextIndex | src/typescript/Selection.ts:48-53 | one on, modulo the section count |
| Cursor.IndexStepsInverse | src/typescript/Selection.ts:33-53 | prevSection and nextSection undo each other |
| Cursor.PrevMeasureOf | src/typescript/Selection.ts:40-46 | one measure back, or from measure 0 the last measure of the previous section (wrapping) |
| Cursor.NextMeasureOf | src/typescript/Selection.ts:55-61 | one measure on, or from the last measure measure 0 of the next section (wrapping) |
| Cursor.Moved | src/typescript/Selection.ts:63-90 | up and down wrap the string over the measure's strings; left and right step the beat, crossing into the neighbouring measure at its last beat or beat 0 |
| Cursor.MeasureStepsStayInTab | src/typescript/Selection.ts:40-61 | in a well-formed tab both measure steps land on a measure that exists |
| Cursor.MeasureStepsInverse | src/typescript/Selection.ts:40-61 | nextMeasure and prevMeasure undo each other, across section boundaries too |
| Cursor.MoveKeepsInRange | src/typescript/Selection.ts:63-90 | in a well-formed tab every move from a valid position is defined and lands on a valid position |
| Cursor.MovesInverse | src/typescript/Selection.ts:63-90 | up and down undo each other, and so do left and right |
| Cursor.Selection.constructor | src/typescript/Selection.ts:16-23 | a new cursor is at 0, 0, 0, 0 |
| Cursor.Selection.Reset | src/typescript/Selection.ts:92-97 | all four indices become 0 |
| Cursor.Selection.FirstMeasure | src/typescript/Selection.ts:25-27 | only the measure changes, to 0 |
| Cursor.Selection.LastMeasure | src/typescript/Selection.ts:29-31 | only the measure changes, to the last of the current section |
| Cursor.Selection.PrevSection | src/typescript/Selection.ts:33-38 | only the section changes, by `PrevIndex` |
| Cursor.Selection.NextSection | src/typescript/Selection.ts:48-53 | only the section changes, by `NextIndex` |
| Cursor.Selection.PrevMeasure | src/typescript/Selection.ts:40-46 | one measure back, or the last measure of the previous section |
| Cursor.Selection.NextMeasure | src/typescript/Selection.ts:55-61 | one measure on, or measure 0 of the next section |
| Cursor.Selection.Move | src/typescript/Selection.ts:63-90 | the cursor moves as `Moved` says: up and down change only the string, wrapping over the measure's strings; left and right step the beat and cross into the neighbouring measure at its last beat or beat 0 |
| Tabs.SectionsJson | src/typescript/TabData.ts:65-73 | the JSON of each section, in order |
| Tabs.MeasureShapes | src/typescript/Selection.ts:29-90 | each measure's string count and beats, in order |
| Tabs.SectionsLayout | src/typescript/Selection.ts:29-90 | per section, the shapes of its measures |
| Tabs.JsonLayout | src/typescript/TabData.ts:65-73 | the shape a tab's JSON gives: one entry per section and per measure |
| Tabs.DefaultTabJson | src/typescript/TabData.ts:53-63 | the given id, "New Tab", capo 0, the default config and `startSections` default sections |
| Tabs.DefaultTabIsWellFormed | src/typescript/TabData.ts:53-63 | the default tab is one the cursor moves freely in, and the reset cursor is valid in it |
| Tabs.TabData.ToJson | src/typescript/TabData.ts:65-73 | the id, name, capo and config carried over, and one section JSON per section (in order, through `SectionsJson`) |
| Tabs.TabData.constructor | src/typescript/TabData.ts:23-29 | the tab holds the given fields |
| Tabs.SectionsFromJson | src/typescript/TabData.ts:78 | new sections, one per JSON entry, whose JSON is that entry |
| Tabs.TabData.FromJson | src/typescript/TabData.ts:75-83 | a new tab of new sections whose JSON is what was read |
| Tabs.TabData.Default | src/typescript/TabData.ts:53-63 | a new tab whose JSON is `DefaultTabJson(id)` and whose config is the default |
| Tabs.TabData.SetCapo | src/typescript/TabData.ts:31-33 | only the capo changes |
| Tabs.TabData.PadWithDefaults | src/typescript/TabData.ts:48-50 | appends new default sections up to k, or throws with nothing changed; the old sections are kept |
| Tabs.TabData.SetSections | src/typescript/TabData.ts:35-51 | k at most 0 counts as 1; a declined shrink changes nothing; otherwise exactly k sections, the old ones up to there, then new default ones |
| Tabs.TabData.Save | src/typescript/TabData.ts:102-137 | storage and result are `SaveOutcome` of the old storage and this tab's JSON |
| Tabs.TabData.Undo | src/typescript/TabData.ts:149-173 | storage becomes `UndoOutcome`; the tab returned is the one loaded from slot currentSave - 1, or this one |
| Tabs.TabData.Load | src/typescript/TabData.ts:175-207 | a new tab whose JSON is `LoadSlot`, or none when that finds nothing |
| Tabs.TabData.LoadOrDefault | src/typescript/TabData.ts:139-147 | the loaded tab, or the default tab when there is none |
| Tabs.LayoutMatchesJson | src/typescript/TabData.ts:65-73 | the shape the cursor reads from the objects is the shape of the tab's JSON |
| Tabs.SaveOutcome | src/typescript/TabData.ts:102-137 | as written: unsaved iff slot currentSave - 1 holds the same JSON, and then nothing changes; otherwise the JSON goes to slot `wrap(currentSave, 20)`, currentSave equals numSaves, and other tabs' counters are untouched |
| Tabs.SaveDiscardsRedo | src/typescript/TabData.ts:128-132 | after a save following the previous one, both counters are the old currentSave plus one: the redo history is gone |
| Tabs.SaveStaysInRing | src/typescript/TabData.ts:127 | save only writes slots 0 to 19 |
| Tabs.SaveCountCapped | src/typescript/TabData.ts:118-132 | as written the count never passes 21 |
| Tabs.LoadSlot | src/typescript/TabData.ts:175-202 | an explicit slot is read as is; with none, no counters or currentSave 0 give nothing, otherwise slot `wrap(currentSave - 1, 20)` |
| Tabs.LoadAfterSave | src/typescript/TabData.ts:102-202 | for the first twenty saves, load finds what save stored |
| Tabs.UndoOutcome | src/typescript/TabData.ts:149-172 | refused iff there are no counters for the tab, `currentSave - 2 <= 0` or `currentSave - 2 < numSaves - 20`; otherwise currentSave goes back by exactly one and nothing else changes |
| Tabs.UndoStaysInWindow | src/typescript/TabData.ts:164-172 | the slot undo loads is never slot 0 and lies within the last 20 saves |
| Tabs.HistoryResetsAfterTwentyOneSaves | src/typescript/TabData.ts:118-132 | after 21 saves, saving the same tab again is not seen as unchanged, the count restarts at 1 and undo is refused |
| Tabs.RingSlot | src/typescript/TabData.ts:127 | a slot of the ring of 20, the counter itself while it is below 20 |
| Tabs.RingSaveOutcome | src/typescript/TabData.ts:102-137 | corrected save: after a save, currentSave equals numSaves |
| Tabs.RingLoadSlot | src/typescript/TabData.ts:175-202 | corrected load: something is found only in the ring slot of currentSave - 1 |
| Tabs.RingLoadAfterSave | src/typescript/TabData.ts:102-202 | with the ring, load finds what save stored, however many saves came before |
| Tabs.RingSaveUnchanged | src/typescript/TabData.ts:118-124 | with the ring, saving an unchanged tab a second time writes nothing |
| Tabs.RingCountGrows | src/typescript/TabData.ts:128-132 | with the ring, each save after the latest adds one to the count, without bound |

## Left out

- The Badger engine is a map, and each `db.Update`/`db.View` callback is one atomic step. Concurrent transactions, their conflicts and the lost-update race between the two transactions of `CreateTab` and `RmTab` are not modelled. Neither are I/O errors, `Close` and the engine's files.
- JSON encoding of records is not modelled as bytes.
  - A stored value is a user record, a tab record, or bytes that do not decode.
  - Decoding a record of the other kind yields the zero value, as Go's decoder does.
  - Encoding errors cannot happen in the model.
- On the editor side, `JSON.stringify`/`JSON.parse` are the `...Json` datatypes. Equality of serialisations is equality of those values, which assumes `JSON.stringify` is injective on them.
- ed25519 and the JWT library are stand-ins that keep only the verify properties the code relies on. Key generation in the package `init` is a parameter, and so is the clock. `RandSeq`'s `math/rand` draws are a free choice of index, and the seeding is not modelled.
- bcrypt is modelled by its key schedule and nothing more:
  - The key is the 72 bytes of the password's UTF-8 bytes followed by a zero byte, repeated (`Crypto.BcryptKey`). So bytes past 72 are ignored, and a password verifies the hashes of every password with the same key.
  - A hash is `$2a$10$`, the salt and the key written out. The Blowfish rounds and the cost factor are not modelled. Two different keys never give the same hash in the model, which real bcrypt only makes overwhelmingly unlikely.
  - The salt is a free parameter standing for the random salt.
  - `GenerateFromPassword` refuses passwords over 72 bytes, as golang.org/x/crypto/bcrypt does since it added `ErrPasswordTooLong`. The repository pins no version; older versions hash the first 72 bytes instead.
- Login.NewLoginManager: a `CountUsers` error cannot happen in the model, because counting keys never fails there. The `log.Printf` of the generated password is returned instead.
- Every `log.Printf` and `console.log` call is not modelled.
- HTTP plumbing is not modelled: routing, CORS, body decoding, status writing, `ListenAndServe` and `dbLocation`. A handler's outcome is the first status it writes, or `Panicked` when it panics. That happens when it dereferences the nil tab of an unknown id, or when DELETE /tab reaches RmTab and its removal loop slices past the end of the owner's index. The store's `IndexOutOfRange` error stands for that slice panic; no real error value of the store carries it.
- The engine's key order is byte-wise lexicographic. Keys here are UTF-8 text, whose byte order is the order of code points, so the model compares keys character by character (`RecordStore.KeyBelow`). A `string` is a sequence of code points in the model; surrogate halves and invalid UTF-8 are not modelled.
- Several store functions are written `return res, s.db.View(...)`. Go leaves the order of evaluation of `res` and the call unspecified. The model takes the order the gc compiler uses, where `res` is read after the callback has filled it (store.go:69, 82, 124, 225, 258, 282, 306).
- Handlers.NewTabHandler: `uuid.New()` is the parameter `newId`. The model assumes it is fresh, `TabKey(newId) !in db`, only where it proves the store stays consistent; a colliding UUID would overwrite a stored tab.
- Handlers.EditTab: `SetTab`'s write error, which the model's store never raises, is not modelled.
- `server/services/ainulindale/main.go` is only the process entry point and is not part of this model.
- `src/typescript/User.ts` (a Svelte store mirrored to localStorage) and `tailwind.config.cjs` are not part of this model.
- `Range.ts`, `Server.ts` and `Error.ts` are not part of this model. `range(n)` is read as n items for positive n and none otherwise.
- `TabData.saveToServer` (a `fetch`) and `report_fetch_error` are network calls and are not modelled.
- `window.confirm` in `setSections` is the boolean parameter `confirmed`.
- A JavaScript throw is a returned `thrown` flag, or `None` from a static constructor. The model states that nothing changes then. The source leaves a partly padded array when a later `addDefaultMeasure` throws; in the model the pad loops check the fit once, which is equivalent because every default measure has the same shape.
- Sections.LowerChar: `toLowerCase` is modelled on ASCII letters only. Unicode case mappings, which can change a string's length, are not modelled, and `startsWith` compares characters, not UTF-16 code units.
- The cursor methods take the tab's shape (`TabData.Layout()`, proved equal to the shape of its JSON by `Tabs.LayoutMatchesJson`) instead of the tab.
- Cursor.Selection.LastMeasure, Cursor.Selection.NextMeasure, Cursor.Selection.PrevMeasure and Cursor.Selection.Move require the section and measure they read to exist. In the source an out-of-range index reads `undefined` and the call throws a TypeError; the model leaves that crash out.
- Measures.NoteData.Increment: JavaScript numbers are doubles; the model uses unbounded integers, which agree with them for every fret the editor produces.
- The `save_info` and `save_<id>_<n>` key strings of localStorage are the two maps of `Tabs.Storage`. Corrupted or hand-edited localStorage contents are not modelled.

## Findings

| source | as written | input that shows it | evidently intended | confidence | as-written member | corrected member |
|---|---|---|---|---|---|---|
| server/pkg/server/store.go:197-206 | RmTabFromUser collects every index of the id first, then splices them out one by one; after the first splice the later indices are stale | an index `["x","x","a"]` minus `"x"` leaves `["x"]` (the `"a"` goes); `["x","x"]` minus `"x"` panics on `tabs[2:]` of a one-element slice | remove every occurrence of the id and keep the other entries in order | not executed | StoreInvariant.StaleIndicesRemoveTheWrongEntry | StoreInvariant.SpliceEachAgreesWhenDistinct |
| src/typescript/TabData.ts:118-127 | save looks for the previous save in slot `currentSave - 1` unwrapped, but writes the new save to slot `wrap(currentSave, 20)` | 20 saves (counters 20/20, slot 19 holds an older tab); a 21st save goes to slot 0 with counters 21/21; saving the same tab again looks for slot 20, never written, so it saves again, restarts the count at 1 and undo is refused | both look-up and write use the ring slot, so an unchanged tab is never saved twice and the history keeps growing | not executed | Tabs.HistoryResetsAfterTwentyOneSaves | Tabs.RingLoadAfterSave |
