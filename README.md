# Rusty library management: a Dafny model of the back end

This project models the Rust back end of a desktop library-management application.
The back end keeps an in-memory cache of employee and media records that are fetched
from a remote store. It indexes their lower-cased names in one prefix trie per table
and serves the front end's commands.

The model covers:

- **the prefix trie** (`Tries`). `TreeNode`s are value nodes, and `Trie` is a class
  whose root `insert` replaces. `Has` gives the meaning: the set of stored words.
  `insert`, `traverse`, `collect_words`, `starts_with` and `search` are imperative
  methods. `insert` and `traverse` are proved against the functions `InsertAt` and
  `Reach`. `collect_words`, `starts_with` and `search` are proved against the
  predicates `Lists` and `PrefixListing`, which say that each listed word is stored
  and listed once. `search` is modelled with its quirk: an exact match is listed twice.
- **the records and enums** (`Structs`, `Enums`, `LegacyTypes`):
  - `Employee::new` with its byte-length password rule and the hashed password;
  - `Media::new` and the `Media` setters;
  - the ordinal order of `PermissionLevel` and the display names of the enums;
  - the older snapshot of the records, which stores the password in plain text.
- **the cache helpers** (`Loading`): `vec_to_hashmap`, `hashmap_to_vec` and
  `hashmap_to_trie`.
- **the `App` state** (`AppState`): the two caches keyed by id, the trie per table, and
  the signed-in user. Its operations are `update_data`, `refresh_all_data`,
  `authenticate_employee`, `get_permission_level`, `get_current_user`, `search_by_id`
  and `rent_media`. `App.Valid()` is the invariant they keep: each record sits under
  its own id, and each built trie stores exactly the lower-cased names of its table.
- **the Tauri commands** (`Commands`): `authenticate`, `get_media`, `search_media`,
  `get_rank` and `media_checkout`.

Collaborators outside the model become parameters:

- a lock is a `LockResult` (acquired or poisoned);
- password verification is a `Verifier` function;
- the result of hashing is a `Result` value;
- rows fetched from the remote store are sequences;
- the remote store's answer to an update is a function;
- the iteration order of a `HashMap` is either an explicit key order (`IsKeyOrder`) or
  a free choice inside a loop.

Where the system's documented behaviour and its code differ, the model follows the
code:

- `search_by_id` does not lower-case the query (src-tauri/src/app.rs:81-84). A query
  with an upper-case letter therefore never matches, because the trie holds only
  lower-cased names (`AppState.App.SearchById`, `Commands.SearchMedia`).
- The duplicate check of `search_media` compares a kept record's name as stored with
  the candidate's lower-cased name (src-tauri/src/main.rs:65-66). Records whose names
  differ only in case, none of them written in lower case, are all kept
  (`Commands.CaseVariantsBothKept`).
- `search_media` joins trie hits back to records by name, not by id. A record is left
  out only when a record kept before it has, as stored, exactly the candidate's
  lower-cased name. So two records named "Dune" are both kept. Of "dune" and "Dune",
  "Dune" is left out only when "dune" comes first in the map's order
  (`Commands.LowerCaseNameHidesOnlyLater`).
- `authenticate_employee` answers `Ok(false)` when the password verifier fails, because
  `.ok()` drops the error (src-tauri/src/app.rs:64). Only a poisoned lock is an error
  (`AppState.App.AuthenticateEmployee`).
- `rent_media` never updates the local cache, even after the remote store accepted
  the new renter (src-tauri/src/app.rs:108-119). The cached record keeps its old
  renter until the next refresh (`AppState.App.RentMedia` has no `modifies` clause).
- `media_checkout` never rents anything. The `rent_media` futures it creates are
  dropped without being awaited (src-tauri/src/main.rs:114-116), and it always reports
  success once the cart parses and the lock is taken (`Commands.MediaCheckout`).

## Model

| member | source | states |
|---|---|---|
| Tries.EmptyHasNothing | src-tauri/src/types.rs:270-285 | a new, empty trie stores no word |
| Tries.Trie.constructor | src-tauri/src/types.rs:283-285 | `Trie::new` holds the empty root and stores no word |
| Tries.Trie.Insert | src-tauri/src/types.rs:287-293 | after `insert(w)` the stored words are the old ones plus `w`, and the trie stays pruned (every node below the root ends a word or has a child) |
| Tries.InsertHas | src-tauri/src/types.rs:287-293 | `v` is stored after inserting `w` iff it was stored before or `v == w` |
| Tries.InsertIdempotent | src-tauri/src/types.rs:287-293 | inserting the same word twice leaves the same trie as inserting it once |
| Tries.InsertCommutes | src-tauri/src/types.rs:287-293 | the order of two insertions does not change the trie, so the unspecified order of `hashmap_to_trie` does not matter |
| Tries.InsertPruned | src-tauri/src/types.rs:287-293 | insertion creates nodes only on the word's path: every node stays live |
| Tries.Trie.Traverse | src-tauri/src/types.rs:320-333 | `traverse(p)` is the node reached along `p`, or None at the first missing child; the words below it are the stored words after `p` |
| Tries.ReachHas | src-tauri/src/types.rs:320-333 | `t` is stored below the node reached by `p` iff `p + t` is stored |
| Tries.ReachNoneHasNothing | src-tauri/src/types.rs:320-333 | when `traverse(p)` fails, no stored word begins with `p` |
| Tries.ReachIffStored | src-tauri/src/types.rs:309-333 | for a non-empty `p` in a pruned trie, `traverse(p)` fails iff no stored word begins with `p` |
| Tries.Trie.CollectWords | src-tauri/src/types.rs:335-344 | `collect_words` keeps what `result` held and appends, each once, every word stored below the node, spelled as the current word plus its path |
| Tries.ListsAtReach | src-tauri/src/types.rs:309-318 | what `collect_words` lists from the reached node is exactly the stored words that begin with the prefix |
| Tries.Trie.StartsWith | src-tauri/src/types.rs:309-318 | None iff no stored word begins with a non-empty prefix; `starts_with("")` is Some; Some lists exactly the stored words with the prefix, each once |
| Tries.Trie.Search | src-tauri/src/types.rs:295-307 | None in the same cases as `starts_with`; when the word is stored it comes first and appears twice, and the rest lists the words with that prefix; otherwise the same listing as `starts_with` |
| Tries.HelloWorld | src-tauri/src/types.rs:466-475 | with "hello" and "world" stored: `starts_with("he") == ["hello"]`, `starts_with("wo") == ["world"]`, `starts_with("foo")` is None |
| Tries.EmptyTrie | src-tauri/src/types.rs:477-482 | on an empty trie `search("hello")` and `starts_with("he")` are both None |
| Enums.ToOrdinal | src-tauri/src/types.rs:386-397 | ordinals lie in 0..5, and only `None` has ordinal 0 |
| Enums.PartialCmp | src-tauri/src/types.rs:380-384 | the comparison is always defined, and is `Less` / `Greater` exactly when the ordinals are |
| Enums.Eq | src-tauri/src/types.rs:374-378 | `eq` on permission levels holds exactly when the two levels are the same |
| Enums.Below | src-tauri/src/types.rs:380-384 | the `<` derived from `partial_cmp` holds exactly when the first level's ordinal is smaller |
| Enums.EqIsIdentity | src-tauri/src/types.rs:374-378 | two levels are equal by `eq` iff they are the same level, iff `partial_cmp` says `Equal` |
| Enums.PermissionOrder | src-tauri/src/types.rs:374-397 | None < Basic < User < Manager < Admin < Dev, and the order is total, asymmetric and transitive |
| Enums.LevelName | src-tauri/src/types.rs:399-410 | every permission level displays as a non-empty name |
| Enums.LevelNameInjective | src-tauri/src/types.rs:399-410 | distinct permission levels display differently |
| Enums.MediaTypeName | src-tauri/src/types.rs:412-422 | every media type displays as a non-empty name |
| Enums.MediaTypeNameInjective | src-tauri/src/types.rs:412-422 | distinct media types display differently |
| Text.ToLower | src-tauri/src/utils.rs:43 | lower-casing keeps the length and maps each character on its own, upper-case ASCII letters to their lower-case letters |
| Text.ToLowerIsLower | src-tauri/src/utils.rs:43 | a lower-cased name has no upper-case letter, and lower-casing it again changes nothing |
| Text.LowerPrefixHasNoUpper | src-tauri/src/app.rs:81-84 | a prefix of a lower-cased name has no upper-case letter |
| Text.Utf8Len | src-tauri/src/types.rs:141 | the byte length of a string lies between its character count and four times it |
| Text.AsciiUtf8Len | src-tauri/src/types.rs:141 | the byte length equals the character count iff the string is ASCII |
| Structs.NewEmployee | src-tauri/src/types.rs:130-157 | fails iff the password is shorter than 8 bytes or hashing fails, with the matching message; on success every field is stored as given and the password field holds the digest |
| Security.SoundDigest | src-tauri/src/utils.rs:105-127 | the two hashing tests as a property of a digest: it verifies against the plaintext and not against the plaintext without its last character, so the verifier tells the two apart |
| Structs.EmployeeDisplayInfo | src-tauri/src/types.rs:45-51 | `get_id` and `get_name` (`Structs.EmployeeId`, `Structs.EmployeeName`) of a created employee give back the id and name it was created with |
| Structs.MediaDisplayInfo | src-tauri/src/types.rs:90-96 | `get_id` and `get_name` (`Structs.MediaId`, `Structs.MediaName`) of a new media record give back its id and name; only `set_id` changes the id and only `set_name` the name |
| AppState.TableName | src-tauri/src/types.rs:52-54 | `get_table_name` is "Employee" exactly for employees and "Media" exactly for media (src-tauri/src/types.rs:97-99), so the two kinds never share a trie entry |
| Structs.CreatedEmployeeVerifies | src-tauri/src/utils.rs:105-127 | a created employee's password verifies against the plaintext and not against the plaintext without its last character |
| Structs.CreateEmployeeTests | src-tauri/src/types.rs:434-464 | "password" is accepted and "pass" is refused with the length message |
| Structs.MultibytePasswordAccepted | src-tauri/src/types.rs:141-143 | the rule counts bytes: a four-character password of two-byte characters is accepted |
| Structs.NewMedia | src-tauri/src/types.rs:212-229 | `Media::new` stores all six fields as given |
| Structs.SetId | src-tauri/src/types.rs:242-244 | `set_id` changes the id and no other field |
| Structs.SetMediaType | src-tauri/src/types.rs:245-247 | `set_media_type` changes the media type and no other field |
| Structs.SetName | src-tauri/src/types.rs:248-250 | `set_name` changes the name and no other field |
| Structs.SetBorrowable | src-tauri/src/types.rs:251-253 | `set_borrowable` changes the borrowable flag and no other field |
| Structs.SetVendor | src-tauri/src/types.rs:254-256 | `set_vendor` changes the vendor and no other field |
| Structs.SetRenter | src-tauri/src/types.rs:257-259 | `set_renter` changes the renter and no other field |
| Loading.VecToHashmap | src-tauri/src/utils.rs:32-34 | the keys are exactly the ids in the list, each value is a listed record under its own id, and with repeated ids the last record wins |
| Loading.HashmapToVec | src-tauri/src/utils.rs:36-38 | the list is as long as the map, holds every value of the map and nothing else |
| Loading.HashmapToVecOnce | src-tauri/src/utils.rs:36-38 | when records sit under their own ids, each value is listed exactly once |
| Loading.HashmapToTrie | src-tauri/src/utils.rs:40-46 | the new trie stores exactly the lower-cased names of the records, whatever their ids, and is pruned |
| AppState.App.constructor | src-tauri/src/app.rs:26-46 | a new app has empty caches, no trie and user 0, and satisfies the cache invariant |
| AppState.App.AuthenticateEmployee | src-tauri/src/app.rs:52-72 | only a poisoned lock is an error; otherwise the answer is whether the id is cached and its digest verifies (unknown id and verifier error give `false`); only `true` signs the employee in |
| AppState.App.GetPermissionLevel | src-tauri/src/app.rs:74-79 | Some iff the lock is acquired and the signed-in user is cached, and then it is that employee's level |
| AppState.App.GetCurrentUser | src-tauri/src/app.rs:121-128 | the lock error, "User not found" when the user is not cached, or the cached record |
| AppState.App.SearchById | src-tauri/src/app.rs:81-84 | None before the table's trie exists; otherwise None iff no cached lower-cased name begins with a non-empty query; Some lists exactly those names, each once; a query with an upper-case letter finds nothing |
| AppState.App.UpdateData | src-tauri/src/app.rs:86-93 | the cache of that kind becomes `vec_to_hashmap(rows)` and its table gets a new trie of the cached names; the other cache, the other trie and the user are unchanged; the invariant is kept |
| AppState.App.RefreshAllData | src-tauri/src/app.rs:95-106 | both caches are `vec_to_hashmap` of the fetched rows, both tables have a trie, and the user is unchanged |
| AppState.App.RentMedia | src-tauri/src/app.rs:108-119 | errors in the source's order (lock, "User not found", lock, "Media not found"); otherwise it sends the cached record with only the renter changed, to the user's name, reports the store's failure as "Failed to update on database", and never changes the caches |
| Commands.Authenticate | src-tauri/src/main.rs:13-21 | a poisoned lock is an error; otherwise the result and the sign-in are those of `authenticate_employee` |
| Commands.GetMedia | src-tauri/src/main.rs:45-52 | a lock error, or every cached media record and nothing else, as many as are cached |
| Commands.GetMediaListsEachOnce | src-tauri/src/main.rs:45-52 | with records under their own ids, `get_media` lists each record exactly once |
| Commands.SearchMedia | src-tauri/src/main.rs:54-73 | "No media found" exactly when `search_by_id` gives None; otherwise distinct cached records whose lower-cased name begins with the query; no kept name equals a later record's lower-cased name; every match is kept unless a kept record's name equals its lower-cased name; a match whose lower-cased name no cached record bears is always kept |
| Commands.CaseVariantsBothKept | src-tauri/src/main.rs:63-70 | records named "Dune" and "DUNE" are both in the result of a search for "du" |
| Commands.LowerCaseNameHidesOnlyLater | src-tauri/src/main.rs:63-70 | of records named "dune" and "Dune", "dune" is always kept, and "Dune" is kept only when it comes first in the result |
| Commands.GetRank | src-tauri/src/main.rs:98-105 | a lock error, "Could not find user" iff `get_permission_level` is None, otherwise the display name of the signed-in employee's level |
| Commands.RankIdentifiesLevel | src-tauri/src/main.rs:98-105 | a rank text names exactly one level: the signed-in employee's |
| Commands.MediaCheckout | src-tauri/src/main.rs:108-118 | "Failed to parse cart data" for a bad cart, the lock error, or else "Checkout successful" with the ids of the cart in order; no record is rented |
| LegacyTypes.NewEmployee | src/types.rs:18-45 | fails iff the password is shorter than 8 bytes, with the length message; otherwise all nine fields are stored as given, the password in plain text |
| LegacyTypes.SameLengthRule | src/types.rs:29-32 | the older and the current constructor refuse the same passwords with the same message; the older one keeps the plaintext, the current one the digest |
| LegacyTypes.LengthBoundary | src/types.rs:29-32 | an eight-letter password is accepted and a seven-letter one refused |
| LegacyTypes.NewMedia | src/types.rs:55-71 | `Media::new` of the older snapshot stores its five fields as given |

## Left out

- The remote store (`DbTool` in src-tauri/src/data_manager.rs): an HTTP client. Its fetched rows and its answer to an update are parameters.
- `App::new` and `run`: reading the configuration and connecting. The constructor gives the state right after connecting, and `refresh_all_data` takes the fetched rows.
- Mutexes, `Arc`, the Tokio runtime and the `mem::take` swap in `refresh_all_data`: concurrency machinery. A lock is a `LockResult` parameter where the source reports a failure.
- The `expect` on the media lock in `App::get_media`, used by `get_media` and `search_media`: it panics, so it is not modelled. A poisoned lock in `update_data` is taken over, which leaves the data as if the lock had been acquired.
- Argon2 hashing with a random salt (`hash_str`, `verify_password`): foreign cryptography. A digest is a parameter and verification a function, constrained only by `SoundDigest`.
- `load_db_settings`, `load_settings`, `get_input`, `create_obj`, `list_items`, `update_item`, `delete_item`, `network::test_network`: configuration files, standard input and the network.
- JSON: the commands answer with the records, not with their serialisation. "Failed to serialize media data" is therefore never produced. The parsed cart of `media_checkout` is a parameter, None when the JSON is malformed.
- The `dbg!` output of `search_media`, the multi-line record `Display` impls, and the user interface in JSX: output formatting and UI.
- The `Employee` setters, including `set_password`, which rehashes, and `additional_setup`: no modelled operation calls them. The `Employee` getters that the modelled operations use, `password()` (src-tauri/src/types.rs:177-179, used at src-tauri/src/app.rs:64) and `perm_level()` (src-tauri/src/types.rs:174-176, used at src-tauri/src/app.rs:78), are modelled as direct reads of the record's fields.
- Structs.SetId, Structs.SetName and the other `Media` setters: they take `&mut self` in the source. Here each returns the updated record, because a `Media` is only ever a local value or a clone.
- Text.ToLower: lower-cases ASCII letters only. Rust's `to_lowercase` also maps other Unicode letters, and can change the length.
- Commands.MediaCheckout: the loop over the cart ids is not modelled. It only creates `rent_media` futures and drops them without awaiting them, so it has no effect.
- The iteration order of a `HashMap`: it is an explicit key order in `hashmap_to_vec` and `get_media`, and any order in the loops of `collect_words`, `hashmap_to_trie` and `search_media`.
- The other files of the older snapshot (src/app.rs, src/data_manager.rs, src/lib.rs, src/utils.rs): plumbing. Its `vec_to_hashmap` is the same as the current one and is covered by `Loading.VecToHashmap`.
