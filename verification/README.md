# simple-request: secrets, exchange and request assembly in Dafny

Simple Request is a desktop HTTP client: a React user interface over a Tauri
(Rust) back end. This project models its core, that is, the parts that
decide what happens to credentials and collections.

- **Secret manager** (`SecretManager`):
  - stores a secret's value in the platform keychain and a reference record
    in the back end's reference index;
  - serves values through a five-minute cache;
  - deletes secrets;
  - masks a secret for display;
  - evicts expired cache entries.
- **Secure exchange**:
  - on export, each request's credentials are redacted under one of three
    policies: keep the values, replace them by keychain references, or drop
    them;
  - the resulting envelope is optionally sealed with a password;
  - on import, the envelope is opened and the references are resolved
    against the keychain again.
- **Reference index** (`secret_manager.rs`): the back end's list of
  `SecretReference` records, with retain/push upserts, removal and
  last-used stamping.
- **Encrypted export framing**: the `salt ':' nonce ciphertext` byte layout
  that `encrypt_export` builds and `decrypt_import` takes apart.
- **Request assembly** (`execute_request` in `main.rs`), up to the send:
  - the method whitelist;
  - the enabled query pairs and headers;
  - the auth dispatch;
  - the body's content type.
- **Collection loading** (`load_collections`): the readable `*.json` files,
  ordered newest first by a stable sort.
- **Plain import and export** (`ImportExportActions`), the workspace edits
  of `App.tsx`, the request editor (`RequestBuilder`), the response
  viewer's helpers and the theme provider.

Every operation is a pure function over immutable data; the one loop,
cache eviction, is a method.

**The host.** The host supplies what the program gets from outside.

- `Host.uuid(k)` is the `k`-th id the secret manager mints through
  `crypto.randomUUID`; `Env.nextId` counts the ids minted so far. The other
  `randomUUID` draws (new collections and requests, the cache scrub) do not
  take from this supply.
- `Host.now`, `Host.iso` and `Host.rfc3339` are the clock.
- `JSON.parse`/`JSON.stringify`, the password cipher (`encrypt_export`'s
  Argon2 + AES-GCM), base64, URL parsing and `serde_json` are function
  parameters.
- The keychain is a map from id to value.
- Back-end failures that the model keeps are boolean parameters
  (`keychainOk`, `saveOk`).

Module layout, one file per module:

| file | module | models |
|---|---|---|
| wrappers.dfy | Wrappers | Option / Result |
| sequences.dfy | Sequences | filter and index edits on lists |
| text.dfy | Text | `toLowerCase`, decimal rendering, `replace`, `split(..)[0]` |
| json.dfy | Json | parsed JSON values and truthiness |
| api.dfy | Api | the records of `src/types/api.ts` |
| secret_cache.dfy | SecretCache | the cache of `SecretManager` |
| reference_index.dfy | ReferenceIndex | the reference commands of `secret_manager.rs` |
| secret_vault.dfy | SecretVault | store, mint, get, delete |
| redaction.dfy | Redaction | `processRequestForExport` |
| rehydration.dfy | Rehydration | `processRequestForImport` |
| round_trip.dfy | RoundTrip | reference export followed by import |
| secure_exchange.dfy | SecureExchange | `exportCollectionsSecurely` / `importCollectionsSecurely` |
| export_frame.dfy | ExportFrame | `encrypt_export` / `decrypt_import` framing |
| masking.dfy | Masking | `maskSecret` |
| backend.dfy | Backend | `execute_request` |
| collection_order.dfy | CollectionOrder | `load_collections` |
| import_export.dfy | ImportExport | `ImportExportActions` |
| workspace.dfy | Workspace | `AppContent` |
| request_editor.dfy | RequestEditor | `RequestBuilder` |
| response_view.dfy | ResponseView | `ResponseViewer` |
| theme.dfy | Theme | `ThemeProvider` |

## Model

| member | source | states |
|---|---|---|
| SecretCache.Lookup | src/utils/SecretManager.tsx:90-95 | a cached value is served exactly while its expiry lies strictly after the current time, and it is the cached value |
| SecretCache.Fill | src/utils/SecretManager.tsx:100-106 | a filled entry answers lookups until the current time plus the 300000 ms timeout and not after; lookups of every other id are unchanged |
| SecretCache.Invalidate | src/utils/SecretManager.tsx:436-443 | clearing an id removes its entry and keeps every other entry as it was |
| SecretCache.ClearAll | src/utils/SecretManager.tsx:264-269 | after clearing everything, no lookup succeeds and the cache is empty |
| SecretCache.EvictExpired | src/utils/SecretManager.tsx:445-452 | the loop keeps exactly the entries whose expiry is still in the future, unchanged |
| SecretCache.EvictionUnobservable | src/utils/SecretManager.tsx:445-452 | eviction cannot change the answer of any lookup made at the eviction time or later |
| ReferenceIndex.Remove | src-tauri/src/secret_manager.rs:113-114 | `retain` drops exactly the records carrying the id; its length falls by their count; with none present it changes nothing |
| ReferenceIndex.RemoveAppend | src-tauri/src/secret_manager.rs:113-114 | removal distributes over concatenation, so survivors keep their relative order |
| ReferenceIndex.RemoveIdempotent | src/utils/SecretManager.tsx:141-142 | removing an id twice, as `delete_secret` followed by `delete_secret_reference` does, equals removing it once |
| ReferenceIndex.RemoveKeepsUnique | src-tauri/src/secret_manager.rs:113-114 | removal preserves id uniqueness |
| ReferenceIndex.Upsert | src-tauri/src/secret_manager.rs:70-72 | after retain-then-push the new record is last, the rest is the old list without that id, and the id occurs exactly once |
| ReferenceIndex.UpsertKeepsUnique | src-tauri/src/secret_manager.rs:126-128 | an upsert preserves id uniqueness |
| ReferenceIndex.UpsertSameIdOverrides | src/utils/SecretManager.tsx:51-74 | a second upsert with the same id leaves the index as if only the second record had been stored, so the front end's record replaces the back end's |
| ReferenceIndex.Touch | src-tauri/src/secret_manager.rs:152-159 | an id absent from the index gives no change; otherwise only the first record with the id gets the new last-used stamp |
| ReferenceIndex.TouchKeepsUnique | src-tauri/src/secret_manager.rs:152-159 | stamping preserves id uniqueness |
| ReferenceIndex.StoreSecret | src-tauri/src/secret_manager.rs:46-77 | a keychain failure returns before the index changes; otherwise the record is upserted; success requires both keychain and save to succeed |
| ReferenceIndex.StoreSecretReference | src-tauri/src/secret_manager.rs:122-132 | the index becomes the upsert: records with other ids keep their order and the supplied record is appended last, the only one with its id; the command succeeds iff the save does |
| ReferenceIndex.DeleteSecret | src-tauri/src/secret_manager.rs:100-119 | a keychain failure leaves the index alone; otherwise no record with the id remains; success requires both steps |
| ReferenceIndex.DeleteSecretReference | src-tauri/src/secret_manager.rs:135-144 | the index becomes exactly the records with other ids, in their order |
| ReferenceIndex.UpdateSecretLastUsed | src-tauri/src/secret_manager.rs:147-160 | an unknown id is a successful no-op; a known id gives its first record the supplied time as last use and changes nothing else; a known id succeeds iff the save does |
| ReferenceIndex.CommandsKeepUnique | src-tauri/src/secret_manager.rs:46-160 | every command of the reference index preserves id uniqueness |
| SecretVault.StoreSecret | src/utils/SecretManager.tsx:43-82 | a missing value fails with the store error; otherwise the keychain maps the id to the value, the index holds the front end's record for it, the cached copy is gone and cache coherence is kept |
| SecretVault.FrameTransitive | src/utils/SecretManager.tsx:157-170 | the "only freshly drawn ids were written" frame composes across consecutive steps |
| SecretVault.EarlierNotMintedLater | src/utils/SecretManager.tsx:404-405 | with a repetition-free id supply, an id drawn earlier is never drawn again |
| SecretVault.Mint | src/utils/SecretManager.tsx:404-413 | the next id is drawn, its keychain entry is the value, the index has exactly one record for it, named "Imported <kind>", and nothing outside the drawn id changes in the keychain |
| SecretVault.CreateSecretReference | src/utils/SecretManager.tsx:404-413 | succeeds iff the value is present, storing it under the freshly drawn id |
| SecretVault.MarkUsed | src/utils/SecretManager.tsx:454-463 | the first record with the id gets the current ISO time as its last use and nothing else changes; an unknown id leaves the index as it was |
| SecretVault.GetSecret | src/utils/SecretManager.tsx:87-122 | a live cached entry is served as is; otherwise a non-empty keychain value is served and cached; a missing or empty one yields null and changes nothing; under coherence the result is truthy iff the keychain holds a non-empty value, and it is that value; a served value stamps its reference's last use, a null leaves the index alone |
| SecretVault.DeleteSecret | src/utils/SecretManager.tsx:139-148 | succeeds iff the keychain deletion does; then the keychain and cache lose exactly the id (every other entry and value stays), the index loses its records and the id supply is untouched |
| Redaction.ChoosePolicy | src/utils/SecretManager.tsx:275-320 | `includeSecrets` wins (keep), then `secretReferences` (reference), else drop |
| Redaction.SecretHeaderIff | src/utils/SecretManager.tsx:424-434 | a header name is secret iff it equals one of the six names up to letter case |
| Redaction.RedactAuth | src/utils/SecretManager.tsx:275-320 | only the slot named by `auth.type`, and only when its credential is non-empty, is processed: keep leaves it; reference moves the value to a freshly minted keychain id; drop empties it; other slots are untouched and the keychain changes only under drawn ids |
| Redaction.RedactHeader | src/utils/SecretManager.tsx:323-342 | non-secret headers pass unchanged; a secret header is kept, turned into a reference (failing when its value is absent) or emptied |
| Redaction.RedactHeaders | src/utils/SecretManager.tsx:323-342 | fails iff the policy is reference and some secret header lacks a value; every header keeps its name and flag; without keep no secret header keeps a value; keep is the identity and drop leaves the store alone |
| Redaction.RedactRequest | src/utils/SecretManager.tsx:271-345 | only `auth` and `headers` change; fails iff the reference policy meets an unstorable header; without keep the selected slot and secret headers are clear |
| Redaction.RedactRequests | src/utils/SecretManager.tsx:159-163 | fails iff some request is unstorable under the reference policy; otherwise every request keeps its shape and, without keep, is clear |
| Redaction.RedactCollections | src/utils/SecretManager.tsx:157-170 | fails iff some collection holds a request unstorable under the reference policy; only request lists change; without keep every collection is clear |
| Rehydration.RestoreAuth | src/utils/SecretManager.tsx:351-382 | the reference definition of the auth rewrite: each non-empty reference is cleared and, when it resolves to a non-empty value, that value is restored (bearer, basic password and API key alike); a slot without a reference is left as it was |
| Rehydration.RestoreHeader | src/utils/SecretManager.tsx:385-399 | a referenced header gets the resolved value or `''` and loses its reference; other headers are unchanged |
| Rehydration.Resolve | src/utils/SecretManager.tsx:415-422 | with a coherent cache, resolving an id yields exactly the non-empty keychain value, and the keychain never changes |
| Rehydration.RehydrateAuth | src/utils/SecretManager.tsx:351-382 | no reference is left, and with a coherent cache the result equals the pure reference rewrite against the keychain |
| Rehydration.RehydrateHeaders | src/utils/SecretManager.tsx:385-399 | no header keeps a reference, and with a coherent cache every header equals the pure rewrite |
| Rehydration.RehydrateRequest | src/utils/SecretManager.tsx:347-402 | only `auth` and `headers` change, no reference remains, and the result equals the pure rewrite under coherence |
| Rehydration.RehydrateRequests | src/utils/SecretManager.tsx:228-232 | the list keeps its length, no request keeps a reference, and it equals the pure rewrite under coherence |
| Rehydration.RehydrateCollections | src/utils/SecretManager.tsx:224-239 | the list keeps its length and equals the pure rewrite under coherence; the keychain is never written |
| RoundTrip.RestoreRefFree | src/utils/SecretManager.tsx:347-402 | collections without references come back from the import rewrite unchanged |
| RoundTrip.AgreesPrefix | src/utils/SecretManager.tsx:157-170 | agreement with the final keychain on freshly drawn ids carries back to every intermediate state |
| RoundTrip.MintedResolves | src/utils/SecretManager.tsx:404-422 | a minted id resolves in any agreeing keychain to the stored value, or to nothing when the value was empty |
| RoundTrip.AuthRoundTrip | src/utils/SecretManager.tsx:275-382 | exporting an auth record with references and rewriting it against an agreeing keychain gives back the original record, for reference-free input and ids that never repeat |
| RoundTrip.BearerRoundTrip | src/utils/SecretManager.tsx:275-290 | the bearer slot round-trips through a reference |
| RoundTrip.BasicRoundTrip | src/utils/SecretManager.tsx:293-305 | the basic password round-trips through a reference |
| RoundTrip.ApiKeyRoundTrip | src/utils/SecretManager.tsx:308-320 | the API key value round-trips through a reference |
| RoundTrip.HeaderRoundTrip | src/utils/SecretManager.tsx:323-342 | every header, including a secret header with an empty value, round-trips |
| RoundTrip.HeadersRoundTrip | src/utils/SecretManager.tsx:323-342 | a header list round-trips |
| RoundTrip.RequestRoundTrip | src/utils/SecretManager.tsx:271-402 | a request round-trips: the export's rewrite is undone by the import's, for reference-free input and ids that never repeat |
| RoundTrip.HeadRequestRoundTrip | src/utils/SecretManager.tsx:271-402 | the head request round-trips even though later requests drew more ids |
| RoundTrip.HeadCollectionRoundTrip | src/utils/SecretManager.tsx:157-170 | the head collection's requests round-trip even though later collections drew more ids |
| RoundTrip.RequestsRoundTrip | src/utils/SecretManager.tsx:159-163 | a request list round-trips, for reference-free input and ids that never repeat |
| RoundTrip.CollectionsRoundTrip | src/utils/SecretManager.tsx:157-239 | a collection list exported with references and rewritten against an agreeing keychain is the original list, for reference-free input and ids that never repeat |
| RoundTrip.ExportThenImport | src/utils/SecretManager.tsx:153-244 | any coherent later state whose keychain still holds the minted values imports the exported collections back exactly, for reference-free input and ids that never repeat |
| RoundTrip.ExportThenImportHere | src/utils/SecretManager.tsx:153-244 | the same machine straight after the export imports them back exactly, for reference-free input and ids that never repeat |
| SecureExchange.SecurityLevel | src/utils/SecretManager.tsx:175 | the label says "encrypted" iff `includeSecrets` is set, whatever the password |
| SecureExchange.ExportSecurely | src/utils/SecretManager.tsx:153-194 | the result is sealed iff secrets are included and the password is truthy; a sealing failure or a redaction failure propagates; a plain envelope carries version 1.0, the export time, the label and the redacted collections; the keychain changes only under drawn ids; an unsealed export succeeds iff the redaction does and leaves the redaction's state |
| SecureExchange.PlaintextSecretsWithoutPassword | src/utils/SecretManager.tsx:175-193 | with `includeSecrets` and no usable password the output is the unsealed envelope labelled "encrypted" that holds every credential as it was |
| SecureExchange.ReferencesOnlyIsClear | src/utils/SecretManager.tsx:172-193 | without `includeSecrets` the export is always unsealed, labelled "references-only", and has no value in any selected auth slot or secret header |
| SecureExchange.Unpack | src/utils/SecretManager.tsx:224-239 | a document without collections yields the empty list; otherwise, under coherence, the collections rewritten against the keychain |
| SecureExchange.ImportSecurely | src/utils/SecretManager.tsx:199-244 | every failure is the one generic error; an encrypted document needs a truthy password, succeeds iff decryption and the inner parse succeed, and then yields the decrypted document unpacked (a missing collection list read as empty); a plain document is unpacked directly; the keychain is never written |
| SecureExchange.ReferencesExportImport | src/utils/SecretManager.tsx:153-244 | a references-only export, written and read back as JSON, imports back to the original collections on a machine that still holds the stored values, for reference-free input and ids that never repeat |
| SecureExchange.SealedExportImport | src/utils/SecretManager.tsx:179-221 | a sealed export opened with the same password through a cipher that undoes its sealing imports back to the original collections, credentials included, for reference-free input |
| ExportFrame.AsciiIsUtf8 | src-tauri/src/secret_manager.rs:168 | every ASCII salt string is valid UTF-8 |
| ExportFrame.FirstIndexOf | src-tauri/src/secret_manager.rs:202-203 | `position` finds the first occurrence, and none exactly when the byte is absent |
| ExportFrame.FirstIndexOfIs | src-tauri/src/secret_manager.rs:202-203 | a position with no earlier occurrence is the one found |
| ExportFrame.Encode | src-tauri/src/secret_manager.rs:184-188 | the frame is salt, one `:` byte, then nonce and ciphertext |
| ExportFrame.Parse | src-tauri/src/secret_manager.rs:199-214 | no separator is its own error; a salt before the first separator that is not UTF-8 is rejected before the length is looked at; success splits the data into a separator-free UTF-8 salt, a 12-byte nonce and the rest, which concatenate back to the input; "too short" happens iff the salt is valid and fewer than 12 bytes follow the first separator |
| ExportFrame.RoundTrip | src-tauri/src/secret_manager.rs:184-214 | parsing what `encrypt_export` framed gives back the salt, nonce and ciphertext |
| Masking.MaskSecret | src/utils/SecretManager.tsx:249-259 | as written: short secrets give eight bullets; otherwise four characters on each side with up to twelve bullets between; output length 8 to 20 |
| Masking.EightCharactersShownInFull | src/utils/SecretManager.tsx:250 | an eight-character secret is returned unmasked |
| Masking.EightCharacterExample | src/utils/SecretManager.tsx:250 | "hunter42" masks to itself |
| Masking.MaskSecretCorrected | src/utils/SecretManager.tsx:249-259 | the same mask with the short case extended to eight characters |
| Masking.CorrectedNeverShowsSecret | src/utils/SecretManager.tsx:249-259 | the corrected mask never equals a (bullet-free) secret, and it agrees with the original except at length 8 |
| Backend.ParseMethod | src-tauri/src/main.rs:180-189 | exactly the seven upper-case names are accepted, each mapping back to its name |
| Backend.MethodNameRoundTrip | src-tauri/src/main.rs:180-189 | every method parses back from its name |
| Backend.AuthEntries | src-tauri/src/main.rs:199-220 | at most one auth entry, present iff the type names a credential that is present (an API key only in a header); its form follows the type |
| Backend.BodyPart | src-tauri/src/main.rs:222-239 | a body is sent iff its type is json, urlencoded or raw, with its content; a content type `application/<type>` is added iff the type is json or urlencoded |
| Backend.Assemble | src-tauri/src/main.rs:166-239 | URL errors come first, prefixed "Invalid URL: "; then an unknown method fails; on success the method names the request's method, only enabled named params and headers are sent in order, followed by the auth entry and the content type |
| RequestEditor.SentParamsAgainstBadge | src-tauri/src/main.rs:174-178 | the params sent are never more than the editor's enabled count, and equal iff no enabled param has an empty key |
| CollectionOrder.LessTotal | src-tauri/src/main.rs:134 | string comparison is total |
| CollectionOrder.LessTransitive | src-tauri/src/main.rs:134 | string comparison is transitive |
| CollectionOrder.LessIrreflexive | src-tauri/src/main.rs:134 | string comparison is a strict order |
| CollectionOrder.Insert | src-tauri/src/main.rs:134 | insertion adds exactly one element |
| CollectionOrder.InsertNewestFirst | src-tauri/src/main.rs:134 | insertion into a newest-first list keeps it newest first |
| CollectionOrder.SortNewestFirst | src-tauri/src/main.rs:134 | the result is newest first and a permutation of the input |
| CollectionOrder.InsertStable | src-tauri/src/main.rs:134 | insertion keeps the relative order of the entries sharing a timestamp |
| CollectionOrder.SortStable | src-tauri/src/main.rs:134 | the sort is stable: entries with equal `updated_at` keep their listing order |
| CollectionOrder.Readable | src-tauri/src/main.rs:119-132 | a collection is loaded iff some listed `.json` file is readable and deserialises to it |
| CollectionOrder.JsonFileNames | src-tauri/src/main.rs:123 | only names with a non-empty stem and the exact, last extension `json` are read |
| CollectionOrder.ReadableOne | src-tauri/src/main.rs:121-130 | one entry yields its collection iff it is a `.json` file that was read and deserialised |
| CollectionOrder.ReadableAppend | src-tauri/src/main.rs:119-132 | the collections loaded from two listings laid end to end are those of the first followed by those of the second |
| CollectionOrder.LoadCollections | src-tauri/src/main.rs:114-137 | the loaded list is newest first and is a permutation of the readable collections |
| ImportExport.Normalise | src/components/ImportExportActions.tsx:58-68 | a `collections` array wins, then a top-level array, then a single collection with truthy `name` and `requests`, else nothing; reading fields of `null` throws |
| ImportExport.EncryptedWrapperYieldsNothing | src/components/ImportExportActions.tsx:58-68 | the secure export's encrypted wrapper yields no collections in the plain import |
| ImportExport.HandleFileImport | src/components/ImportExportActions.tsx:50-84 | `onImport` is called iff the file parses and holds at least one collection, and then with exactly those; parse failures and `null` give the format alert |
| ImportExport.FileTimestamp | src/components/ImportExportActions.tsx:34 | the file-name stamp is the time text up to the first `T`, with `:` and `.` replaced by `-` |
| ImportExport.FileTimestampIsDate | src/components/ImportExportActions.tsx:34 | for a `<date>T<time>` text the stamp is the date |
| ImportExport.ExportCollections | src/components/ImportExportActions.tsx:14-44 | an empty choice exports nothing; otherwise the document holds exactly the chosen collections, and the file name depends on whether a selection was given |
| ImportExport.ExportSingle | src/components/ImportExportActions.tsx:117-140 | the single exporter writes exactly that collection |
| ImportExport.SingleIsSelectionOfOne | src/components/ImportExportActions.tsx:14-44 | the single exporter equals the general one given a one-element selection |
| ImportExport.ExportThenImport | src/components/ImportExportActions.tsx:14-84 | importing an exported file hands over exactly the exported collections, in order |
| Workspace.ReplaceById | src/App.tsx:89-91 | every request with the updated id is replaced and every other request is kept in place |
| Workspace.RemoveById | src/App.tsx:178 | exactly the requests with other ids survive |
| Workspace.RemoveByIdOne | src/App.tsx:178 | a single request survives iff its id differs |
| Workspace.RemoveByIdAppend | src/App.tsx:178 | removal works list by list, keeping the order of the survivors |
| Workspace.ReplaceIdempotent | src/App.tsx:84-98 | repeating an update changes nothing more |
| Workspace.DeleteAfterReplace | src/App.tsx:84-98 | deleting an id after updating it equals deleting it alone |
| Workspace.DeleteUndoesAppend | src/App.tsx:59-82 | deleting a request just appended under an unused id restores the list |
| Workspace.UpdateRequest | src/App.tsx:84-98 | without an active collection nothing happens; otherwise the updated collection is saved and active, and the updated request becomes active |
| Workspace.NewRequest | src/App.tsx:62-71 | the new request is a named, empty GET |
| Workspace.CreateNewRequest | src/App.tsx:59-82 | exactly one new request is appended at the end, saved and made active; nothing happens without an active collection |
| Workspace.DeleteRequest | src/App.tsx:174-187 | the filtered collection is saved; the active request and response are cleared iff the active request had the id |
| Workspace.NewCollection | src/App.tsx:46-53 | the new collection is empty and named "New Collection" |
| Workspace.CreateNewCollection | src/App.tsx:45-57 | the new collection is saved and becomes active |
| Workspace.LoadCollections | src/App.tsx:24-34 | the loaded list is adopted; the first entry becomes active only when none is |
| Workspace.LoadKeepsOrMakesSelection | src/App.tsx:28-30 | loading never removes a selection, and leaves none iff there was none and nothing was loaded |
| Workspace.ErrorResponse | src/App.tsx:118-126 | a failed execution is shown as status 0, "Error", size 0, carrying the error |
| Workspace.FinishExecution | src/App.tsx:100-130 | loading always ends with a response: the result with the front end's timing, or the error response |
| RequestEditor.Apply | src/components/RequestBuilder.tsx:18-24 | present fields overwrite, absent ones keep their value, id and creation time never change, and the stamp is renewed |
| RequestEditor.ApplyThen | src/components/RequestBuilder.tsx:18-24 | two successive updates are one update with the later fields winning |
| RequestEditor.ApplyNothing | src/components/RequestBuilder.tsx:18-24 | an empty update only re-stamps |
| RequestEditor.AddQueryParam | src/components/RequestBuilder.tsx:26-30 | one enabled blank row is appended and nothing else changes |
| RequestEditor.UpdateQueryParam | src/components/RequestBuilder.tsx:32-36 | only the row at the index changes |
| RequestEditor.RemoveQueryParam | src/components/RequestBuilder.tsx:38-42 | the row at the index goes; an index outside the list removes nothing |
| RequestEditor.AddHeader | src/components/RequestBuilder.tsx:44-48 | one enabled blank header is appended |
| RequestEditor.UpdateHeader | src/components/RequestBuilder.tsx:50-54 | only the header at the index changes |
| RequestEditor.RemoveHeader | src/components/RequestBuilder.tsx:56-60 | the header at the index goes; an index outside the list removes nothing |
| RequestEditor.RemoveUndoesAdd | src/components/RequestBuilder.tsx:26-60 | removing the row just added restores the rows |
| RequestEditor.SetAuthType | src/components/RequestBuilder.tsx:283-288 | choosing an auth type discards every credential |
| RequestEditor.EditBearerToken | src/components/RequestBuilder.tsx:305-310 | a bearer edit leaves only the type and the token |
| RequestEditor.EditUsername | src/components/RequestBuilder.tsx:332-340 | the auth record is rebuilt as basic with the new username and the shown password; every other credential and every reference field is dropped |
| RequestEditor.EditPassword | src/components/RequestBuilder.tsx:351-359 | the auth record is rebuilt as basic with the shown username and the new password; every other credential and every reference field is dropped |
| RoundTrip.EditorAuthRefFree | src/components/RequestBuilder.tsx:283-359 | every auth record the editor builds carries no reference field |
| RequestEditor.BasicEditsCommute | src/components/RequestBuilder.tsx:332-359 | editing username and password in either order gives the same request |
| RequestEditor.SetBodyType | src/components/RequestBuilder.tsx:248-254 | a new body type keeps the content typed so far |
| RequestEditor.EditBodyContent | src/components/RequestBuilder.tsx:265-271 | a content edit keeps the body type |
| RequestEditor.BodyEditsKeepEachOther | src/components/RequestBuilder.tsx:248-271 | type and content edits do not disturb each other |
| RequestEditor.AddRaisesBadge | src/components/RequestBuilder.tsx:124-133 | adding a row raises the enabled-count badge by one |
| RequestEditor.EnabledParams | src/components/RequestBuilder.tsx:123-127 | the params badge never exceeds the row count, equals it iff every row is enabled, and is zero iff none is |
| RequestEditor.EnabledHeaders | src/components/RequestBuilder.tsx:128-132 | the headers badge never exceeds the row count, equals it iff every header is enabled, and is zero iff none is |
| RequestEditor.BadgeAppend | src/components/RequestBuilder.tsx:123-132 | the badge of two lists laid end to end is the sum of their badges |
| RequestEditor.SendAfterUrlEdit | src/components/RequestBuilder.tsx:102 | after a URL edit, Send is offered iff the URL is non-empty and no request is in flight |
| Sequences.FilterLength | src/components/RequestBuilder.tsx:125 | a filter keeps every element iff all pass and none iff none passes |
| ResponseView.StatusClass | src/components/ResponseViewer.tsx:51-57 | each range of statuses maps to its class; everything from 500 up is 5xx; below 200 there is none |
| ResponseView.StatusClassNamesHundreds | src/components/ResponseViewer.tsx:51-57 | below 600 the class names the hundreds digit; no class iff the status is below 200 |
| ResponseView.ErrorResponseUnclassified | src/components/ResponseViewer.tsx:51-57 | the error response gets no status class |
| ResponseView.UnitFor | src/components/ResponseViewer.tsx:59-63 | B below 1024, KB below 1024*1024, MB from there |
| ResponseView.UnitMonotone | src/components/ResponseViewer.tsx:59-63 | a larger size never gets a smaller unit |
| ResponseView.BytesLabel | src/components/ResponseViewer.tsx:60 | the bytes label is the decimal count followed by " B", and reading its digits gives the count back |
| Text.LowerEqualsIff | src/utils/SecretManager.tsx:433 | lower-casing then comparing is comparing character by character up to case |
| Text.DecimalRoundTrip | src/components/ResponseViewer.tsx:60 | reading a rendered number gives the number back |
| Text.BeforeFirst | src/components/ImportExportActions.tsx:34 | the result is the longest prefix without the separator |
| Theme.Next | src/components/ThemeProvider.tsx:49-57 | light goes to dark, dark to system, anything else to light |
| Theme.ToggleCycle | src/components/ThemeProvider.tsx:49-57 | toggling is a three-cycle on the themes, and one toggle brings any other value onto it |
| Theme.Actual | src/components/ThemeProvider.tsx:26-34 | the shown theme is the chosen one, except that system follows the host's dark preference |
| Theme.Initial | src/components/ThemeProvider.tsx:16-17 | the first render is system, shown dark |
| Theme.Mount | src/components/ThemeProvider.tsx:19-34 | a non-empty saved setting is adopted, otherwise system; the shown theme follows |
| Theme.SetTheme | src/components/ThemeProvider.tsx:44-47 | the choice is made and persisted |
| Theme.Toggle | src/components/ThemeProvider.tsx:49-57 | a toggle sets and persists the successor |
| Theme.SetThenRemount | src/components/ThemeProvider.tsx:19-47 | a set theme survives a restart |
| Theme.ThreeTogglesRestore | src/components/ThemeProvider.tsx:49-57 | three toggles restore any of the three themes |
| Sequences.RemoveAt | src/components/RequestBuilder.tsx:40 | dropping an index shifts later elements down; an index outside the list removes nothing |
| Sequences.SetAt | src/components/RequestBuilder.tsx:33-34 | only the element at the index changes |

## Left out

- Concurrency: `Promise.all` over requests and collections is modelled as a left-to-right sequence. Ids are therefore drawn in list order, and every property holds for that order.
- Partial writes on a failed export: when a later header cannot be stored, the keychain entries already written stay. The model exposes that state only through `KeychainFrame`, so these writes land only under freshly drawn ids.
- Cryptography and encodings: Argon2 key derivation, AES-GCM, base64 and salt generation are not modelled. `ExportFrame` covers only the byte layout around them. The secure exchange takes the cipher as a parameter.
- JSON text: `JSON.parse`, `JSON.stringify` and `serde_json` are function parameters. `TextFaithful` states the one property the round-trip lemmas rely on.
- File and keychain I/O: the collection directory listing, file reads and the reference file are not modelled.
  - `load_collections` takes the listing as (name, content) pairs.
  - Keychain and save failures are boolean parameters.
- Timers: `setInterval(clearExpiredSecrets, 60000)` and the `setTimeout` cleanup after a cache fill are not modelled. `EvictExpired` and `EvictionUnobservable` show that an eviction at any time changes no later lookup.
- Clock readings: several `new Date()` readings in one call collapse to one host time. Two readings that straddle a second or a day boundary are not modelled.
- Cache entries without an expiry: `getSecret` and `clearExpiredSecrets` treat an entry with a falsy `expiresAt` as never expiring. Every entry the program creates has an expiry, so `CacheEntry.expiresAt` is a plain number.
- Memory scrubbing: the overwrite of a cached value in `clearSecretFromMemory` is not modelled. It draws a random UUID that is thrown away and is never used as an id.
- Aliasing: the shallow copy in `processRequestForExport` means the caller's auth object is mutated. The model treats records as values and makes no claim about the caller's copy.
- String lengths: JavaScript measures lengths in UTF-16 code units, while `maskSecret` and the editor are modelled on characters. Lengths differ only outside the Basic Multilingual Plane.
- Text.LowerChar: models only the lower-case mappings that produce ASCII. Every other mapping is the identity, which suffices because only comparison against ASCII names depends on it.
- Formatting: the KB/MB decimals of `formatSize` (`toFixed(1)`), `formatJson` and the syntax highlighter are not modelled. `UnitFor` models only the choice of unit.
- HTTP: `reqwest` sending, response reading, timing and header-name validity errors at send time are not modelled. `Assemble` stops at what would be sent.
- Rust string ordering: `CollectionOrder` compares code points lexicographically. That is the order of Rust's UTF-8 byte comparison.
- Other code: `CollectionSidebar`, the tailwind configuration, `get_secret_references`, `AppState` loading, `save_collection` and `delete_collection` are not part of this model. They hold no logic beyond file I/O and rendering.
- The API-key editor: `RequestBuilder` offers no editing of API-key fields, so none is modelled.
- SecretVault.StoreSecret: assumes both back-end commands succeed for a present value. A keychain or save failure (another `StoreError`) is modelled only on the back-end side, in `ReferenceIndex.StoreSecret`.
- SecretVault.DeleteSecret: models only the keychain failure. A failed save of the reference file after the keychain deletion is modelled only on the back-end side, in `ReferenceIndex.DeleteSecret`.
- Fresh ids: the round-trip properties assume that the ids the secret manager mints never repeat and are never empty (`FreshIds`), which `crypto.randomUUID` gives only with overwhelming probability.
- SecretVault.MarkUsed: the save outcome of `update_secret_last_used` is dropped, as the front end drops it.
- Rehydration.RehydrateRequests: states equality with the pure rewrite only under cache coherence. Without coherence, the cache could serve values that differ from the keychain.
- Rehydration.RehydrateCollections: states no unconditional "no reference remains" property. Such a property follows only under cache coherence, from the equality with `RestoreCollections`.
- RequestEditor.EditBodyContent: requires only that a body exists. The editor shows the content field only for a body type other than `none`, a stricter condition.

## Findings

| source | as written | input that shows it | evidently intended | confidence | as-written member | corrected member |
|---|---|---|---|---|---|---|
| src/utils/SecretManager.tsx:250 | `secret.length < 8` sends an eight-character secret to the branch that shows its first four and last four characters, which is all of it | `maskSecret("hunter42")` returns `"hunter42"` | secrets of at most eight characters are fully masked, so no displayed mask reproduces the secret | not executed | Masking.EightCharacterExample | Masking.CorrectedNeverShowsSecret |
