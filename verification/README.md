# OmniVault verification

A Dafny 4.11 model of the parts of OmniVault that hold state or transform data, with proofs of what
they promise. `dafny verify dfyconfig.toml` checks everything.

| file | models |
|---|---|
| `Text.dfy` | strings in the order `sort.Strings` uses, and listings of map keys |
| `Secrets.dfy` | secrets, and what a JSON round trip keeps of them (`vault/types.go`) |
| `Primitives.dfy` | key derivation, sealing, base64 and JSON as ideal operations |
| `Crypto.dfy` | the object that owns and zeroes the derived key (`internal/store/crypto.go`) |
| `StoreSpec.dfy` | the encrypted store as transition functions over memory and two files |
| `EncryptedStore.dfy` | the same store on the heap, proved to follow those functions (`internal/store/encrypted.go`) |
| `StoreRefinement.dfy` | runs in which file operations succeed, restarts included: the store is a plain map with a password and a lock bit |
| `StoreFaults.dfy` | runs with faults: what the two files hold after every write, the dirty flag, and failing password changes |
| `Handlers.dfy`, `ImportExport.dfy` | the looping handlers of the daemon, and what import and export do to a vault |
| `DaemonProtocol.dfy` | the daemon as a concurrent machine of handlers, one `RWMutex` and timers (`internal/daemon/server.go`) |
| `Linearization.dfy`, `WholeHandlers.dfy`, `ServedRequests.dfy` | every interleaving serves whole handlers one after the other, each answering as it does alone; what each request does to a plain vault and is told |
| `AutoLock.dfy`, `AutoLockGaps.dfy`, `Resets.dfy` | whether an open vault has a lock on its way, which handlers reset the timer and what that buys, and runs in which it is less than expected |
| `Shell.dfy`, `ShellLexer.dfy` | the shell printer, and an independent reader for its output (`internal/output`) |
| `Flags.dfy` | the command-line parser (`cmd/omnivault/flags.go`) |
| `SecretObjects.dfy`, `MemoryProvider.dfy` | secrets as objects with shared parts, and who owns them in the in-memory provider (`vault/types.go`, `providers/memory/memory.go`) |
| `References.dfy`, `Resolver.dfy` | secret references and the resolver (`vault/types.go`, `resolver.go`) |

## Assumptions

- Key derivation (Argon2id, section 3 of RFC 9106) gives bytes that differ whenever password, salt or
  parameters differ; sealing (AES-GCM, sections 7.1 and 7.2 of NIST SP 800-38D) gives a box that opens
  only under the sealing key and nonce; base64 (section 4 of RFC 4648) and JSON decode what they encoded.
  These are properties of the data types in `Primitives.dfy`, so they are proved there, not assumed.
- JSON keeps whole seconds of `Timestamp` (section 5.6 of RFC 3339) and turns empty maps and slices into
  nil. Strings are valid UTF-8; instants lie in the years 0 to 9999.
- The clock, randomness, file reads and writes, and the iteration order of maps are parameters of each
  call (`Env`, `Call.order`) and the theorems hold for all of them. A failed write may leave anything. An entry is foreign where a failed
  write leaves it although it was neither on disk nor in memory.
- `regexp` and `filepath.Match` are arbitrary functions of the path. What JSON makes of an exported value on
  its way is an arbitrary function too (`wire`): it leaves strings alone that were decoded from JSON, but a
  value kept as bytes need not be UTF-8.
- The store's own mutex makes each of its methods one step. `autoSave` is true, as the only constructor sets it,
  wherever a theorem does not say that it holds for either value.

## What the code does that its documentation does not say

- `ChangePassword` does not mark the store dirty before saving. If the metadata is saved and the data
  is not, `Lock` then reports success without writing, and no secret can ever be read again
  (`FailedSaveLosesEverySecret`). Memory and disk stay in step however its saves end exactly when the
  store happened to be dirty (`ChangePasswordTracksExactly`): the missing line is `s.dirty = true`.
- If instead the metadata cannot be saved, memory has moved to the new key and the files have not. The
  next successful `Set` mixes the keys: only the old password unlocks, and no secret can be read
  (`FailedMetadataThenSetLosesEverySecret`).
- `Initialize` whose metadata cannot be saved leaves the store open. Secrets saved then are lost when
  `Initialize` is tried again: it writes its metadata over entries of another key, and then drops them
  (`RetriedInitializeLosesSecret`).
- Between the two writes of `ChangePassword` the files are coherent exactly when there are no entries
  on disk or the key did not change (`GapIsExact`); otherwise they are after every write, if none fails
  (`RunsFromNoFilesAreCoherent`).
- A secret kept as bytes comes back from export and import as a string (`ExportThenImport`). The daemon
  itself never stores bytes.
- `Unlock` on an open vault rereads the data file: it drops a secret whose save had failed, and reports
  success (`UnlockDropsUnsavedSecret`). It keeps the map in memory exactly when the file has it, as it
  does whenever the store is not dirty (`UnlockKeepsSavedMap`).
- `/init` whose save fails leaves the vault open with no lock on its way (`FailedInitLeavesVaultOpen`), and so
  does `/lock`, which stops the timer before it saves (`FailedLockLeavesVaultOpen`). After such a failure a lock
  is on its way exactly when another timer is running (`FailedSaveIsGuardedExactly`). `OpenVaultWillLock`
  therefore asks for the saves of `Initialize` and `Lock` to succeed.
- A reset of the auto-lock timer does not always buy a full period: a timer that has already fired
  cannot be stopped (`ResetMayNotDelayLock` is a run that locks right after a reset), and two readers that reset
  at once leave a timer that nobody can stop any more (`ResetsAtOnceAbandonTimer`). A reset buys a full period
  exactly when every timer still running was armed at that same moment, or the period is zero
  (`ResetBuysAPeriodExactly`). The documentation
  promises a lock only after inactivity. It also says that unlocking an unlocked vault does not reset the
  timer; the code resets it. Failed operations and password changes do not reset it.
- An import whose expiry lies within the first second of year 1 is stored with the zero time, which
  export and import then drop (`ZeroExpiryIsReachable`, `HalfSecondExpiryIsLost`). All other secrets the daemon
  stores survive.
- `ResolveString` documents that non-references pass through, but takes every `host:port` with three or
  more characters after the colon for a reference and fails (`HostPortIsTakenForReference`); `LeftAloneExactly` gives the condition.
- `Unlock` on an open vault replaces the key without zeroing the old array: it modifies the store object only.
- The memory provider copies bytes, fields, tags and labels, but shares timestamps and `Extra` with the caller
  (`MemoryProvider.Provider.CopySecret`).

## Model

| member | source | states |
|---|---|---|
| Text.ListingIsUnique | internal/store/encrypted.go:303-311 | a set of paths has only one sorted listing, so the order in which `range` collects it does not matter |
| Text.LessIsLexicographic | internal/store/encrypted.go:310 | the order of listings: a proper prefix first, otherwise the smaller character where two strings first differ |
| Text.CollectSorted | internal/output/writer.go:287-295 | collecting the keys of a map in any order and sorting them gives its one sorted listing |
| Secrets.Secret.NormIsInvisible | vault/types.go:30-71 | a JSON round trip happens at most once: doing it again changes nothing, and `Reveal` and `GetField` cannot tell it happened |
| Secrets.StampedIsReadBack | internal/store/encrypted.go:232-247 | what is read of a secret written at a time: its own value, bytes, fields, tags, labels and extra, empty ones as none; its own version, provider, path and expiry; its creation time if it had one, else that time; that time as modification time; all times to the second |
| Primitives.DerivedKeysDiffer | internal/store/crypto.go:72-82 | two derived keys agree exactly when password, salt and parameters agree |
| Primitives.OpenUndoesSeal | internal/store/crypto.go:105-167 | with the nonce in front and base64 around it, a sealed text opens under the sealing key to the plaintext, and under any other key fails |
| CryptoObject.Zeroize | internal/store/crypto.go:90-98 | every byte of the buffer is zero afterwards |
| CryptoObject.Crypto.Unlock | internal/store/crypto.go:84-87 | the key in use is a fresh array holding the derived key |
| CryptoObject.Crypto.Lock | internal/store/crypto.go:89-98 | zeroes its own key array, changes no other array, and drops it |
| CryptoObject.Crypto.Encrypt | internal/store/crypto.go:105-132 | seals under the key in use; refuses when locked, on a bad key size or without randomness |
| CryptoObject.Crypto.Decrypt | internal/store/crypto.go:134-167 | opens under the key in use; refuses when locked |
| CryptoObject.Crypto.VerifyPassword | internal/store/crypto.go:183-223 | true exactly when the derived key opens the blob to the magic; the derived array is fresh and zeroed, and the key in use is untouched |
| CryptoObject.NewCrypto | internal/store/crypto.go:42-60 | a missing salt is drawn at random, a short one refused |
| EncryptedStoreObject.EncryptedStore.constructor | internal/store/encrypted.go:47-54 | a new store is locked, clean, and saves automatically |
| EncryptedStoreObject.EncryptedStore.SaveMeta | internal/store/encrypted.go:347-360 | writes the metadata file; a failed write may leave anything |
| EncryptedStoreObject.EncryptedStore.SaveData | internal/store/encrypted.go:378-396 | writes the data file and clears the dirty flag, or fails and keeps it |
| EncryptedStoreObject.EncryptedStore.LoadData | internal/store/encrypted.go:398-423 | a missing file is an empty vault; an unreadable or unparsable one leaves the data in memory as it was |
| EncryptedStoreObject.EncryptedStore.Initialize | internal/store/encrypted.go:56-106 | memory, files and the order of writes follow the specification, error exits included |
| EncryptedStoreObject.EncryptedStore.Unlock | internal/store/encrypted.go:114-152 | rereads the metadata before it checks the password, and drops the key again when the data cannot be loaded |
| EncryptedStoreObject.EncryptedStore.Lock | internal/store/encrypted.go:154-176 | saves if dirty, zeroes the key array it held, and forgets the data; a failed save changes nothing in memory |
| EncryptedStoreObject.EncryptedStore.Get | internal/store/encrypted.go:197-222 | the decrypted, decoded secret, or which of the five failures |
| EncryptedStoreObject.EncryptedStore.Set | internal/store/encrypted.go:224-260 | fills in the times of the caller's secret in place and changes nothing else in it, so that whoever holds it sees them, then encrypts, stores, marks dirty and saves; a locked store touches neither |
| EncryptedStoreObject.EncryptedStore.Delete | internal/store/encrypted.go:262-279 | removes the entry, marks dirty and saves |
| EncryptedStoreObject.EncryptedStore.Exists | internal/store/encrypted.go:281-292 | whether the path has an entry, unless locked |
| EncryptedStoreObject.EncryptedStore.List | internal/store/encrypted.go:294-312 | the one sorted listing of the matching paths |
| EncryptedStoreObject.EncryptedStore.ReencryptAll | internal/store/encrypted.go:450-468 | whatever order the loop takes, its result is that of the specification for some order of all paths, early exits included |
| EncryptedStoreObject.EncryptedStore.ChangePassword | internal/store/encrypted.go:425-492 | follows the specification for some iteration order; once the new key is in place the old key array is all zeros and the new key opens every entry to its old plaintext; on every earlier exit the old key is untouched |
| StoreRefinement.ReencryptKeepsPlaintexts | internal/store/encrypted.go:450-468 | for every iteration order: it succeeds exactly when every old entry opens and randomness is there, and then has the same paths, each opening under the new key to what it held |
| StoreRefinement.PasswordVerifies | internal/store/encrypted.go:134-137 | a password verifies exactly when it is the one the blob was made with |
| StoreRefinement.PlainIsUnique | internal/store/encrypted.go:32-45 | a store stands for one plain vault only: password, lock bit and secrets are determined |
| StoreRefinement.UnlockRefines | internal/store/encrypted.go:114-152 | `Unlock` succeeds exactly for the current password |
| StoreRefinement.SetRefines | internal/store/encrypted.go:224-260 | `Set` puts the stamped, normalized secret at the path, and nothing when locked, not encodable or without a nonce |
| StoreRefinement.SetThenGet | internal/store/encrypted.go:197-260 | in any store, what a successful `Set` stored is what `Get` reads back at its path, as `StampedIsReadBack` says, and every other path answers as before |
| StoreRefinement.ChangePasswordRefines | internal/store/encrypted.go:425-492 | changes the password and nothing else, or nothing at all for a wrong password or a missing random draw |
| StoreRefinement.CallRefines | internal/store/encrypted.go:57-492 | every call whose own file operations succeed, and a restart of the process, gives the plain machine's answer and keeps the states related; without random data both refuse and change nothing |
| StoreRefinement.RunRefines | internal/store/encrypted.go:57-492 | so does every run of such calls, from any pair of related states |
| StoreRefinement.StoreIsPlainMap | internal/store/encrypted.go:57-492 | from an empty directory, every answer of every run in which file operations succeed, over any number of restarts and failing random draws, is that of a plain map with a password and a lock bit |
| StoreFaults.GapIsExact | internal/store/encrypted.go:482-489 | the files after `ChangePassword` tried to write its metadata over old entries: new metadata is coherent exactly when there are no entries or the key did not change; what a failed write leaves, exactly when it is no file, or still the old key's, or there are no entries |
| StoreFaults.InitializeGapIsExact | internal/store/encrypted.go:96-98 | the same for `Initialize` over leftover entries: if some key opens them, new metadata is coherent exactly when there are none or the key is that one, and what a failed write leaves, exactly when it is no file, that key's own, or there are none; if no key opens them, only when there is no metadata |
| StoreFaults.CallIsExact | internal/store/encrypted.go:96-103 | for every call, whatever fails and whatever the files hold, if only the key in use opens what is in memory: each write leaves coherent files exactly when it fits. The first write of `Initialize` and `ChangePassword` fits when the entries already on disk open under the new key; a save of `Set`, `Delete` or `Lock` when the metadata is that of the key in use, or there is none, or no entry is saved |
| StoreFaults.MemoryOpensExactly | internal/store/encrypted.go:145-149 | the key in use opens what is in memory until an `Unlock` succeeds on files whose metadata is of another key than their entries |
| StoreFaults.MixedFilesAreIncoherent | internal/store/encrypted.go:114-152 | for metadata with a salt those are exactly the incoherent files that `Unlock` accepts |
| StoreFaults.CallStaysSound | internal/store/encrypted.go:96-103 | memory and files stay under one key exactly when the call survives its failed writes |
| StoreFaults.DiskIsCoherent | internal/store/encrypted.go:252-256 | in every run of a new store on any files, whatever fails: as long as no `Unlock` succeeds on mixed files, every single write leaves coherent files exactly when it fits; on coherent files this and one key for memory and files last as long as every call survives its failed writes |
| StoreFaults.RunsFromNoFilesAreCoherent | internal/store/encrypted.go:96-103 | starting with no files, in every run whose writes succeed, whatever reads and random draws fail: one password opens both files after every single write, except after the first of `ChangePassword`, where it does exactly when there are no entries on disk or the key did not change |
| StoreFaults.CoherentFilesUnlock | internal/store/encrypted.go:114-152 | files with metadata and a salt are coherent exactly when some password unlocks a new store on them with every entry readable |
| StoreFaults.UnlockSucceedsExactly | internal/store/encrypted.go:114-152 | exactly when `Unlock` succeeds; what a wrong password and a failed load of the entries leave |
| StoreFaults.BirthIsKept | internal/store/encrypted.go:80-87 | `Initialize` sets version and creation time of the vault, no other call changes them |
| StoreFaults.UnlockTimeIsKept | internal/store/encrypted.go:185-189 | only `Initialize` and `Unlock` change the unlock time, when they make a key |
| StoreFaults.RetriedInitializeLosesSecret | internal/store/encrypted.go:61-103 | `/init` fails before its metadata is on disk, a `Set` succeeds, and a retried `Initialize` succeeds: its first write is not coherent and the secret is gone |
| StoreFaults.FailedMetadataThenSetLosesEverySecret | internal/store/encrypted.go:482-489 | `ChangePassword` fails on its metadata and a later `Set` succeeds: `Lock` succeeds, only the old password unlocks, and no secret can be read |
| StoreFaults.CallStaysTracked | internal/store/encrypted.go:252-278 | unlocked and not dirty implies the data file decodes to the map in memory; saves in `Set`, `Delete` and `Lock` may fail arbitrarily, those of `Initialize` and `ChangePassword` must succeed |
| StoreFaults.LockSavesOrKeeps | internal/store/encrypted.go:154-176 | after any run in which the saves of `Initialize` and `ChangePassword` succeed, locking leaves exactly the map on disk, or fails and changes nothing in memory; for either `autoSave` and any files to start with |
| StoreFaults.UnlockDropsUnsavedSecret | internal/store/encrypted.go:145-149 | a `Set` whose save fails is in memory; unlocking the open vault again succeeds and drops it |
| StoreFaults.ChangePasswordAbortsCleanly | internal/store/encrypted.go:431-480 | it gets to its first write exactly when the password is right and randomness is there; otherwise nothing changed |
| StoreFaults.ChangePasswordTracksExactly | internal/store/encrypted.go:471-489 | memory and disk stay in step however its two saves end exactly when the store was dirty before the call |
| StoreFaults.ChangePasswordTracksWhen | internal/store/encrypted.go:471-489 | and for one outcome of the saves, exactly when they do |
| StoreFaults.FailedSaveLosesEverySecret | internal/store/encrypted.go:482-489 | metadata saved and data not: `Lock` succeeds without writing, only the new password unlocks, and no secret can be read |
| Handlers.Server.HandleSet | internal/daemon/server.go:467-489 | stores the requested value, fields and tags, unless locked |
| Handlers.Server.HandleExport | internal/daemon/server.go:589-623 | the export loop over the sorted listing, leaving out what cannot be read |
| Handlers.Server.HandleImport | internal/daemon/server.go:642-685 | the import loop as a fold over the entries, with its three counters |
| Handlers.Server.HandleSearch | internal/daemon/server.go:517-571 | exactly the wanted paths, sorted and without duplicates: those the pattern matches, or if it matches none, those in which its core occurs |
| Handlers.MatchesAreWanted | internal/daemon/server.go:522-566 | the matching loops keep exactly the wanted paths of a listing; the fallback only when no path matches |
| Handlers.TrimmedLosesStars | internal/daemon/server.go:560 | the core is the pattern without one star at each end where it has one |
| Handlers.StarsAroundCore | internal/daemon/server.go:560 | a pattern with or without a star at each end has the same core; of more stars one at each end goes |
| Handlers.ContainsIsOccurs | internal/daemon/server.go:561-565 | a path contains the core exactly when the core stands at some position in it, ends included |
| Handlers.FilterLists | internal/daemon/server.go:537-566 | a filtered listing is the sorted listing of what was kept |
| Handlers.HitsAreWanted | internal/daemon/server.go:545-552 | a malformed glob pattern is a prefix, without its final `*` |
| ImportExport.ImportCountsEveryEntry | internal/daemon/server.go:647-684 | imported, skipped and errors add up to the entries, whatever fails |
| ImportExport.ImportCountersAreExact | internal/daemon/server.go:654-685 | whichever stores fail: an entry is skipped exactly when merge is on and the vault had its path or an earlier entry brought it, saved or not; it is an error exactly when it is not skipped and cannot be sealed or saved; all others count as imported |
| ImportExport.ImportTouchesOnlyItsPaths | internal/daemon/server.go:649-677 | whatever fails: no path is lost, merge leaves existing paths alone, unmentioned paths keep their entry |
| ImportExport.ImportRefines | internal/daemon/server.go:647-677 | without failures, importing into the store is the fold on the plain map, nothing errs, and `imported` counts all entries, or with merge the paths gained |
| ImportExport.LastEntryWins | internal/daemon/server.go:649-677 | without merge the last entry for a path wins |
| ImportExport.FirstEntryWins | internal/daemon/server.go:651-657 | with merge the first entry for a new path wins |
| ImportExport.DaemonRunStaysTextual | internal/daemon/server.go:474-480 | no entry the daemon writes, in memory or on disk, carries bytes, whatever reads, writes and random draws fail, as long as a failed write leaves no foreign entries |
| ImportExport.PutThenGet | internal/daemon/server.go:434-489 | what was put is read back, with empty fields and tags as none and no expiry, and every other path answers as before |
| ImportExport.OneSecretSurvives | internal/daemon/server.go:607-669 | fields and tags always survive, the value as JSON passes it; the content is unchanged exactly when the value passes and the expiry is not the zero time, and the whole secret exactly when its value moreover was not bytes |
| ImportExport.ExportThenImport | internal/daemon/server.go:594-677 | for every open vault, however it came about, a full export imported without failures into a new vault has exactly the readable paths, and at each of them what `OneSecretSurvives` says |
| ImportExport.NothingIsLost | internal/daemon/server.go:594-677 | after any run in which file operations succeed, the copy has the same paths |
| ImportExport.DaemonSecretsComeBackWhole | internal/daemon/server.go:474-677 | for a vault only the daemon has written to (failed writes leaving no foreign entries, and JSON leaving strings it decoded alone), every readable secret comes back whole exactly when its expiry is not the zero time |
| ImportExport.ZeroExpiryIsReachable | internal/daemon/server.go:667-669 | import stores a zero expiry exactly for an expiry within the first second |
| ImportExport.HalfSecondExpiryIsLost | internal/daemon/server.go:615-617 | a concrete expiry that export and import lose |
| DaemonProtocol.StepIsSafe | internal/daemon/server.go:213-722 | every step of every handler, timer and callback keeps the mutex discipline, the passed checks and the timers' bound |
| AutoLock.StepIsGuarded | internal/daemon/server.go:707-722 | every step keeps a lock on its way to an open vault, with failing saves accounted for |
| DaemonProtocol.CheckThenAct | internal/daemon/server.go:414-431 | in every interleaving a handler that passed its check finds the vault open until it leaves; `ChangePassword` never meets a nil crypto object and no call is refused as locked |
| DaemonProtocol.WhoMayComeIn | internal/daemon/server.go:344-345 | listing, search, export and status come in together as long as only such are inside, everyone else only when nobody is |
| DaemonProtocol.ReadersFreezeStore | internal/daemon/server.go:349-360 | while a reader is inside, no step of anyone changes the store |
| DaemonProtocol.WriterOwnsStore | internal/daemon/server.go:414-416 | while a writer is inside, only its own calls change the store, and nobody else comes in, checks or calls |
| AutoLock.OpenVaultWillLock | internal/daemon/server.go:707-722 | in every interleaving in which the saves of `Initialize` and `Lock` succeed, an open vault has a running or fired timer due within one period of the last reset, or a handler about to arm one or to lock |
| AutoLock.FailedSaveIsGuardedExactly | internal/daemon/server.go:292-299 | when a `Lock` or `Initialize` fails and leaves the vault open, a lock is still on its way exactly when some other timer is running |
| AutoLock.TimelyStopsBuyAPeriod | internal/daemon/server.go:708-716 | in every interleaving in which each timer is armed after the one before was stopped in time, no callback locks before a full period since the last reset |
| AutoLock.ResetBuysAPeriodExactly | internal/daemon/server.go:708-716 | at any reset, with any threads inside and any timers left over: no way of going on locks the open vault before a full period exactly when every timer still running was armed at that same moment |
| AutoLock.EveryResetBuysAPeriodExactly | internal/daemon/server.go:708-716 | so it is for every reset of every interleaving |
| Resets.SuccessResetsTimer | internal/daemon/server.go:707-722 | in every interleaving, when a handler leaves: if its work succeeded it has armed exactly one timer while inside, due a full period or more after it came in, and the timer it found was stopped or had fired; any other handler, `/lock`, `/password`, `/status` and refusals included, has armed none |
| AutoLockGaps.FailedInitLeavesVaultOpen | internal/daemon/server.go:239-244 | a run in which `/init` fails and leaves the vault open with nobody inside and no lock on its way |
| AutoLockGaps.FailedLockLeavesVaultOpen | internal/daemon/server.go:289-299 | a run from an empty directory in which a PUT cannot be saved and then `/lock` fails, with the same outcome |
| AutoLockGaps.InitLeavesQuietVault | internal/daemon/server.go:239-245 | a successful `/init` can leave an open, saved, empty vault with exactly one running timer and nobody inside |
| AutoLockGaps.ResetMayNotDelayLock | internal/daemon/server.go:708-716 | from every such vault there is a run that resets the timer and is locked at that same moment |
| AutoLockGaps.ResetsAtOnceAbandonTimer | internal/daemon/server.go:708-716 | from every such vault there is a run in which two searches reset at once and leave the vault open with a running timer that, however things go on, nobody stops before its callback locks |
| AutoLockGaps.AbandonedRunsOn | internal/daemon/server.go:708-716 | no step but its own callback's lock ends a timer that no field or handler refers to |
| Linearization.StepStaysSerial | internal/daemon/server.go:213-722 | every step of every handler, timer and callback keeps those who have left served whole, one after the other, and those inside alone with the store |
| Linearization.HandlersAreAtomic | internal/daemon/server.go:213-722 | in every interleaving, whatever fails, handlers and callbacks have made their calls and got their answers as if each had the store for itself from its check to its last call, in the order in which they leave |
| Linearization.DaemonIsPlainMap | internal/daemon/server.go:213-722 | in every interleaving of a daemon started on the files of a plain vault, or on none, in which file operations succeed, the calls of each handler as a whole are answered as a plain map answers them, in the state the handlers before it left |
| Linearization.DaemonMayRestart | internal/daemon/server.go:213-722 | such a daemon may stop at any step, whoever is inside: its files hold the same plain vault, locked, so this holds again for the next one |
| ServedRequests.EveryRequestIsServed | internal/daemon/server.go:213-685 | in every such interleaving, what every served request was told and made of the plain vault it found: `/init`, `/unlock`, `/lock`, `/password`, GET, PUT and DELETE of a secret, listing, search, export and import, each with its refusals; a request that needs an open vault makes no call and changes nothing when it is locked or missing |
| ServedRequests.PutIsServed | internal/daemon/server.go:467-489 | a PUT leaves the requested value, fields and tags at its path, both times to the second, and all other secrets alone |
| ServedRequests.ReaderIsServed | internal/daemon/server.go:344-412 | a listing and an export are told every secret with the prefix, in order, and change nothing |
| Linearization.DaemonKeepsDiskCoherent | internal/daemon/server.go:213-722 | in every interleaving on any files, whatever fails, the writes are those of one run of the store, and all of `DiskIsCoherent` holds of it |
| WholeHandlers.OneCallIsWhole | internal/daemon/server.go:213-515 | a handler with one store call makes the one its request stands for, arguments in order, on the store it found |
| WholeHandlers.ExportIsWhole | internal/daemon/server.go:583-623 | an export answers with the export of one store, whatever runs at the same time, and changes nothing |
| WholeHandlers.SearchIsWhole | internal/daemon/server.go:517-571 | a search lists exactly the wanted paths of one store |
| WholeHandlers.ImportIsWhole | internal/daemon/server.go:636-685 | an import does to the store it found what the import loop does, meeting only what its own calls met, and answers with its three counters |
| WholeHandlers.FaultlessImportIsWhole | internal/daemon/server.go:636-685 | if none of its calls meets a failure it is the fold on the plain vault and counts no errors |
| WholeHandlers.EveryHandlerIsWhole | internal/daemon/server.go:213-722 | in every interleaving, whatever fails, every handler that has left made the calls its request stands for, and answered all this, on the store that those before it left |
| WholeHandlers.DaemonExportsEverything | internal/daemon/server.go:583-677 | the answer of a full export in any interleaving of a daemon started on any files, whatever failed before it, imported without failures into a new vault: `ExportThenImport` holds of the store the export found |
| WholeHandlers.DaemonExportsWhole | internal/daemon/server.go:583-677 | on files without bytes, failed writes leaving no foreign entries and JSON leaving strings it decoded alone, every readable secret comes back whole exactly when its expiry is not the zero time |
| Shell.ShellSafeKey | internal/output/shell.go:9-31 | the rune loop computes the key the lemmas are about |
| Shell.SafeKeyIsName | internal/output/shell.go:5-8 | the key of a non-empty string is an upper-case shell Name (section 3.235 of POSIX.1-2017 XBD), and its own key |
| Shell.SafeKeySpells | internal/output/shell.go:9-31 | character by character: capitals, digits and `_` stay, small letters turn capital, every other rune is one `_`; a leading digit gets a `_` in front |
| Shell.FieldNameIsName | internal/output/writer.go:114 | every `prefix_field` name is an upper-case Name, even for an empty prefix or field |
| Shell.FieldNameSpells | internal/output/writer.go:114 | it spells the path, then has a `_`, then spells the field |
| Shell.Writer.WriteShellSecret | internal/output/writer.go:103-120 | writes one line per intended export |
| Shell.IntendedAssigns | internal/output/writer.go:103-120 | the intended exports: the value, unless empty, under the name that spells the path, then the fields in sorted order, each with its value under the name that spells path and field |
| ShellLexer.LexEscaped | internal/output/shell.go:35-40 | inside single quotes the escaped text reads back as the value, quotes and newlines included |
| ShellLexer.SourceUndoesLines | internal/output/shell.go:42-45 | a shell reading printed lines makes exactly those exports, or stops, and stops exactly for a bad name or a NUL |
| ShellLexer.SourceUndoesPrinter | internal/output/writer.go:103-120 | for every secret, sourcing the output makes exactly the intended exports, value first and then the sorted fields, each under its spelled name, if and only if values are NUL-free and a value comes with a path |
| Flags.ParseFlags | cmd/omnivault/flags.go:37-117 | the loop computes the meaning of the items the arguments are read as |
| Flags.ParseUndoesPrint | cmd/omnivault/flags.go:52-114 | printed items are read back exactly when each fits its place |
| Flags.PrintUndoesParse | cmd/omnivault/flags.go:52-114 | for every input, printing what was read gives the arguments back: each is consumed once |
| Flags.LastFlagWins | cmd/omnivault/flags.go:61-85 | the last item that sets a flag decides its value |
| Flags.UnsetFlagIsAbsent | cmd/omnivault/flags.go:19-35 | a flag no item sets is absent |
| Flags.BooleansAccumulate | cmd/omnivault/flags.go:68-72 | a boolean is set exactly when some item sets it |
| Flags.PositionalsAreStable | cmd/omnivault/flags.go:111-113 | the positional arguments of any input, parsed again with any boolean flags, come out as they are, in order, with no flag set |
| SecretObjects.SecretObject.SetField | vault/types.go:28-53 | afterwards `GetField` gives the new value for exactly the names that mean the field set, and what it gave before for all others; an existing map is changed in place, a missing one made |
| MemoryProvider.CopyMap | providers/memory/memory.go:189-201 | a fresh map with the same entries; nil stays nil |
| MemoryProvider.Provider.CopySecret | providers/memory/memory.go:173-209 | looks the same, version included; bytes, fields, tags and labels are fresh objects; all three timestamps and `Extra` are the same objects |
| MemoryProvider.Provider.Get | providers/memory/memory.go:49-65 | a fresh copy of what is stored; no client ever holds an object of the store |
| MemoryProvider.Provider.Set | providers/memory/memory.go:67-87 | stores a copy whose bytes, fields, tags and labels are its own; its creation time is the caller's or now, its modification time always a new one; expiry and `Extra` stay shared with the caller |
| MemoryProvider.Provider.Delete | providers/memory/memory.go:89-100 | removes the path unless closed |
| MemoryProvider.Provider.List | providers/memory/memory.go:115-131 | exactly the matching paths, each once |
| MemoryProvider.Provider.Close | providers/memory/memory.go:150-157 | closed and empty |
| MemoryProvider.Provider.Clear | providers/memory/memory.go:159-164 | empty, and closed stays closed |
| MemoryProvider.Provider.ClientsCannotReachIn | providers/memory/memory.go:63-76 | whatever is done to any objects the store does not own, those exchanged with it and all others, it reads as before |
| References.Scheme | vault/types.go:175-184 | the scan finds what stands before the first colon |
| References.Path | vault/types.go:186-202 | the scan finds what stands between the first `://` and the next `#` |
| References.Fragment | vault/types.go:204-213 | the backward scan finds what stands after the last `#` |
| References.ReferenceWithFragment | vault/types.go:163-213 | scheme, path and fragment come back exactly when scheme has no colon and path and fragment no `#` |
| References.ReferenceWithoutFragment | vault/types.go:163-213 | without a fragment they come back exactly when scheme has no colon or `#` and path no `#` |
| References.PlainStringsStayWhole | vault/types.go:175-213 | without `://` the path is the whole string; exactly when scheme and fragment are empty |
| ResolverObject.Resolver.ResolveSecret | resolver.go:76-107 | routes by scheme, and picks the field a fragment names |
| ResolverObject.Resolver.ResolveAll | resolver.go:118-130 | succeeds exactly when every reference does, with each one's value; otherwise fails as the first that fails |
| ResolverObject.Resolver.ResolveMap | resolver.go:161-173 | for every iteration order, succeeds exactly when every value resolves, with the same keys and each value its own resolution |
| ResolverObject.ReferenceResolves | resolver.go:60-107 | a well-formed reference resolves to the field its fragment names, or without one to the bytes or else the value of the secret; the secret behind it keeps its metadata |
| ResolverObject.LeftAloneExactly | resolver.go:146-159 | exactly which strings are left alone whatever the providers |
| ResolverObject.HostPortIsTakenForReference | resolver.go:146-159 | every `host:port` with three or more characters after the colon is taken for a reference and fails |

## Left out

- `Shutdown`, `handleStop`, `Run`, sockets, PID files and HTTP routing: process control; `Shutdown` locks the store without the daemon's mutex and would break the interleaving theorems.
- Timers firing on time: a timer may fire any time after it is due, so nothing is said about how soon a waiting callback gets the mutex.
- Metadata shown by `handleSecrets` and `getSecret`, `handleStatus` (it decides nothing and changes nothing), requests refused before the mutex is taken, and text, JSON and YAML output: one branch each.
- `NewWithSecrets`, `MustResolve`, `Schemes`, and `Close` of the resolver: they would only add easy members.
- Panics of Argon2id on zero parameters in a hand-edited `vault.meta`: key derivation is total here.
- Widths of integers: parameters, sizes and instants are unbounded.
- Time zones, and years outside 0 to 9999 that RFC 3339 cannot express: an instant is a number of nanoseconds.
- Secrecy, timing and the strength of passwords: the ideal operations say nothing about them.
- The iteration order of a map within one call is any order; what two loops over the same map have in common is not modelled.
- EncryptedStoreObject.EncryptedStore.Set: the caller's secret is one object with a value in it; that the new timestamp objects are separate ones is not modelled here.
- MemoryProvider.Provider.ClientsCannotReachIn: covers the value, bytes, fields, tags, labels, version, provider and path; timestamps and `Extra` are shared by the code.
- The remaining providers, `internal/client`, `internal/config` and the other commands are not part of this model.
