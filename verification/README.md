# libjcat, modelled and proved in Dafny

libjcat keeps detached signatures and checksums in a catalogue.  A file holds items, an item has an ID, aliases and
blobs, and a blob is one signature or checksum.  A context owns one engine for each kind of blob; the engines load
public keys the first time they are used, and the context decides from their answers whether an item is to be trusted.
The cryptography itself is done by GnuTLS, GPGME and GLib; what libjcat decides around it is the subject of this
project.

Values are datatypes (`BlobV`, `ItemV`, `FileV`, `EngineV`, `ContextV`).  Objects whose methods change their fields are
classes (`JcatBlob`, `JcatItem`, `JcatFile`, `Builder`, `Tool`, `JcatEngine`, `JcatContext`, `BtCheckpoint`,
`BtVerifier`); every method is proved to do what a function on values says, and the theorems are about those functions.

| file | source | subject |
|---|---|---|
| `Verify.dfy`, `Context.dfy`, `Verification.dfy`, `Decision.dfy` | `jcat-context.c` | the passes of `verify_item` and `verify_target`, the classes that run them, and what they decide |
| `Engine.dfy`, `Keyring.dfy` | `jcat-engine.c`, `jcat-gnutls-ed25519-engine.c`, `jcat-gpg-engine.c`, `jcat-sha256-engine.c` | lazy setup, failed setup, the keyring over a run |
| `Signatures.dfy` | `jcat-gnutls-pkcs7-engine.c`, `jcat-gpg-engine.c` | the loops over several signatures of one blob |
| `Allowlist.dfy` | `jcat-context.c` | the mask of permitted kinds |
| `Json.dfy`, `Base64.dfy`, `Blob.dfy`, `Item.dfy`, `File.dfy` | `jcat-blob.c`, `jcat-item.c`, `jcat-file.c` | the JSON form of a catalogue, its round trips, and lookup |
| `Tool.dfy`, `History.dfy` | `jcat-tool.c` | the editing commands and what every run of them keeps |
| `Text.dfy`, `Notes.dfy` | `jcat-bt-checkpoint.c`, `jcat-bt-verifier.c` | the two transparency-log notes |
| `Bits.dfy` | `jcat-common.c` | the 64-bit helpers |
| `Bundle.dfy` | `contrib/win32/bundle.sh` | the import walk |

`dafny verify dfyconfig.toml` checks everything.

Two facts about the libraries underneath matter here.  A `GBytes` made by `g_bytes_new` from nothing has no buffer, and
`g_strndup` of that is NULL and not an empty string; and json-glib's builder adds a NULL string as null.

## What does not hold

Each of these has a lemma at concrete inputs and one that says exactly when it does hold.

- A text that is empty, or that starts with a NUL, does not survive two exports: it is written as an empty string, read
  as data without a buffer, written as null, and then no longer read (`File.EmptyTextIsLost`; exactly
  `File.RereadExactly` and `File.QuietExportIsStable`).  So importing an empty text file makes the next successful
  command write a catalogue that no command can read (`History.EmptyTextLocksStore`; exactly `History.RunIsReadable`).
- An import command with an empty ID writes a catalogue that no later command can read (`History.EmptyIdLocksStore`;
  exactly `History.WrittenIsReadable`).
- The documentation of `jcat_context_blob_kind_allow` says that once it has been called only the kinds named are used.
  A disallow before the first allow that no allow revokes breaks this: the mask is then not all ones and is never
  cleared (`Allowlist.DisallowThenAllow`; exactly `Allowlist.OnlyAllowedKindsUsed`).
- The documentation of `jcat_context_verify_target` says that at least one checksum must exist.  The code asks for one
  only when the flag says so (`Verification.NoChecksumNeeded`; exactly `Verification.TargetWithoutChecksum`).
- A text checksum with a NUL behind it passes `verify_target` but not `verify_item` (`Verification.NulPassesTarget`;
  exactly `Verification.ChecksAgreeOnText`).
- The order of signature blobs matters when GPG can create its context but not configure it: the first call fails, and
  the next takes the context left behind for a configured one.  Whatever GPG answers, order is irrelevant exactly when
  no engine that is in use can get into that state (`Verification.UnsettledFails`, `Verification.HalfWayIsUnsettled`;
  exactly `Verification.SettledIsNeeded`).
- On a case-sensitive file system the import walk can miss a DLL that is imported under two spellings
  (`Bundle.MixedCaseIsMissed`; exactly, over all imports, `Bundle.SpellingsDecide`).
- A minus sign in front of the size of a checkpoint defeats its overflow bound (`Notes.NegativeSizeWraps`, for all
  digits).

## Model

| member | source | states |
|---|---|---|
| Decision.VerifyItemIsExact | libjcat/jcat-context.c:329-434 | for every blob list, flag set and environment, `verify_item` succeeds exactly when every blob of an allowed checksum engine holds the digest of the data, each required kind of result exists and at least one result exists; the results are the checksums and then the accepted signatures, both in blob order |
| Decision.VerifyTargetIsExact | libjcat/jcat-context.c:451-587 | the same for `verify_target`, where a checksum is compared by text with the only blob of its kind in the target, and ignored when there is none |
| Decision.VerifyBlobIsExact | libjcat/jcat-context.c:238-260 | `verify_blob` succeeds exactly on the right digest and on a signature its engine accepts |
| Decision.SelfVerifyIsExact | libjcat/jcat-engine.c:179-200 | self-verification succeeds exactly on the right checksum or on a signature by the machine's own key, once setup has ended well; GPG has none and is not set up for it |
| Decision.EngineIsExact | libjcat/jcat-context.c:196-222 | an engine is found exactly when its kind's digit is set in the mask and it is the first of the kind |
| Decision.ItemOutcome | libjcat/jcat-context.c:355-377 | a blob is ignored, right or wrong by the mask, the engines and the digest |
| Decision.TargetOutcome | libjcat/jcat-context.c:486-515 | a blob is ignored exactly when it is no allowed checksum or the target has not exactly one blob of the kind, and otherwise right exactly when the texts are equal |
| Decision.TargetSignature | libjcat/jcat-context.c:527-566 | a signature gives a result exactly when its engine accepts it over the only blob of its target kind |
| Decision.ItemObeysMask | libjcat/jcat-context.c:196-222 | in any state `verify_item` does exactly what it would without the blobs of kinds not allowed, and returns no result of such a kind |
| Decision.TargetObeysMask | libjcat/jcat-context.c:196-222 | and so does `verify_target` |
| Decision.TraceLimitsResults | libjcat/jcat-context.c:262-310 | after any trace of allows and disallows, both return only results of kinds that the set machine permits |
| Verification.VerifyItemByBlobs | libjcat/jcat-context.c:355-433 | the stateful passes of `verify_item` decide by what each blob would be answered alone |
| Verification.SettledIsNeeded | libjcat/jcat-context.c:355-433 | whatever the foreign libraries answer, order never matters and the decision is the one taken blob by blob, if and only if every engine a blob can reach is settled |
| Verification.UnsettledFails | libjcat/jcat-gpg-engine.c:161-258 | in any context with a reachable engine that is not settled, two blobs in two orders get different verdicts |
| Verification.HalfWayIsUnsettled | libjcat/jcat-gpg-engine.c:161-258 | such a context exists: GPG created but not configured |
| Verification.VerifyItemPermuted | libjcat/jcat-context.c:355-433 | permuting the blobs keeps the verdict and the multiset of results, whichever engine sets up first |
| Verification.MoreBlobsNeverHurt | README.md:237-242 | a blob that no allowed checksum engine handles, inserted anywhere, never turns success into failure, and the old results stay a subsequence of the new; no assumption about engines |
| Verification.VerifyItemIsVerifyBlobs | libjcat/jcat-context.c:238-260 | a successful `verify_item` is `verify_blob` over the checksums and then over the signatures, each call starting from whatever state earlier calls left |
| Verification.CallsKeepVerdicts | libjcat/jcat-engine.c:57-86 | after any sequence of calls every reachable engine still answers as at the start |
| Verification.VerifyTargetByBlobs | libjcat/jcat-context.c:477-586 | and so do those of `verify_target` |
| Verification.TargetWithoutChecksum | libjcat/jcat-context.c:436-572 | without a matching checksum `verify_target` succeeds exactly when none was required and a signature verifies |
| Verification.NoChecksumNeeded | libjcat/jcat-context.c:436-572 | an item without any checksum that `verify_target` accepts |
| Verification.NulPassesTarget | libjcat/jcat-context.c:493-513 | a checksum with a NUL behind it that `verify_target` accepts and `verify_item` refuses |
| Verification.TargetSignsExactly | libjcat/jcat-context.c:529-566 | a signature counts for `verify_target` exactly when it names a target kind, the target item has one blob of that kind, and it verifies over that blob's bytes |
| Verification.ChecksAgreeOnText | libjcat/jcat-context.c:493-513 | for a text blob the check of `verify_target` agrees with that of `verify_item`, except exactly for the right checksum followed by a NUL |
| Verification.TargetChecksAreItemChecks | libjcat/jcat-context.c:477-516 | against one self-signed checksum per kind, the checksum pass of `verify_target` over NUL-free text blobs gives verdict and results of the pass of `verify_item` |
| Verification.RunIsDecision | libjcat/jcat-context.c:355-433 | from any state with the same verdicts, the two passes compute the decision taken blob by blob |
| Verification.ChecksCollect | libjcat/jcat-context.c:355-377 | the checksum pass fails exactly on a mismatch and otherwise collects the matches in order, whatever is set up on the way |
| Verification.SignaturesCollect | libjcat/jcat-context.c:385-415 | the signature pass collects the good signatures in order, whatever is set up on the way |
| Verification.CollectPermuted | libjcat/jcat-context.c:385-415 | collecting from permuted lists gives the same multiset |
| Verification.SignaturesInsert | libjcat/jcat-context.c:385-415 | one more blob in the signature pass leaves the old results a subsequence |
| Verification.ChecksInsert | libjcat/jcat-context.c:355-377 | a blob without an allowed checksum engine is not there for the checksum pass |
| Context.JcatContext.VerifyItemOf | libjcat/jcat-context.c:329-434 | the method with its two loops computes `VerifyItem`, results and new engine states |
| Context.JcatContext.CheckItem | libjcat/jcat-context.c:355-377 | the checksum loop, which stops at the first mismatch |
| Context.JcatContext.CheckSignatures | libjcat/jcat-context.c:379-433 | the signature loop with the three final conditions |
| Context.JcatContext.VerifyTargetOf | libjcat/jcat-context.c:451-587 | the method computes `VerifyTarget` |
| Context.JcatContext.CheckTarget | libjcat/jcat-context.c:477-516 | the target's checksum loop compares texts, NULL ones included, and changes nothing |
| Context.JcatContext.VerifyBlobOf | libjcat/jcat-context.c:238-260 | one verification changes only the engine asked |
| Context.JcatContext.GetEngineOf | libjcat/jcat-context.c:196-222 | the first engine of an allowed kind, or none |
| Context.JcatContext.BlobKindAllow | libjcat/jcat-context.c:273-287 | the mask after an allow |
| Context.JcatContext.BlobKindDisallow | libjcat/jcat-context.c:300-310 | the mask after a disallow |
| Context.JcatContext.AddPublicKeyFile | libjcat/jcat-context.c:94-101 | appends one key file |
| Context.JcatContext.New | libjcat/jcat-context.c:58-83 | all kinds allowed, no keys, no engine set up |
| Context.JcatEngine.SetupEngine | libjcat/jcat-engine.c:57-86 | setup stops at the first file that fails and keeps the keys loaded before it |
| Context.JcatEngine.LoadKeys | libjcat/jcat-engine.c:75-83 | the loading loop |
| Context.JcatEngine.PubkeyVerifyEngine | libjcat/jcat-engine.c:102-123 | a class without the hook fails before setup, and a failed setup before the class is asked |
| Context.JcatEngine.SelfVerifyEngine | libjcat/jcat-engine.c:179-200 | a class without the hook fails before setup; a checksum is compared after it |
| Context.JcatEngine.AddRawKey | libjcat/jcat-engine.c:245-261 | a raw key goes behind the keys of the files |
| Context.JcatEngine.VerifyEd25519 | libjcat/jcat-gnutls-ed25519-engine.c:152-186 | succeeds exactly when some key of the ring verifies |
| Context.JcatEngine.AddPublicKey | libjcat/jcat-gnutls-ed25519-engine.c:137-150 | a file without the suffix is skipped; a bad one fails and adds nothing |
| Context.JcatEngine.ClassSetup | libjcat/jcat-gpg-engine.c:161-258 | the GPG context is kept even when configuring it failed |
| Engine.SelfSignVerifies | libjcat/jcat-sha256-engine.c:20-52 | a checksum verifies exactly when it is the one that signing makes |
| Engine.AnswerIsExact | libjcat/jcat-engine.c:102-123 | from any state of an engine, a signature verifies exactly when setup has ended well or will, and one of the keys, or the foreign library with all of them, accepts it |
| Engine.LoadIsExact | libjcat/jcat-engine.c:75-83 | loading stops at the first file that cannot be loaded and keeps the keys of those before it |
| Engine.SetupLeaves | libjcat/jcat-engine.c:57-86 | what an attempt at setup leaves behind, in every case |
| Engine.RawKeyIsExact | libjcat/jcat-engine.c:245-261 | a raw key is taken exactly by an ED25519 or PKCS7 engine whose setup ends well, if it can be imported, and goes behind all others |
| Engine.SuffixMeans | libjcat/jcat-gnutls-ed25519-engine.c:142-144 | what it is to end in the suffix |
| Engine.SetupKeepsVerdict | libjcat/jcat-engine.c:57-86 | for a settled engine, attempting setup changes no answer |
| Engine.SetupKeepsSuccess | libjcat/jcat-engine.c:57-86 | in any case a call that succeeded gives the same result ever after |
| Engine.UnsettledVerdict | libjcat/jcat-gpg-engine.c:161-258 | an unsettled engine fails once and then answers with its misconfigured context |
| Keyring.KeyringShape | libjcat/jcat-engine.c:57-86 | over every run the keyring is the partial loads of the failed setups, each of the key list of its moment, then one complete load, then the raw keys in order |
| Keyring.NoVerifyBeforeCompleteLoad | libjcat/jcat-engine.c:102-123 | until the key files have all been loaded once every verification fails; after that it succeeds exactly when some key of the ring verifies |
| Keyring.RetriesAreHarmless | libjcat/jcat-gnutls-ed25519-engine.c:152-186 | with files that load the same each time, the keys left by failed setups change no verdict |
| Keyring.RetriesInGeneral | libjcat/jcat-gnutls-ed25519-engine.c:152-186 | for any files, the verdict is that of the proper keyring or of a key left behind |
| Keyring.OnlyKeyFilesMatter | libjcat/jcat-gnutls-ed25519-engine.c:137-150 | files without the ED25519 suffix neither add keys nor make loading fail |
| Keyring.LoadedKeys | libjcat/jcat-gnutls-ed25519-engine.c:137-150 | the keys are those of the key files in order, up to the first that cannot be read or holds none |
| Keyring.KeyFilesExactly | libjcat/jcat-gnutls-ed25519-engine.c:142-144 | the key files are those whose name ends in ".ed25519" |
| Keyring.LoadIsPrefix | libjcat/jcat-engine.c:75-83 | a load yields a prefix of all keys, and all of them when it completes |
| Signatures.VerifyPkcs7 | libjcat/jcat-gnutls-pkcs7-engine.c:210-291 | success means every signature passed; the time is the maximum signing time, a time that is not positive counting as 1; the authority is the last record-setting signature with a printable name |
| Signatures.AuthorityOfNewest | libjcat/jcat-gnutls-pkcs7-engine.c:271-279 | the authority is the signer of the newest signature if that name prints, and else of an earlier record or empty |
| Signatures.VerifyGpg | libjcat/jcat-gpg-engine.c:378-398 | success means every signature is valid; time and authority are those of the first signature reaching a positive maximum |
| Allowlist.StepRefines | libjcat/jcat-context.c:273-310 | one operation on the mask is one step of the set machine |
| Allowlist.AllowedIsDigit | libjcat/jcat-context.c:176-181 | a kind is allowed exactly when its binary digit in the mask is one |
| Allowlist.RunRefines | libjcat/jcat-context.c:273-310 | every trace of the mask refines the same trace of the set machine |
| Allowlist.NoSecondReset | libjcat/jcat-context.c:282-286 | after a reset the mask is never all ones again |
| Allowlist.AllowOnlyIsExact | libjcat/jcat-context.c:273-287 | an allow-only trace permits exactly its arguments |
| Allowlist.OnlyAllowedKindsUsed | libjcat/jcat-context.c:262-287 | only named kinds are permitted if and only if some allow met the all-ones mask |
| Allowlist.DisallowThenAllow | libjcat/jcat-context.c:262-310 | the shortest trace for which that fails |
| File.FileRoundTrip | libjcat/jcat-file.c:83-163 | reading an exported catalogue succeeds exactly when there is an item, every item has an ID and a blob, and no text blob is without a buffer; it gives the catalogue back field by field, up to missing times, text after a NUL and repeated aliases |
| File.CatalogueComesBack | libjcat/jcat-file.c:83-163 | the round trip field by field, by bit zero of the flags: binary data comes back whole, text up to its first NUL, times where written, and aliases without repetitions |
| File.RereadExactly | libjcat/jcat-file.c:83-163 | a catalogue that was written and read can be written and read again exactly when no text is empty up to its first NUL |
| File.EmptyTextIsLost | libjcat/jcat-blob.c:294-307 | the smallest catalogues that cannot: one empty text, and one text that is a NUL |
| File.FileAccepted | libjcat/jcat-file.c:83-135 | the trees that can be read, whatever the clock says |
| File.ReimportIsIdentity | libjcat/jcat-file.c:83-163 | a catalogue that was read comes back unchanged exactly when it has an item, every item has a blob, no text is empty and no blob without a time is stamped anew |
| File.QuietExportIsStable | libjcat/jcat-self-test.c:199-215 | without timestamps, export after import after export equals the first export exactly when no alias list repeats an alias and no text is empty up to its first NUL, whatever the clocks say |
| File.ImportedAliasesDistinct | libjcat/jcat-file.c:109-134 | import never brings in a repeated alias |
| File.ImportAppends | libjcat/jcat-file.c:109-134 | past the header checks the items are the old ones followed by the elements read, up to the first that cannot be read |
| File.ImportHeader | libjcat/jcat-file.c:83-108 | without its three members a tree changes nothing; with them the versions are taken over modulo 2^32 |
| File.JcatFile.ImportParser | libjcat/jcat-file.c:83-135 | the method does to the object what `ImportInto` says, also when it fails half way |
| File.JcatFile.ExportBuilder | libjcat/jcat-file.c:137-163 | the builder events give one well-nested tree, `FileTree` |
| File.LookupIsExact | libjcat/jcat-file.c:398-451 | an item is found exactly when it alone has the ID, or nobody has it and it alone carries it as an alias |
| File.JcatFile.GetItemById | libjcat/jcat-file.c:398-451 | the two loops compute `LookupItem` |
| File.JcatFile.AddItem | libjcat/jcat-file.c:499-506 | appends the item |
| Item.ItemRoundTrip | libjcat/jcat-item.c:84-209 | an exported item can be read exactly when ID and blobs are not empty and no text blob is without a buffer |
| Item.ItemAccepted | libjcat/jcat-item.c:84-175 | the objects an item is read from |
| Item.AliasesAccepted | libjcat/jcat-item.c:150-171 | aliases are read exactly when all are strings, without repetitions |
| Item.DecodedItemRestored | libjcat/jcat-item.c:84-209 | an item that was read comes back unchanged exactly when no blob is stamped anew |
| Item.DecodedItemDistinct | libjcat/jcat-item.c:150-171 | the aliases of an imported item are duplicate-free |
| Item.OfKindMember | libjcat/jcat-item.c:240-255 | a blob is among those of a kind exactly when it has the kind |
| Item.OfKindInOrder | libjcat/jcat-item.c:240-255 | and they come in item order, each once |
| Item.BlobByKindIsUnique | libjcat/jcat-item.c:269-295 | a blob is found by kind exactly when the kind is known and it is the only one |
| Item.BlobByKindIsExact | libjcat/jcat-item.c:269-295 | and when there is one, it is that blob |
| Item.AddAliasKeepsDistinct | libjcat/jcat-item.c:346-358 | adding keeps the aliases duplicate-free and the alias is there |
| Item.AddAliasesIsIdentity | libjcat/jcat-item.c:346-358 | adding a list one by one gives it back exactly when it has no duplicates |
| Item.RemoveAliasIsExact | libjcat/jcat-item.c:369-381 | removal takes the alias out and keeps the rest in order |
| Item.JcatItem.AddAliasId | libjcat/jcat-item.c:346-358 | the loop that looks for the alias first |
| Item.JcatItem.RemoveAliasId | libjcat/jcat-item.c:369-381 | the loop removes the first occurrence |
| Item.JcatItem.AddBlob | libjcat/jcat-item.c:306-316 | appends the blob |
| Item.JcatItem.GetBlobsByKind | libjcat/jcat-item.c:240-255 | the blobs of the kind in order; the unknown kind is refused |
| Item.JcatItem.GetBlobByKind | libjcat/jcat-item.c:269-295 | the only blob of a known kind |
| Item.JcatItem.Import | libjcat/jcat-item.c:84-175 | computes `DecodeItem` |
| Item.JcatItem.Export | libjcat/jcat-item.c:177-209 | adds the members of the item |
| Blob.BlobRoundTrip | libjcat/jcat-blob.c:222-337 | an exported blob can be read exactly when it is not text without a buffer; binary data comes back through Base64, text up to its first NUL |
| Blob.ExportedText | libjcat/jcat-blob.c:438-451 | with bit zero of the flags clear the exported text is Base64 of every byte; with it set, the text up to its first NUL, or null without a buffer |
| Blob.DecodedBlobMeans | libjcat/jcat-blob.c:222-310 | what is read from any object that import takes: numbers modulo 2^32, data by bit zero of the flags |
| Blob.BlobExportStable | libjcat/jcat-blob.c:222-337 | without timestamps a blob read back exports as before exactly when its text is not empty up to its first NUL |
| Blob.BlobMember | libjcat/jcat-blob.c:312-337 | which members an exported blob has, and their values |
| Blob.JcatBlob.Import | libjcat/jcat-blob.c:222-310 | computes `DecodeBlob` |
| Blob.JcatBlob.Init | libjcat/jcat-blob.c:43-48 | a new blob is stamped with the current time |
| Blob.JcatBlob.NewFull | libjcat/jcat-blob.c:483-495 | the fields of a new blob |
| Blob.JcatBlob.NewUtf8 | libjcat/jcat-blob.c:560-572 | a text blob gives its text back, and NULL if that was empty |
| Blob.ExportBlob | libjcat/jcat-blob.c:312-337 | adds the members of the blob |
| Base64.DecodeEncode | libjcat/jcat-blob.c:294-306 | Base64 of RFC 4648, section 4, read by GLib's lenient decoder, gives every byte string back |
| Base64.DecodeIgnoresTail | libjcat/jcat-bt-verifier.c:160-171 | text outside the alphabet behind the encoding changes nothing |
| Base64.DecodeSkips | libjcat/jcat-blob.c:294-306 | a character outside the alphabet changes nothing wherever it stands |
| Base64.DecodeDropsRest | libjcat/jcat-blob.c:294-306 | up to three characters behind the last whole group are dropped |
| Base64.EncodeInjective | libjcat/jcat-blob.c:438-451 | different bytes have different texts |
| Base64.EncodeLength | libjcat/jcat-blob.c:438-451 | the text has four characters for every three bytes begun |
| History.RunIsReadable | libjcat/jcat-tool.c:202-533 | over every run of commands from no file, with IDs for imports and no write breaking off, the stored file can be read back exactly when every blob put in had a text and no command succeeded after one that put in an empty text |
| History.RunIsGood | libjcat/jcat-tool.c:202-533 | and whenever it can be read, whatever the clock says, the version is 0.1, item IDs are pairwise distinct, aliases are distinct and every item has an ID and a blob |
| History.LastingRunIsHarmless | libjcat/jcat-tool.c:202-533 | a run whose commands can only bring texts that are not empty meets the condition |
| History.EmptyTextLocksStore | libjcat/jcat-tool.c:272-372 | after importing an empty text file into a new catalogue, the next successful command is the last one |
| History.BrokenStays | libjcat/jcat-tool.c:202-533 | no command changes a file that cannot be read |
| History.NothingIsLost | libjcat/jcat-tool.c:202-533 | however a run goes on, no item moves or changes its ID and no blob is lost, changed or reordered, exactly when the file can still be read or showed nothing before |
| History.EditIsExact | libjcat/jcat-tool.c:202-533 | a successful command changes the one item its ID stands for, and how |
| History.EditSucceeds | libjcat/jcat-tool.c:202-533 | a command can be carried out exactly when there is a detached file, something to sign and a signer that answers, or an item to change; the item of an import need not be new |
| History.CommandSucceeds | libjcat/jcat-tool.c:202-533 | a command succeeds exactly when the catalogue can be read, or is new and the command starts one, it can be carried out, and writing ends well; the version stays |
| History.CommandKeeps | libjcat/jcat-tool.c:202-533 | one command leaves a well-formed catalogue, and keeps what was in it exactly when the file can be read or showed nothing before |
| History.WrittenIsReadable | libjcat/jcat-tool.c:202-533 | what a command writes can be read back exactly when it did not create an item without an ID, the file it read had no empty text, and the blob it put in has a text |
| History.EmptyIdLocksStore | libjcat/jcat-tool.c:272-372 | after such an import into a new catalogue no command succeeds |
| History.FailureChangesNothing | libjcat/jcat-file.c:348-366 | a failing command leaves the stored file as it was, unless it had got as far as writing and the write broke off and left something else |
| Tool.Tool.AddBlobCommand | libjcat/jcat-tool.c:272-533 | import, self-sign and sign compute `Apply` on the stored file |
| Tool.Tool.AliasCommand | libjcat/jcat-tool.c:202-262 | add-alias and remove-alias compute `Apply` on the stored file |
| Notes.CheckpointRoundTrip | libjcat/jcat-bt-checkpoint.c:221-284 | a printed checkpoint is accepted exactly when the size fits 32 bits, the key has 32 bytes and the signature 64, and then every field is what was printed |
| Notes.CheckpointAccepted | libjcat/jcat-bt-checkpoint.c:221-284 | the converse: an accepted note is a printed one up to its Base64 and size texts |
| Notes.PayloadIsPrefix | libjcat/jcat-bt-checkpoint.c:237-246 | the payload is the text through its third newline |
| Notes.SizeIsExact | libjcat/jcat-bt-checkpoint.c:221-284 | a size line of digits, however long, is accepted only with its exact value |
| Notes.NegativeSizeWraps | libjcat/jcat-bt-checkpoint.c:221-284 | with a minus sign the negated size decides: exactly zero and the numbers within 2^32 of 2^64 or past it are accepted, and all from 2^64-1 as size 1 |
| Notes.CheckpointParses | libjcat/jcat-bt-checkpoint.c:221-284 | with any text for the size, the converted size decides whether a printed checkpoint is accepted |
| Notes.CheckpointExact | libjcat/jcat-bt-checkpoint.c:221-284 | any note of six lines of this form is accepted exactly when size, key and signature text convert; the fourth and sixth lines are free |
| Notes.BtCheckpoint.New | libjcat/jcat-bt-checkpoint.c:205-288 | the parser computes `ParseCheckpoint` |
| Notes.VerifierRoundTrip | libjcat/jcat-bt-verifier.c:147-171 | a printed verifier key parses back exactly when the key has 32 bytes, although its Base64 may contain a plus sign, and whatever follows outside the alphabet |
| Notes.VerifierAccepted | libjcat/jcat-bt-verifier.c:147-171 | the converse |
| Notes.VerifierExact | libjcat/jcat-bt-verifier.c:147-171 | any three parts are accepted exactly when the last decodes to 33 bytes |
| Notes.BtVerifier.New | libjcat/jcat-bt-verifier.c:135-175 | the parser computes `ParseVerifier` |
| Text.JoinTokens | libjcat/jcat-bt-checkpoint.c:221-284 | joining inverts splitting |
| Text.TokensJoin | libjcat/jcat-bt-verifier.c:147-171 | splitting inverts joining, also when bounded |
| Text.StrtoullOfDigits | libjcat/jcat-bt-checkpoint.c:221-284 | the 64-bit conversion saturates |
| Text.StrtoullOfNegative | libjcat/jcat-bt-checkpoint.c:221-284 | and a minus sign wraps |
| Text.StrtoullOfLine | libjcat/jcat-bt-checkpoint.c:250-255 | of a line, white space and what follows the digits do not count, and a plus sign changes nothing |
| Text.DecimalValueOfDecimal | libjcat/jcat-bt-checkpoint.c:221-284 | decimal text has the value it was printed from |
| Text.HexValueOfHex | libjcat/jcat-bt-checkpoint.c:205-288 | the hash text reads back to the hint |
| Bits.OnesCount64 | libjcat/jcat-common.c:144-158 | the loop computes the binary digit sum |
| Bits.TrailingZeros64 | libjcat/jcat-common.c:169-183 | the loop finds the largest power of two dividing the word, 64 for zero |
| Bits.Length64 | libjcat/jcat-common.c:195-209 | the loop finds the n with 2^(n-1) <= v < 2^n |
| Bits.FactorOut | libjcat/jcat-common.c:169-183 | a word with k clear low digits is 2^k times a number with the parity of digit k |
| Bits.ClearLowestBit | libjcat/jcat-common.c:144-158 | clearing the lowest set digit lowers the count by one |
| Bits.IsolateLowestBit | libjcat/jcat-common.c:169-183 | v & -v is the largest power of two dividing v |
| Bits.LengthOfLowestBit | libjcat/jcat-common.c:169-209 | the length of v & -v is the trailing zeros of v plus one |
| Bits.LengthUnique | libjcat/jcat-common.c:195-209 | there is only one such length |
| Bundle.ResolveImports | contrib/win32/bundle.sh:63-95 | the loop terminates on every disk, cyclic imports included |
| Bundle.ReadImports | contrib/win32/bundle.sh:73-94 | the inner loop over one file's imports |
| Bundle.RunKeeps | contrib/win32/bundle.sh:63-95 | the invariant of the walk, up to its end |
| Bundle.WalkIsSound | contrib/win32/bundle.sh:59-95 | on every disk built files stay, copies are needed and faithful, and no two differ only in case |
| Bundle.PrefixContent | contrib/win32/bundle.sh:80-87 | a name resolves to the entry under itself, or for want of one to that under its lower-case form |
| Bundle.LowerCaseIsFound | contrib/win32/bundle.sh:80-92 | a disk on which a file is found under the lower-case form and copied under the name imported |
| Bundle.SpellingsDecide | contrib/win32/bundle.sh:59-95 | when the walk starts from every built binary: whatever the files import, exactly the needed DLLs are copied, up to case, if and only if nothing was built or the spellings agree in the two directories |
| Bundle.AgreeingIsExact | contrib/win32/bundle.sh:59-95 | one half: agreeing spellings make every walk exact |
| Bundle.LosingImports | contrib/win32/bundle.sh:75-86 | the other: for spellings that do not agree there are imports that lose a needed DLL |
| Bundle.WindowsSpellingsAgree | contrib/win32/bundle.sh:75-86 | on a case-insensitive file system spellings agree |
| Bundle.WalkIsExact | contrib/win32/bundle.sh:59-95 | for one set of imports and any starting binaries, it is enough that the names imported resolve alike in every spelling |
| Bundle.WindowsFoldsConsistently | contrib/win32/bundle.sh:75-86 | on a case-insensitive file system that is always so |
| Bundle.MixedCaseIsMissed | contrib/win32/bundle.sh:75-86 | a case-sensitive disk on which a needed DLL is missed |

## Left out

- History.RunIsReadable: JSON text, gzip and file access are not modelled, and a stored catalogue is a JSON tree whose
  strings are any bytes without NUL; a text blob, ID or alias that is not UTF-8 is therefore outside these theorems.
- Item.JcatItem.AddBlob: an item holds the values of its blobs, so that a change made to a blob through another
  reference after it was added is not seen.
- JSON numbers that are not integers: the accessors here know integers, booleans and null.
- GObject plumbing: reference counts, properties, NULL guards and the wording of errors.
- Kind names, file extensions and the choice of a detached file's kind: the import command carries kind and flags.
- Foreign cryptography: checksums, signature checks and key files are deterministic functions in `Env`.
- Signing by the engines, their own keys and key generation: a sign command carries its signer, and checking against the
  machine's own key is a function in `Env`.
- The OpenSSL PKCS7 engine, whose fold over signatures is that of the GnuTLS one.
- The directory listing of `add_public_keys`, the keyring path, `get_item_default`, `has_target` and `to_string`.
- Machine words as bit vectors: the operators on them are modelled on integers, digit by digit.
- Kinds of 64 and more in the shift of the allowlist, undefined in C; no engine has such a kind.
- The trust list of a PKCS7 signature, also the post-quantum one: whether it exists is a parameter of each signature.
- The path of PKCS7 verification with one given certificate, which only self-verification takes.
- What `objdump` prints, and the rest of `bundle.sh`.
