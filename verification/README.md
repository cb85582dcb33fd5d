# CyberFS, verified

CyberFS keeps per-user folder trees over a relational database and an object store: files with version
history, soft delete with a trash, quotas, client-transparent encryption, sharing, an S3-style listing
and several background jobs. This project models the parts whose correctness spans many operations and
proves what they keep over whole runs.

The modules follow the program:

- `Framing`, `Cipher`, `CipherTheorems`, `Ranges` — sealed content in frames, and HTTP ranges over it.
  Encryption is symbolic: a stored byte is either a raw byte or "offset j of this sealed frame", and
  decryption succeeds exactly on the cells of one whole frame under the same key and associated data
  (sections 2.1 and 2.2 of RFC 5116). Streams are sequences of chunks, so every chunking is covered.
- `Tree`, `TreeInvariant`, `Trash`, `Walks`, `TreeEffects` — the adjacency list with soft delete. The unwritten
  invariant that makes a stamp identify a delete batch is `Tree.Drive.WellFormed`; `TreeEffects` says when each
  operation is accepted, which rows it changes and what becomes of the paths.
- `Sums`, `Ledger`, `LedgerInvariant`, `History`, `Purge`, `EmptyTrash`, `Emptying`, `Services` — version rows and
  which of them are kept, quota buckets, purging and emptying the trash; `Services` holds the classes that change rows and quota records in place,
  each method proved equal to the operation it implements.
- `Content`, `ContentInvariant` — the object store, version rows, wrapped data keys, user keys and the master
  key, over runs of uploads, replacements, encryption, version restores, copies, sharing, key rotation and
  changes of the master key. `ContentEffects` — what each of these leaves, and what the stored bytes are.
  `Orphans`, `Tidiness` — which writes leave an object behind, and that none is left otherwise.
- `Sharing`, `SharingTheorems`, `RewrapJob`, `KeylessCopies` — grants, the background rewrap with one commit per
  grant, and the files it can never finish. `Access`, `Stranded` — who may do what, and what sharing and revoking
  change about it.
- `Reaper` — the orphan reaper interleaved step by step with uploads.
- `PermissionCache` — cached permission decisions under the invalidations the services issue.
- `S3Walk`, `S3Listing` — keys, the prefix-directed tree walk, grouping and continuation tokens.
- `Retention` — grandfather-father-son retention over whole histories.
- `RateLimit` — the fixed-window limiter over whole runs.

Ids are fresh naturals and a digest is the content it stands for. Each tree has one owner. Times are
naturals on one clock; a delete's clock value is strictly newer than every earlier stamp, as the repository
port requires. Operations are sequential except in `Reaper` and in the crash points of `Sharing`.

## What the proofs found

- The sixteen-byte header of a sealed object is not authenticated. A stored object still opens in full after
  its header is replaced, exactly when all its content sits in one frame that the new frame size also allows
  (`CipherTheorems.OnlyTheSealedObjectOpens`, `CipherTheorems.InterchangeableOpens`).
- A `Range` header whose digits are superscripts, or more than 4300 digits long, passes `isdigit` and then makes
  `int` raise (`Ranges.CrashesExactly` says exactly which headers do, `Ranges.SuperscriptCrashes` gives one).
- Emptying the trash budgets delete batches but destroys whole subtrees. A call stays within its budget exactly
  when the counted rows and the uncounted ones beneath them fit together (`Emptying.CallWithinBudgetExactly`),
  and it can destroy 1002 rows while counting two (`Emptying.CallCanExceedBudget`).
- A write refused for quota leaves its object behind without a row, although the charging helper's own
  description speaks of discarding it. No other failure of a write does (`Orphans.WriteOrphansExactly`,
  `Orphans.FirstUploadLeavesOrphan`), and the reaper takes the object a grace period later
  (`Orphans.OrphanIsCollected`).
- Copying an encrypted file whose current version is from before its encryption makes an encrypted file that
  nobody holds a key of. A pending grant over it never completes, and no grant behind it is ever activated
  (`KeylessCopies.CopyKeylessExactly`, `KeylessCopies.ShareNeverCompletes`, `SharingTheorems.Starves`).
- Master-key rotation reads one page of users. Whoever it left behind loses access when the master key is
  replaced a second time (`ContentInvariant.SecondSwapBreaksExactly`).
- Replacing a user's key strands every data key wrapped for that user on other people's files, and sharing
  again does not repair it, because an existing row is left as it is (`ContentInvariant.RotateUserExact`,
  `SharingTheorems.ActiveMeansReadable`).
- A revoke takes the subject's keys over the whole subtree, also of files that another of their grants still
  reaches. They may read those, and cannot (`Access.RevokeStrandsExactly`, `Stranded.RevokeCanStrand`).
- A rewrap pass ended by an exception never invalidates the recipients it had already activated, so a cached
  "no access" can outlive the activation (`PermissionCache.InterruptedExactly`,
  `PermissionCache.InterruptedCanGoStale`).
- A file reached through a first path segment `shared`, which uploads, renames and moves allow, is listed
  under a key that does not resolve to it (`S3Walk.ListedKeyResolves`).

## Model

| member | source | states |
|---|---|---|
| Framing.HeaderRoundTrip | src/cyberfs/domain/framing.py:37-53 | a valid frame size survives encoding and decoding, and encoding refuses every invalid one |
| Framing.HeaderUnique | src/cyberfs/domain/framing.py:43-53 | the only header that decodes to a frame size is the one encoding writes for it |
| Framing.AssociatedDataInjective | src/cyberfs/domain/framing.py:56-66 | version, index and final flag can be read back from the associated data, so two different positions never share it |
| Framing.FramesIsFrameCount | src/cyberfs/domain/framing.py:69-77 | the closed-form frame count equals the number of frames the cutting loop produces, one even for empty content |
| Cipher.Seal | src/cyberfs/adapters/outbound/cipher.py:50-82 | for every chunking, the streamed loop emits exactly the object specified for the joined content, or overflows exactly when it needs more frames than the index can number |
| Cipher.FrameReader.Pull | src/cyberfs/adapters/outbound/cipher.py:171-178 | pulling neither loses nor reorders stored bytes, and reports whether enough are buffered |
| Cipher.FrameReader.FrameSize | src/cyberfs/adapters/outbound/cipher.py:180-190 | the header is consumed and decoded, or a short or malformed one is an integrity failure |
| Cipher.FrameReader.NextFrame | src/cyberfs/adapters/outbound/cipher.py:192-205 | the next cut depends on the stored bytes alone and not on how they arrive in chunks |
| Cipher.ReadFrames | src/cyberfs/adapters/outbound/cipher.py:84-125 | the loop with its index, lead skip, remaining count and final flag emits what opening the joined bytes emits, with the same failure |
| Cipher.Open | src/cyberfs/adapters/outbound/cipher.py:84-125 | whole-object and span reads over any chunking equal their specification on the joined stored bytes |
| CipherTheorems.RoundTrip | src/cyberfs/adapters/outbound/cipher.py:50-125 | opening what was sealed yields exactly the plaintext and completes |
| CipherTheorems.SealThenOpen | src/cyberfs/adapters/outbound/cipher.py:50-125 | end to end through both streaming loops: any chunking in and any re-chunking of the stored bytes delivers the original content |
| CipherTheorems.Layout | src/cyberfs/domain/framing.py:69-97 | the object has the promised size, and each frame starts at its offset, ends where the next starts, holds its slice and is final only when last |
| CipherTheorems.ReadIsAuthentic | src/cyberfs/adapters/outbound/cipher.py:84-125 | from any position, whatever mix of frames sealed under the key is presented, only a prefix of the true content is ever emitted |
| CipherTheorems.OnlyTheSealedObjectOpens | src/cyberfs/adapters/outbound/cipher.py:84-144 | a read of rearranged frames completes if and only if the frames are exactly those sealed and the header is interchangeable with the original |
| CipherTheorems.InterchangeableOpens | src/cyberfs/domain/framing.py:43-53 | the exception is real: under an interchangeable header the object still opens to its content |
| CipherTheorems.AnyChangeIsDetected | src/cyberfs/adapters/outbound/cipher.py:107-144 | with the header intact, a read completes on the sealed object and on nothing else |
| CipherTheorems.EveryTruncationIsDetected | src/cyberfs/adapters/outbound/cipher.py:107-125 | no proper prefix of a stored object opens to completion |
| CipherTheorems.EverySubstitutionIsDetected | src/cyberfs/adapters/outbound/cipher.py:127-144 | the object of one version never opens as another version sealed under the same key |
| Ranges.ParseRange | src/cyberfs/application/content.py:72-99 | every accepted range is non-empty and inside the content, whatever the header says |
| Ranges.ServedExactly | src/cyberfs/application/content.py:72-99 | a part is served exactly when the text asks for it: a bytes unit, no comma, and digits where they are read, meaning those positions as far as the content goes, everything from a start, or that many last bytes |
| Ranges.CrashesExactly | src/cyberfs/application/content.py:72-99 | a header ends in an uncaught error exactly when its text is a bytes unit without commas and a digit string that is read there is over 4300 digits long or holds a superscript; every other header is answered |
| Ranges.SuperscriptCrashes | src/cyberfs/application/content.py:90-94 | the input: one superscript crashes the parser for every non-empty file |
| Ranges.IntRange | src/cyberfs/application/content.py:72-99 | `bytes=a-b` is served as those positions cut at the end of the content, or ignored when it starts outside or runs backwards |
| Ranges.OpenRange | src/cyberfs/application/content.py:72-99 | `bytes=a-` is served as everything from there on |
| Ranges.SuffixRange | src/cyberfs/application/content.py:72-99 | `bytes=-n` is served as the last so many bytes, all of them when there are fewer |
| Ranges.SpanRead | src/cyberfs/domain/framing.py:100-143 | fetching the planned stored range and opening it with the span yields exactly the requested slice |
| Ranges.RangeRequestServed | src/cyberfs/application/content.py:529-549 | every accepted header on sealed content is answered with exactly the bytes it names |
| TreeInvariant.CreateKeeps | src/cyberfs/application/nodes.py:517-550 | creating a node keeps the whole tree invariant |
| TreeInvariant.RenameKeeps | src/cyberfs/application/nodes.py:552-578 | renaming keeps it |
| TreeInvariant.MoveKeeps | src/cyberfs/application/nodes.py:580-622 | moving under a folder that is not beneath the node keeps it, acyclicity included |
| TreeInvariant.DeleteKeeps | src/cyberfs/application/nodes.py:624-653 | trashing the live subtree under one new stamp keeps it |
| TreeInvariant.RestoreKeeps | src/cyberfs/application/nodes.py:655-703 | lifting a batch back, or to the root when its parent is gone, keeps it |
| TreeInvariant.PurgeKeeps | src/cyberfs/application/nodes.py:705-750 | destroying a subtree keeps it |
| TreeInvariant.EveryRunIsWellFormed | src/cyberfs/application/nodes.py:517-750 | in every run: no cycles, one live root per user, nothing live under anything trashed, stamps never decreasing going up a trashed chain, and distinct names among siblings in the same state |
| TreeInvariant.ReachesRoot | src/cyberfs/domain/nodes.py:276-295 | following parents from any row ends at its owner's root |
| TreeEffects.CreateExactly | src/cyberfs/application/nodes.py:517-550 | a row is created exactly when the tree with it in place is well formed and the name is not reserved there; then that is the tree |
| TreeEffects.NameExactly | src/cyberfs/domain/nodes.py:136-144 | in a live folder exactly the names of 1 to 255 characters without slash, backslash or NUL, not a dot name and not a live sibling's, are accepted |
| TreeEffects.EveryNameIsGood | src/cyberfs/domain/nodes.py:136-144 | in every run every name is one of those |
| TreeEffects.RenameExactly | src/cyberfs/application/nodes.py:552-578 | a rename is accepted exactly when the node is live and below a root and the renamed tree is well formed; then that is the tree |
| TreeEffects.MoveExactly | src/cyberfs/application/nodes.py:580-622 | a move is accepted exactly when the node is live and below a root and the tree with the node hung there is well formed; then that is the tree |
| TreeEffects.MoveRefusedTruly | src/cyberfs/application/nodes.py:580-622 | each error of a refused move names something that is wrong with it |
| TreeEffects.CreateAdds | src/cyberfs/application/nodes.py:517-550 | the new row is the child of its name, with its path; every other row and path is as it was |
| TreeEffects.RenameRenames | src/cyberfs/application/nodes.py:552-578 | beneath the node every path has the new name in place of the old, and no other row or path changes |
| TreeEffects.MoveMoves | src/cyberfs/domain/nodes.py:276-295 | the node is a child of the destination, what was beneath it still is and its path starts at the destination, no other row or path changes, and every live node is found under its new path |
| TreeEffects.DeleteExactly | src/cyberfs/application/nodes.py:624-653 | anything live but a root can be trashed; exactly the live rows beneath it go, under one stamp newer than every other, and nothing else about any row changes |
| TreeEffects.RestoreExactly | src/cyberfs/application/nodes.py:655-703 | a restore goes to the folder while that is live and otherwise to the owner's root, is refused exactly when a live row has the name there, and lifts exactly the rows of the same stamp beneath |
| TreeEffects.RestoreReturns | src/cyberfs/application/nodes.py:655-703 | the node is found under its name there, with the paths beneath it carried along |
| TreeEffects.PurgeExactly | src/cyberfs/application/nodes.py:705-750 | exactly what is in the trash can be destroyed, then exactly what is beneath it goes, and every other row and path stays |
| TreeEffects.ProvisionExactly | src/cyberfs/domain/users.py:53-66 | a user gets a live root of their own exactly once, and nobody else's row changes |
| Tree.BatchIsUnbroken | src/cyberfs/domain/ports/repositories.py:95-112 | every row between two rows of one batch carries that batch's stamp |
| Trash.DeleteThenRestore | src/cyberfs/application/nodes.py:624-703 | a delete followed at once by a restore gives back exactly the rows there were |
| Trash.RestoreLiftsItsDelete | src/cyberfs/domain/ports/repositories.py:84-112 | in every run, a restore lifts exactly the rows trashed by the same delete that are still beneath the node, and touches nothing else |
| LedgerInvariant.EveryRunBalances | src/cyberfs/domain/users.py:90-114 | in every run the live and trashed buckets equal the summed sizes of live and trashed files, and the version bucket covers every retained version that is not current |
| LedgerInvariant.WriteIsExact | src/cyberfs/application/content.py:370-399 | an accepted write moves buckets by exact amounts, with no clamp biting, and ends within quota |
| LedgerInvariant.WriteRefusedExactly | src/cyberfs/domain/users.py:74-86 | a write is refused for room exactly when the present total plus the new size exceeds the quota |
| LedgerInvariant.TrashIsExact | src/cyberfs/application/nodes.py:640-699 | delete, restore and purge move exactly the bytes of the rows concerned, with no clamp biting |
| LedgerInvariant.DeleteThenRestoreBooks | src/cyberfs/application/nodes.py:624-703 | a delete followed at once by a restore also gives back versions and quota buckets |
| Services.QuotaUsage.ChargeLive | src/cyberfs/domain/users.py:90-92 | charges live bytes, and never takes a bucket below zero |
| Services.QuotaUsage.ChargeVersions | src/cyberfs/domain/users.py:94-96 | charges version bytes, and never takes a bucket below zero |
| Services.QuotaUsage.MoveToTrash | src/cyberfs/domain/users.py:98-103 | moves at most the live bytes, and the total is unchanged |
| Services.QuotaUsage.RestoreFromTrash | src/cyberfs/domain/users.py:105-109 | moves at most the trashed bytes back, and the total is unchanged |
| Services.QuotaUsage.PurgeFromTrash | src/cyberfs/domain/users.py:111-114 | frees trashed bytes, never below zero and never raising the total |
| Services.NodeService.Provision | src/cyberfs/domain/users.py:53-66 | a new user gets a root, a quota and a record of their own with nothing in it, with every invariant kept |
| Services.NodeService.MoveBytes | src/cyberfs/application/nodes.py:1098-1115 | moves bytes between the buckets of one user's record and leaves every other record alone |
| Services.NodeService.ChargeWrite | src/cyberfs/application/content.py:370-385 | charges a write if the record has room for it, and otherwise leaves every record as it was |
| Services.NodeService.PruneVersions | src/cyberfs/application/content.py:387-399 | drops exactly the versions beyond retention and releases exactly their bytes, one by one |
| Services.NodeService.CreateFolder | src/cyberfs/application/nodes.py:517-550 | in place: a caller without the role, or a place too deep, is refused with the code's error and no change; otherwise the specified new state or error, with every invariant kept; an accepted call adds the one row |
| Services.NodeService.Rename | src/cyberfs/application/nodes.py:552-578 | likewise for a rename, which changes the one name |
| Services.NodeService.Move | src/cyberfs/application/nodes.py:580-622 | likewise for a move, with a role on both ends, the cycle and depth checks being one climb from the destination; an accepted move hangs the row under the destination and changes no other |
| Services.NodeService.Delete | src/cyberfs/application/nodes.py:624-653 | likewise for a delete, which needs the owner role, collects the live subtree level by level, stamps it and moves its bytes |
| Services.NodeService.Restore | src/cyberfs/application/nodes.py:655-703 | likewise for a restore, which anyone but the owner is told does not exist |
| Services.NodeService.StoreVersion | src/cyberfs/application/content.py:259-325 | likewise for a write: charge, new version row, new current version, prune beyond retention |
| Services.TooDeepExactly | src/cyberfs/application/nodes.py:1162-1167 | a place is too deep exactly when the new path would have as many names as the limit or more |
| History.LastVersionsAreKept | src/cyberfs/domain/ports/repositories.py:268-271 | in every run a file's writes are numbered from one, and the versions held are exactly the last ones, as many as retention allows, each with the content written under its number; the current one is the last |
| History.ReplaceLogs | src/cyberfs/application/content.py:259-325 | a replacement is one such write of its content to its file, and none to any other |
| History.BringBackLogs | src/cyberfs/application/content.py:558-605 | bringing a version back is one such write of that version's content |
| Services.SequenceAfter | src/cyberfs/domain/ports/repositories.py:265-265 | the next sequence number is one above every number the node still holds |
| Services.PurgeService.Strip | src/cyberfs/application/purge.py:36-68 | strips one node of versions, objects, grants, keys and quota, leaving its row |
| Services.PurgeService.DeleteRow | src/cyberfs/adapters/outbound/db/models.py:69-71 | deleting a row takes its descendants and everything that refers to them |
| Services.PurgeService.PurgeSubtree | src/cyberfs/application/purge.py:95-121 | the two loops compute the specified purge for any listing of the subtree |
| Services.PurgeService.Destroy | src/cyberfs/application/nodes.py:705-750 | purging a trashed node destroys exactly its subtree and reports exact totals; a live or missing node is refused and nothing changes |
| Purge.PurgeSubtreeDestroys | src/cyberfs/application/purge.py:95-121 | for every order of the ids: the subtree is destroyed completely, totals are exact and nothing outside is touched |
| Purge.PurgeOneDeepestFirst | src/cyberfs/application/purge.py:71-92 | purging node by node, deepest first, reaches the same state and the same totals |
| Purge.NoObjectLeftBehind | src/cyberfs/application/purge.py:36-68 | every object of the subtree's versions is gone, every other object is still there |
| Purge.DestroyedIsPurgeNode | src/cyberfs/application/purge.py:95-121 | on rows, versions and buckets the purge is the single operation the quota theorems are about |
| EmptyTrash.SpendBudget | src/cyberfs/application/nodes.py:841-884 | the selection loop takes the greedy count of entries |
| EmptyTrash.PageIsEnough | src/cyberfs/application/nodes.py:860-880 | selecting from one page of the trash gives what greedy selection over the whole trash gives |
| EmptyTrash.EmptyOnceTakesPrefix | src/cyberfs/application/nodes.py:799-905 | an accepted call destroys a non-empty oldest-first prefix, one entry or a set within the budget, and reports the exact remainder; it is accepted exactly when the confirmed count is right |
| EmptyTrash.OldestGoFirst | src/cyberfs/application/nodes.py:841-884 | what a call destroys was trashed no later than anything it leaves |
| EmptyTrash.NoEntriesNoTrash | src/cyberfs/domain/ports/repositories.py:114-136 | where there is no entry, no row of the owner's is in the trash |
| EmptyTrash.LoopEmpties | src/cyberfs/application/nodes.py:799-840 | calling again with the reported remainder leaves no row of the owner's in the trash after at most as many calls as there were entries |
| EmptyTrash.BatchUndercounts | src/cyberfs/domain/ports/repositories.py:146-165 | the counted batch is the destroyed subtree exactly when nothing beneath carries another stamp |
| Emptying.DestroyAllExact | src/cyberfs/application/nodes.py:865-905 | destroying entries one by one reports exactly what lay beneath them all, takes exactly those objects and rows, and on the books is the purge the quota theorems are about |
| Emptying.CallWithinBudgetExactly | src/cyberfs/application/nodes.py:841-884 | one call destroys the rows it counted and every row beneath that was trashed on another occasion, so it stays within the budget exactly when the two sums together do |
| Emptying.BudgetIsExceeded | src/cyberfs/application/nodes.py:841-884 | for every k: a sound state in which a call takes two entries that count as two nodes and destroys k + 2 rows |
| Emptying.CallCanExceedBudget | src/cyberfs/domain/nodes.py:48 | the input: 1002 rows destroyed in one call on a budget of 1000 |
| Services.PurgeService.EmptyTrash | src/cyberfs/application/nodes.py:799-905 | in place: refused exactly when the stated count is wrong, otherwise the loop destroys the specified prefix and reports exact totals and remainder |
| Walks.Ancestors | src/cyberfs/domain/ports/repositories.py:69-75 | the climb ends and lists exactly the strict ancestors, root first |
| Walks.Descendants | src/cyberfs/domain/ports/repositories.py:76-78 | the level-by-level walk finds exactly the subtree, live rows only or all of them |
| ContentInvariant.EveryVersionIsReadable | src/cyberfs/application/content.py:259-350 | in every run, with any master keys installed along the way, each version row names an existing object; nobody ever downloads anything but the recorded content; who gets it is decided by who holds a usable key, and the owner does unless their own key is labelled with a master key no longer configured |
| ContentEffects.EveryVersionAtRest | src/cyberfs/application/content.py:327-350 | in every run, what is stored for an encrypted version is a header naming a frame size and then nothing but frames sealed under the file's data key for that version, and for any other version its content |
| ContentEffects.WriteLands | src/cyberfs/application/content.py:259-325 | a write succeeds exactly when it gets as far as the put and there is room; then the file keeps its flag, its new current version follows the flag and holds the content, and no other row or file's version changes |
| ContentEffects.UploadLands | src/cyberfs/application/content.py:151-189 | an upload leaves a live file of the name holding the content: a new file encrypted exactly if that was asked for, an existing one with the flag it had, and stored sealed exactly if the flag is set |
| ContentEffects.UploadExactly | src/cyberfs/application/content.py:151-189 | it succeeds exactly when the folder is there and the write does, to the file of that name or to a new one that fits |
| ContentEffects.EncryptLands | src/cyberfs/application/content.py:401-434 | turning encryption on leaves the same content in a new version that is sealed, under a flag that is set |
| ContentEffects.EncryptExactly | src/cyberfs/application/content.py:401-434 | it succeeds exactly when the flag is set already or the current content can be written under it |
| ContentEffects.BringBackLands | src/cyberfs/application/content.py:558-605 | the new current version has the old one's content, flag and stored bytes, and no other row changes |
| ContentEffects.BringBackExactly | src/cyberfs/application/content.py:558-605 | it succeeds exactly for a live file's own version that there is room for |
| ContentEffects.CopyLands | src/cyberfs/application/nodes.py:1037-1070 | a copy is a new file of the folder's owner under the name, with the source's flag, and its content is the source's stored bytes and version flag; its size, which the owner is charged, is that of the stored object |
| ContentEffects.CopyExactly | src/cyberfs/application/content.py:607-652 | it succeeds exactly when it fits the folder and the quota and its owner can obtain the key of encrypted content |
| ContentEffects.EncryptedForever | src/cyberfs/application/content.py:401-434 | without turning encryption off, no run clears the flag of a file that still exists |
| ContentEffects.MintedIsFresh | src/cyberfs/application/encryption.py:97-137 | the first key minted for a file is unlike every key in use, and changes none |
| ContentEffects.EnsureExactly | src/cyberfs/application/encryption.py:97-137 | a file's data key can be had for a write exactly when its owner's own key is usable |
| ContentEffects.RewrapExactly | src/cyberfs/application/encryption.py:182-210 | a key is wrapped for a subject exactly when none is needed or owner and subject both have usable keys, and then it is the owner's data key; no other key changes |
| ContentEffects.UnshareExactly | src/cyberfs/application/encryption.py:212-213 | exactly the subject's key goes, unless they own the file |
| ContentEffects.ShredClears | src/cyberfs/application/purge.py:95-121 | a purge takes exactly the subtree's rows, versions, objects and keys |
| ContentEffects.BooksFollow | src/cyberfs/application/content.py:259-325 | uploads, writes and versions brought back do to rows, versions and buckets exactly what the quota theorems are about |
| Tidiness.StoreIsExact | src/cyberfs/application/content.py:387-399 | in a run in which nothing fails, the store holds exactly the objects that versions name: content goes with its version |
| ContentInvariant.WriteThenRead | src/cyberfs/application/content.py:259-350 | a successful write is what the owner's next download returns |
| ContentInvariant.EncryptThenRead | src/cyberfs/application/content.py:401-434 | turning encryption on leaves the content reading as before |
| ContentInvariant.RestoreThenRead | src/cyberfs/application/content.py:558-605 | bringing a version back makes the file read as it did then, though its bytes stay sealed for the old version |
| ContentInvariant.CopyThenRead | src/cyberfs/application/content.py:607-652 | a copy, and hence a copy of a copy, reads as its source does, and the source still reads |
| ContentInvariant.EnsureKeeps | src/cyberfs/application/encryption.py:97-137 | minting or reusing a data key leaves everything held and the owner with the key used |
| ContentInvariant.RewrapKeeps | src/cyberfs/application/encryption.py:182-210 | wrapping a key for another subject keeps every version's object and key as the owner's download needs them |
| ContentInvariant.RevokeKeeps | src/cyberfs/application/encryption.py:212-213 | revoking a subject's key keeps them too |
| ContentInvariant.RotationPreserves | src/cyberfs/application/encryption.py:266-297 | a pass succeeds exactly when every key it lists opens; then it changes no user's key, finishes every user it lists and touches no other |
| ContentInvariant.RotatePage | src/cyberfs/application/encryption.py:266-310 | the rotation loop computes that pass |
| ContentInvariant.RotateMasterKeeps | src/cyberfs/application/encryption.py:266-297 | master-key rotation keeps every version readable as it was |
| ContentInvariant.RotateMasterExact | src/cyberfs/application/encryption.py:266-297 | a pass leaves usable exactly the keys that were, and the listed ones labelled with the current master key |
| ContentInvariant.InstallKeeps | src/cyberfs/adapters/outbound/crypto.py:54-65 | installing another master key changes nothing stored |
| ContentInvariant.SwapSafeExactly | src/cyberfs/adapters/outbound/crypto.py:128-133 | after a swap every owner still reads everything exactly when every owner of an encrypted version has a key labelled with one of the two keys then configured |
| ContentInvariant.SecondSwapBreaksExactly | src/cyberfs/application/encryption.py:300-310 | swap, rotate one page, swap again: everyone reads after the first swap, and after the second exactly the users that page listed do |
| ContentInvariant.RotateUserExact | src/cyberfs/application/encryption.py:312-370 | replacing a user's key succeeds exactly when the old one is usable; it keeps exactly the data keys of the user's own files, and one wrapped for them on another's file opens no more |
| ContentInvariant.RotateUserKeeps | src/cyberfs/application/encryption.py:312-370 | it keeps every version readable for its owner |
| Orphans.WriteOrphansExactly | src/cyberfs/application/content.py:259-325 | a write leaves an object no version names exactly when it gets as far as the put and the owner's quota then has no room; any other failure leaves the store as it was |
| Orphans.NoRoomInBalance | src/cyberfs/application/content.py:370-385 | where the books balance, that is: total and new size exceed the quota |
| Orphans.OrphanIsCollected | src/cyberfs/application/jobs.py:144-209 | a reaper pass a grace period after the put takes that object, and no pass takes one some version names |
| Orphans.FirstUploadLeavesOrphan | src/cyberfs/application/content.py:259-325 | the input: a first upload of one byte into no quota leaves its object and nothing else |
| Access.RoleExactly | src/cyberfs/domain/permissions.py:16-26 | the effective role is at least the one needed exactly for the owner and for holders of an active grant, on the node or above it, whose role covers it |
| Access.RefusalExactly | src/cyberfs/domain/permissions.py:29-50 | the guard of every tree operation: passed exactly by those, denied openly to holders of less, and not found for everyone else |
| Access.RolesReachDown | src/cyberfs/application/nodes.py:132-153 | whoever may act on a node may act on everything beneath it |
| Access.ShareExactly | src/cyberfs/application/sharing.py:107-198 | a share is accepted exactly from someone acting as owner, for someone else, when every key it needs at once can be wrapped |
| Access.ShareGives | src/cyberfs/application/sharing.py:107-198 | it leaves exactly one grant for the pair, with the role given, waiting exactly when it is a first share of too many encrypted files or was waiting; no other grant changes, and unless left to the job every encrypted live file there has a key |
| Access.ShareTakesEffect | src/cyberfs/application/sharing.py:107-198 | afterwards the recipient may do beneath the node what their other grants or the new role give, and nobody else's access changes |
| Access.RevokeExactly | src/cyberfs/application/sharing.py:240-268 | a revoke is accepted exactly from the owner or the recipient, for a grant that is there and not the owner's |
| Access.RevokeTakesAway | src/cyberfs/application/sharing.py:240-280 | the grant is gone and no other, the subject may do exactly what their other grants give, and their key for every live file of the subtree is gone and no other key |
| Access.RevokedCannotRead | src/cyberfs/application/sharing.py:266-268 | the subject's download of any encrypted version of those files fails |
| Access.RevokeStrandsExactly | src/cyberfs/application/sharing.py:542-548 | the subject is left allowed to read an encrypted file there, and unable to, exactly when another active grant of theirs reaches it |
| Stranded.RevokeCanStrand | src/cyberfs/application/sharing.py:542-548 | the input: a run of seven steps after which that is so |
| Access.RevokedStaysRevoked | src/cyberfs/application/sharing.py:240-280 | no later step but a share of the same node with the same subject brings a revoked grant back |
| Access.JobExactly | src/cyberfs/application/jobs.py:315-343 | one transaction of the job activates its grant with the role it was given, or removes it with its key when the node is gone, and changes no other grant |
| Access.CacheFollowsShares | src/cyberfs/application/sharing.py:107-280 | the grants the cache model works with after a share or a revoke are the ones stored |
| SharingTheorems.ActiveOnlyWithKeys | src/cyberfs/application/jobs.py:345-373 | over shares, revokes, job steps and content operations, a grant becomes active only in a step after which the recipient has a wrapped key for every encrypted file of the live subtree |
| SharingTheorems.ActiveMeansReadable | src/cyberfs/application/sharing.py:133-168 | each such key opens to the file's data key exactly when the recipient could open it before or had none: a wrapping under a key since replaced is not repaired |
| SharingTheorems.EveryRunIsHeld | src/cyberfs/application/sharing.py:107-280 | every run of shares, revokes, job transactions and content operations keeps the vault's invariant, one grant per node and subject, and pending grants on folders only |
| SharingTheorems.EveryActivationIsReadable | src/cyberfs/application/jobs.py:345-373 | so in every such run from an empty service, the same holds at each activation |
| SharingTheorems.CompletesExactly | src/cyberfs/application/jobs.py:345-373 | a transaction commits exactly when the node is gone, or every encrypted file of the live subtree that lacks a wrapping has an owner holding its key and both keys are usable |
| SharingTheorems.BatchIsOldest | src/cyberfs/application/jobs.py:315-343 | a pass handles waiting grants in the order they were made, each older than any waiting one it leaves, and as many as the batch allows or all |
| SharingTheorems.SettleOldest | src/cyberfs/application/jobs.py:315-343 | completing or dropping the oldest pending grant leaves one row per node and subject, and the others waiting in order |
| SharingTheorems.OldestAdvances | src/cyberfs/application/jobs.py:315-343 | a transaction that commits settles its grant |
| SharingTheorems.ReadyCommitsAll | src/cyberfs/application/jobs.py:315-343 | with usable keys for every recipient and every owner, and an owner's key for every encrypted file, a pass commits everything |
| SharingTheorems.Starves | src/cyberfs/application/jobs.py:315-343 | a grant that cannot be completed stops every pass that reaches it, and nothing behind it is ever activated |
| KeylessCopies.PlainComesBack | src/cyberfs/application/content.py:558-605 | bringing back a version from before encryption leaves an encrypted file whose current version is not |
| KeylessCopies.CopyKeylessExactly | src/cyberfs/application/nodes.py:1037-1070 | a copy is encrypted and without any key exactly when its source is encrypted and the current version is not |
| KeylessCopies.KeylessStops | src/cyberfs/application/jobs.py:345-373 | no pending grant over such a file completes |
| KeylessCopies.ShareNeverCompletes | src/cyberfs/application/jobs.py:315-343 | the input: a run of seven operations after which a grant waits and every pass of the job changes nothing |
| SharingTheorems.ResumeAfterCrash | src/cyberfs/application/jobs.py:315-343 | a pass interrupted after any of the commits it makes, and run again, reaches the grants and keys of one uninterrupted pass with room for both |
| SharingTheorems.CrashMakesNoDifference | src/cyberfs/application/jobs.py:315-343 | when everything waiting fits a batch, crash and rerun is exactly one uninterrupted run, and what stays pending starts with the first grant that cannot be completed |
| RewrapJob.Worker.AddDataKey | src/cyberfs/adapters/outbound/db/models.py:312-316 | inserting a key row needs the (node, subject) pair to be absent, which every call of the worker meets |
| RewrapJob.Worker.RewrapOne | src/cyberfs/application/encryption.py:182-210 | wraps one node's key or reports why not |
| RewrapJob.Worker.RewrapTree | src/cyberfs/application/jobs.py:345-363 | in any order of the rows, the loop wraps the whole live subtree or fails exactly when some key cannot be obtained |
| RewrapJob.Worker.ActivateOne | src/cyberfs/application/jobs.py:345-373 | computes one job transaction |
| RewrapJob.Worker.Run | src/cyberfs/application/jobs.py:315-343 | a pass with its per-grant commits and its rollback computes the specified sequence of transactions |
| Reaper.StepKeepsSafe | src/cyberfs/application/jobs.py:144-209 | each separate step of reapers and uploads keeps what the reaper relies on |
| Reaper.NothingCommittedIsReaped | src/cyberfs/application/jobs.py:144-209 | under every interleaving, with any number of reapers, an object named by a committed row is in the store and was never reaped, foreign objects never are, and no later row names a reaped object |
| Reaper.CommitAtTheGracePeriodIsTooLate | src/cyberfs/application/jobs.py:199-209 | the bound is strict: an upload exactly one grace period old can lose its object |
| Reaper.Sweep | src/cyberfs/application/jobs.py:144-157 | with nothing interleaved, a pass deletes exactly the unreferenced objects of the service's own key shape that are old enough |
| PermissionCache.KeyInjective | src/cyberfs/domain/cache.py:64-76 | distinct (subject, node) decisions have distinct cache keys, whatever characters subjects contain |
| PermissionCache.OtherDatasetsElsewhere | src/cyberfs/domain/cache.py:64-76 | no entry of another dataset is ever read as a decision |
| PermissionCache.ComputeRole | src/cyberfs/application/nodes.py:132-153 | the climb and the grant query compute the effective role |
| PermissionCache.CacheService.Permission | src/cyberfs/application/caching.py:41-111 | answers from the cache, or computes once and stores, "no access" included |
| PermissionCache.CacheService.InvalidateForSubject | src/cyberfs/application/caching.py:116-124 | drops every decision of the subject |
| PermissionCache.CacheService.InvalidateAll | src/cyberfs/application/caching.py:126-129 | drops every decision and no other dataset's entry |
| PermissionCache.NextKeeps | src/cyberfs/application/nodes.py:1117-1153 | every operation with the invalidation it issues keeps cached decisions equal to the present ones |
| PermissionCache.CacheIsTransparent | src/cyberfs/application/nodes.py:132-153 | in every run, asking about an existing node answers what ownership and active grants say now |
| PermissionCache.GrantedHandled | src/cyberfs/application/jobs.py:315-343 | a rewrap pass can only raise a decision, by exactly the roles it activates |
| PermissionCache.PassIsHandled | src/cyberfs/application/jobs.py:315-343 | the grant rows a pass commits are exactly the ones the cache model hands to its invalidation |
| PermissionCache.ActivateesAre | src/cyberfs/application/jobs.py:321-335 | the subjects invalidated are exactly those with an activated grant, not those whose grant was dropped |
| PermissionCache.InterruptedExactly | src/cyberfs/application/jobs.py:335-335 | if a pass ends before its invalidation, the cache stays right exactly when no cached decision is below a role the pass activated |
| PermissionCache.InterruptedCanGoStale | src/cyberfs/application/jobs.py:315-343 | a run in which that fails |
| S3Walk.SegmentsOfJoin | src/cyberfs/application/s3_objects.py:602-604 | splitting undoes joining |
| S3Walk.DirOfPrefix | src/cyberfs/application/s3_objects.py:619-629 | the folder part of any prefix of a key is a leading run of that key's names |
| S3Walk.DescendPath | src/cyberfs/application/s3_objects.py:559-572 | the loop follows names through live folders |
| S3Walk.PathResolves | src/cyberfs/application/s3_objects.py:559-572 | following a live node's own names from the root reaches that node |
| S3Walk.ListedKeyResolves | src/cyberfs/application/s3_objects.py:141-155 | a listed own-tree key resolves to its node exactly when its first segment is not the reserved one |
| S3Walk.KeysAreUnique | src/cyberfs/application/s3_objects.py:473-492 | no two live nodes of a tree share a key |
| S3Walk.Walk | src/cyberfs/application/s3_objects.py:473-492 | the stack walk lists each live file beneath a folder once, under its key, and ends |
| S3Walk.GatherOwn | src/cyberfs/application/s3_objects.py:464-471 | gathers the files beneath the folder the prefix names, or none |
| S3Walk.GatherIsFilter | src/cyberfs/application/s3_objects.py:464-471 | of the keys that match the prefix, gathering misses none and adds none |
| S3Walk.GatherIsEnough | src/cyberfs/application/s3_objects.py:448-471 | for every request, the page from the gathered files is the page from a walk of the whole tree |
| S3Listing.LessExactly | src/cyberfs/domain/s3/listing.py:118-122 | the key order is: a proper prefix first, and otherwise the smaller code point at the first difference |
| S3Listing.RollUpExactly | src/cyberfs/domain/s3/listing.py:95-109 | a matching key rolls up exactly when the delimiter occurs after the prefix, and then to the end of its first occurrence there |
| S3Listing.ItemExactly | src/cyberfs/domain/s3/listing.py:95-109 | the items of a listing are exactly the matching keys without the delimiter after the prefix, and the common prefixes of the others |
| S3Listing.PageExactly | src/cyberfs/domain/s3/listing.py:112-143 | a page reports exactly the items after the resume key with fewer than the limit, at most 1000, of such items before them, in key order; it is truncated exactly when more are left, and its token is the last key it reports |
| S3Listing.Group | src/cyberfs/domain/s3/listing.py:95-109 | one pass computes the contents and the common prefixes |
| S3Listing.Sort | src/cyberfs/domain/s3/listing.py:112-118 | sorting gives the keys in code-point order, each once |
| S3Listing.ListObjectsV2 | src/cyberfs/domain/s3/listing.py:83-136 | a page is the next items after the resume key, cut at the limit, with a token exactly when something is left |
| S3Listing.ResumesWhereItStopped | src/cyberfs/domain/s3/listing.py:112-143 | a page's token resumes at the first item the page left out |
| S3Listing.FollowReportsAll | src/cyberfs/domain/s3/listing.py:112-143 | following tokens reports every item once, in order, in at most one request per item |
| S3Listing.FollowTokens | src/cyberfs/domain/s3/listing.py:83-143 | a client's loop over whole requests collects exactly all contents and all common prefixes, and ends |
| S3Listing.ContentsAreNotPrefixes | src/cyberfs/domain/s3/listing.py:95-109 | a content key never equals a common prefix |
| S3Listing.ReportedOnce | src/cyberfs/domain/s3/listing.py:95-136 | every matching object is reported by exactly one item, as a content or through one common prefix |
| S3Listing.EveryItemIsSomething | src/cyberfs/domain/s3/listing.py:95-109 | every item stands for some matching object |
| Retention.BucketIds | src/cyberfs/domain/backup.py:284-302 | the loop keeps the newest record of each of the first so many periods |
| Retention.DecideRetention | src/cyberfs/domain/backup.py:311-351 | the method decides as specified, and keeps exactly the backups of the rule below |
| Retention.KeptExactly | src/cyberfs/domain/backup.py:284-340 | a verified backup is kept exactly when for days, weeks or months it is the newest of its period and verified backups fall in fewer later periods than that count, or it is the newest of all and no count is positive |
| Retention.KeptInOrder | src/cyberfs/domain/backup.py:346-350 | kept ids come newest first, equals in the order listed |
| Retention.DecisionIsExact | src/cyberfs/domain/backup.py:311-365 | no backup is both kept and deleted; every verified one is one or the other; failed ones go once past their grace; nothing else is touched; the newest verified one is kept |
| Retention.NewestIsKept | src/cyberfs/domain/backup.py:337-340 | the newest is always kept, and is reported as protected exactly when there is one and no count is positive |
| Retention.NewerKeepsNoMore | src/cyberfs/domain/backup.py:284-302 | a newer backup never makes an older one kept again |
| Retention.PruningNeverMatters | src/cyberfs/domain/backup.py:311-351 | however often decisions were carried out along the way, a decision on what is stored keeps what it would keep of the whole history |
| Retention.OutIsOut | src/cyberfs/domain/backup.py:311-351 | once a decision does not keep a verified backup, no later one does, and every later one deletes it if it is still stored, whatever newer backups finish meanwhile |
| Retention.SortSorts | src/cyberfs/domain/backup.py:326-332 | verified backups come newest first, each as often as before |
| RateLimit.FixedWindowLimiter.Record | src/cyberfs/domain/ratelimit.py:38-46 | adds the event to the history the stored windows stand for, and keeps them standing for it |
| RateLimit.FixedWindowLimiter.IsLimited | src/cyberfs/domain/ratelimit.py:48-55 | while time has not gone back: limited exactly when, of all events ever recorded, as many as the limit came since the key's latest window opened, less than a window length ago |
| RateLimit.FixedWindowLimiter.RetryAfter | src/cyberfs/domain/ratelimit.py:57-63 | positive exactly when limited; the caller is limited for exactly that long |
| RateLimit.FixedWindowLimiter.EvictExpired | src/cyberfs/domain/ratelimit.py:68-73 | drops and counts exactly the windows that have rolled over, and those left still stand for the whole history |
| RateLimit.AtMostTwiceTheLimit | src/cyberfs/domain/ratelimit.py:38-73 | when every record follows a negative check, any half-open interval of one window length holds at most twice the limit of recorded events per key |
| RateLimit.EvictionIsInvisible | src/cyberfs/domain/ratelimit.py:65-73 | evicting at any points of a run changes no answer and nothing that is recorded |

## Left out

- Real AES-GCM, HMAC, SHA-256, random nonces and identifiers: symbolic or fresh, as described above.
- Unicode normalisation: names are taken as already normalised, so equal names are equal strings.
- Depth limits in runs: the ancestor guard of 512 levels is absent and walks are unbounded; the maximum tree depth is checked by `Services.NodeService`, and the run theorems hold without it.
- Interleaved tree operations: moves lock only their destination, so acyclicity is proved for sequential runs.
- Permission checks inside the content operations, revisions, tags and metadata; `Services.NodeService` is given the caller's effective role, which `PermissionCache` computes.
- Services.NodeService.Rename: the client's precondition on the row's tag is absent, because revisions are not modelled.
- Services.NodeService.Move: the same precondition is absent.
- Services.NodeService.Delete: the same precondition is absent.
- Services.NodeService.StoreVersion: the object put and the admission check come before it and are not part of it; the objects of pruned versions are released in `Content`.
- The encryption default that folders pass on: an upload is given the choice already resolved.
- Admission checks, declared lengths and the upload size limit in writes.
- Content operations (`UploadFile`, `WriteContent`, `CopyFile`, `RestoreOld`, the key changes, and the share and revoke operations) are modelled on values, because one call spans the database, the object store and the key table; `Services.NodeService.StoreVersion` is their row-changing core in place. Aliasing between those stores is not captured.
- Folder copy, ownership transfer and copies into another owner's folder, which create mixed-owner trees or read one page of children.
- Turning encryption off, which deletes keys that older encrypted versions may still need.
- Quota for copies: a copy's node takes its size from the stored object, so the quota theorems do not cover runs with copies.
- Multipart uploads, presigned addresses and the shared view of the S3 surface.
- Continuation tokens are the keys they encode; malformed ones are not modelled.
- Backups that finish out of order: the history theorems of `Retention` are about newer and newer ones.
- The calendar behind days, weeks and months is a parameter; the theorems hold for every grouping of times.
- The object-key pattern: a key is either of the service's own shape or foreign.
- Reset of a limiter key: nothing in the repository calls it, and the bound would not hold across it.
- Cache outages and concurrent loads of one decision.
- The scheduled purge of old trash: only its effect on cached decisions and, through purging, on rows.
- LedgerInvariant.TrashIsExact: history bytes of a purged subtree stay in the version bucket, as the code leaves them, so that bucket is bounded from below and not exact.
- ContentInvariant.RotatePage: one page of users, as the code reads; keys of later users are preserved, not rotated.
- SharingTheorems.CrashMakesNoDifference: equality with one run of the same batch needs everything waiting to fit a batch; otherwise `SharingTheorems.ResumeAfterCrash` says which longer run it equals.
- Routers, schemas, database, object store, cache, identity and dashboard adapters, logging and metrics.
