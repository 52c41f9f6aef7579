# Roam, verified

Roam keeps a folder of files in step between devices: each file is a CRDT text
container or a content-addressed blob, vault keys rotate through a DAG of epochs,
and a new device joins by typing a six-digit code. This project models the five
parts of it in which a step-by-step update has to agree with something simple,
and proves that it does.

**Three-way text merge** (`ChangeScript`, `AncestorEdits`, `Conflicts`, `Rebase`,
`MergeLaws`, `MergeExamples`, `TextDiff`). A local delta is spliced into the remote text with a
running signed shift. The differ is any function that returns valid change
scripts (`Differ`), so every result holds for every differ. `Merged` is the
reference: at each ancestor boundary the remote run, then the local run, then the
ancestor character if both sides keep it.

**Folder reconcile** (`FileSet`, `Vault`, `ScanViews`, `ScanLaws`, `ScanRest`,
`ScanOutcome`, `ScanTable`, `ScanFailures`, `ReaderScans`, `DeleteLaws`, `BridgeLaws`,
`VaultRuns`, `ScanExamples`, `FolderBridge`). `Vault` is a device's disk, sidecars, blob
markers, file-set entries, containers and blobs as one value, with every bridge
operation as a function on it; class `FolderBridge` is the imperative bridge, each
method proved equal to its function. `ScanViews` shows what a whole scan does to a
single key, and the laws follow key by key.

**Epoch keychain** (`KeyLog`, `Keychain`, `KeychainLaws`, `EpochDag`, `Backfill`,
`Sealing`). The two-pass fold of a key log, the write head, back-fill, and the
seal, classify and open path between devices with different logs.

**Code pairing** (`Channel`, `ChannelRuns`, `Pake`, `Mailbox`, `PairingHost`,
`PairingLaws`, `MailboxHost`, `PairingJoin`, `PairingCompletes`,
`PairingRepeats`, `PairingProgress`, `SessionRuns`). The host is a
machine over write-once slots; its steps are the segments of its session loop
between two waits, and between any two steps anybody may write any slot. The two
sealed channels are a second machine against an adversary that drops, replays,
reorders, reflects and injects.

**Blob store and signed encodings** (`BlobDisk`, `BlobLaws`, `BlobHistory`,
`BlobStore`, `ByteOrder`, `Encodings`). Out-of-order chunk assembly over every run, and
injectivity of the bytes that are signed.

## What is assumed of the primitives

A hash into 32 bytes is never taken to be injective, and nothing is assumed of its
collisions: results say "or these two inputs collide" and name the two inputs, which
are ones the statement already speaks of. Of a cipher it is assumed that opening undoes
sealing and accepts nothing else under that key and nonce, which holds of any cipher
that checks a recomputed tag; that a frame does not open under another key or counter
is again an "or" in the result. Of SPAKE2 only `PairingCompletes` assumes anything.
Something meets each assumption: `Sealing.IdealExists` and
`PairingCompletes.AgreeingSuiteExists`. In the bridge the content digest is the
content itself (an ideal digest), with extra values for digests that name nothing.
The channel cipher stands for the one of section 2.8 of RFC 8439.

## Where the code does not do what is said of it

- The comment above `detect_conflicts` (crates/roam-files/src/rebase.rs:138-149) says
  that a conflict always has positive width. The code also reports a zero-width
  range for each remote insert strictly inside a run the local side deletes.
  `Conflicts.ConflictsAreExact` states exactly which, and
  `MergeExamples.ZeroWidthConflictHappens` gives one: "" and "aXbc" over "abc".
- A scan does not always bring a live text file together with its container. When
  the merge equals the remote text while the file differs from both, nothing is
  applied and the file stays dirty. `ScanLaws.ScanConverges` proves this is the only
  exception and `ScanExamples.StuckHappens` puts such a vault through a scan.
- A scan is not idempotent for texts above `DIFF_MAX_CHARS` or for blob entries that
  reach the disk as text or carry rename or tombstone data.
  `ScanOutcome.ScanIsIdempotentIff` gives the exact condition on the vault before the
  scan and `ScanOutcome.OrdinaryScanIsIdempotent` the plain case; `ScanExamples` holds
  two vaults that fail it. Within the diff bound two scans always suffice
  (`ScanOutcome.TwoScansSuffice`).
- The comment at crates/roam-files/src/bridge.rs:968-972 says a single poisoned key must
  not abort the whole reconcile. A live blob entry whose hash is not a digest does: the
  projection of crates/roam-files/src/bridge.rs:990 fails, and with it every scan.
  `ScanOutcome.ScanSucceedsIff` proves that without case-only clashes this is the only
  way a writer's scan fails, and `ScanExamples.PoisonHappens` gives a vault.
- The comments at crates/roam-files/src/bridge.rs:828-832 and 870-871 say that a read-only
  device never authors anything. Its scan does when a tombstoned text's container has
  moved on and the file is present: the entry is then set live without regard to the role.
  `ReaderScans.ReaderAuthorsNothingIff` proves this is the only case, and
  `ReaderScans.ReaderCanAuthor` gives a vault. Nor is the folder always a projection: a
  text deleted there stays away (`ReaderScans.ReaderShowsIff`).
- The comment on `rename_file` says its ordering never loses the content. It is so
  for texts (`BridgeLaws.RenameMovesText`, `BridgeLaws.FailedRenameKeepsFile`). A binary
  is imported as a blob, and what is then moved is its text container:
  `BridgeLaws.RenameDropsBinary` proves that its bytes are on disk under neither key after
  a rename that succeeds.
- The keychain fold depends on entry order when two rotations share an id but not
  their content, or when two wraps deliver different keys that both reproduce an id
  (a hash collision, by `KeychainLaws.ClashIsCollision`).
  `KeychainLaws.OrderInsensitiveIff` proves these are the only ways, for every hash,
  and `KeychainLaws.RotationOrderMatters` gives two logs.
- `frame` writes the manifest length with a cast to 32 bits.
  `Encodings.UnframeFrameIff` gives the exact condition for the round trip.
- The comment on `accept_auto` says a code is good for exactly one pairing. One
  accept is written at most (`PairingLaws.OneAccept`), but a device is enrolled before
  its accept is written, and a taken accept slot sends the host back to polling
  (`PairingLaws.AcceptSlotDecides`). `PairingRepeats.EnrolmentsAreCounted` gives the
  exact count: the devices left without an accept, plus the one whose accept is held or
  written.
  `PairingRepeats.OneCodeEnrolsMany` gives a run with any number of enrolments and no
  attempt spent.

## Model

| member | source | states |
|---|---|---|
| `AncestorEdits.LocalEdits` | crates/roam-files/src/rebase.rs:199-240 | For every change script, the edit list deletes exactly the dropped ancestor positions and inserts exactly the inserted runs, in order, with adjacent edits of one kind coalesced and no empty edit |
| `Conflicts.DetectConflicts` | crates/roam-files/src/rebase.rs:150-191 | The reported conflicts are exactly the contested ranges of overlapping local and remote edits, each once, front to back and without overlap |
| `MergeExamples.ZeroWidthConflictHappens` | crates/roam-files/src/rebase.rs:138-178 | Merging "" and "aXbc" over "abc" reports a conflict of no width though no character is deleted by both sides |
| `Conflicts.ConflictsAreExact` | crates/roam-files/src/rebase.rs:138-191 | In terms of the two scripts: a character lies in a reported range iff both sides delete it, each range carries its ancestor slice, none repeats, and zero-width ranges appear iff the remote inserts strictly inside an uninterrupted local delete run |
| `Rebase.PositionMap` | crates/roam-files/src/rebase.rs:252-291 | The two arrays give, for every ancestor index and the end, where it lands in the remote text, and whether the remote keeps it |
| `Rebase.ShiftIsExact` | crates/roam-files/src/rebase.rs:100-136 | Once all edits before an ancestor position are spliced, that position sits at its remote landing plus the running shift |
| `Rebase.InsertLands` | crates/roam-files/src/rebase.rs:100-136 | A local insert goes, in bounds, right after the remote run at its boundary and before the ancestor character |
| `Rebase.DeleteLands` | crates/roam-files/src/rebase.rs:100-136 | Removing one more ancestor character takes out that very character, in bounds, or nothing when the remote already removed it |
| `Rebase.SpliceOutRange` | crates/roam-files/src/rebase.rs:100-136 | The inner delete loop turns the text spliced so far into the one with the whole range deleted, and keeps the shift equal to the change in length |
| `Rebase.SpliceEdits` | crates/roam-files/src/rebase.rs:100-136 | The in-place splice loop ends with all local edits applied to the remote text |
| `Rebase.MergeLocalOntoRemote` | crates/roam-files/src/rebase.rs:100-136 | For all valid scripts the merge is exactly the interleaving `Merged`, and the conflicts are exact |
| `MergeLaws.MergeOntoUneditedRemote` | crates/roam-files/src/rebase.rs:100-136 | With an unedited remote the merge is the local text |
| `MergeLaws.MergeOfUneditedLocal` | crates/roam-files/src/rebase.rs:100-136 | With an unedited local side the merge is the remote text |
| `MergeLaws.MergeIsSymmetricIff` | crates/roam-files/src/rebase.rs:100-136 | Swapping the two sides gives the same text iff at every boundary the two inserted runs commute |
| `MergeLaws.MergeIsSymmetric` | crates/roam-files/src/rebase.rs:100-136 | In particular when no boundary has inserts from both sides |
| `MergeLaws.MergeOfInserts` | crates/roam-files/src/rebase.rs:100-136 | Where both sides wrote into nothing the remote text comes first |
| `MergeLaws.MergeConserves` | crates/roam-files/src/rebase.rs:100-136 | Counting characters with multiplicity, merge plus ancestor equals local plus remote plus what both sides dropped |
| `TextDiff.OpsTransform` | crates/roam-files/src/textdiff.rs:85-159 | For every script the ops, applied left to right in front of any further text, stay in bounds and turn old into new |
| `TextDiff.OpsAreTidy` | crates/roam-files/src/textdiff.rs:85-159 | No op is empty, runs of one kind are coalesced, positions ascend, and there are no ops iff the script is all equal |
| `TextDiff.CoarseReplace` | crates/roam-files/src/textdiff.rs:66-81 | The coarse fallback also turns old into new, deleting all of one and inserting all of the other, with no ops iff both texts are empty |
| `TextDiff.EmitOps` | crates/roam-files/src/textdiff.rs:92-159 | The loop with its cursor and pending runs emits exactly the ops of the script |
| `TextDiff.OpsSpareTheRest` | crates/roam-files/src/textdiff.rs:85-159 | The ops of a script insert what it inserts and delete as much as it deletes, so no kept character is replaced |
| `TextDiff.DiffToOps` | crates/roam-files/src/textdiff.rs:85-159 | For every differ and bound the ops turn old into new; there are none iff nothing changed and the old text is within the bound; they are tidy below the bound; they delete and insert what the script does when both texts are within the bound, and everything when one is not |
| `FolderBridge.FolderBridge.ApplyAll` | crates/roam-files/src/bridge.rs:344-361 | Ops are applied in order up to the one that fails, which may or may not have reached the container, and the container then holds exactly the ops that did |
| `FolderBridge.FolderBridge.ExpectedText` | crates/roam-files/src/bridge.rs:306-342 | The target text is the file's when the container has not moved, and otherwise the three-way merge |
| `FolderBridge.FolderBridge.ImportText` | crates/roam-files/src/bridge.rs:306-399 | Success leaves the value-level import; a failure at any op leaves the sidecar healed to the container's actual text |
| `FolderBridge.FolderBridge.ImportBlob` | crates/roam-files/src/bridge.rs:410-483 | The new state is the value-level blob import, with its tombstone guard, its unchanged case and single-version release |
| `FolderBridge.FolderBridge.ImportFile` | crates/roam-files/src/bridge.rs:258-399 | State and error are those of the value-level import, in the order read-only, case clash, missing file; or a healed storage failure |
| `FolderBridge.FolderBridge.ProjectFile` | crates/roam-files/src/bridge.rs:574-644 | State and error are those of projecting the container onto disk, refusing dirty files |
| `FolderBridge.FolderBridge.ProjectBlob` | crates/roam-files/src/bridge.rs:697-730 | Blob bytes reach the disk with a marker when held, and nothing moves when they are not |
| `FolderBridge.FolderBridge.WriteTombstone` | crates/roam-files/src/bridge.rs:1418-1454 | The entry becomes a tombstone with the given kind and digest, stamped past every earlier write |
| `FolderBridge.FolderBridge.DeleteFile` | crates/roam-files/src/bridge.rs:492-545 | State and error are those of the value-level delete |
| `FolderBridge.FolderBridge.Resurrect` | crates/roam-files/src/bridge.rs:1148-1166 | State and error are those of making an entry live again and projecting it |
| `FolderBridge.FolderBridge.RenameFile` | crates/roam-files/src/bridge.rs:1229-1291 | State and error are those of the value-level rename |
| `FolderBridge.FolderBridge.HealEntry` | crates/roam-files/src/bridge.rs:873-902 | A present file with a sidecar and no entry gets its live entry |
| `FolderBridge.FolderBridge.DetectDelete` | crates/roam-files/src/bridge.rs:904-961 | A live entry whose file is gone is tombstoned iff this device has its sidecar or marker |
| `FolderBridge.FolderBridge.Reconcile` | crates/roam-files/src/bridge.rs:964-1115 | One entry is applied to disk: projected, kept dirty, resurrected or removed |
| `FolderBridge.FolderBridge.Scan` | crates/roam-files/src/bridge.rs:801-1128 | A writer's scan equals the four runs over listings of the files and entries, a reader's the two of `ReaderScan`, each stopping at the first error |
| `ScanLaws.ScanAt` | crates/roam-files/src/bridge.rs:801-1128 | A whole scan acts on each key by itself: what it leaves at a key is one function of what was there and of the blobs held |
| `ScanLaws.ScanConverges` | crates/roam-files/src/bridge.rs:801-1128 | After a successful scan every live text key has disk, container and sidecar equal, except exactly the stuck keys, where all three are as before |
| `ScanExamples.StuckHappens` | crates/roam-files/src/bridge.rs:306-342 | A vault that a scan leaves as it is, with file, sidecar and container all different |
| `ScanLaws.ScanRests` | crates/roam-files/src/bridge.rs:801-1128 | A key is at rest after a scan when it was stable, and is still noisy when it was not |
| `ScanRest.ScanKeepsNoClash` | crates/roam-files/src/bridge.rs:801-1128 | A scan introduces no case-only key clash |
| `ScanRest.BlobsHeld` | crates/roam-files/src/bridge.rs:410-483 | After a scan the bytes of every binary on disk are in the blob store |
| `ScanRest.SecondScanRests` | crates/roam-files/src/bridge.rs:801-1128 | If every key is stable, a second scan changes no file, sidecar, marker, entry, container or blob and authors nothing |
| `ScanRest.SecondScanStirs` | crates/roam-files/src/bridge.rs:801-1128 | If some key is not stable, a second scan authors another write or fails |
| `ScanRest.NamedBlobAfterImports` | crates/roam-files/src/bridge.rs:410-483 | A blob named by a key that is not on disk is held after the imports iff it is held before them or is a binary on disk, in single-version mode too |
| `ScanRest.SecondScanIff` | crates/roam-files/src/bridge.rs:801-1128 | After a scan that succeeds, in any mode, a second changes nothing iff every key was stable before the first |
| `ScanOutcome.ScanSucceedsIff` | crates/roam-files/src/bridge.rs:801-1128 | A writer's scan without case-only clashes succeeds iff no key is poisoned |
| `ScanOutcome.ScanIsIdempotentIff` | crates/roam-files/src/bridge.rs:801-1128 | A scan succeeds and a second one changes nothing iff no key is poisoned and every key is stable, a condition on the vault before the scan |
| `ScanOutcome.OrdinaryScanIsIdempotent` | crates/roam-files/src/bridge.rs:801-1128 | Texts and merges within the diff bound, hashes that are digests and absent blob entries that name just a binary make a scan succeed and be idempotent, in every mode |
| `ScanOutcome.TwoScansSuffice` | crates/roam-files/src/bridge.rs:801-1128 | Within the diff bound a successful scan is followed by another, and a third changes nothing |
| `ScanExamples.PoisonHappens` | crates/roam-files/src/bridge.rs:964-994 | A vault with one malformed blob hash on which a scan fails and changes nothing |
| `ScanExamples.TextPayloadIsNotIdempotent` | crates/roam-files/src/bridge.rs:697-730 | A blob entry whose bytes are text makes the second scan differ |
| `ScanExamples.LongTextIsNotIdempotent` | crates/roam-files/src/textdiff.rs:85-90 | A text above the diff bound makes the second scan differ |
| `ScanTable.ScanBringsOutcome` | crates/roam-files/src/bridge.rs:801-1128 | What a successful scan makes of every key, situation by situation: a text, a binary or no file, against no entry, a live one or a tombstone |
| `ReaderScans.ReaderScanSucceedsIff` | crates/roam-files/src/bridge.rs:828-866 | A reader's scan fails iff a live blob entry's hash is no digest |
| `ReaderScans.ReaderScanBringsOutcome` | crates/roam-files/src/bridge.rs:828-1107 | What a reader's scan makes of every key, situation by situation |
| `ReaderScans.ReaderShowsIff` | crates/roam-files/src/bridge.rs:828-866 | A live text is on disk afterwards, whatever was edited there, iff its file is present or was never here |
| `ReaderScans.ReaderAuthorsNothingIff` | crates/roam-files/src/bridge.rs:1063-1107 | A reader's scan touches no container and no blob, and no entry iff no tombstone of a present file is overturned |
| `ReaderScans.ReaderCanAuthor` | crates/roam-files/src/bridge.rs:1079-1094 | A vault whose reader's scan changes an entry |
| `ReaderScans.ReaderIsIdempotentIff` | crates/roam-files/src/bridge.rs:828-1107 | A reader's second scan changes nothing iff no blob entry reached the disk as text |
| `ScanFailures.FailedImportsStand` | crates/roam-files/src/bridge.rs:801-870 | A scan whose imports fail stops at one file: those before it are imported, every other key is as it was, no file has moved |
| `ScanFailures.FailedScanStands` | crates/roam-files/src/bridge.rs:966-1000 | A scan that fails later stops at one poisoned key: the keys applied before it are at their outcome, elsewhere no file has moved |
| `ScanTable.ScanStoresBinaries` | crates/roam-files/src/bridge.rs:410-483 | Outside single-version mode a scan adds exactly the binaries on disk to the blob store |
| `ScanTable.ScanLeavesEvidence` | crates/roam-files/src/bridge.rs:635-641 | After a scan every live text on disk has a sidecar and every binary a marker and an entry |
| `ScanTable.DeletionIsNoticed` | crates/roam-files/src/bridge.rs:904-961 | A file removed from the folder after a scan is tombstoned by the next, a text with what was last synced, a binary with its hash |
| `FileSet.CaseClashIff` | crates/roam-files/src/bridge.rs:1384-1399 | Keys clash iff they differ, and only in the case of ASCII letters |
| `BridgeLaws.ImportRefusesIff` | crates/roam-files/src/bridge.rs:258-304 | A reader, a key that only case tells from a live one, and a missing file are refused, in that order, and nothing else moves |
| `BridgeLaws.ImportKeepsCaseDistinct` | crates/roam-files/src/bridge.rs:1384-1399 | Importing never makes two live entries that only case tells apart |
| `BridgeLaws.TargetLaws` | crates/roam-files/src/bridge.rs:306-342 | An import aims for the file's text when nothing moved elsewhere, for the container's when nothing moved here, and puts the container's first where both wrote into nothing |
| `BridgeLaws.ImportTextMeans` | crates/roam-files/src/bridge.rs:306-399 | A text import moves one key: container to the target, sidecar to the file, entry live with the file's hash; nothing when there is nothing to apply |
| `BridgeLaws.ImportBinaryMeans` | crates/roam-files/src/bridge.rs:410-483 | A binary import stores, marks and records one key, lets a tombstone of the same bytes stand, and releases a blob iff it is superseded in single-version mode and named nowhere else |
| `BridgeLaws.FailedImportMeans` | crates/roam-files/src/bridge.rs:1626-1671 | A failed import moves only its own container and sidecar |
| `BridgeLaws.ProjectFileIff` | crates/roam-files/src/bridge.rs:574-644 | A projection is refused iff it would overwrite an unsynced edit; otherwise file, sidecar and container agree; no other key moves |
| `BridgeLaws.ProjectBlobIff` | crates/roam-files/src/bridge.rs:697-730 | A blob is written iff its bytes are here and no file is, and only a malformed hash is an error |
| `BridgeLaws.TombstoneMeans` | crates/roam-files/src/bridge.rs:1418-1454 | A tombstone records kind and content and a revision that includes it but not the write that adds the record |
| `BridgeLaws.DeleteMeans` | crates/roam-files/src/bridge.rs:492-545 | A delete tombstones one key with what it should record, takes its file, sidecar and a blob's marker, and leaves containers, blobs and every other key alone |
| `BridgeLaws.ReaderDeletesNothing` | crates/roam-files/src/bridge.rs:492-496 | A reader's delete or resurrection is refused and nothing moves |
| `BridgeLaws.ResurrectMeans` | crates/roam-files/src/bridge.rs:1148-1166 | A resurrected entry is live with the content it named, and that content is back on disk |
| `BridgeLaws.ResurrectRefusesIff` | crates/roam-files/src/bridge.rs:1148-1166 | A key without an entry, and no other, is not found |
| `BridgeLaws.MoveMeans` | crates/roam-files/src/bridge.rs:1252-1291 | The second half of a rename, for any two keys: seeded container, both entries, projection unless it would overwrite an unsynced edit, and only then the old file and sidecar |
| `BridgeLaws.RenameMovesText` | crates/roam-files/src/bridge.rs:1229-1291 | Renaming a text to a fresh key puts the text its import aims for in the new file, sidecar and container, with a live entry that names it and where it came from; the old key is a tombstone of it; nothing else moves |
| `BridgeLaws.FailedRenameKeepsFile` | crates/roam-files/src/bridge.rs:1224-1228 | After a rename that fails the old file is as it was |
| `BridgeLaws.RenameRefusesIff` | crates/roam-files/src/bridge.rs:1229-1256 | A reader's rename is refused, a rename to itself does nothing, a case clash of the old key is reported |
| `BridgeLaws.RenameDropsBinary` | crates/roam-files/src/bridge.rs:1252-1291 | After renaming a binary its bytes are on disk under neither key |
| `DeleteLaws.DeleteRecordsLastSync` | crates/roam-files/src/bridge.rs:492-545 | A delete records the text this device last synced, drops file and sidecar, and keeps the container |
| `DeleteLaws.ScanRecordsLastSync` | crates/roam-files/src/bridge.rs:904-961 | A scan that finds the file gone records the same |
| `DeleteLaws.TombstoneMeetsScan` | crates/roam-files/src/bridge.rs:1029-1112 | A scan that meets any text tombstone while the file is here keeps it live iff its import has ops or its container differs from the recorded text; otherwise file and sidecar go and the tombstone stands |
| `DeleteLaws.DeleteVersusEdit` | crates/roam-files/src/bridge.rs:492-545 | Two devices, explicit delete: the second keeps the file iff its import has ops or its container differs from the text the first last synced |
| `DeleteLaws.ScanDeleteVersusEdit` | crates/roam-files/src/bridge.rs:904-961 | The same when the first device's scan finds the file gone |
| `DeleteLaws.BlobDeleteVersusEdit` | crates/roam-files/src/bridge.rs:1029-1112 | A binary survives a tombstone iff its bytes differ from the recorded ones |
| `DeleteLaws.RetryConverges` | crates/roam-files/src/bridge.rs:1626-1671 | However far a failed import got, a retry ends with container, sidecar and disk equal |
| `VaultRuns.RunVouches` | crates/roam-files/src/bridge.rs:635-641 | Over every run of imports, projections, scans, deletes, renames, resurrections, remote merges and outside edits, sidecars and markers exist only for files this device has had |
| `VaultRuns.OnlySeenFilesAreDeleted` | crates/roam-files/src/bridge.rs:904-961 | In every such run the local-deletion step tombstones a key only if its file was on this device's disk earlier |
| `Keychain.ComputeEpochId` | crates/roam-storage/src/keychain.rs:120-134 | The id is the hash of parents, minter, nonce and key end to end |
| `Keychain.PreimageInjective` | crates/roam-storage/src/keychain.rs:120-134 | That preimage is injective though nothing in it is length-prefixed |
| `Keychain.PreimageLayout` | crates/roam-storage/src/keychain.rs:120-134 | Parents, then eight little-endian bytes of the minter, then nonce, then key |
| `Keychain.BuiltAt` | crates/roam-storage/src/keychain.rs:139-216 | The fold, epoch by epoch: present iff genesis or announced, and then the first announcement with all its wraps |
| `Keychain.ReceiveAllMeans` | crates/roam-storage/src/keychain.rs:160-208 | A node in closed form: recipients are exactly those wrapped to, the key is the first delivered one that commits |
| `KeychainLaws.FoldIsMonotone` | crates/roam-storage/src/keychain.rs:139-216 | Appending entries never loses an epoch, a key or a recipient, for any log |
| `KeychainLaws.HeldKeysCommit` | crates/roam-storage/src/keychain.rs:160-208 | A held key reproduces its epoch id |
| `KeychainLaws.KeysAgree` | crates/roam-storage/src/keychain.rs:120-208 | Two devices holding a key for one epoch, from any two logs, hold the same key and announcement, or their preimages collide |
| `KeychainLaws.GenesisStands` | crates/roam-storage/src/keychain.rs:139-216 | In every log genesis is the all-zero id, without parents, with the vault's own key |
| `KeychainLaws.EpochMeans` | crates/roam-storage/src/keychain.rs:160-208 | An epoch in terms of the log: announced by its first rotation, wrapped to exactly those some wrap names, with a key iff some wrap to this device brings one that reproduces the id |
| `KeychainLaws.NoPhantomEpochs` | crates/roam-storage/src/keychain.rs:160-208 | An epoch exists iff it is genesis or some rotation announced it |
| `KeychainLaws.ClashIsCollision` | crates/roam-storage/src/keychain.rs:160-208 | Two wraps that deliver different keys for one announcement exhibit a collision of the hash |
| `KeychainLaws.OrderDoesNotMatter` | crates/roam-storage/src/keychain.rs:139-216 | Logs with the same entries, in any order and multiplicity, build the same epochs when equal ids agree on content and no epoch is delivered under two keys |
| `KeychainLaws.OrderInsensitiveIff` | crates/roam-storage/src/keychain.rs:139-216 | For every hash, a log is insensitive to order and duplicates iff rotations with equal ids agree and no epoch is delivered under two keys |
| `KeychainLaws.RotationOrderMatters` | crates/roam-storage/src/keychain.rs:139-216 | Two rotations of one id with different nonces build different epochs in the two orders, on every device |
| `ByteOrder.LessIff` | crates/roam-storage/src/keychain.rs:227-240 | The order of ids is the dictionary order on bytes |
| `EpochDag.SelectHead` | crates/roam-storage/src/keychain.rs:227-240 | The head is the leaf that has the smaller byte at the first difference from any other, or genesis when there is none |
| `EpochDag.DagHeads` | crates/roam-storage/src/keychain.rs:363-380 | The result is all leaves, each with the smaller byte at its first difference from any later one, or genesis when there is none |
| `EpochDag.HeadIsFirst` | crates/roam-storage/src/keychain.rs:227-240 | The head is the first of the DAG heads |
| `EpochDag.SameEntriesSameHead` | crates/roam-storage/src/keychain.rs:227-240 | Any two devices whose logs hold the same entries, with rotations of one id agreeing, write under one head, whichever keys they hold |
| `EpochDag.Build` | crates/roam-storage/src/keychain.rs:139-216 | The two loops compute the fold and select its head |
| `EpochDag.RotationBecomesHead` | crates/roam-storage/src/keychain.rs:363-380 | A rotation with a fresh id parented on all DAG heads becomes the only leaf and the head |
| `Backfill.BackfillTargets` | crates/roam-storage/src/keychain.rs:340-358 | The targets are exactly the epochs past genesis with a held key, for each active member not yet wrapped to, each once when the roster lists each peer once |
| `Backfill.TargetIff` | crates/roam-storage/src/keychain.rs:340-358 | The targets in terms of the log and the roster: no wrap in the log names that epoch and that active member |
| `Backfill.NeverRevoked` | crates/roam-storage/src/keychain.rs:340-358 | In a roster that lists each peer once, a revoked one gets no wrap |
| `Backfill.NeverSelf` | crates/roam-storage/src/keychain.rs:340-358 | A device never back-fills itself |
| `Backfill.BackfillIsComplete` | crates/roam-storage/src/keychain.rs:340-358 | Publishing all targets once leaves none, and leaves epochs, keys and head as they were |
| `Backfill.BackfillDelivers` | crates/roam-storage/src/keychain.rs:340-358 | A device that can open the wrap published for it holds the target's key once it has the log, or the two keys' preimages collide |
| `Sealing.SealsOnlyUnderHead` | crates/roam-backend-client/src/sync.rs:378-392 | Past genesis a write carries the head's id and is sealed under the head's key, and without that key there is no write |
| `Sealing.SealThenOpen` | crates/roam-backend-client/src/sync.rs:32-41 | Across devices with different logs: a reader with the head key gets the plaintext, one that knows the epoch without its key gets nothing, one that does not know it gets nothing unless the payload is also a legacy ciphertext |
| `Sealing.LegacySealThenOpen` | crates/roam-storage/src/keychain.rs:281-299 | A genesis payload opens everywhere unless its first 32 bytes are a known epoch id |
| `Sealing.SealsLegacyAtGenesis` | crates/roam-backend-client/src/sync.rs:378-392 | At genesis a write is the untagged legacy form, with or without a held key |
| `Sealing.OpensIff` | crates/roam-backend-client/src/sync.rs:32-41 | A payload opens to a text iff it is that text sealed under the key of the known epoch it is tagged with or, bearing no known tag, under the genesis key |
| `Sealing.OpensBody` | crates/roam-storage/src/epoch_crypto.rs:18-40 | Opening undoes the sealed layout of nonce and ciphertext |
| `Channel.NonceInjective` | crates/roam-pake/src/lib.rs:168-172 | Different counters give different nonces |
| `Channel.NonceLayout` | crates/roam-pake/src/lib.rs:168-172 | The counter in the low eight bytes, then four zeros |
| `Channel.Sealer.Seal` | crates/roam-pake/src/lib.rs:185-198 | The frame is sealed at the current counter, which then advances; at the last counter nothing is released |
| `Channel.Opener.Open` | crates/roam-pake/src/lib.rs:217-227 | A frame is opened at the current counter, which advances only when it opens |
| `Channel.Split` | crates/roam-pake/src/lib.rs:140-155 | Each side sends with the key the other receives with, both from counter zero |
| `ChannelRuns.AllIsSent` | crates/roam-pake/src/lib.rs:174-199 | Whatever is delivered in between, a side sends what it is asked to, in order, until its counter has no next value |
| `ChannelRuns.ReceivedIsPrefix` | crates/roam-pake/src/lib.rs:138-228 | In every run against the adversary each side has received a prefix, in order, of what the other sealed, or a released frame opens under a session key and counter not its own |
| `ChannelRuns.NeverDesynchronised` | crates/roam-pake/src/lib.rs:208-228 | After any run the next frame in order still opens to what was sealed, with the same exception |
| `ChannelRuns.NoNonceReuse` | crates/roam-pake/src/lib.rs:166-199 | For any cipher and whatever is sealed and delivered, no run releases two frames under one key and nonce |
| `ChannelRuns.OneKeyReflects` | crates/roam-pake/src/lib.rs:115-129 | With one key for both directions a side's own message would open as its peer's |
| `Pake.SessionKeysDiffer` | crates/roam-pake/src/lib.rs:272-277 | Each side opens with what the other seals with, derived in the context that names the direction; the two directions differ, or the derivation takes its two contexts to one value for this key |
| `SessionRuns.PairedReceivesPrefix` | crates/roam-pake/src/lib.rs:138-228 | The prefix result for the keys of any handshake, with that collision as the exception |
| `SessionRuns.PairedReusesNoNonce` | crates/roam-pake/src/lib.rs:166-199 | No nonce reuse for the keys of any handshake, with the same exception |
| `SessionRuns.HostUsesBothKeys` | crates/roam-pairing/src/handshake.rs:322-344 | In every run the host opens the request and seals the accept with the two directions of the handshake it proved |
| `Pake.TranscriptLayout` | crates/roam-pake/src/lib.rs:250-270 | Role byte, both identities, then each message behind its length |
| `Pake.RolesConfirmApart` | crates/roam-pake/src/lib.rs:237-270 | What one side confirms is not what the other does, unless these two collide |
| `Pake.TranscriptInjective` | crates/roam-pake/src/lib.rs:250-270 | The confirmation input determines role, identities and both messages |
| `Pake.ConfirmBinds` | crates/roam-pake/src/lib.rs:250-270 | Equal confirmations mean one key, one role and one transcript, or these two derivations or keyed hashes collide |
| `Pake.ResponderState.Respond` | crates/roam-pake/src/lib.rs:411-450 | The answer is fixed by code, identities, message and seed, fails only on an empty budget or a malformed message, and costs nothing |
| `Pake.ResponderState.Verify` | crates/roam-pake/src/lib.rs:474-487 | The verdict, and that exactly a wrong confirmation costs one attempt |
| `Pake.AcceptedIff` | crates/roam-pake/src/lib.rs:474-487 | After any guesses over any runs of the exchange, the next is accepted iff it is right and fewer than three were wrong |
| `Mailbox.MemoryMailbox.Put` | crates/roam-pairing/src/mailbox.rs:160-168 | A free slot takes the body and a taken one keeps its own; nothing written ever changes |
| `Mailbox.FirstWriterWins` | crates/roam-pairing/src/mailbox.rs:160-177 | After any writes by anyone a slot holds what its first writer wrote, and is empty iff nobody wrote it |
| `Hosting.MailboxHost.Pick` | crates/roam-pairing/src/handshake.rs:277-312 | One turn of the accept loop is the machine's step, with its skips and its early ends |
| `Hosting.MailboxHost.Write` | crates/roam-pairing/src/handshake.rs:351-361 | A taken slot ends the session, a free one is written |
| `Hosting.MailboxHost.PutMsg2` | crates/roam-pairing/src/handshake.rs:309-313 | Writing the second message is the machine's step |
| `Hosting.MailboxHost.ReadConfirm` | crates/roam-pairing/src/handshake.rs:315-325 | Reading and judging the confirmation is the machine's step, including its charge |
| `Hosting.MailboxHost.PutConfirm` | crates/roam-pairing/src/handshake.rs:326-328 | Writing the host's confirmation and splitting the key is the machine's step |
| `Hosting.MailboxHost.ReadRequest` | crates/roam-pairing/src/handshake.rs:331-344 | Opening the request, reading the device it names, enrolling that device and building and sealing its accept is the machine's step, including a refusal and an accept that cannot be built |
| `Hosting.MailboxHost.PutAccept` | crates/roam-pairing/src/handshake.rs:345-346 | Writing the accept is the machine's step |
| `PairingLaws.EveryRunKeeps` | crates/roam-pairing/src/handshake.rs:240-361 | The invariant behind the next five, over every run with writes by anyone between any two steps |
| `PairingLaws.AttemptsAreWrongGuesses` | crates/roam-pairing/src/handshake.rs:240-361 | Spent attempts equal the number of sessions whose second message the host wrote and whose confirmation it read as a wrong 32-byte value: at most three |
| `PairingLaws.SquattingIsFree` | crates/roam-pairing/src/handshake.rs:349-361 | A session whose second message is somebody else's is never charged for, however the run goes on |
| `PairingLaws.ServedOnce` | crates/roam-pairing/src/handshake.rs:277-294 | Each session is served at most once |
| `PairingProgress.StepMovesOn` | crates/roam-pairing/src/handshake.rs:277-299 | Whatever the host does in a session, it is one step further in it afterwards or polls for the next |
| `PairingProgress.StepsAreBounded` | crates/roam-pairing/src/handshake.rs:263-299 | However the adversary schedules and writes, the host takes at most six steps for each session it takes up, and one to give up |
| `PairingProgress.GivesUpOnlyWhenTold` | crates/roam-pairing/src/handshake.rs:263-299 | No wrong code, taken slot or unreadable message ends the hosting |
| `PairingProgress.TheEndIsFinal` | crates/roam-pairing/src/handshake.rs:288-294 | After a pairing or giving up the host does nothing more |
| `PairingLaws.PickedOnce` | crates/roam-pairing/src/handshake.rs:277-294 | No session is taken up a second time, however the first attempt ended |
| `PairingLaws.SpentCodeIsDead` | crates/roam-pairing/src/handshake.rs:263-299 | Once the budget is spent the host writes nothing and enrols nobody, however the run goes on |
| `PairingLaws.ProofComesFirst` | crates/roam-pairing/src/handshake.rs:302-347 | The host's confirmation, its accept and any enrolment come only in a session whose joiner's confirmation matched, the enrolled device is the one the request in that session names, and what the host wrote still stands |
| `PairingLaws.OneAccept` | crates/roam-pairing/src/handshake.rs:226-230 | An accept was written in a session iff hosting ended with that session joined |
| `PairingLaws.AcceptSlotDecides` | crates/roam-pairing/src/handshake.rs:335-346 | A device is enrolled before its accept is written; the pairing completes iff that slot is free, and otherwise the device stays enrolled and the host polls on |
| `PairingJoin.EveryPairingKeeps` | crates/roam-pairing/src/handshake.rs:499-580 | With a joiner beside the host, its record of the run is always what stands in the slots |
| `PairingJoin.JoinerAgreesWithHost` | crates/roam-pairing/src/handshake.rs:544-557 | When the confirmation the joiner checked was written by the host, both hold one key and one transcript and the invite named the real host, or these two confirmations collide |
| `PairingJoin.HostAgreesWithJoiner` | crates/roam-pairing/src/handshake.rs:315-325 | When the host takes the joiner's confirmation, the same |
| `PairingJoin.AdmittedWithTheAccept` | crates/roam-pairing/src/handshake.rs:574-580 | A joiner admitted by the host's accept holds exactly the payload prepared for the device that joiner named, and that device is the one joined, or the two confirmations collide |
| `PairingRepeats.EnrolmentsAreCounted` | crates/roam-pairing/src/handshake.rs:335-346 | In every run enrolments equal the devices left without an accept plus the one whose accept the host holds or wrote |
| `PairingRepeats.OneEnrolmentIff` | crates/roam-pairing/src/handshake.rs:226-346 | A code has enrolled at most one device iff none was left without an accept, or one was and no accept is offered after it |
| `PairingRepeats.OneCodeEnrolsMany` | crates/roam-pairing/src/handshake.rs:226-346 | For any list of sessions there is a run that enrols one device in each under one code, with no attempt spent and the host still polling |
| `PairingCompletes.HonestPairingCompletes` | crates/roam-pairing/src/handshake.rs:240-580 | From any state in which the host polls with budget left, an undisturbed pairing with the right code and invite ends joined, with the payload delivered and no attempt spent |
| `PairingCompletes.TwoWrongGuessesAreForgiven` | crates/roam-pake/src/lib.rs:89-93 | That holds after any run in which at most two wrong guesses were read, and leaves the rest of the three attempts |
| `PairingCompletes.AgreementIsReached` | crates/roam-pairing/src/handshake.rs:240-580 | From a fresh host such a pairing reaches a state with the joiner admitted and both confirmation and accept written by the host, as the agreement results suppose |
| `Blobs.BlobStore.Put` | crates/roam-storage/src/blob.rs:57-80 | The bytes are stored under their hash unless that name exists |
| `Blobs.BlobStore.Get` | crates/roam-storage/src/blob.rs:87-100 | Invalid names, missing blobs and corrupt blobs are told apart and only matching bytes are returned |
| `Blobs.BlobStore.Remove` | crates/roam-storage/src/blob.rs:113-120 | Only that blob goes, and a missing one is no error |
| `Blobs.BlobStore.WriteIncomingChunk` | crates/roam-storage/src/blob.rs:196-245 | The four refusals in their order, each leaving everything as it was, or the chunk written over a zero-filled or existing part |
| `Blobs.BlobStore.FinalizeIncoming` | crates/roam-storage/src/blob.rs:255-288 | A part becomes a blob iff its bytes hash to the name, and is dropped otherwise |
| `Blobs.BlobStore.DiscardIncoming` | crates/roam-storage/src/blob.rs:294-305 | Only that part goes |
| `BlobLaws.EveryBlobHashesToItsName` | crates/roam-storage/src/blob.rs:57-305 | In every reachable state every stored blob hashes to its name |
| `BlobHistory.FilesAreTheirHistory` | crates/roam-storage/src/blob.rs:57-305 | After any run a name is in the store iff some put or successful transfer of it has no later removal, and holds the latest such transfer, or else the first such put |
| `BlobHistory.OtherNamesStay` | crates/roam-storage/src/blob.rs:57-305 | No operation touches what is stored or being received under another name |
| `BlobHistory.ValidNamesAreHex` | crates/roam-storage/src/blob.rs:308-316 | A name is valid iff it is 64 lower-case hexadecimal digits, so it is one path component |
| `BlobHistory.ChunkRefusedIff` | crates/roam-storage/src/blob.rs:203-242 | Which refusal a chunk meets, and that a refused one changes nothing |
| `BlobLaws.GetIsSound` | crates/roam-storage/src/blob.rs:82-100 | Whatever is on disk, a read returns only bytes with the asked hash, and fails exactly on an invalid name or a mismatch |
| `BlobLaws.PutThenGet` | crates/roam-storage/src/blob.rs:57-100 | After any run what was put is what is got, or two byte strings collide |
| `BlobLaws.EveryRunAssembles` | crates/roam-storage/src/blob.rs:196-305 | After any run of all operations on all names, a part exists iff some chunk fitted since the transfer began, has the first fitting chunk's length, and holds at each position the byte of the last accepted chunk there, or zero |
| `BlobLaws.AssembledIsUnique` | crates/roam-storage/src/blob.rs:196-245 | That description fixes the part completely |
| `BlobLaws.FinalizeIff` | crates/roam-storage/src/blob.rs:255-288 | Finalizing stores a given blob from the part iff the history assembles to it; otherwise no finished blob changes, or a collision is stored; the transfer is over either way |
| `BlobLaws.CoveringChunksAssemble` | crates/roam-storage/src/blob.rs:188-245 | Once the blob's length is pinned, honest chunks that cover it, in any order, repeated, overlapping and mixed with malformed ones and ones announcing another length, assemble to exactly it |
| `BlobLaws.CoveringChunksFinalize` | crates/roam-storage/src/blob.rs:196-288 | Finalizing then stores the blob and reading returns it, whatever else the run did |
| `Encodings.CanonicalBytes` | crates/roam-storage/src/keylog.rs:53-85 | The pushed buffer is the field-by-field encoding |
| `Encodings.CanonicalBytesInjective` | crates/roam-storage/src/keylog.rs:53-85 | No two key-log entries share their signed bytes |
| `Encodings.DomainsSeparate` | crates/roam-storage/src/snapshot_msg.rs:18-20 | No key-log entry has the signed bytes of a manifest |
| `Encodings.EntryLayout` | crates/roam-storage/src/keylog.rs:53-59 | Where the domain, sequence number, author, epoch id and tag of a signed entry stand |
| `Encodings.RotateLayout` | crates/roam-storage/src/keylog.rs:60-70 | The count of parents, each parent, the nonce |
| `Encodings.WrapLayout` | crates/roam-storage/src/keylog.rs:71-83 | The recipient's tag and id, and the blob behind its length |
| `Encodings.ManifestLayout` | crates/roam-storage/src/snapshot_msg.rs:45-54 | Where the domain, both digests and the author of a signed manifest stand |
| `Encodings.IdListLayout` | crates/roam-storage/src/snapshot_msg.rs:81-89 | The count, then the ids in dictionary order |
| `Encodings.IdsLayout` | crates/roam-storage/src/snapshot_msg.rs:85-88 | Each id behind its eight-byte length |
| `Encodings.AppendIdList` | crates/roam-storage/src/snapshot_msg.rs:81-89 | The list is appended sorted, with count and lengths |
| `Encodings.SigningBytes` | crates/roam-storage/src/snapshot_msg.rs:45-54 | The buffer is the encoding of the manifest |
| `Encodings.SigningBytesIff` | crates/roam-storage/src/snapshot_msg.rs:45-89 | Two manifests have equal signed bytes iff digest, ciphertext hash and author agree and both id lists are permutations of each other |
| `Encodings.UnframeFrameIff` | crates/roam-storage/src/snapshot_msg.rs:102-122 | A frame is read back as written iff the manifest is shorter than 2^32 bytes |
| `Encodings.FrameLayout` | crates/roam-storage/src/snapshot_msg.rs:102-108 | Four length bytes, least significant first, then manifest, then ciphertext |
| `Encodings.FrameOfUnframe` | crates/roam-storage/src/snapshot_msg.rs:110-122 | Whatever is read frames to the bytes it was read from, and only truncated frames are refused |

## Left out

- Hinted scans, `restore_*`, `revert_file` and `GcContext` of the bridge: the scan theorems are for full scans.
- File system behaviour: paths, symlink containment, temporary files and renames are one atomic map update, and disk files are keyed by container id.
- Unparseable entry values, corrupt sidecar files and Unicode normalisation of names.
- The CRDT itself: a store is maps of texts and entries, `revision` counts authored writes in place of a version vector, a batch of ops counts once, and ops apply faithfully up to a failure, which is why the desync branch of `reconcile_sidecar` has no counterpart.
- FolderBridge.FolderBridge.Scan: visits keys in some listing order; the sort of the source is not modelled because no result depends on it.
- ScanRest.SecondScanStirs: says that the second scan differs, not by how much.
- ScanOutcome.ScanSucceedsIff: in single-version mode speaks of vaults whose hashes are all digests; with a malformed one, whether an import fails there depends on which other entries name it and on the order of the files.
- Sealing.LegacySealThenOpen: says nothing when the first 32 bytes happen to be a known epoch id, where the code takes the tagged reading.
- `diagnose`, `key_matches_epoch`, the JSON forms and the files of the key log: they would only add easy members.
- Signature checks: the encodings are proved injective, the signatures over them are not modelled.
- Clocks: the pairing window and step timeouts are steps that may happen at any time a session or the polling is waiting; the role check before hosting, listing order of sessions and mailbox I/O errors that leave a write in doubt are not modelled.
- PairingJoin.JoinerAgreesWithHost: applies when the host wrote the confirmation; that nobody else can write a matching one is the strength of the keyed hash, which is not modelled.
- ChannelRuns.ReceivedIsPrefix: takes the two direction keys to differ, which `OneKeyReflects` shows is needed; injected bytes are ones that no session key authenticates.
- SPAKE2 is any pair of functions; only `PairingCompletes` takes from it that equal codes and identities give equal keys.
- `read_range`, `list`, `size` and `has` of the blob store, `sessions` of the mailbox, and the copy fallback when a rename fails.
- Zeroization, constant-time comparison and randomness, which appears as seeds and nonces given from outside.
