# Wildland, verified

A Dafny model of the core of Wildland, with proofs of what it promises. Every file holds one or two modules; the
imports show the order they build on each other.

- **Mounted storages.** `Mounts` says what a set of mounted (path, storage id) pairs means: which nodes a pruned
  prefix tree has, which storages answer for a path, which directories are synthetic. `MountDir` is the tree of
  mutable nodes that the program keeps, proved against that set. `Resolution` gives the answers of `readdir` and
  `getattr` as functions of the mounts and of what the storages answer, `Listing` describes them by membership, and
  `Agreement` proves exactly when the two, written separately in the source, agree. `ConflictNames` is the renaming of
  clashing files and its decoding. `ConflictResolver` is the resolver object with its cache, `Pseudomanifests` holds the
  inputs on which listing and lookup disagree.
- **The mount table.** `MountTable` is the table of storages, paths and ids with its commands; its theorems are about
  every run. `WildlandFs` is the object that carries out the commands on the table, the tree, the lazily mounted
  storages and the watches (`Watchers`), and `FileCreation` is what creating a file does to later lookups.
- **Clients.** `ClientTree` is the trie the client builds from the server's list of paths, proved to answer like the
  server's tree; `Reconcile` is the remounter's round, run against the same table, `Batches` a batch
  of them, `MountPaths` the paths they mount under; `ControlProtocol` is the framed connection between them, as code
  and as a state machine over all interleavings.
- **Manifests.** `Header`, `Encryption`, `SigContext`, `Migration`, `Version1` and `UpdateValues` are the parts of the manifest
  format, and `ManifestWire` puts them together into the round trip of a written manifest.
- **Graph algorithms and paths.** `Bridges` enumerates bridge paths, `ReferenceOrder` orders containers by reference,
  `Search` resolves a path with remembered answers, `WlPath` parses and prints Wildland paths.

Code that works step by step is a method or a class here, proved against a function of its inputs or of its old state;
the theorems are about those functions. Ghost functions and predicates belong to proofs only. A path is the list of its
parts, the root being the part "/". A storage is what it answers to `getattr` and `readdir` (`World`).

Some results say where the program does not do what is promised, and exactly when it does:

- A plain name can be listed and not found, or found and not listed, where a storage answers with a file at its root,
  as every pseudomanifest does (wildland/storage_backends/pseudomanifest.py:236-240): `Agreement.PlainNamesAgree` has
  the exact condition, `Agreement.PseudomanifestHidesFile` and `Agreement.PseudomanifestHasEverything` the two families,
  `Pseudomanifests.HiddenFile`, `Pseudomanifests.NameBelow` and `Pseudomanifests.TwoAtOnce` the inputs.
  A directory that only getattr knows: `Agreement.ListableIffDirectory`.
- A file whose name is a directory in another storage is renamed in the listing, as documented
  (wildland/conflict.py:188-190), but the name shown cannot be looked up: `Agreement.RenamedFilesAgree` and
  `Agreement.ClashingRenameIsLost`.
- Of two files that one storage, mounted twice, has in a directory, only the outer mount's is answered:
  `Agreement.EveryFileIsReachable` and `Agreement.SameStorageTwiceLosesFile`.
- A name with a newline, or with the conflict mark after its last dot, is not decoded back:
  `ConflictNames.NameRoundTrip`.
- A file created under a name in conflict form, or in a directory named so, is not found there:
  `FileCreation.CreateThenStat`.
- A container can ask for one path twice: `MountPaths.MountPathsDistinct`, `MountPaths.ColonsClash` and
  `MountPaths.TitleClashes`. A storage mounted twice under one path cannot be unmounted cleanly:
  `MountTable.UnmountKeepsStep` and `MountTable.RepeatedPathLeavesOrphans`.
- A watch whose call failed stays, and as long as it does the watcher of its storage is not started:
  `Watchers.LeftWatchKeepsWatcherOff`.
- Names older than version 1 stay in manifests that have a version, in catalogues under their new name, and an inline
  storage with signer and owner loses the owner: `Version1.V1AfterUpdate`, with
  `Version1.VersionedKeepsOldNames`, `Version1.NewCatalogKeepsOldNames` and `Version1.InlineSignerStays`.
- A Wildland path with a hint is read back only if its address is its own decoding: `WlPath.HintRoundTrip`. An owner
  ending in a newline is parsed and not recognised: `WlPath.AcceptedMatch`.
- Remembered search results are given to searches of other owners and with other hints, where they can be wrong:
  `Search.RunsAreCorrect`, `Search.AfterAgrees`, `Search.SearchTwice`, `Search.SearchWithHints` and
  `Search.SecondOwnerMisled`.
- A container whose primary path is not mounted keeps its orphaned storages for a round: `Reconcile.FirstRound`. A
  pseudomanifest is left out of date when its storage is not remounted: `Reconcile.Remounter.Round` and
  `Reconcile.TitleChangeIsMissed`.

## Model

| member | source | states |
|---|---|---|
| ConflictNames.NameRoundTrip | wildland/conflict.py:195-196 | For every name: its decorated form decodes to the name and the storage id, for all ids, if and only if the name has no newline and no conflict mark after its last dot |
| ConflictNames.PlainNamesRoundTrip | wildland/conflict.py:195-196 | A name without newline that is not itself in conflict form always survives decorating and decoding |
| ConflictNames.DecodeDecorated | wildland/conflict.py:195-196 | Which id a decorated name decodes to: the inserted one, or the one written in its suffix |
| Mounts.TrieIsCanonical | wildland/conflict.py:72-103 | In a pruned tree the nodes are exactly those some mounted path calls for, each with exactly the ids mounted there: no non-root node is empty |
| Mounts.EqualMountsEqualTries | wildland/conflict.py:56-172 | Two pruned trees are equal if and only if their sets of (path, id) pairs are |
| Mounts.MountedPairs | wildland/conflict.py:72-87 | Mounting adds exactly one pair to the set and keeps the tree pruned |
| Mounts.UnmountedPairs | wildland/conflict.py:89-103 | Unmounting with pruning removes exactly one pair and keeps the tree pruned |
| Mounts.UnmountUndoesMount | wildland/conflict.py:72-103 | Mounting a new pair and unmounting it restores the very same tree, nodes included |
| Mounts.ResponsibleStep | wildland/conflict.py:145-159 | The storages responsible for a path, computed node by node, are those of the flat set of pairs |
| Mounts.IdsBelowSplit | wildland/conflict.py:161-172 | The ids at or below a path are those of the node and of its children |
| MountTree.NodesFollowMounts | wildland/conflict.py:56-172 | In the linked nodes of the program too: a path has a node, with its ids and children, exactly as the set of pairs says |
| MountTree.MountDir.constructor | wildland/conflict.py:61-63 | A fresh node without storages and children |
| MountTree.MountDir.Mount | wildland/conflict.py:72-87 | The heap of nodes after the call is the tree with the pair added; the root stays and new nodes are fresh |
| MountTree.MountDir.Unmount | wildland/conflict.py:89-103 | Succeeds exactly when the node exists and holds the id; then the heap of nodes is the tree with the pair taken out and emptied nodes dropped, otherwise nothing changes |
| MountTree.MountDir.IsSynthetic | wildland/conflict.py:105-126 | Equals the definition over the set of pairs |
| MountTree.MountDir.Readdir | wildland/conflict.py:128-143 | The names below a path, or none when no mount calls for the path |
| MountTree.MountDir.Resolve | wildland/conflict.py:145-159 | Yields exactly the pairs on the way to the path with the paths left, without repeats, outer mounts first |
| MountTree.MountDir.RelativeStorageIds | wildland/conflict.py:161-172 | Yields exactly the ids mounted at the node or below |
| Resolution.SeeAllOk | wildland/conflict.py:291-295 | The names gathered from the directories are kept once each, each with a holder |
| Listing.ReaddirLists | wildland/conflict.py:237-315 | The loops of readdir list exactly: mount children, names that are a directory somewhere or are held once, and the decorated names of the files that clash; in whatever order storages and names come, as long as directories list themselves and their names once and no decorated name is another held name |
| Listing.MergeMembers | wildland/conflict.py:297-315 | The order in which the clashing names are merged is immaterial when no name is shown as another one |
| Listing.Holders | wildland/conflict.py:291-295 | The holders gathered for a name are the directories that have it, each once, whatever the names |
| Listing.PlainLookup | wildland/conflict.py:356-425 | Without a storage id a lookup succeeds if and only if a storage has a directory there or exactly one has the path |
| Listing.DecoratedLookup | wildland/conflict.py:356-425 | With a storage id a lookup succeeds if and only if no storage has a directory there, several have a file, and the one asked for is among them; it answers with that file |
| Agreement.PlainNamesAgree | wildland/conflict.py:237-425 | For all mounts, storages that are trees or pseudomanifests, and plain names: a name is in readdir(p) if and only if getattr_extended(p/name) succeeds, unless the name is shadowed, and then never; the condition counts who lists the name and who answers at it |
| Agreement.RootedTreesAgree | wildland/conflict.py:237-425 | Where only trees whose root is a directory are mounted, a plain name is in readdir(p) if and only if getattr_extended(p/name) succeeds |
| Agreement.PseudomanifestHidesFile | wildland/storage_backends/pseudomanifest.py:236-240 | A pseudomanifest mounted over a file of its name: the name is always listed and never found |
| Agreement.PseudomanifestHasEverything | wildland/storage_backends/pseudomanifest.py:236-240 | Below a pseudomanifest every plain name that the storages under it do not have is found and not listed |
| Agreement.RenamedFilesAgree | wildland/conflict.py:237-425 | A decorated name that is listed leads to a file of that storage if and only if several storages answer there and nothing is a directory there; one that leads to a file is listed if and only if a directory that lists the file has that id and the name clashes |
| Agreement.RootedRenamesAgree | wildland/conflict.py:237-425 | Where only trees whose root is a directory are mounted: a listed decorated name leads to a file of that storage if and only if the name is a directory nowhere, and whatever is found under one is listed |
| Agreement.DecoratedAnswer | wildland/conflict.py:237-425 | A decorated lookup answers with the file of one given mount if and only if several storages have a file there, nothing is a directory there, and no outer mount of the same storage has one too |
| Agreement.PlainAnswer | wildland/conflict.py:237-425 | A plain lookup answers with it if and only if it is the only thing there |
| Agreement.EveryFileIsReachable | wildland/conflict.py:237-425 | Every file of a merged directory is listed under its plain or decorated name; looking that up answers with this very file if and only if nothing is a directory there, the plain name has no other answer, and for the decorated one others have the file too but no outer mount of the same storage |
| Agreement.RenamedListed | wildland/conflict.py:297-315 | A decorated name is listed exactly when its file clashes with another holder or a mount |
| Agreement.ListableIffDirectory | wildland/conflict.py:237-425 | readdir of a path succeeds exactly when getattr_extended says it is a directory, unless several storages are mounted right there, nothing deeper, and no storage has a directory there, and then never |
| Pseudomanifests.HiddenFile | wildland/storage_backends/pseudomanifest.py:236-240 | Counterexample: a storage with a file n at /, a pseudomanifest at /n: n is always listed and never found |
| Pseudomanifests.NameBelow | wildland/storage_backends/pseudomanifest.py:236-240 | Counterexample: in the same mounts any plain name below /n is always found and never listed |
| Pseudomanifests.TwoAtOnce | wildland/storage_backends/pseudomanifest.py:236-240 | Counterexample: two pseudomanifests at /n: a directory for getattr that can never be listed |
| Pseudomanifests.Answered | wildland/conflict.py:145-159 | Every path has an order of resolution, so that listing and lookup always have an answer |
| Agreement.LookupIsDetermined | wildland/conflict.py:324-425 | The unspecified order of storages mounted at one path cannot be observed in a lookup |
| Agreement.ClashingRenameIsLost | wildland/conflict.py:303-396 | Counterexample: for every plain name there are storages that are trees where the documented renamed file is listed and no lookup finds it |
| Agreement.SameStorageTwiceLosesFile | wildland/conflict.py:303-425 | Counterexample: a storage mounted at the root and at /a shows two files under one decorated name, and the inner one is answered under no name it is listed as |
| Resolver.ConflictResolver.constructor | wildland/conflict.py:198-199 | A resolver without mounts |
| Resolver.ConflictResolver.Mount | wildland/conflict.py:201-207 | Adds the pair and clears the cache |
| Resolver.ConflictResolver.Unmount | wildland/conflict.py:209-215 | Removes the pair, or raises exactly when it is not mounted; clears the cache |
| Resolver.ConflictResolver.Resolve | wildland/conflict.py:459-461 | The cached answer is always one the current tree gives, whatever was mounted, unmounted and evicted in between |
| Resolver.ConflictResolver.Gather | wildland/conflict.py:291-295 | The loop over directories and names computes the holders of each name |
| Resolver.ConflictResolver.MergeSeen | wildland/conflict.py:297-315 | The loop that adds or renames each name computes the merge |
| Resolver.ConflictResolver.Readdir | wildland/conflict.py:237-315 | The answer is one that the listing of the current mounts allows, errors included |
| Resolver.ConflictResolver.GetattrExtended | wildland/conflict.py:324-425 | The answer is one that the lookup over the current mounts allows, errors included |
| Resolver.ConflictResolver.FindStorageIds | wildland/conflict.py:427-457 | Exactly the ids mounted at the path or below, and those of storages on the way that have a directory there |
| Watchers.LazyStorageDict.Get | wildland/fs_base.py:612-625 | A storage is mounted at most once, on first use; mounts and releases stay balanced |
| Watchers.LazyStorageDict.Put | wildland/fs_base.py:630-632 | A new storage is entered unmounted |
| Watchers.LazyStorageDict.Delete | wildland/fs_base.py:634-642 | A storage is removed, and released exactly when it had been mounted |
| Watchers.FSWatchers.AddWatch | wildland/fs_watchers.py:90-129 | A new id, the watch entered in both tables, the watcher started exactly for the first watch of a storage that provides one; when the storage cannot be mounted the watch stays and the call raises |
| Watchers.LeftWatchKeepsWatcherOff | wildland/fs_watchers.py:90-129 | After such a failure any number of watches can be set on the storage and none starts its watcher, as the count of watches is never one again |
| Watchers.FSWatchers.RemoveWatch | wildland/fs_watchers.py:188-201 | The watch leaves both tables; the watcher stops exactly with the last watch |
| Watchers.FSWatchers.RemoveWatches | wildland/fs_watchers.py:131-137 | No watch and no watcher of the storage is left, all others are |
| Watchers.FSWatchers.CleanupWatch | wildland/fs_watchers.py:182-186 | A late close handler changes nothing |
| Watchers.FSWatchers.ToNotify | wildland/fs_watchers.py:70-88 | Watches are told of a change made here exactly when their storage has no watcher of its own |
| MountTable.UnmountKeepsStep | wildland/fs_base.py:135-152 | Unmounting a live storage raises if and only if its path list has a repeat; otherwise table, main paths and tree stay in step and nothing else changes |
| MountTable.MountKeepsStep | wildland/fs_base.py:94-133 | A mount fails only for a taken main path without remount, changing nothing; otherwise it leaves one live id, a new one, for the main path, with everything in step |
| MountTable.RunsKeepStep | wildland/fs_base.py:94-188 | In every run of mounts, remounts and unmounts with distinct path lists: the tree holds exactly the pairs of the table, main paths are inverse to first paths, ids are below the counter, and no assertion or missing key is ever met |
| MountTable.RunsNeverReuseIds | wildland/fs_base.py:117-119 | An id that is gone never comes back in any run |
| MountTable.RepeatedPathLeavesOrphans | wildland/fs_base.py:147-152 | Counterexample: a repeated path makes unmount raise and leaves paths in the tree under an id that is gone |
| WildlandFs.WildlandFS.constructor | wildland/fs_base.py:67-92 | An empty table; ids start at 1 |
| WildlandFs.WildlandFS.UnmountStorage | wildland/fs_base.py:135-152 | The table changes as specified, also when the call raises, and no watch or watcher of the storage survives |
| WildlandFs.WildlandFS.MountStorage | wildland/fs_base.py:94-133 | The table changes as specified; a storage that cannot be mounted at once is reported with everything else done |
| WildlandFs.WildlandFS.ControlMount | wildland/fs_base.py:160-180 | The table after the command is that of the run of its items, up to one without paths; the command fails exactly when an item does |
| WildlandFs.WildlandFS.ControlUnmount | wildland/fs_base.py:182-187 | One step of the table, with an error for an unknown id |
| WildlandFs.WildlandFS.ControlPaths | wildland/fs_base.py:203-216 | Lists exactly the ids of the table under exactly their paths |
| WildlandFs.WildlandFS.ControlAddWatch | wildland/fs_base.py:306-314 | An absolute pattern or an unknown storage fails and changes nothing. Otherwise the watch is registered under a new id, and the call fails exactly when it is the first one of a storage that is not mounted and cannot be: the watch then stays |
| WildlandFs.WildlandFS.CloseWatch | wildland/fs_watchers.py:182-186 | A closed connection loses its watch if it still has it, and the table never changes |
| WildlandFs.WildlandFS.Create | wildland/fs_base.py:357-443 | Creates in the single directory that the lookup of the parent answers with, or fails with the error of the source: a storage that cannot be mounted, one that offers no create, a read-only one, or a refusal of the backend |
| FileCreation.CreateThenStat | wildland/fs_base.py:378-443 | When no storage of the directory has the name and creating succeeds, getattr_extended then answers with the new file of the same storage if and only if neither the name nor that of its directory is in conflict form |
| FileCreation.CreatedElsewhere | wildland/fs_base.py:378-443 | In a directory whose own name is in conflict form the file is made in the directory of the decoded name, and a lookup where it was created never answers with it |
| FileCreation.MergedLookup | wildland/conflict.py:324-425 | A merged directory is answered with its single writable part and the attributes of that, or with a read-only one of no storage when none or several parts are writable |
| FileCreation.MergedCreate | wildland/fs_base.py:357-443 | create in a merged directory, under whatever name it is given, makes the file if and only if exactly one part is writable and its storage makes it; the file is then in that part and every other answer of every storage is as before; otherwise the error of the source and no change |
| FileCreation.OnlyNewFile | wildland/fs_base.py:440-443 | Of all storages of the directory only the chosen one has the file afterwards |
| ClientTree.GetPathTree | wildland/fs_client.py:653-669 | The tree has under every path exactly the ids reported for it, in whatever order the paths come |
| ClientTree.FindAll | wildland/fs_client.py:546-565 | The walk finds, prefix by prefix, what is reported on the way to the path |
| ClientTree.TriesAgree | wildland/fs_client.py:546-669 | For any report and mounts that match, the client's walk gives exactly the server's resolution, outer mounts first |
| ClientTree.ClientFollowsServer | wildland/fs_client.py:546-669 | After every run of commands, for any path, the client finds exactly the (id, path) pairs that the server resolves, in increasing prefix length |
| Header.HeaderRoundTrip | wildland/manifest/manifest.py:576-643 | A header prints, and then parses back to itself, if and only if it has no signature or one that is not empty, is ASCII and has newlines for its only line breaks |
| Header.SplitRoundTrip | wildland/manifest/manifest.py:616-657 | A printed header is split off any data exactly, separators in the data included |
| Header.ParsedIsClean | wildland/manifest/manifest.py:660-748 | Whatever the parser accepts could have been printed |
| Header.HeaderParser.Parse | wildland/manifest/manifest.py:687-702 | The loop over fields computes the fields of the text, or fails where the specification does |
| Header.HeaderParser.ParseField | wildland/manifest/manifest.py:704-721 | One field is read and the position advances past it |
| Header.HeaderParser.ParseBlock | wildland/manifest/manifest.py:729-748 | A literal block is read up to the first line that does not belong to it |
| Encryption.ReadAccessIs | wildland/manifest/manifest.py:133-163 | Reading an access list, entry by entry: it succeeds exactly when every entry before the first for everyone names a user or path and is the owner's or grants a key; it is for everyone exactly when an entry says so; otherwise its keys are exactly those that entries grant to others than the owner; pubkeys go exactly from the entries read that name a user |
| Encryption.EncryptsIff | wildland/manifest/manifest.py:133-182 | A tree is encrypted exactly when every access list in it can be read and the owner's keys are known |
| Encryption.ManifestEncryptsIff | wildland/manifest/manifest.py:112-131 | The same for a whole manifest, which must name its owner |
| Encryption.NodeIsSealed | wildland/manifest/manifest.py:133-182 | A node with an access list is left clear exactly when an entry is for everyone, and is otherwise sealed to exactly the owner's keys and those its entries grant |
| Encryption.DecryptUndoesEncrypt | wildland/manifest/manifest.py:133-241 | For any set of keys, decrypting an encrypted tree gives exactly what that holder is to see, with readers and dropped pubkeys defined from the entries of the access lists: nodes he can read in clear, each other node left encrypted, nodes that were envelopes before opened only with their own keys |
| Encryption.ManifestRoundTrip | wildland/manifest/manifest.py:112-241 | The same for a whole manifest; a holder without any of its keys is refused |
| Encryption.OwnerRecoversAll | wildland/manifest/manifest.py:112-241 | A holder of one of the owner's keys recovers the whole manifest, up to the pubkeys of entries that are read and name a user; envelopes that were closed to him stay |
| Encryption.OwnerSeesAll | wildland/manifest/manifest.py:133-182 | Every nested node is readable with one of the owner's keys |
| SigContexts.ReachableIsWellKept | wildland/manifest/sig.py:108-235 | In every context reached by adding and removing keys and owners, every owned key is known |
| SigContexts.SignerMayOwn | wildland/manifest/sig.py:204-555 | The key chosen to sign for an owner is known, and lists the owner among those who may have signed |
| SigContexts.OwnedKeysAreKnown | wildland/manifest/sig.py:138-143 | All keys of an owner can be listed if and only if its primary key is known |
| SigContexts.SigContext.AddPubkey | wildland/manifest/sig.py:108-136 | The key is known afterwards, the owner joins its owners once, as in the changes that the theorem over all contexts ranges over |
| SigContexts.SigContext.RemoveOwner | wildland/manifest/sig.py:213-220 | The owner leaves every list of owners, in the loop over the table; keys stay known |
| SigContexts.SigContext.RemoveKey | wildland/manifest/sig.py:222-235 | The key goes together with its list of owners; a private key in memory stays |
| ManifestWire.WireRoundTrip | wildland/manifest/manifest.py:402-562 | What is up to date and is encrypted, signed and printed for an owner is accepted when read with the same keys, whole up to erased pubkeys; read with the primary key only, exactly when that key signed |
| ManifestWire.AcceptedIsSigned | wildland/manifest/manifest.py:452-602 | Whatever is accepted has a signature valid for exactly its data under a known key that its owner may sign with, or no signature and the trusted owner; its fields are up to date |
| ManifestWire.AlteredIsRefused | wildland/manifest/manifest.py:452-602 | With signatures that are valid for one text only, a manifest whose data was altered after signing is refused by every context, whoever is trusted |
| ManifestWire.ErasedStaysCurrent | wildland/manifest/manifest.py:112-259 | Fields that migration leaves alone are left alone once encryption has dropped pubkeys from their access lists, at any depth, whole manifests and users and bridges alike |
| ManifestWire.ReachableRoundTrip | wildland/manifest/manifest.py:402-500 | The same for every context that any run of key changes reaches |
| ManifestWire.WrittenForm | wildland/manifest/manifest.py:502-510 | A written manifest splits into its header, which parses back to the signature, and its data |
| Migration.MigrationIsIdempotent | wildland/manifest/manifest.py:243-311 | On every manifest tree on which migration succeeds, no name or type obsolete since version 1 is left at any position it migrates, and migrating again changes nothing |
| Migration.UpdatedIsMigrated | wildland/manifest/manifest.py:261-311 | One update leaves nothing obsolete through backends, catalogues and nested links |
| Migration.MigratedStays | wildland/manifest/manifest.py:261-311 | An up-to-date tree is left as it is |
| Version1.V1AfterUpdate | wildland/manifest/manifest.py:243-363 | Exactly when no name older than version 1 is left after an update, through readable inline storages and containers of the catalogue: for an unversioned manifest when no inline manifest has a signer beside its owner and no catalogue had its new name already over old entries; for a versioned one when there was none before |
| Version1.UnversionedFields | wildland/manifest/manifest.py:243-363 | Of every unversioned manifest: the fields end up under the names of version 1 with the values they had under the old ones; a signer stays exactly where an owner was given too |
| Version1.StepReaches | wildland/manifest/manifest.py:313-363 | The step to version 1 makes a manifest ready for the later changes exactly when it can reach all that is old |
| Version1.StepMoves | wildland/manifest/manifest.py:313-363 | One step moves every value to its new name and says what the manifest is |
| Version1.UpdateKeepsV1 | wildland/manifest/manifest.py:261-311 | Later changes leave the names of version 1 exactly to manifests that had them, the object guessed from a type and the owner of inline ones taken away |
| UpdateValues.UpdateCarries | wildland/manifest/manifest.py:261-311 | A successful update carries every value over: old paths into the pattern, old catalogues under the new name, types and objects as they are called today, and every other field as it was, through lists of storages, catalogues and links at any depth |
| UpdateValues.StepBrings | wildland/manifest/manifest.py:313-363 | So does the step to version 1: renamed fields keep their values, a missing object is the guessed one, all else is as it was, through readable inline storages and containers of infrastructures |
| UpdateValues.UpdateVersionCarries | wildland/manifest/manifest.py:243-363 | The same for whole manifests, versioned or not |
| Version1.VersionedKeepsOldNames | wildland/manifest/manifest.py:243-259 | A manifest with a version keeps its inner-container |
| Version1.NewCatalogKeepsOldNames | wildland/manifest/manifest.py:349-354 | An unversioned manifest keeps it in a container of its manifests-catalog, as only infrastructures is looked through |
| Version1.InlineSignerStays | wildland/manifest/manifest.py:266-324 | An inline storage with signer and owner loses its owner and keeps the signer |
| ControlProtocol.RecvMessage | wildland/control_client.py:163-181 | Reads up to the first blank line and leaves the rest; nothing but blank lines reads like the end of the stream |
| ControlProtocol.FramingExact | wildland/control_client.py:163-181 | A framed text is read back whole whatever follows, if and only if it has no blank line |
| ControlProtocol.Handle | wildland/control_server.py:158-180 | The loop that gathers and clears lines hands on exactly the requests of the stream, the last one without a separator included |
| ControlProtocol.RequestIsHandled | wildland/control_server.py:158-180 | A request is handed on as soon as its frame is complete, with blank lines kept from before |
| ControlProtocol.FramesArrive | wildland/control_server.py:158-180 | Every sequence of framed requests arrives, once and in order |
| ControlProtocol.ControlClient.constructor | wildland/control_client.py:57-61 | Ids start at 1 and no event is pending |
| ControlProtocol.ControlClient.RunCommand | wildland/control_client.py:89-130 | Puts aside exactly the events before the first response, consumes that response, and returns its outcome or the error of the source |
| ControlProtocol.ControlClient.WaitForEvents | wildland/control_client.py:132-150 | Returns the events put aside, or the next event, or an error for a response |
| ControlProtocol.RunsAreOrderly | wildland/control_client.py:89-150 | In every run, however events come in: no foreign response id, no unexpected message, every finished request returned the outcome the server reached for it, and delivered, pending and unread events are the sent ones in order |
| ControlProtocol.NextIsOrderly | wildland/control_server.py:147-220 | Each single step of client or server keeps that |
| ControlProtocol.CommandIsSteps | wildland/control_client.py:89-130 | The reading steps of a run between request and response are one call of RunCommand |
| Bridges.BridgePathsForUser | wildland/client.py:911-951 | The result is exactly the set of path tuples of bridge chains from owner to user that meet no user twice; for the owner itself the empty tuple |
| Bridges.PathsAreSimpleChains | wildland/client.py:823-853 | The recursion, which goes on past its target, is sound and complete for simple chains; unseen users decrease |
| Bridges.PathsAreWalks | wildland/client.py:823-853 | Every path yielded belongs to a chain off the users seen |
| Bridges.WalksAreYielded | wildland/client.py:823-853 | Every such chain is yielded |
| Bridges.WalksAreSimple | wildland/client.py:823-853 | Chains off the users seen, taken hop by hop, are the simple chains |
| ReferenceOrder.EnsureMountReferenceContainer | wildland/client.py:855-909 | On a finite universe of references the growing list ends; the result has exactly the containers reached from the inputs, each after all it refers to, none twice for distinct inputs; it fails if and only if a cycle is reached; the failures are the containers whose storages fail |
| ReferenceOrder.OpenNode | wildland/client.py:872-892 | Notes references, and extends the list by new ones, up to the first failure |
| ReferenceOrder.StaticOrder | wildland/client.py:900-901 | The order holds every node once, predecessors first; none is given if and only if the graph has a loop |
| ReferenceOrder.StuckHasLoop | wildland/client.py:900-901 | A set in which everything waits for something of the set contains a loop |
| ReferenceOrder.OrderedByReference | wildland/client.py:903-909 | Sorted containers and then the others: every reference comes first |
| ReferenceOrder.ListedAreReached | wildland/client.py:894-898 | The list holds exactly what is reached |
| Search.ResolveCache.ResolveAll | wildland/search.py:305-330 | Yields each endpoint the memo gives once, stopped anywhere or run to its end; the memo gains right answers to lookups of this search only, and to all of them when the search was not stopped |
| Search.ResolveCache.ResolveRest | wildland/search.py:332-348 | Yields exactly what the remaining parts lead to, and remembers only finished lookups |
| Search.MemoIsTransparent | wildland/search.py:305-348 | When the memo is right about the lookups of a search, whatever else it holds, the endpoints are exactly the ends of the chains of lookups |
| Search.RunsAreCorrect | wildland/search.py:305-348 | In every run of searches from an empty memo, of any owners and hints, stopped or not: if a lookup that two of them share yields the same in both, each search yields the ends of its own chains |
| Search.OneOriginIsCorrect | wildland/search.py:305-348 | In every run of searches of one owner with one hint, each yields the ends of its own chains, without any condition |
| Search.AfterAgrees | wildland/search.py:381-466 | When the lookups of two searches after a step agree: exactly when their owners are the same, or each container stored here at the part is found in another way as either owner's too |
| Search.SearchTwice | wildland/search.py:338-396 | Two searches of different starts that come to one step: the second gets what the first found, and that is right if and only if their owners are the same or the part shows no container stored here but those found anyway |
| Search.SearchWithHints | wildland/search.py:317-370 | Two searches of one owner with different hints: the second gets what the first found, right if and only if the hints make no difference |
| Search.SecondOwnerMisled | wildland/search.py:338-396 | Two searches over bridges to one user, one of whose containers is stored locally: the second owner is given the step of the first |
| WlPath.RoundTrip | wildland/wlpath.py:97-184 | Every accepted path without hint, printed with or without prefix, is read back the same; the canonical form is its own canonical form |
| WlPath.HintRoundTrip | wildland/wlpath.py:97-173 | An accepted path with a hint is read back if and only if the address has no colon, closes on its first line and is its own decoding |
| WlPath.AcceptedMatch | wildland/wlpath.py:83-142 | An accepted path without hint, and its printed form, satisfy match if and only if its owner does not end in a newline |
| WlPath.PrintedIsRead | wildland/wlpath.py:159-173 | Every path value whose parts, owner and hint survive is read back from its text |
| WlPath.ParsedSurvives | wildland/wlpath.py:97-142 | Whatever is parsed survives, apart from its hint |
| WlPath.ShowIsRead | wildland/wlpath.py:126-137 | Path normalisation is idempotent, roots of one and of two slashes included |
| WlPath.WildlandPath.FromStr | wildland/wlpath.py:97-142 | The loop over parts computes the parse, or the first error of the source |
| WlPath.WildlandPath.Append | wildland/wlpath.py:144-151 | Appends exactly the nonempty pieces, in order, and changes nothing else |
| WlPath.AppendIsRead | wildland/wlpath.py:97-173 | What appending makes of a readable path is read back from its text if and only if each appended piece would read back as a part |
| Reconcile.Remounter.HandleChangedContainer | wildland/remounter.py:331-362 | Queues exactly the orphaned storages with their pseudomanifests, and exactly the storages that are new or changed; everything when the primary path is not mounted |
| Reconcile.Remounter.UnmountPending | wildland/remounter.py:364-373 | The server after the queued unmounts, and an empty queue |
| Reconcile.Remounter.MountPending | wildland/remounter.py:375-383 | The server after the queued storages and then their pseudomanifests are mounted, and an empty queue |
| Reconcile.Remounter.Round | wildland/remounter.py:331-383 | With the primary path mounted, one round leaves exactly the wanted storages mounted as asked, unchanged ones under their ids, other containers untouched, and nothing to queue; each has a pseudomanifest, the one asked for exactly when the storage was remounted or it was that one before |
| Reconcile.RoundConverges | wildland/remounter.py:331-383 | The same, whatever the order of the orphans |
| Reconcile.TitleChangeIsMissed | wildland/fs_client.py:738-761 | A container is mounted and then only what its pseudomanifests say changes: the second event queues nothing, and they are out of date exactly where they changed |
| Reconcile.NothingToDo | wildland/remounter.py:331-362 | Once converged, a second event queues nothing |
| Reconcile.FirstRound | wildland/remounter.py:341-344 | Without the primary path mounted, a round mounts all that is wanted with its pseudomanifests and forgets the orphans, so that it converges if and only if there are none; the next round finds the primary path |
| Reconcile.RoundKeepsOrder | wildland/fs_client.py:295-402 | What a round mounts, takes away and leaves alone, path by path; storages stay paired with pseudomanifests |
| Reconcile.LookupIsHeld | wildland/fs_client.py:415-444 | A lookup by unique path finds the storage mounted with it as main path |
| Reconcile.OrphansAreHeld | wildland/fs_client.py:479-730 | The orphans are exactly the mounted main paths of the container that are not wanted |
| Reconcile.RemountedHeld | wildland/fs_client.py:738-761 | A storage is remounted if and only if it is not mounted with the paths and parameters now asked for |
| Reconcile.MountOneHolds | wildland/fs_base.py:94-133 | A remounting mount changes what is held under its main path and nothing else |
| Reconcile.UnmountOneHolds | wildland/fs_base.py:135-152 | Unmounting clears one main path and nothing else |
| Reconcile.HiddenIsNeat | wildland/fs_client.py:796-800 | The paths of a pseudomanifest are distinct and meet no unique storage path |
| Batches.HandleBatch | wildland/remounter.py:134-214 | A batch of events about different containers, all queued on one server and then applied: no event fails, and each container is served |
| Batches.BatchServesAll | wildland/remounter.py:134-214 | Every container of a batch comes to what its own event alone would bring: its storages as asked, converged exactly when it was known or had no orphans, pseudomanifests as after a round; containers outside the batch are untouched |
| MountPaths.MountPathsDistinct | wildland/fs_client.py:818-867 | The mount paths of a storage are distinct exactly when no two users have the same bridge paths and no two paths of the storage are the same, once colons are replaced |
| MountPaths.JoinedApart | wildland/fs_client.py:818-835 | Two joined paths are equal exactly when their bridges and their paths are, colons apart |
| MountPaths.FirstIsUnique | wildland/fs_client.py:818-867 | The first mount path is the unique path of the storage |
| MountPaths.ColonsClash | wildland/fs_client.py:818-835 | Two paths of a container that differ in a colon and an underscore are mounted as one |
| MountPaths.TitleClashes | wildland/container.py:266-285 | A path given explicitly that a category and the title make too is mounted twice |

## Left out

- Agreement.PlainNamesAgree, Agreement.RenamedFilesAgree, Agreement.EveryFileIsReachable: storages answer like trees, whatever their root is, or with one file at every path; their names and those of mounts are not in conflict form. Only ASCII digits count as digits of a conflict name.
- Listing order: readdir returns a sorted list, the model a set.
- Resolver.ConflictResolver.Resolve: the cache evicts an arbitrary entry, not the least recently used one.
- Exceptions other than input/output errors that mounting a storage lazily may raise inside a lookup.
- Attributes are reduced to directory or file and to the owner's write permission; sizes and times are left out.
- FUSE entry points other than getattr, readdir and create, open files, rename, and the proxy's assertion about errors other than EACCES beyond its being an error.
- Threads and races: each control command is one step, as if all of it ran under the mount lock.
- storage_extra, which keeps entries of unmounted storages (wildland/fs_base.py:147-152); clear-cache, info, status, dirinfo and fileinfo commands; add-subcontainer-watch, whose lookup goes by backend hash.
- Watchers.FSWatchers.ToNotify: which watches are told; matching of patterns and sending of events are input and output.
- Watchers.LazyStorageDict.Delete: a failure of the backend's own unmount.
- ClientTree.GetPathTree, ClientTree.FindAll: the tree is a value, so sharing of nodes and the cached copy are not captured.
- Encryption and Migration work on values: updating dictionaries in place, the order of their keys, and what is left of a dictionary when a call raises midway are not captured. Scalars are texts; null, numbers and dates are not told apart.
- Encryption.OwnerRecoversAll, ManifestWire.WireRoundTrip: cryptography is ideal (an envelope opens with its keys and no others, a signature verifies for its signer and data), a public key is identified with its fingerprint, and loading undoes dumping for YAML. The entries of an access list name users by text and list pubkeys as texts.
- ManifestWire.WireRoundTrip: the fields given are up to date, as those of a manifest made from fields are, and the envelopes in them are closed to the context, as in fields that were read with it; schema validation and local paths are left out.
- SigContexts.SigContext.AddPubkey: key files, use_local_keys and generated keys are left out; copy, which shares ownership lists with the original (wildland/manifest/sig.py:97), is not modelled.
- Migration recursion carries a ghost bound on nesting, which every finite tree has (Migration.HasBound).
- ControlProtocol: JSON messages are opaque texts without blank lines; lost connections, validators and several clients on one server are left out; a client reads all its events on one connection, so its requests do not overlap.
- ControlProtocol.Handle: a blank line before a request stays in the request's text, as in the source, where JSON ignores it.
- Bridges.BridgePathsForUser: loading of users and bridges, and the cache over calls, which keeps answers when bridges change; a user is its key fingerprint.
- ReferenceOrder.EnsureMountReferenceContainer: containers whose listing fails are given as the part delivered before; texts of error messages; ready nodes are sorted one at a time, so any order the sorter may give is covered.
- Search: lookups that do not change between searches and do not raise, steps up to their equality (client, pattern and previous step are not part of it).
- WlPath: hints are decoded by a given function; has_explicit_or_default_owner.
- Reconcile.Remounter.HandleChangedContainer: the storages to mount are given with their paths, which are distinct (when they are: MountPaths.MountPathsDistinct) and of which only the first is shaped like a unique path; resolving paths, tracking of files per path, the caches of the client, and batches with two events about one container are left out. Its unique paths are matched with literal dots.
- MountPaths.MountPathsDistinct: paths are absolute, with a single slash for root, and have been parsed, so no name in them is empty.
- Reconcile.Remounter.Round: that mounting fails is left out.
- Command line, configuration, process start and stop, databases, HTTP and templates.
