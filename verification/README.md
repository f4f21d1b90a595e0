# DFSha: a verified model of a replicated distributed file system

DFSha keeps the metadata of its files in a state machine that three ControlNodes replicate
through a log, and the blocks of the files on DataNodes. This project models the parts of it
where several operations must agree, and proves what they promise together:

* the metadata state machine (`Tree`, `Mutations`, `ControlNode`): namespace, uploads with
  leases, reader/writer locks with leases, and copy-on-write reservations published by a
  version compare-and-set. Leader time is an argument of every command that looks at it. The
  permissions each command needs are in `Permissions`, and what commands take back in `Undo`;
* the same commands from outside (`Entries`, `NamespaceCommands`, `LockCommands`, `UploadCommands`,
  `WriteCommands`, `AccountCommands`): for each of the 18, in terms of the entries of the tree and
  of the raw tables, when it succeeds, which error comes first otherwise, what it answers and what
  it leaves;
* the replicated log in front of it (`Deduplication`, `ReplicatedLog`) and the handlers of the
  leader (`Handlers`, `ControlServicer`);
* the data path (`Chunking`, `WritePlan`, `FileContent`, `WriteProtocol`, `Uploads`, `RangeRead`,
  `Download`): a file is one byte string, whatever the blocks, the clients and the failures;
* the background protocols as interleaved steps (`Copies`, `Collector`, `CollectionOrder`,
  `Replicas`, `Rereplication`, `Pipeline`);
* all of it on the same nodes (`Cluster`): uploads (`NodeUploads`), reads under a lock (`Reading`),
  which copies are where the metadata says (`Presence`), and that an undisturbed write goes
  through (`Progress`);
* the encrypted block container (`Container`, `ContainerReading`), its format byte by byte
  (`ContainerFormat`), and the capability texts (`Capability`).

A mutation is written twice: as a function of a value `State` (`Mutations`), which the theorems
about whole runs use, and as a method of the class `ControlTree`, which updates its fields as the
program does and is proved to be that function. Runs are sequences of commands or of events, of any
length and in any interleaving. The main theorems are:

* **Content.** Over any run in which clients begin, write, commit, abort or give up writes,
  interleaved with every other command and with block deletions, the bytes of a file are its
  committed splices applied in commit order (`WriteProtocol.ContentIsTheCommittedSplices`), starting
  from what its client sent between BeginUpload and CompleteUpload (`Uploads.UploadThenWrites`).
* **Content on the nodes.** The same with every node keeping its own copies, the re-replicator making
  more of them and the collector deleting: from whichever nodes the blocks are read, the bytes are
  what was uploaded with the committed splices over it, whatever repairs there are
  (`Cluster.EveryReplicaHoldsTheContent`, `NodeUploads.UploadedContentOnNodes`).
* **Presence.** A copy that the metadata names is missing if and only if its node lost it, or the
  collector deleted it and a repair of it was applied after that cycle read the metadata
  (`Presence.MissingCopiesAreLostOrRescued`).
* **Progress.** Whoever is granted a reservation on a file whose blocks all have a copy where the
  metadata says can fetch what it needs, send every block and commit, and then the file holds the
  data at its offset and the rest as before (`Progress.UndisturbedWriteLands`).
* **Every verdict.** Each command succeeds exactly under a condition on the state before it, and its
  whole effect is stated without the functions that compute it (the `Exactly` theorems of the
  command modules); so are the endings of a block read (`ContainerFormat.ReadingExactly`), of a
  failover (`Download.OutcomeExactly`) and of a capability check (`Capability.VerifyBlockExactly`).
* **Reads under a lock.** While a reader's lock stays in the table, a download in any interleaving
  of its threads, with any failovers, is the committed content, and a range read is its slice
  (`Reading.DownloadUnderLock`, `Reading.RangeUnderLock`).
* **No ABA, read stability, exclusion** for the locks and the reservations (`Locking`).
* **Conservation of block ids**: an id is in one place at a time and never comes back, so the blocks
  deleted after a log outcome are dead for ever, even when the outcome was stored for a retry
  (`Conservation.SoundRun`, `Conservation.DiscardedForever`, `ReplicatedLog.DeletingAnsweredBlocksIsSafe`);
  and a command hands a block back if and only if it takes it out of the metadata, but for AbortUpload
  (`Conservation.HandedBackIffGone`).
* **Retries.** Each key runs once exactly when retries come in time, and then a log with retries
  is the log without them (`Deduplication`).
* **Replicas.** Over any run every block's list of nodes stays without duplicates and within the
  factor, and the summed deficit of replicas goes down by one with each repair and up only by what
  a commit or a completed upload publishes (`Replicas`).
* **Layout.** In every reachable state all blocks of a file but the last are full (`Sizes`).

Three promises of the source hold only under a condition, which is proved to be exact:

* The collector never deletes a copy that the metadata assigns if and only if no repair of that copy
  is applied after the cycle read the metadata (`Collector.CollectionIsSafeIffNotRepaired`). The code
  does not enforce it, and there are runs that break it in two ways: a repair that starts after the
  readings, onto a node that already held a copy (`CollectionOrder.LateRepairIsUnprotected`), and a
  repair that left the in-flight set with its commit unresolved
  (dfsha/control_node/rereplicator.py:221-225) and is applied late
  (`CollectionOrder.UnresolvedRepairIsUnprotected`). `Collector.NothingAssignedIsDeleted` derives safety
  from the discipline that excludes both. Both other orders of the readings have a counterexample.
* AbortUpload deletes the blocks it read before submitting the abort. In any run, with any commands
  under any keys in between, that is safe if and only if commands executed since the reading took
  each of those blocks (`Handlers.AbortIsSafeIffTaken`). They did when the first success recorded
  under its key after the reading is an abort of this path (`Handlers.AbortUnderItsKeyIsSafe`). If no
  other request uses the key, that makes it safe for all that may come between if and only if, at the
  reading, the key was not yet answered with success, or there was nothing to delete
  (`Handlers.AbortDeletesSafelyIff`). It fails in two ways, both of which the code accepts: a repeated
  abort whose blocks belong to a new upload of the same name
  (`Handlers.RepeatedAbortDeletesALiveBlock`), and another request under the same operation id
  (`Handlers.SharedKeyDeletesALiveBlock`).
* A read of zero bytes at a position strictly inside a block returns the rest of that block, because a
  zero count means "to the end" on the wire: `RangeRead.ZeroLengthReadsABlockTail` and
  `RangeRead.RangeIsSliceIff`.

Hypotheses, stated as preconditions: ids drawn by the servicer are fresh and not empty; uploads
confirm the sizes that BeginUpload announced; the block size of a file is not zero; leader time
is monotone only where a lemma says so; a command is applied at most `delay` after its time stamp,
and the collector's grace covers a lease and that delay; no two blocks ever written to a node
share a random prefix (`ContainerReading.ProperWrites`); sealing is ideal and hashes and MACs are
uninterpreted; for `Handlers.AbortDeletesSafelyIff` alone, no other request uses the abort's key
between the reading and the answer. In `Cluster` a block of a write reaches the nodes of its chain in
one event or only partly, when the client gives up, and repairs record only copies that were made; for
`Presence.NamedCopiesStayUnlessLost` alone, they are also resolved before they leave the in-flight
set, and none starts of a listed copy. In `Uploads` and `NodeUploads` only the client of an upload
writes its blocks, it confirms a block when its chain succeeded, which means every node of the chain
(`Pipeline.HeadSuccessMeansEveryCopy`), and does not write it again. In `Reading` a node answers with
a prefix of what its copy holds at one moment, which is what `ContainerReading.OnlyGenuineBytes` says
of a block file.

## Model

| member | source | states |
|---|---|---|
| `Paths.PartsOfCanonical` | dfsha/control_node/tree.py:244-251 | the canonical spelling of a path parses back to the path |
| `Paths.CanonicalKeyIsThePath` | dfsha/control_node/tree.py:244-251 | two spellings share a lock key exactly when they are the same path, and canonicalising does not change the path |
| `Paths.JoinSplit` | dfsha/control_node/tree.py:244-247 | splitting any text at a separator and joining it again gives the text back |
| `Paths.PartsExactly` | dfsha/control_node/tree.py:244-247 | a text is refused exactly for a component `..`; otherwise the path is its components in order without the empty ones |
| `Tree.WalkIsLookup` | dfsha/control_node/tree.py:253-287 | the walk to a directory succeeds exactly on the directories that lookup finds |
| `Tree.FilesAfterPutFile` | dfsha/control_node/tree.py:562-615 | putting a file where there was a file or nothing changes the file of one path only |
| `Tree.FilesAfterRelabel` | dfsha/control_node/tree.py:483-521 | changing owner, group or mode changes no file but the attributes of the one named |
| `Tree.GrowKeepsFiles` | dfsha/control_node/tree.py:264-287 | creating missing directories changes no file and makes the whole walk succeed |
| `Tree.GrowLeavesTreeOrEmptyDir` | dfsha/control_node/tree.py:264-287 | if a directory was created on the way, the last one is empty, so the upload cannot find its name taken |
| `Chunking.FlattenChunking` | dfsha/client/distributed_client.py:182-188 | cutting bytes in blocks and concatenating them gives the bytes |
| `Chunking.ChunkingOfLayout` | dfsha/client/distributed_client.py:680-695 | blocks that are full except the last one are the cutting of their own concatenation |
| `WritePlan.PlanHasShape` | dfsha/control_node/tree.py:83-97 | the planned slots are consecutive, from the block of the first byte written to that of the last, each of 1 to block_size bytes |
| `WritePlan.PlanIsTheTouchedBlocks` | dfsha/control_node/tree.py:83-97 | a slot is planned for a block exactly when the write and the block overlap |
| `WritePlan.PlanKeepsLayout` | dfsha/control_node/tree.py:83-97 | replacing the planned blocks leaves all blocks but the last full and the size max(size, offset+length), without gaps |
| `WritePlan.SpliceInSlices` | dfsha/client/distributed_client.py:707-709 | a write is the bytes before, the data, and the bytes beyond its end |
| `WritePlan.OverlayIsSplice` | dfsha/control_node/tree.py:811-823 | laying new blocks that are blocks of the spliced content over the old ones gives exactly the spliced content |
| `ControlNode.ControlTree.constructor` | dfsha/control_node/tree.py:208-222 | a new tree is the initial state of the machine |
| `ControlNode.ControlTree.GetNode` | dfsha/control_node/tree.py:253-262 | the loop finds what path lookup finds |
| `ControlNode.ControlTree.WalkToParent` | dfsha/control_node/tree.py:264-287 | the loop finds the directory, or the same error as the recursive walk |
| `ControlNode.ControlTree.WalkCreating` | dfsha/control_node/tree.py:264-287 | the creating walk either grows the tree by all missing directories, checking `w` once on the last that existed, or changes nothing |
| `ControlNode.ControlTree.MakeDir` | dfsha/control_node/tree.py:321-333 | updating the fields in place is one step of the machine, result included; what the step is, `NamespaceCommands.MakeDirExactly` says from outside |
| `ControlNode.ControlTree.RemoveDir` | dfsha/control_node/tree.py:335-350 | the same for rmdir; what the step is, `NamespaceCommands.RemoveDirExactly` says from outside |
| `ControlNode.ControlTree.RemoveFile` | dfsha/control_node/tree.py:352-380 | the same for remove, which a live lock refuses; what the step is, `NamespaceCommands.RemoveFileExactly` says from outside |
| `ControlNode.ControlTree.CleanupExpiredLocks` | dfsha/control_node/tree.py:382-395 | drops exactly the holders of one path whose lease is over, and the entry with the last of them |
| `ControlNode.ControlTree.AcquireLock` | dfsha/control_node/tree.py:404-436 | the same for acquiring a lock; what the step is, `LockCommands.AcquireExactly` says from outside |
| `ControlNode.ControlTree.RenewLock` | dfsha/control_node/tree.py:438-449 | the same for renewing; what the step is, `LockCommands.RenewExactly` says from outside |
| `ControlNode.ControlTree.ReleaseLock` | dfsha/control_node/tree.py:451-470 | the same for releasing, which tolerates a lease already over; what the step is, `LockCommands.ReleaseExactly` says from outside |
| `ControlNode.ControlTree.Chmod` | dfsha/control_node/tree.py:483-494 | the same for chmod; what the step is, `AccountCommands.ChmodExactly` says from outside |
| `ControlNode.ControlTree.Chown` | dfsha/control_node/tree.py:496-521 | the same for chown; what the step is, `AccountCommands.ChownExactly` says from outside |
| `ControlNode.ControlTree.CreateUser` | dfsha/control_node/tree.py:528-545 | the same for a new account; what the step is, `AccountCommands.CreateUserExactly` says from outside |
| `ControlNode.ControlTree.ChangePassword` | dfsha/control_node/tree.py:547-552 | the same for a password change; what the step is, `AccountCommands.ChangePasswordExactly` says from outside |
| `ControlNode.ControlTree.BeginUpload` | dfsha/control_node/tree.py:562-615 | the same for opening an upload, which may replace an expired one; what the step is, `UploadCommands.BeginUploadExactly` says from outside |
| `ControlNode.ControlTree.ConfirmBlock` | dfsha/control_node/tree.py:617-639 | the same for confirming a block and renewing the upload's lease; what the step is, `UploadCommands.ConfirmExactly` says from outside |
| `ControlNode.ControlTree.CompleteUpload` | dfsha/control_node/tree.py:650-657 | the same for publishing an upload; what the step is, `UploadCommands.CompleteExactly` says from outside |
| `ControlNode.ControlTree.AbortUpload` | dfsha/control_node/tree.py:659-673 | the same for dropping an upload; what the step is, `UploadCommands.AbortExactly` says from outside |
| `ControlNode.ControlTree.BeginWrite` | dfsha/control_node/tree.py:724-779 | the same for reserving the blocks of a write; what the step is, `WriteCommands.BeginWriteExactly` says from outside |
| `ControlNode.ControlTree.PublishSlots` | dfsha/control_node/tree.py:811-823 | the loop that replaces or appends the new blocks computes the published list and the replaced blocks; which they are, field by field, `WriteCommands.CommitExactly` says from outside |
| `ControlNode.ControlTree.CommitWrite` | dfsha/control_node/tree.py:781-825 | the same for the compare-and-set that publishes a write; what the step is, `WriteCommands.CommitExactly` says from outside |
| `ControlNode.ControlTree.AbortWrite` | dfsha/control_node/tree.py:827-843 | the same for giving a reservation back; what the step is, `WriteCommands.AbortWriteExactly` says from outside |
| `ControlNode.ControlTree.UpdateBlockReplicas` | dfsha/control_node/tree.py:845-862 | the same for the replica list of one block, compared and set; what the step is, `WriteCommands.UpdateReplicasExactly` says from outside |
| `Entries.LookupIsADescent` | dfsha/control_node/tree.py:253-262 | a path names an entry if and only if its parent is a directory that has it, level by level down from the root |
| `Entries.AllowsIsPermits` | dfsha/control_node/tree.py:160-169 | a caller may read or write exactly by one of the nine permission bits, that of its own class, or as administrator |
| `Entries.WalkExactly` | dfsha/control_node/tree.py:264-287 | the walk to a directory fails exactly at the first component that is missing or a file, with the error for it |
| `Entries.GrowEntries` | dfsha/control_node/tree.py:264-287 | creating missing directories adds exactly the missing prefixes, each with mode 0755 and the owner of the caller |
| `NamespaceCommands.MakeDirExactly` | dfsha/control_node/tree.py:321-333 | mkdir fails for a bad path, an existing entry, a missing or unwritable parent, in this order, and changes nothing; otherwise the only new entry is an empty directory of the caller with mode 0755 |
| `NamespaceCommands.RemoveDirExactly` | dfsha/control_node/tree.py:335-350 | rmdir removes exactly one entry, an empty directory, or fails with the first of its errors and changes nothing |
| `NamespaceCommands.RemoveFileExactly` | dfsha/control_node/tree.py:352-380 | remove removes one committed file without a live lock and answers its blocks; a live lock is a conflict, and an expired one is dropped |
| `LockCommands.AcquireExactly` | dfsha/control_node/tree.py:404-436 | a lock is granted if and only if the path is a committed file, the mode is `r` or `w`, the lease positive, the caller permitted, no live holder has the id, and there is no live holder at all for `w`, no exclusive one for `r`; every live reader stays and the new holder is added |
| `LockCommands.RenewExactly` | dfsha/control_node/tree.py:438-449 | a renewal succeeds exactly for a live holder, whose expiry alone changes |
| `LockCommands.ReleaseExactly` | dfsha/control_node/tree.py:451-470 | a release drops exactly its holder, is accepted without a live entry, and conflicts when only others hold |
| `UploadCommands.BeginUploadExactly` | dfsha/control_node/tree.py:562-615 | an upload opens exactly where there is nothing, or a pending upload whose lease is over, under a parent that can be written or created; it is a pending file of the caller, mode 0644, with the placed blocks unconfirmed |
| `UploadCommands.ConfirmExactly` | dfsha/control_node/tree.py:617-639 | a confirmation writes checksum and size into the first block with the id, of a pending upload of the caller, renews its lease if one is given, and changes nothing else |
| `UploadCommands.CompleteExactly` | dfsha/control_node/tree.py:650-657 | an upload is published if and only if it is pending, the caller owns it and all its blocks are confirmed; only its mark changes |
| `UploadCommands.AbortExactly` | dfsha/control_node/tree.py:659-673 | an abort removes exactly a pending upload of the caller, whose path it walks to |
| `WriteCommands.BeginWriteExactly` | dfsha/control_node/tree.py:724-779 | a write is reserved if and only if the caller is permitted, holds the exclusive lock live, names the present version and an unused id, writes at least a byte within the file or at its end, and proposes one block for each block touched; the answer tells, for each, the id, size and nodes of the block it replaces, or none |
| `WriteCommands.CommitRefusals` | dfsha/control_node/tree.py:781-810 | which error a commit meets first, with the tables it leaves; with none of them it succeeds |
| `WriteCommands.CommitExactly` | dfsha/control_node/tree.py:811-825 | a commit publishes for each slot its id and nodes with the checksum and size confirmed, keeps all other blocks, hands back exactly those covered in order, and moves the version by one |
| `WriteCommands.CommitPublishesInPlace` | dfsha/control_node/tree.py:811-823 | in every reachable state the block at the index of slot k has that slot's id and nodes, the checksum and size of the k-th confirmation, and is confirmed |
| `WriteCommands.AbortWriteExactly` | dfsha/control_node/tree.py:827-843 | an abort gives back exactly the blocks of a reservation in force, accepts one that is gone, and conflicts under another lock |
| `WriteCommands.UpdateReplicasExactly` | dfsha/control_node/tree.py:845-862 | a repair replaces the nodes of one block if and only if they are as expected, and changes nothing else |
| `AccountCommands.CreateUserExactly` | dfsha/control_node/tree.py:528-545 | an account is created exactly for a new valid name with valid groups, and nothing else changes |
| `AccountCommands.ChangePasswordExactly` | dfsha/control_node/tree.py:547-552 | a password change keeps groups and rank, for an existing account |
| `AccountCommands.ChmodExactly` | dfsha/control_node/tree.py:483-494 | chmod sets the nine bits of one visible entry, for its owner or an administrator |
| `AccountCommands.ChownExactly` | dfsha/control_node/tree.py:496-521 | the owner is changed by administrators only, to an existing account; the group by the owner within its own groups too |
| `Effects.StepFiles` | dfsha/control_node/tree.py:562-862 | what every command does to the file of every path: only the target of a successful command changes, and to what |
| `Effects.StepLocks` | dfsha/control_node/tree.py:382-470 | every holder found after a command was there before with the same mode, or was granted by it; other paths keep their entry |
| `Effects.UploadReplacesOnlyExpired` | dfsha/control_node/tree.py:592-606 | an upload takes over a name only from a pending upload whose lease is over, and hands back exactly its blocks |
| `Effects.RemovalFindsFile` | dfsha/control_node/tree.py:352-380 | a successful remove found a committed file and returns its blocks; a successful abort found a pending one |
| `Locking.LocksOkRun` | dfsha/control_node/tree.py:382-470 | over any run, lock entries exist only for committed files, have a holder, and exactly one in exclusive mode |
| `Locking.CommitHoldsTheLock` | dfsha/control_node/tree.py:796-810 | a commit succeeds only through the live exclusive lock, the reservation and the base version it was begun with |
| `Locking.ReadStability` | dfsha/control_node/tree.py:376-379 | while a shared holder stays in the table, the file's block ids, sizes and version are those it had when the holder came |
| `Locking.NoAba` | dfsha/control_node/tree.py:801-810 | a write that commits was begun on this very incarnation of the path: the data is the same at every moment between, whatever the clocks do |
| `Locking.LeaseExcludes` | dfsha/control_node/tree.py:404-436 | with leader time up to the attempt, a conflicting acquire before the expiry of a holder that is not released fails, and the holder stays |
| `Locking.UploadCommandsSpareCommitted` | dfsha/control_node/tree.py:592-673 | no upload command succeeds on a committed file |
| `Conservation.PublishIsOverlay` | dfsha/control_node/tree.py:811-823 | the publishing loop covers consecutive blocks and returns exactly the blocks it covered, in order |
| `Conservation.IdsHaveOrigins` | dfsha/control_node/tree.py:562-862 | every block id found after a command comes from a definite place before it or from the command's own fresh ids |
| `Conservation.OriginsAreDistinct` | dfsha/control_node/tree.py:562-862 | no command copies an id: two places never share an origin |
| `Conservation.FileIdsDoNotMove` | dfsha/control_node/tree.py:562-862 | an id that a file had is afterwards in the same slot of the same path or nowhere in the files |
| `Conservation.SoundRun` | dfsha/control_node/tree.py:562-862 | over any run with fresh ids, every id is in exactly one slot of one file or reservation, and every name in use is known |
| `Conservation.DeadForever` | dfsha/control_node/tree.py:352-380 | an id that has left the metadata never returns |
| `Conservation.GoneIffTaken` | dfsha/control_node/tree.py:352-380 | over any run a block of a file is gone at the end if and only if one of its commands took it: a removal, an abort or a new upload of its file, or a commit that covers its slot |
| `Conservation.DiscardedIsDead` | dfsha/control_node/servicer.py:374-392 | every block that Remove, a stale BeginUpload, CommitWrite or AbortWrite returns for deletion is unreferenced after the command |
| `Conservation.DiscardedForever` | dfsha/control_node/servicer.py:374-392 | and stays so in every later state |
| `Conservation.HandedBackIffGone` | dfsha/control_node/tree.py:352-843 | a successful command hands a block of a file back for deletion, with all its nodes, if and only if it takes it out of the metadata and is no AbortUpload |
| `Conservation.ReservedIsHandedBack` | dfsha/control_node/tree.py:827-843 | an abort of a write in force hands back every block that was reserved for it |
| `Transactions.FailureIsAtomic` | dfsha/control_node/tree.py:321-862 | for all 18 commands an error leaves tree and accounts untouched, and locks and reservations too except for entries expired at the command's time |
| `Transactions.RefusedUploadCreatesNothing` | dfsha/control_node/tree.py:587-615 | a refused upload leaves no directory behind |
| `Transactions.ResolvedAtMostOnce` | dfsha/control_node/tree.py:801-843 | for a write id, at most one of "commit published it" and "abort returned its blocks" ever happens |
| `Transactions.AbortAfterCommitIsHarmless` | dfsha/client/distributed_client.py:761-775 | aborting a write whose commit had been applied returns no block and changes no file |
| `Transactions.OneCommitPerVersion` | dfsha/control_node/tree.py:801-810 | of the writes begun on one version of a file at most one commits |
| `Undo.RemoveDirUndoesMakeDir` | dfsha/control_node/tree.py:321-350 | rmdir by the maker right after mkdir succeeds and restores the whole state |
| `Undo.ReleaseUndoesAcquire` | dfsha/control_node/tree.py:404-470 | releasing at once leaves the lock table as the acquisition found it, apart from expired holders |
| `Undo.AbortUndoesBegin` | dfsha/control_node/tree.py:724-843 | aborting a write at once returns exactly the proposed blocks and leaves the reservations as found, apart from expired ones |
| `Undo.AbortUndoesUpload` | dfsha/control_node/tree.py:562-673 | whoever began an upload can abort it at once, and no file differs from before, a replaced stale upload apart |
| `Undo.AccountsRun` | dfsha/control_node/tree.py:528-552 | over any run no account disappears or changes its groups or its administrator flag |
| `Sizes.CommitKeepsLayout` | dfsha/control_node/tree.py:811-823 | a commit leaves all blocks but the last full and the size max(size, offset+length) |
| `Sizes.LaidOutRun` | dfsha/control_node/tree.py:562-862 | over any run whose uploads confirm the announced sizes, every committed file keeps that layout |
| `Sizes.ReachableIsLaidOut` | dfsha/control_node/tree.py:207-222 | so it holds in every state reachable from an empty cluster |
| `Walks.IterBlocks` | dfsha/control_node/tree.py:889-915 | iter_blocks is a bijection with the blocks of the committed files that lookup finds, each under the text of its path |
| `Walks.WalkedPathResolves` | dfsha/control_node/tree.py:889-915 | on every reachable tree the text the walk reports parses back to the file's path |
| `Walks.ReferencedBlocks` | dfsha/control_node/tree.py:864-887 | referenced_blocks is exactly the pairs named by a file, committed or pending, or by a reservation in force |
| `Walks.AssignedExactly` | dfsha/control_node/tree.py:864-887 | a copy is assigned while some file has the block there, committed or pending and whatever its lease, or a reservation whose lease is not over has |
| `Permissions.WhatADigitGrants` | dfsha/control_node/tree.py:160-169 | but for administrators, the digit of the caller's own class alone decides: `r` from 4 up, `w` for 2, 3, 6 and 7 |
| `Permissions.SuccessIsAuthorized` | dfsha/control_node/tree.py:172-188 | a command succeeds only if the caller it carries has, in the state it is applied to, the permission that command needs |
| `Permissions.StrangerChangesNothing` | dfsha/control_node/tree.py:160-182 | no command of a caller who is neither owner nor administrator and has no `w` on the file or its directory changes the file |
| `Deduplication.TableIsTheRecentPast` | dfsha/control_node/replicated_tree.py:70-90 | after any log with any retries, the tree is that of the executed commands and the table holds exactly the outcomes of the last 10000 of them |
| `Deduplication.AnsweredIffRanLately` | dfsha/control_node/replicated_tree.py:70-71 | a key is answered from the table if and only if fewer than 10000 commands were executed since it was |
| `Deduplication.RunsOnceIffInTime` | dfsha/control_node/replicated_tree.py:38-42 | every key is executed exactly once if and only if every retry comes within 10000 new keys of its first use |
| `Deduplication.RetriesAreInvisible` | dfsha/control_node/replicated_tree.py:70-90 | such a log, even if retries carry other arguments, builds the tree of the log without repeats and gives each retry the outcome of its first use |
| `ReplicatedLog.KeysAreInjective` | dfsha/control_node/servicer.py:288-296 | a key determines the caller and the operation id; the cluster's own keys collide with no user's |
| `ReplicatedLog.OwnOutcomesOnly` | dfsha/control_node/servicer.py:288-306 | a caller only ever receives the outcome of a command of its own with the same operation id |
| `ReplicatedLog.ValidNamesRun` | dfsha/control_node/tree.py:528-545 | every account has a valid name, hence without a colon |
| `ReplicatedLog.DeletingAnsweredBlocksIsSafe` | dfsha/control_node/servicer.py:358-392 | the blocks named by an answer, executed or stored, are unreferenced in the state it is given in and all later ones |
| `ReplicatedLog.ReplicatedTree.Dispatch` | dfsha/control_node/replicated_tree.py:73-77 | the call by name is the machine's step for all 18 mutations |
| `ReplicatedLog.ReplicatedTree.Evict` | dfsha/control_node/replicated_tree.py:86-89 | the loop forgets the oldest outcomes and only those |
| `ReplicatedLog.ReplicatedTree.ApplyCommand` | dfsha/control_node/replicated_tree.py:59-90 | a known key is answered with its stored outcome and nothing else happens; any other is executed, or refused when it names no mutation, and its outcome is remembered as the last of at most 10000 |
| `Handlers.ExecutedAbortFreesTheReadBlocks` | dfsha/control_node/servicer.py:470-485 | if the abort is executed, the blocks read before it are dead after it, whatever commands came between |
| `Handlers.PendingBlocksExactly` | dfsha/control_node/tree.py:675-682 | the blocks read are a copy of those of a pending upload, and none for an unreadable path or anything else |
| `Handlers.AbortIsSafeIffTaken` | dfsha/control_node/servicer.py:470-485 | in any run, with any commands under any keys between the reading and the abort, the deletions of AbortUpload are safe if and only if commands executed since the reading took every block it read |
| `Handlers.AbortUnderItsKeyIsSafe` | dfsha/control_node/servicer.py:470-485 | they are safe when the first success recorded under the key after the reading is an abort of this path, whatever else uses the key |
| `Handlers.AbortDeletesSafelyIff` | dfsha/control_node/servicer.py:470-485 | if no other request uses its key between the reading and the answer: the deletions are safe for all commands that may come between if and only if the key was not answered with success at the reading, or there was nothing to delete |
| `Handlers.RepeatedAbortDeletesALiveBlock` | dfsha/control_node/servicer.py:470-485 | a log in which a repeated AbortUpload deletes a block of a new upload |
| `Handlers.SharedKeyDeletesALiveBlock` | dfsha/control_node/servicer.py:278-306 | a log in which another request under the same operation id succeeds in between, and the abort, answered from the table, deletes a block of the upload that goes on |
| `ControlServicer.BlockCountFits` | dfsha/control_node/servicer.py:400 | the division rounded up gives the number of blocks the bytes need, no more and no less |
| `ControlServicer.AnnouncedSizesAddUp` | dfsha/control_node/servicer.py:427-440 | the announced sizes add up to the upload and lay the file out |
| `ControlServicer.PickedAreDistinct` | dfsha/control_node/servicer.py:308-322 | a block never gets the same node twice |
| `ControlServicer.EveryNodeTakesEachRankOnce` | dfsha/control_node/servicer.py:308-322 | over as many calls as nodes, each node is exactly once the replica of each rank |
| `ControlServicer.OffsetsCompose` | dfsha/control_node/servicer.py:319-321 | the stored offset stands where counting calls from the first would be |
| `ControlServicer.Servicer.PickReplicas` | dfsha/control_node/servicer.py:308-322 | too few live nodes is an error; otherwise min(factor, live) nodes, the i-th at (offset + i) modulo the live ones, and the offset advances by one |
| `ControlServicer.Servicer.Propose` | dfsha/control_node/servicer.py:400-405 | one placement for each block, with its own id and pick, the picks following each other by one offset; nothing if some pick lacked nodes |
| `ControlServicer.EntryKeysAreInjective` | dfsha/control_node/servicer.py:286-296 | two submissions share a key exactly when caller and operation id are the same |
| `ControlServicer.Servicer.Commit` | dfsha/control_node/servicer.py:278-306 | exactly when the submission reaches the log it grows by the command under `name:operation id`, or the bare id without a caller; a confirmed answer is that entry's, and an entry left in transit may be applied later |
| `ControlServicer.Servicer.Deliver` | dfsha/control_node/servicer.py:278-306 | an entry whose submitter got no answer is applied late, once |
| `ControlServicer.Servicer.DeleteBlocks` | dfsha/control_node/servicer.py:380-392 | one deletion for each copy of each block, and no other |
| `ControlServicer.Servicer.CommitThenDelete` | dfsha/control_node/servicer.py:358-378 | Remove, CommitWrite and AbortWrite submit exactly their command, and delete exactly the blocks of the outcome, none of which the metadata still names |
| `ControlServicer.Servicer.BeginUpload` | dfsha/control_node/servicer.py:394-441 | it submits an upload of this path, clock, lease, block size and caller, with one fresh id and one round-robin pick for each block the bytes need, or nothing if the size is not positive or nodes are lacking; locations come from the outcome with the announced sizes, and only dead blocks are deleted |
| `ControlServicer.Servicer.AbortUpload` | dfsha/control_node/servicer.py:470-485 | submits the abort of this path by this caller and deletes exactly what was read before; safely if and only if commands executed since the reading took all of it, hence safely if no other request uses the key and it was not answered with success at the reading, and, with nothing in between, not safely if it was |
| `FileContent.SlotContent` | dfsha/client/distributed_client.py:778-803 | the buffer holds the data that falls in the block over the old block; the old block is read only when needed |
| `FileContent.NoZeroFill` | dfsha/client/distributed_client.py:794-803 | every byte of a new block comes from the data or from the old block, never from the zero fill |
| `FileContent.SlotIsChunk` | dfsha/client/distributed_client.py:778-803 | a new block is the corresponding block of the spliced content |
| `WriteProtocol.BeginKeepsInv` | dfsha/control_node/tree.py:724-779 | a new reservation is planned on the present content and moves no byte of any file |
| `WriteProtocol.WriteNextKeepsInv` | dfsha/client/distributed_client.py:735-751 | a block written for a reservation that could still commit is right, and touches no block of a file |
| `WriteProtocol.CommitKeepsInv` | dfsha/control_node/tree.py:781-825 | a commit makes the content the splice, and every other reservation on the file has lost |
| `WriteProtocol.EventKeepsInv` | dfsha/client/distributed_client.py:724-776 | no other event, of any client, changes a byte of the file |
| `WriteProtocol.ContentIsTheCommittedSplices` | dfsha/client/distributed_client.py:724-803 | over any run the bytes of a file are its committed splices applied in commit order; blocks of a reservation may be deleted once it expired before every stamp still to be applied |
| `WriteProtocol.EventKeepsWorld` | dfsha/client/distributed_client.py:724-776 | every event keeps, with or without a file to follow, that ids are in one place, names are known, and no block that a client still has to write is named elsewhere |
| `WriteProtocol.UploadedFileStarts` | dfsha/control_node/tree.py:650-657 | such runs start from any stored, laid out file on which no reservation can still commit |
| `Uploads.EventKeepsUpload` | dfsha/client/distributed_client.py:549-601 | no event of anybody else changes what is stored of a confirmed block of an upload in progress |
| `Uploads.CompletedUpload` | dfsha/control_node/tree.py:650-657 | a completed upload stores exactly the data its client sent, and nothing reserved on an earlier file of the name can commit on it |
| `Uploads.UploadThenWrites` | dfsha/client/distributed_client.py:549-601 | from BeginUpload through CompleteUpload and on, in any interleaving, the bytes of the file are what was sent with the committed splices over it |
| `Cluster.EventKeepsSystem` | dfsha/data_node/servicer.py:156-218 | every event keeps the parts of the system consistent: the nodes hold the copies that are stored, a copy once made is there, missing or unreferenced, and what is missing has one reason |
| `Cluster.EventKeepsInv` | dfsha/data_node/servicer.py:156-218 | no event of clients, nodes, re-replicator or collector makes a copy of a block of the file differ from what its writer sent; a named copy is there, or was lost or deleted |
| `Cluster.FetchedIsStored` | dfsha/client/distributed_client.py:778-803 | a read of an old block, from any node the client was told of, gets what was stored if the write may yet commit |
| `Cluster.EveryReplicaHoldsTheContent` | dfsha/client/distributed_client.py:805-842 | over any run, with any repairs and collections, any choice of present copies of the blocks concatenates to the committed splices |
| `NodeUploads.EventKeepsUploadOnNodes` | dfsha/client/distributed_client.py:549-601 | no event takes from the nodes, or changes there, a block that an upload in progress confirmed, unless the node loses it |
| `NodeUploads.UploadReachesTheNodes` | dfsha/control_node/tree.py:617-657 | after BeginUpload, any interleaving and CompleteUpload, every copy of every block holds what the client sent, and every named copy is there or missing |
| `NodeUploads.UploadedContentOnNodes` | dfsha/client/distributed_client.py:549-601 | so, over any later run, any choice of present copies concatenates to the uploaded data with the committed splices over it |
| `Presence.EventKeepsCondemned` | dfsha/control_node/garbage_collector.py:100-146 | every event keeps it true that what a cycle may still delete, or deleted, is out of reach of all commands, or was repaired after the cycle read the metadata |
| `Presence.MissingCopiesAreLostOrRescued` | dfsha/control_node/garbage_collector.py:100-146 | over any run, a copy that the file names is missing if and only if its node lost it, or the collector deleted it and a repair of it was applied after that cycle read the metadata |
| `Presence.RescuedWasRepaired` | dfsha/control_node/tree.py:845-862 | a copy counted as repaired was recorded by a repair that the run applied |
| `Presence.NamedCopiesStayUnlessLost` | dfsha/control_node/rereplicator.py:124-170 | if repairs record copies in flight since they were made, and none starts of a listed copy, then over any run every named copy is on its node unless the node lost it |
| `Progress.BeginInforms` | dfsha/control_node/tree.py:765-779 | whoever begins a write is told, for every slot, the id, size and nodes of the old block as the file has them |
| `Progress.CommandKeepsInformed` | dfsha/control_node/tree.py:781-862 | only a repair of the file and a commit on it change what a write was told |
| `Progress.FetchableIff` | dfsha/client/distributed_client.py:789-797 | for a write that can still commit, a node can give the next old block if and only if the metadata names it for the block and it has the copy, unless the block is overwritten whole or new |
| `Progress.NextBlockIsFound` | dfsha/client/distributed_client.py:789-797 | if every block of the file has a copy where the metadata says, the client finds the old block it needs |
| `Progress.NamedCopiesServe` | dfsha/client/distributed_client.py:805-842 | that is so where no named copy is missing |
| `Progress.EventKeepsUnderway` | dfsha/client/distributed_client.py:724-776 | a write stays underway through every event but its client giving up, a repair of or commit on the file, the loss of a last copy, and the end of its lock or lease |
| `Progress.UndisturbedWriteLands` | dfsha/client/distributed_client.py:724-776 | a reservation granted on a served file can be written block by block and committed, and then the file holds the data at its offset and the rest as before |
| `Reading.ContentUnderLock` | dfsha/control_node/tree.py:376-379 | over any run of the whole system at the end of which a lock is still in the table, without commits through it, the content and the listed blocks are the same at every moment |
| `Reading.SharedHolderHolds` | dfsha/control_node/tree.py:796-800 | a shared holder found at the end was there all along and nothing was committed through it |
| `Reading.DownloadUnderLock` | dfsha/client/distributed_client.py:603-645 | a download whose threads all end well is the committed content, whichever copies answered, at whatever moments of the run, and whoever failed before |
| `Reading.RangeUnderLock` | dfsha/client/distributed_client.py:666-705 | what a range read returns is the slice of the committed content if and only if it asks for a byte, is open, or starts at a block edge; only the blocks asked for need an answer |
| `RangeRead.RangeIsSliceIff` | dfsha/client/distributed_client.py:680-695 | a range read is the slice if and only if it asks for at least a byte, is open, or starts at a block edge |
| `RangeRead.ZeroLengthReadsABlockTail` | dfsha/client/distributed_client.py:690-693 | zero bytes asked for inside a block return its tail |
| `RangeRead.EmptyRangeReadsToTheBlockEnd` | dfsha/client/distributed_client.py:690-693 | an empty range is served like the range up to the end of the block it falls in |
| `RangeRead.ReadRange` | dfsha/client/distributed_client.py:666-705 | the loop rejects exactly the bad ranges, returns the slice, and asks exactly the blocks that intersect it, once each, from the later beginning to the earlier end |
| `Download.RegionWriter.Write` | dfsha/client/distributed_client.py:176-179 | a write lands at the region's cursor, or is refused and changes nothing when it would leave the region |
| `Download.ReadBlockWithFailover` | dfsha/client/distributed_client.py:805-842 | it is cancelled exactly when the stop signal is found set at a chunk before the block is decided; otherwise it ends as `Download.OutcomeExactly` says, and a complete block is the whole stream of the deciding replica; the rest of the file is untouched |
| `Download.OutcomeExactly` | dfsha/client/distributed_client.py:805-842 | another replica is tried exactly while those before became unavailable; one that completes, refuses or sends too much decides, and without any replica the block is not found |
| `Download.LooksExactly` | dfsha/client/distributed_client.py:828-833 | the stop signal is looked at once for each chunk that arrives, up to the first that does not fit |
| `Download.TurnExactly` | dfsha/client/distributed_client.py:603-630 | a chunk beyond the region or a short stream is corruption, a refusal is a refusal, the last replica lost is unavailability, and the next replica starts from nothing; no other thread changes |
| `Download.FirstErrorStays` | dfsha/client/distributed_client.py:335-375 | the first error stays the one to raise |
| `Download.NothingWrittenAfterError` | dfsha/client/distributed_client.py:335-375 | after it no byte is written, and threads that start or get a chunk are cancelled |
| `Download.FaultFreeDownloadEnds` | dfsha/client/distributed_client.py:603-645 | without a fault no thread fails or is cancelled, and a thread is done exactly when its stream has ended |
| `Download.WritesStayInside` | dfsha/client/distributed_client.py:153-179 | no event of a thread changes a byte outside its region |
| `Download.OneReplicaPerRegion` | dfsha/client/distributed_client.py:805-842 | what a region holds is what its present replica sent since it was asked, nothing of the replicas before |
| `Download.DownloadIsTheConcatenation` | dfsha/client/distributed_client.py:603-645 | if every thread ends well, in any interleaving with failovers, the file is the concatenation of the blocks' complete streams |
| `Download.FailureHasACause` | dfsha/client/distributed_client.py:335-375 | if a thread failed or was cancelled, the error raised is the fault of some block, never a cancellation |
| `Copies.NamedAfterStep` | dfsha/control_node/tree.py:562-862 | a file comes to name a copy only by an upload to it with fresh ids, a commit of its reservation, or a repair |
| `Collector.EventKeepsInv` | dfsha/control_node/garbage_collector.py:100-146 | every event keeps it true that no reservation names the block of a stored or listed copy longer than a lease after the copy was stored |
| `Collector.DoomedUnlessRepaired` | dfsha/control_node/tree.py:845-862 | a copy named by nothing that could still commit is never assigned again if and only if no repair of it is applied |
| `Collector.CollectionIsSafeIffNotRepaired` | dfsha/control_node/garbage_collector.py:100-146 | for a copy the cycle may delete and any events after the metadata was read: it is assigned at no moment if and only if no repair of it is applied |
| `Collector.NothingAssignedIsDeleted` | dfsha/control_node/garbage_collector.py:100-146 | if repairs record only copies in flight and none starts of a listed copy, a copy is never deleted while the metadata assigns it, in any interleaving |
| `CollectionOrder.MetadataBeforeInventoryIsUnsafe` | dfsha/control_node/garbage_collector.py:104-121 | reading the metadata before the inventory would delete a block of a pending upload |
| `CollectionOrder.MetadataBeforeFlightIsUnsafe` | dfsha/control_node/garbage_collector.py:122-125 | reading the metadata before the copies in flight would delete a replica just committed |
| `CollectionOrder.LateRepairIsUnprotected` | dfsha/control_node/rereplicator.py:157-169 | a run in which a repair begun after the readings, onto a listed copy, is condemned |
| `CollectionOrder.UnresolvedRepairIsUnprotected` | dfsha/control_node/rereplicator.py:221-225 | a run in which a repair that left the in-flight set unresolved is applied after the readings, and is condemned |
| `Collector.CondemnedIsDeletable` | dfsha/control_node/garbage_collector.py:126-131 | the loop's test holds of a listed copy if and only if the copy is deletable in the sense of the safety theorem |
| `Collector.GarbageCollector.DeleteUnreferenced` | dfsha/control_node/garbage_collector.py:126-146 | asks for a copy exactly if its node listed it, old enough, it is not in flight, and the metadata does not map its block to this node, unless leadership is lost; records those agreed |
| `Replicas.RepairKeepsAndAdds` | dfsha/control_node/rereplicator.py:135-157 | a repair has no duplicates, at most the factor of nodes, every live replica and one more |
| `Replicas.ReplicasOkRun` | dfsha/control_node/rereplicator.py:135-157 | over any run with placements as the servicer picks them and good repairs, every list of nodes, in files and reservations, stays without duplicates and within the factor |
| `Replicas.ReachableReplicas` | dfsha/control_node/servicer.py:308-322 | so it holds in every state reachable from an empty cluster |
| `Replicas.RepairLowersTheDeficit` | dfsha/control_node/tree.py:845-862 | with fixed live nodes each committed repair takes exactly one from the summed deficit of replicas |
| `Replicas.OthersKeepTheDeficit` | dfsha/control_node/tree.py:845-862 | a refused command, and every command but a removal, a commit, a completed upload and a repair, does not move it |
| `Replicas.RemovalDeficit` | dfsha/control_node/tree.py:352-380 | a removal takes away exactly the deficit of the blocks it returns |
| `Replicas.CompletionDeficit` | dfsha/control_node/tree.py:650-657 | a completed upload adds exactly the deficit of its blocks |
| `Replicas.CommitDeficit` | dfsha/control_node/tree.py:811-823 | a commit adds exactly the deficit of the published blocks less that of the replaced ones |
| `Replicas.DeficitRisesOnlyByPublishing` | dfsha/control_node/tree.py:562-862 | so the sum never rises but by a commit or a completed upload |
| `Rereplication.ReReplicator.PickTarget` | dfsha/control_node/rereplicator.py:152-154 | picks the first live node not recorded for the block, if there is one |
| `Rereplication.ReReplicator.CommitReplicas` | dfsha/control_node/rereplicator.py:213-232 | the change is submitted again under the same operation id exactly while its outcome is unknown, up to the attempts allowed; a path that is gone is noted |
| `Rereplication.ReReplicator.RepairBlock` | dfsha/control_node/rereplicator.py:157-170 | the copy is in flight while the live nodes are tried in order and, if one delivers it, while the change is submitted; what is submitted and which path is noted as gone are exactly as the answers decide |
| `Rereplication.ReReplicator.RunCycle` | dfsha/control_node/rereplicator.py:124-170 | exactly the blocks in need get their turn, in order, up to the limits of the cycle, of leadership and of the stop signal; what they submit is exactly what their turns submit, all of it good and in flight; the blocks reported lost are exactly those passed that no live node has |
| `Rereplication.NeedsRepairExactly` | dfsha/control_node/rereplicator.py:135-156 | a block is in need if and only if some but fewer than the factor of its nodes live, each dead one that is known has been down for the delay, and another node lives |
| `Rereplication.DueExactly` | dfsha/control_node/rereplicator.py:133-156 | the turns are those of the blocks in need, once each and in order |
| `Rereplication.DeliversIff` | dfsha/control_node/rereplicator.py:179-200 | a copy is delivered if and only if an attempt within the limit delivers it, all before it having found the source unreachable |
| `Rereplication.SubmitsExactly` | dfsha/control_node/rereplicator.py:213-232 | the change is submitted up to the first answer that is known, or to the limit |
| `Rereplication.FindsPathGoneIff` | dfsha/control_node/rereplicator.py:226-229 | the path is noted as gone exactly when that is the first known answer within the limit |
| `Rereplication.SubmittedByExactly` | dfsha/control_node/rereplicator.py:157-168 | a turn submits one change of the block as it was read: to its live nodes in order and the new one, and nothing if none of them delivers the copy |
| `Container.NoncesAreDistinct` | dfsha/data_node/block_store.py:58-61 | two nonces are equal only for the same prefix and counter, the metadata's included |
| `Container.AadTellsApart` | dfsha/data_node/block_store.py:64-69 | associated data tells blocks, positions, last chunks and metadata apart |
| `Container.CutIsChunking` | dfsha/data_node/block_store.py:155-164 | the chunks written are the cutting of the data in full chunks and a non-empty last one |
| `Container.BlockWriter.Feed` | dfsha/data_node/block_store.py:155-162 | buffering pieces of any size keeps the file equal to the sealed full chunks so far |
| `Container.BlockWriter.Finish` | dfsha/data_node/block_store.py:163-169 | the last chunk and the metadata complete the container |
| `Container.WriteBlock` | dfsha/data_node/block_store.py:130-172 | for every cutting of the input the file is the container of its concatenation, and it fails only beyond 2^32-1 chunks |
| `ContainerReading.FramingHolds` | dfsha/data_node/block_store.py:97-115 | the file written satisfies the framing equation that reading checks |
| `ContainerReading.MetadataOfContainer` | dfsha/data_node/block_store.py:76-115 | reading the metadata of a container gives the prefix, size, count and checksum of what was written |
| `ContainerReading.ReadMetadataIsGenuine` | dfsha/data_node/block_store.py:76-115 | metadata that verifies was written, with this prefix, for this block |
| `ContainerReading.ReadOfWritten` | dfsha/data_node/block_store.py:175-229 | write then read of any range gives exactly the range, in non-empty pieces of at most the chunk size asked |
| `ContainerReading.OnlyGenuineBytes` | dfsha/data_node/block_store.py:175-229 | whatever was done to the file, what is yielded before an error is a prefix of the range of a block really written under this id |
| `ContainerReading.ReadBlock` | dfsha/data_node/block_store.py:175-229 | the loop over chunks and pieces is the specified reading, with its four ways to end |
| `ContainerFormat.ContainerExactly` | dfsha/data_node/block_store.py:130-172 | the file is, byte by byte: `DFSE1`, version 1 and the prefix; chunk i of 1048576 bytes at 14 + 1048592 i, sealed under prefix and counter i, for block, position and end; and at its last 64 bytes the record of size, count and checksum under counter 2^32-1 |
| `ContainerFormat.ReadMetadataIff` | dfsha/data_node/block_store.py:76-119 | metadata is read from a file if and only if header, record, count and framing certify it for this block |
| `ContainerFormat.ChunkOpensIff` | dfsha/data_node/block_store.py:203-219 | a chunk opens if and only if it lies at its place, in its size, sealed for its block, position and end |
| `ContainerFormat.ReadingExactly` | dfsha/data_node/block_store.py:175-229 | how every reading ends, in the order in which it looks; a range is read chunk by chunk up to the first that does not open, each chunk in pieces of the size asked but for its last |
| `Capability.IssuedBlockIsAcceptedIff` | dfsha/common/block_token.py:65-72 | an issued block capability is granted exactly for its block and operation, before an expiry that is not negative |
| `Capability.IssuedInternalIsAcceptedIff` | dfsha/common/block_token.py:78-81 | the same for an internal capability |
| `Capability.Lifetime` | dfsha/common/block_token.py:65-66 | it lives at least ttl and less than ttl+1 |
| `Capability.KindsDoNotMix` | dfsha/common/block_token.py:107-120 | neither kind is ever accepted for the other |
| `Capability.PayloadsAreInjective` | dfsha/common/block_token.py:65-81 | a block payload determines operation, block and expiry |
| `Capability.InternalPayloadsAreInjective` | dfsha/common/block_token.py:78-81 | the same for internal payloads: operation and expiry |
| `Capability.PayloadKindsDiffer` | dfsha/common/block_token.py:65-81 | no payload is of both kinds |
| `Capability.AcceptedIsSigned` | dfsha/common/block_token.py:84-112 | what is accepted is a printed payload for exactly this grant, followed by its MAC |
| `Capability.AcceptedInternalIsSigned` | dfsha/common/block_token.py:107-120 | the same for internal capabilities |
| `Capability.DecimalsExactly` | dfsha/common/block_token.py:65-66 | expiries are printed in decimal notation, without leading zeros, with a sign when negative |
| `Capability.IssuedExactly` | dfsha/common/block_token.py:61-81 | tokens are issued exactly for the operations listed and, for blocks, ids of 32 lower-case hexadecimal digits; their text is `b:op:id:expiry` or `i:op:expiry`, a dot and the MAC of it |
| `Capability.VerifyBlockExactly` | dfsha/common/block_token.py:84-112 | the verdict on any text: missing if empty, invalid if it does not carry its own MAC, granted or expired if it is for this block and operation with an expiry in digits, not authorized otherwise |
| `Capability.VerifyInternalExactly` | dfsha/common/block_token.py:107-120 | the same for internal capabilities |
| `Pipeline.HopIsSafe` | dfsha/data_node/servicer.py:156-218 | over any run of a node what it forwarded is a prefix of what it received, at most 4 are queued, and after a failure it holds no copy |
| `Pipeline.HeadSuccessMeansEveryCopy` | dfsha/data_node/servicer.py:156-218 | in a chain of any length, success at the head means every node holds the bytes the head received, with its checksum |
| `Pipeline.DownstreamFailureLeavesNoCopy` | dfsha/data_node/servicer.py:195-216 | if any node downstream did not succeed, the head, once it answers, has failed and holds nothing |
| `Pipeline.AnswersWhatIsConfirmed` | dfsha/data_node/servicer.py:195-218 | a node whose own write holds answers success exactly when the next confirmed the bytes that it received, with their checksum |
| `Pipeline.NeverStuck` | dfsha/data_node/servicer.py:156-218 | a node that has not answered can always go on while the next takes chunks |
| `Pipeline.HealthyChainSucceeds` | dfsha/data_node/servicer.py:156-218 | for any chunks and any number of nodes there is a run in which every node holds them and the head answers success |

## Left out

- Heap aliasing of tree nodes and block records: the four fields of `ControlTree` are updated in place, but nodes inside them are values; mutating a shared `FileNode` object is modelled as putting the new value at its path.
- Lock and reservation tables are indexed by the parsed path, which `Paths.CanonicalKeyIsThePath` shows to identify the same files as the canonical text.
- `ContentIsTheCommittedSplices`: WriteProtocol follows one incarnation of a file; a removal starts another, which `Locking.NoAba` keeps apart.
- `NothingAssignedIsDeleted`: Collector supposes a discipline of repairs that the code does not enforce; `Collector.CollectionIsSafeIffNotRepaired` is the exact condition without it.
- `EveryReplicaHoldsTheContent`: Cluster follows one file, which is not removed during the run; that enough copies are present to read it is a hypothesis of `Progress`, which `MissingCopiesAreLostOrRescued` bounds.
- `MissingCopiesAreLostOrRescued`: Presence counts as lost a copy deleted by an AbortUpload while it is named.
- `DownloadUnderLock`: Reading is about what a download that ends well wrote; that some replica answers is not claimed.
- `HeadSuccessMeansEveryCopy`: Pipeline is about safety; after an early downstream failure progress is not guaranteed and not claimed. The last node is given by what `WriteBlock` without downstream does.
- The proposal that BeginWrite builds before submitting: it is validated again when the command is applied, which is modelled.
- Calls with missing arguments and states restored from old snapshots (`now` absent, files without stored block size beyond `_block_size_of`); a negative inferred block size counts as zero.
- The text of error messages; only the class of each domain error is kept.
- The order in which a directory's children are visited, which the walks choose freely.
- Raft, journals and snapshots: the log is one agreed sequence, and an answer may be lost.
- AES-GCM, HMAC and SHA-256: sealing is ideal, the MAC and the hash are uninterpreted functions. Overwriting a block file while it is being read is covered, other disk errors are not.
- Python's limit on the length of integers read from text, and clocks of different machines.
- The client's renewal thread, backoff, deadlines and their timing; sequential transfers, which are one of the interleavings.
- DataNode monitoring, public addresses, TLS, gRPC services, sessions and passwords, directory listings, the shell, and the earlier single-server version.
