# A verified model of the Core's clipboard

This project models, in Dafny, the parts of the repository where state, order of events
and byte layouts interact, and proves properties of every input, every run or every
reachable state of the model. It covers six things.

1. **The transaction table and its network election.** Each Core keeps one current clip,
   superseded clips that are still being read, and published or adopted entries with
   owners. `ClipboardTable` has the table with its mutating operations, `SessionWorld`
   interleaves removers and sessions with the latched reset wake, and `Convergence` runs
   any number of Cores whose announces may be lost, duplicated and reordered. `TableLaws`
   says entry by entry what each operation installs and removes, `Revocations` follows a
   removal to the sessions it cuts.
2. **The folder manifest.** `Manifest` freezes a forest into a flat list and re-validates a
   list from the network, `Forests` says what a frozen list means, `FileTree` rebuilds an
   inode tree from any list, hostile or not, and `FolderRoundTrip` proves that the three
   together give back the copied forest. `Acceptance` says which forests are frozen at all.
   `Names` and `Numerals` hold the path rules, `CopiedNames` says which name a copied file
   ends up with, `TreeLaws` which entries of a hostile list are placed.
3. **The client channels under cancellation.** `ConsumerChannels` lets a request future be
   dropped at every await, with the Core at the other end and the caller around it.
   `PeerChannels` works on bytes, with partial writes.
4. **Codecs with hard inverses.** `DibCodec` and `DibRoundTrip` (device-independent
   bitmaps, with `Rows` for the index arithmetic, and `DibLayouts` for which blobs are
   accepted), `RecoveryCode` (Crockford base32 with a checksum), `BlobStreams` (chunked
   blobs, from bytes to a call's result), `Framing` (header-framed messages, over `Text`
   for UTF-8, and `FrameHeaders` for any header lines), `UriLists` (percent-encoded lists
   of file URIs).
5. **The X11 selection owner.** `IncrTransfer` runs the sender and the reader of an
   incremental transfer (section 2.7.2 of the ICCCM) against each other; `Selection` is
   the owner's event handlers, `SelectionRuns` its accounting over all runs,
   `SelectionAnswers` what it advertises and which answer each request gets.
6. **Registry and monitor.** `Enrollment` and `EnrollmentRuns` interleave the enrollment
   handlers of any number of connections, `Admission` says who is let in, in terms of
   tokens and connections alone; `FillMonitor` interleaves threads around a mutex and a
   condition variable.

`Wrappers` and `Bytes` hold what the others share.

## How it is built

What the source does by changing fields or running loops is a class or a method with
loops here, and each of those is proved against a function of its inputs or of its old
state. The theorems are about these functions: what every step keeps, what a run from
the start reaches, what one codec makes of the other's output. Where an await, a lock or
a system call cuts the source, the model has a step or an event, and a run is any
sequence of steps that are possible in turn.

Five properties are false of the code as it stands. In each case a lemma names the
failing input or run, and another says exactly when the property holds.

- A revocation can pass a session by when a transaction is copied in again under an open
  session of its own (`SessionWorld.ReinstallLosesARevocation`). A copy is safe if and
  only if no session is open on its id at that moment (`SessionWorld.CopyIsSafeIff`);
  every run without such a copy loses no revocation (`SessionWorld.NoRevocationIsLost`),
  however often ids are published, adopted, removed and installed again.
- A consumer channel that is kept after an I/O error can return the bytes of the response
  it gave up on as those of the next request (`ConsumerChannels.KeptChannelLeaks`).
  Requests are isolated if and only if the caller drops its channel on such an error
  (`ConsumerChannels.IsolatedIffDropsOnIo`), which the Core's fetcher does. A channel kept
  all the same stays isolated, up to the next such error, if and only if nothing of that
  response is left or to come (`ConsumerChannels.KeptIsIsolatedIff`).
- A request future that is dropped does not always let the next one resynchronize, as
  `client/src/channel.rs:252-253` has it (`ConsumerChannels.DropBeforeWriteWedges`,
  `ConsumerChannels.WedgedUntilTheCoreEnds`). On a channel that is open, and was never kept
  over an I/O error, it does if and only if the dropped future was past its write, or was
  itself draining an answer of which something is left
  (`ConsumerChannels.DropResynchronizesIff`).
- A peer channel whose socket fails and then recovers carries half a frame
  (`PeerChannels.ErrorReturnTears`). Whatever sockets do, the pipe is sound in every run
  if and only if the caller sends nothing after an error return of `send`
  (`PeerChannels.SoundIffCallerStops`), as the input engine's channel task does
  (`PeerChannels.ChannelTaskIsSound`). A caller that goes on has a sound pipe, up to the
  next error, if and only if the failed write left no byte in it
  (`PeerChannels.RecoversSoundIff`).
- A bitmap of more than 2^32 bytes loses pixels to the encoder's 32-bit indices, which
  wrap in a release build (`DibRoundTrip.WrapLosesPixels`); a size makes the round trip if
  and only if it fits (`DibRoundTrip.RoundTripsIffFits`). This is said of the function
  `rgba_to_dibv5`. Its one caller decodes a PNG first (`clipboard/src/windows.rs:1239-1244`),
  and whether that decoder lets through an image of such a size is not part of this model.

Where comments and code of the source disagree, the model follows the code:

- `client/src/channel.rs:168-176` calls `draining` cleared only at a response boundary;
  it is cleared on every return of `collect`, protocol errors included.
- `client/src/channel.rs:589-593` calls `torn` never cleared; `send` clears it on an error
  return as well (lines 665-668).
- `client/src/channel.rs:111-121` counts `NO_DIRECT_PATH` as ending the session, the Core's
  `error_ends_session` (`core/src/datachannel.rs:610-615`) does not; the model leaves the
  classification open.

## Assumptions

- Identifiers, tokens and requests drawn at random are new. A local announce in
  particular installs its `tx_id` without a collision check (`core/src/clipboard.rs:285-292`).
- Stamps stay below the u64 maximum in the network model, as the floor saturates there
  (`Convergence.LocalCopyOutranksIff` says what happens at the ceiling).
- No Core forgets its table within a run of the network model: `clear_all` drops the floor.
- A directory lists each name once, and names are single path components.

## Model

| member | source | states |
|---|---|---|
| `ClipboardTable.ClipboardState.constructor` | core/src/clipboard.rs:273-278 | a new table is empty, with no current clip |
| `ClipboardTable.ClipboardState.SupersedeCurrent` | core/src/clipboard.rs:335-344 | the current clip goes at once if nothing reads it, and stays marked superseded otherwise |
| `ClipboardTable.ClipboardState.AnnounceLocalTx` | core/src/clipboard.rs:285-292 | the new clip is current, stamped with the clock but, below the u64 ceiling, above the clip it replaces, which is superseded |
| `ClipboardTable.ClipboardState.AnnounceRemoteTx` | core/src/clipboard.rs:300-321 | adopted exactly when its id is new and its key is strictly above the current clip's; otherwise the table is untouched |
| `ClipboardTable.ClipboardState.BeginSession` | core/src/clipboard.rs:402-418 | reserves an existing entry and says how it is served; a missing entry changes nothing |
| `ClipboardTable.ClipboardState.EndSession` | core/src/clipboard.rs:481-488 | releases one reservation; a superseded clip goes with its last one |
| `ClipboardTable.ClipboardState.PublishTx` | core/src/clipboard.rs:510-517 | installs outside the election under an id the table did not hold |
| `ClipboardTable.ClipboardState.InstallAdopted` | core/src/clipboard.rs:526-552 | a second adopter joins the owners without repetition, an own publication is left alone, a clip's id is refused and nothing changes |
| `ClipboardTable.ClipboardState.RevokeTx` | core/src/clipboard.rs:586-597 | removes a published entry, whatever reads it; unknown ids are no error, clips are refused |
| `ClipboardTable.ClipboardState.RevokeAllOwnedBy` | core/src/clipboard.rs:603-613 | withdraws a connection from every owner list; entries go with their last owner; says exactly whether any went |
| `ClipboardTable.ClipboardState.EvictPublished` | core/src/clipboard.rs:619-627 | removes a published entry, leaves clips; says exactly whether it removed one |
| `ClipboardTable.ClipboardState.ClearAll` | core/src/clipboard.rs:380-383 | forgets every transaction and the current clip |
| `TableLaws.StampIsLeast` | core/src/clipboard.rs:285-286 | a local copy is stamped with the least number that is no earlier than the clock and, below the u64 ceiling, later than the current clip |
| `TableLaws.LocalCopyReplaces` | core/src/clipboard.rs:285-292 | it becomes current as announced; the clip before it goes if nothing reads it and is superseded otherwise; every other entry is as before |
| `TableLaws.RemoteCopyIff` | core/src/clipboard.rs:300-321 | the same for a remote copy with a new id that comes after the current clip by stamp and then device, an absent device first; any other changes nothing |
| `TableLaws.EndUndoesBegin` | core/src/clipboard.rs:402-488 | a session that begins and ends leaves the table as it was, but for a superseded clip that nothing else read |
| `TableLaws.ServedHereIff` | core/src/clipboard.rs:402-418 | an entry is served here if and only if it is local or materialized, and otherwise by the device it came from |
| `TableLaws.PublishInstalls` | core/src/clipboard.rs:510-517 | a publication is there under an id that was free and changes no other entry |
| `TableLaws.RevokeIff` | core/src/clipboard.rs:586-597 | a revocation fails for clips alone; after any other the id is not in the table, and every other entry and the current clip are as before |
| `TableLaws.EvictIff` | core/src/clipboard.rs:619-627 | after an eviction the id is in the table if and only if it is a clip's, and nothing else has changed |
| `TableLaws.ConnGoneIff` | core/src/clipboard.rs:603-613 | with a connection go exactly the published entries it owned alone; the others keep their other owners, in order and as often as before |
| `TableLaws.JoinedIs` | core/src/clipboard.rs:532-539 | the owners that join stand behind the earlier ones, each new one once, in the order of its first mention |
| `TableLaws.AdoptIs` | core/src/clipboard.rs:526-552 | an adoption fails exactly over a clip; it installs a new id, leaves an own publication alone and lets owners join an entry from elsewhere |
| `SessionWorld.ApplyKeepsTable` | core/src/clipboard.rs:285-627 | every table operation keeps: current is present and alive, other clips are superseded and read, published entries are neither current nor superseded and have an owner |
| `SessionWorld.StepKeepsTable` | core/src/clipboard.rs:285-627 | the same for every step of an interleaving of operations, sessions and wakes |
| `SessionWorld.TableAlwaysConsistent` | core/src/clipboard.rs:264-627 | that table invariant holds in every reachable state |
| `SessionWorld.CounterFollows` | core/src/clipboard.rs:402-488 | a step keeps an entry's counter equal to its number of open sessions, unless it reinstalls the id under one |
| `SessionWorld.InstallExactIff` | core/src/clipboard.rs:285-552 | a table operation keeps all counters exact if and only if it installs no id that is still read |
| `SessionWorld.CountersAreExact` | core/src/clipboard.rs:402-488 | in every run that never reinstalls an id under its own sessions, its counter is the number of its open sessions |
| `SessionWorld.SupersededGoesWithLastReader` | core/src/clipboard.rs:332-344 | a superseded clip disappears exactly when its last session closes, or at a reset |
| `SessionWorld.LeavesTableQuietly` | core/src/clipboard.rs:335-344 | an entry leaves the table either with a wake owed or with nobody reading it |
| `SessionWorld.StepKeepsNoneLost` | core/src/clipnet.rs:605-691 | no step leaves a session parked unwoken on an entry that is gone with no wake owed |
| `SessionWorld.StepKeepsGuarded` | core/src/clipboard.rs:285-627 | nothing but a copy over open sessions of its own id takes away what protects a session: an exact counter, or an entry no supersession drops |
| `SessionWorld.NoRevocationIsLost` | core/src/clipnet.rs:606-655 | in every run that never copies an id over an open session of its own, a session parked without a wake on it has its transaction, or the remover has not sent its wake; however often the id is published, adopted, removed and installed again |
| `SessionWorld.CopyIsSafeIff` | core/src/clipboard.rs:285-344 | a copy that installs an id leaves every later run, up to the next copy over open sessions, free of lost revocations if and only if no session is open on the id at that moment |
| `SessionWorld.RevokedSessionIsCut` | core/src/clipnet.rs:736-756 | once the wakes are out, a parked session whose entry is gone is woken, finds it gone and leaves |
| `SessionWorld.ReinstallLosesARevocation` | core/src/clipboard.rs:335-344 | such a loss is reachable from the empty table, by a reset and a second delivery of one announce |
| `Revocations.RemovalCutsItsSessions` | core/src/conn.rs:1490-1509 | in every run behind a revocation, an eviction, the end of the only owner or a reset, unless the id is installed again: the entry stays away, and once the owed wakes are out every session open on it is past its loop or woken and leaves at its next check |
| `Revocations.GoneIsCut` | core/src/clipnet.rs:735-756 | a session without its entry is cut as soon as every wake is out |
| `Revocations.LiveIsNotCut` | core/src/clipnet.rs:735-756 | a session whose entry is still there goes on at its next check |
| `Revocations.GapWakeIsKept` | core/src/clipnet.rs:735-756 | a wake that goes out between arming and parking is kept: the session parks and can go on at once |
| `Revocations.NoWakeIsInvented` | core/src/clipnet.rs:735-756 | and in every run without a wake an armed session that parks stays parked |
| `Convergence.InstallElects` | core/src/clipboard.rs:317-320 | installing an announce above everything seen makes it the elected maximum |
| `Convergence.DeliverElects` | core/src/clipnet.rs:115-133 | processing an announce elects the greater of it and the current clip, duplicates included |
| `Convergence.NextKeeps` | core/src/clipnet.rs:60-189 | every event of the network keeps: each Core's current clip is the maximum of what it saw, ids and stamps stay distinct |
| `Convergence.CurrentIsTheMaximum` | core/src/clipboard.rs:294-321 | in every run, each Core's current clip is the greatest announce by (seq, device) it made or processed, whatever was lost, repeated or reordered |
| `Convergence.SameAnnouncesSameClip` | core/src/clipboard.rs:297-299 | Cores that made or processed the same announces hold the same clip |
| `Convergence.KeyNeverFalls` | core/src/clipboard.rs:294-321 | no event replaces a clip by one with a lower key |
| `Convergence.LatestIsAbove` | core/src/clipboard.rs:285-286 | a copy whose clock is later than every stamp made so far is announced above all of them |
| `Convergence.LastCopierWins` | core/src/clipboard.rs:281-321 | every Core that makes or processes the announce of such a copy holds it as its current clip, in every run behind it without another copy, whatever was lost, repeated or reordered |
| `Convergence.AnyAnnounceCanArrive` | core/src/clipnet.rs:115-133 | and each Core can be reached: any announce sent can arrive at any Core at any moment |
| `Numerals.DecimalReadsBack` | core/src/framing.rs:88-92 | a printed number is digits only and reads back as itself |
| `Names.SplitJoin` | core/src/clipboard.rs:1071-1086 | splitting a joined path at its separators gives its components back |
| `Names.SafePathIff` | core/src/clipboard.rs:1071-1086 | a path is accepted exactly when every component is safe: not empty, not a dot name, no forbidden character |
| `Names.BaseNameIsSafe` | core/src/clipboard.rs:1104-1113 | an accepted base name is one safe component, whatever path it was taken from |
| `Names.UniqueRelIsNew` | core/src/clipboard.rs:1118-1139 | a name made unique is unused and has no separator; an unused name is kept |
| `Names.MakeUnique` | core/src/clipboard.rs:1118-1139 | the search takes the first unused suffix in order and records it |
| `CopiedNames.BaseNameIsLastComponent` | core/src/clipboard.rs:1098-1113 | for every path: without its trailing separators, the name behind the last separator is its base name if it is a safe segment, and it has none otherwise |
| `CopiedNames.HasLastComponent` | core/src/clipboard.rs:1104-1106 | every path but one of separators only has such a last component |
| `CopiedNames.TakenNameIsNumbered` | core/src/clipboard.rs:1118-1139 | a taken name gets the least number that is free, between its stem and its extension |
| `Manifest.Walk.constructor` | core/src/clipboard.rs:838-841 | a walk starts with no entry |
| `Manifest.Walk.Push` | core/src/clipboard.rs:903-932 | appends one numbered entry, or refuses over the cap or for an unsafe path and changes nothing |
| `Manifest.Walk.WalkDir` | core/src/clipboard.rs:940-1026 | walks the sorted entries of a directory, depth and count capped, and returns what it contributed |
| `Manifest.Walk.WalkNode` | core/src/clipboard.rs:971-1023 | files and links to files are entries, folders recurse and are entries only when empty, the rest is skipped |
| `Manifest.FreezeManifest` | core/src/clipboard.rs:833-889 | the loop over the sources yields the frozen manifest or the first error |
| `Manifest.ValidateRemoteManifest` | core/src/clipboard.rs:1036-1063 | accepts, unchanged, exactly the lists within the cap whose paths are safe and distinct |
| `Manifest.DistinctIff` | core/src/clipboard.rs:1036-1063 | distinct means that there are as many paths as entries |
| `CopiedNames.CopiesKeepTheirNames` | core/src/clipboard.rs:833-889 | copied under distinct names, the i-th file or folder is frozen under the last component of its path, in order |
| `CopiedNames.OneFileKeepsItsName` | core/src/clipboard.rs:833-889 | a single copied file is one entry, with its own name and size |
| `CopiedNames.LinkShowsItsFile` | core/src/clipboard.rs:973-999 | a link in a folder, however many links it goes through, shows the file it leads to and nothing else |
| `CopiedNames.SortSorts` | core/src/clipboard.rs:946-948 | a folder is walked in the order of its names |
| `Forests.SortFinds` | core/src/clipboard.rs:946-972 | sorting a directory changes its order only |
| `Forests.LeavesDescribe` | core/src/clipboard.rs:811-832 | the leaves of a folder determine what it holds at every path |
| `Forests.LeavesAreIndependent` | core/src/clipboard.rs:811-832 | no leaf is at or below another |
| `Forests.FreezeWritesForest` | core/src/clipboard.rs:833-889 | freezing appends one entry per leaf of the renamed forest, in order, numbered consecutively |
| `Forests.FreezeListsTheForest` | core/src/clipboard.rs:833-1026 | a frozen manifest is exactly the leaves of the forest, and every path of the forest can be read off it |
| `Forests.FileIdsAreDistinct` | core/src/clipboard.rs:903-932 | file identifiers name one entry each |
| `Forests.FrozenManifestIsAccepted` | core/src/clipboard.rs:1028-1063 | whatever the source freezes, the destination accepts as it is |
| `FileTree.AddNodeKeeps` | clipboard/src/files.rs:232-257 | creating a missing name in a folder keeps the whole tree invariant |
| `FileTree.WalkIsTheIndex` | clipboard/src/files.rs:289-294 | a walk by lookups finds exactly the indexed paths, at their inodes |
| `FileTree.EveryInodeIsReachable` | clipboard/src/files.rs:178-294 | every inode is reached from the root under its own path |
| `FileTree.AddEntryIff` | clipboard/src/files.rs:201-259 | an entry that is malformed or collides with a path or a file above it leaves the tree unchanged; any other adds its path and the folders above it and nothing else |
| `FileTree.AnyManifestBuildsATree` | clipboard/src/files.rs:183-294 | for any list: links agree and are acyclic, sibling names differ, files have no children, roots are the root's children in order, lookups find exactly the created paths, every inode is reachable |
| `FileTree.Create` | clipboard/src/files.rs:232-257 | the creating branch makes the inode, its link, its index entry and its root, and nothing else |
| `FileTree.Place` | clipboard/src/files.rs:206-258 | the component loop over the string-keyed index places an entry as the tree over component paths does |
| `FileTree.Build` | clipboard/src/files.rs:183-262 | the loop over all entries builds that tree |
| `TreeLaws.ComponentsAre` | clipboard/src/files.rs:201-204 | a path is its components, whatever number of separators stands between, before or behind them |
| `TreeLaws.EntryIsPlacedIff` | clipboard/src/files.rs:171-259 | an entry is placed, with what it says and the folders above it, if and only if its path is well formed, nothing stands there and no file stands above; otherwise the tree is untouched |
| `TreeLaws.NamesAreGood` | clipboard/src/files.rs:171-179 | no manifest makes a node called `.` or `..` or one with a separator, a colon or a NUL in its name |
| `TreeLaws.TreeGrows` | clipboard/src/files.rs:183-262 | more entries move no inode, change no node's kind, size or file and append to its children |
| `FolderRoundTrip.OneMoreLeaf` | clipboard/src/files.rs:201-259 | adding the next leaf's entry makes the tree hold exactly the leaves so far |
| `FolderRoundTrip.BuiltFromLeaves` | clipboard/src/files.rs:183-262 | the tree of a frozen list holds what its leaves say, at every path |
| `FolderRoundTrip.FolderRoundTrips` | core/src/clipboard.rs:833-1063 | every forest the source accepts is accepted by the destination, and the rebuilt tree shows at every path what the forest holds there: folders (empty ones too), files with their size and the id of their own entry, and nothing else |
| `Acceptance.WalkOkIff` | core/src/clipboard.rs:940-1026 | a folder's entries are walked without an error if and only if names, kinds and depth allow it, the enumerations and leaves stay within the cap and the paths are safe |
| `Acceptance.FreezeOkIff` | core/src/clipboard.rs:833-1026 | a forest is accepted if and only if its top names resolve, all walked names are UTF-8, nothing walked is unreadable or too deep, enumerations and leaves stay within the cap, and every component of a leaf's path is safe |
| `Acceptance.SourceRefusal` | core/src/clipboard.rs:833-889 | which error a source gets: unreadable, without a usable name, or neither file nor folder |
| `Acceptance.WalkRefusal` | core/src/clipboard.rs:940-972 | which error a walk ends with: depth first, then the number of entries |
| `ConsumerChannels.ConsumerChannel.constructor` | client/src/channel.rs:187-202 | a new channel has no request and nothing to drain |
| `ConsumerChannels.ConsumerChannel.Request` | client/src/channel.rs:243-257 | a call drains first if an answer was abandoned, and otherwise marks its own answer as outstanding before it writes |
| `ConsumerChannels.ConsumerChannel.WriteReturned` | client/src/channel.rs:258-261 | a failed write returns and leaves the mark set |
| `ConsumerChannels.ConsumerChannel.DrainToEof` | client/src/channel.rs:302-315 | the drain loop over what arrived stops behind the first final frame, or fails |
| `ConsumerChannels.ConsumerChannel.Collect` | client/src/channel.rs:268-298 | the collect loop over what arrived extends the buffer within the limit and returns at a final frame or a violation |
| `ConsumerChannels.ConsumerChannel.Cancel` | client/src/channel.rs:150-176 | dropping the future leaves the mark as it was |
| `ConsumerChannels.StepKeepsInv` | client/src/channel.rs:243-315 | every step of client, Core or wire, drops at any await included, keeps the wire aligned with the latest answer, but the return of an I/O error |
| `ConsumerChannels.ReturnsAreFaithful` | client/src/channel.rs:268-298 | a returned buffer is the whole of the call's own answer, and a request-scoped code its own too |
| `ConsumerChannels.KeptChannelLeaks` | client/src/channel.rs:261-265 | for every caller that keeps its channel on an I/O error, a run in which a call returns the bytes left of an earlier response as its own |
| `ConsumerChannels.IsolatedIffDropsOnIo` | clipboard/src/orchestrator.rs:640-658 | in every run, over all channels, returned bytes are the call's own and at most one response is outstanding, if and only if the caller drops its channel on I/O errors |
| `ConsumerChannels.CoreFetcherIsIsolated` | clipboard/src/orchestrator.rs:622-658 | the Core's fetcher is isolated in every run |
| `ConsumerChannels.IoReturnKeepsWire` | client/src/channel.rs:261-298 | where a call gives up on a response, the wire still holds exactly what is left of it |
| `ConsumerChannels.KeptIsIsolatedIff` | client/src/channel.rs:243-298 | a channel kept over such a return stays isolated in every run, up to the next one, if and only if nothing of its answer is left or to come |
| `ConsumerChannels.DrainRealigns` | client/src/channel.rs:300-315 | draining consumes an abandoned answer exactly, whatever it was |
| `ConsumerChannels.CollectReturnsIff` | client/src/channel.rs:268-298 | of an answer read up to its EOF or error, a call returns the bytes or that code if and only if every frame before it is data with a header and they fit the limit, and an I/O error otherwise |
| `ConsumerChannels.DropBeforeWriteWedges` | client/src/channel.rs:251-260 | a future dropped before its write leaves the channel marked with nothing outstanding |
| `ConsumerChannels.WedgedUntilTheCoreEnds` | client/src/channel.rs:251-260 | from there no call returns in any run, dropped and repeated or not, until the Core ends the connection |
| `ConsumerChannels.RealignsIff` | client/src/channel.rs:243-260 | a draining call on an open channel can get to its write, without the Core ending the connection, if and only if something of an answer is left or to come |
| `ConsumerChannels.DropResynchronizesIff` | client/src/channel.rs:243-260 | the call behind a dropped one resynchronizes if and only if the dropped future was past its write, or was draining with something left to drain |
| `ConsumerChannels.PollIsARun` | client/src/channel.rs:268-315 | the loops of the class are sequences of the receipt steps of the channel model |
| `ConsumerChannels.EndIsReported` | client/src/channel.rs:268-315 | the end of the connection and a failure to read are reported as such, wherever the call stands |
| `ConsumerChannels.CallStarts` | client/src/channel.rs:243-261 | a call drains exactly if an answer is owed; otherwise it writes at once, and collects if the write succeeds |
| `PeerChannels.PeerChannel.constructor` | client/src/channel.rs:607-632 | a new pipe is empty and not torn |
| `PeerChannels.PeerChannel.Send` | client/src/channel.rs:654-665 | refuses a frame above the cap or a torn pipe at once, and marks the pipe before writing |
| `PeerChannels.PeerChannel.WriteAll` | client/src/channel.rs:724-734 | partial writes append the next bytes of the encoded frame, as many as were granted, never more than the frame |
| `PeerChannels.PeerChannel.Completed` | client/src/channel.rs:666-668 | a completed send clears the mark and counts its frame |
| `PeerChannels.PeerChannel.Failed` | client/src/channel.rs:666-668 | an error return clears the mark too |
| `PeerChannels.PeerChannel.Drop` | client/src/channel.rs:638-653 | a dropped send leaves the mark and the bytes written so far |
| `PeerChannels.PeerChannel.RecvEnded` | client/src/channel.rs:683-689 | the end of the read side tears the write side |
| `PeerChannels.PeerReadLoop` | client/src/channel.rs:696-714 | the reader forwards the decoded frames and then whether it met a violation |
| `PeerChannels.EncodedReads` | client/src/channel.rs:724-774 | an encoded frame reads back with exactly the rest left over |
| `PeerChannels.CutStreamDecodes` | client/src/channel.rs:753-774 | a pipe cut anywhere decodes to the first frames of those sent, then the end, never a violation |
| `PeerChannels.WholeFramesDecode` | client/src/channel.rs:753-774 | whole frames are all decoded, whatever follows |
| `PeerChannels.StepKeepsSender` | client/src/channel.rs:654-689 | if socket or caller stops at an error, every step keeps: the pipe is the frames sent, then at most one partial frame, and nothing follows a partial frame |
| `PeerChannels.InvIsSound` | client/src/channel.rs:634-653 | such a pipe yields, from any cut, a prefix of the frames sent; of the whole, every completed frame and at most one more |
| `PeerChannels.ErrorReturnTears` | client/src/channel.rs:665-668 | a run in which a socket fails once and a foreign frame is decoded |
| `PeerChannels.SoundIff` | client/src/channel.rs:654-689 | the pipe is sound in every run if and only if a failed socket keeps failing or the caller stops at the error |
| `PeerChannels.SoundIffCallerStops` | client/src/channel.rs:654-669 | over sockets that may do anything, it is sound in every run if and only if the caller sends nothing after an error return of `send` |
| `PeerChannels.ChannelTaskIsSound` | input/src/orchestrator.rs:573-610 | the input engine's channel task, which ends at its first failed `send`, keeps its pipe sound in every run |
| `PeerChannels.RecoversSoundIff` | client/src/channel.rs:654-669 | behind an error return, every later run without a further error is sound, whatever the socket does, if and only if the failed write left no byte in the pipe |
| `PeerChannels.RunKeepsMark` | client/src/channel.rs:654-689 | over any run, an idle pipe is marked if and only if a send was dropped or the read side ended in it; a send that returns leaves no mark |
| `PeerChannels.RefusesIff` | client/src/channel.rs:654-669 | in every reachable idle state a frame within the cap is refused if and only if a send was dropped or the read side has ended, and is started otherwise |
| `PeerChannels.AnyListIsSent` | client/src/channel.rs:654-669 | any list of frames within the cap can be sent over one pipe, one after the other, to the last byte |
| `PeerChannels.AllDecode` | client/src/channel.rs:753-774 | the reader then decodes exactly that list and no violation |
| `PeerChannels.AboveCapFails` | client/src/channel.rs:753-774 | a header above the cap is a violation, whatever follows it |
| `BlobStreams.MessageReads` | core/src/datachannel.rs:618-650 | an encoded message reads back with exactly the rest left over |
| `BlobStreams.WriteChunks` | core/src/datachannel.rs:572-597 | the chunk loop writes every chunk under its own offset |
| `BlobStreams.WriteBlob` | core/src/datachannel.rs:572-582 | a blob is its chunks, then one end |
| `BlobStreams.WritePush` | core/src/clipnet.rs:322-380 | a push is its blobs one after the other, in format order |
| `BlobStreams.OffsetsCount` | core/src/datachannel.rs:572-597 | each chunk carries in front of it the number of the blob's bytes before it |
| `BlobStreams.ReadBlobLoop` | core/src/clipnet.rs:456-478 | the read loop ends on every stream, by the bytes still missing |
| `BlobStreams.DataReads` | core/src/clipnet.rs:456-478 | the data messages of any chunks leave exactly their bytes in the buffer, or overrun |
| `BlobStreams.BlobReadsIff` | core/src/clipnet.rs:456-478 | a streamed blob reads back exactly, to its last byte, if and only if its own length is expected |
| `BlobStreams.PushReadsBackIff` | core/src/clipnet.rs:422-451 | a push of any list of blobs reads back whole if and only if the total is within the cap |
| `BlobStreams.AnyStreamYieldsExpected` | core/src/clipnet.rs:456-478 | on arbitrary bytes, what is read as a blob was whole messages: DATA with at least one byte each, then one EOF, behind which the stream is left; its length is the announced one |
| `BlobStreams.BlobOfAnyStreamIff` | core/src/clipnet.rs:456-478 | and conversely: a blob is yielded if and only if the stream is such a transfer of it and its length was announced |
| `BlobStreams.AnyPushKeepsTheCap` | core/src/clipnet.rs:422-451 | on arbitrary bytes an accepted push is one transfer for each announced size, of that size, within the cap |
| `BlobStreams.PushOfAnyStreamIff` | core/src/clipnet.rs:422-451 | a push is accepted as given blobs if and only if it is a transfer of each of them, of the announced sizes, within the cap |
| `BlobStreams.ProviderPayload` | client/src/channel.rs:363-368 | the frames of a blob are well formed, unfinished and carry exactly its bytes |
| `BlobStreams.DataIsForwarded` | client/src/channel.rs:321-339 | the reader forwards the data messages of a response one for one |
| `BlobStreams.CollectedBlobIff` | client/src/channel.rs:268-298 | from bytes to result: a blob sent in any chunks is returned whole if and only if it is within the limit |
| `BlobStreams.CollectedErrorIff` | client/src/channel.rs:268-298 | a response that breaks off with an error, behind any part of a blob within the limit, gives the call exactly that error's code |
| `DibCodec.WriteHeader` | clipboard/src/windows.rs:1261-1289 | writes the 124-byte header |
| `DibCodec.AppendRow` | clipboard/src/windows.rs:1291-1299 | writes one row, each pixel read at its 32-bit index and in bounds |
| `DibCodec.AppendRows` | clipboard/src/windows.rs:1290-1302 | writes the rows bottom up |
| `DibCodec.RgbaToDibV5` | clipboard/src/windows.rs:1261-1302 | encodes any image whose buffer has its size, without leaving it |
| `DibCodec.LayoutIsSafe` | clipboard/src/windows.rs:1311-1382 | an accepted layout keeps every row inside the blob |
| `DibCodec.CopyPixel` | clipboard/src/windows.rs:1393-1406 | writes four bytes of the buffer from one pixel and leaves the rest |
| `DibCodec.UnpackRowInto` | clipboard/src/windows.rs:1391-1407 | the inner loop writes one row of the buffer and tracks whether all alpha is zero |
| `DibCodec.UnpackAll` | clipboard/src/windows.rs:1383-1408 | the row loop fills the buffer with the image rows, in either orientation |
| `DibCodec.MakeOpaque` | clipboard/src/windows.rs:1409-1413 | sets every alpha and nothing else |
| `DibCodec.DibToRgba` | clipboard/src/windows.rs:1311-1415 | decodes or refuses any byte string, no index leaving it |
| `DibRoundTrip.HeaderFields` | clipboard/src/windows.rs:1417-1427 | the fields of a written header read back |
| `DibRoundTrip.DecodesEncoded` | clipboard/src/windows.rs:1311-1415 | for every size, decoding an encoded image yields the pixels the encoder read, with up to 12 bytes inserted before the pixels or more than 12 behind them |
| `DibRoundTrip.RoundTrip` | clipboard/src/windows.rs:1261-1415 | width, height and pixels come back for every image within 2^32 bytes; an alpha of zero everywhere comes back opaque |
| `DibRoundTrip.WrapLosesPixels` | clipboard/src/windows.rs:1290-1302 | for every size above that, an image that does not come back |
| `DibRoundTrip.RoundTripsIffFits` | clipboard/src/windows.rs:1261-1415 | every image of a size comes back if and only if its byte count is at most 2^32 |
| `DibRoundTrip.EmptyImageIsRefused` | clipboard/src/windows.rs:1326-1334 | an image without pixels encodes but is refused |
| `DibRoundTrip.DecodedPixel` | clipboard/src/windows.rs:1383-1415 | pixel (x, y) of any accepted blob: which bytes of the blob it comes from, and when its alpha is real |
| `DibLayouts.NotAccepted` | clipboard/src/windows.rs:1311-1350 | which headers are refused: by size, dimensions, depth, compression and masks |
| `DibLayouts.AcceptedIff` | clipboard/src/windows.rs:1311-1382 | every other blob is read if and only if its rows fit behind the header, each row padded to four bytes, up to 12 bytes further where that puts them at the end of the blob |
| `DibLayouts.DecodedImage` | clipboard/src/windows.rs:1383-1415 | the image then has the header's size, and each pixel of it the colour the blob has there, opaque unless some alpha of the blob is not zero |
| `DibLayouts.HeaderRest` | clipboard/src/windows.rs:1261-1289 | the fields of a written header that no decoder here reads: planes, image size, alpha mask, colour space and zeros |
| `DibLayouts.SignedIs` | clipboard/src/windows.rs:1417-1427 | dimensions are read as signed 32-bit numbers, the least significant byte first |
| `RecoveryCode.TakeByte` | core/src/account_key.rs:659-671 | one byte into the 32-bit buffer, whole symbols out: no overflow, no bit lost |
| `RecoveryCode.Base32Encode` | core/src/account_key.rs:659-676 | the encoder spells the base-32 digits of the byte string as a number, zero-padded |
| `RecoveryCode.TakeSymbol` | core/src/account_key.rs:678-693 | one symbol in, at most one byte out: no overflow, no bit lost |
| `RecoveryCode.Base32Decode` | core/src/account_key.rs:678-698 | the decoder refuses foreign characters and non-zero spare bits, and yields the number's bytes |
| `RecoveryCode.DecodeInvertsEncode` | core/src/account_key.rs:659-698 | decoding inverts encoding for every byte string |
| `RecoveryCode.DecodesToIff` | core/src/account_key.rs:678-698 | a symbol string of the right length decodes to given bytes exactly when it is their encoding |
| `RecoveryCode.AcceptedIff` | core/src/account_key.rs:632-647 | a code is accepted for an entropy exactly when it spells that entropy's code up to case, aliases and separators, in 28 symbols |
| `RecoveryCode.CodeRoundTrip` | core/src/account_key.rs:626-647 | every entropy's code decodes to it, for any checksum function |
| `RecoveryCode.ChecksumErrorIff` | core/src/account_key.rs:632-647 | the checksum error marks exactly the codes that spell 17 bytes whose last is wrong |
| `RecoveryCode.RawOfGroup` | core/src/account_key.rs:650-657 | grouping changes nothing but separators |
| `RecoveryCode.CodeIsFourGroups` | core/src/account_key.rs:626-657 | a code is four groups of seven symbols with a dash between each two |
| `RecoveryCode.DecodeCharIff` | core/src/account_key.rs:700-710 | a character stands for a symbol in either case, I and L for one, O for zero, and no other does |
| `RecoveryCode.RawIsWithoutSeparators` | core/src/account_key.rs:632-636 | whitespace and dashes are dropped wherever they stand, and nothing else |
| `IncrTransfer.SenderDeliversPayload` | clipboard/src/x11.rs:1358-1405 | for every payload and chunk size: non-empty chunks within the size that make up the payload, then one empty chunk |
| `IncrTransfer.ReadIncrLoop` | clipboard/src/x11.rs:897-950 | the read loop yields the bytes before the empty chunk, or gives up over the cap or at a stall and rotates its property |
| `IncrTransfer.WholeTransferIff` | clipboard/src/x11.rs:897-950 | a whole transfer is read if and only if it fits the cap |
| `IncrTransfer.CutTransferIsAbandoned` | clipboard/src/x11.rs:921-944 | a transfer without its end is never answered |
| `IncrTransfer.NoPartialPaste` | clipboard/src/x11.rs:897-950 | sender against reader, with stalls and teardowns anywhere: a reader that answers has the whole payload |
| `IncrTransfer.UndisturbedTransferEnds` | clipboard/src/x11.rs:1358-1405 | undisturbed, the transfer ends within a bounded number of steps with the payload read and the session gone, if and only if it fits the cap |
| `IncrTransfer.ReadIncrIff` | clipboard/src/x11.rs:897-950 | a transfer declared above the cap is refused with its property kept; any other is read if it fits, and its property is rotated away if not |
| `SelectionAnswers.AnnouncedTransferIff` | clipboard/src/x11.rs:1647-1653 | our sender against our reader, the declared size included: the payload arrives if and only if it fits the cap; above it, the property is rotated exactly if the size was concealed |
| `Selection.Backend.constructor` | clipboard/src/x11.rs:343-383 | a new owner owns nothing and owes nothing |
| `Selection.Backend.Notify` | clipboard/src/x11.rs:1272-1289 | one answer is sent |
| `Selection.Backend.RefuseTaken` | clipboard/src/x11.rs:1266-1270 | a pending paste is refused and taken |
| `Selection.Backend.OnSelectionRequest` | clipboard/src/x11.rs:1081-1111 | each target is answered at once, deferred or refused, our own window first of all |
| `Selection.Backend.StartDeferredPaste` | clipboard/src/x11.rs:1183-1217 | an older pending paste is refused before the new one takes a fresh token |
| `Selection.Backend.Deliver` | clipboard/src/x11.rs:1219-1257 | a stale token changes nothing; a fitting payload is written, a larger one becomes a session, an oversized one a refusal |
| `Selection.Backend.PasteFailed` | clipboard/src/x11.rs:1259-1264 | only the pending token is refused |
| `Selection.Backend.StartIncrSendSession` | clipboard/src/x11.rs:1309-1352 | a session replaces one on its property, within the cap, and selects interest before the marker |
| `Selection.Backend.AdvanceIncrSend` | clipboard/src/x11.rs:1358-1405 | a deletion writes the next chunk or the terminator, or finishes; a failed flush finishes |
| `Selection.Backend.FinishIncrSendSession` | clipboard/src/x11.rs:1411-1423 | a session goes, and our interest with the window's last one |
| `Selection.Backend.CheckIncrTimeouts` | clipboard/src/x11.rs:1429-1440 | the expired sessions all finish |
| `Selection.Backend.TakeSelection` | clipboard/src/x11.rs:1587-1606 | owned or not by the server's answer; a flush that fails before the question leaves the mark as it was |
| `Selection.Backend.Offer` | clipboard/src/x11.rs:1480-1500 | a new offer refuses the pending paste, replaces what is advertised and takes the selection, whichever way that ends |
| `Selection.Backend.OfferFiles` | clipboard/src/x11.rs:1510-1565 | a file offer that is mounted takes the selection, whichever way that ends; one that cannot be mounted releases it |
| `Selection.Backend.DropOwnership` | clipboard/src/x11.rs:1612-1627 | nothing is advertised any more |
| `Selection.Backend.Release` | clipboard/src/x11.rs:1629-1635 | the pending paste is refused, the offer dropped, the sessions kept |
| `Selection.Backend.SelectionCleared` | clipboard/src/x11.rs:622-633 | losing the selection drops the offer and keeps sessions and pending paste |
| `SelectionAnswers.TargetsOfFormat` | clipboard/src/x11.rs:304-338 | a format is offered under exactly the targets it can be asked for by |
| `SelectionAnswers.OfferAdvertises` | clipboard/src/x11.rs:1480-1500 | an offer advertises exactly the targets of its formats, and the confidentiality hint exactly if it is sensitive |
| `SelectionAnswers.FilesOfferAdvertises` | clipboard/src/x11.rs:1510-1585 | the same for files, if they are mounted |
| `SelectionAnswers.TargetsAreListed` | clipboard/src/x11.rs:1140-1152 | asked for its targets, the owner lists exactly what is advertised and the two targets that always are |
| `SelectionAnswers.FilesAreAnswered` | clipboard/src/x11.rs:1118-1138 | files are answered by their URIs: KDE's for KDE, headed by the copy line for the two copied-files targets |
| `SelectionAnswers.DataIsDeferred` | clipboard/src/x11.rs:1081-1217 | text and images are deferred, typed UTF-8 for every text target and PNG for an image |
| `SelectionAnswers.ServedIff` | clipboard/src/x11.rs:1081-1111 | a request is served, at once or by a delivery, if and only if it is from another window, for one of the two targets that always are or for an advertised one that has an answer |
| `SelectionAnswers.OffersAreKept` | clipboard/src/x11.rs:1081-1111 | what an offer lists it serves, to every other window |
| `SelectionAnswers.NothingIsServed` | clipboard/src/x11.rs:1612-1635 | once released, or lost to another owner, nothing else is |
| `SelectionAnswers.DeliveredBySize` | clipboard/src/x11.rs:1219-1352 | a pending paste is written whole, made a session with the declared size or refused, by its size, the room in one request and the number of sessions |
| `SelectionAnswers.FailedFlushEnds` | clipboard/src/x11.rs:1393-1423 | a chunk that cannot be flushed ends its session, and our interest with the window's last one |
| `SelectionRuns.RequestKeepsInv` | clipboard/src/x11.rs:1081-1217 | a request keeps the ledger of requests, answers and tokens |
| `SelectionRuns.DeliveredKeepsInv` | clipboard/src/x11.rs:1219-1352 | a delivery keeps the ledger, the session cap and the interest |
| `SelectionRuns.DeletedKeepsInv` | clipboard/src/x11.rs:1358-1405 | a deletion keeps them |
| `SelectionRuns.FinishKeepsInv` | clipboard/src/x11.rs:1411-1423 | finishing a session drops our interest exactly with the window's last session |
| `SelectionRuns.NextKeepsInv` | clipboard/src/x11.rs:1081-1635 | every event keeps the whole accounting |
| `SelectionRuns.SelectionIsAccountedFor` | clipboard/src/x11.rs:1081-1635 | in every run: requests are answers plus the at most one pending paste, none is answered twice or elsewhere, at most eight sessions, interest set exactly on windows with a session |
| `SelectionRuns.EveryRunGoesOn` | clipboard/src/x11.rs:1358-1405 | no sequence of events reaches a state the handlers cannot handle |
| `SelectionRuns.DeliveryAnswersItsRequest` | clipboard/src/x11.rs:1219-1257 | a delivery answers the request that minted its token and no other, with exactly its bytes or a session carrying them |
| `SelectionRuns.DrivenToTheEnd` | clipboard/src/x11.rs:1358-1405 | one deletion per chunk and one for the terminator write all chunks in order to the requestor and end the session |
| `SelectionRuns.OthersLeaveASession` | clipboard/src/x11.rs:619-633 | offers, releases, losing the selection and other pastes leave a running session as it is |
| `Enrollment.Registry.constructor` | core/src/state.rs:909-923 | a new registry knows only the file token |
| `Enrollment.Registry.SayHello` | core/src/conn.rs:443-539 | the checks of a hello in their order: vocabulary, phase, token, role, scopes, exclusive role; a spawn token is consumed only on admission |
| `Enrollment.Registry.ApproverError` | core/src/conn.rs:1858-1873 | phase before scope |
| `Enrollment.Registry.RoleIsTaken` | core/src/state.rs:1010-1014 | whether an exclusive role has an active holder |
| `Enrollment.Registry.Approve` | core/src/conn.rs:1227-1282 | an approval enrolls and activates the requester, or refuses and changes nothing |
| `Enrollment.Registry.Deny` | core/src/conn.rs:1284-1300 | a denied request leaves the queue and its connection is closed |
| `Enrollment.Registry.Revoke` | core/src/conn.rs:1302-1331 | a component loses token and entry, its connections are closed; an unknown one is an error |
| `Enrollment.Registry.Connect` | core/src/state.rs:925-928 | connections are numbered upwards and start without rights |
| `Enrollment.Registry.Teardown` | core/src/conn.rs:1919-1933 | a connection takes its pending request along |
| `Enrollment.Registry.MintSpawnToken` | core/src/lib.rs:186-197 | a spawn token carries its grant |
| `Enrollment.Registry.RevokeSpawnToken` | core/src/lib.rs:203-210 | a spawn token is withdrawn |
| `EnrollmentRuns.StepKeepsInv` | core/src/conn.rs:443-1331 | every handler keeps: one holder per exclusive role, live queue, inverse token tables, entitlements, tokens apart |
| `EnrollmentRuns.RegistryIsConsistent` | core/src/conn.rs:443-1947 | in every interleaving: each exclusive role has at most one holder, every queued request belongs to a live connection pending on it, token index and enrolled table are inverse, no spawn token ever admits twice |
| `EnrollmentRuns.ApprovalScopeHasARoot` | core/src/conn.rs:1227-1282 | whoever may approve was let in by the file token or by a spawn grant that says so |
| `EnrollmentRuns.RevokedTokenStaysRefused` | core/src/conn.rs:1302-1331 | in every run behind a revocation the token is refused, unless it is drawn again, and every connection the component had is closing until it is gone |
| `EnrollmentRuns.ApprovedTokenIsGoodIff` | core/src/conn.rs:1227-1282 | in every run behind an approval, until the component is revoked, its token is good for exactly the requested role and the granted scopes |
| `EnrollmentRuns.ApprovedConnectionStaysActive` | core/src/conn.rs:1227-1282 | an approval activates the connection that asked and no other, within what it asked for, and in every later run it stays so until it is torn down |
| `Admission.HelloGrantedIff` | core/src/conn.rs:443-539 | a hello with a token is granted if and only if its role and scopes are known, its connection is fresh, no active one holds its exclusive role, and the token is the file token, or a spawn or enrolled one for that role and those scopes; it then holds exactly what it asked for and its spawn token is spent; a refusal changes nothing |
| `Admission.HelloRefusal` | core/src/conn.rs:443-539 | which refusal it is, in terms of the state |
| `Admission.HelloQueues` | core/src/conn.rs:443-539 | a fresh hello without a token queues a request for exactly what it asks for, and is given nothing |
| `Admission.FileTokenIsAlwaysGood` | core/src/conn.rs:491-492 | in every reachable state a fresh connection gets any known scopes and any free role by the file token |
| `Admission.SpawnTokenIsGoodIff` | core/src/conn.rs:493-511 | in every run behind its minting, until it is spent or withdrawn, a spawn token is good for exactly its role and scopes, and is then spent |
| `Admission.WithdrawnTokenStaysRefused` | core/src/lib.rs:199-210 | in every run behind its withdrawal a spawn token lets nobody in, unless it is drawn again; other grants stay |
| `Admission.ApproveIff` | core/src/conn.rs:1227-1282 | an approval goes through if and only if its caller may approve, the request is queued, it asks for all the granted scopes, the approval scope is not among them, and its role is free |
| `Admission.DenyIff` | core/src/conn.rs:1284-1300 | a denial likewise: who asked is closed, and nothing else changes |
| `Admission.RevokeIff` | core/src/conn.rs:1302-1331 | a revocation likewise: it closes exactly the component's connections |
| `Admission.ConnectionsComeAndGo` | core/src/conn.rs:1919-1933 | a new connection is a new number without rights; a torn down one takes its own request along and nothing else |
| `Admission.ConnectionsAreNumbered` | core/src/state.rs:925-928 | the n-th connection of any run is number n, whatever is torn down in between |
| `FillMonitor.FillCoordinator.LookUnderLock` | clipboard/src/macos.rs:757-779 | one look: the first caller fills, later ones wait, and return once done |
| `FillMonitor.FillCoordinator.PublishUnderLock` | clipboard/src/macos.rs:757-779 | the outcome is published |
| `FillMonitor.FillCoordinator.Incomplete` | clipboard/src/macos.rs:805-807 | true exactly for a published failure |
| `FillMonitor.StepKeepsFill` | clipboard/src/macos.rs:757-779 | every step keeps: one filler while in flight, and the outcome published is the fill's |
| `FillMonitor.StepKeepsSleep` | clipboard/src/macos.rs:757-779 | every step keeps: a sleeper waits for a fill in flight or for a notification about to be sent |
| `FillMonitor.FillRunsOnce` | clipboard/src/macos.rs:757-802 | for any threads and interleaving: the fill runs at most once, nobody returns before its outcome is published, no sleeper is left behind un-notified |
| `FillMonitor.NeverStuck` | clipboard/src/macos.rs:757-779 | while a caller has not returned, some thread can move without an idle wake |
| `FillMonitor.DoneIsFinal` | clipboard/src/macos.rs:757-779 | a published outcome never changes |
| `FillMonitor.RunsAreBounded` | clipboard/src/macos.rs:757-779 | without idle wakes every run is bounded, so every caller returns |
| `Text.DecodesIff` | core/src/framing.rs:80-84 | bytes are accepted as UTF-8, and mean a text, exactly when they are its encoding |
| `Framing.ReadHeader` | core/src/framing.rs:28-77 | on any bytes at most one byte above the header cap is consumed as header, and none that is not there |
| `Framing.ReadLine` | core/src/framing.rs:36-56 | one bounded line; the budget never underflows |
| `Framing.ReadHeaderLoop` | core/src/framing.rs:28-79 | the header loop ends on every stream with the length, the end or a refusal |
| `Framing.ReadOneFrame` | core/src/framing.rs:28-85 | one frame, a clean end, or a refusal |
| `Framing.HeaderMeans` | core/src/framing.rs:58-76 | a written header line means its length if it is within the cap, and is refused otherwise |
| `Framing.FrameReadsBackIff` | core/src/framing.rs:28-92 | an encoded frame reads back with exactly the rest left over, if and only if the text is within the cap |
| `Framing.FramesReadBack` | core/src/framing.rs:28-92 | any concatenation of frames decodes to its list and a clean end |
| `FrameHeaders.NamedLineMeans` | core/src/framing.rs:58-76 | what any header line means: its length if it is named content-length in any case and holds a number within the cap, nothing if it is named otherwise |
| `FrameHeaders.FrameWithHeaders` | core/src/framing.rs:28-85 | a frame is read behind any header lines within the cap, the last length counting, and refused if none gives one |
| `FrameHeaders.CleanEndIff` | core/src/framing.rs:36-45 | a stream ends cleanly if and only if nothing at all is left of it |
| `FrameHeaders.CutFrameIsRefused` | core/src/framing.rs:28-92 | an encoded frame cut short anywhere is refused |
| `FrameHeaders.CutStreamIsNotClean` | core/src/framing.rs:28-92 | a stream that stops inside a frame yields the frames before it, and no clean end |
| `UriLists.PercentEncodeLoop` | clipboard/src/files.rs:35-45 | the loop encodes byte by byte |
| `UriLists.PercentDecodeLoop` | clipboard/src/files.rs:50-70 | the loop decodes whole escapes and leaves everything else literal |
| `UriLists.DecodeInvertsEncode` | clipboard/src/files.rs:35-70 | decoding inverts encoding for every byte string |
| `UriLists.UriParsesIff` | clipboard/src/files.rs:74-98 | a path's URI parses back to it, with or without a carriage return, exactly when it is absolute and free of NULs |
| `UriLists.UriListBytes` | clipboard/src/files.rs:111-118 | the loop writes each URI with its line ending |
| `UriLists.CopiedFilesBytes` | clipboard/src/files.rs:124-131 | the loop writes the first line and the URIs below it |
| `UriLists.UriListReadsBack` | clipboard/src/files.rs:104-118 | parsing inverts the URI list |
| `UriLists.CopiedFilesReadBack` | clipboard/src/files.rs:104-131 | parsing inverts the copied-files list |
| `UriLists.ListsReadBackIff` | clipboard/src/files.rs:104-131 | through either format, a list of paths comes back if and only if all are absolute and free of NULs |
| `UriLists.EncodedByteIs` | clipboard/src/files.rs:35-45 | which bytes stay as they are, and how the others are written |
| `UriLists.CopiedFilesLines` | clipboard/src/files.rs:124-131 | a copied-files list is the copy line and then one URI a line, with nothing behind the last |
| `UriLists.UriListLines` | clipboard/src/files.rs:111-118 | a URI list is one URI a line, each line ended by both characters |
| `UriLists.AuthorityIsIgnored` | clipboard/src/files.rs:83-98 | whatever authority a URI names is passed over |
| `UriLists.OthersAreSkipped` | clipboard/src/files.rs:83-98 | comments, blank lines and other URIs name no path |

## Left out

- Sockets, the async runtime, QUIC, timeouts as real time: an await is a step, a timeout, stall or cancellation is an event.
- OS bindings (xcb, Win32, AppKit, FUSE, WebDAV): only the state and the arithmetic around them.
- Cryptography, keyring and directory synchronization: the checksum of a recovery code is any function of the entropy.
- JSON, base64, PNG and TIFF parsing: the model starts at parsed values; the code of an error frame is any function of its payload.
- Session counters and token counters are unbounded, where the source has 32 and 64 bits.
- Convergence.CurrentIsTheMaximum: claimed between resets only, because `clear_all` forgets the floor; local stamps are assumed below the u64 maximum before each copy.
- Names.UniqueRelIsNew: the random suffix behind 9999 taken names is an error here, because randomness is not modelled.
- Names.MakeUnique: the same, for the loop that looks for the suffix.
- Manifest.Walk.WalkDir: undecodable names sort behind the others, so of several faults in a directory another may be reported first.
- Manifest.FreezeManifest: the order in which the OS enumerates a directory does not show, because the source sorts; the identity and later re-checking of the backing files are not part of the model.
- `ClipboardState` lookups, records, size bounds and the parsing of formats and of materialized blobs: single-branch functions.
- ConsumerChannels.IsolatedIffDropsOnIo: the write of a request is atomic, and the capacity of the frame queue does not show.
- PeerChannels.SoundIff: the bounded queue between reader task and caller does not show.
- DibRoundTrip.RoundTripsIffFits: widths and heights from 2^31 on are not claimed, because the header's signed fields turn negative; `usize` has 64 bits.
- DibRoundTrip.DecodesEncoded: bytes both before and behind the pixels, or at most 12 behind them, are not claimed, because the decoder then anchors the pixels at the end of the blob.
- IncrTransfer.ReadIncrLoop: the rotation of scratch properties is a flag, and a stall is the end of the list of chunks.
- Selection.Backend.Notify: what the X server does with an answer, and flush failures other than a chunk's and the acquisition's, are not part of the model; eager reads of other owners' selections are left out up to the incremental loop.
- Enrollment.Registry.Deny: a queued close is a member of a set, where the source's message queue may be full; channel tokens, topics and notifications are left out.
- FillMonitor.RunsAreBounded: the fill itself is a step, so that it ends is an assumption.
- UriLists.ListsReadBackIff: starts at decoded text; the lossy decoding of bytes that are not UTF-8 is left out.
- `serve_local` and the local consumer channel repeat the session loop of `pipe_consumer` and are not modelled a second time.
