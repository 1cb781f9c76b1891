# linuxity: a verified model of its state machines

linuxity runs Linux programs on hosts that are not, or not quite, the Linux they expect. This
project models the parts of it that keep state in step with something else, and proves what
that state promises.

| file | what it models |
|---|---|
| `HostNames.dfy`, `PosixFs.dfy`, `AliasMap.dfy` | host paths, the POSIX file system a guest expects (several names may share a file), and the table that fakes shared names on a host whose `link(2)` is refused |
| `LinkTable.dfy`, `LinkDispatch.dfy` | the link table with its journal, and the dispatcher's `link`, `unlink`, `rename`, `renameat2` over it |
| `MetaRecords.dfy`, `MetaStore.dfy`, `MetaDispatch.dfy` | the shadow store of modes and owners, its journal, compaction, and `chmod`/`chown`/`mkfifo`/write-open over it |
| `Observations.dfy`, `TraceText.dfy`, `TraceFormat.dfy`, `TraceLoops.dfy` | observations, the text format of traces, its printer and parser |
| `Judge.dfy`, `Oracles.dfy` | the conformance laws, the comparison, and the live and recorded oracles |
| `Dirents.dfy`, `DirStream.dfy` | `linux_dirent64` records, and a virtual directory read by `getdents64` and sought by `lseek` |
| `Fifo.dfy` | FIFOs on a host that forbids them: waiting by retrying, held ends, deferred release |
| `Rebase.dfy`, `ReadCstr.dfy`, `FdStaging.dfy` | relative routes for over-long paths, page-bounded string reads, and descriptor placement for a spawned child |
| `Text.dfy`, `Basics.dfy` | shared text: searching, numbers, append-only files read back by `fgets`; and the types all parts use |

What the source does in place is a class with methods here; loops are loops. Each is proved
against a function or predicate, and the theorems are about those. Host calls are parameters:
every refusal a host may answer with is an input, so the theorems hold for all of them.

## Main results

- **The guest sees POSIX.** Over any run of `link`, `unlink`, `rename` and `RENAME_EXCHANGE`,
  with any host refusals on the way, the names the guest sees are those of a file system with
  real hard links, step by step (`LinkDispatch.Dispatcher.Serve`), up to the first call that
  breaks the table. Which calls do is known exactly (`LinkDispatch.Dispatcher.Handle`): removing
  a file's own name while the host refuses the move onto an heir, replacing such a file while
  the host refuses both the rename and its undoing, and an exchange that loses a name to the
  mark.
- **Round trips.** A trace printed and parsed is that trace if and only if its notes are trimmed
  single lines and its header lines stay comments; anything the parser accepts survives
  reprinting. Both journals, read back after any run over names that fit a line, give the table
  in memory, across restarts (`LinkTables.RestartKeepsTable`, `MetaStores.Restart`); the exact
  names that do not survive are named, and what a file cut in its last line gives.
- **Forgetting is invisible.** The metadata store drops records freely; against a store that
  keeps everything, no guest `stat` can tell, from the store or from its journal.
- **Recorded is live.** A golden is judged as the live run would be, for every guest and law.
- **Exactly once, in order** for directory entries, with the fault that loses some; **descriptor
  conservation and rendezvous** for FIFOs; **in order is at once** for spawned descriptors.

## Where the code is not what one would hope

Each is kept as the code has it, with a lemma that shows it and the exact condition.

- Unlinking a backing file promotes an heir before the host is asked to move the data, and does
  not undo it when the host refuses, although the comment at the call says the table changes
  only if the host call succeeds: `AliasMap.PromoteWithoutMoveBreaks`.
- A removal forgets the shadow record before the host is asked, so one that fails can change what
  `stat` shows: `MetaDispatch.Remove`, `MetaDispatch.FailedRemovalShows`. A rename does the same,
  also when it fails, is a no-op or an exchange, and leaves behind the records below a directory:
  `MetaDispatch.Rename`, `MetaDispatch.ExchangeLosesOwner`, `MetaDispatch.ContentsShowIff`.
- An exchange carries off an entry already under the mark's name, or parked inside the other
  subtree: `AliasMap.MarkMustBeFree`, `LinkDispatch.ExchangeExact`.
- A rename that fails after an heir took the destination's data does not look at whether the
  undoing was let through, and restores the table all the same: `LinkDispatch.LeftIsBroken`,
  `LinkDispatch.SomeCallsBreak`.
- A torn last line is not always skipped, nor is it always all that is lost, although comments at
  both journals say so: cut inside a name, it is read as another name's.
  `LinkJournal.TornJournal`, `MetaRecords.TornJournal`.
- A tab in an alias does not survive the link journal (`LinkJournal.AliasSurvivesIffTabFree`),
  nor a path ending in a carriage return the metadata journal (`MetaRecords.PathSurvivesIff`).
- A newline in a trace header can turn into a step: `TraceFormat.RoundTrip` says when,
  `TraceFormat.HeaderTurnsIntoStep` shows it.
- A filtered call that truly answers 2 hides a guest failure: `Judge.FailureExcusedIff`,
  `Judge.MarkerHidesFailure`.
- Scenario keys can collide, and then one golden overwrites another: `Oracles.KeyIsExact`,
  `Oracles.KeysCanCollide`.
- `getdents64` moves the cursor before the copy to the guest can fault:
  `DirStreams.FaultLosesAnEntry`.
- A route to the base directory itself is "." without asking whether the process is there:
  `Rebasing.RouteLeads`, `Rebasing.MovedCwdGoesAstray`.

## Model

| member | source | states |
|---|---|---|
| `HostNames.MovedKeepsTail` | include/linuxity/kernel/link_table.hpp:112-119 | a name at or below `from` keeps its tail at or below `to`, and every other name stays |
| `HostNames.MovedBack` | include/linuxity/kernel/link_table.hpp:112-119 | moving a name to another prefix and back is the identity |
| `PosixFs.Renamed` | include/linuxity/abi/syscall.hpp:3457-3535 | the reference `rename(2)`: nothing on two names of one file, else the subtree moves, the target's old name is gone and all other names keep their files |
| `PosixFs.RenameAllowedIff` | include/linuxity/abi/syscall.hpp:3457-3535 | the reference allows a rename if and only if the old name is there, the new one's parents are directories, it is not below the old, and what is at it is a file for a file or an empty directory for a directory |
| `PosixFs.RenameMoves` | include/linuxity/abi/syscall.hpp:3457-3535 | of a file or a directory: what was at or below the old name is at the same place below the new |
| `PosixFs.ExchangeMoves` | include/linuxity/abi/syscall.hpp:3526-3533 | any two names apart from each other can be exchanged, and everything at or below one is then at the same place below the other |
| `PosixFs.ExchangeTwice` | include/linuxity/abi/syscall.hpp:3526-3533 | exchanging the same two names twice gives the first file system back |
| `AliasMap.UntouchedRename` | include/linuxity/abi/syscall.hpp:3357-3366 | when neither name touches the table, renaming the prefix in it would change nothing, so skipping it is sound |
| `AliasMap.RenameKeepsNoChain` | include/linuxity/kernel/link_table.hpp:112-136 | no backing is itself an alias, before or after a prefix rename |
| `AliasMap.LandsFree` | include/linuxity/kernel/link_table.hpp:112-136 | onto a name nothing uses, whatever the order of the hash table there is one outcome |
| `AliasMap.LinkRefines` | include/linuxity/abi/syscall.hpp:3345-3356 | a placeholder and an entry show the guest a second name of the same file, and table and disk still belong together |
| `AliasMap.DropRefines` | include/linuxity/abi/syscall.hpp:3371-3387 | dropping an alias with its placeholder removes that one name from the guest's view |
| `AliasMap.PlainRefines` | include/linuxity/abi/syscall.hpp:2717-2728 | removing a name the table does not know removes that one name from the guest's view |
| `AliasMap.PromoteRefines` | include/linuxity/abi/syscall.hpp:3371-3387 | promoting an heir and moving the data onto it removes the backing's name only: the other names still reach the data |
| `AliasMap.PromoteWithoutMoveBreaks` | include/linuxity/abi/syscall.hpp:3371-3387 | the same promotion without the move always leaves the heir an empty placeholder in the guest's view |
| `AliasMap.UndoRestoresDisk` | include/linuxity/abi/syscall.hpp:3503-3520 | moving the data back and making the placeholder again restores the host's disk exactly |
| `AliasMap.UndoRestoresTable` | include/linuxity/abi/syscall.hpp:3484-3520 | renaming the heir back gives the alias map as it was but for the heir's own entry, which is then added again |
| `AliasMap.MoveRefines` | include/linuxity/abi/syscall.hpp:3484-3535 | a rename onto a free name, of an alias, a backing, a plain file or a directory holding any of them, is the POSIX rename in the guest's view |
| `AliasMap.OntoAliasRefines` | include/linuxity/abi/syscall.hpp:3484-3535 | so is one onto an alias, whose file lives on under its other names |
| `AliasMap.OntoPlainRefines` | include/linuxity/abi/syscall.hpp:3484-3535 | so is one onto a file with no other names |
| `AliasMap.OntoBackingRefines` | include/linuxity/abi/syscall.hpp:3484-3535 | so is one onto a backing, after its data moved onto an heir |
| `AliasMap.ExchangeRefines` | include/linuxity/abi/syscall.hpp:3526-3533 | swapping the two subtrees in table and disk exchanges them in the guest's view, also when one name is an alias of the other |
| `AliasMap.ExchangeBySteps` | include/linuxity/abi/syscall.hpp:3526-3533 | where the mark loses no name the three prefix renames are that swap, and no step brings two names together: also of a name with itself, with its own alias, or with one inside the mark |
| `AliasMap.SwapAliasesTwice` | include/linuxity/abi/syscall.hpp:3526-3533 | doing it twice is the identity on the table |
| `AliasMap.MarkMustBeFree` | include/linuxity/abi/syscall.hpp:3526-3533 | for any two names, apart or the same: the three renames, each onto whatever is there and with any winner where names clash, swap the subtrees if and only if no name of the table is under the mark, save inside the other subtree, or is parked there inside it |
| `AliasMap.ViewDetermines` | include/linuxity/abi/syscall.hpp:3526-3533 | with the same disk, two tables that show the guest the same are the same |
| `LinkJournal.ChangeReadsBack` | include/linuxity/kernel/link_table.hpp:164-192 | a journal line, read back into any state, makes the change it was written for |
| `LinkJournal.LinesAre` | include/linuxity/kernel/link_table.hpp:164-192 | `+`, tab, alias, tab, backing is an entry and `-`, tab, alias its removal, for every name a line can carry |
| `LinkJournal.OtherLinesAreSkipped` | include/linuxity/kernel/link_table.hpp:173-192 | a line that is too short, has no tab after its sign, another sign, or no second tab changes nothing |
| `LinkJournal.JournalRebuilds` | include/linuxity/kernel/link_table.hpp:164-192 | folding the text of any run of changes gives the map those changes amount to |
| `LinkJournal.AliasSurvivesIffTabFree` | include/linuxity/kernel/link_table.hpp:173-192 | of the names that fit a line, exactly the tab-free ones survive as aliases |
| `LinkJournal.TornJournal` | include/linuxity/kernel/link_table.hpp:162-192 | what a file cut anywhere in its last line gives, and exactly when that change alone is lost or made |
| `LinkJournal.TornAliasLeadsAstray` | include/linuxity/kernel/link_table.hpp:162-192 | cut inside a backing, the line gives the alias to another file, for every such line |
| `LinkTables.CountIsLinkCount` | include/linuxity/kernel/link_table.hpp:62-66 | one more than the listed aliases is the number of names that resolve to the backing |
| `LinkTables.LinkTable.Count` | include/linuxity/kernel/link_table.hpp:62-66 | `st_nlink` is the number of names that resolve to the backing |
| `LinkTables.LinkTable.Add` | include/linuxity/kernel/link_table.hpp:74-78 | for any alias and backing: the entry enters both maps and the journal, and inverse maps stay inverse if and only if the alias is new and the backing a name of its own |
| `LinkTables.LinkTable.Drop` | include/linuxity/kernel/link_table.hpp:81-87 | for any table: the entry leaves both maps and the journal, which stay in step; an unknown name changes nothing |
| `LinkTables.LinkTable.Promote` | include/linuxity/kernel/link_table.hpp:92-107 | for any table: the first name listed goes and the others lead to it, in both maps and the journal; with inverse maps that is the promotion of an heir, and they stay inverse |
| `LinkTables.LinkTable.RenamePrefix` | include/linuxity/kernel/link_table.hpp:112-136 | for any table and two names: what becomes of both maps and the journal, in some order of the entries; maps that were inverse stay so if and only if no alias lands on another name |
| `LinkTables.RewrittenLands` | include/linuxity/kernel/link_table.hpp:112-136 | erasing the affected entries and adding them rewritten is a rename, whoever wins, and keeps the maps inverse if and only if none clashes |
| `LinkTables.AddedIsSane` | include/linuxity/kernel/link_table.hpp:74-78 | an entry keeps inverse maps inverse if it is fresh, and nothing added makes broken ones inverse again |
| `LinkTables.RunKeeps` | include/linuxity/kernel/link_table.hpp:74-160 | over any run of calls no alias is ever missing from the list of its backing, and the maps are inverse up to the first call onto a name in use |
| `LinkTables.PromoteVacates` | include/linuxity/kernel/link_table.hpp:92-107 | after any run, a promotion leaves no alias behind at the name that is given up, unless that is itself the heir |
| `LinkTables.LinkTable.Run` | include/linuxity/kernel/link_table.hpp:74-136 | any run of add, drop, promote and prefix rename, on any table: each state follows from the last, and the journal can be read back if every line written fits the reader |
| `LinkTables.LinkTable.ReplayYieldsTable` | include/linuxity/kernel/link_table.hpp:164-192 | and its text then folds to the alias map in memory |
| `LinkTables.FitNamesSuffice` | include/linuxity/kernel/link_table.hpp:164-171 | between tables that hold only names without tab or newline, short enough two to a line, only such lines are written |
| `LinkTables.ErasedStaysInverse` | include/linuxity/kernel/link_table.hpp:154-160 | removing a name keeps the two maps exact inverses without duplicates or empty lists |
| `LinkTables.PromotedIsValid` | include/linuxity/kernel/link_table.hpp:92-107 | promotion keeps the two maps inverses and makes no chain |
| `LinkTables.OldestIsHeir` | include/linuxity/kernel/link_table.hpp:74-107 | of two aliases the one added first becomes the file, and the other leads to it |
| `LinkTables.LinkTable.Attach` | include/linuxity/kernel/link_table.hpp:173-204 | an entry is in the table after a start if and only if the journal folds to it and both its alias and its backing are on the disk; the journal is rewritten to just those |
| `LinkTables.Session` | include/linuxity/kernel/link_table.hpp:74-192 | a start from any text and any run: the text then in the file folds to the alias map in memory, where the lines fit |
| `LinkTables.RestartKeepsTable` | include/linuxity/kernel/link_table.hpp:164-204 | after a start from any text and any run over names that fit, an entry is in the table of the next start if and only if it was in the table and both its files are there; the whole table is kept if none is gone |
| `LinkDispatch.Dispatcher.Link` | include/linuxity/abi/syscall.hpp:3345-3356 | done just when the old name is a file, the new one is free, its parents are directories and the host does not refuse, else ENOENT, EPERM or the host's errno, each with its condition; the new name joins the inode, all else is as before |
| `LinkDispatch.Dispatcher.Unlink` | include/linuxity/abi/syscall.hpp:2717-2728 | exactly one name goes from the guest's view, save when a backing's data cannot be moved, and then how it is left |
| `LinkDispatch.Dispatcher.UnlinkWithLinks` | include/linuxity/abi/syscall.hpp:3371-3387 | the same for names the table knows, alias or backing |
| `LinkDispatch.Dispatcher.RenameUntouched` | include/linuxity/abi/syscall.hpp:3357-3366 | with the table not told, the host's rename is the guest's |
| `LinkDispatch.Dispatcher.RenameWithLinks` | include/linuxity/abi/syscall.hpp:3457-3535 | what succeeds is the POSIX rename or exchange in the guest's view if and only if no exchange loses a name to the mark; what fails leaves all as it was if and only if no data is stranded, and then what is left; ENOENT, EEXIST and ENOTDIR each with its condition |
| `LinkDispatch.Dispatcher.RenameOntoBacking` | include/linuxity/abi/syscall.hpp:3484-3520 | the same for a destination whose data other names share: promoted first, put back on failure, and what is on the disk whatever the host refuses |
| `LinkDispatch.Dispatcher.ExchangeWithLinks` | include/linuxity/abi/syscall.hpp:3526-3533 | the three prefix renames are the POSIX exchange if and only if the mark loses no name |
| `LinkDispatch.ExchangeExact` | include/linuxity/abi/syscall.hpp:3526-3533 | of all the tables the three renames can leave, one shows the guest the exchange, and it is left if and only if the mark loses no name |
| `LinkDispatch.LeftIsBroken` | include/linuxity/abi/syscall.hpp:3503-3520 | when the undoing of a failed rename is refused the table no longer fits the disk; with the data not moved back, no name of the file leads to it |
| `LinkDispatch.Dispatcher.Rename` | include/linuxity/abi/syscall.hpp:3357-3366 | whichever branch the guard takes, a rename that succeeds is POSIX's and one that fails changes nothing, each with its exact exception; a file or a directory that nothing stands against and the host does not refuse is moved with all below it, a no-replace onto a name in use fails, and two names apart are exchanged |
| `LinkDispatch.Dispatcher.Handle` | include/linuxity/abi/syscall.hpp:3345-3535 | one call answers as POSIX and moves the view as POSIX says, if and only if it is none of the three that break the table |
| `LinkDispatch.SomeCallsBreak` | include/linuxity/abi/syscall.hpp:3345-3535 | each of the three in one small directory |
| `LinkDispatch.Dispatcher.Serve` | include/linuxity/abi/syscall.hpp:3345-3535 | over any run of calls and host refusals every answer is POSIX's and every view follows from the last by the POSIX call, up to the first call that breaks the table; runs over plain names on a host that moves data when asked have none |
| `MetaRecords.ChangeReadsBack` | include/linuxity/kernel/meta_store.hpp:251-306 | a record or a tombstone line, scanned back into any table, is the change it was written for |
| `MetaRecords.SampleRecord` | include/linuxity/kernel/meta_store.hpp:251-258 | a record's line letter by letter: octal mode, owner, which fields count, path |
| `MetaRecords.SampleLinkCount` | include/linuxity/kernel/meta_store.hpp:251-258 | with a link count, that stands before the path |
| `MetaRecords.SampleTombstone` | include/linuxity/kernel/meta_store.hpp:260-269 | a removal's line letter by letter |
| `MetaRecords.BitOfEach` | include/linuxity/kernel/meta_store.hpp:67-67 | the bit each field has among those that count |
| `MetaRecords.PathSurvivesIff` | include/linuxity/kernel/meta_store.hpp:273-306 | of the paths that fit a line, exactly those not ending in a carriage return read back |
| `MetaRecords.FitIsLoggable` | include/linuxity/kernel/meta_store.hpp:251-269 | an absolute newline-free path of at most 8142 characters, not ending in a carriage return, fits a line with any record |
| `MetaRecords.TornJournal` | include/linuxity/kernel/meta_store.hpp:235-306 | what a file cut anywhere in its last line gives, and exactly when that change alone is lost or made |
| `MetaRecords.TornLineGoesAstray` | include/linuxity/kernel/meta_store.hpp:235-306 | cut inside its path, the line says the same of another path, for every such line |
| `MetaStores.SameStat` | include/linuxity/kernel/meta_store.hpp:224-233 | records that differ only in a mode the inode already carries give the same guest stat |
| `MetaStores.AgreeingOwners` | include/linuxity/kernel/meta_store.hpp:224-233 | stores in agreement show the same owners at every path, symlinks included |
| `MetaStores.RedundantIff` | include/linuxity/kernel/meta_store.hpp:181-187 | a record is dropped if and only if it holds no link count and no inode's stat would show it |
| `MetaStores.ModeAgrees` | include/linuxity/kernel/meta_store.hpp:130-144 | dropping a mode the host inode carries keeps the store in agreement with one that keeps everything |
| `MetaStores.ChmodKeeps` | include/linuxity/kernel/meta_store.hpp:130-144 | a mode is kept if and only if it is not known to be what the inode shows; where it is and there is no record, nothing changes or is written |
| `MetaStores.ChownKeeps` | include/linuxity/kernel/meta_store.hpp:154-165 | a chown to root of a path without a record changes and writes nothing |
| `MetaStores.OwnerAgrees` | include/linuxity/kernel/meta_store.hpp:154-165 | dropping root:root and no-change owners keeps that agreement |
| `MetaStores.RenameAgrees` | include/linuxity/kernel/meta_store.hpp:190-201 | moving a record, or clearing the target's, keeps that agreement |
| `MetaStores.CompactionAgrees` | include/linuxity/kernel/meta_store.hpp:77-111 | compaction on the inodes it looked at keeps that agreement on every path, the mode of symlinks apart |
| `MetaStores.CompactionIs` | include/linuxity/kernel/meta_store.hpp:77-111 | a mode goes if and only if its inode is a symlink or carries it; owner, link count and FIFO mark stay, and a record goes if and only if nothing is left in it |
| `MetaStores.CallAgrees` | include/linuxity/kernel/meta_store.hpp:130-209 | one call keeps the store, and the table its journal stands for, in agreement with the store that keeps everything |
| `MetaStores.ChangesGive` | include/linuxity/kernel/meta_store.hpp:130-209 | the lines a call appends amount to the call, and leave the same records even on a table that differs in trimmed modes |
| `MetaStores.TrimmedMirrors` | include/linuxity/kernel/meta_store.hpp:97-110 | after a compaction that trims modes and rewrites nothing, the old journal still shows what the store shows |
| `MetaStores.JournalRebuilds` | include/linuxity/kernel/meta_store.hpp:240-306 | text appended to a complete journal, folded with it, gives what the changes amount to on top |
| `MetaStores.MetaStore.SetMode` | include/linuxity/kernel/meta_store.hpp:130-144 | table and journal change together, and agree with the store that keeps everything |
| `MetaStores.MetaStore.SetOwner` | include/linuxity/kernel/meta_store.hpp:154-165 | the same for a chown, with its default dropped |
| `MetaStores.MetaStore.SetFifo` | include/linuxity/kernel/meta_store.hpp:169-173 | table and journal change together for the FIFO mark, and agree with the store that keeps everything; what a stat then shows is `MetaDispatch.FifoShows` |
| `MetaStores.MetaStore.Rename` | include/linuxity/kernel/meta_store.hpp:190-201 | the same for a rename: a tombstone and a record, or a tombstone for a stale target |
| `MetaStores.MetaStore.Forget` | include/linuxity/kernel/meta_store.hpp:206-209 | the same for an unlink |
| `MetaStores.MetaStore.Run` | include/linuxity/kernel/meta_store.hpp:130-209 | any run of the five calls over paths that fit keeps store, journal and the store that keeps everything in agreement, and the journal readable |
| `MetaStores.MetaStore.ReplayShows` | include/linuxity/kernel/meta_store.hpp:273-306 | at any moment the journal's text folds to what its changes amount to: the very table, unless a compaction only trimmed, and even then every owner is the same and every mode but a symlink's |
| `MetaStores.Restart` | include/linuxity/kernel/meta_store.hpp:77-111 | after any start and any run a second start, compacting or not, starts from the same table or, after trimming, shows the same stats and for symlinks the same owners, and leaves a journal fit for the next |
| `MetaStores.MetaStore.Compact` | include/linuxity/kernel/meta_store.hpp:77-111 | the loop trims exactly the modes the inodes carry and drops exactly the records left empty, and counts them |
| `MetaStores.MetaStore.Rewrite` | include/linuxity/kernel/meta_store.hpp:314-321 | the rewritten journal folds to the live table |
| `MetaStores.MetaStore.Attach` | include/linuxity/kernel/meta_store.hpp:77-111 | a start folds the journal, compacts only in the root process, and rewrites just when a record went or the journal is mostly dead; store and journal agree with what was found in every case |
| `MetaDispatch.ChmodShows` | include/linuxity/abi/syscall.hpp:4945-4957 | whatever the host kept of a chmod, a stat shows the asked-for bits, the file's own type and the owner from before, and no other path changes |
| `MetaDispatch.ChownShows` | include/linuxity/abi/syscall.hpp:2963-3016 | a chown shows the components it set and no other change, at no other path |
| `MetaDispatch.FifoShows` | include/linuxity/kernel/meta_store.hpp:169-173 | the mark shows a regular inode as a FIFO with the permissions and owner it had, leaves other types alone, and no other path changes |
| `MetaDispatch.Mkfifo` | include/linuxity/abi/syscall.hpp:4641-4642 | a made FIFO shows as one, with the mode asked for and the owner from before |
| `MetaDispatch.Chmod` | include/linuxity/abi/syscall.hpp:2856-2900 | a chmod fails only when the upper file is gone, and else shows exactly what was asked, applied, clamped, refused or widened by 0600; what becomes of the inode, and that no other path changes |
| `MetaDispatch.Remove` | include/linuxity/abi/syscall.hpp:2717-2718 | what is made at the path later starts from its inode alone; a removal the host refuses leaves the stat as it was if and only if the record said nothing the inode does not |
| `MetaDispatch.AlikeIff` | include/linuxity/kernel/meta_store.hpp:224-233 | two records give the same stat of an inode if and only if they agree on the four things a record can say of it |
| `MetaDispatch.Rename` | include/linuxity/abi/syscall.hpp:3317-3320 | the record moves before the host is asked: at `to` the stat is right unless the host left both names alone and their records differ, at `from` just when the record of the file still there was silent |
| `MetaDispatch.ExchangeLosesOwner` | include/linuxity/abi/syscall.hpp:3317-3320 | an exchange leaves the file now at `from` without its owner |
| `MetaDispatch.ContentsShowIff` | include/linuxity/abi/syscall.hpp:3317-3320 | below a renamed directory a stat is right if and only if the record already at the new path says the same |
| `MetaDispatch.FailedRemovalUnseenIff` | include/linuxity/abi/syscall.hpp:2717-2718 | a failed removal leaves the guest's stat as it was if and only if the record said nothing the inode does not |
| `MetaDispatch.FailedRemovalShows` | include/linuxity/abi/syscall.hpp:2717-2718 | and here is one that changes the owner |
| `MetaDispatch.GrantRootWrite` | include/linuxity/abi/syscall.hpp:4504-4515 | the write-open repair never changes what a stat shows; it is made if and only if the mode can be read, the file is regular, owned, lacks owner access and the host lets it, and the inode then has what the host left of 0600 added |
| `Observations.FromRaw` | include/linuxity/conform/observation.hpp:86-90 | a raw return is an errno just between -4095 and -1, and the raw value can be had back |
| `Observations.ErrnoNamesDistinct` | include/linuxity/conform/report.hpp:27-50 | no two numbers print the same errno name |
| `TraceText.IntRoundTrip` | include/linuxity/conform/trace_text.hpp:75-83 | every number printed is read back |
| `TraceText.HexRoundTrip` | include/linuxity/conform/trace_text.hpp:85-113 | every byte string printed in hex is read back |
| `TraceText.UpperHexReads` | include/linuxity/conform/trace_text.hpp:85-95 | so is one in capital digits |
| `TraceText.ReturnedRoundTrip` | include/linuxity/conform/trace_text.hpp:178-200 | every return value, named or numeric errno included, is read back |
| `TraceFormat.BuffersRoundTrip` | include/linuxity/conform/trace_text.hpp:103-113 | any list of written buffers, empty ones included, is read back |
| `TraceFormat.LineRoundTrip` | include/linuxity/conform/trace_text.hpp:115-125 | a step's line is one line, no comment, and reads back as the step |
| `TraceFormat.SampleValue` | include/linuxity/conform/trace_text.hpp:115-125 | a line letter by letter: the call, its value |
| `TraceFormat.SampleErrno` | include/linuxity/conform/trace_text.hpp:115-125 | a named errno and a note |
| `TraceFormat.SampleBuffer` | include/linuxity/conform/trace_text.hpp:103-125 | a value and a written buffer |
| `TraceFormat.SampleReturns` | include/linuxity/conform/report.hpp:52-62 | values, negative ones included, and an errno without a name |
| `TraceFormat.SampleHeader` | include/linuxity/conform/trace_text.hpp:129-140 | the header letter by letter |
| `TraceFormat.SampleHeaderLines` | include/linuxity/conform/trace_text.hpp:129-140 | and each of its optional lines |
| `TraceFormat.PaddedLineReads` | include/linuxity/conform/trace_text.hpp:202-218 | spaces and tabs around a line, and carriage returns at its end, do not change the step it says |
| `TraceFormat.LooseLineReads` | include/linuxity/conform/trace_text.hpp:224-236 | nor do any number of them beside the equals sign |
| `TraceFormat.NoEqualsIff` | include/linuxity/conform/trace_text.hpp:224-226 | a line without a note is refused for its missing value if and only if it has no equals sign |
| `TraceFormat.UnknownNameReads` | include/linuxity/conform/trace_text.hpp:228-231 | a name not in the table is given in the reason |
| `TraceFormat.BufferWithoutColon` | include/linuxity/conform/trace_text.hpp:241-247 | a buffer without a colon is refused for that |
| `TraceFormat.BufferRefused` | include/linuxity/conform/trace_text.hpp:248-264 | else for no number before the colon, or an odd number of digits, or a digit that is none, in that order |
| `TraceFormat.AcceptedIsClean` | include/linuxity/conform/trace_text.hpp:202-283 | whatever the parser accepts has trimmed one-line notes and known calls |
| `TraceFormat.FirstBadLine` | include/linuxity/conform/trace_text.hpp:202-283 | a text is refused if and only if one of its lines is bad, with the number and the reason of the first |
| `TraceFormat.LinesAreTheText` | include/linuxity/conform/trace_text.hpp:207-213 | those lines hold no newline and, with one behind each, are the text |
| `TraceFormat.RoundTrip` | include/linuxity/conform/trace_text.hpp:129-140 | print then parse gives the very trace if and only if notes are clean and the header stays comments |
| `TraceFormat.HeaderTurnsIntoStep` | include/linuxity/conform/trace_text.hpp:129-140 | a scenario name of two lines, the second any step's line, never comes back |
| `TraceFormat.ReprintStable` | include/linuxity/conform/trace_text.hpp:202-283 | any accepted text, reprinted and parsed, gives the same trace |
| `TraceFormat.OneLineHeadersAreInert` | include/linuxity/conform/trace_text.hpp:129-140 | newline-free header values always stay comments |
| `TraceLoops.TrimLoop` | include/linuxity/conform/trace_text.hpp:46-51 | what is left when pads are taken off both ends and no more can be |
| `TraceLoops.FindSysno` | include/linuxity/conform/trace_text.hpp:55-62 | the first call with that name and none before it, or no call has it |
| `TraceLoops.FindErrno` | include/linuxity/conform/trace_text.hpp:66-73 | the one number that goes by that name, or no number below 200 does |
| `TraceLoops.RenderLine` | include/linuxity/conform/trace_text.hpp:115-125 | the loop writes the line that reads back |
| `TraceLoops.RenderTrace` | include/linuxity/conform/trace_text.hpp:129-140 | the loop writes the text that reads back |
| `TraceLoops.ParseTrace` | include/linuxity/conform/trace_text.hpp:202-283 | the loop yields what `TraceFormat.FirstBadLine` and the round trips are about: the steps in order, or the first bad line's number and reason |
| `Judge.DefaultLawIs` | include/linuxity/conform/observation.hpp:461-478 | what the composed default law excuses, call by call |
| `Judge.FailureExcusedIff` | include/linuxity/conform/observation.hpp:407-445 | a guest failure after a reference success is excused if and only if the call can never agree, or it is filtered and the reference answered 2 |
| `Judge.ReferenceFailureExcusedIff` | include/linuxity/conform/observation.hpp:407-445 | a failure of the reference is excused if and only if the call can never agree, or it is filtered and failed with EPERM or EACCES, or the guest answered 2 |
| `Judge.AnswersAreCompared` | include/linuxity/conform/observation.hpp:318-326 | two answers are excused if and only if the call returns a descriptor or can never agree, or it is filtered and just one side answered 2 |
| `Judge.OtherCallsAreCompared` | include/linuxity/conform/observation.hpp:461-478 | two different calls are never excused |
| `Judge.PreviewIs` | include/linuxity/conform/report.hpp:73-82 | two digits and a space for each of the first bytes, and dots if there are more |
| `Judge.SampleBuffers` | include/linuxity/conform/report.hpp:64-86 | what a buffer is shown as, letter by letter |
| `Judge.JudgeLoop` | include/linuxity/conform/observation.hpp:492-534 | the loop returns the verdict the theorems below are about |
| `Judge.VerdictIsExact` | include/linuxity/conform/observation.hpp:492-534 | a match if and only if lengths and calls are the same and so are results and buffers wherever the law does not excuse; else the least differing index, the field that differs there, and both sides of it |
| `Judge.WeakerLawIsLater` | include/linuxity/conform/observation.hpp:492-534 | excusing more can only move a divergence later or remove it |
| `Judge.FailureIsReported` | include/linuxity/conform/observation.hpp:492-534 | an unexcused guest failure is reported, at its step or before |
| `Judge.MarkerHidesFailure` | include/linuxity/conform/observation.hpp:407-445 | the marker does hide one failure outside the universal exemptions |
| `Oracles.KeyLoop` | include/linuxity/conform/report.hpp:105-113 | the loop computes the key the lemmas below are about |
| `Oracles.KeyIsExact` | include/linuxity/conform/report.hpp:105-113 | for all scenarios: keys agree if and only if names and arguments fall into the same pieces between separators, slashes and dots read as dashes |
| `Oracles.PlainKeysDiffer` | include/linuxity/conform/report.hpp:105-113 | without the separator in names and arguments that is: the same name and the same arguments up to slashes, dots and dashes |
| `Oracles.KeysCanCollide` | include/linuxity/conform/report.hpp:105-113 | two differently named scenarios that share a key |
| `Oracles.GoldenIsExact` | include/linuxity/conform/oracles.hpp:69-83 | two goldens are one file if and only if ABI, platform and key are the same |
| `Oracles.SampleGolden` | include/linuxity/conform/oracles.hpp:69-83 | a golden's path letter by letter |
| `Oracles.SampleAndroidGolden` | include/linuxity/conform/oracles.hpp:69-83 | and one of the other platform and ABI |
| `Oracles.LiveIff` | include/linuxity/conform/oracles.hpp:163-184 | a live trace is had if and only if the probe ended in time with status 0 and its text parses, and is that text's |
| `Oracles.StaleReason` | include/linuxity/conform/oracles.hpp:256-281 | a recording is stale just when it is empty or lacks an expected call this ABI has |
| `Oracles.StaleBySets` | include/linuxity/conform/oracles.hpp:256-281 | a recording is fresh if and only if it is not empty and the expected calls this ABI has are among those it made |
| `Oracles.FindScenario` | include/linuxity/conform/oracles.hpp:156-161 | the first scenario of that name, or none when there is none |
| `Oracles.Goldens.Record` | include/linuxity/conform/oracles.hpp:129-153 | a trace is reported only from a probe that ended in time with status 0, as its text parses, and with its golden written; no other file changes, and a failed write is never a recording |
| `Oracles.Goldens.ReferenceFor` | include/linuxity/conform/oracles.hpp:209-235 | the recorded answer, or which of no recording, malformed and stale it is |
| `Oracles.RecordedIsLive` | include/linuxity/conform/oracles.hpp:209-235 | a golden yields the live trace if and only if the header stayed a comment and the trace is not stale |
| `Oracles.Goldens.RecordSession` | include/linuxity/conform/oracles.hpp:129-153 | over any session, with writes refused or torn on the way, each trace reported is the live one and its golden stands unless a later job took its key |
| `Oracles.RecordedJudgesAsLive` | include/linuxity/conform/oracles.hpp:209-281 | after any session, for a job no later one took the key of, the recorded oracle answers the live trace, and so every guest gets the live verdict under every law, unless the trace is stale and there is no reference |
| `Dirents.Reclen` | include/linuxity/abi/wire/dirent64.hpp:68-71 | room for header, name and NUL, a multiple of eight, never eight too much |
| `Dirents.LowByteFirst` | include/linuxity/abi/wire/dirent64.hpp:90-114 | a 16-bit field has its low byte first |
| `Dirents.EncodeDirent` | include/linuxity/abi/wire/dirent64.hpp:90-114 | the buffer's front becomes inode, cookie, length, type, name and zeroes, each at its offset, the rest is untouched; nothing when it does not fit |
| `Dirents.WalkReadsBack` | include/linuxity/abi/wire/dirent64.hpp:90-114 | a reader that steps by `d_reclen` finds the records that went in |
| `DirStreams.DirStream.Getdents` | include/linuxity/abi/syscall.hpp:3782-3829 | as many whole entries as fit, in order: a guest that walks what it got finds each entry's own name, inode, type and cookie; the cursor and its byte cookie stay in step; which of end, EINVAL and EFAULT otherwise |
| `DirStreams.RecordsList` | include/linuxity/abi/syscall.hpp:3782-3829 | the records of a stretch of entries have, in order, each entry's own name, its inode or else its place, its type as 4, 8 or 10, and the offset of the entry after it |
| `DirStreams.DirStream.Lseek` | include/linuxity/abi/syscall.hpp:400-420 | lands on the first record at or after the target, which is the offset or the cursor plus the offset, cookie and cursor in step; negative targets, sums that overflow 64 bits into them, and other whences are refused unmoved |
| `DirStreams.CookieLands` | include/linuxity/abi/syscall.hpp:400-420 | a seek to a cookie lands on the record it names and no other |
| `DirStreams.SeekResumes` | include/linuxity/abi/syscall.hpp:400-420 | every `d_off`, sought absolutely or by difference from anywhere, resumes at the following entry |
| `DirStreams.FillsOnce` | include/linuxity/abi/syscall.hpp:3782-3829 | where a batch ends is fixed by where it starts and its room |
| `DirStreams.SeenIs` | include/linuxity/abi/syscall.hpp:3782-3829 | over any run of buffer sizes the guest reads every entry once and in order if and only if no faulting call had moved the cursor; the missing ones are counted |
| `DirStreams.FaultLosesAnEntry` | include/linuxity/abi/syscall.hpp:3821-3828 | one faulting call and an entry is never seen |
| `DirStreams.ReachesEnd` | include/linuxity/abi/syscall.hpp:3782-3829 | a reader that always offers room for a record ends after at most one call per entry |
| `DirStreams.GuestReads` | include/linuxity/abi/syscall.hpp:3782-3829 | the guest's walk of a delivered buffer yields the entries' records: names, inodes, types and cookies |
| `DirStreams.ReadRun` | include/linuxity/abi/syscall.hpp:3782-3829 | over any run of calls on a stream the guest's walk of the buffers it got finds exactly what the run's account says it has seen |
| `Fifos.Broker.FifoOpen` | include/linuxity/abi/syscall.hpp:4646-4707 | one open takes the protocol's step; a reader that will not wait and an opener for both are always let in, and nothing is refused once the pipe is there; every supervisor descriptor stays accounted for and none leaks; other FIFOs are untouched |
| `Fifos.Broker.NoteOpened` | include/linuxity/abi/syscall.hpp:4795-4799 | each released end is closed once, while open, and nothing else is |
| `Fifos.Broker.Serve` | include/linuxity/abi/syscall.hpp:4646-4707 | any run of attempts, each open landing before the next, is a run of the protocol, and leaves every descriptor accounted for and none to release |
| `Fifos.AnswerIs` | include/linuxity/abi/syscall.hpp:4677-4707 | which of let in, retry and ENXIO every open gets, by its mode, the descriptors there, the held ends and who waits with patience |
| `Fifos.LeavesQueues` | include/linuxity/abi/syscall.hpp:4668-4707 | the waiters an open leaves: all others still patient with their times, itself only now; and exactly when an end is held |
| `Fifos.ReaderLetIn` | include/linuxity/abi/syscall.hpp:4681-4688 | a blocking reader waits just when no writer is there, was there or waits; let in, it has a writer, kept data or a held write end |
| `Fifos.WriterLetIn` | include/linuxity/abi/syscall.hpp:4689-4702 | when a writer waits, gets ENXIO or goes ahead, and that a read end then keeps what it writes |
| `Fifos.TakesOver` | include/linuxity/abi/syscall.hpp:4701-4706 | an admitted open takes over exactly the ends held for it and leaves both queues; any other takes nothing, and only a retrying one is queued |
| `Fifos.HeldEnds` | include/linuxity/abi/syscall.hpp:4646-4707 | over any run a write end is held only since a reader was let in and no writer since, a read end only since a non-blocking writer and no reader since |
| `Fifos.WaiterStays` | include/linuxity/abi/syscall.hpp:4668-4676 | a waiting writer keeps its place, whoever else opens, while it is within its patience |
| `Fifos.Rendezvous` | include/linuxity/abi/syscall.hpp:4646-4707 | a live writer that waits and a reader are both let in within three tries |
| `Fifos.RendezvousAtOnce` | include/linuxity/abi/syscall.hpp:4646-4707 | so are a waiting reader and a writer that will not wait, and a read end keeps what it sends until the reader takes that over |
| `Rebasing.CommonDirs` | include/linuxity/abi/syscall.hpp:4580-4582 | the loop finds the last slash of the longest common start |
| `Rebasing.UpsLoop` | include/linuxity/abi/syscall.hpp:4583-4585 | one `../` for each slash of the base that is left |
| `Rebasing.RelativeLeads` | include/linuxity/abi/syscall.hpp:4576-4591 | resolved component by component from the base, the route gives the wanted path: sibling, ancestor or descendant |
| `Rebasing.StemIsNotClimbed` | include/linuxity/abi/syscall.hpp:4576-4591 | directories in front of both paths do not change the route |
| `Rebasing.RebaseOnDirfd` | include/linuxity/abi/syscall.hpp:4547-4592 | exactly when a route is given, from the descriptor's directory for an `*at` call with one and from the cwd otherwise; that it is that route and shorter than 4096; and that from where the host really starts it misses the wanted path if and only if the base itself is wanted from a cwd that has moved |
| `Rebasing.RouteLeads` | include/linuxity/abi/syscall.hpp:4576-4591 | after the test of the cwd the route leads from the real start to the wanted path, save for "." from a moved cwd |
| `Rebasing.MovedCwdGoesAstray` | include/linuxity/abi/syscall.hpp:4577-4577 | and there it does fail, for every base that long |
| `GuestStrings.ByteWiseIs` | include/linuxity/abi/syscall.hpp:912-950 | the byte-at-a-time string is the longest there is: nonzero readable bytes up to the NUL, fault or cap |
| `GuestStrings.CopyIn` | include/linuxity/abi/syscall.hpp:912-950 | a read is all or nothing, and only ranges within a page can be asked for |
| `GuestStrings.ReadCstr` | include/linuxity/abi/syscall.hpp:912-950 | for every pattern of readable bytes, and across the top of the address space, the chunked read gives the byte-at-a-time string: the nonzero readable bytes up to the NUL or fault, and at most 4097 of them |
| `GuestStrings.OnlyTheStringMatters` | include/linuxity/abi/syscall.hpp:900-911 | memory past the byte that ends the string changes nothing |
| `FdStaging.Parent.Stage` | src/main_macos.cpp:389-412 | each source is copied to a new number above every target, 64 clear of them, and all open sources are when there is room |
| `FdStaging.Parent.CloseStaged` | src/main_macos.cpp:409-412 | closing the copies restores the parent's table |
| `FdStaging.InPlace` | src/main_macos.cpp:389-412 | after the first k actions, in order, the first k slots hold their files and nothing else changed |
| `FdStaging.ChildTable` | src/main_macos.cpp:389-424 | whatever the sources' numbers, the child has 0, 1, 2, source i's file at 3 + i, the pid table next, and no other descriptor |
| `FdStaging.StraightClobbers` | src/main_macos.cpp:375-384 | without staging, two crossed sources lose a file |

## Left out

- Path classification and the handlers' errno precedence before these operations: paths arrive classified; `classify` and live host answers are inputs.
- The trap back ends, hypervisors, Mach messages, cgroups, ELF loading and the command line: foreign calls.
- Syscall number tables, sessions and terminals, the vDSO clock, resource advertising: finite tables or easy by comparison.
- `fchmod`, `fchown` and the stat path of `scrub_ids` as separate operations: they use the same store calls as `chmod` and `chown`.
- Errno values of refused host calls: `HostErrno` stands for whatever the host said.
- Signal-safety, locking and the order of threads: each operation runs under the kernel's lock and is one step here.
- MetaRecords.ChangeReadsBack: numbers with a sign, which `sscanf` would take, are never written and are not modelled when read.
- MetaStores.JournalRebuilds: asks for a journal that ends with a newline; what a torn last line gives is `MetaRecords.TornJournal`, and that the next record appended joins it is not modelled.
- MetaStores.Restart: asks the same of the journal it first finds, and that all paths fit a line; `MetaRecords.PathSurvivesIff` says what becomes of one ending in a carriage return.
- Unavailable references: the cause is modelled, the detail text is not.
- Dirents.WalkReadsBack: asks that record length, inode and cookie fit their fields and that names hold no NUL, as host names do.
- DirStreams.DirStream.Lseek: the overflow of a 64-bit sum, undefined in C++, is taken to wrap.
- DirStreams.SeekResumes: asks for a directory of fewer than 2^63 bytes of records.
- DirStreams.GuestReads: asks of the entries what `Dirents.WalkReadsBack` asks of records.
- Oracles.RecordedJudgesAsLive: asks for a scenario and kernel name without a newline; `Oracles.RecordedIsLive` says exactly which headers do.
- The lazy building of a virtual directory's entries and the copying of streams on `dup` and fork.
- Fifos.Rendezvous: liveness is stated for the tries that happen; that a waiting task retries every 10 ms is the guest kernel's part.
- The making of the file that stands for a FIFO, and the counting of guest descriptors through `/proc`, whose answer is an input.
- Rebasing.RebaseOnDirfd: asks for normal absolute host paths; symbolic links below them are not modelled.
- FdStaging.ChildTable: a closed source at or above the floor could name a copy just made; nothing is said of its slot.
- The zygote path of fork and the Mach rendezvous.
