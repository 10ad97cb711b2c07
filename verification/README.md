# Models of aufs and ramzswap

Two systems are modelled here and proved correct as far as their code is: aufs, a union filesystem, and
ramzswap, a compressed swap store. `dafny verify dfyconfig.toml` checks everything.

## aufs

A union mount is an ordered sequence of branches. `UnionFs` models a branch as a map from inode numbers to
directories and a directory as a map from names to entries, with whiteouts as names of their own and the opaque
marker as a field; and it defines what the mount shows: what a lookup finds branch by branch (`Found`), where a
path leads (`Walk`), what it shows (`View`). The code is judged against that view.

- `Vdir`, `NHash`, `Listing`, `Readdir`, `Getdents`: reading a directory. The listing is packed into blocks of
  512 bytes; the branches are merged into it with hash lists of names and whiteouts; an open file reads a copy of
  it through a cursor and a position that can be set anywhere. Proved: the byte format can be read back, the merge
  is the union without what is hidden, and reading on in pieces loses and repeats nothing, from any position that
  was handed out.
- `Lookup`, `Agreement`, `TestEmpty`: looking a name up, with the exact value returned for every input; the
  agreement of lookup and readdir; the test for an empty directory.
- `LowerFs`, `CopyUp`, `Unlink`, `Rename`, `RenameView`, `RenameCheck`: the operations that change branches, step by
  step and with the way back after a failure. Every lower operation may fail, as a schedule says. Proved: what
  each leaves in the branches, and what that shows on every path, after success and after failure; and that a
  rollback of a copy-up or a rename is incomplete only if the lower filesystem fails twice, or in the one case stated
  below; the revert of an unlink is a finding of its own.
- `Xino`: the inode numbers in use, a bitmap file behind a cached page, as a plain set over any run of calls.
- `BranchIds`, `Refresh`, `RefreshFile`, `BranchTable`: adding and deleting branches, and bringing the tables that
  are indexed by branch up to date in place.
- `Robr`: how faulting threads hand a mapping's file on to the lower fault handler, over all interleavings.
- `CopyFile`, `Dcsub`: copying a file with holes; walking the dentry tree without a stack.

## ramzswap

`Ramzswap` models the table of slots, the allocator and the backing device, and proves that over any run of
requests they are an array of pages, that exactly the table's pages are allocated, and what the counters and the
memory limit say.

## How failures enter

Allocations and transfers that may fail are parameters or schedules (`faults`, `io`, `heap`, `oom`, `nomem`), over
which every result is proved. A contract that allows an error says when there is one: because the schedule holds a
failure, or because of a state the caller could see. Where an operation has to take something back and that may
fail too, a ghost result says so, and the contract says what it takes.

## Findings

What the code does not do as its design has it, each with the exact condition or a concrete input:

- A seek into the middle of an entry: `seek_vdir` does not adjust the position, and the call after the next may
  hand an entry out twice (`Readdir.OpenDir.ReadTwice`, `Readdir.MiddleSeekRepeats`).
- Lookup ignores the whiteouts of a branch that does not honour them and readdir does not: they disagree if and only
  if such a whiteout, and none that is honoured, lies above the topmost branch with the name
  (`Agreement.LookupAgreesWithReaddir`, `Agreement.FoundNotListed`).
- A lookup returns -EIO, on mounts that check for outside changes, for a name that readdir may list, if the first
  branch looked at has both the name and its whiteout (`Lookup.Dentry.Lkup`, `Agreement.Fresh`); such a branch can also
  pass for empty (`TestEmpty.IllFormedPasses`).
- A whiteout on a branch whose whiteouts are not honoured hides nothing: unlink and rename leave the name
  (`Unlink.RemovedIsGone`, `RenameView.SourceGone`).
- `au_wr_dir_need_wh` does not ask for a whiteout that a directory needs if its dentry knows of a whiteout further
  down and the next branch that has the parent lacks the name (`Unlink.NeedWhDir`, `Unlink.NeededButNotAsked`);
  the name is then still found after a rename (`RenameView.SourceGone`).
- The revert of an unlink is given one index for two jobs, the one from before the whiteout was made: it acts on the
  whiteout's directory if and only if that is the branch worked on, which it never is for a file found by a lookup; it
  then reads a lower directory at index -1 (`Unlink.DoRevert`, `Unlink.AufsUnlink`, `Unlink.LookedUp`,
  `Unlink.RevertGoesAstray`).
- A rename leaves a whiteout of the target that then covers it if the target's dentry started above the target
  branch (`RenameCheck.CoveredIff`, `RenameCheck.WhiteoutStays`).
- The rollback of a rename uses unlink for a directory it has copied up: if the marker or the removal of the whiteout
  fails after that the new directory stays (`Rename.DoRename`, `RenameCheck.DirectoryStays`).
- A failing second transfer in `xib_pindex` leaves a page cached under the wrong contents (`Xino.Xib.XibPindex`,
  `Xino.NumberLost`); a truncation whose first write fails with page 0 cached makes BUG() reachable (`Xino.Xib.Trunc`,
  `Xino.Xib.TruncThenBug`).
- An inode none of whose branches is left: `au_cpup_attr_all` reads the lower inode at index -1, and the bounds stay at
  -1 while the dentry's inodes are taken over (`Refresh.IInfo.RefreshSelf`, `Refresh.IInfo.RefreshWithDentry`,
  `Refresh.BoundsLeftBehind`). The busy test rules such an inode out as long as its indices are current, and two
  deletions in one remount make one (`Refresh.TestProtects`, `Refresh.TwoDeletions`).
- The hand-off of `vm_file` is safe if and only if the lower file is not itself an aufs file
  (`Robr.SafeIffNotNested`), and a failed allocation can leave all threads asleep (`Robr.WakerIffAllocates`).
- A file whose last block is zeros comes out one byte too long (`CopyFile.Copy.CopyFile`, `CopyFile.OneByteTooLong`).
- A copy that returns no error has lost part of a block if and only if a transfer failed for good
  (`CopyFile.Copy.CopyFile`, `CopyFile.WriteErrorLost`).
- ramzswap: the counters are a recount, and the exit loop frees what is live and leaves nothing, if and only if slot 0
  still holds a raw page (`Ramzswap.CountersAreRecount`, `Ramzswap.Rzs.Exit`); a write is forwarded, with a backing
  device, if more than the limit is stored or, the size counter having wrapped, less than a page
  (`Ramzswap.WrappedCounterStopsStoring`, `Ramzswap.Rzs.FullIff`, `Ramzswap.ForwardedThoughEmpty`).

## Model

| member | source | states |
|---|---|---|
| Vdir.PutRoundTrip | aufs/fs/aufs/vdir.c:383-386 | storing an entry's fields back to back at any offset and reading them there gives the entry, and touches no byte outside it |
| Vdir.HoldsAppend | aufs/fs/aufs/vdir.c:350-399 | an entry written where a block's entries end leaves all earlier ones readable, whatever bytes lie behind it |
| Vdir.Dir.AppendDe | aufs/fs/aufs/vdir.c:350-399 | on success the listing grows by exactly that entry, in the last block if there is room for it and in a new one otherwise, and stays well formed: every block ends in a terminator or a tail too short for one, and only the last may be empty; it fails only without memory |
| Vdir.Dir.AppendDeblk | aufs/fs/aufs/vdir.c:223-251 | a new block ends at once, the earlier ones are untouched, and no memory leaves everything as it was |
| Vdir.Dir.Reinit | aufs/fs/aufs/vdir.c:285-307 | all blocks but the first go and the listing is empty |
| Vdir.Dir.CopyVdir | aufs/fs/aufs/vdir.c:733-774 | the copy has the source's blocks exactly if there is memory for all of them, otherwise it is an empty listing |
| NHash.AddMember | aufs/fs/aufs/vdir.c:194-200 | adding to one of the 32 chains adds that name to the set the chains stand for and nothing else |
| NHash.TestKnown | aufs/fs/aufs/vdir.c:157-174 | searching one chain decides membership in the whole set |
| Listing.Filler.FillVdir | aufs/fs/aufs/vdir.c:483-536 | one entry of a branch's readdir is appended if and only if it is no whiteout and no branch above has the name or its whiteout; the hash lists stay in step; -EIO if and only if it is to be appended and has no number, -ENOMEM only when memory has run out |
| Listing.KnownIffHidden | aufs/fs/aufs/vdir.c:504-508 | a name or whiteout of a branch above is found on the hash lists even though names left out are never put there |
| Listing.Filler.ReadVdir | aufs/fs/aufs/vdir.c:592-663 | the packed listing is the merge of all branches, branch by branch in order; no entry to be listed lacks a number then; memory for two blocks per entry reported is enough |
| Listing.ListedIff | aufs/fs/aufs/vdir.c:500-528 | a name is listed if and only if some branch has it with no whiteout in a branch above |
| Listing.ListedFrom | aufs/fs/aufs/vdir.c:509-513 | every entry listed is an entry of the topmost branch that has its name |
| Listing.ListedOnce | aufs/fs/aufs/vdir.c:504-508 | if no branch lists a name twice the merged listing has each name once |
| Readdir.ListedFlat | aufs/fs/aufs/vdir.c:890-936 | the entries handed out, positions left aside, are the entries stored |
| Readdir.ListedAscend | aufs/fs/aufs/vdir.c:822-831 | positions grow strictly along the listing |
| Readdir.OpenDir.Seek | aufs/fs/aufs/vdir.c:834-888 | the cursor goes to the first entry at or after the position, stays if the position is its own, and the seek is refused exactly if no entry is left |
| Readdir.OpenDir.FillDe | aufs/fs/aufs/vdir.c:890-941 | from there as many entries go out as the caller takes; positions handed out are the entries' own if the call started at one |
| Readdir.OpenDir.ReadOn | aufs/fs/aufs/vdir.c:890-941 | over any number of calls with buffers of any size, from any position that was handed out, the chunks concatenate to the entries from there: none lost, none repeated |
| Readdir.OpenDir.Repeats | aufs/fs/aufs/vdir.c:846-881 | when the file position lags behind the cursor the next call resumes where the last one stopped if and only if the lag is less than the size of the last entry handed out; otherwise it starts at the first entry at or after the position |
| Readdir.OpenDir.ReadTwice | aufs/fs/aufs/vdir.c:834-941 | two calls in a row from any position: where the first starts follows from the position, whether it is handed out anything too; the second repeats entries if and only if the lag, a function of the position before the first call and of the entry that stopped at, is at least the size of the last entry handed out; and it hands out something if and only if entries are left or are repeated |
| Readdir.MiddleSeekRepeats | aufs/fs/aufs/vdir.c:866-881 | two calls on a file whose position lies inside an entry of a concrete listing hand out the same entry twice |
| Getdents.ReadDirectory | aufs/fs/aufs/vdir.c:592-941 | from the branches to the caller: what any number of calls with buffers of any size deliver is the merged listing from its start, as far as there is room, at growing positions; an error if an entry to be listed has no number, and memory for two blocks per entry reported rules out the other |
| UnionFs.Frame | aufs/fs/aufs/dentry.c:94-202 | a change to some names, whiteouts and directories of one branch does not show on any path that avoids them |
| UnionFs.ViewWalk | aufs/fs/aufs/dentry.c:209-316 | looking a path up name by name shows what its last name is found to be in the directory the rest leads to |
| UnionFs.ViewIs | aufs/fs/aufs/dentry.c:209-316 | a name shows the topmost entry found of it: a file's contents or a directory's attributes |
| UnionFs.DirsIff | aufs/fs/aufs/dentry.c:244-304 | a path goes on in every directory found of its first name, branch by branch |
| UnionFs.NotFoundAbsent | aufs/fs/aufs/dentry.c:107-113 | a name that is not found hides everything below it |
| Lookup.Dentry.DoLookup | aufs/fs/aufs/dentry.c:94-202 | what one branch contributes: a whiteout is recorded and hides, a type mismatch is passed over, a negative dentry is kept only where allowed, the marker is recorded for directories; it fails exactly if the branch does or the whiteout is a directory |
| Lookup.SeeIff | aufs/fs/aufs/dentry.c:125-166 | what one branch shows of a name: its whiteout if that is there and honoured, otherwise its entry, with the marker of a directory if that is honoured |
| Lookup.MergeIff | aufs/fs/aufs/dentry.c:244-304 | what a search finds in closed form: the first entry seen and, if that is a directory, every directory below it down to the first whiteout or marker; a file in between neither counts nor ends the search |
| Lookup.FoundIff | aufs/fs/aufs/dentry.c:244-304 | the same for the name in the branches of the union |
| Lookup.SearchIff | aufs/fs/aufs/dentry.c:209-316 | the same for what au_lkup_dentry finds in its branches, where markers count only for a directory's own dentry |
| Lookup.PositivesCount | aufs/fs/aufs/dentry.c:288 | the count is the number of branches something is found in |
| Lookup.WhNamedIff | aufs/fs/aufs/whout.h:123-130 | the names refused are those that start with the four characters of the prefix |
| Lookup.Dentry.Lkup | aufs/fs/aufs/dentry.c:209-316 | the value returned, for every input: the error if a whiteout-prefixed name is asked for; -EIO if and only if a branch fails that the search gets to, or the mount checks for outside changes and nothing is held because the first branch looked at has both the name and its whiteout, or none has the parent; otherwise the number of entries the merge rule finds, each held at its branch, the start branch being the first of them; the whiteout index ends at the whiteout the search met, the marker index at the last marked directory found, or where they were |
| Lookup.Dentry.UpdateDbstart | aufs/fs/aufs/dinfo.c:385-405 | negative dentries before the first positive one are let go and the start is that one |
| Lookup.SameShape | aufs/fs/aufs/dentry.c:258-304 | whether and where a lookup first finds something depends only on where entries and whiteouts are, not on markers |
| Agreement.LookupIff | aufs/fs/aufs/dentry.c:125-155 | on well-formed branches a lookup succeeds if and only if no honoured whiteout lies above the topmost branch with the name, and it starts there |
| Agreement.ReaddirIff | aufs/fs/aufs/vdir.c:500-512 | readdir lists the name if and only if no whiteout at all lies above that branch, and takes it from there |
| Agreement.LookupAgreesWithReaddir | aufs/fs/aufs/dentry.c:209-316 | lookup and readdir agree on a name if and only if every whiteout above its topmost branch comes with an honoured one; always when all branches honour whiteouts, and then on the branch too |
| Agreement.FoundNotListed | aufs/fs/aufs/vdir.c:500-512 | two concrete branches where a name is found and not listed |
| Agreement.FreshLookup | aufs/fs/aufs/dentry.c:280-304 | what a new dentry's lookup counts, markers not heeded, is positive if and only if the name is found in the union, at the same branch |
| Agreement.Fresh | aufs/fs/aufs/dentry.c:209-316 | the lookup of a name without a dentry: the count returned is positive if and only if readdir lists the name, unless whiteouts that are not honoured part the two, and the start branch is the one the listing took its entry from; it is negative if and only if nothing would be held |
| TestEmpty.Arg.Callback | aufs/fs/aufs/dir.c:344-379 | an entry stops the test if and only if it is no dot entry, no whiteout and not whited out by anything read before |
| TestEmpty.DotIff | aufs/fs/aufs/dir.c:356-358 | the names passed over are . and .. and no other |
| TestEmpty.Arg.TestEmpty | aufs/fs/aufs/dir.c:519-547 | success if and only if every entry of every branch is harmless in that sense, which it is where the branches list nothing but . and .. |
| TestEmpty.Arg.TestEmptyLower | aufs/fs/aufs/dir.c:468-517 | the same for the lower branches, the topmost one giving only its whiteouts |
| TestEmpty.EmptyIffOnlyDots | aufs/fs/aufs/dir.c:344-379 | on well-formed branches the test with its one shared list succeeds if and only if the merged listing holds nothing but . and .. |
| TestEmpty.LowerEmptyShowsTop | aufs/fs/aufs/dir.c:468-517 | then the union shows exactly what the topmost branch has |
| TestEmpty.IllFormedPasses | aufs/fs/aufs/dir.c:359-375 | a concrete branch holding a name behind its own whiteout passes for empty although readdir shows the name |
| CopyUp.CpupSingle | aufs/fs/aufs/cpup.c:556-632 | a directory is made with the donor's attributes or not at all, unless the lower filesystem fails twice; it fails only if the name or the inode number is taken or the lower filesystem fails |
| CopyUp.CopyInvisible | aufs/fs/aufs/cpup.c:698-730 | copying a directory up to a branch where its name is free changes what no path shows |
| CopyUp.WalkAfter | aufs/fs/aufs/cpup.c:593-601 | afterwards every path leads to the same directories, the copied one now also on the target branch |
| CopyUp.Ancestors.FindTop | aufs/fs/aufs/cpup.c:1045-1053 | the walk towards the root stops at the missing directory whose parent is there, and all above it is there |
| CopyUp.Ancestors.CpDirs | aufs/fs/aufs/cpup.c:1014-1087 | it terminates; only missing ancestors are copied, strictly from the top down; on success all are there; the view of every path is unchanged also when it fails half way, unless the lower filesystem fails twice; and it fails only if that fails or a file is in the way |
| Unlink.CountedIffExposed | aufs/fs/aufs/i_op_del.c:58-70 | what au_wr_dir_need_wh counts below a file is positive if and only if the name would show after its removal |
| Unlink.NeedWh | aufs/fs/aufs/i_op_del.c:32-97 | the branch worked on, that a whiteout is needed if and only if it is not the file's own branch or a lower branch would expose the name, and exactly when it fails |
| Unlink.NeedWhDir | aufs/fs/aufs/i_op_del.c:32-97 | for a directory on its own branch: a whiteout is asked for if and only if a lower branch would expose the name and either the dentry knows of no whiteout further down or the next branch that has the parent has a directory of the name |
| Unlink.MergedIsFound | aufs/fs/aufs/dentry.c:244-304 | the directories a dentry is taken to hold are those a fresh lookup finds |
| Unlink.NeededButNotAsked | aufs/fs/aufs/i_op_del.c:67-87 | four concrete branches where taking a directory away would show another one and no whiteout is asked for |
| Unlink.WhCreate | aufs/fs/aufs/whout.c:905-932 | the whiteout is there afterwards and recorded, one that exists is taken as it is, a failure changes nothing |
| Unlink.DoRevert | aufs/fs/aufs/i_op_del.c:322-339 | the whiteout is unlinked through its own directory if and only if the index from before is the branch it is on; then it is gone and the index back, or nothing changed |
| Unlink.AufsUnlink | aufs/fs/aufs/i_op_del.c:343-437 | on success exactly the file and the whiteout have changed; on failure the branches are as before, unless the revert is reached, which goes astray if and only if the whiteout was made on the file's own branch and the unlink after it is the first operation to fail; and which failures there are |
| Unlink.RemovedTakesOut | aufs/fs/aufs/i_op_del.c:381-394 | the branches after a removal key by key: on the file's own branch the file is gone, the whiteout is there if it was or one was needed, nothing else has changed anywhere |
| Unlink.StaysWellFormed | aufs/fs/aufs/i_op_del.c:381-394 | branches that hold no name together with its whiteout stay so |
| Unlink.LookedUp | aufs/fs/aufs/dentry.c:277-302 | a dentry fresh from the lookup of a file knows of no whiteout, so its revert always goes astray |
| Unlink.RevertGoesAstray | aufs/fs/aufs/i_op_del.c:367-425 | two concrete branches and one failing operation with which the revert is handed the lower directory at index -1 |
| Unlink.RemovedIsGone | aufs/fs/aufs/i_op_del.c:175-242 | after success the name is still found if and only if a whiteout was needed and its branch's whiteouts are not honoured |
| Unlink.RemovedAbsent | aufs/fs/aufs/i_op_del.c:343-437 | otherwise no path through the name shows anything |
| Unlink.RemovedKeepsOthers | aufs/fs/aufs/i_op_del.c:343-437 | every path that does not take that name from that directory shows what it showed |
| Rename.DoRename | aufs/fs/aufs/i_op_ren.c:287-461 | every step done, what was put aside being left if and only if deleting it failed; or the branches as before with at most the source copied up; it fails only if the lower filesystem does or a step is bound to, and the rollback is incomplete only if that fails twice or, if and only if the first failure comes after it was made, a copied up directory that gets the marker stays; in any case nothing but the names involved has changed |
| Rename.OutDiropq | aufs/fs/aufs/i_op_ren.c:423-436 | the chain of reverts from the last step leads back to the start if all of them work, which cannot be when a directory had been made |
| Rename.RevMove | aufs/fs/aufs/i_op_ren.c:99-140 | the move is undone where it overwrote nothing; a copied up directory is never, as it is unlinked |
| Rename.RevAside | aufs/fs/aufs/i_op_ren.c:143-179 | the target directory is back under its name if that was free |
| Rename.RevWhsrc | aufs/fs/aufs/i_op_ren.c:181-190 | the source's whiteout is gone again, a copied up source staying |
| Rename.RenOrCpup | aufs/fs/aufs/i_op_ren.c:195-238 | the source ends up under the target's name by a move on its own branch or by a copy from a lower one |
| RenameView.AtTheEnd | aufs/fs/aufs/i_op_ren.c:287-421 | what the target branch holds at the end, name by name |
| RenameView.DirAtTheEnd | aufs/fs/aufs/i_op_ren.c:374-395 | the directory under the target's name is the source's or an empty one like it; it is marked if and only if the source's was, the target had a whiteout that goes or was marked itself, branches below belong to the target's dentry, or the mount asks for it |
| RenameView.SourceGone | aufs/fs/aufs/i_op_ren.c:315-322 | the source is still found if and only if it needed a whiteout and was given none that is honoured |
| RenameView.TargetFound | aufs/fs/aufs/i_op_ren.c:324-334 | the target is found, on the target branch first, if and only if no honoured whiteout of it was left there |
| RenameView.TargetAlone | aufs/fs/aufs/i_op_ren.c:374-395 | a renamed directory stands alone under the target's name: it is marked, or nothing lower is found |
| RenameView.TargetBelow | aufs/fs/aufs/i_op_ren.c:374-395 | every path into the target directory shows what the same path into the source showed |
| RenameView.RenameShows | aufs/fs/aufs/i_op_ren.c:287-461 | after success every path through the target shows what it showed through the source, and the source nothing, unless such a whiteout covers the target |
| RenameView.OthersSame | aufs/fs/aufs/i_op_ren.c:287-461 | whatever happened, a path that avoids the names and the directory involved shows what it showed |
| RenameView.CopiedView | aufs/fs/aufs/i_op_ren.c:361-372 | a rolled back rename that leaves the source copied up changes what no path shows |
| RenameCheck.WantedIsOpen | aufs/fs/aufs/i_op_ren.c:519-537 | a target branch wanted by aufs_rename that au_wbr lets pass has neither the target nor a whiteout of it above |
| RenameCheck.CoveredIff | aufs/fs/aufs/i_op_ren.c:1066-1072 | after the rename the target is found if and only if its dentry started at the target branch or that branch had no honoured whiteout of it |
| RenameCheck.WhiteoutStays | aufs/fs/aufs/i_op_ren.c:1066-1072 | a concrete pair of branches where that happens |
| RenameCheck.DirectoryStays | aufs/fs/aufs/i_op_ren.c:127-140 | two concrete branches and one failing operation after which a rename that failed shows the target |
| RenameCheck.MayRenameSrcdir | aufs/fs/aufs/i_op_ren.c:483-515 | success if and only if the branches below the target branch hold nothing that is not whited out, or none does if the source is elsewhere |
| RenameCheck.SrcdirMayMove | aufs/fs/aufs/i_op_ren.c:473-482 | then lower branches add nothing to the source directory, where all whiteouts are honoured |
| Xino.CalcRoundTripBack | aufs/fs/aufs/xino.c:291-306 | a number's page and bit give the number back |
| Xino.MovePage | aufs/fs/aufs/xino.c:308-352 | writing the cached page out and caching another leaves the set of numbers alone |
| Xino.SpoiledPage | aufs/fs/aufs/xino.c:329-345 | a page cached under the wrong contents changes the set if and only if the contents differ |
| Xino.Xib.XibPindex | aufs/fs/aufs/xino.c:308-352 | on success the page is cached and the set unchanged; it fails if and only if one of two transfers does; the set is unchanged unless it was the second, which can spoil the cached page only |
| Xino.NumberLost | aufs/fs/aufs/xino.c:329-345 | a concrete bitmap from which a failing transfer drops a number that is in use |
| Xino.Xib.FindFree | aufs/fs/aufs/xino.c:394-441 | the clear bit hinted at, otherwise the lowest of the cached page, otherwise the lowest of the first other page that has one, or an I/O error; the BUG() is reached if and only if page 0 is cached and full and the file is empty |
| Xino.Xib.NewIno | aufs/fs/aufs/xino.c:394-451 | the number was free and is the only one added; without I/O errors and BUG() there always is one; the state BUG() needs is not entered |
| Xino.Xib.Write0 | aufs/fs/aufs/xino.c:358-392 | a nonzero number is the only one removed, zero removes none |
| Xino.IsSbShared | aufs/fs/aufs/xino.c:558-571 | the first other branch up to the end given that is on the same filesystem, or none |
| Xino.Xib.RestoreBranch | aufs/fs/aufs/xino.c:806-812 | a branch whose filesystem came up before is not read at all; any other has its table's numbers added |
| Xino.Xib.Restore | aufs/fs/aufs/xino.c:744-818 | exactly the numbers recorded in the branches' tables are added though each shared table is read once |
| Xino.Xib.Trunc | aufs/fs/aufs/xino.c:820-892 | after the truncating path the set is exactly the recorded numbers, whatever page had been cached; a bitmap of one page is left alone; and exactly when it leaves an empty file with page 0 cached |
| Xino.Xib.Run | aufs/fs/aufs/xino.c:308-451 | over any run of allocations, removals, records and truncations the bitmap is the plain set it stands for while none fails, without I/O errors none fails, and BUG() is not reached unless a truncation had failed |
| Xino.Xib.TruncThenBug | aufs/fs/aufs/xino.c:836-870 | after a truncation whose first write failed while page 0 was cached, one page of numbers later BUG() is reached |
| BranchIds.BrIndex | aufs/fs/aufs/branch.c:81-92 | the index of the branch with that id, or -1 exactly if there is none |
| Refresh.SwapStep | aufs/fs/aufs/inode.c:54-82 | putting a misplaced slot into its place keeps the contents and leaves fewer misplaced ones |
| Refresh.ReleaseStep | aufs/fs/aufs/inode.c:60-69 | so does releasing an entry whose branch is gone, which is recorded once |
| Refresh.IInfo.RefreshSelf | aufs/fs/aufs/inode.c:27-97 | it terminates; entries whose branch exists are at its index, once each, all others are released once, and the bounds are tight; a lower inode at index -1 is read afterwards if and only if no entry's branch exists |
| Refresh.SurvivorHasOnePlace | aufs/fs/aufs/inode.c:54-82 | in a table as the loop leaves it a surviving entry is found at its branch's index and nowhere else |
| Refresh.SurvivesOrReleased | aufs/fs/aufs/inode.c:54-82 | each used entry either survives or was released, never both |
| Refresh.IInfo.UpdateBrange | aufs/fs/aufs/iinfo.c:158-195 | the bounds become tight, unless the lower one was negative, which changes nothing |
| Refresh.IInfo.RefreshWithDentry | aufs/fs/aufs/inode.c:99-164 | the dentry's lower inodes are taken over up to the first conflict; the bounds are tight if and only if some entry's branch still existed or the dentry brings no inode |
| Refresh.BoundsLeftBehind | aufs/fs/aufs/inode.c:99-164 | a concrete inode whose bounds miss the slot it was given |
| Refresh.TestProtects | aufs/fs/aufs/branch.c:689-736 | where every lower inode is at its branch's index, a deletion the busy test lets pass leaves the inode one; for a directory the test fails if and only if none would be left |
| Refresh.TwoDeletions | aufs/fs/aufs/branch.c:707-731 | two deletions in one remount, both passing the test, that leave a file without a lower inode, so that its refresh reads at index -1 |
| RefreshFile.FInfo.RefreshFile | aufs/fs/aufs/file.c:530-644 | the same settling for open files; those outside the new bounds are closed once each, and the bounds are where trimming must stop |
| BranchTable.FreeIdExists | aufs/fs/aufs/sbinfo.c:209-223 | fewer branches than nonzero ids leave an id free |
| BranchTable.StepsCount | aufs/fs/aufs/sbinfo.c:209-223 | the ids tried count up from the last one and go on from the lowest after the highest |
| BranchTable.SbInfo.NewBrId | aufs/fs/aufs/sbinfo.c:209-223 | the first free nonzero id after the last one, also when the counter wraps; the search terminates |
| BranchTable.SbInfo.AddBranch | aufs/fs/aufs/branch.c:517-610 | the branch is inserted at its place in all three arrays with a free id, or nothing changes; which state gives which error |
| BranchTable.SbInfo.DeleteBranch | aufs/fs/aufs/branch.c:762-861 | the branch is removed from all three arrays, which takes one that is not the last one, not in use and not busy, or nothing changes |
| BranchTable.InsertAligned | aufs/fs/aufs/branch.c:552-585 | shifting up and inserting keeps the arrays aligned and is an insertion into the list |
| BranchTable.RemoveAligned | aufs/fs/aufs/branch.c:816-850 | shifting down keeps them aligned and is a deletion |
| BranchTable.ApplyAt | aufs/fs/aufs/branch.c:552-585 | an addition puts the branch at its index and those from there on one further; a deletion undoes that |
| BranchTable.RunKeepsIds | aufs/fs/aufs/branch.c:517-610 | over any sequence of additions and deletions ids stay nonzero, in range and pairwise distinct |
| BranchTable.RunKeepsOrder | aufs/fs/aufs/branch.c:762-861 | over any such sequence branches that are never deleted keep their relative order |
| Robr.RunKeepsInv | aufs/fs/aufs/robr.c:49-117 | the protocol's invariant over every interleaving of any number of threads |
| Robr.InvIsSafe | aufs/fs/aufs/f_op.c:351-387 | in such a state at most one thread holds the entry, vm_file is the aufs file when none does, the lower handler runs with the lower file, and every holder saw the aufs file |
| Robr.SafeIffNotNested | aufs/fs/aufs/robr.c:57-75 | all runs are safe if and only if the lower file is not itself an aufs file |
| Robr.WakerIffAllocates | aufs/fs/aufs/robr.c:70-84 | in all runs somebody is on its way to wake the sleepers if and only if no allocation of a list entry may fail |
| Robr.NoLostWakeup | aufs/fs/aufs/f_op.c:357-387 | while entries can be allocated no interleaving leaves everybody asleep |
| Robr.FailedAllocationSleeps | aufs/fs/aufs/robr.c:70-84 | a concrete run where a failed allocation does |
| CopyFile.Copy.CopyFile | aufs/fs/aufs/misc.c:174-315 | the blocks, what is kept of each, the error and the extra byte as functions of the source and the transfers to come; on success the result is the source's first len bytes, a block being cut if and only if a transfer failed for good, plus one zero byte if and only if the last block read was a whole block of zeros and the write of it did not stall; without short transfers that is if and only if the bytes asked for end in such a block |
| CopyFile.OneByteTooLong | aufs/fs/aufs/misc.c:289-309 | a file of one block of zeros comes out a byte longer |
| CopyFile.PlanReports | aufs/fs/aufs/misc.c:218-288 | a copy whose loop ends without an error has cut a block if and only if a transfer failed for good; one that ends with an error ends at such a transfer |
| CopyFile.WriteErrorLost | aufs/fs/aufs/misc.c:252-287 | a concrete copy of two blocks that loses the first one and returns no error |
| CopyFile.Copy.WriteBlock | aufs/fs/aufs/misc.c:241-261 | the block is written up to the first transfer that fails for good, and in full if there is none |
| CopyFile.HoleIsFree | aufs/fs/aufs/misc.c:260-283 | a whole block of zeros takes no transfer; any other block takes one at least |
| CopyFile.ConcatCut | aufs/fs/aufs/misc.c:252-257 | blocks that were cut are in total as long as the originals if and only if none was |
| Dcsub.Dpages.Append | aufs/fs/aufs/dcsub.c:76-112 | the dentry is added at the end, all pages but the last stay full, and it fails only without memory |
| Dcsub.DcsubPages | aufs/fs/aufs/dcsub.c:114-181 | the walk terminates and collects, in order, what passes of the dentries it looks at, if and only if the pages there is memory for have room for all of it |
| Dcsub.CollectedSet | aufs/fs/aufs/dcsub.c:114-181 | that is exactly the dentries of the subtree that pass and are reached through positive ones |
| Dcsub.ParentCollectedFirst | aufs/fs/aufs/dcsub.c:127-136 | a parent that passes is collected before any of its children |
| Dcsub.DcsubPagesRev | aufs/fs/aufs/dcsub.c:183-211 | the ancestors that pass up to the root, with the dentry itself if asked for, if and only if there is room for them |
| Dcsub.KeptFromIff | aufs/fs/aufs/dcsub.c:183-211 | those are the ones the caller's test names, or all if there is none |
| Dcsub.ChainTop | aufs/fs/aufs/dcsub.c:197-206 | the way up ends at the root |
| Dcsub.TestSubdir | aufs/fs/aufs/dcsub.c:213-250 | the child of d2 on the path down to d1, d1 itself if they are one, nothing if and only if d2 is no ancestor; it fails if and only if the way up is longer than the pages there is memory for |
| Ramzswap.Rzs.Write | compcache/compcache-0.5.4/ramzswap.c:541-690 | the slot reads back as the page if the write completed, holds nothing otherwise; exactly when it is stored, stored raw, forwarded and failed; no other slot changes |
| Ramzswap.Rzs.Read | compcache/compcache-0.5.4/ramzswap.c:483-539 | the slot's page, or a request for the backing device exactly for an empty slot with one |
| Ramzswap.Rzs.FreePage | compcache/compcache-0.5.4/ramzswap.c:292-329 | the slot is empty, its place alone is freed, no other slot changes |
| Ramzswap.ValidIff | compcache/compcache-0.5.4/ramzswap.c:273-290 | a request passes if and only if it is one page at the first sector of a page of the device |
| Ramzswap.OneSlotPerSector | compcache/compcache-0.5.4/ramzswap.c:495-553 | two valid requests go to the same slot if and only if they are for the same sector |
| Ramzswap.Rzs.Submit | compcache/compcache-0.5.4/ramzswap.c:695-716 | an invalid request changes nothing; every other one acts on its slot only, and a write fails exactly when the store does |
| Ramzswap.Rzs.Run | compcache/compcache-0.5.4/ramzswap.c:483-690 | over any run of requests and frees the device is the pages by sector: every read at a sector last written with success returns that page, and the header stays while sector 0 is left alone |
| Ramzswap.ReadsLastWrite | compcache/compcache-0.5.4/ramzswap.c:483-690 | in such a run a read returns the page of the last completed write at its sector, if no write or free of that sector came between |
| Ramzswap.EmptySlot | compcache/compcache-0.5.4/ramzswap.c:309-328 | after a free the live allocations are still exactly those the table names, once each |
| Ramzswap.FillSlot | compcache/compcache-0.5.4/ramzswap.c:631-660 | and after a store into a fresh place |
| Ramzswap.StoredAt | compcache/compcache-0.5.4/ramzswap.c:641-668 | a store keeps ownership, counters and the limit |
| Ramzswap.RoomLeft | compcache/compcache-0.5.4/ramzswap.c:583-589 | passing the limit test leaves room even when the size counter has wrapped |
| Ramzswap.RecountMeans | compcache/compcache-0.5.4/ramzswap.c:309-328 | a recount is the numbers of slots that are flagged zero, hold a page, hold a raw one, and hold one compressed to at most half |
| Ramzswap.CountersAreRecount | compcache/compcache-0.5.4/ramzswap.c:292-329 | the counters equal a recount of the slots other than the header if and only if slot 0 holds a raw page; with a backing device the total is then at most memlimit - PAGE_SIZE + PAGE_SIZE/2 |
| Ramzswap.WrappedCounterStopsStoring | compcache/compcache-0.5.4/ramzswap.c:583-589 | the limit test fails if and only if more than the limit is stored in all or less than a page, the size counter having wrapped |
| Ramzswap.Rzs.FullIff | compcache/compcache-0.5.4/ramzswap.c:557-589 | a write meets the limit if and only if that is so once the slot it goes to is dropped |
| Ramzswap.ForwardedThoughEmpty | compcache/compcache-0.5.4/ramzswap.c:565-589 | a concrete device that forwards a compressible page although nothing is stored |
| Ramzswap.Rzs.Exit | compcache/compcache-0.5.4/ramzswap.c:1034-1074 | the first free is of a live raw page, and nothing is left allocated, if and only if slot 0 holds a raw page |
| Ramzswap.PageZeroFilled | compcache/compcache-0.5.4/ramzswap.c:69-82 | the word loop decides whether the page is all zeros |

## Left out

- Robr models the build with CONFIG_AUFS_ROBR; every other module models the build without it, where
  `au_test_robr_wh` and `au_test_robr_shwh` are the inline versions: a name with the whiteout prefix is refused always.
- Vdir.Dir.AppendDe: the hash entry it also makes (`append_de`, dehstr) does not run out of memory.
- Listing.Filler.FillVdir: the names put on the hash lists do not run out of memory, and all failures of `au_ino` are one.
- Listing.Filler.ReadVdir: the arrays of lists do not run out of memory, and a seek to the start of a branch's directory
  works; the entries of a branch come in one sequence, however many calls its own readdir takes.
- Getdents.ReadDirectory: a new file on a listing just read; the reuse of a cached listing by age and version is not modelled.
- Readdir: whiteouts shown on request (the SHWH mode).
- Lookup.Dentry.DoLookup: the types asked for are none and directory; the lookup of the marker fails with its branch
  only; open intents are not modelled.
- Lookup.Dentry.Lkup: no type is asked for, and no lower dentry is held below the branch it starts at, see
  `Unlink.NeedWhDir` for the case that some are.
- TestEmpty.Arg.Callback: recording a whiteout does not run out of memory.
- TestEmpty.Arg.TestEmpty: opening a branch's directory does not fail.
- TestEmpty.Arg.TestEmptyLower: the same.
- CopyUp.CpupSingle: an inode that is on the target branch already, which is linked there (plink).
- Unlink.NeedWh: the parent a removal needs on another branch is taken to be there, see `CopyUp`.
- Unlink.DoRevert: what the lower filesystem makes of a whiteout and a directory that is not its own.
- Unlink.AufsUnlink: nothing is claimed of the branches once the revert has gone astray.
- Refresh.IInfo.UpdateBrange: the case that lower inodes without links are let go first (do_put_zero).
- Refresh.TestProtects: the test of an inode no dentry has, its generation being the mount's; dentries are tested the
  same way in `test_dentry_busy`.
- RefreshFile.FInfo.RefreshFile: the refresh by inode, the reopening and the closing on error that come after it.
- BranchTable.SbInfo.DeleteBranch: the answer of the busy test is an input, see `Refresh.TestProtects`.
- Vdir: a block is a value of 512 bytes, so two pointers into one block are not modelled; the lists of names hold names
  instead of pointers into blocks.
- Lookup: opaque markers a dentry keeps for more than one branch, and the remapping of its indices in
  `au_refresh_hdentry`.
- UnionFs: the marker is a field of its directory, its name is not listed there; special files, hard links across
  branches (plink), extended attributes, permissions and times are not modelled, a directory's attributes being one number.
- UnionFs: a user's name is neither empty nor "." nor ".." and has no whiteout prefix.
- Unlink.NeedWhDir: the dentry is taken to hold what a lookup of a directory leaves behind.
- Unlink: rmdir, which puts the directory aside and deletes it later.
- Rename: what is put aside is deleted as one entry, and its failure is ignored as in the source; the parents are taken
  to be there; links and the size of a directory's whiteout list are not modelled.
- CopyUp: the contents of a copied file are one value, see `CopyFile`; files open or deleted while they are copied are
  not modelled.
- RenameView.RenameShows: the whiteout for the source is taken to be asked for when it is needed, see the finding above.
- Branch policies (round robin, free space) are parameters: the branch they pick.
- Xino.Xib.XibPindex: a failing write behind the end of the file does not lengthen it; a failing operation in a run is
  only confined to the cached page, or to the truncation.
- Xino: the counter of the next bit does not overflow; the tables of entries are sequences of numbers of pointer size.
- BranchTable: one number stands for a branch's root dentry and inode; mount options are not parsed.
- Robr: all threads fault on one mapping; entries of other mappings appear as wake-ups only.
- CopyFile: a seek that fails.
- Dcsub: the dentry tree does not change while it is walked.
- Ramzswap: one request at a time; decompression always succeeds and inverts compression; the allocator returns the
  size asked for; the device is a whole number of pages; statistics other than those the limit reads are left out.
- Locks, reference counts, pins, notification, work queues, and the special cases of NFS, FUSE, XFS and ecryptfs.
- Nothing was executed.
