# Models of Data Storage, File Manager and two ground tools

This project models the parts of the satellite software that keep state over long runs, and proves what
they keep. Four systems are covered.

* **Data Storage (DS)**: the hash index over the packet filter table and the commands that edit the table, the
  "N of every X" packet filter, the life of a destination file on a disk that all destinations share, file names by
  sequence count, and the counters of packets and bytes.
* **File Manager (FM)**: the command queue between the parent task and its child task as a machine of atomic
  steps that interleave in any way, and the child's commands with loops: delete all files, concatenate, directory
  listing by packet and to a file; and the question whether a file is open, asked by both tasks.
* **Telemetry router** of the ground system: host names and topics.
* **Serial configuration generator**: the indices, error codes and initialisation calls it writes.

Code that works on values is modelled by functions and lemmas. Code that updates fields, tables, buffers or files is
modelled by classes and methods, each proved equal to a specification function; the main results are proved about
these functions, over every input, every answer of the operating system and every run. Operating-system calls are
parameters: a record of results, or a function from the number of the call to its result.

`dafny verify dfyconfig.toml` checks everything.

## Where the code does less than its documentation

For each of these, the project gives a failing input and the exact condition under which the code does what is
documented or intended.

1. *ADD MID and the hash index* (`apps/ds/fsw/src/ds_table.c:1058-1095`). A link that is put in a second list keeps
   its `Next` pointer. The link of an unused entry lies in the list of bucket 0, so after an ADD MID the new bucket runs
   on into that list; a second ADD MID into the same bucket, or one into bucket 0, closes the list on itself, and the
   search for an absent ID then never returns (`AddSoundExactly`, `RunAgreesExactly`, `FirstAddCanClose`). REMOVE MID and
   a table load build the index anew and repair it.
2. *N of every X across the start-over of the 14-bit sequence count* (`ExactAtRolloverExactly`, `ExactBeyondOneRound`).
3. *Files that take each other's place* (`apps/ds/fsw/src/ds_file.c:494`, `apps/ds/fsw/src/ds_file.c:854`). A destination
   file is opened with truncation, and a closed one is moved over any of its new name. After a reset of the count, a
   restart, a table load, or with two destinations that use the same names, packets stored earlier are lost without an
   error (`KeptExactly`, `AllKeptExactly`, `ReusedCountLoses`). A move to another volume is a copy, which truncates its
   target first: if it then fails, the older file is gone although the move reports an error (`FailedMoveLoses`). Names by
   count repeat exactly as `NamesDistinctExactly` says; a file whose headers could not be written leaves its name to the
   next one.
4. *Short writes* (`apps/ds/fsw/src/ds_file.c:344-370`). The bytes of a write that was cut short stay in the file and are
   counted nowhere (`BytesAccounted`, `ShortWriteUncounted`).
5. *Is the file open?* (`apps/fm/fsw/src/fm_cmd_utils.c:40`, `apps/fm/fsw/src/fm_cmd_utils.c:124`). The parent and the
   child task keep the answer in one variable without a lock: an answer is wrong exactly if the last write since the
   question was asked is a clear although the file is open, or the other task's find although it is not (`WrongExactly`,
   `OpenAnsweredClosed`, `ClosedAnsweredOpen`). Without any interruption, the names are compared by spelling, and a handle
   without information does not count: an open file is answered to be closed exactly if no handle of the very name asked
   about gives information (`AloneIs`, `AliasAnsweredClosed`). Delete-all removes an open file exactly if such an answer
   meets a status query and a removal that succeed (`OpenFilesKeptExactly`, `UndisturbedExactly`, `WrongAnswerRemoves`).
6. *Concatenation* (`apps/fm/fsw/src/fm_child.c:687`). The result of the seek to the end is not looked at; if it failed,
   success is reported for a target in which the second file lies over the first (`ConcatenatesExactly`). Likewise the
   directory listing to a file, whose statistics then come last (`ListingRightExactly`).
7. *Directory packets* (`apps/fm/fsw/src/fm_child.c:1184-1223`). An over-long name takes no place in the packet, which
   then fills up with names of the next window, so packets at offsets 0, 20, 40, ... repeat names (`PagesListExactly`).
8. *Reset of the child's counters* (`apps/fm/fsw/src/fm_cmds.c:72-87`). The parent clears counters that the child
   raises without a lock; a reset can be lost (`CountsExactly`, `ResetCanBeLost`).
9. *Generated initialisation* (`tools/serial-configtool/genfunction.py:48-66`). Every ready CAN interface declares an
   array of the same name in one function (`ConsistentExactly`, `TwoCansClash`).

## Model

| member | source | states |
|---|---|---|
| FilterIndex.Hash | apps/ds/fsw/src/ds_table.c:994-1028 | the bucket of a message ID is within the table of 256 |
| FilterIndex.WalkFrom | apps/ds/fsw/src/ds_table.c:1103-1138 | whatever the links, a hit names a table entry that holds the ID searched |
| FilterIndex.Lookup | apps/ds/fsw/src/ds_table.c:1103-1138 | a search that returns gives an entry holding the ID, or none |
| FilterIndex.Scan | apps/ds/fsw/src/ds_table.c:1103-1138 | the reference: the first table entry holding the ID, or none if there is none |
| FilterIndex.BuiltIsReady | apps/ds/fsw/src/ds_table.c:1036-1050 | a built index has ending, disjoint lists, each link in the bucket of its ID, all entries listed in table order |
| FilterIndex.LookupIsScan | apps/ds/fsw/src/ds_table.c:1103-1138 | in every sound state every search returns, with what a linear scan of the table returns |
| FilterIndex.AddKeepsReady | apps/ds/fsw/src/ds_cmds.c:1116-1206 | ADD MID into a bucket not used since the last build leaves the index sound |
| FilterIndex.AddClosesBucket | apps/ds/fsw/src/ds_table.c:1058-1095 | ADD MID into a used bucket or the bucket of unused entries closes it: the search for any absent ID of the bucket never returns |
| FilterIndex.AddSoundExactly | apps/ds/fsw/src/ds_table.c:1058-1095 | after ADD MID all lists end if and only if the bucket is neither used nor that of unused entries |
| FilterIndex.AddedIsFound | apps/ds/fsw/src/ds_cmds.c:1116-1206 | an ID just added is found at the entry that was taken, even in a closed bucket |
| FilterCommands.CommandsFollowTable | apps/ds/fsw/src/ds_cmds.c:1116-1300 | ADD MID and REMOVE MID accept exactly when the table says so, change exactly the first unused entry or the first entry of the ID, and otherwise raise the counter of rejections by one and change nothing else |
| FilterCommands.OtherIdsUnchanged | apps/ds/fsw/src/ds_cmds.c:1214-1300 | writing one entry changes no third ID's place |
| FilterCommands.RemoveUndoesAdd | apps/ds/fsw/src/ds_cmds.c:1214-1300 | REMOVE MID right after ADD MID goes through, restores the table and rebuilds the index |
| FilterCommands.RunLookupIsScan | apps/ds/fsw/src/ds_table.c:1036-1138 | over every run of loads, ADD MID and REMOVE MID with fresh additions, search and scan agree for every ID |
| FilterCommands.RunEndsExactly | apps/ds/fsw/src/ds_table.c:1058-1095 | over a run, all lists end in all states if and only if every accepted ADD MID is into a fresh bucket |
| FilterCommands.RunAgreesExactly | apps/ds/fsw/src/ds_table.c:1036-1138 | over a run, the search for every ID returns in every state what a linear scan returns, if and only if every accepted ADD MID is into a fresh bucket |
| FilterCommands.FirstAddCanClose | apps/ds/fsw/src/ds_cmds.c:1116-1206 | the smallest failing run: ADD MID 0x0800 over an unused table, and the search for 0x0900 never returns |
| FilterTable.FilterData.FindMsgID | apps/ds/fsw/src/ds_table.c:1103-1138 | the search loop returns what the lookup over the arrays is |
| FilterTable.FilterData.AddMsgID | apps/ds/fsw/src/ds_table.c:1058-1095 | the loop to the end of the bucket links the entry behind its last link and changes nothing else |
| FilterTable.FilterData.CreateHash | apps/ds/fsw/src/ds_table.c:1036-1050 | clearing and linking all entries gives the built index over the same table |
| FilterTable.FilterData.LoadTable | apps/ds/fsw/src/ds_table.c:294-390 | a table load replaces the entries and their filters and builds the index |
| FilterTable.FilterData.AddMidCmd | apps/ds/fsw/src/ds_cmds.c:1116-1206 | the command in place is the specified step; the entry it takes has four filters with N, X, O and destination 0, by count, and no other entry's filters change |
| FilterTable.FilterData.RemoveMidCmd | apps/ds/fsw/src/ds_cmds.c:1214-1300 | likewise for the entry given up, with the search before the checks and the index built anew |
| PacketFilter.TimeValue | apps/ds/fsw/src/ds_file.c:56-180 | the time value is 11 bits of seconds above 4 bits of subseconds |
| PacketFilter.ExactlyNOfX | apps/ds/fsw/src/ds_file.c:56-180 | exactly N of any X consecutive values at or above the offset pass |
| PacketFilter.FilterPassesNOfX | apps/ds/fsw/src/ds_file.c:56-180 | unusable parameters or types pass nothing; usable ones pass nothing below the offset and N of every X above it |
| PacketFilter.ExactAtRolloverExactly | apps/ds/fsw/src/ds_file.c:56-180 | for every N, X and O that the filter uses, with 14-bit counts that start over, every X packets in a row have N stored if and only if all pass, or X divides 16384 and N + O is at most X, or X is a multiple of 16384 and N is that many times 16384 - O |
| PacketFilter.ExactBeyondOneRound | apps/ds/fsw/src/ds_table.c:569-660 | X is not limited: 16384 of every 32768 from 8192 on is exact, from 0 on it is not |
| FilterLaws.AcceptsExactly | apps/ds/fsw/src/ds_file.c:56-263 | a filter accepts a packet if and only if its parameters are usable, its destination is real and enabled, and the packet's sequence count, if it is by count, or 11 low bits of seconds above 4 high bits of subseconds, if by time, is at or above O and less than N beyond a multiple of X from there |
| FilterLaws.SelectedStored | apps/ds/fsw/src/ds_file.c:188-263 | over any run of packets with consecutive sequence counts whose entry has one filter in use, by count, exactly the packets it selects are passed and put on the disk, in order, unless a failed call has disabled the destination |
| FilterLaws.NOfXStored | apps/ds/fsw/src/ds_file.c:188-263 | of any X packets of such an entry offered with consecutive sequence counts from O on, exactly N are passed and put on the disk, unless a failed call has disabled the destination |
| FilterLaws.AddedIsFiltered | apps/ds/fsw/src/ds_cmds.c:1172-1191 | after ADD MID the search finds the ID at an entry with four filters out of use; a packet of the ID counts as filtered and changes no file and no destination |
| FilterLaws.OfferCounted | apps/ds/fsw/src/ds_app.c:397-421 | each packet raises exactly one counter by one: disabled before ignored before filtered or passed |
| SequenceName.DigitsDenote | apps/ds/fsw/src/ds_file.c:632-755 | the digits written denote the count |
| SequenceName.WriteSequence | apps/ds/fsw/src/ds_file.c:632-755 | the loop writes the zero-padded digits and a terminator into the buffer and nothing behind it |
| SequenceName.CountNamesDistinct | apps/ds/fsw/src/ds_file.c:554-625 | names by count of one destination are equal if and only if the counts are |
| SequenceName.NameIs | apps/ds/fsw/src/ds_file.c:554-625 | the name is path, base, sequence and extension with one separator and one point, whether the table writes them or not; none for an empty path or from 64 characters on |
| SequenceName.CountRestarts | apps/ds/fsw/src/ds_file.c:477-547 | the file after the largest count gets the table's own count |
| DestFile.CreateOutcome | apps/ds/fsw/src/ds_file.c:477-547 | a file is open under its name with both headers and the count moves on exactly when name, creation and header writes succeed; otherwise closed, disabled, count kept; no packet is put on the disk, and none leaves it but to the record of losses |
| DestFile.HeadersGood | apps/ds/fsw/src/ds_file.c:378-447 | the second header is written only after the first; a failure closes and disables and puts no packet on the disk |
| DestFile.WriteSucceeds | apps/ds/fsw/src/ds_file.c:344-370 | a full write adds the record to the open file on the disk and its bytes to size and growth, once |
| DestFile.WriteFails | apps/ds/fsw/src/ds_file.c:344-370 | any other result closes and disables, and leaves on the disk what the call did write |
| DestFile.ShortWriteStays | apps/ds/fsw/src/ds_file.c:454-470 | the file closed by a failed write ends with the bytes of the short write, under its own name or, if the move arrived, its new one; only a move that copies the file onto itself destroys it |
| DestFile.StoreOutcome | apps/ds/fsw/src/ds_file.c:271-336 | a stored packet is put on the disk, last in the open file, which is within its size limit or holds only its headers and this packet; a failure puts no packet on the disk, closes and disables; the count moves on exactly when a file was created |
| DestLaws.FittingStays | apps/ds/fsw/src/ds_file.c:290-336 | a packet with which the file is within the size limit goes behind those in the open file, which keeps name, count and age; no other file changes and nothing is lost |
| DestLaws.LargerRollsOver | apps/ds/fsw/src/ds_file.c:295-336 | a packet with which it is not closes the file, after one header update or update error, and comes first in a new one of age 0; the closed file keeps what it holds wherever its move leaves it |
| DestLaws.NewFileHolds | apps/ds/fsw/src/ds_file.c:283-336 | with no file open, the packet comes first in a new one, behind both headers; no other file changes |
| DestLaws.AgeTestIs | apps/ds/fsw/src/ds_file.c:912-944 | a test adds the time to the age of an open file, in 32 bits, closes it exactly if that has reached the limit, with one header update or update error, and changes nothing else of one that stays open |
| DestLaws.AgeIsSum | apps/ds/fsw/src/ds_file.c:912-944 | in every state of every run the age of the open file is the sum of the times tested since it was opened, modulo the counter width |
| DestLaws.ClosedByAgeExactly | apps/ds/fsw/src/ds_file.c:931-940 | an age test in a run leaves the file open if and only if that sum with its own time is below the limit, modulo the width |
| DestLaws.IdleFileCloses | apps/ds/fsw/src/ds_file.c:912-944 | a new file left alone over k tests of t seconds is still open if and only if k is 0 or k*t is below the limit |
| DestLaws.RateIs | apps/ds/fsw/src/ds_app.c:279-389 | the rate is the growth since the last request over the cycle of four seconds, rounded down |
| DestLaws.MovesTo | apps/ds/fsw/src/ds_file.c:820-854 | a closed file goes to the directory for moves under its own name, with one separator between, unless the name has 64 characters or more |
| DiskFiles.MoveFileLoses | osal/src/os/shared/src/osapi-file.c:478-493 | a move, whether it succeeds or fails, destroys what the target held exactly if the file was renamed to another name or a copy was begun, which truncates the target; it puts nothing on the disk |
| DiskFiles.MoveFileKeeps | osal/src/os/shared/src/osapi-file.c:413-493 | after a move that succeeds the target holds the file, after one that fails the file is where it was; a copy of a file onto itself leaves nothing |
| DestRuns.StoreLoses | apps/ds/fsw/src/ds_file.c:271-336 | storing a packet loses others exactly when it creates, moves or begins to copy a file onto one that holds packets |
| DestRuns.RunKeeps | apps/ds/fsw/src/ds_file.c:271-944 | in every state of every run a closed destination has no size, age or name, an open one has exactly the bytes written since creation and its file is on the disk; every packet put on the disk, or left there by a copy that was not a move, is there or among those lost to files of the same name, and those put there are those stored, in order |
| DestRuns.KeptExactly | apps/ds/fsw/src/ds_file.c:477-547 | every packet is on the disk as often as it was at the start, was stored since and was left by copies, if and only if no file was created, moved or copied onto one that holds packets; where copies left no packets, the files then hold exactly those of the start and those stored, in order |
| DestRuns.FailedMoveLoses | osal/src/os/shared/src/osapi-file.c:413-493 | a move to a full volume: the copy has truncated the older file of that name before it could write, and the closed file stays where it is |
| DestRuns.CreateReplaces | apps/ds/fsw/src/ds_file.c:489-520 | creating a file takes the place of one of its name, with all it held |
| DestRuns.ReusedCountLoses | apps/ds/fsw/src/ds_cmds.c:886-955 | store, close, reset of the count, store: the first packet is no longer on the disk |
| DestNames.NamesByCount | apps/ds/fsw/src/ds_file.c:554-625 | whatever happens in between, the names of the files created are distinct if and only if their counts are |
| DestNames.NamesDistinctExactly | apps/ds/fsw/src/ds_file.c:477-547 | over a stretch of a run without a command or table load that sets the count, the files created have distinct names if and only if each but the last got its headers and there are no more than counts before one comes again after a restart |
| DestNames.DistinctNamesKeep | apps/ds/fsw/src/ds_file.c:477-547 | a destination that names by count, moves nothing and starts with its names free loses no packet while the names it uses are distinct |
| DestBytes.BytesAccounted | apps/ds/fsw/src/ds_app.c:279-389 | growth reported at housekeeping plus current growth equals the bytes accepted, modulo the counter width, if and only if the bytes of short writes are a multiple of it; all bytes accepted or left by copies are on the disk or were lost with a replaced file |
| DestBytes.ShortWriteUncounted | apps/ds/fsw/src/ds_file.c:344-370 | five of ten bytes written stay in the file and in no counter |
| DataStorage.PassedExactly | apps/ds/fsw/src/ds_file.c:188-263 | a packet passes if and only if one of its filters accepts it, in the sense of AcceptsExactly, in the state it finds, although a failed write disables destinations on the way |
| DestFrame.StoreConsistent | apps/ds/fsw/src/ds_file.c:271-336 | whatever is on the disk, even if another destination writes the same file, storing keeps a destination consistent and puts the packet on the disk exactly if every call succeeded |
| DestFrame.StoreLeaves | apps/ds/fsw/src/ds_file.c:271-336 | storing without a loss leaves the files of the other destinations as they were |
| FilesRuns.StoreIsRun | apps/ds/fsw/src/ds_file.c:188-263 | storing a packet under all its filters is a run of steps at single destinations |
| FilesRuns.AgeIsRun | apps/ds/fsw/src/ds_file.c:912-944 | so is the age test |
| FilesRuns.AllOrderly | apps/ds/fsw/src/ds_file.c:188-944 | over every run of all destinations on one disk each is consistent and its growth in step with its bytes, and the disk holds no more than was put or copied there |
| FilesRuns.AllKeptExactly | apps/ds/fsw/src/ds_file.c:188-944 | over every run of all destinations the packets put on the disk are those stored, in order; the disk holds as many as were there, stored and copied if and only if no file was created, moved or copied onto one that holds packets, and then each is there as often as stored or copied and no file in use is shared; otherwise it holds fewer |
| DataStorage.TalliesCount | apps/ds/fsw/src/ds_app.c:397-421 | each packet counter counts its outcomes modulo its width |
| DataStorage.PacketsConserved | apps/ds/fsw/src/ds_app.c:397-421 | over every run of packets offered, resets and other events, each packet counter is the number of packets offered since the last reset that had its outcome, and the four together are the packets offered, modulo their width |
| DataStorage.OnlyPassedStores | apps/ds/fsw/src/ds_file.c:188-263 | a packet that is disabled, ignored or filtered leaves all files and destinations as they were |
| DataStorage.LoadEach | apps/ds/fsw/src/ds_table.c:186-286 | a table load gives every destination the state and the count of its entry and leaves all else of it alone |
| DataStorage.AgeEach | apps/ds/fsw/src/ds_file.c:912-944 | the age test of all destinations is that of each on its own, as AgeTestIs states it |
| Storage.AppData.FileMove | apps/ds/fsw/src/ds_file.c:815-889 | a closed file is moved to the downlink directory, if there is one and the name fits, with all that a rename, a copy or a failed copy does to the files of both names |
| Storage.AppData.FileCloseDest | apps/ds/fsw/src/ds_file.c:802-905 | closing moves the file and resets handle, age, size and name of this destination only |
| Storage.AppData.FileWriteError | apps/ds/fsw/src/ds_file.c:454-470 | counts the error, closes and disables this destination only |
| Storage.AppData.FileWriteData | apps/ds/fsw/src/ds_file.c:344-370 | writes in place what the record specification says, short writes included |
| Storage.AppData.FileWriteHeader | apps/ds/fsw/src/ds_file.c:378-447 | likewise for the two headers |
| Storage.AppData.FileCreateDest | apps/ds/fsw/src/ds_file.c:477-547 | likewise for creating a file, which truncates one of its name |
| Storage.AppData.FileUpdateHeader | apps/ds/fsw/src/ds_file.c:763-795 | counts one update or one update error |
| Storage.AppData.FileSetupWrite | apps/ds/fsw/src/ds_file.c:271-336 | likewise for storing a packet with rollover |
| Storage.AppData.FileTestAge | apps/ds/fsw/src/ds_file.c:912-944 | ages all open destinations, if a table is loaded |
| Storage.AppData.StoreUnder | apps/ds/fsw/src/ds_file.c:188-263 | the loop over the filters of one entry, and whether one accepted |
| Storage.AppData.FileStorePacket | apps/ds/fsw/src/ds_file.c:188-263 | looks the packet up, stores it under the filters of its entry and counts exactly one outcome |
| Storage.AppData.AppStorePacket | apps/ds/fsw/src/ds_app.c:397-421 | files, destinations and counters become those of the specified offer of a packet, whether the application is disabled, lacks a table or stores |
| Storage.AppData.ResetCounters | apps/ds/fsw/src/ds_cmds.c:74-107 | the packet and write counters start over, and nothing else changes |
| Storage.AppData.ManageDestFile | apps/ds/fsw/src/ds_table.c:186-286 | a loaded table replaces the entries and sets state and count of every destination |
| Storage.AppData.SendHk | apps/ds/fsw/src/ds_app.c:279-389 | growth becomes rate over the cycle length and starts over, after the age test |
| ChildQueue.ParentKeeps | apps/fm/fsw/src/fm_cmd_utils.c:423-494 | every parent step keeps ring, indices, tokens and record in agreement, whatever the child is doing |
| ChildQueue.ChildKeeps | apps/fm/fsw/src/fm_child.c:138-272 | so does every child step |
| ChildQueue.StartedInOrder | apps/fm/fsw/src/fm_child.c:193-272 | in every interleaving the accepted commands are those started followed by those in the ring, and the executing one stays in its slot |
| ChildQueue.NeverBroken | apps/fm/fsw/src/fm_child.c:155-171 | the empty-queue, bad-index and broken-interface exits are unreachable |
| ChildQueue.IndicesAgree | apps/fm/fsw/src/fm_cmd_utils.c:473-494 | write index = read index + count modulo depth, and tokens plus entries in flight equal the count |
| ChildQueue.CountersCountFinished | apps/fm/fsw/src/fm_child.c:193-272 | successes plus errors equal the commands finished, modulo 256 |
| ChildQueue.OnlyTakeEnds | apps/fm/fsw/src/fm_child.c:112-185 | the child ends only when its semaphore call fails |
| ChildQueue.FailureEnds | apps/fm/fsw/src/fm_child.c:112-185 | a failing call does end it: in every interleaving afterwards no command is started or counted, and the semaphore is gone from its next step on |
| ChildQueue.NoDeadlock | apps/fm/fsw/src/fm_child.c:138-272 | a task in the middle of something can go on or waits for a lock whose holder can; a live child is not stuck with entries pending |
| ChildQueue.SubmissionIs | apps/fm/fsw/src/fm_cmd_utils.c:423-494 | the parent's steps without interruption add the command or change nothing |
| ChildQueue.SubmissionKeeps | apps/fm/fsw/src/fm_cmd_utils.c:423-494 | a submission is accepted exactly when the child lives and the queue is not full, and then is last in the queue |
| ChildQueue.ServiceIs | apps/fm/fsw/src/fm_child.c:193-272 | the child's steps without interruption execute the first command and release its slot |
| ChildQueue.Drains | apps/fm/fsw/src/fm_child.c:138-185 | left alone, a live child executes every accepted command in order and waits with an empty queue |
| ChildTask.GlobalData.VerifyChildTask | apps/fm/fsw/src/fm_cmd_utils.c:423-465 | accepts exactly as specified and clears only the slot to be filled |
| ChildTask.GlobalData.InvokeChildTask | apps/fm/fsw/src/fm_cmd_utils.c:473-494 | advances the write index, the 8-bit count and, for a live child, the semaphore |
| ChildTask.GlobalData.Submit | apps/fm/fsw/src/fm_cmds.c:125-146 | the command handler's code does what the parent's steps do |
| ChildTask.GlobalData.ChildProcess | apps/fm/fsw/src/fm_child.c:193-272 | executes the entry at the read index and releases it |
| ChildTask.GlobalData.ChildLoop | apps/fm/fsw/src/fm_child.c:138-185 | the loop is the run of services; it executes everything accepted |
| CounterReset.CountsExactly | apps/fm/fsw/src/fm_cmds.c:72-87 | a child counter shows what was finished since the last reset if and only if nothing was finished or nothing was carried over that reset |
| CounterReset.ResetCanBeLost | apps/fm/fsw/src/fm_child.c:280-313 | an interleaving after which the counter shows two for one command |
| OpenQuery.VariableIsLastWrite | apps/fm/fsw/src/fm_cmd_utils.c:115-187 | in every interleaving of the two tasks' questions the shared variable tells whether the last write was a find or the start of a question |
| OpenQuery.QuestionAsked | apps/fm/fsw/src/fm_cmd_utils.c:174-187 | a task that searches has started its question at some move, and the variable was last written then or later |
| OpenQuery.WrongExactly | apps/fm/fsw/src/fm_cmd_utils.c:135-187 | in every interleaving an answer is wrong if and only if the last write since the question is the start of a question, by either task, although the file is open, or the other task's find although it is not |
| OpenQuery.AloneIs | apps/fm/fsw/src/fm_cmd_utils.c:135-187 | from any state, with any handles giving information: a question that the other task does not interrupt is answered open if and only if a handle of the very name gives information, which is right if and only if there is one or the file is not open |
| OpenQuery.OpenAnsweredClosed | apps/fm/fsw/src/fm_cmd_utils.c:40-40 | the parent's question after the child has seen that its file is open makes the child's answer closed |
| OpenQuery.ClosedAnsweredOpen | apps/fm/fsw/src/fm_cmd_utils.c:40-40 | the parent's find after the child's question makes the answer about a file that is not open "open" |
| OpenQuery.AliasAnsweredClosed | apps/fm/fsw/src/fm_cmd_utils.c:122-130 | without interruption, a file opened under another spelling of its name, or whose only handle gives no information, is answered to be closed |
| Paths.BuiltPathIsPath | apps/fm/fsw/src/fm_cmd_utils.c:502-526 | every path built that is short enough is the entry's own path, even where no separator could be added |
| DeleteAll.FateIs | apps/fm/fsw/src/fm_child.c:480-546 | an entry is removed only if it is a file that fits and was answered to be closed, and stays only for the reason counted |
| DeleteAll.DeleteAllOutcome | apps/fm/fsw/src/fm_child.c:437-580 | whatever the calls answer, rewinds included: only files that fit and were answered closed are removed, directories and the rest stay in order, the count is right, and after reading to the end each such file left behind was answered open, not found or not removed in the last pass |
| DeleteAll.OpenFilesKeptExactly | apps/fm/fsw/src/fm_child.c:480-546 | whatever the calls answer: only closed files are removed if and only if each open file that was asked about was answered open, not found or not removed; and then all entries but closed files stay, in order |
| DeleteAll.WrongAnswerRemoves | apps/fm/fsw/src/fm_child.c:526-535 | one wrong answer, and an open file is removed |
| DeleteAll.CleanOutcome | apps/fm/fsw/src/fm_child.c:437-580 | when no call fails and every answer is right exactly the other entries remain, and the two warnings say exactly whether there are files or directories among them |
| DeleteAll.TurnCounts | apps/fm/fsw/src/fm_child.c:480-546 | whatever the calls answer, one turn counts a file left if the path is too long, the query failed, or the file was answered open or not removed; a directory left; or a file removed; and nothing for the entries "." and ".." |
| DeleteAll.CountedExactly | apps/fm/fsw/src/fm_child.c:437-580 | over the whole command each count is the number of turns that counted so, and each warning is raised exactly if some turn called for it |
| DeleteAll.RefusedWarns | apps/fm/fsw/src/fm_child.c:537-567 | a closed file that cannot be removed stays and is counted |
| OpenDelete.UndisturbedExactly | apps/fm/fsw/src/fm_child.c:497-546 | a delete-all whose questions the parent does not interrupt removes only closed files if and only if every open file that it finds and can remove is open under the very path the command builds, by a handle that gives information |
| OpenDelete.OnlyClosedFilesGo | apps/fm/fsw/src/fm_child.c:497-546 | with information on every handle and files opened under those paths, every file removed was closed and all else stays in order |
| ChildDirectory.Directory.GetFilenameState | apps/fm/fsw/src/fm_cmd_utils.c:135-212 | the state of a path, with the status query and the question whether it is open made only for a valid name |
| ChildDirectory.ReadAndDelete | apps/fm/fsw/src/fm_child.c:480-546 | one turn of the loop in place is the specified step |
| ChildDirectory.DeleteFiles | apps/fm/fsw/src/fm_child.c:478-550 | the loop ends although it starts over after each removal, in the specified state |
| ChildDirectory.AppendPathSep | apps/fm/fsw/src/fm_cmd_utils.c:502-526 | the name in the buffer gets its separator if it has none and there is room |
| Concat.ConcatFiles | apps/fm/fsw/src/fm_child.c:628-755 | success exactly when all calls but the seek succeed, and then the target is the concatenation if and only if the seek worked or a file is empty; after a failure past the copy the target is removed; no handle stays open; one delay for every 16 blocks |
| Concat.Append | apps/fm/fsw/src/fm_child.c:685-746 | the read and write loop, with short reads and writes |
| Concat.BlocksMoveAll | apps/fm/fsw/src/fm_child.c:691-745 | a loop that succeeds moved every byte, in non-empty blocks of at most 2048 |
| Concat.ConcatenatesExactly | apps/fm/fsw/src/fm_child.c:685-689 | the result is the concatenation if and only if the seek worked or one of the files is empty |
| DirList.DirListPacket | apps/fm/fsw/src/fm_child.c:1170-1226 | the packet counts the whole listing, shows the first 20 names that fit from the offset on, and warns of each over-long name passed |
| DirList.PagesListExactly | apps/fm/fsw/src/fm_child.c:1184-1223 | the packets at 0, 20, 40, ... show the fitting names once each, in order, if and only if no over-long name is followed in a later window by one that fits |
| DirList.PagesListAll | apps/fm/config/default_fm_fcncodes.h:762-780 | with no over-long name the packets together are the listing |
| DirList.FittingExactly | apps/fm/fsw/src/fm_child.c:1196-1201 | a name is shown exactly if the path with at most 20 of its characters is shorter than 64 |
| DirList.OverLongRepeats | apps/fm/fsw/src/fm_child.c:1184-1223 | one over-long name before twenty that fit: the last is shown twice |
| DirListFile.WriteEntries | apps/fm/fsw/src/fm_child.c:1367-1458 | writes the first names that fit, up to the limit, and counts the whole listing, unless a write fails, which ends it after the names before |
| DirListFile.DirListToFile | apps/fm/fsw/src/fm_child.c:1058-1107 | succeeds exactly when all calls but the seek do, with the statistics and names of the listing exactly if the seek worked or the listing is empty |
| DirListFile.ResultIs | apps/fm/fsw/src/fm_child.c:1460-1490 | the statistics hold the number of directory entries before that of file entries, behind the header and before the names; after a failed seek zeros stand there and the statistics at the end |
| DirListFile.ListingRightExactly | apps/fm/fsw/src/fm_child.c:1460-1490 | the exact effect of the unchecked seek back to the statistics |
| ChildCommands.Child.OneCall | apps/fm/fsw/src/fm_child.c:280-428 | copy, move, rename and delete raise exactly one counter and leave no current activity |
| ChildCommands.Child.ConcatFiles | apps/fm/fsw/src/fm_child.c:628-763 | so does concatenation, which reports success for a target that is not the concatenation exactly when the seek failed on two non-empty files |
| ChildCommands.Child.DeleteAllFiles | apps/fm/fsw/src/fm_child.c:437-580 | so does delete-all, with one warning if files were counted as left, as CountedExactly says, and one if directories were |
| ChildCommands.Child.DirListPacket | apps/fm/fsw/src/fm_child.c:1118-1244 | so does the directory packet, with a warning for each over-long name |
| ChildCommands.Child.DirListFile | apps/fm/fsw/src/fm_child.c:1058-1107 | so does the listing to a file |
| Router.NamesNeverChange | tools/cFS-GroundSystem/RoutingService.py:83-92 | whatever arrives later, the lists stay equally long and free of repetitions and a host keeps its place and name |
| Router.ChannelsApart | tools/cFS-GroundSystem/RoutingService.py:106-112 | no host's channel is the beginning of another host's topic |
| Router.TopicsInjective | tools/cFS-GroundSystem/RoutingService.py:106-120 | a topic determines host and stream ID |
| Router.PublishedUnder | tools/cFS-GroundSystem/RoutingService.py:83-120 | over any stream every topic is the host's channel, named by the decimal place of its address in the list, and the proper hexadecimal number of the first two bytes, the first counting 256 |
| Router.TopicsIdentify | tools/cFS-GroundSystem/RoutingService.py:57-112 | over any stream two datagrams share a topic if and only if they share host and first two bytes, and a channel holds its host's datagrams only |
| Router.PublishesAll | tools/cFS-GroundSystem/RoutingService.py:66-97 | the router publishes, in order, every datagram of at least six bytes up to the first from a host named like the first list entry, "All", and that alone stops it; no UDP sender has that address, so in practice it publishes all of them |
| Router.RoutingService.Receive | tools/cFS-GroundSystem/RoutingService.py:66-97 | the receive loop's body is the specified step |
| SerialConfig.GetGeneralSrlNamearr | tools/serial-configtool/genfunction.py:8-14 | the loop collects the upper-case names of the ready serial interfaces, in order |
| SerialConfig.GetGpioNum | tools/serial-configtool/genfunction.py:16-21 | the loop counts exactly the pins the header lists |
| SerialConfig.WriteErrors | tools/serial-configtool/generator.py:133-147 | one error per ready interface with offsets from 90 |
| SerialConfig.WriteCanHandleInit | tools/serial-configtool/genfunction.py:48-66 | declares, sets as many filters as are listed and asked for, and initialises the handle |
| SerialConfig.WriteEarlyInit | tools/serial-configtool/generator.py:185-212 | the initialisation of all ready interfaces, or of those before the first pin without direction |
| SerialConfig.Generate | tools/serial-configtool/generator.py:30-78 | all files from one list, refused exactly for too many handles or CSP nodes; a pin without direction stops it with the headers written and the initialisation begun |
| SerialConfig.RefusedExactly | tools/serial-configtool/generator.py:30-40 | nothing is written exactly for more ready non-GPIO interfaces than handles or no fewer CSP nodes than devices; otherwise the initialisation is broken off exactly if a ready pin is neither input nor output |
| SerialConfig.UpperIs | tools/serial-configtool/genfunction.py:8-14 | names are written with each small letter as its capital and every other character as it is |
| SerialConfig.InitIs | tools/serial-configtool/generator.py:185-212 | the initialisation calls for exactly the interfaces the header counts, in its order |
| SerialConfig.PinsDriven | tools/serial-configtool/genfunction.py:74-81 | a pin is initialised as an output exactly if a ready pin of that name is configured as one, and likewise as an input |
| SerialConfig.InitialisesOnce | tools/serial-configtool/generator.py:149-212 | with distinct names handles and pins are initialised once each at 0, 1, 2, ... within their tables, and every error returned is defined with a distinct offset from 90 |
| SerialConfig.ConsistentExactly | tools/serial-configtool/generator.py:132-212 | the files declare every name once if and only if the ready names are distinct, not taken by the core's errors, and at most one is a CAN bus |
| SerialConfig.TwoCansClash | tools/serial-configtool/genfunction.py:48-51 | two ready CAN buses always declare their filters twice |
| SerialConfig.FiltersSetExactly | tools/serial-configtool/genfunction.py:52-58 | all filters asked for are set if and only if as many are listed |

## Left out

- FilterTable.FilterData.FindMsgID: its precondition says that the search returns; a search in a closed bucket does not, which AddClosesBucket proves, and Dafny methods must terminate. The same holds for AddMidCmd, RemoveMidCmd, FileStorePacket and AppStorePacket.
- DestFile.StoreOutcome: file sizes are compared without overflow of the 32-bit sum, as with a 64-bit size type; a packet has at most 65542 bytes, and the two headers 64 and 76.
- DestFile.CreateOutcome: a create call that fails leaves the disk alone; the update of a header overwrites bytes of it and adds none.
- DiskFiles.MoveFileLoses: whether the rename succeeds, whether both files can be opened, how many bytes the copy writes and whether the source is removed are parameters of each move; the copy's block loop is not modelled.
- DestRuns.RunKeeps: the text of file names by time is a parameter, and the destination file table is loaded before files are closed; the records in files, of losses, of copies left and of bytes accepted are the model's.
- DestRuns.KeptExactly: files are told apart by the spelling of their names, as in AllKeptExactly and NamesDistinctExactly; destinations whose paths are spelled differently but denote one directory, such as "/data" and "/data//", share files that the model calls different.
- FilesRuns.AllKeptExactly: once two destinations write to one file, their writes are not ordered by position; the statement about that case is only that packets are missing.
- Storage.AppData.ManageDestFile: is about a load that the table services report; the states they report before it, their counters and the critical data store are left out.
- ChildQueue.CountersCountFinished: is about runs without a reset command; CounterReset treats the reset.
- ChildQueue.NeverBroken: calls that take or give the mutex are taken to succeed, since the code does not look at their results; loads and stores of one variable are single steps, and filling a slot is one step.
- OpenQuery.WrongExactly: the open handles, and the files their names denote, do not change while a question is asked; in OnlyClosedFilesGo, nor while the command runs.
- DeleteAll.DeleteAllOutcome: the directory is changed by nobody else while the command runs, and its entries have distinct, non-empty names; after a rewind that fails, reading goes on behind the entry removed.
- Concat.ConcatFiles: a read that succeeds delivers something unless the file is at its end; what a failed copy leaves behind is a parameter.
- DirListFile.DirListToFile: of a file whose command failed only its existence is stated.
- Router.PublishesAll: sockets, retries and the window are not modelled.
- SerialConfig.Generate: the generated C is modelled by its declarations and calls, interface types are the nine supported ones, and upper case is that of ASCII; of the CSP nodes only the number is modelled.
- ChildCommands.Child.OneCall: the result of the operating-system call is a parameter; event messages are left out.
- Decompression, file information with CRC, directory creation and removal, permissions: one foreign call each, or a few, in the handler shape of OneCall.
- FM name verification and DS table verification: classifications with one branch per case.
- Critical data store, event texts, telemetry packets, command length checks: plumbing.
- cFE and OSAL services, CI_LAB, ADCS, EPS and GPIO headers, Qt windows: not part of this model.
