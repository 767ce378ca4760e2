# levbdim in Dafny

A model of the stateful core of levbdim, a small data-acquisition toolkit: data sources publish
fragments, an event builder groups them by event through a shared-memory directory, a writer puts
the events into files, and a job supervisor runs the processes. Verify with
`dafny verify dfyconfig.toml`.

| file | what it models |
|---|---|
| `TailText`, `FileTailer` | the log tailer: one pass over a stream through a fixed buffer, with a table of pointers to the last lines |
| `LittleEndian`, `ByteArrays`, `Fragment`, `Options`, `NatSets`, `Sequences` | bytes of integers, fragments and their layout, key packing, small shared things |
| `EventBuilder`, `EventPool`, `Deferred` | the event map on values: arrivals, hand-over, ageing, conservation, exact cover; eager against deferred hand-over |
| `ShmProtocol`, `RunLog` | writers, the driver's owner and the scanner interleaved, one system call a step; the calls a processor gets |
| `GroupCover`, `MixedGroups`, `StoreAgain` | what the events handed over in a run consist of; a run that mixes in a leftover; storing a name again |
| `ShmDirectory`, `ShmDriver` | the directory and the event builder as objects, with ownership of the buffers and the scanner thread |
| `TurnRefinement` | the object's turn against the protocol's steps |
| `Transport`, `Compression` | publish, receive, store and pull of a buffer; zlib as a pair of unknown functions |
| `EventFile`, `BasicWriter`, `Pipeline` | the record format with a reader for it; the writer with numbering and rotation; the event builder with the writer as its processor |
| `Fsm`, `JobControl`, `ExServer`, `ExBuilder` | the state machine and its three clients |
| `FragmentName`, `UrlCodec` | printed and scanned file names; percent-encoding; JSON escaping |

Main results, hardest first.

* **The tailer shows the last lines.** `FileTailer.FileTail` is proved against the splitting of the
  stream into lines: at the end of the stream the table denotes the last lines in order, read as C
  strings, a split line as the concatenation of its halves and an unterminated last line included.
  The invariant `Inv` ties the buffer to a ghost tape of all positions the pointer has passed, one
  revolution being the buffer's length; every write is at a free position, so no complete line in
  the table is ever damaged, the stop for lack of room included, at which the unfinished line is not
  entered. The pass reaches the end of the stream if and only if the lines have room where their lengths make them lie (`TailText.RoomFor`);
  in bytes, it does whenever every window of `nlines` lines needs at most `maxbuff - 1`, and only if
  every window needs at most `maxbuff`: the byte between the two bounds is the one lost, or used as
  an extra NUL, where the buffer ends.
* **The shared-memory protocol is safe under every interleaving** of any number of `store` calls,
  of fragments of any size, with the scanner and with the owner who starts and stops it: a marker
  means a complete data file (but for the name the scanner's own purge is at), every pull of a
  listed name succeeds and yields what one read gives of the stored fragment, every fragment ever
  marked is in exactly one place as a multiset, and the counting law holds in every pass. A name
  may be stored again once its marker is gone, unless the scanner is about to unlink its data file
  or a failed store left a longer one (`MayStore`); for each of these clauses `StoreAgain` has a
  run to a state where a store made in spite of it ends with a marker without its complete file.
* **What is handed over**: in a run from any state, all that is handed over was left there or got
  its marker in the run, with multiplicity (`GroupCover.HandedFromAvailable`). An event of which
  that holds at most one fragment from each source, all of them registered (`FairFor`), is handed
  over at most once in the run, and with exactly one fragment of each source. The hypothesis counts
  in what an earlier run has left, for neither a start nor a stop clears anything:
  `MixedGroups.MixedAcrossRuns` is a run in which a source sends one fragment of an event before a
  stop and one after it, as the example server does when its event numbers start again
  (example/src/exServer.cxx:111), and the event is handed over with both.
* **Starting and stopping**: over the same runs, the calls a processor gets are runs of a start,
  events and a stop, the events being exactly those handed over; no event follows a stop, because
  the thread that still ends its turn is joined first; and the join returns.
* **Grouping**: a batch hands the fragments of an event over in blocks of N and keeps the rest,
  whatever the order of the listing; event 0 is never handed over. For one event the eager
  hand-over and the deferred loop have the same outcome if and only if no more than N fragments
  come together; for event 0 if and only if not exactly N do (`Deferred.PathsAgree`). A pass drops
  exactly the incomplete events that began more than 50,000,000 bunch crossings before the last one
  it filled (`ShmDriver.PassInCrossings`).
* **Ownership**: each heap buffer is in one map entry or has been freed, exactly once. A turn of the
  event builder object is, on its abstract value and the directories, what a run of the protocol's
  scanner steps alone does (`TurnRefinement.TurnIsRun`).
* **The writer's files read back** as the events handed to it, across rotations, numbered from 0 in
  each file, each payload as zlib gives it back: unchanged if and only if zlib copes with every
  payload. The 32-bit size count stays below the limit and does not wrap. With the writer attached
  to the event builder, the files hold exactly the groups handed over, in order (`Pipeline`).
* **End to end**: a published fragment arrives byte for byte exactly when header and payload fit
  one read of 0x20000 bytes; otherwise the payload is cut there.
* **State machines coupled with other state**: in every run the supervisor's map is empty outside
  RUNNING and holds running children under their own pids, and a live child is forgotten exactly
  when its entry goes by a signal that does not end it; a registered list gives one process for each
  name, by its first description; no reader thread of the server holds a deleted source, no source
  publishes an event number twice in a run, each turn of a reader publishes a new number, and when
  a run ends only the readers that had already decided to publish still do; the builder's driver runs
  exactly in RUNNING, and no buffer outlives it. After HALT, which leaves sources registered, an
  event is not completed as long as its fragments, leftovers included, are from sources added
  since, no two from the same one; two from the same one can complete it
  (`ExBuilder.LostSourceCompletes`).

Two places where the repository's documentation and code differ, and the model follows the code:
README.md:285-299 describes a second thread that processes complete events, while
src/shmdriver.cxx:276 has that thread commented out and the scanner thread hands events over
itself; and include/buffer.hh:100 bounds `compress` by a payload of 128k, which is not checked.

Assumptions, stated as preconditions or guards: no two `store` calls of one name are under way at
once, and a name is stored again only when it may be (`Possible`, `MayStore`); while the protocol
runs the number of sources is positive and constant, and it only grows between a stop and a start
(`MoreSources`; `ExBuilder.HasSourceWhen` tells which commands give a source; with none the scanner
computes a remainder modulo 0); for exact cover, that no source sends two fragments of the event,
what is left of earlier runs counted in (`FairFor`); forks succeed with fresh pids (`FreshPids`);
what the writer gets comes from files with a header (`Pipeline.WithHeaders`), which the protocol
gives, and its new files open and do not reuse an older name.

## Model

| member | source | states |
|---|---|---|
| TailText.SplitIsFaithful | src/fileTailer.cxx:6-12 | what a line is: splitting loses and reorders nothing, a complete line has one newline, at its end, the open part none |
| TailText.PlacedReadsBack | src/fileTailer.cxx:20-21 | a row read as the string at its first pointer followed by the one at its second is the whole line |
| FileTailer.Shift | src/fileTailer.cxx:119-128 | the oldest row is dropped and an empty one added |
| FileTailer.RoomTest | src/fileTailer.cxx:130-141 | the test against the oldest row is exact: it passes just when two more bytes may be written without reaching the oldest kept line |
| FileTailer.BeginLine | src/fileTailer.cxx:28-32 | shifting for a new line keeps the invariant and forgets the oldest line only when all rows are in use |
| FileTailer.WrapLine | src/fileTailer.cxx:34-39 | closing the first half at the last byte overwrites nothing kept, although no test guards that write |
| FileTailer.EndLine | src/fileTailer.cxx:44-51 | closing a line, with or without going back to offset 0, keeps the invariant and enters the line |
| FileTailer.CompleteLinesSafe | src/fileTailer.cxx:27-53 | at every step every complete line still in the table is intact in the buffer |
| FileTailer.PlacesNext | src/fileTailer.cxx:34-51 | a line starts and ends where the lengths before it say, counting the byte lost or used up at the end of the buffer |
| FileTailer.NoRoom | src/fileTailer.cxx:41 | the room test fails only if the lines do not fit where they come to lie, and then some window of lines needs more than maxbuff - 1 bytes |
| FileTailer.Finish | src/fileTailer.cxx:54-59 | the closing NUL of an unterminated last line is safe although the test's result is ignored; the table then shows all last lines |
| FileTailer.FileTail | src/fileTailer.cxx:14-61 | the whole pass: last lines in order at the end of the stream; when it stops for lack of room, at the first character without it, the complete lines intact and the unfinished one not entered, its row still empty, or with its first half when it has gone round; the exact condition for reaching the end, with its two bounds in bytes |
| Fragment.ParseBytes | include/buffer.hh:55-99 | the getters read back the tags and payload that the setters laid out |
| Fragment.HeaderLayout | include/buffer.hh:55-99 | detector, source and event id take bytes 0-3, 4-7 and 8-11, the crossing 12-19, lowest byte first; the payload begins at byte 20 |
| Fragment.KeyUnpacks | include/shmdriver.hh:15-17 | unpacking a key gives the low 12 bits of source and detector id |
| Fragment.KeyInjective | include/shmdriver.hh:15-17 | two sources share a key just when their ids agree modulo 4096 |
| Fragment.ReadIsCut | src/shmdriver.cxx:443-444 | one read of a stored fragment gives all tags and the payload cut at 0x20000 bytes in all, so the fragment itself if and only if it is not longer |
| EventBuilder.BatchLaw | src/shmdriver.cxx:303-337 | what was held and what arrives of an event is handed over in blocks of N in order of arrival, the rest stays |
| EventBuilder.BatchLawZero | src/shmdriver.cxx:172 | event 0 is never handed over and keeps all its fragments |
| EventBuilder.OrderIsIrrelevant | src/shmdriver.cxx:287-303 | the fragments of an event in a batch do not depend on the order of the listing |
| EventBuilder.CountingLaw | src/shmdriver.cxx:303-337 | (p + q) / N hand-overs and (p + q) % N fragments left, for every listing order; none and all for event 0 |
| EventPool.AddConserves | src/shmdriver.cxx:310-336 | an arrival is held or handed over, nothing lost or doubled |
| EventPool.RemoveConserves | src/shmdriver.cxx:203-209 | taking entries out takes out exactly their fragments |
| EventPool.AgeingLaw | src/shmdriver.cxx:188-211 | after cleaning, every incomplete entry left has a first bunch crossing whose time, at 200 ns a crossing, is at most the delay before the last completion, and only older incomplete ones are gone |
| EventPool.Pigeonhole | src/shmdriver.cxx:135-139 | N fragments from N registered keys, no key twice, cover every key |
| Deferred.WhenPathsAgree | src/shmdriver.cxx:220-257 | for one event: the two ways hand over the same groups if and only if at most N fragments come together or it is event 0, and leave the same if and only if at most N do, or for event 0 not N |
| Deferred.PathsAgree | src/shmdriver.cxx:220-257 | they agree on all events if and only if no event but event 0 gets more than N fragments and event 0 does not have N |
| Deferred.EagerRefinesDeferred | src/shmdriver.cxx:326-336 | as a consequence, when no event is overfull both hand over the same events and differ at most in what is left of event 0 |
| ShmProtocol.PullReads | src/shmdriver.cxx:429-449 | a pull of a listed name succeeds and reads what one read gives of the fragment stored under it |
| ShmProtocol.StepKeeps | src/shmdriver.cxx:261-357 | every step of writers, owner, scanner and purge keeps the protocol's invariant |
| ShmProtocol.MarkerMeansComplete | src/shmdriver.cxx:458-481 | in every run a visible marker means a complete data file, except where the purge has just unlinked it |
| ShmProtocol.ScannerReadsWhole | src/shmdriver.cxx:303-308 | in every run the scanner never fails to open a listed file, and holds the stored fragment up to one read: all of it if and only if it is not longer |
| ShmProtocol.Conservation | src/shmdriver.cxx:164-211 | in every run each fragment ever marked is pending, in hand, held, handed over, purged or aged out, with multiplicity |
| ShmProtocol.CountingInEveryPass | src/shmdriver.cxx:303-337 | the counting law in the middle of any pass of any interleaving |
| ShmProtocol.NoEventAfterStop | src/shmdriver.cxx:346-355 | in every run the processors are called in runs, with exactly the events handed over; after a stop no event comes before another start, and the thread is gone |
| ShmProtocol.JoinReturns | src/shmdriver.cxx:348-349 | once `_running` is false the thread can always step until it is gone, and each of its steps brings it nearer to that whatever the writers do |
| StoreAgain.StoreUnderMarker | src/shmdriver.cxx:447-458 | a store of any fragment whose file is opened under its marker, while the scanner is at its pull, ends with a marker and no data file |
| StoreAgain.SecondStoreBetweenUnlinks | src/shmdriver.cxx:447-448 | so does a store that opens its file between the two unlinks of a pull |
| StoreAgain.ShorterOverLonger | src/shmdriver.cxx:458 | a store over a longer file, as a failed one leaves it, ends with a marker on a file with a foreign tail |
| StoreAgain.PullReached | src/shmdriver.cxx:436-443 | for every fragment there is a run to the state StoreUnderMarker speaks of |
| StoreAgain.BetweenUnlinksReached | src/shmdriver.cxx:447-448 | ... and to the one SecondStoreBetweenUnlinks speaks of |
| StoreAgain.LongerReached | src/shmdriver.cxx:468-473 | ... and to the one ShorterOverLonger speaks of |
| ShmProtocol.MoreSources | src/shmdriver.cxx:135-139 | what the protocol keeps holds on when sources are registered outside a pass |
| GroupCover.HandedFromAvailable | src/shmdriver.cxx:326-336 | in a run from any state, what is handed over was pending, in hand or held there, or got its marker in the run, with multiplicity |
| GroupCover.ExactCover | src/shmdriver.cxx:326-336 | in a run from any state, an event of which that has at most one fragment from each source, all registered, is handed over with exactly one fragment for each registered key |
| GroupCover.HandedOverOnce | src/shmdriver.cxx:181-184 | such an event is handed over at most once in the run |
| GroupCover.EachSourceOnce | src/shmdriver.cxx:135-139 | the same by detector and source id, for ids below 4096 |
| GroupCover.FairInRun | src/shmdriver.cxx:261-278 | where nothing of the event is left from before, what its sources send in the run decides |
| GroupCover.FromTheStart | src/shmdriver.cxx:326-336 | from the very start, all fragments ever marked counted: exact cover, and no event twice |
| GroupCover.NeverCompleted | src/shmdriver.cxx:326 | with more sources registered than send for an event, it is not handed over in the run |
| MixedGroups.MixedAcrossRuns | src/shmdriver.cxx:346-355 | two fragments of one event sent in different runs, the first left with its marker over the stop: the event is handed over with both, and if they are from one source this covers no list of sources |
| ShmDirectory.Directory.Store | src/shmdriver.cxx:450-483 | the data file is overwritten from its start without truncation; the marker appears only after a full write |
| Fragment.OverwriteAt | src/shmdriver.cxx:458-468 | byte by byte: what is written is in front, what a longer file had there behind it |
| ShmDirectory.Directory.Pull | src/shmdriver.cxx:429-449 | at most 0x20000 bytes are read and both files go; nothing changes when the file cannot be opened |
| ShmDirectory.Directory.Ls | src/shmdriver.cxx:393-427 | every name with a marker, once; of two printed names the first is a prefix of the second, or has the lesser character where they first differ |
| ShmDirectory.Directory.Purge | src/shmdriver.cxx:58-87 | every marked name loses data file and marker |
| ShmDriver.ShmDriver.EraseEntry | src/shmdriver.cxx:181-184 | the buffers of an entry are freed, each for the first time, and the entry goes |
| ShmDriver.ShmDriver.ProcessEvent | src/shmdriver.cxx:164-187 | hands over and frees a full entry; does nothing for a count that differs and for event 0 |
| ShmDriver.ShmDriver.Insert | src/shmdriver.cxx:305-336 | the object does what an arrival does on values, shows the number of the event handed over, and notes the completion time |
| ShmDriver.ShmDriver.CleanBufferMap | src/shmdriver.cxx:188-211 | drops and frees exactly the stale entries |
| ShmDriver.ShmDriver.ProcessEventsPass | src/shmdriver.cxx:226-255 | hands over every full entry but event 0 in ascending order and erases every full entry |
| ShmDriver.PullBuffer | src/shmdriver.cxx:305-306 | a fresh buffer after a pull: what one read gives, with fresh memory in the tags that a short or missing file does not fill, and a payload size that is the payload's exactly when there is a header or no file |
| ShmDriver.ShmDriver.ScanPass | src/shmdriver.cxx:284-344 | one turn of the scanner: purge on a count mismatch, else pull everything listed, one read each, group, hand over and clean; a listed name without a file keeps its marker; the event number shown is that of the newest hand-over |
| ShmDriver.ShmDriver.ScannerStep | src/shmdriver.cxx:284-344 | `_running` is looked at only at the head of the loop; a turn once begun is ended |
| ShmDriver.ShmDriver.Start | src/shmdriver.cxx:261-278 | the processors are started, then the thread; run number and event number are set |
| ShmDriver.ShmDriver.Stop | src/shmdriver.cxx:346-355 | a turn under way is ended with its hand-overs, the thread goes, and only then the processors are stopped |
| ShmDriver.ShmDriver.Clear | src/shmdriver.cxx:44-53 | afterwards every buffer ever made has been freed, and no processor and no source is left |
| TurnRefinement.TurnIsRun | src/shmdriver.cxx:284-344 | from any state of the protocol at the head of the loop, the scanner's own steps lead to what a turn of the object leaves: same builder, same files, same markers |
| ShmDriver.PassLaw | src/shmdriver.cxx:339-341 | after a pass with last completion time T other than 0 no incomplete event is left whose first crossing, at 200 ns, is before T - 10 s; what was held, handed over and pulled is held, handed over or aged out |
| ShmDriver.PassInCrossings | src/shmdriver.cxx:326-341 | in bunch crossings: with L that of the first fragment of the last entry filled, exactly the incomplete entries with first crossing + 50,000,000 < L go, and none when L is 0 |
| ShmDriver.LastFill | src/shmdriver.cxx:326-331 | a batch fills no entry, or there is one that it fills last |
| ShmDriver.PassWithoutCompletion | src/shmdriver.cxx:284-341 | a pass that fills no entry drops none |
| ShmDriver.TurnCounts | src/shmdriver.cxx:292-337 | a turn in numbers: with a number of markers that N does not divide nothing is pulled and all markers go, else (p + q) / N groups of a real event are handed over |
| Transport.Buffer.Receive | src/datasocket.cxx:44-45 | the message lies at the start of the buffer and the full size is its length, through the 32-bit subtraction and addition of 20 |
| Transport.Buffer.Compress | include/buffer.hh:101-109 | only the payload changes, to what the call leaves in the scratch buffer |
| Transport.Buffer.Uncompress | include/buffer.hh:111-119 | only the payload changes, to what the call leaves in the scratch buffer |
| Transport.CompressUncompress | include/buffer.hh:101-119 | compressing and uncompressing in place keeps the tags, and gives the content back if and only if zlib copes with the payload |
| Transport.DataSource.Publish | src/datasource.cxx:22-28 | the message is the bytes of the source's fragment for this event |
| Transport.DataSocket.InfoHandler | src/datasocket.cxx:38-51 | the message is stored under the name of its tags, unless saving is off or the event id is 0 |
| Transport.PullInto | src/shmdriver.cxx:443-444 | the buffer holds what one read gives, with the payload size to match |
| Transport.Deliver | src/shmdriver.cxx:443-444 | publish, receive, store, pull: the content arrives if and only if it fits one read, else the payload is cut |
| Compression.GoodBySize | include/buffer.hh:100-119 | a payload over 128 KiB does not come back from compress and uncompress; up to that size it does when its compressed form fits the scratch buffer too |
| EventFile.ReadBlocksBack | src/basicwriter.cc:91-99 | the buffers of a record are read back, each payload as zlib gives it back |
| EventFile.RestoredWhenGood | include/buffer.hh:101-119 | events come back unchanged if and only if zlib copes with every payload in them |
| EventFile.FileRoundTrip | src/basicwriter.cc:87-103 | a file reads back as its events in order, numbered 0, 1, 2, ... |
| EventFile.RecordLayout | src/basicwriter.cc:87-99 | event number and number of buffers in four bytes each, then each buffer behind its size, header and compressed payload |
| BasicWriter.FilesRead | src/basicwriter.cc:106-111 | all files in order read back as all events written, payloads as zlib gives them back, and every file is numbered from 0 |
| BasicWriter.FilesRoundTrip | src/basicwriter.cc:106-111 | so they read back as the very events written if and only if zlib copes with every payload |
| BasicWriter.BasicWriter.Start | src/basicwriter.cc:21-39 | a new file and number 0 when it opens, the size count kept; else only run and descriptor change |
| BasicWriter.BasicWriter.Stop | src/basicwriter.cc:40-51 | no file is open and nothing written is lost |
| BasicWriter.BasicWriter.WriteEvent | src/basicwriter.cc:87-103 | the event becomes the next record of the open file |
| BasicWriter.BasicWriter.ProcessEvent | src/basicwriter.cc:79-114 | the event is the next one written, and a new file of the same run is begun exactly when the size count passes 1900 MiB |
| BasicWriter.SizeNeverWraps | src/basicwriter.cc:96 | the 32-bit count does not wrap while N * (0x20000 + 20) is at most 2^32 - 1 - 1900 MiB |
| Fsm.Machine.AddTransition | src/fsm.cxx:63-86 | the table keeps meaning: for a command and a state the first registration counts |
| Fsm.Machine.Find | src/fsm.cxx:92-116 | the transition taken is the one that counts, none when there is none |
| Fsm.Machine.AllowList | src/fsm.cxx:177-195 | the commands offered are exactly the ones accepted |
| Fsm.FirstRowIsFirst | src/fsm.cxx:63-86 | a row counts for its command and state if and only if no row before it has both |
| JobControl.FsmJob.StartProcess | src/fsmjob.cxx:332-359 | a fresh child is entered under its pid as running |
| JobControl.FsmJob.KillProcess | src/fsmjob.cxx:467-490 | the entry goes; a live child is forgotten exactly when the signal does not end it |
| JobControl.FsmJob.StartCallback | src/fsmjob.cxx:492-515 | exactly one running process for each job of the list |
| JobControl.FsmJob.KillCallback | src/fsmjob.cxx:535-547 | the map is empty and every child it held is gone |
| JobControl.FsmJob.Command | src/fsmjob.cxx:172-178 | every command keeps the coupling: map empty outside RUNNING, entries running under their own pids, no live child forgotten |
| JobControl.FsmJob.KillJob | src/fsmjob.cxx:558-593 | the entry of the pid, or else the first of the name, goes, and a live child is forgotten exactly for a signal that does not end it |
| JobControl.FsmJob.RestartJob | src/fsmjob.cxx:594-629 | the first match is replaced by a process of the same job under the new pid; the bag of jobs is unchanged |
| JobControl.FsmJob.RegisterFile | src/fsmjob.cxx:709-750 | outside INITIALISED nothing changes; inside, the map it clears was empty already |
| JobControl.FsmJob.RegisterAndStart | src/fsmjob.cxx:673-708 | registration and start leave exactly one process for each distinct name given, with the first description given for it, the names in the order in which they came |
| JobControl.FsmJob.RunConfigured | src/fsmjob.cxx:172-178 | INITIALISE, START, KILL, DESTROY run the configured jobs and leave no entry and no child more than before |
| JobControl.FirstNamesDistinct | src/fsmjob.cxx:697-705 | the registered list has, at rising places of the list given, each name's first description, and no other |
| ExServer.ExServer.ConfigureCallback | example/src/exServer.cxx:32-67 | old sources are deleted once each, the new ones are those asked for |
| ExServer.ExServer.StopCallback | example/src/exServer.cxx:124-135 | all threads are gone, whatever the order of their steps; what they still published is the message of each reader that had already decided to, from live sources |
| ExServer.ExServer.Step | example/src/exServer.cxx:71-102 | one step of a reader, which reads the event number afresh: it publishes only after seeing a new event, and never an event number twice |
| ExServer.ExServer.NewsTurn | example/src/exServer.cxx:75-102 | while running, a turn of a reader's loop with a new event number publishes it, once, and notes it |
| ExServer.ExServer.QuietTurn | example/src/exServer.cxx:75-86 | ... and one without publishes nothing |
| ExServer.ExServer.ReaderStep | example/src/exServer.cxx:94 | a reader only ever uses a live source |
| ExServer.ExServer.Command | example/src/exServer.cxx:14-19 | every command keeps the lifecycle: threads only while running, each on its own live source, no leak |
| ExServer.ExServer.Session | example/src/exServer.cxx:14-19 | each command, configuring again and halting while running among them, is accepted where the table says, and a session leaves no source and no thread |
| ExBuilder.ExBuilder.Command | example/src/exBuilder.cxx:12-18 | the driver exists exactly outside CREATED and runs exactly in RUNNING; its sources are those the commands registered: those of the sockets plus those HALT left behind; a stop comes after the last event, and DESTROY frees every buffer still held |
| ExBuilder.ExBuilder.Session | example/src/exBuilder.cxx:12-18 | a session of all seven commands with two runs is accepted throughout and leaves no driver and no socket |
| ExBuilder.HasSourceWhen | src/shmdriver.cxx:292 | the driver has a source, whose number the scanner divides by, if and only if some ADDSOURCES since the last CONFIGURE listed one |
| ExBuilder.LostSourcesStall | example/src/exBuilder.cxx:106-114 | in a run after HALT has left sources in the driver, an event is not completed as long as its fragments, those left from before included, are from the sources added since, no two from the same one |
| ExBuilder.LostSourceCompletes | example/src/exBuilder.cxx:106-114 | a source added again, with a fragment of the event left from before: its next fragment of that event completes it |
| ExBuilder.ExBuilder.List | example/src/exBuilder.cxx:122-129 | LIST has a driver to ask exactly outside CREATED: before the first CONFIGURE its pointer is not initialised, after DESTROY it is null |
| Pipeline.TurnHandsOver | src/shmdriver.cxx:326-336 | a turn hands over groups of one fragment for each source, behind those before |
| Pipeline.Pipeline.Step | src/shmdriver.cxx:175-178 | what a step of the scanner hands over is what the writer writes next |
| Pipeline.Pipeline.Stop | src/shmdriver.cxx:346-355 | the last hand-overs are written before the writer is stopped |
| Pipeline.Pipeline.FilesHoldTheHandedOver | src/shmdriver.cxx:175-178 | after any starts, steps and stops the files read back as exactly the groups handed over, in order |
| FragmentName.NameRoundTrip | src/shmdriver.cxx:359-392 | scanning a printed name gives all four numbers back |
| FragmentName.NamesDoNotCollide | src/shmdriver.cxx:457 | two fragments share a file name just when all four numbers agree |
| FragmentName.FileOf | src/shmdriver.cxx:457 | the file of a fragment is named by its detector, source and event id and its crossing, in this order, in decimal |
| FragmentName.DecimalDigits | src/shmdriver.cxx:362 | decimal notation digit by digit, without zeros in front |
| FragmentName.PrintedName | src/shmdriver.cxx:362 | for example Event_12_345_6_7890 |
| FragmentName.PrecedesAtFirstDifference | src/shmdriver.cxx:403 | the order of the listing: a prefix comes first, else the lesser character at the first difference decides |
| UrlCodec.TablesInit | src/fsmwebCaller.cxx:12-21 | both tables hold what the two encodings say |
| UrlCodec.CodesByCharacter | src/fsmwebCaller.cxx:17-30 | letters, digits and - . _ ~ stay as they are (section 2.3 of RFC 3986), in the other table * instead of ~, and a space becomes a plus sign; any other character becomes % and two upper-case hexadecimal digits |
| UrlCodec.UrlEncode | src/fsmwebCaller.cxx:23-33 | at most 3n characters and one NUL are written, nothing beyond; nothing at all for the empty string |
| UrlCodec.UrlEncodeString | src/wget.cxx:66-87 | the string version computes the same encoding |
| UrlCodec.BothEncode | src/wget.cxx:66-87 | the two encoders agree on every string without NULs |
| UrlCodec.UrlRoundTrip | src/fsmwebCaller.cxx:23-33 | percent-decoding (section 2.1 of RFC 3986) undoes both encodings |
| UrlCodec.EscapeJsonString | src/fsmwebCaller.cxx:48-66 | the escaped form of the string |
| UrlCodec.JsonRoundTrip | src/fsmwebCaller.cxx:48-66 | reading the escapes back gives the string |
| UrlCodec.EscapesByCharacter | src/fsmwebCaller.cxx:53-62 | which characters get an escape, and which |
| UrlCodec.EscapedIsJson | src/fsmwebCaller.cxx:48-66 | the escaped form may stand in a JSON string (section 7 of RFC 8259) if and only if the string has no control character but those with an escape |
| UrlCodec.BellIsNotJson | src/fsmwebCaller.cxx:62 | a string with a bell is one that may not |

## Left out

- FileTailer.FileTail: a line with NULs in it is stated as bytes in place, not as C strings, which would stop at the NUL; an unterminated last line ending in NUL is not entered, as in the code.
- ShmProtocol.OpenKeeps: two store calls of one name under way at once are not steps, and a store outside `MayStore` is excluded by the guard, for the reasons in `StoreAgain`.
- ShmDirectory.Directory.Ls: characters are compared as in the C locale.
- ShmDriver.ShmDriver.ScanPass: it runs without interference.
- ShmDriver.PullBuffer: for a file shorter than a header the payload size is stated, but not the bytes past the buffer's end that it would reach.
- ShmDriver.ShmDriver.ProcessEvent: processors are a log of hand-overs here.
- Pipeline.Pipeline.Step: files have headers; the writer gets the groups of a turn at its end, in buffers of its own; that it compresses the driver's buffers in place before they are freed, and a second writer would compress them again, is not modelled.
- Transport.Buffer.Compress: zlib is a function of the payload alone, a failing call included.
- BasicWriter.BasicWriter.ProcessEvent: writes to the file succeed in full, and a file opened in the same second as an earlier one of the same run, which would reuse its name, is not modelled.
- JobControl.FsmJob.StartProcess: fork succeeds, and with a pid that has no entry; a stale entry of a child that ended by itself would make the insertion fail.
- JobControl.FsmJob.Command: lists from a file or URL are taken as they are, with names that may repeat; the message returned is not modelled.
- ExServer.ExServer.IncrementEvent: the event number does not wrap at 32 bits.
- ExServer.ExServer.Step: the payload a reader writes, which has the length of its source id, and the statistics are not modelled.
- FragmentName.Scan: white space and signs that the C conversion skips or accepts are refused; printed names have none.
- UrlCodec.UrlEncodeString: characters are unsigned and the C locale is assumed.
- DIM, HTTP, curl, MongoDB, dlopen, JSON values, printing and sleeping: calls out of the repository; their results are parameters.
- The child side of `startProcess`, `checkIP`, `processStatus`, JOBLOG: operating-system plumbing.
- `fileTailer::tail` and `findTail`: the first prints the first half twice for a split line, the second goes on writing after a failed room test.
- `unregisterDataSource`: it looks for the source id and not for the packed key.
- `basicwriter::processRunHeader`, `monitorProcessor`, `mdbReader`, `baseApplication`, the Python client: plumbing, or only easy members.
- Data races within one process: commands are atomic, and only the reader threads' own steps interleave.
- Floating point: times and the delay are reals.
