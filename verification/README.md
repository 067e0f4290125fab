# Verified models of the Dart I/O runtime

This project models the core of Dart's native I/O support, `runtime/bin`, and the message codec of
`client/dart.js`, and proves what these components promise over every input, every run or every
interleaving. `dafny verify dfyconfig.toml` checks all of it.

| File | What it is about |
|---|---|
| `Basics.dfy` | options and port numbers |
| `Ring.dfy` | the doubly linked ring of ready listeners |
| `Listeners.dfy` | token flow control of a listening socket, as operations on values and their runs |
| `Descriptors.dfy`, `DescriptorInfos.dfy` | the descriptor classes themselves, with their pointers, proved against those operations |
| `EventLoop.dfy` | the Linux event loop as a state machine: commands, epoll events, refused registrations, and the registrations kept in step with the masks |
| `EventMeaning.dfy` | what the kernel watches in terms of what clients asked for, and what is posted to them |
| `EventHandlers.dfy` | the handler object with its timers, proved against that state machine |
| `Timeouts.dfy` | the timer list |
| `PathBuffers.dfy` | the fixed-size path buffer |
| `FileSystem.dfy` | a file system with links, and the listing that a recursive walk of it produces |
| `LinkChains.dfy`, `Listing.dfy`, `Batches.dfy` | the resumable walk: an explicit stack, one path buffer, a chain of followed links, answers in batches |
| `ListingMeaning.dfy` | what a listing says about the file system |
| `DeleteTree.dfy` | recursive deletion |
| `Bigint.dfy` | hexadecimal text to big integers and back |
| `MessageCodec.dfy` | serialization of object graphs |
| `DebugQueue.dfy` | the debugger message queue and its interleavings |
| `StdWriter.dfy` | the writer thread behind standard output on Windows |

How the parts fit together:

* Where the source changes objects in place the model has a class with the same fields, and its
  methods are proved against functions on values. The properties of whole runs are then proved
  about these functions. `CircularLinkedList`, `TimeoutQueue` and `DbgMsgQueue` are linked
  structures on the heap; `PathBuffer` and the text of a big integer are arrays.
* Everything that several threads or the kernel do is a state machine whose steps are the regions
  that the source runs under its locks; a run is any sequence of enabled steps.
* Failures of the system are choices of the model: in `DeleteTree` any call may fail at any time.
  In `FileSystem` the tree records which directories cannot be opened or read and which entries
  cannot be inspected.
* The walk is tied to the recursive listing by an invariant: each stack entry knows what it has
  still to report, one call of `Next` takes exactly what it reports from the front of that, and the
  batches of any even size concatenate to the listing. The link cells are accounted for at every
  step, so none is used after it was freed and none is left at the end.

Where the source does not do what one would expect, the model follows the source, the exact
condition is proved, and an input shows the failure:

| Behaviour | Holds exactly when | Failing input |
|---|---|---|
| a refused registration leaves the descriptor in step (`RefusedAddInStep`, `RefusedAddFine`, `MessageKeepsInv`) | the close event takes the last spare token; for the accounts, too, when every listener had one | `RefusedAtOnce` |
| an error event leaves the registration in step (`ErrorEventInStep`, `EventKeepsInv`) | somebody has a token to spare; for the accounts, too, when every listener had one | `ErrorAfterThree` |
| the timer is armed for the earliest deadline (`TimerSet`, `InputsInTime`) | no deadline is zero | `ZeroDeadlineMissed` |
| and again after it fired (`FiredInTime`) | no other deadline was pending | `SecondDeadlineMissed` |
| a listening socket is told of connections only (`ListeningGetsInput`) | the event is no hang-up | `HangupOfListener` |
| the path reported for an entry names it (`PlacedTruthful`) | the path does not fill the path buffer exactly | `CutExample` |
| a listing builds the paths of the entries (`SeparatorNeeded`) | the start path ends in a separator, as the callers see to (`EnsureTrailingPathSeparators`) | every other start path |
| recursive deletion removes what was named (`Delete`) | the name does not fill the path buffer exactly | `CutNameExample` |
| the length of a printed number fits its variable (`LengthFitsIff`) | a bound on digit count and top digit | `GuardTooWeak64` |
| a message can be read back (`RoundTrip`) | no list or map is reached twice | `SharedNotReceived` |
| a wakeup without notification, or closing, repeats no output (`SpuriousWakeExact`, `CloseExact`) | nothing is pending, or the stream has the pending bytes once more after those written | `SpuriousWakeDuplicates` |

An entry of a special type silently ends the listing of its directory; `EndsByKind` says which do and
`ListedIffPlaced` what is then listed.
The comment above `serialize` in `client/dart.js` describes a map as one field of keys and values
and a port with its isolate; the code writes keys and values as two fields and a local port
without isolate. The model follows the code.

## Model

| member | source | states |
|---|---|---|
| `Ring.CircularLinkedList.Add` | runtime/bin/eventhandler.h:134-150 | the pointer ring stays one cycle with mutually inverse links and its contents gain the item at the end; the result tells whether it was empty |
| `Ring.CircularLinkedList.RemoveHead` | runtime/bin/eventhandler.h:152-164 | drops the first element and leaves the other cells as they were |
| `Ring.CircularLinkedList.Remove` | runtime/bin/eventhandler.h:166-194 | the contents lose the first occurrence of the item, or nothing if it is absent; the head moves on only if it was removed |
| `Ring.CircularLinkedList.UnlinkAt` | runtime/bin/eventhandler.h:178-190 | unlinking a cell at any position leaves a ring of the remaining cells in order |
| `Ring.CircularLinkedList.RemoveAll` | runtime/bin/eventhandler.h:196-200 | ends with an empty ring, whatever the length |
| `Ring.CircularLinkedList.Rotate` | runtime/bin/eventhandler.h:208-213 | moves the first element to the end without touching a cell |
| `Listeners.StepKeepsInv` | runtime/bin/eventhandler.h:411-565 | every operation keeps the ring duplicate-free and equal, as a set, to the ports that are reading with tokens left |
| `Listeners.RunKeepsInv` | runtime/bin/eventhandler.h:411-565 | the same for every legal run of operations from any sound state |
| `Listeners.StepAdvances` | runtime/bin/eventhandler.h:501-523 | while a port stays ready, no operation moves it back in the service order, and each call that serves another port moves it forward |
| `Listeners.BoundedWaiting` | runtime/bin/eventhandler.h:501-523 | a port at position i of the ring that stays ready is picked within i + 1 calls of NextNotifyDartPort, whatever the other operations of the run do |
| `Listeners.StepConserves` | runtime/bin/eventhandler.h:501-565 | one operation changes a port's tokens by the tokens returned less the notices sent to it |
| `Listeners.TokensConserved` | runtime/bin/eventhandler.h:501-565 | over any run a registered port's tokens are the initial ones less all notices plus all returns |
| `Listeners.HonestClientBound` | runtime/bin/eventhandler.h:550-565 | if a client returns only what it received, the assertion on the token count never fails and its unacknowledged notices stay within kTokenCount plus the broadcasts |
| `Listeners.RingCountsReady` | runtime/bin/eventhandler.h:438-463 | the number of cells in the ring is the number of ready ports in the map |
| `DescriptorInfos.DescriptorInfoMultiple.SetPortAndMask` | runtime/bin/eventhandler.h:411-463 | the map of entries and the ring on the heap go on representing the same state, which changes as the value-level operation says |
| `DescriptorInfos.DescriptorInfoMultiple.AddPort` | runtime/bin/eventhandler.h:415-424 | a new entry is registered and queued last if it is ready |
| `DescriptorInfos.DescriptorInfoMultiple.SetReading` | runtime/bin/eventhandler.h:425-436 | a known entry joins or leaves the ring exactly when it becomes or stops being ready |
| `DescriptorInfos.DescriptorInfoMultiple.RemoveReader` | runtime/bin/eventhandler.h:470-473 | taking one entry out of the ring takes exactly its port out of the service order |
| `DescriptorInfos.DescriptorInfoMultiple.DebugScan` | runtime/bin/eventhandler.h:438-463 | the debug check passes in every sound state and leaves the ring as it found it |
| `DescriptorInfos.DescriptorInfoMultiple.CountReaders` | runtime/bin/eventhandler.h:439-451 | rotating until the head comes round again visits every cell once and restores the order |
| `DescriptorInfos.DescriptorInfoMultiple.RemovePort` | runtime/bin/eventhandler.h:466-488 | the entry leaves map and ring together, so that the ring never holds a dead entry |
| `DescriptorInfos.DescriptorInfoMultiple.RemoveAllPorts` | runtime/bin/eventhandler.h:490-499 | ends with no entry and no ring cell |
| `DescriptorInfos.DescriptorInfoMultiple.NextNotifyDartPort` | runtime/bin/eventhandler.h:501-523 | serves the port at the front of the order, spends a token and requeues it unless that was the last |
| `DescriptorInfos.DescriptorInfoMultiple.NotifyAllDartPorts` | runtime/bin/eventhandler.h:525-548 | posts to every registered port exactly once, whatever the order of the map, with the same final state |
| `DescriptorInfos.PartlyNext` | runtime/bin/eventhandler.h:525-548 | one turn of the broadcast for any remaining port leads to the state in which all but the others are done |
| `DescriptorInfos.DescriptorInfoMultiple.ReturnTokens` | runtime/bin/eventhandler.h:550-565 | returned tokens requeue the port exactly when it had run out while reading |
| `DescriptorInfos.DescriptorInfoMultiple.EventMask` | runtime/bin/eventhandler.h:567-572 | the mask is nonzero exactly when some port is ready |
| `Descriptors.DescriptorInfoSingle.SetPortAndMask` | runtime/bin/eventhandler.h:293-297 | the state of a single-port descriptor, under the source's assertion |
| `Descriptors.DescriptorInfoSingle.RemovePort` | runtime/bin/eventhandler.h:299-305 | forgets the port and leaves no event mask, tokens untouched |
| `Descriptors.DescriptorInfoSingle.NextNotifyDartPort` | runtime/bin/eventhandler.h:311-318 | returns the port and spends one token unless tokens are disabled |
| `Descriptors.DescriptorInfoSingle.NotifyAllDartPorts` | runtime/bin/eventhandler.h:320-334 | posts to the port if there is one and spends a token in any case |
| `Descriptors.DescriptorInfoSingle.ReturnTokens` | runtime/bin/eventhandler.h:336-342 | returns tokens up to kTokenCount |
| `Descriptors.BroadcastMask` | runtime/bin/eventhandler.h:320-348 | a broadcast leaves the event mask as it is if somebody had a token to spare and clears it otherwise |
| `EventLoop.ReplaceFine` | runtime/bin/eventhandler_linux.cc:138-150 | a new state of a descriptor, brought to epoll without a refusal, leaves it registered exactly when its mask is nonzero, with that mask |
| `EventLoop.CommandTouches` | runtime/bin/eventhandler_linux.cc:217-281 | every command, whatever the kernel answers, leaves all other descriptors, registrations and token accounts alone and no pointer dangling |
| `EventLoop.CommandFine` | runtime/bin/eventhandler_linux.cc:217-281 | a command leaves its descriptor in step and its tokens accounted for if and only if the kernel does not refuse a registration or the close event is paid with the last spare token |
| `EventLoop.MessageKeepsInv` | runtime/bin/eventhandler_linux.cc:198-283 | a message that meets the source's assertions keeps the whole handler consistent if and only if it does not fail in that sense |
| `EventLoop.MessageKeepsSound` | runtime/bin/eventhandler_linux.cc:198-283 | and a message that fails breaks no descriptor but its own |
| `EventLoop.CloseFine` | runtime/bin/eventhandler_linux.cc:230-264 | closing leaves the descriptor in step, or deleted with its map entry and registration |
| `EventLoop.ClosedMaskIsZero` | runtime/bin/eventhandler_linux.cc:249-257 | before a descriptor is deleted its mask is zero, as the source asserts |
| `EventLoop.ReturnAfterError` | runtime/bin/eventhandler_linux.cc:265-269 | tokens returned to a descriptor that an error left registered with an empty mask cannot register it again, and everybody is told that it is closed |
| `EventLoop.EventKeepsInv` | runtime/bin/eventhandler_linux.cc:336-353 | an event keeps the whole handler consistent if and only if it is no error, or one for which every listener has a token and somebody one left |
| `EventLoop.ReportedHasPort` | runtime/bin/eventhandler_linux.cc:344-350 | a descriptor that no fault has hit has a port to post its event to, as the source asserts |
| `EventLoop.ListeningGetsInput` | runtime/bin/eventhandler.h:501-506 | the assertion that a listening socket is told of connections only holds if and only if the event is no hang-up |
| `EventLoop.HangupOfListener` | runtime/bin/eventhandler.h:501-506 | a run after which a hang-up is reported, which breaks that assertion and nothing else |
| `EventLoop.EventsIndependent` | runtime/bin/eventhandler_linux.cc:322-360 | handling one event of a batch leaves the others deliverable, so no pointer of the batch dangles |
| `EventLoop.RunKeepsSound` | runtime/bin/eventhandler_linux.cc:322-360 | every run of turns, refused registrations and all error events included, keeps every pointer live and every descriptor right that no fault has hit |
| `EventLoop.ReachableInv` | runtime/bin/eventhandler_linux.cc:322-360 | in every reachable state every registration carries the live descriptor of its file; a descriptor that no fault has hit is registered exactly when its mask is nonzero, for input exactly when the mask is 1 or 3 and for output exactly when it is 2 or 3, edge-triggered unless it listens, and no client of it holds more unacknowledged messages than tokens |
| `EventMeaning.WatchedAsAsked` | runtime/bin/eventhandler_linux.cc:34-79 | in every reachable state the file of a descriptor that no fault has hit is watched for input, and for output, exactly when some client has last asked for it and has not used up its tokens, and not at all when nobody has |
| `EventMeaning.RunWished` | runtime/bin/eventhandler_linux.cc:198-283 | over any run each descriptor remembers for each of its ports the mask last asked for and not closed since, whatever is spent, returned or refused |
| `EventMeaning.EventPosts` | runtime/bin/eventhandler_linux.cc:306-353 | an event posts exactly one message, to the next port and with a bit for each of input, output and hang-up; an error goes to everybody if input is ready and to nobody otherwise |
| `EventMeaning.MessagePosts` | runtime/bin/eventhandler_linux.cc:59-79 | closing confirms to the port that asked, a command whose registration is refused tells everybody that the file is closed, and nothing else posts anything |
| `EventMeaning.CloseRemoves` | runtime/bin/eventhandler_linux.cc:230-264 | closing takes the port off, and the descriptor with map entry and registration when no other port is left |
| `EventMeaning.FirstMessage` | runtime/bin/eventhandler_linux.cc:153-173 | the first message about a file gives it a descriptor of the kind it says, and later ones find that one |
| `EventLoop.ErrorEventInStep` | runtime/bin/eventhandler_linux.cc:341-343 | an error event, after which the registration is not updated, keeps it in step with the mask exactly when somebody had a token to spare |
| `EventLoop.ErrorLeavesNobody` | runtime/bin/eventhandler_linux.cc:341-350 | otherwise the next connection is still reported and the assertion that there is a port to tell fails |
| `EventLoop.ErrorAfterThree` | runtime/bin/eventhandler_linux.cc:341-343 | a run of the handler from its start in which this happens |
| `EventLoop.RefusedAddInStep` | runtime/bin/eventhandler_linux.cc:59-79 | whatever command asked for it, a registration refused by the kernel leaves the descriptor in step exactly when the close event took the last spare token |
| `EventLoop.RefusedAddFine` | runtime/bin/eventhandler_linux.cc:59-79 | and its tokens accounted for, too, exactly when besides every listener had one |
| `EventLoop.RefusedAtOnce` | runtime/bin/eventhandler_linux.cc:59-79 | the first registration of a file refused, and the handler inconsistent |
| `EventHandlers.TimerSet` | runtime/bin/eventhandler_linux.cc:204-214 | a timer message sets or removes exactly one deadline, after which the timer will fire at the earliest one if and only if no deadline is zero |
| `EventHandlers.InputsInTime` | runtime/bin/eventhandler_linux.cc:198-283 | the same after any messages |
| `EventHandlers.InputsAsAsked` | runtime/bin/eventhandler_linux.cc:198-283 | after any messages each port has the deadline it last asked for, and the handler is to stop exactly when it was told to |
| `EventHandlers.ZeroDeadlineMissed` | runtime/bin/eventhandler_linux.cc:204-214 | a deadline of zero disarms the timer and stays pending |
| `EventHandlers.FiredInTime` | runtime/bin/eventhandler_linux.cc:328-335 | when the timer fires the port with the earliest deadline is told, and the timer, which is not armed again, is still in time if and only if no other deadline is pending |
| `EventHandlers.SecondDeadlineMissed` | runtime/bin/eventhandler_linux.cc:328-335 | two deadlines of which only the first will wake the handler |
| `EventHandlers.EventHandlerImplementation.AddToEpollInstance` | runtime/bin/eventhandler_linux.cc:59-79 | registers the file, or tells everybody that it is closed when the kernel refuses |
| `EventHandlers.EventHandlerImplementation.UpdateEpollInstance` | runtime/bin/eventhandler_linux.cc:138-150 | the registration that results from an old and a new mask |
| `EventHandlers.EventHandlerImplementation.GetDescriptorInfo` | runtime/bin/eventhandler_linux.cc:153-173 | finds the descriptor of a file or allocates one, nothing else changing |
| `EventHandlers.EventHandlerImplementation.CloseFd` | runtime/bin/eventhandler_linux.cc:230-264 | the fields change as the close step of the state machine, deletion included |
| `EventHandlers.EventHandlerImplementation.HandleCommand` | runtime/bin/eventhandler_linux.cc:217-281 | each command is the step of the state machine, whatever the kernel answers |
| `EventHandlers.EventHandlerImplementation.HandleInterruptFd` | runtime/bin/eventhandler_linux.cc:198-283 | the loop over the messages runs the state machine over all of them in order, timers and shutdown included, and stays safe |
| `EventHandlers.EventHandlerImplementation.Deliver` | runtime/bin/eventhandler_linux.cc:336-353 | one event is one step, errors broadcast and anything else sent to the port chosen |
| `EventHandlers.EventHandlerImplementation.HandleEvents` | runtime/bin/eventhandler_linux.cc:322-360 | one turn of the loop is one turn of the state machine, what is ready before the messages, and breaks at most the descriptors that a fault hits |
| `Timeouts.UpdateRefinesMap` | runtime/bin/eventhandler.cc:18-45 | UpdateTimeout sets or removes exactly one key of the map of deadlines and keeps ports unique |
| `Timeouts.ChangeRefinesMap` | runtime/bin/eventhandler.cc:19-41 | changing the first entry of a port in the list changes the map at that key only |
| `Timeouts.FirstMin` | runtime/bin/eventhandler.cc:46-55 | the first entry among those with the smallest deadline |
| `Timeouts.DrainSorts` | runtime/bin/eventhandler.h:86-105 | removing the current timeout until none is left serves every deadline exactly once and in nondecreasing order |
| `Timeouts.TimeoutQueue.UpdateTimeout` | runtime/bin/eventhandler.cc:18-56 | the linked list refines the list of deadlines and the cached pointer is again at the first minimum |
| `Timeouts.TimeoutQueue.Unlink` | runtime/bin/eventhandler.cc:25-32 | removing a node relinks its neighbours, at the head too |
| `Timeouts.TimeoutQueue.FindNext` | runtime/bin/eventhandler.cc:46-55 | the scan ends at the first minimum, or at nothing for an empty list |
| `Timeouts.TimeoutQueue.Current` | runtime/bin/eventhandler.h:92-100 | port and time of the first minimum |
| `Timeouts.TimeoutQueue.RemoveCurrent` | runtime/bin/eventhandler.h:102-104 | removes exactly the first minimum |
| `Timeouts.TimeoutQueue.RemoveEverything` | runtime/bin/eventhandler.h:86-88 | ends with an empty queue, having served the deadlines in the order of the drained list |
| `PathBuffers.PathBuffer.AsString` | runtime/bin/directory_linux.cc:36-38 | the characters before the first zero, which is what the buffer shows of its text |
| `PathBuffers.PathBuffer.Add` | runtime/bin/directory_linux.cc:45-61 | appends a name that fits, reports the others and keeps the text before it; either way the buffer shows what it can of text and name, without the last character at the very end of the buffer |
| `PathBuffers.PathBuffer.Reset` | runtime/bin/directory_linux.cc:63-66 | restores the text that the buffer had at that length, and what it showed of it |
| `PathBuffers.AddKeepsWholeName` | runtime/bin/directory_linux.cc:45-61 | a reported success keeps the whole name if and only if text and name together do not fill the buffer exactly |
| `FileSystem.DescentDecreases` | runtime/bin/directory_linux.cc:142-169 | descending either goes down the tree or uses up a link not yet followed, and a chain of links without repetition stays one |
| `FileSystem.EntryResolves` | runtime/bin/directory_linux.cc:113-138 | the path put together for an entry, looked up again from the listed directory, is that entry |
| `FileSystem.SeparatorNeeded` | runtime/bin/directory_linux.cc:93-98 | since nothing is added at the outermost level, the path built for an entry of the directory behind a start path names that entry when a separator follows the start path, and never when none does |
| `FileSystem.EnsureTrailingPathSeparators` | sdk/lib/io/file_system_entity.dart:702-717 | the start path handed on ends in a separator, the empty one as "./", and is otherwise the one given |
| `LinkChains.LevelChain` | runtime/bin/directory_linux.cc:144-155 | the scan for a loop visits only live cells, and they hold exactly the links followed to get here |
| `LinkChains.AnyLevelChain` | runtime/bin/directory_linux.cc:144-155 | the same for every level of the stack |
| `LinkChains.ResetKeepsAccount` | runtime/bin/directory_linux.cc:197-213 | freeing a level's own cell leaves every other level's chain intact, with each live cell owned by one level |
| `LinkChains.FollowKeepsAccount` | runtime/bin/directory_linux.cc:162-165 | a new cell in front of the inherited chain is owned by the level that followed the link |
| `LinkChains.PushKeepsAccount` | runtime/bin/directory.h:63-66 | a new stack entry starts without a link and owns no cell |
| `Listing.NextEntryRest` | runtime/bin/directory_linux.cc:104-194 | what is left to report at an entry is its item, then what lies below it, then what follows it, and nothing when its type ends the listing |
| `Listing.OpenedFrame` | runtime/bin/directory_linux.cc:83-99 | opening a directory and adding the separator, even as the last character of the buffer, changes nothing about what is left to report |
| `Listing.EntryAnswers` | runtime/bin/directory_linux.cc:133-138 | what lstat says about the path of an entry as the buffer shows it, which for one that fills the buffer is about another entry or the directory itself |
| `Listing.CutAsked` | runtime/bin/directory_linux.cc:83-97 | and such a path can be opened exactly when the name without its last character leads to a directory that can |
| `Listing.TopAdvanced` | runtime/bin/directory_linux.cc:104-184 | leaving an entry behind takes exactly its item and what lies below it from what the level has to report |
| `Listing.TopDescends` | runtime/bin/directory.cc:396-400 | the pushed entry will report exactly what lies below the subdirectory, under the path in the buffer |
| `Listing.FollowedOnce` | runtime/bin/directory_linux.cc:142-168 | in every state of every walk the link of each stack entry starts a chain of live cells in which no link occurs twice |
| `Listing.DirectoryListing.constructor` | runtime/bin/directory.h:98-107 | for a start path that ends in a separator a new listing has the whole recursive listing to report, or is marked as failed exactly when the start path is longer than the buffer |
| `Listing.DirectoryListing.ResetLink` | runtime/bin/directory_linux.cc:205-213 | frees the level's own cell and inherits the link below, nothing to report being lost |
| `Listing.DirectoryListing.Followed` | runtime/bin/directory_linux.cc:147-155 | finds a loop exactly when the link is already among those followed |
| `Listing.DirectoryListing.Examine` | runtime/bin/directory_linux.cc:117-184 | the switch decides every entry as the recursive definition does, links, loops, broken links, unknown types and paths that lost a character included |
| `Listing.DirectoryListing.FollowLink` | runtime/bin/directory_linux.cc:162-168 | a link not followed before is in front of the chain for what lies below |
| `Listing.DirectoryListing.OpenTop` | runtime/bin/directory_linux.cc:83-99 | opens the directory that the path shown leads to, the start path ending in a separator, or reports the error once |
| `Listing.DirectoryListing.Next` | runtime/bin/directory_linux.cc:78-194 | one call reports the first thing that its level has left, takes exactly that away, leaves the other levels alone, holds its path in the buffer, and terminates |
| `Listing.DirectoryListing.Push` | runtime/bin/directory.h:121-123 | the walk continues inside the subdirectory |
| `Listing.DirectoryListing.Pop` | runtime/bin/directory.h:125-130 | the level is gone with its cell, and the prefix of the level below is still in the buffer |
| `Batches.PendingAfter` | runtime/bin/directory.cc:388-415 | what one step reports is the front of all that is still to be sent, in all cases of the switch |
| `Batches.ListStartRequest` | runtime/bin/directory.cc:228-256 | a start path is refused, with itself as the error, exactly when it is longer than the buffer; any other starts a listing with everything still to be sent |
| `Batches.ReadBack` | sdk/lib/io/directory_impl.dart:328-350 | the client reads from what was sent the items in order, with their kinds, and the end exactly when it was sent |
| `Batches.ReadResponse` | sdk/lib/io/directory_impl.dart:328-350 | the loop over one response is that reading |
| `FileSystem.DirNotDone` | runtime/bin/directory.cc:407-414 | the marker for the end is no part of a listing |
| `Batches.EndMarked` | runtime/bin/directory.cc:333-335 | on the wire the code for the end stands at the end and nowhere else |
| `Batches.AsyncDirectoryListing.AddToResponse` | runtime/bin/directory.cc:307-347 | code and argument of the item are appended, and the result is whether another item fits |
| `Batches.AsyncDirectoryListing.ListNext` | runtime/bin/directory.cc:388-417 | one step moves at most one item from what is pending to the response and stops when the response is full or the walk over |
| `Batches.AsyncDirectoryListing.List` | runtime/bin/directory.cc:419-426 | the response is a prefix of what was pending, and it is full unless the walk is over; for a listing that failed it is an error and the marker for the end |
| `Batches.AsyncDirectoryListing.ListNextRequest` | runtime/bin/directory.cc:259-278 | each request answers with the next items and at least one, and with nothing once the listing is over |
| `Batches.ListInBatches` | runtime/bin/directory.cc:228-278 | for every start path that ends in a separator and every even batch size the start request refuses a path that is too long, or the responses together encode the recursive listing, paths that fill the buffer included, the client reads exactly that listing from them, and the code for the end occurs once, at the end; no link cell is left |
| `ListingMeaning.PlacedTruthful` | runtime/bin/directory_linux.cc:104-194 | at every place of a listing the path of the item, looked up again, is the entry read there if and only if the path did not fill the buffer exactly, and then the entry is of the kind reported, links and cycles notwithstanding |
| `ListingMeaning.ListingTruthful` | runtime/bin/directory_linux.cc:104-194 | every item is an error, or names a file of the kind it reports, or comes from an entry whose path filled the buffer exactly |
| `ListingMeaning.CutExample` | runtime/bin/directory_linux.cc:45-61 | two directories of which one is reported under the name of the other |
| `ListingMeaning.UnleavableExample` | runtime/bin/directory_linux.cc:93-103 | the same two make a recursive listing enter a directory without room for the separator |
| `ListingMeaning.ListedIffPlaced` | runtime/bin/directory_linux.cc:78-194 | an item is in the listing if and only if it has a place: positions of entries to descend through, none behind an entry that ends its directory, each entry taken for what its file is |
| `ListingMeaning.JudgedAsExpected` | runtime/bin/directory_linux.cc:117-184 | the switch takes every entry for what its file is: the entry's own file when its type is told, otherwise what lstat finds and, for a link that is followed, its end |
| `ListingMeaning.ListedByKind` | runtime/bin/directory_linux.cc:117-184 | no entry that is read and fits the buffer is left out: a regular file is listed as a file, a directory other than the dots as a directory, a link not followed, looping or broken as a link, a link followed as what it leads to, and as an error exactly what only lstat could tell when lstat fails |
| `ListingMeaning.EndsByKind` | runtime/bin/directory_linux.cc:104-194 | a directory is ended by exactly these entries: one whose path is longer than the buffer, a special file, or a link followed to one |
| `ListingMeaning.RoomIff` | runtime/bin/directory_linux.cc:93-103 | a listing is excluded exactly when at some place a directory is entered whose path fills the buffer and can be opened without its last character, and never without recursion |
| `DeleteTree.WalkPart` | runtime/bin/directory_linux.cc:234-265 | in a smaller tree a path leads where it led before, or nowhere |
| `DeleteTree.EntryShown` | runtime/bin/directory_linux.cc:219-231 | where the buffer leads once an entry's name has been appended, cut names and dots included |
| `DeleteTree.DeleteFile` | runtime/bin/directory_linux.cc:219-223 | takes at most the entry that the buffer shows, and exactly it on success |
| `DeleteTree.DeleteDir` | runtime/bin/directory_linux.cc:226-231 | skips the two dots and takes at most the subtree of the entry shown |
| `DeleteTree.DeleteEntry` | runtime/bin/directory_linux.cc:266-303 | whatever type readdir claims, an entry takes at most its own subtree; with a right or unknown type, and unless a call fails without cause, it succeeds when nothing stands in the way |
| `DeleteTree.DeleteEntries` | runtime/bin/directory_linux.cc:254-314 | success means that the directory and all below it are gone and nothing else; failure at any point leaves everything outside it; it succeeds unless something stands in the way or fails without cause |
| `DeleteTree.NextDeletable` | runtime/bin/directory_linux.cc:254-309 | while the entries of a directory are deleted the next one is still there and can be deleted in its turn |
| `DeleteTree.EmptiedRemovable` | runtime/bin/directory_linux.cc:259-263 | when all are deleted the directory is empty and its name still leads to it, so that it can be removed |
| `DeleteTree.DeleteRecursively` | runtime/bin/directory_linux.cc:234-314 | on success exactly the file or subtree named is gone, links removed and not followed; on failure nothing outside it is gone; it succeeds for every tree of folders, files and links whose paths fit the buffer, unless a call fails without cause |
| `DeleteTree.Delete` | runtime/bin/directory_linux.cc:419-433 | the same for the whole call, success included; a recursive call that succeeds has removed exactly what was named if and only if the name does not fill the path buffer exactly, and at that length a directory is left alone; without the recursive flag, unless a call fails without cause, it succeeds if and only if the name is that of a link to a directory or of an empty directory that rmdir takes |
| `DeleteTree.DeletableExample` | runtime/bin/directory_linux.cc:234-314 | a directory with a file that meets the conditions for success |
| `DeleteTree.CutNamesAnother` | runtime/bin/directory_linux.cc:234-252 | a name without its last character that leads to a file or link leads to another one than the whole name |
| `DeleteTree.CutNameExample` | runtime/bin/directory_linux.cc:419-433 | a directory whose path, made of short components, fills the buffer next to a file with the shorter name |
| `Bigint.DigitRead` | runtime/bin/dartutils.cc:997-1008 | the characters accepted as digits are 0 to 9, A to F and a to f, and the value of each is its position among them |
| `Bigint.DigitWritten` | runtime/bin/dartutils.cc:1067-1071 | the digit written for a value is the upper-case one at that position |
| `Bigint.NewBigint` | runtime/bin/dartutils.cc:1011-1064 | accepts exactly the hexadecimal texts and returns the clamped number of the same value |
| `Bigint.ParseDigits` | runtime/bin/dartutils.cc:1025-1058 | the digits, read from the end eight at a time, have the value of the text and no leading zero |
| `Bigint.BigintToHexValue` | runtime/bin/dartutils.cc:1074-1125 | nothing exactly when the guard refuses the number, else its canonical text |
| `Bigint.WriteText` | runtime/bin/dartutils.cc:1104-1123 | the text is written from the end and fills the buffer exactly, every index in bounds |
| `Bigint.LengthFitsIff` | runtime/bin/dartutils.cc:1086-1102 | the length of the text fits its 32-bit variable if and only if there are fewer than 2^28 digits, or 2^28 and the top one is small enough for the sign |
| `Bigint.GuardSuffices32` | runtime/bin/dartutils.cc:1086-1102 | with the 32-bit guard the length always fits its variable |
| `Bigint.GuardTooWeak64` | runtime/bin/dartutils.cc:1086-1102 | with the 64-bit guard a number passes whose length does not fit |
| `Bigint.PrintThenParse` | runtime/bin/dartutils.cc:1011-1125 | parsing what was printed gives the number back, or nothing when the guard refused to print it |
| `Bigint.ParseThenPrint` | runtime/bin/dartutils.cc:1011-1125 | printing what was parsed gives the canonical text of the same value, and a canonical text unchanged |
| `Bigint.ParsedLength` | runtime/bin/dartutils.cc:1011-1125 | the number parsed fits the printer if and only if the text without leading zeros does |
| `Bigint.CanonicalUnique` | runtime/bin/dartutils.cc:1074-1125 | two canonical texts of the same value are the same text |
| `Bigint.BigintUnique` | runtime/bin/dartutils.cc:1055-1063 | two clamped numbers of the same value are the same number |
| `MessageCodec.SerNumbered` | client/dart.js:59-104 | lists and maps are numbered 0, 1, 2, ... by first visit, each body is sent once, and every reference is to a number already given |
| `MessageCodec.SerDenotes` | client/dart.js:59-104 | the wire form describes the graph it was made from, shared and cyclic objects included |
| `MessageCodec.WireIffIsomorphic` | client/dart.js:59-104 | two messages have the same wire form if and only if their graphs are isomorphic, undefined and null taken for the same |
| `MessageCodec.DesRestores` | client/dart.js:106-161 | whatever is read back without an exception is the tree that the wire form unfolds to |
| `MessageCodec.ThrownMeansTwice` | client/dart.js:61-71 | a back-reference is sent only for an object that another path reaches too |
| `MessageCodec.OkMeansOnce` | client/dart.js:61-71 | without a back-reference no two paths reach the same object |
| `MessageCodec.RoundTrip` | client/dart.js:59-161 | on every finite graph reading back fails exactly when some list or map is reached twice, and otherwise restores the message |
| `MessageCodec.SharedNotReceived` | client/dart.js:59-161 | a list that holds another twice, and one that holds itself, cannot be read back |
| `MessageCodec.Serializer.CheckedSerialization` | client/dart.js:61-71 | the object's number, or its body and the objects visited below it |
| `MessageCodec.Serializer.SerializeValues` | client/dart.js:82-86 | the loop over elements or properties serializes them in order with one list of visited objects |
| `MessageCodec.Serializer.DoSerialize` | client/dart.js:73-102 | refines the functional form on every value |
| `MessageCodec.DeserializeHelper` | client/dart.js:110-161 | refines the functional form on every wire value, exceptions included |
| `DebugQueue.DbgMsgQueue.AddMessage` | runtime/bin/dbg_message.cc:1044-1062 | appends a storable message to the linked queue, drops the others, and notifies exactly when the queue was empty |
| `DebugQueue.DbgMsgQueue.HandlePendingMessages` | runtime/bin/dbg_message.cc:1071-1085 | handles the messages up to and including the first resume request, in order, and leaves the rest queued |
| `DebugQueue.DbgMsgQueue.TakeHead` | runtime/bin/dbg_message.cc:1075-1080 | unlinks the first message and keeps head and tail of the queue right |
| `DebugQueue.StepKeepsInv` | runtime/bin/dbg_message.cc:1044-1131 | every step of every thread keeps the invariant of the protocol |
| `DebugQueue.RunKeepsInv` | runtime/bin/dbg_message.cc:1044-1131 | every interleaving does |
| `DebugQueue.NoLostWakeup` | runtime/bin/dbg_message.cc:1044-1121 | an isolate that waits has an empty queue, and a notification is on its way if a service message is there |
| `DebugQueue.Fifo` | runtime/bin/dbg_message.cc:1044-1131 | over whole runs the messages handled followed by those queued are the messages accepted |
| `DebugQueue.InterruptsBounded` | runtime/bin/dbg_message.cc:1088-1131 | no interrupt is raised in a pause and at most one between two exits of the loop |
| `DebugQueue.InterruptRaises` | runtime/bin/dbg_message.cc:1124-1131 | a running isolate not interrupted since it left the loop is interrupted, once |
| `DebugQueue.ExitRearms` | runtime/bin/dbg_message.cc:1118-1120 | whatever ends a pause, the isolate then runs and can be interrupted again |
| `DebugQueue.Stops` | runtime/bin/dbg_message.cc:1088-1094 | a breakpoint begins a new pause, with notification asked for and no message lost |
| `DebugQueue.Wakes` | runtime/bin/dbg_message.cc:1044-1068 | a waiting isolate is woken by the first message stored and by a notification |
| `DebugQueue.ServicePosted` | runtime/bin/dbg_message.cc:1094-1105 | a service message stays until it is served, and its poster notifies exactly during a pause |
| `DebugQueue.ResumesOnRequest` | runtime/bin/dbg_message.cc:1071-1121 | from every reachable state of a pause with a resume request queued the isolate resumes by steps of its own, having handled exactly the messages up to the first such request |
| `DebugQueue.ServesMessages` | runtime/bin/dbg_message.cc:1096-1105 | from every reachable state of a pause that is not draining the service messages can all be served |
| `DebugQueue.PauseStopsAtResume` | runtime/bin/dbg_message.cc:1071-1121 | in every reachable state a pause ends at the first resume request it meets and loses no message |
| `StdWriter.StepKeepsInv` | runtime/bin/eventhandler_win.cc:722-798 | every step of caller, writer thread and completion keeps the invariant of the hand-over |
| `StdWriter.RunKeepsInv` | runtime/bin/eventhandler_win.cc:722-798 | every interleaving does |
| `StdWriter.OutputIsPrefix` | runtime/bin/eventhandler_win.cc:722-798 | at every moment the output is the prefix of the stream up to what was acknowledged and what the thread reports, nothing lost or written twice |
| `StdWriter.NothingStuck` | runtime/bin/eventhandler_win.cc:722-798 | a pending buffer always has an awake thread or a completion coming, and the assertion of WriteComplete holds |
| `StdWriter.WriteAcknowledges` | runtime/bin/eventhandler_win.cc:764-779 | in every reachable state Write acknowledges the smallest of the bytes offered, the size of a buffer and the bytes written, and nothing while a buffer is pending |
| `StdWriter.WriteQueues` | runtime/bin/eventhandler_win.cc:780-798 | with nothing pending and nothing to acknowledge the bytes offered, up to the size of a buffer, are handed to the awake thread, after it was started if need be |
| `StdWriter.Progress` | runtime/bin/eventhandler_win.cc:722-798 | from every reachable state with unacknowledged bytes some run acknowledges one more |
| `StdWriter.SpuriousWakeExact` | runtime/bin/eventhandler_win.cc:722-740 | in every interleaving a wakeup without notification writes the pending bytes once more, which are those from the first unacknowledged one on; the output stays exact if and only if nothing is pending or the stream repeats these bytes after those written, so in particular if none was written |
| `StdWriter.CloseExact` | runtime/bin/eventhandler_win.cc:801-812 | the same for the last wakeup, by closing the handle; harmless if the buffer was not yet taken up |
| `StdWriter.SpuriousWakeDuplicates` | runtime/bin/eventhandler_win.cc:722-740 | a run after which either writes a byte twice |

## Left out

- Batches.ListInBatches: a recursive listing that enters a directory whose path fills the buffer exactly, and whose path without the last character can be opened, is excluded (`RoomDir`; `UnleavableExample` is one). There is no room for the separator then, and Next goes on with a length that was never set (runtime/bin/directory_linux.cc:93-103), so that the source determines no listing. All other lengths are covered.
- Listing.DirectoryListing.constructor: the start path ends in a separator, which the callers ensure (sdk/lib/io/directory_impl.dart:220 and 230); `SeparatorNeeded` shows why. The same holds for ListInBatches, ListingTruthful and ListedIffPlaced.
- EventLoop.RunKeepsSound: the source's assertions on messages, a registry that reports a listening socket safe to close only when no port is left, and clients that return only tokens they received are premises of a run.
- Bigint.BigintToHexValue: a number that passes the guard has to have a length that fits its 32-bit variable; for the others (LengthFitsIff, GuardTooWeak64) the source overflows and its behaviour is undefined.
- Bigint.PrintThenParse: for the same numbers.
- Bigint.ParseThenPrint: for texts that parse to such numbers (ParsedLength).
- StdWriter.OutputIsPrefix: the writer thread wakes only when notified; SpuriousWakeExact and CloseExact state what one other wakeup does. Writing after Close is not modelled.
- DeleteTree.Delete: that it succeeds is stated for names that lead to the directory neither through a link at their end nor through what is deleted, and with room in the buffer for every path below and "/.."; outside these conditions the source can fail although every call does what it can.
- Changes to the file system by somebody else while it is listed or deleted, and device and inode numbers that are used again.
- A symbolic link carries the end of its chain of links; a chain that leads round in a circle counts as broken.
- The event loop keeps its descriptors as values; that the descriptor objects on the heap behave like these values is proved class by class in `Descriptors` and `DescriptorInfos`.
- The decoding of command words and the wakeup pipe; messages arrive decoded and in order. Shutting down one direction of a socket changes nothing that the event loop keeps.
- Port numbers are natural numbers, since the virtual machine hands out positive ones only; file descriptors and times are unbounded integers.
- The debugger queue and the writer thread are transition systems whose steps are the regions under a lock; memory allocation always succeeds.
- The list of all debugger queues (runtime/bin/dbg_message.cc:1215-1348), a linear search by isolate under one lock, and the JSON commands of the debugger, which are read and answered by the virtual machine's debugger interface.
- Property names that JavaScript treats specially, such as `__proto__`, and getters that change the graph while it is serialized.
- The Windows, Mac OS and Android copies of the event loop and of the directory code, which repeat the modelled algorithms over other system calls.
- The synchronous directory listing, which shares the walk and differs only in where the items go.
