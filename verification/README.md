# Sane in the Membrane: a verified model

Sane in the Membrane shares document scanners over the network.  A server talks to libsane and streams a scan to
its clients over gRPC; the desktop program reassembles the stream into a file, keeps scanned pages in an editable
strip, saves the strip as a session and exports it as PDF.  This project models the parts in which those promises
are kept or lost, and proves what they keep:

- **The scan stream** (`SaneApi`, `DeviceModel`, `WrapperRuns`, `SaneDevice`, `MockHandle`, `ServerModel`, `ServerRuns`,
  `FilledRuns`, `FlowRuns`, `PastEnd`, `Races`, `ScanReactor`, `ReaderModel`, `ScanReader`, `Files`, `EndToEnd`).  A device
  is a libsane handle with an arbitrary script of read results that ends in end-of-file or in an error.  gRPC is an
  environment that completes or fails writes, cancels and says goodbye in any order it may.  A *run* is any sequence of
  those events.
- **Pages and sessions** (`Bytes`, `SessionModel`, `SessionStore`, `SessionSwitch`, `PagesModel`, `PageRuns`,
  `PageSession`, `ImageContainer`, `ImageView`).  Pages are kept in two orders, the layout the user sees and the
  manager's insertion order, and carry page numbers; sessions are length-framed bytes.
- **Transforms and PDF pages** (`Transforms`, `PdfModel`, `PageFill`, `PdfDocument`), over exact reals.
- **Smaller state machines** (`UniqueIds`, `ChannelWatcher`, `ScannerCache`, `Discovery`).

What the source updates in place is a class here; each of its methods is proved to compute a function of the old
state (`View() == ...`), and the properties are proved of those functions, over all runs.

## Findings

The following hold of the code as it is; each has a lemma that gives the failing input and, unless noted, one that
says exactly when the code does what was meant.

- *Reading after cancellation.*  `cancel` puts the device's state back to STARTED, so a write that completes after
  `OnCancel` makes the reactor read from a handle that libsane no longer considers started; a cancellation of a device
  that failed to open calls `sane_cancel` on a null handle (`FlowRuns.ReadAfterCancelHappens`,
  `CancelOfUnopenedHappens`).
- *Reading past the end.*  The read loop sends a full packet without looking at the status of the read that filled it.
  If that was the end of file, the next packet starts with a read past it (`PastEnd.UndisturbedFlowKeptExactly` says for
  which devices).  These three are the only ways in which a scan whose reactions do not overlap leaves the code flow of
  section 4.4 of the SANE Standard (`FlowRuns.FlowKeptUnlessMisused`).
- *A write after `Finish`.*  When gRPC delivers the completion of the last write before the thread that started it
  has reached its `Finish`, the other thread may read past the end of file and start one more, empty, packet after
  `Finish` (`Races.LateWriteHappens`, `LateWriteExactly`).  Everything else survives the race (`EveryRaceIsContained`).
- *Page numbers after a removal.*  `remove_image` renumbers by the manager's order.  Numbers stay right if and only if
  the first p items of the manager are, as a set, the first p pages displayed (`PagesModel.RemoveKeepsNumbers`).
  Some removals that break them let a later move use an item the layout does not have
  (`PageRuns.UnsafeRemovalCanCrash`; `RemovalAllowsCrash` says which).
- *Sessions never start.*  Saving is disabled at first and only a show that finds a loadable session enables it, so a
  program that starts without a session file never writes one (`SessionSwitch.SavingNeedsASession`,
  `NoSessionIsEverStarted`).
- *Showing again.*  A view that is shown while it still holds pages and restores a session adds the saved pages behind
  them with their old numbers (`PageSession.RestoreNeedsEmpty`).
- *Unchecked lengths.*  The session parser reads a length word without checking that eight bytes are left, and adds
  lengths to addresses that may overflow; the model has an outcome of its own for both (`SessionModel.CutAnywhere`,
  `DamageExactly`, `LengthDamaged` say exactly when).
- *Nothing announced.*  Progress divides by the announced size even when that is 0 (`EndToEnd.NothingAnnounced`,
  `ProgressExactly`).
- *Unknown heights.*  The 100 % product is right for 32-bit sizes unless exactly one of them is negative, as an unknown
  height of -1 is (`ReaderModel.HundredPercentNeverWraps`).

## Model

| member | source | states |
|---|---|---|
| ServerRuns.EveryRunIsSound | server/src/Reactors/ScanResponseReactor.cpp:30-135 | At every reachable state of every run: the parameters are sent first and once, every data packet but the last has 10240 to 12287 bytes and the last, if the status is OK, under 10240; exactly one write is outstanding until Finish, the base Finish is called at most once and no write follows it; the packets lose, double and reorder nothing, and only a failed read leaves bytes behind, under 10240 of them |
| ServerRuns.PacketsArePrefixOfScan | server/src/Reactors/ScanResponseReactor.cpp:30-78 | Whatever fails, the data packets sent so far spell a prefix of the device's bytes |
| ServerRuns.CompleteRunConserves | server/src/Reactors/ScanResponseReactor.cpp:49-78 | A run without cancellation and failed writes that reaches its end has exactly one status, the one its device determines; on OK the packets spell exactly the device's bytes, and when a read failed everything before the failure was read |
| ServerRuns.StatusNamesTheCause | server/src/Reactors/ScanResponseReactor.cpp:30-39 | On every run the status is UNKNOWN if and only if a write failed before the scan was over, and CANCELLED if and only if the device could not be opened, started or asked for its parameters |
| ServerRuns.StartSends | server/src/Reactors/ScanResponseReactor.cpp:102-125 | A scan starts either with the parameters as its one outstanding message or finished with CANCELLED and nothing sent; nothing has been taken from the device |
| ServerRuns.UndisturbedRunsStayOnCourse | server/src/Reactors/ScanResponseReactor.cpp:49-78 | Without cancellation and failed writes every read meets an open, started handle, and the status can only be the device's verdict |
| ServerRuns.CompletionsAreBounded | server/src/Reactors/ScanResponseReactor.cpp:49-78 | The writes a run can complete are bounded by what the device's script still holds |
| ServerRuns.PatienceDrops | server/src/Reactors/ScanResponseReactor.cpp:30-78 | Each completed write uses up some of that bound |
| ServerRuns.NoStall | server/src/Reactors/ScanResponseReactor.cpp:30-78 | In every reachable state a write is outstanding or the goodbye is due, never neither: no RPC stalls |
| ServerRuns.EveryScanCanComplete | server/src/Reactors/ScanResponseReactor.cpp:16-78 | Every run, also one that was cancelled or lost a write, can be continued by successful write completions and the goodbye alone until the reactor is gone |
| FilledRuns.PullIsExact | server/src/Reactors/ScanResponseReactor.cpp:53-75 | From a device that fills its 2048-byte buffer a full packet has exactly 10240 bytes |
| FilledRuns.RunsAreExact | server/src/Reactors/ScanResponseReactor.cpp:53-75 | That holds of all packets but the last at every state of every run |
| FilledRuns.PacketCount | server/src/Reactors/ScanResponseReactor.cpp:53-77 | Such a scan of N bytes takes N / 10240 full packets and a last one of N mod 10240 bytes |
| FilledRuns.MockPacketCount | sane_wrapper/mock/SaneMock.cpp:218-241 | In particular for the mock with N bytes, whose payload is N ones |
| ServerModel.PullKeepsTotal | server/src/Reactors/ScanResponseReactor.cpp:53-75 | The read loop changes nothing of the device but libsane's side; delivered plus remaining bytes stay the same |
| ServerModel.PullDelivers | server/src/Reactors/ScanResponseReactor.cpp:53-58 | What the read loop gathers is exactly what the device delivered meanwhile |
| ServerModel.PullBounds | server/src/Reactors/ScanResponseReactor.cpp:60-75 | A full packet has 10240 to 12287 bytes and uses up part of the script; otherwise fewer were gathered; at end of file nothing remains |
| ServerModel.PullEnding | server/src/Reactors/ScanResponseReactor.cpp:65-77 | Which of end-of-file and failure stops the loop is decided by the script, and a handle that is not started only by failure |
| ServerModel.PullBreaksLast | server/src/Reactors/ScanResponseReactor.cpp:53-75 | On a started device the loop meets a failure only when everything before it was read |
| ServerModel.PullFlow | server/src/Reactors/ScanResponseReactor.cpp:53-75 | The read loop calls nothing but read, and never again once a read of the loop has answered end of file |
| ServerModel.PullSeesEnd | server/src/Reactors/ScanResponseReactor.cpp:56-75 | The loop meets the end of file exactly when it uses the script up to its end, and still sends a full packet then only if bytes came with it |
| ServerModel.NextPacketSends | server/src/Reactors/ScanResponseReactor.cpp:49-78 | Fetching and sending a packet adds one message with exactly the fetched bytes, or finishes, or both |
| FlowRuns.FlowKeptUnlessMisused | sane_wrapper/src/SaneDevice.cpp:10-95 | On every run the calls to libsane follow the code flow of section 4.4 of the SANE Standard, in which no frame is read past its end, if and only if no device that failed to open is cancelled and no write completes successfully, while the scan is unfinished, after a cancellation or after the packets already hold everything up to a last chunk that came with the end of file; while they do, the mock's flags say the same as the flow, so its assertions cannot fire |
| FlowRuns.RunTracks | sane_wrapper/include/SaneDevice.hpp:36-45 | On every run, misused or not, the handle is null exactly when the state is CLOSED |
| FlowRuns.DeviceClosedWhenGone | server/src/Reactors/ScanResponseReactor.cpp:16-22 | However a run went, the device is closed and its handle released after OnDone |
| FlowRuns.ReadAfterCancelHappens | sane_wrapper/src/SaneDevice.cpp:88-95 | A cancellation followed by one completed write reads from a handle that is not started |
| FlowRuns.CancelOfUnopenedHappens | server/src/Reactors/ScanResponseReactor.cpp:24-28 | A cancellation of a busy device cancels a null handle |
| FlowRuns.StepTracks | server/src/Reactors/ScanResponseReactor.cpp:16-39 | Each event moves device, flags and flow together, and leaves the flow exactly when it is one of the three missteps |
| FlowRuns.EndSentIsTailTaken | server/src/Reactors/ScanResponseReactor.cpp:56-63 | The packets hold everything up to the last chunk exactly when the device has answered the end of file with it |
| FlowRuns.CallsKeepFlags | sane_wrapper/mock/SaneMock.cpp:158-249 | The mock's three flags follow the code flow through every call the flow allows, whoever makes it |
| PastEnd.UndisturbedFlowKeptExactly | server/src/Reactors/ScanResponseReactor.cpp:53-75 | A complete scan without cancellation or failed write reads past the end of the frame if and only if, cutting the device's reads into packets at 10240 bytes, the bytes that come with the end of file fill one |
| PastEnd.PullPredicts | server/src/Reactors/ScanResponseReactor.cpp:53-75 | Each packet leaves that question about the rest of the reads as it was, or settles it |
| PastEnd.EmptyTailNeverFills | server/src/Reactors/ScanResponseReactor.cpp:60-63 | An end of file that comes without bytes fills no packet, whatever was read before |
| PastEnd.LoneEndKeepsFlow | sane_wrapper/mock/SaneMock.cpp:233-240 | A complete undisturbed scan of a device that answers the end of file without bytes, as the mock does, follows the code flow from open to close |
| PastEnd.ReadPastEndHappens | server/src/Reactors/ScanResponseReactor.cpp:60-63 | Any other device of that kind has such a run |
| PastEnd.FiveReadsFill | server/src/Reactors/ScanResponseReactor.cpp:60-63 | Five full reads, the last with the end of file, are an instance |
| Races.EveryRaceIsContained | server/src/Reactors/ScanResponseReactor.cpp:30-78 | With reactions overlapping in any way: Finish at most once, at most one write outstanding, no stall, the packets a prefix of the device's bytes and all of them once the status is OK |
| Races.LateWriteExactly | server/src/Reactors/ScanResponseReactor.cpp:30-47 | A write follows Finish exactly on the interleavings in which a thread that saw the scan unfinished is overtaken by Finish before it reads |
| Races.LateWriteHappens | server/src/Reactors/ScanResponseReactor.cpp:68-77 | Five steps in which that happens, on an empty page |
| Races.SerialisedReaction | server/src/Reactors/ScanResponseReactor.cpp:30-39 | Cut reactions run without interruption are the serialised ones |
| Races.PrepareLoads | server/src/Reactors/ScanResponseReactor.cpp:49-75 | What a thread has done when it has written the last packet but not yet called Finish |
| EndToEnd.EveryStoryReassembles | gui-app/src/Readers/ScanResponseReader.cpp:30-69 | With server, network and client interleaved in any way, the client's file is the payload of the messages read so far, its running total is the file's size, it holds the device's parameters from the first message on, and once told the outcome it is ready for another scan |
| EndToEnd.FileIsPrefixOfScan | gui-app/src/Readers/ScanResponseReader.cpp:40-44 | Whatever fails, the client's file is a prefix of the device's bytes |
| EndToEnd.OkMeansComplete | gui-app/src/Readers/ScanResponseReader.cpp:54-63 | A client that is told OK holds exactly the device's bytes, in order, and the device's parameters |
| EndToEnd.ProgressExactly | gui-app/src/Readers/ScanResponseReader.cpp:30-52 | In every story each message read causes one signal after those of earlier scans; once there is one, the signals are percentages that never fall if and only if anything was announced, and moreover never pass 100 if and only if the file is no longer than announced |
| EndToEnd.ProgressClimbs | gui-app/src/Readers/ScanResponseReader.cpp:46-48 | So, if the device stays within what it announced, progress climbs to 100 at most if and only if it announced anything or nothing has been read |
| EndToEnd.NothingAnnounced | gui-app/src/Readers/ScanResponseReader.cpp:46-46 | A device that announces and delivers an empty page makes the first signal a division by zero |
| EndToEnd.OkMeansHundredPercent | gui-app/src/Readers/ScanResponseReader.cpp:46-48 | If the device delivers what it announced, a client that is told OK has been shown 100 percent last, or the result of the division by zero if that was nothing |
| EndToEnd.PercentIsMonotonic | gui-app/src/Readers/ScanResponseReader.cpp:46-46 | More bytes never show less progress, and more than 100 percent is shown exactly for more bytes than announced |
| ReaderModel.HundredPercentIsAnnounced | gui-app/src/Readers/ScanResponseReader.cpp:36-37 | The 100 % product equals the announced number of bytes modulo 2^64 |
| ReaderModel.AnnouncedIs | gui-app/src/Readers/ScanResponseReader.cpp:36-37 | Announced are the bytes per line times the lines for a grey or RGB page, three times that for any other format |
| ReaderModel.HundredPercentNeverWraps | gui-app/src/Readers/ScanResponseReader.cpp:36-37 | For 32-bit sizes it equals it outright if and only if width in bytes times height is not negative |
| ScanReader.CScanResponseReader.Scan | gui-app/src/Readers/ScanResponseReader.cpp:14-29 | A scan starts in a file of its own, so one handed over before is never written again; a second request during a scan changes nothing |
| ScanReader.CScanResponseReader.OnReadDone | gui-app/src/Readers/ScanResponseReader.cpp:30-52 | Refines the reader's step: parameters before data, the data appended, one progress signal; a failed read changes nothing |
| ScanReader.CScanResponseReader.OnDone | gui-app/src/Readers/ScanResponseReader.cpp:54-69 | Hands over the current file and makes the reader ready for the next scan |
| ScanReactor.CScanResponseReactor.constructor | server/src/Reactors/ScanResponseReactor.cpp:7-12 | The reactor in place starts as the state machine does |
| ScanReactor.CScanResponseReactor.StartScan | server/src/Reactors/ScanResponseReactor.cpp:102-125 | Refines the start of a scan, with its three early exits |
| ScanReactor.CScanResponseReactor.ResetResponse | server/src/Reactors/ScanResponseReactor.cpp:92-100 | Only the scanner's name survives in the response |
| ScanReactor.CScanResponseReactor.WriteResponse | server/src/Reactors/ScanResponseReactor.cpp:41-47 | Refines the sending of the gathered bytes |
| ScanReactor.CScanResponseReactor.NextPacket | server/src/Reactors/ScanResponseReactor.cpp:49-78 | The read loop over the shared buffer, refined to the recursive read of the state machine; terminates with the device's script as measure |
| ScanReactor.CScanResponseReactor.Finish | server/src/Reactors/ScanResponseReactor.cpp:127-135 | Only the first call reaches the base class |
| ScanReactor.CScanResponseReactor.OnWriteDone | server/src/Reactors/ScanResponseReactor.cpp:30-39 | Refines the reaction to a completed or failed write |
| ScanReactor.CScanResponseReactor.OnCancel | server/src/Reactors/ScanResponseReactor.cpp:24-28 | Refines the reaction to a cancellation: only the device changes |
| ScanReactor.CScanResponseReactor.OnDone | server/src/Reactors/ScanResponseReactor.cpp:16-22 | Refines the goodbye |
| WrapperRuns.EveryUseIsInOrder | sane_wrapper/src/SaneDevice.cpp:10-95 | Over any sequence of the device's operations: libsane is started only on an opened handle, read only on a started one, closed only right after a cancellation and given a null handle only to cancel; the handle is null exactly in state CLOSED |
| WrapperRuns.RefusalsChangeNothing | sane_wrapper/include/SaneDevice.hpp:36-45 | An operation the state forbids is refused with INVAL and changes nothing |
| WrapperRuns.AllowedUsesReachLibsane | sane_wrapper/src/SaneDevice.cpp:10-95 | One the state allows makes exactly its calls and passes the answer on |
| SaneDevice.CSaneDevice.Open | sane_wrapper/src/SaneDevice.cpp:10-18 | Refines opening: a handle and OPENED exactly on success |
| SaneDevice.CSaneDevice.Start | sane_wrapper/src/SaneDevice.cpp:70-82 | Refines starting: INVAL and no call without a handle in state OPENED |
| SaneDevice.CSaneDevice.RefreshParameters | sane_wrapper/src/SaneDevice.cpp:62-68 | Refines the request for parameters |
| SaneDevice.CSaneDevice.Read | sane_wrapper/include/SaneDevice.hpp:36-45 | The guarded read into the caller's buffer delivers exactly libsane's bytes at its front |
| SaneDevice.CSaneDevice.Cancel | sane_wrapper/src/SaneDevice.cpp:88-95 | Refines cancellation: libsane stops, the state is as before |
| SaneDevice.CSaneDevice.Close | sane_wrapper/src/SaneDevice.cpp:20-34 | Refines closing: cancel, close, no handle; nothing without one |
| SaneApi.SaneRead | sane_wrapper/mock/SaneMock.cpp:218-241 | What a read of a started handle returns plus what remains afterwards is what remained before |
| SaneApi.FlowOfAppend | sane_wrapper/mock/SaneMock.cpp:158-249 | The code flow of a longer history is one step from that of the shorter |
| MockHandle.MockChunks | sane_wrapper/mock/SaneMock.cpp:218-241 | The mock's reads are full buffers of ones and a rest, in all as many bytes as it was given |
| MockHandle.CMockHandle.Read | sane_wrapper/mock/SaneMock.cpp:218-241 | The mock's byte counter refines the scripted device, under the mock's own assertion |
| MockHandle.CMockHandle.Close | sane_wrapper/mock/SaneMock.cpp:176-183 | So does closing, under the assertion that cancel came before |
| MockHandle.CMockHandle.Open | sane_wrapper/mock/SaneMock.cpp:158-174 | Opening the mock refines opening the scripted device |
| MockHandle.CMockHandle.Start | sane_wrapper/mock/SaneMock.cpp:207-216 | Starting the mock clears a cancellation, as in the scripted device |
| MockHandle.CMockHandle.Cancel | sane_wrapper/mock/SaneMock.cpp:243-249 | Cancelling the mock stops it, as in the scripted device |
| Files.CFile.Write | gui-app/src/Utils/File.cpp:14-18 | Appends, and keeps the size equal to the contents' length |
| Files.CFileRW.Write | gui-app/src/Utils/File.cpp:52-56 | Replaces whatever was there |
| Files.CFileRW.Append | gui-app/src/Utils/File.cpp:58-62 | Appends, creating the file if need be |
| Files.CFileRW.Read | gui-app/src/Utils/File.cpp:64-70 | Returns the whole contents, nothing for a missing file |
| Bytes.WordRoundTrip | gui-app/src/Ui/ImageView.cpp:48-66 | Eight bytes at any place are the encoding of a word below 2^64 if and only if that word is read there |
| SessionModel.ParseEncoded | gui-app/src/Ui/ImageView.cpp:422-459 | Parsing what was printed gives the list back, for all lists and at any address |
| SessionModel.EncodingIsInjective | gui-app/src/Ui/ImageView.cpp:422-436 | Different page lists print differently |
| SessionModel.DecodeEncoded | gui-app/src/Ui/ImageView.cpp:48-102 | One page's bytes decode to that page |
| SessionModel.ParseFrame | gui-app/src/Ui/ImageView.cpp:443-456 | The parser takes one frame off the front whatever its body holds |
| SessionModel.ParseAfterFrames | gui-app/src/Ui/ImageView.cpp:438-459 | Intact frames in front are parsed as they are whatever follows |
| SessionModel.DamageExactly | gui-app/src/Ui/ImageView.cpp:438-459 | One page's bytes overwritten, but not its length, anywhere in a session: the other pages are all parsed, in order; the damaged page is left out if it is too short for the path length it now holds, and otherwise stands in its place as its bytes describe it; only a length leading out of the address space is undefined |
| SessionModel.DamageIsContained | gui-app/src/Ui/ImageView.cpp:438-459 | What the damaged body decodes to concerns that page only |
| SessionModel.DecodeCases | gui-app/src/Ui/ImageView.cpp:68-102 | What any bytes decode to, by their number and the path length they hold |
| SessionModel.LengthDamaged | gui-app/src/Ui/ImageView.cpp:443-449 | A length word that claims more than there is loses the whole session, whatever pages stand before it: refused, or undefined when it leads out of the address space |
| SessionModel.DamagedPage | gui-app/src/Ui/ImageView.cpp:68-102 | Which of the three it is, from the damaged path length: the page survives if and only if the length does not exceed the room there was |
| SessionModel.CutAnywhere | gui-app/src/Ui/ImageView.cpp:438-459 | What data cut off after any number of bytes parse to: pages, a rejection, or an unchecked read |
| SessionModel.CutAtBoundary | gui-app/src/Ui/ImageView.cpp:448-456 | A cut yields pages if and only if it falls between two of them, and then all pages before it |
| SessionModel.ParsedFits | gui-app/src/Ui/ImageView.cpp:438-459 | Pages parsed from any bytes can be printed again, in no more bytes |
| SessionModel.LoadExactly | gui-app/src/Service/SessionService.cpp:16-46 | Of any file: refused if and only if it has under 16 bytes or its first word is not the version; otherwise everything from byte 16 on is loaded, whatever length it claims |
| SessionModel.HeaderWords | gui-app/src/Service/SessionService.cpp:9-35 | A saved file holds the version, the length of the data and the data |
| SessionModel.LoadSaved | gui-app/src/Service/SessionService.cpp:9-46 | A saved session loads to the bytes saved |
| SessionModel.LoadTorn | gui-app/src/Service/SessionService.cpp:16-33 | A save interrupted inside the header is refused; after it, the bytes written so far load, since the stored length is not compared |
| SessionModel.TornSession | gui-app/src/Service/SessionService.cpp:9-33 | So an interrupted save parses to what a cut does |
| SessionStore.Memcpy | gui-app/src/Ui/ImageView.cpp:54-63 | A copy replaces exactly its own range |
| SessionStore.Serialize | gui-app/src/Ui/ImageView.cpp:48-66 | Four copies at an advancing position produce the page's encoding |
| SessionStore.SerializeItems | gui-app/src/Ui/ImageView.cpp:422-436 | The growing buffer ends as the encoding of all pages |
| SessionStore.DeserializeItems | gui-app/src/Ui/ImageView.cpp:438-459 | The loop computes the parser's outcome on every input and ends, each turn consuming at least eight bytes |
| SessionStore.CSessionService.SaveSession | gui-app/src/Service/SessionService.cpp:9-14 | The file becomes header and data, whatever it was |
| SessionStore.CSessionService.LoadSession | gui-app/src/Service/SessionService.cpp:16-46 | Loads, or says that the file, the header or the version is wrong |
| SessionStore.CSessionService.RemoveSession | gui-app/src/Service/SessionService.cpp:48-50 | Afterwards no session is found |
| SessionSwitch.SavingNeedsASession | gui-app/src/Ui/ImageView.cpp:461-502 | Over every life of the view, saving becomes enabled if and only if a show finds the initial session file and can load it; otherwise the file is never written |
| SessionSwitch.NoSessionIsEverStarted | gui-app/src/Ui/ImageView.hpp:203-203 | Without a session file at the start there is never one |
| SessionSwitch.ChangesReachTheFile | gui-app/src/Ui/ImageView.cpp:496-502 | Once a session was found, every change of the pages reaches the file: loading and parsing it gives these pages, at once and until the next change or export |
| SessionSwitch.ExportsRemoveTheFile | gui-app/src/Ui/ImageView.cpp:360-363 | After an export there is no session until the next change |
| PagesModel.AddKeeps | gui-app/src/Ui/ImageView.cpp:235-254 | Adding keeps both orders the same items, and the numbering exactly if the item gets the next number |
| PagesModel.RemoveKeepsItems | gui-app/src/Ui/ImageView.cpp:256-263 | Removing takes the item from both orders and nothing else |
| PagesModel.RemoveExactly | gui-app/src/Ui/ImageView.cpp:256-263 | Of any document: removing an item numbered p takes it out of both orders and takes one, modulo 2^64, from the numbers of exactly the items that come after the first p of the manager |
| PagesModel.RemoveKeepsNumbers | gui-app/src/Ui/ImageView.cpp:256-263 | Removing page p keeps pages numbered as displayed if and only if the first p manager entries are, as a set, the first p displayed |
| PageRuns.InsertAdjacent | gui-app/src/Ui/ImageView.cpp:289-290 | The two insertions of a move exchange two neighbours and disturb no other page |
| PageRuns.RightMoves | gui-app/src/Ui/ImageView.cpp:265-291 | Of any document, a move to the right of page p exchanges the pages at positions p and p + 1, numbers included, if p is a position before the last, and else changes nothing |
| PageRuns.LeftMoves | gui-app/src/Ui/ImageView.cpp:265-291 | A move to the left of page p exchanges the pages at positions p - 1 and p if p is a position after the first, uses a null item if p is one past the last, and else changes nothing |
| PageRuns.MoveExchanges | gui-app/src/Ui/ImageView.cpp:277-290 | A move that has a page to exchange with exchanges two neighbours and their numbers, whatever the numbers are |
| PageRuns.MoveKeepsItems | gui-app/src/Ui/ImageView.cpp:265-291 | Moves keep the items |
| PageRuns.MoveKeepsNumbers | gui-app/src/Ui/ImageView.cpp:265-291 | In a numbered document a move finds its item, goes past its neighbour and keeps the numbering, and past either end does nothing |
| PageRuns.EditedKeepsItems | gui-app/src/Ui/ImageView.cpp:214-291 | On every run of edits layout and manager hold the same items, each once |
| PageRuns.NumberedExactlyOnSafeRuns | gui-app/src/Ui/ImageView.cpp:235-291 | Pages stay numbered as displayed throughout a run if and only if each of its removals meets the condition above |
| PageRuns.SafeRunsDoNotCrash | gui-app/src/Ui/ImageView.cpp:280-281 | On such runs a move never uses a null item |
| PageRuns.CrashExactly | gui-app/src/Ui/ImageView.cpp:265-281 | Of any document, numbered or not: some move uses a null item if and only if there are pages and an item is numbered one past the last position |
| PageRuns.RemovalAllowsCrash | gui-app/src/Ui/ImageView.cpp:256-281 | Removing page p of a numbered document opens the way to such a move if and only if p is not the last page and the last page displayed is among the first p items of the manager |
| PageRuns.WithoutMovesAlwaysInStep | gui-app/src/Ui/ImageView.cpp:235-263 | After a restore, additions and removals alone keep the two orders equal and the pages numbered |
| PageRuns.UnsafeRemovalCanCrash | gui-app/src/Ui/ImageView.cpp:256-291 | Of two pages: move the second to the front, remove it, move the other left, and a null item is used |
| PageSession.StrictSortIsUnique | gui-app/src/Ui/ImageView.cpp:480-481 | Records with different numbers have one sorted order only, so the sort need not be stable |
| PageSession.RecordsOfPermutation | gui-app/src/Ui/ImageView.cpp:422-436 | Manager order and layout order save the same pages |
| PageSession.SortRecoversDisplay | gui-app/src/Ui/ImageView.cpp:480-481 | Sorting the saved pages by number gives the displayed order back, whatever moves parted the two |
| PageSession.EverySortYields | gui-app/src/Ui/ImageView.cpp:480-481 | All sorts by page number yield one wanted list if and only if that is ascending and records with equal numbers in it are equal |
| PageSession.SortRecoversDisplayExactly | gui-app/src/Ui/ImageView.cpp:422-481 | Of any document, also after an unsafe removal: every sort of the saved pages is the display if and only if numbers do not fall along the layout and pages with the same number look the same |
| PageSession.SortExists | gui-app/src/Ui/ImageView.cpp:480-481 | Every list of records can be sorted |
| PageSession.AddAllJoins | gui-app/src/Ui/ImageView.cpp:249-254 | Restored pages stand behind the others in both orders, with their saved numbers |
| PageSession.RestoreContinues | gui-app/src/Ui/ImageView.cpp:486-487 | Restoring keeps the numbering if and only if the saved numbers follow the last page |
| PageSession.RestoreNeedsEmpty | gui-app/src/Ui/ImageView.cpp:461-494 | So a numbered session restores to a numbered document if and only if no pages were there |
| PageSession.NumberedRecordsRestore | gui-app/src/Ui/ImageView.cpp:486-487 | In an empty container, numbered records restore to a document that displays them, with both orders equal |
| PageSession.SavedSessionLoads | gui-app/src/Ui/ImageView.cpp:464-470 | A saved session loads and parses to the records saved |
| PageSession.SessionRoundTrip | gui-app/src/Ui/ImageView.cpp:422-502 | Saving, loading, parsing, sorting and adding to an empty container displays the same pages, path and transform, in the same order, numbered 1 to n, with the manager's order equal to the layout's |
| ImageContainer.ImageItemContainer.AddImage | gui-app/src/Ui/ImageView.cpp:235-247 | Refines adding, with the next number |
| ImageContainer.ImageItemContainer.AddSerialized | gui-app/src/Ui/ImageView.cpp:249-254 | Refines adding, with the saved number |
| ImageContainer.ImageItemContainer.RemoveImage | gui-app/src/Ui/ImageView.cpp:256-263 | Refines removal, renumbering the items in place |
| ImageContainer.ImageItemContainer.Renumber | gui-app/src/Ui/ImageView.cpp:260-260 | Each of the later items loses one from its number, once |
| ImageContainer.ImageItemContainer.MoveImage | gui-app/src/Ui/ImageView.cpp:265-291 | Refines a move, and says when one of the two items it looks up is null |
| ImageView.SortByPage | gui-app/src/Ui/ImageView.cpp:480-481 | Returns the same records in ascending order of page number, and promises no more |
| ImageView.CImageView.PagesAreSaved | gui-app/src/Ui/ImageView.cpp:422-426 | What the view serialises are the manager's pages as they look now |
| ImageView.CImageView.SaveSession | gui-app/src/Ui/ImageView.cpp:496-502 | The file holds the encoding of the current pages, or is untouched while saving is disabled |
| ImageView.CImageView.AddImage | gui-app/src/Ui/ImageView.cpp:365-383 | A new page is in the view and, with saving enabled, in the session |
| ImageView.CImageView.AddSerialized | gui-app/src/Ui/ImageView.cpp:370-383 | So is a restored one |
| ImageView.CImageView.Show | gui-app/src/Ui/ImageView.cpp:461-494 | Which pages a show adds, in what order and with what numbers; file and switch afterwards are the switch's reaction to the show, then to the pages added |
| ImageView.FileAfterShow | gui-app/src/Ui/ImageView.cpp:461-502 | After a show the file holds the pages if some were added while saving was enabled, and else what it held; saving is enabled if it was, or if the file loads |
| ImageView.CImageView.RemoveSession | gui-app/src/Ui/ImageView.cpp:360-363 | Refines the switch's reaction to an export |
| SessionSwitch.ChangesOverwrite | gui-app/src/Ui/ImageView.cpp:496-502 | Of several saves the last counts |
| Transforms.PressIsPremultiplication | gui-app/src/Ui/ImageView.cpp:111-126 | Each button multiplies its elementary matrix in front |
| Transforms.PressesKeepSignedPermutation | gui-app/src/Ui/ImageView.cpp:110-126 | After any presses the matrix is one of the eight signed permutations; it exchanges width and height exactly after an odd number of rotations and turns the page over exactly after an odd number of mirrorings |
| Transforms.FlipsIsNegativeDeterminant | gui-app/src/Ui/ImageView.cpp:195-204 | Turned over means determinant -1 |
| Transforms.PressesHaveNormalForm | gui-app/src/Ui/ImageView.cpp:110-126 | Any presses amount to some quarter turns, after a mirroring if their number is odd |
| Transforms.EverySignedPermutationIsReached | gui-app/src/Ui/ImageView.cpp:110-126 | All eight matrices are reached |
| Transforms.ItemTransform.RotateLeftClicked | gui-app/src/Ui/ImageView.cpp:111-115 | The item's matrix is always that of its presses so far |
| Transforms.ItemTransform.RotateRightClicked | gui-app/src/Ui/ImageView.cpp:117-121 | The same |
| Transforms.ItemTransform.MirrorClicked | gui-app/src/Ui/ImageView.cpp:122-126 | The same |
| PdfModel.PageHoldsImage | gui-app/src/Utils/Pdf/Pdf.cpp:36-55 | For every real matrix every point of the image, interior included, lies on the page |
| PdfModel.PageIsTight | gui-app/src/Utils/Pdf/Pdf.cpp:44-55 | Each of the page's four edges is touched by a corner of the image |
| PdfModel.PageShowsPreview | gui-app/src/Utils/Pdf/Pdf.cpp:35-55 | For every real matrix the page has the preview's size and shows each pixel where the preview does: negating b and c turns Qt's downward picture into PDF's upward one |
| PageFill.FillsExactlyWhenStraight | gui-app/src/Utils/Pdf/Pdf.cpp:44-55 | Under an invertible matrix the image fills its page if and only if the matrix only scales or exchanges the axes |
| PageFill.PagePointsAreDistinct | gui-app/src/Utils/Pdf/Pdf.cpp:36-55 | Under an invertible matrix no page point shows two image points |
| PageFill.PressedPageIsFilled | gui-app/src/Utils/Pdf/Pdf.cpp:32-61 | After any presses the page has the image's size, sideways after an odd number of rotations, and shows each image point exactly once and nothing blank |
| PageFill.SignedPageSize | gui-app/src/Utils/Pdf/Pdf.cpp:52-53 | The same sizes for each of the eight matrices |
| PdfDocument.Extremes | gui-app/src/Utils/Pdf/Pdf.cpp:41-50 | Least and greatest over the corners found by scanning the array |
| PdfDocument.PlacedShowsPreview | gui-app/src/Utils/Pdf/Pdf.cpp:35-55 | A placed image shows the whole preview, whatever the matrix |
| PdfDocument.MinElement | gui-app/src/Utils/Pdf/Pdf.cpp:47-48 | An element that none is below |
| PdfDocument.MaxElement | gui-app/src/Utils/Pdf/Pdf.cpp:49-50 | An element that none is above |
| PdfDocument.CPdf.AddImage | gui-app/src/Utils/Pdf/Pdf.cpp:22-64 | Adds exactly one page, or none if libharu has none: with a matrix it has the size of the preview and shows every pixel where the preview does, without one it has the size of the image and shows it as it is, and without an image it is blank |
| UniqueIds.FieldsFillTheWord | gui-app/src/Service/UniqueIdGenerator.hpp:10-19 | The three fields overlap nowhere and leave no bit out: each is read back, and every word is made of its fields |
| UniqueIds.SameWordSameFields | gui-app/src/Service/UniqueIdGenerator.cpp:20-26 | Equal ids have equal fields |
| UniqueIds.CollisionsOfOneThread | gui-app/src/Service/UniqueIdGenerator.cpp:12-27 | Ids i and j of a thread collide if and only if their ticks agree in 44 bits and i and j modulo 4096, also across the counter's wrap |
| UniqueIds.ConsecutiveIdsDiffer | gui-app/src/Service/UniqueIdGenerator.cpp:17-26 | Any 4096 consecutive ids of a thread differ, whatever the clock does |
| UniqueIds.ThreadsDoNotCollide | gui-app/src/Service/UniqueIdGenerator.cpp:24-24 | Threads whose hashes differ in the low eight bits never share an id |
| UniqueIds.UniqueIdGenerator.Id | gui-app/src/Service/UniqueIdGenerator.cpp:12-27 | The n-th call returns the n-th id of the thread's stream |
| UniqueIds.UniqueIdGenerator.Assemble | gui-app/src/Service/UniqueIdGenerator.cpp:20-26 | Or-ing the fields in one by one packs them |
| ChannelWatcher.WatcherDoesWhatIsDue | gui-app/src/Service/ChannelStateChangeService.cpp:52-86 | For every sequence of observed states the outputs are those called for by the observations alone: a discovery for each of the first five failures since the channel was last up, the stop signal with the fifth, a report for each change |
| ChannelWatcher.ReportsAreChanges | gui-app/src/Service/ChannelStateChangeService.cpp:74-84 | The reported states are the observations without consecutive repeats, starting from IDLE |
| ChannelWatcher.DiscoveriesAreBounded | gui-app/src/Service/ChannelStateChangeService.cpp:65-80 | At most five discoveries happen between reports of IDLE or READY, and the counter counts them |
| ChannelWatcher.CChangeStateWatcher.PollOnce | gui-app/src/Service/ChannelStateChangeService.cpp:60-84 | One turn of the loop extends the observed sequence by one |
| ChannelWatcher.CChangeStateWatcher.StartImpl | gui-app/src/Service/ChannelStateChangeService.cpp:52-86 | The loop's outputs are what is due |
| ScannerCache.EnumerationsStayApart | server/src/Service/ScannerService.cpp:12-40 | Over any requests at any times each enumeration begins more than 30 seconds after the one before it was noted |
| ScannerCache.AnyTwoApart | server/src/Service/ScannerService.cpp:12-14 | So any two are, if the clock does not run backwards during one |
| ScannerCache.RefreshWhenDue | server/src/Service/ScannerService.cpp:29-40 | After any requests, a refresh enumerates if and only if the clock is more than 30 seconds past the end of the last enumeration, and then the cache holds what was listed, nothing if SANE failed |
| ScannerCache.ListingWhenDue | server/src/Service/ScannerService.cpp:44-50 | Asking for the scanners enumerates if and only if that is so and none are known |
| ScannerCache.LatestIsLastListing | server/src/Service/ScannerService.cpp:29-94 | What is known after any requests is what was listed at the last of them that enumerated |
| ScannerCache.CScannerService.RefreshDevices | server/src/Service/ScannerService.cpp:29-40 | Enumerates if and only if it is due, and then knows what was listed; every device object with a raw pointer belongs to the current generation, also those scans still hold |
| ScannerCache.CScannerService.FindDevice | server/src/Service/ScannerService.cpp:16-27 | Null if and only if the latest enumeration has no device of that name; otherwise the first that has |
| ScannerCache.CScannerService.GetScanners | server/src/Service/ScannerService.cpp:44-72 | Lists exactly the latest enumeration with all details, enumerating only from an empty cache |
| ScannerCache.CScannerService.Scan | server/src/Service/ScannerService.cpp:74-86 | A scan takes hold of a listed device of that name, or of none |
| ScannerCache.CScannerService.Serve | server/src/Service/ScannerService.cpp:29-94 | Any requests leave the cache valid and as the requests determine |
| ScannerCache.CSane.GetDevices | sane_wrapper/src/Sane.cpp:34-63 | Clears every raw pointer handed out before, and returns one new object for each enumerated device, of the new generation (section 4.3.3 of the SANE Standard) |
| ScannerCache.CSane.ClearAll | sane_wrapper/src/Sane.cpp:35-37 | No old device keeps its raw pointer |
| Discovery.ResultsArePairs | gui-app/src/Utils/mDNS/mDns.cpp:334-357 | Over any records the results are those of cutting the SRV and A records at each first occurrence of both kinds and pairing the two at the cut |
| Discovery.OthersDoNotMatter | gui-app/src/Utils/mDNS/mDns.cpp:344-356 | Deleting AAAA and other records leaves the results unchanged |
| Discovery.NeverBothPending | gui-app/src/Utils/mDNS/mDns.cpp:39-53 | A port and an IPv4 address are never pending together |
| Discovery.RecordsOfResults | gui-app/src/Utils/mDNS/mDns.cpp:334-357 | Over any records, each result is made of one SRV and one A record, each the latest of its kind at that moment and behind the records of the result before; what is pending is the latest unused record of its kind |
| Discovery.EachRecordUsedOnce | gui-app/src/Utils/mDNS/mDns.cpp:39-75 | No record makes two results |
| Discovery.PairsAreFew | gui-app/src/Utils/mDNS/mDns.cpp:39-75 | There are no more results than SRV records and no more than A records |
| Discovery.CMDns.BuildIpv4 | gui-app/src/Utils/mDNS/mDns.cpp:39-53 | A result if and only if both are pending, and then nothing stays pending |
| Discovery.CMDns.QueryCallback | gui-app/src/Utils/mDNS/mDns.cpp:334-357 | Refines the fold's step |

## Left out

- Reads that race with `cancel`, and two reactors on one device: the code excludes neither; the model has one reactor to a device and runs `OnCancel` between reactions.
- gRPC, protobuf, libharu, Qt, the mDNS parser and SANE backends: kept as small interfaces. Of gRPC it is assumed that messages arrive in order and that a client is told OK only after the server finished with OK and all messages were read.
- A conforming backend's answer to a read of a handle that is not started (CANCELLED) stands in for the mock's assertion, so that runs can go on after the misstep is recorded.
- `sane_open` of a name the mock does not know dereferences null before its own check; the model's devices exist, and may fail to open with any status.
- Option descriptors, `set_io_mode`, `print_info`, status strings and logging.
- Reader state between scans: the parameters of the previous scan stay until new ones arrive, as in the source; the window between clearing the in-progress flag and `sig_done` is not split.
- 64-bit wrap-around of byte totals and file sizes: no scan has 2^64 bytes.
- `SImageItemSerialized::size()`: it counts `sizeof(path)` and is not the encoded length.
- The nine matrix doubles are opaque words in the codec; the geometry of the four that matter is modelled apart, over exact reals, without floating-point rounding. The matrix's x and y are always 0 and `add_image` ignores them.
- The JPEG conversion of a finished scan and the size check before it.
- The order of pages in the PDF: export follows the manager's order, and nothing is claimed about it after a move.
- The view's slots for removing, moving and transforming a page: each calls the container or changes the item, both modelled, and then saves as the modelled additions do.
- Compression and error settings of the PDF builder.
- Real filesystem failures: a file is a byte sequence, and a write either happens whole or is cut off (`SessionModel.TornSession`).
- The watcher's thread, its interval and its stop flag; discovery itself is an output.
- Locks around the device list, and requests that overlap: requests are served one at a time.
- The value of a thread's hash, which the runtime supplies.
- Start-up and shutdown threads, sockets, IPC, OCR, the service controller and Avahi.
- What the program does after it has used a null item: `MoveImage` reports it and changes nothing.
- MockHandle.CMockHandle.Read: requires a started handle, which the mock asserts.
