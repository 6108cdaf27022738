# DeployCore: verified models of the streaming agent, the provisioning backend and their protocols

DeployCore provisions Windows machines and lets an operator watch and control them from a browser.
This project models the parts of it whose correctness is hardest to see by reading, one module a
component, and proves what they promise. Code that changes state is modelled by classes, loops and
arrays, each proved against a specification function; the theorems are about those functions, over
every input, every run or every reachable state.

| module | what it models |
|---|---|
| `AnnexB` | the splitter that cuts a growing H.264 byte stream into NAL units (ITU-T H.264, section B.1) |
| `AccessUnits` | grouping NAL units into access units, printing them, counting what was sent |
| `DesktopTracking` | the two-process protocol that follows the desktop receiving input |
| `ControlChannel` | many RDP byte streams multiplexed over the agent's control channel |
| `Deployment` | the deployment state machine, its history and its two kinds of retry |
| `WinRm`, `Base64`, `Utf8` | carrying long scripts to a guest in pieces; running one as a scheduled SYSTEM task (RFC 4648 section 4, RFC 3629 sections 3 and 4) |
| `Guacamole` | guacd's instruction codec and the opening handshake (Apache Guacamole manual, "The Guacamole protocol") |
| `Csv` | the CSV export against RFC 4180 section 2 |
| `Coordinates` | mouse coordinates, with 64-bit wrap-around and truncating division |
| `DisplayModes` | choosing and restoring a display mode |
| `Ico` | the layout of the tray icon's file |

Every remote or foreign answer - a WinRM call, the peer connection's state, the local RDP listener,
a driver accepting a mode, a drawn image - is a parameter, so theorems hold whatever the answers are.

## What the proofs turned up

- **A Guacamole part that is not ASCII does not come back.** `_encode_instruction` counts characters, as
  the protocol says, and so is right for all parts (`PrinterConforms`); `_read_instruction` counts bytes,
  and reads an instruction back exactly when every part is ASCII (`InstructionRoundTrip`, `StreamRoundTrip`).
- **A long script arrives intact exactly when no 1350-byte cut falls inside a UTF-8 sequence** (`ScriptArrives`):
  each piece is turned into text on its own by the guest, whatever its decoder puts for ill-formed bytes.
- **Removing a long script's temporary file can hide its result** (`RemovalCanMaskResult`): an exception there
  replaces the result of a script that ran. The clean-up of a scheduled SYSTEM task cannot (`CleanUpCannotChangeVerdict`).
- **`_fail` drops installed machines in three situations** (`MachineKeptExactly`, with a run for each): on a
  completed deployment - which happens when a notification sent after completion raises (provision.py:1475-1493) -
  on one that has already failed, and when a post-install retry fails before it is past `installing_os`
  (provision.py:888-889, 922, 991). README.md:1448-1459 of the repository says that it only deletes the machine for
  a failure before `post_install`, when there is no installed machine to keep.
- **An id may be started again exactly when no earlier tunnel of that id is still pumping** (`ReuseIsSafeExactly`):
  the end of an old tunnel's pump unregisters by id, and would take the newer tunnel off the table, open and
  unreachable (`ReusedIdStrandsNewTunnel`). Ids that are never used twice meet the condition (`FreshIdsSettle`).
- **What a tunnel reads can be lost in silence** (`PumpsLoseNothingExactly`): a chunk read when the channel's socket is
  already gone, but its tunnels are not yet torn down, or one whose send throws, is dropped and the pump goes on.
- **Desktop tracking does converge, but not for a desktop with an empty name** (`QuiescentMeansOnTarget`):
  the service ignores such a report.
- **A CSV export reads back exactly when no header name needs quoting** (`ExportReadsBack`): the cells are escaped,
  the header row is not. A reader that also ends records at CRLF, as RFC 4180 has it, moreover takes the carriage
  return off a row whose last field is printed as it is and ends in one.
- **Absolute mouse coordinates keep pixels apart exactly up to 65536 of them** (`SameSizeIsFaithful`), and go to the
  right edge, and keep their order, outside the picture exactly up to 65537 (`EdgesAndOrderKeptExactly`): from 65538
  on the unchecked 64-bit product wraps for some coordinate.

## Model

| member | source | states |
|---|---|---|
| AnnexB.NalSplitter.FindStartCode | remote-agent/agent/ShadowSession.cs:1078-1088 | the leftmost 3- or 4-byte start code at or after an index, with its length, or that there is none |
| AnnexB.NalSplitter.Append | remote-agent/agent/ShadowSession.cs:1053-1076 | rescanning and trimming the buffer ends, and yields exactly the units, and leaves exactly the remainder, that one scan of old buffer plus new data gives |
| AnnexB.CutsUnique | remote-agent/agent/ShadowSession.cs:1058-1073 | the one-pass scan finds the only list of start codes in order, not overlapping, with no code in any gap: a code list is the scan's if and only if it is that |
| AnnexB.CodesExtend | remote-agent/agent/ShadowSession.cs:1060-1065 | a start code found stays found whatever arrives later, so one cut by a read is neither missed nor misread |
| AnnexB.SplitIncrementally | remote-agent/agent/ShadowSession.cs:1053-1076 | splitting read by read gives the units and the remainder of splitting all bytes at once |
| AnnexB.SplitIsLossless | remote-agent/agent/ShadowSession.cs:1063-1072 | leading bytes, then each unit behind its own start code, then the remainder are the input again |
| AnnexB.EmittedClean | remote-agent/agent/ShadowSession.cs:1067-1070 | whatever the bytes, no unit cut out contains 00 00 01 (H.264 section 7.4.1) |
| AnnexB.SerialiseRoundTrip | remote-agent/agent/ShadowSession.cs:958-971 | feeding printed units to an empty splitter returns all but the last, which waits behind its code, if and only if no unit contains 00 00 01; empty units and trailing zeros survive |
| AccessUnits.Print | remote-agent/agent/ShadowSession.cs:958-971 | the array filled at a running offset is the Annex-B form of the units, with no byte to spare |
| AccessUnits.VideoPath.FlushAccessUnit | remote-agent/agent/ShadowSession.cs:954-1005 | pending units become one closed access unit, the flag is cleared, and exactly one of sent, dropped, failed happens with its own counters |
| AccessUnits.VideoPath.TailCapture | remote-agent/agent/ShadowSession.cs:853-940 | for every way of cutting the capture into reads, grouping, frames, counters, pending units and leftover bytes depend on the concatenated bytes only, and the access units are the only grouping of its units |
| AccessUnits.GroupingIsGood | remote-agent/agent/ShadowSession.cs:898-914 | over every run the flag holds exactly when a pending unit is picture data, and each closed access unit has picture data and starts no picture behind other picture data |
| AccessUnits.OnePictureAtMost | remote-agent/agent/ShadowSession.cs:900-912 | an access unit holds at most one slice that starts a picture |
| AccessUnits.GroupingConserves | remote-agent/agent/ShadowSession.cs:880-914 | closed and pending units together are the non-empty units taken in, in order, none lost or doubled |
| AccessUnits.GroupingIsTheOnlyOne | remote-agent/agent/ShadowSession.cs:900-914 | a cutting of the units into parts loses nothing, begins each part but the first at a slice that starts a picture, ends none before it holds picture data and starts no picture behind picture data if and only if it is the access units closed and the one pending: none is closed too soon or too late |
| AccessUnits.TopBitTest | remote-agent/agent/ShadowSession.cs:908-911 | for slice types 1, 2 and 5 the top-bit test holds if and only if first_mb_in_slice decodes (emulation prevention removed, ue(v) of section 9.1) to 0 |
| AccessUnits.KnownTypes | remote-agent/agent/ShadowSession.cs:898-899 | slices are picture data; SEI, parameter sets and access unit delimiters are not |
| AccessUnits.FlushesAddUp | remote-agent/agent/ShadowSession.cs:984-1004 | flushes are sent plus dropped plus failed |
| AccessUnits.ReceiverSeesUnits | remote-agent/agent/ShadowSession.cs:878-971 | for every capture, a receiver that scans a frame for start codes reads exactly the units of the access unit it was built from |
| DesktopTracking.ShadowSession.HandleDesktop | remote-agent/agent/ShadowSession.cs:408-436 | an empty, missing or known name changes nothing; another one moves capture there and schedules a relaunch unless the helper is already there |
| DesktopTracking.ShadowSession.RelaunchHelper | remote-agent/agent/ShadowSession.cs:321-324 | a relaunch starts a new helper generation on the desktop believed at that time |
| DesktopTracking.SessionHelper.SyncInputDesktop | remote-agent/agent/SessionHelper.cs:92-100 | polling is the protocol's own Poll step: a line goes out if and only if that step is enabled, and is the one it adds to the live lines |
| DesktopTracking.RunKeepsConsistent | remote-agent/agent/ShadowSession.cs:408-436 | over every run, late lines of replaced helpers included: unless a relaunch is scheduled, the helper is where input is believed to be and its last report is believed or on its way |
| DesktopTracking.NoNeedlessRelaunch | remote-agent/agent/ShadowSession.cs:424-434 | while every line in flight names the desktop the helper runs on, no step schedules a relaunch |
| DesktopTracking.NeededRelaunch | remote-agent/agent/ShadowSession.cs:417-434 | a delivered line that names another desktop is believed, and schedules a relaunch if and only if it was not believed already |
| DesktopTracking.InternalStepWorks | remote-agent/agent/ShadowSession.cs:424-434 | every step of the two processes lowers one measure over stale and live lines, belief, relaunches and unreported change |
| DesktopTracking.RunsAreShort | remote-agent/agent/ShadowSession.cs:424-428 | "converges rather than looping": a run with a still console is no longer than the measure it starts with |
| DesktopTracking.QuiescentMeansOnTarget | remote-agent/agent/ShadowSession.cs:416-434 | where nothing more can happen, belief, helper and capture are all on the console's desktop if and only if its name is not empty |
| DesktopTracking.Stabilises | remote-agent/agent/ShadowSession.cs:408-436 | self-stabilisation from every reachable state, whatever happened before |
| ControlChannel.FramingRoundTrip | remote-agent/agent/ControlChannelClient.cs:264-288 | a frame is taken apart into the id and bytes it was made of if and only if the id is 32 lower-case hex digits |
| ControlChannel.HexOfBytes | remote-agent/agent/ControlChannelClient.cs:264-284 | the plain hex codec gives every byte string back |
| ControlChannel.SessionsDoNotMix | remote-agent/agent/ControlChannelClient.cs:178-267 | in every interleaving that opens no tunnel while one of its id is still pumping, each tunnel ever made has been written exactly the payloads framed for its session while open, in order, and is open exactly while that session on its own would be |
| ControlChannel.OutIsTaken | remote-agent/agent/ControlChannelClient.cs:282-313 | with ids as the server makes them, what gets out under an id is exactly what its tunnels read while the channel's socket was open and took it, in order |
| ControlChannel.PumpsLoseNothingExactly | remote-agent/agent/ConnectTunnel.cs:66-116 | that is everything read if and only if no chunk was read after the socket was lost or refused by it |
| ControlChannel.EndsAnnouncedAreDueAndTaken | remote-agent/agent/ConnectTunnel.cs:41-45 | in every run, ids reused or not: the session_end messages sent for an id are exactly the ends due - a pump ends, its framing throws, a start finds no listener - that the channel took; ends due and pumps still running are exactly its starts |
| ControlChannel.EndAnnouncedOnce | remote-agent/agent/ConnectTunnel.cs:98-128 | so the ends announced and the pumps still running are never more than the starts, and are all of them if and only if every end due was taken |
| ControlChannel.TearDownReleasesEverything | remote-agent/agent/ControlChannelClient.cs:115-137 | after the teardown both tables are empty, no tunnel's socket is open and every shadow session has been stopped |
| ControlChannel.ReuseIsSafeExactly | remote-agent/agent/ConnectTunnel.cs:114-115 | from any state: a newly started tunnel is registered as long as it is live, in every continuation that does not start its id again, if and only if no earlier tunnel of that id is pumping |
| ControlChannel.ReusedIdStrandsNewTunnel | remote-agent/agent/ConnectTunnel.cs:114-115 | a run in which it is not, and the new tunnel is open and off the table |
| ControlChannel.UnregisteredHearsNothing | remote-agent/agent/ControlChannelClient.cs:264-266 | no frame reaches a tunnel that is off the table |
| ControlChannel.FreshIdsSettle | remote-agent/agent/ControlChannelClient.cs:223-244 | ids never used twice meet the conditions on tunnels and on shadow sessions |
| ControlChannel.ControlChannelClient.SendBinary | remote-agent/agent/ControlChannelClient.cs:282-313 | the frame built in place is the specified one; it goes out if and only if the socket is open and takes it, and a throwing send is swallowed; where the codec or the copy throws nothing is sent |
| ControlChannel.ControlChannelClient.HandleSessionStart | remote-agent/agent/ControlChannelClient.cs:223-244 | the objects do what the step says: the new session is registered, a tunnel that cannot connect is announced as ended and stays registered |
| ControlChannel.ControlChannelClient.HandleSessionEnd | remote-agent/agent/ControlChannelClient.cs:205-211 | the session and the tunnel of an id, and no others, are taken off and stopped |
| ControlChannel.ControlChannelClient.HandleBinaryMessage | remote-agent/agent/ControlChannelClient.cs:246-267 | a payload of 16 bytes or more reaches the one tunnel registered under its id, if its socket is open; nothing else changes |
| ControlChannel.ControlChannelClient.PumpTurn | remote-agent/agent/ConnectTunnel.cs:73-115 | a chunk is forwarded, or the pump announces the end, unregisters its id and disposes of its tunnel |
| ControlChannel.ControlChannelClient.LoseSocket | remote-agent/agent/ControlChannelClient.cs:291-294 | losing the socket stops sending and leaves every tunnel and session as it was |
| ControlChannel.ControlChannelClient.TearDown | remote-agent/agent/ControlChannelClient.cs:127-136 | exactly the registered sessions and tunnels are stopped and both tables cleared |
| Deployment.Deployment.Transition | backend/app/services/deployment_service.py:29-53 | refused without effect, or one row is added, the state moves, and a failure's detail is kept as the error |
| Deployment.Deployment.RetryDeployment | backend/app/services/deployment_service.py:63-90 | done if and only if the state is failed; back to pending with log, error and machine gone and the retry counted |
| Deployment.Deployment.RetryPostInstall | backend/app/services/deployment_service.py:93-120 | done if and only if the state is failed and there is a machine; back to installing_os with the machine kept |
| Deployment.Deployment.Fail | worker/worker/tasks/provision.py:220-248 | the machine is dropped unless its stage is worth keeping, then the deployment fails if it still can; log lines are only added |
| Deployment.HistoryAgrees | backend/app/services/deployment_service.py:12-120 | over every run the rows only grow and form one chain from pending to the state, none leaves completed, retry_count is the number leaving failed, there are at most 7 * retry_count + 6, and the error is what the last row says - so it is set only in failed |
| Deployment.CanAlwaysComplete | backend/app/services/deployment_service.py:12-120 | progress: from every reachable state but completed the run can be continued to pending, there without a machine, and from there to completed |
| Deployment.FailedCanStartOver | backend/app/services/deployment_service.py:73-90 | a failed deployment, with a machine or without, goes back to pending with machine, error and log gone, one more retry and one more row |
| Deployment.FailedCanGoBack | backend/app/services/deployment_service.py:106-120 | a failed deployment with a machine goes back to installing_os with it, error and log gone |
| Deployment.RunningCanFail | backend/app/services/deployment_service.py:36-52 | a deployment that is not over can always fail, and shows the message it failed with |
| Deployment.CompletedWentThroughAllStages | backend/app/services/deployment_service.py:29-53 | a completed deployment has entered all five stages in order since its last start from pending, whatever mix of retries |
| Deployment.RetriesFindTheRightMachine | backend/app/services/deployment_service.py:93-107 | a post-install retry is possible only with a machine on which Windows was installed since the last start; a full retry starts without one |
| Deployment.MachineKeptExactly | worker/worker/tasks/provision.py:220-248 | over every run, a machine on which Windows was installed since the last start is kept from one event to another if and only if no full retry, no failure handled in a terminal state and none handled in installing_os happens in between |
| Deployment.InstalledStates | backend/app/services/deployment_service.py:93-120 | with Windows installed a deployment is back in installing_os only by a post-install retry, and never before it |
| Deployment.CompletedDeploymentLosesMachine | worker/worker/tasks/provision.py:1475-1493 | a run in which a failure handled after completion takes the machine of a completed deployment and changes nothing else |
| Deployment.SecondFailureLosesMachine | worker/worker/tasks/provision.py:239-248 | a run in which a second failure takes the machine the first one kept, and the post-install retry with it |
| Deployment.FailedRetryLosesMachine | worker/worker/tasks/provision.py:888-889 | a run in which a post-install retry that fails early loses the installed machine it went back to |
| Utf8.DecodeOfEncode | backend/app/winrm/client.py:128-134 | both UTF-8 decoders undo the encoder on every text |
| Utf8.EncodeOfDecode | backend/app/services/remote_session.py:200 | what strict decoding accepts is what encoding gives, so no second spelling gets through |
| Base64.DecodeOfEncode | backend/app/winrm/client.py:128-134 | Base64 gives every byte string back |
| Base64.LettersAreTable1 | backend/app/winrm/client.py:128 | the alphabet is that of table 1 of RFC 4648 |
| Base64.Examples | backend/app/winrm/client.py:128 | examples of RFC 4648 section 10 |
| Base64.PiecesOfEncoded | backend/app/winrm/client.py:128-130 | cutting the Base64 text every 4k characters is cutting the bytes every 3k |
| WinRm.ChunksCarryBytes | backend/app/winrm/client.py:26-139 | for every script the chunks decode one by one to its bytes, and none is longer than 1800 characters |
| WinRm.ScriptArrives | backend/app/winrm/client.py:114-139 | for every decoder that reads well-formed text right and lets nothing ill-formed vanish, and whatever the file held before: it holds the script's text if and only if no byte at a multiple of 1350 continues a character |
| WinRm.AsciiArrives | backend/app/winrm/client.py:114-139 | an ASCII script always arrives |
| WinRm.SendAllMeans | backend/app/winrm/client.py:124-139 | all calls are made if all succeed; else the last one made is the first that did not, and its result or exception is the outcome |
| WinRm.WinRmClient.WriteRemoteScript | backend/app/winrm/client.py:114-139 | the chunk loop makes exactly those calls and ends in exactly that outcome |
| WinRm.WinRmClient.RunPs | backend/app/winrm/client.py:87-112 | up to 2000 characters, header included, go in one command; for a longer script its own calls and outcome are a `LongRun`: the whole write, the run directly behind it, and the removal if that returned - or a write stopped at the call whose answer is the outcome |
| WinRm.LongScriptIsRun | backend/app/winrm/client.py:106-112 | in such calls the script is run if and only if every call of the write succeeded, once, when the calls before have put into the file what `ScriptArrives` says; it is removed only if it was run |
| WinRm.RemovalCanMaskResult | backend/app/winrm/client.py:101-112 | the result of running the file is the outcome if and only if removing the file does not raise; the file is removed if and only if running it returned |
| WinRm.WinRmClient.RunAsSystemTask | backend/app/winrm/client.py:161-241 | for every pattern of results and exceptions: the calls made, in order, and the outcome |
| WinRm.WinRmClient.PollUntilDone | backend/app/winrm/client.py:191-206 | the loop and its else branch: whether and after how many polls the end was seen, exceptions counting as not yet |
| WinRm.PollsStopAtDone | backend/app/winrm/client.py:191-206 | polling stops at the first reply that says so, or after max_attempts |
| WinRm.VerdictMeans | backend/app/winrm/client.py:189-226 | success if and only if the end was seen and the first read of three that returned begins with "OK:"; an exception escapes if and only if all three raised; at most max_attempts polls and 3 reads |
| WinRm.CleanedUpOnce | backend/app/winrm/client.py:227-241 | clean-up is the last call, and the only one of its kind, if and only if registering succeeded |
| WinRm.CleanUpCannotChangeVerdict | backend/app/winrm/client.py:227-241 | the outcome is the same whatever answers the clean-up |
| WinRm.TaskCallsMean | backend/app/winrm/client.py:165-241 | the calls themselves: registered, polled up to the first reply that is not "Running", empty or failed, result read up to the first answer, cleaned up; and the outcome of each ending |
| WinRm.JudgeMeans | backend/app/winrm/client.py:221-226 | what follows "OK:" is the output of a success, what follows "FAIL:" the error of a failure, anything else, or a note that there is nothing, is an error too |
| WinRm.StripMeans | backend/app/winrm/client.py:202-221 | stripping takes the white space off both ends and nothing else |
| Guacamole.StreamReader.ReadInstruction | backend/app/services/remote_session.py:189-204 | reading byte by byte ends as specified on every stream: parts and bytes left, or the kind of error and what is gone |
| Guacamole.PyIntTakes | backend/app/services/remote_session.py:199 | Python's int reads a decimal number with a sign or without and with white space on either side |
| Guacamole.InstructionRoundTrip | backend/app/services/remote_session.py:183-204 | an instruction is read back, with exactly its bytes consumed, if and only if all its parts are ASCII, whatever separators or digits they contain |
| Guacamole.StreamRoundTrip | backend/app/services/remote_session.py:183-204 | so is a stream of any number of instructions |
| Guacamole.CutShortIsIncomplete | backend/app/services/remote_session.py:189-204 | a stream that ends anywhere inside an ASCII instruction is reported as ended, and used up |
| Guacamole.NegativeLengthIsRefused | backend/app/services/remote_session.py:199-200 | a negative length is refused with what follows it unread |
| Guacamole.MissingLengthIsRefused | backend/app/services/remote_session.py:193-199 | and so is a missing one |
| Guacamole.PrinterConforms | backend/app/services/remote_session.py:183-186 | a receiver counting characters, as the protocol says, gets every list of instructions back, ASCII or not |
| Guacamole.OpenGuacdConnection | backend/app/services/remote_session.py:237-337 | for everything guacd may send: only select has been written when its offer cannot be read, else bytes that guacd understands as the introduction for its offer; accepted exactly when the second instruction is ready |
| Guacamole.HandshakeUnderstood | backend/app/services/remote_session.py:237-310 | guacd, reading by the protocol and pairing its names with the values of connect, finds host, port, user name, password, width, height and dpi under those names, the fixed settings under theirs, each VERSION_ name under itself and nothing under any other; and a size with dpi > 0 before connect |
| Csv.ExportReadsBack | frontend/src/lib/jsonFile.ts:25-37 | an RFC 4180 reader gets back the header and exactly the cells of every table with a column if and only if the header names, printed unescaped, hold no quote, comma or line feed and - for a reader that also takes CRLF - no row but the last ends in an unquoted field ending in a carriage return |
| Csv.CellsReadBack | frontend/src/lib/jsonFile.ts:25-37 | cell by cell: the record shows the text of each cell that has one, and the empty string for null and undefined |
| Csv.FieldReads | frontend/src/lib/jsonFile.ts:25-28 | an escaped field reads back as it was in front of a comma, a line feed or the end, short of that one carriage return |
| Coordinates.InsideIsExact | remote-agent/agent/ShadowSession.cs:1029-1035 | inside the picture nothing wraps and the clamp does not act |
| Coordinates.MonotoneInside | remote-agent/agent/ShadowSession.cs:1029-1035 | inside the picture a larger coordinate never maps to a smaller one, on every screen |
| Coordinates.RoundingError | remote-agent/agent/ShadowSession.cs:1029-1035 | mapped back, the result is short of the exact position by less than 1 + (size - 1) / 65535 |
| Coordinates.SameSizeIsFaithful | remote-agent/agent/ShadowSession.cs:1029-1035 | with equal sizes different pixels stay different if and only if there are at most 65536, and the ends are reached |
| Coordinates.EdgesAndOrderKeptExactly | remote-agent/agent/ShadowSession.cs:1032-1034 | over all coordinates and pictures: what is outside maps to the edge it is beyond if and only if the screen has 2 to 65537 pixels, and order is kept if and only if it has at most 65537 |
| Coordinates.LargerScreensWrap | remote-agent/agent/ShadowSession.cs:1032-1034 | on every larger screen some coordinate far to the right maps to the left edge |
| DisplayModes.EnumerateSupportedResolutions | remote-agent/agent/Win32Interop.cs:304-314 | each published size once, in order of first appearance, in the form reported last |
| DisplayModes.LastIsLast | remote-agent/agent/Win32Interop.cs:310 | the mode kept of a size is followed by no other of that size |
| DisplayModes.SizesInOrder | remote-agent/agent/Win32Interop.cs:306-313 | the sizes kept are in the order in which they appear first |
| DisplayModes.ZeroIsExact | remote-agent/agent/Win32Interop.cs:345-353 | no score is negative, and it is 0 if and only if width and height both match |
| DisplayModes.ShapeOutweighsArea | remote-agent/agent/Win32Interop.cs:345-353 | one mode beats another if and only if what it is worse by in area is less than five times what it is better by in shape |
| DisplayModes.FindNearestAmong | remote-agent/agent/Win32Interop.cs:343-356 | the first mode of least score, or the first of least area when none has a score |
| DisplayModes.FindNearestResolution | remote-agent/agent/Win32Interop.cs:327-357 | no published mode scores less than the one chosen, and a published size asked for is what is chosen |
| DisplayModes.Console.TrySetNearestResolution | remote-agent/agent/Win32Interop.cs:367-395 | the size returned is the console's; none is returned only when nothing is published or the driver refuses |
| DisplayModes.Console.Leave | remote-agent/agent/SessionHelper.cs:211-219 | on exit the console is back at its first size if that is published and the driver accepts, whatever was asked for meanwhile |
| Ico.WriteIco | remote-agent/tray/Program.cs:106-142 | the file written by the loops is the specified layout |
| Ico.ImagesReadBack | remote-agent/tray/Program.cs:119-141 | a reader that checks the header gets exactly the images written through the directory; they tile the file to its end; each is listed as square, of 32 bits a pixel, one plane and no palette, and of the right size if and only if that is 1 to 256 |

## Left out

- Real threads: handlers are atomic steps. Two relaunches overlapping, a read that finishes while its tunnel is disposed of, and a peer connection set to null in the middle of a capture are not modelled.
- DesktopTracking.Stabilises: helper launches succeed, a relaunch's stop and start are one step, and lines of one helper arrive in order.
- AccessUnits.VideoPath.TailCapture: a read that fails, cancellation and waiting for the capture file are not modelled; the boundary rule is the program's own, and no conformance to H.264 section 7.4.1.2.3 is claimed.
- Heartbeats, the relaying of Shadow signals, JSON parsing, reconnection delays and message reassembly on the control channel; a write to a local socket, and a message on the channel, either happens whole or not at all.
- A bare transition to failed, which would keep the machine, is used by no caller; `BareFailureSkipsStages` is a remark on it, not a result.
- Deployment.Deployment.AttachVm: the machine is recorded while the state is creating_vm, which holds when no second execution of the job has moved it on; the wording of details and log lines is a parameter or paraphrased, and columns that do not bear on state or machine are not modelled.
- WinRm.ScriptArrives: what creating the file itself writes (a byte order mark and an empty line) is not counted; that the guest's decoder has the two properties asked of it is an assumption, which one with a U+FFFD for every ill-formed byte meets (`LossyIsDecoder`); script texts are opaque, and substituting the result path is left to the caller.
- Lone surrogates, which Python strings may hold and encoding rejects, are not characters here.
- Guacamole.OpenGuacdConnection: timeouts end a read like the end of the stream; the address guacd is told to dial is a parameter; Python's limit of 4300 digits for int is not modelled.
- Csv.ExportReadsBack: turning values other than null into strings is JavaScript's.
- DisplayModes.FindNearestResolution: scores are over the reals; the driver's change of mode sets exactly the size of the mode.
- Ico.ImagesReadBack: the count must fit 16 bits and the file 32 bits, as the format demands; drawing is a parameter.
- ESXi, Win32, WebRTC, ffmpeg, DPAPI and TLS calls, user interface, notifications, permissions and settings lookups: foreign calls, or only easy members.
