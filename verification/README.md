# Zorp core in Dafny

A model of the parts of the Zorp proxy firewall whose correctness rests on state kept
in step over many calls: the interface monitor and the listeners that follow it, the
dispatch table, the copy engine with its dot-stuffing variant, the plug relay, the
multi-dimensional hash, the order of SSL handshakes, and the SZIG statistics tree with
the client that walks it.

`dafny verify dfyconfig.toml` checks everything.

## How to read it

Each component comes in up to three layers.

* A **specification** on values: what one message, call or event does (`Step`, `Apply`,
  `Grow`, ...), and an independent account of what ought to hold (`Live`, `Count`,
  `Stuff`, `Enumerate`, a finite map, ...).
* The **imperative form**, where the source updates things in place: classes and loops
  whose contracts tie the new state to the specification.
* The **theorems**: invariants of every run, round trips, refinement of the simple
  account. Where the code does not meet its purpose on every input, there is an
  if-and-only-if with the condition under which it does.

Everything outside the program is a parameter. A stream is the list of answers it will
give to successive calls (`Streams`); the kernel is a list of parsed netlink messages;
whether a listener, a thread or an SSL handshake succeeds is an argument.

| module | component |
|---|---|
| `IfMonitor`, `IfMessages` | interface table, address watches, callbacks; what the messages alone say of them |
| `Listeners` | listener entries of an interface-bound chain |
| `Dispatch` | chains, reference counts, registration, accept queue |
| `Streams`, `Transfer` | restartable copy engine, one or two hops |
| `DotText`, `DotWriter`, `DotFit`, `DotStall`, `DotSending`, `DotReader` | dot-stuffed text: reference, writer, writer in a wrong state, one call cut short, whole bodies on any stream, reader |
| `PlugMask`, `Plug` | end-of-file mask of the plug relay, the relay itself |
| `DimHash` | composite keys and generalising search |
| `SslHandshake` | delayed handshakes and the server connect |
| `SzigNames`, `SzigTree`, `SzigConns`, `SzigWalk`, `SzigAverage` | statistics tree, connections, walk, sliding average |

## What the code does not do

Each of these has a lemma with the exact condition, and a lemma or method with an input
on which it happens.

* A watch registered under a name of 16 characters or more is stored under the clipped
  name but told about the addresses of the full one (`IfMonitor.RegisterExact`,
  `IfMonitor.ClippedNameMisses`). The dispatcher passes names already cut to 15
  characters, so only another caller of the exported function can meet this.
* A watch for a family other than IPv4 hears of IPv4 addresses when it is registered and
  of nothing afterwards, so it is right about an address exactly while that is live or not
  as it was then (`IfMonitor.OtherFamilyExact`, `IfMonitor.OtherFamilyMisses`).
* Registering an interface with port 0 twice displaces the first chain from the table
  (`Dispatch.RunExact`, `Dispatch.SecondListenerDisplaces`), and a bind that fails
  after the thread was started leaves that thread behind (`Dispatch.FailedBindStrands`,
  `Dispatch.BindFailureStrands`).
* On a stream that takes everything, the dot writer misses a second line-initial dot past
  the first byte of a piece, and a dot after an even run of line feeds
  (`DotWriter.SessionExact`, `DotWriter.SecondDotIsMissed`,
  `DotWriter.DotAfterTwoFeedsIsMissed`).
* On a stream that stops it once, the dot writer can lose or add a dot, or send bytes
  twice, even on CRLF text (`DotStall.ShortWriteExact`, `DotStall.StopBeforeDotExact`,
  `DotStall.RefusedDotExact`, `DotStall.ShortAfterDotExact`; `DotStall.ShortWriteLosesDot`,
  `DotStall.ShortWriteAddsDot`, `DotStall.WaitingDotRepeats`). However often it is stopped,
  and on any text, bytes go out twice exactly when a call is refused after it has written
  (`DotSending.StallsExact`).
* The dot reader takes the dot off a line only if the line arrives in one piece
  (`DotReader.DecodeExact`, `DotReader.SplitDotIsKept`).
* A plug direction without a destination is left with nothing armed after a full turn
  whose last packet holds data (`Plug.CopyData`, `Plug.StallExample`).
* A client handshake can be started twice in one request (`SslHandshake.ServedTwiceExact`,
  `SslHandshake.ServedTwiceIsReached`).
* Composite keys collide when there is another place to cut them at, and in the tables that
  accept one part (HTTP, Telnet) every key of two parts is also the key of one
  (`DimHash.CollidesExact`, `DimHash.ColonCollides`); the guard of the key buffer
  counts neither separators nor terminator (`DimHash.FitsExact`, `DimHash.GuardIsShort`).
* The SZIG walk loses top-level nodes without a name or called `None`, and values that
  read as `None` or begin like a status (`SzigWalk.WalkAll`, `SzigWalk.TopNoneIsLost`).

## Model

| member | source | states |
|---|---|---|
| IfMonitor.RunAgrees | lib/ifmonitor.cc:217-719 | after every run of link, address and watch operations with unique interface names, each IPv4 watch has been told exactly the addresses that recomputing from the tables gives, never an ADD twice in a row nor a REMOVE before an ADD |
| IfMessages.WatchBalance | lib/ifmonitor.cc:223-238 | the promise in terms of the message list alone: over every orderly run, a watch registered and not unregistered has got, for each address, one ADD more than REMOVEs if the messages say the address is up under its name, else as many |
| IfMessages.TablesFollow | lib/ifmonitor.cc:528-719 | after every run the table holds exactly the interfaces with a link message since their last deletion, with the last name and flags sent, and an address exactly if it was added while there was room and neither it nor its interface has been deleted since |
| IfMessages.LiveIsAnnounced | lib/ifmonitor.cc:528-719 | an address is live in the table exactly if the messages say so |
| IfMessages.WatchesFollow | lib/ifmonitor.cc:279-331 | after every run the watches are those registered and not unregistered, under clipped names, with numbers in the order of registration |
| IfMessages.AddressExact | lib/ifmonitor.cc:656-719 | an address message adds or deletes that address of that interface and changes nothing else |
| IfMonitor.TrackIsBalance | lib/ifmonitor.cc:223-238 | a history without protocol errors has balance 0 or 1 after every prefix, 1 exactly while the address is known |
| IfMonitor.LinkAgrees | lib/ifmonitor.cc:528-608 | a new, changed, renamed, raised or lowered interface keeps every watch in agreement with the tables |
| IfMonitor.LinkTrack | lib/ifmonitor.cc:557-607 | what one watch hears of one address from a link message, in the rename and the up/down cases |
| IfMonitor.UnlinkAgrees | lib/ifmonitor.cc:630-654 | deleting an interface, up or down, keeps every watch in agreement |
| IfMonitor.AddressAgrees | lib/ifmonitor.cc:656-719 | adding, repeating or deleting an address, known or not, with a full table or not, keeps every watch in agreement |
| IfMonitor.RegisterExact | lib/ifmonitor.cc:279-308 | a new IPv4 watch starts in agreement if and only if its name was not clipped or nothing is live under the clipped name |
| IfMonitor.ClippedNameMisses | lib/ifmonitor.cc:285-292 | for every name of 16 characters or more, a run after which an address is live under the clipped name and the watch has not been told of it |
| IfMonitor.UnregisterForgets | lib/ifmonitor.cc:310-329 | a watch is told to forget everything it knew before it leaves the list |
| IfMonitor.RetiredIsSilent | lib/ifmonitor.cc:310-329 | a watch that has left the list is never called again by any operation |
| IfMonitor.OtherFamilyExact | lib/ifmonitor.cc:279-301 | a watch of another family knows, after any run without its own unregistration, exactly the addresses that were live under its name at its registration, and so is right about an address if and only if that is live now as it was then |
| IfMonitor.OtherFamilyMisses | lib/ifmonitor.cc:279-301 | a run after which such a watch has not been told of a live address |
| IfMonitor.OtherFamilyIsFrozen | lib/ifmonitor.cc:291-301 | no operation but its own unregistration tells a watch of another family anything |
| IfMonitor.ToldAtRegistration | lib/ifmonitor.cc:279-309 | a new watch of any family is told exactly of the addresses live under the full name |
| IfMonitor.NewEvents | lib/ifmonitor.cc:223-262 | callbacks are only appended, and only for watches on the list or the one being registered |
| IfMonitor.DeleteCell | lib/ifmonitor.cc:708-717 | the in-place move that deletes an address leaves exactly the other addresses in order, whatever it reads past the end |
| IfMonitor.Monitor.CallWatchers | lib/ifmonitor.cc:223-238 | the loop calls every watch of that name and family, once, in list order |
| IfMonitor.Monitor.IterateAddrs | lib/ifmonitor.cc:248-262 | the loop tells every address in table order |
| IfMonitor.Monitor.Find | lib/ifmonitor.cc:217-221 | returns an interface of that name if there is one, and none only if there is none |
| IfMonitor.Monitor.RegisterWatch | lib/ifmonitor.cc:279-308 | tells the new watch the addresses of the interface found under the full name, if up; with unique names it refines the registration step |
| IfMonitor.Monitor.UnregisterWatch | lib/ifmonitor.cc:310-329 | tells the watch to forget the addresses of the interface found under its stored name, if up; with unique names it refines the unregistration step |
| IfMonitor.Monitor.AddIface | lib/ifmonitor.cc:528-608 | refines the link step |
| IfMonitor.Monitor.DelIface | lib/ifmonitor.cc:630-654 | refines the unlink step |
| IfMonitor.Monitor.ChangeIfaceAddr | lib/ifmonitor.cc:656-719 | refines the address step |
| Listeners.RefsFollowCount | lib/dispatch.cc:812-905 | over every history of callbacks no two entries share a bind address, and an entry's references equal the counter of its address when all starts succeed, and never exceed it |
| Listeners.CancelledAtZero | lib/dispatch.cc:878-903 | a listener is cancelled and unlinked exactly at the REMOVE that brings the counter to zero, and has an entry exactly while it is above |
| Listeners.CountIsNet | lib/dispatch.cc:812-905 | when REMOVEs never outnumber ADDs the counter is ADDs minus REMOVEs |
| Listeners.ApplyCounts | lib/dispatch.cc:830-905 | one callback moves only the references of its own address, including failed starts and REMOVEs of unknown addresses |
| Listeners.ListenersMatch | lib/dispatch.cc:764-905 | composed with the monitor: over every run the chain behind a registered watch holds exactly one entry, with one reference, per matching address that the messages say is up |
| Listeners.UnrefAllCounts | lib/dispatch.cc:134-143 | releasing cancels exactly the entries whose last reference goes |
| Listeners.Listeners.IfaceChange | lib/dispatch.cc:812-905 | refines the callback on the list of entries and the list of cancelled listeners |
| Listeners.Listeners.Reference | lib/dispatch.cc:840-848 | the loop references every entry of that address and says whether there was one |
| Listeners.Listeners.Release | lib/dispatch.cc:886-900 | the loop releases every entry of that address, unlinking and cancelling those left without references |
| Dispatch.RunExact | lib/dispatch.cc:420-1235 | over every run of register, unregister, accept and thread steps, the invariant (the table finds exactly the chains bound to it, each with references = entries + thread, at least one entry, sorted entries) has held all along if and only if the callers unregister only entries they hold (or whose key nobody holds) and no new listener gets a key somebody holds; and then an entry is held if and only if its key finds a chain that has it |
| Dispatch.HeldMeans | lib/dispatch.cc:1082-1235 | an entry handed out stays on the chain its key finds until it is unregistered, and that chain has one reference for each entry held under the key and one for its thread |
| Dispatch.RunMeans | lib/dispatch.cc:420-1235 | a freed chain has handled all it accepted, in order; every entry on any chain is held and finds that chain by its key |
| Dispatch.DrainedIsFreed | lib/dispatch.cc:420-461 | a chain taken out of the table is freed by as many steps of its thread as its queue is long, all its connections handled in order |
| Dispatch.RegisterExact | lib/dispatch.cc:1082-1161 | registration keeps all that if and only if it does not bind a new chain to a key already in the table |
| Dispatch.RegisterOutcome | lib/dispatch.cc:1082-1161 | a registration succeeds if and only if its new listener is bound, or the chain its key finds is not a TCP chain for one connection; the entry is new, has the priority asked for and is on the chain its key finds; a refusal changes no chain |
| Dispatch.RegisterDisplaces | lib/dispatch.cc:1098-1116 | in the other case the chain in the table is displaced with all its entries |
| Dispatch.SecondListenerDisplaces | lib/dispatch.cc:1098-1116 | two registrations of an interface with port 0, from an empty table, after which the first entry's key finds the second chain |
| Dispatch.FailedBindStrands | lib/dispatch.cc:1103-1114 | a failed bind leaves the table alone, and a thread behind if and only if one had been started |
| Dispatch.BindFailureStrands | lib/dispatch.cc:1103-1114 | a first registration that leaves a thread behind |
| Dispatch.UnregisterExact | lib/dispatch.cc:1170-1235 | the asserted lower bound on the reference count always holds, the chain is unbound exactly when its last entry leaves, and the invariant survives if and only if the entry was on the chain |
| Dispatch.ReleasedExact | lib/dispatch.cc:1188-1220 | the same for the chain alone, with and without a thread to be sent the exit magic |
| Dispatch.AcceptKeeps | lib/dispatch.cc:657-743 | a connection is appended to what its chain accepted and touches nothing else: queued with a thread, else handled at once; the end of the socket and connections made directly to a transparent listener change nothing |
| Dispatch.ThreadStepKeeps | lib/dispatch.cc:420-461 | a thread step handles the oldest connection not yet handled, and at the exit magic frees a chain that has handled all |
| Dispatch.InsertSortedKeeps | lib/dispatch.cc:583-592 | insertion keeps smaller priorities first and, among equals, the latest registration first, and adds exactly the one entry |
| Dispatch.SortedMeans | lib/dispatch.cc:583-592 | the neighbour order is an order of all pairs |
| Dispatch.DispatchConnection | lib/dispatch.cc:604-638 | the connection goes to the first entry in that order that takes it, and to none only if none takes it |
| Dispatch.Dispatcher.NewChainRecord | lib/dispatch.cc:475-511 | a threaded chain starts with a reference for its thread, given back when the thread does not start |
| Dispatch.Dispatcher.RegisterEntry | lib/dispatch.cc:1082-1161 | refines the registration step, with the same conditions of success |
| Dispatch.Dispatcher.UnregisterEntry | lib/dispatch.cc:1170-1235 | refines the unregistration step |
| Transfer.Hop.ReadSource | libproxy/transfer2.cc:386-412 | appends what the stream gives, up to the room left |
| Transfer.Hop.WriteDest | libproxy/transfer2.cc:425-456 | sends pending bytes in order; NORMAL exactly when nothing is left; a short write reads as AGAIN |
| Transfer.Hop.Drain | libproxy/transfer2.cc:494-528 | conservation: received = delivered, then discarded, then pending; nothing is discarded unless the tail is |
| Transfer.Fill | libproxy/transfer2.cc:530-578 | at most 30 reads a turn, an end seen with data pending is put off, an end seen without data is acted on; each outcome has its own last answer of the source |
| Transfer.NoteEof | libproxy/transfer2.cc:328-373 | both ends of a hop are shut down once |
| Transfer.Pass | libproxy/transfer2.cc:492-579 | a pass ends the loop, uses up a packet or notes a soft end if and only if the buffer has a size, so the loop ends exactly then; it fails if and only if a write was answered by an end of file or an error, and is broken if and only if a read was answered by an error |
| Transfer.CopyLoop | libproxy/transfer2.cc:479-587 | terminates within 30 reads, goes on until the hop ends, fails, has to wait or used its turn, and acts on the end only when the buffer is drained; failure, abort and end of the transfer each if and only if a write broke, a read broke, or one of these happened that ends it |
| Transfer.ArmsExact | libproxy/transfer2.cc:275-318 | a condition is armed exactly when its hop is open and waits for it: input while the buffer is empty (and the proxy does not write itself), room while it is not |
| Transfer.ArmsForOpenHops | libproxy/transfer2.cc:275-318 | some condition is armed exactly while a hop is open, and none for a hop that has ended |
| Transfer.Transfer.UpdateCond | libproxy/transfer2.cc:275-318 | arms exactly the conditions of the hops' ends and buffers |
| Transfer.Transfer.CopyData | libproxy/transfer2.cc:479-587 | keeps conservation on both hops and leaves an unfinished transfer with something armed |
| Transfer.Transfer.Turn | libproxy/transfer2.cc:599-655 | callbacks, timeouts, progress, suspension and cancellation keep the invariant, set exactly their own flags, and leave an unfinished transfer with something armed |
| Transfer.Transfer.Run | libproxy/transfer2.cc:885-924 | over every script of the poll loop, FINISHED without quitting the poll or discarding the tail means that every byte read on every hop was delivered, in order; whatever the script, an unfinished transfer waits for an armed condition; the answer is FAILED if and only if it is not suspended and a write broke, a timeout came or progress was refused, and ABORTED if and only if none of those and a read broke or it was cancelled or stopped by its owner |
| Transfer.Transfer.Rollback | libproxy/transfer2.cc:848-860 | input goes on being consumed and nothing more is delivered, in runs repeated exactly while they are suspended; a transfer not begun or finished is left alone |
| DotText.StuffText | libproxy/dottransfer.cc:147-160 | stuffing a text is stuffing each of its lines |
| DotText.StuffConcat | libproxy/dottransfer.cc:147-160 | stuffing a text in two parts needs only to know whether the second begins a line |
| DotText.DoubledExact | libproxy/dottransfer.cc:161-276 | the doubling of line-initial dots, place by place |
| DotText.StuffDoubled | libproxy/dottransfer.cc:147-160 | in stuffed text no line is a lone dot |
| DotWriter.SessionExact | libproxy/dottransfer.cc:161-246 | under full writes, for every text and every way to cut it, the output is the stuffed text if and only if every line-initial dot follows an odd run of line feeds, the opening state counting as one, and no piece holds two line-initial dots past its first byte |
| DotWriter.BodyIsSafe | libproxy/dottransfer.cc:161-276 | a CRLF body offered that way goes out as its stuffing and, after the shutdown, as whole lines none of which is a lone dot |
| DotWriter.InStepExact | libproxy/dottransfer.cc:187-220 | the parity of line-feed runs and the writer's own states say the same |
| DotWriter.FullPhase | libproxy/dottransfer.cc:183-238 | the two goto-connected phases come to one character scan that escapes at most a fixed number of dots |
| DotWriter.ScanVersusStuff | libproxy/dottransfer.cc:183-238 | what a call sends is the stuffing of what it takes, or shorter by exactly the dots it misses |
| DotWriter.SessionShort | libproxy/dottransfer.cc:161-246 | a session never sends more than the stuffing, and less when it begins out of step |
| DotWriter.CrlfHasNoSkew | libproxy/dottransfer.cc:187-220 | with CRLF line ends the automaton always knows where lines begin |
| DotWriter.SecondDotIsMissed | libproxy/dottransfer.cc:203-215 | a text on which a second dot goes out unescaped |
| DotWriter.DotAfterTwoFeedsIsMissed | libproxy/dottransfer.cc:218-220 | a text on which a dot after two line feeds goes out unescaped |
| DotStall.ShortWriteExact | libproxy/dottransfer.cc:221-227 | CRLF text without a dot to be escaped, written up to any point or refused: the resumed output is the stuffed text if and only if the pieces that follow are ones SessionExact accepts and not (the buffer ends a line, the cut does not, and the rest begins with a dot or with the line feed before one) |
| DotStall.StopBeforeDotExact | libproxy/dottransfer.cc:203-216 | the write before a dot, cut anywhere or refused: right if and only if the following pieces are and the dot is not the first byte |
| DotStall.RefusedDotExact | libproxy/dottransfer.cc:229-238 | the escaping dot not taken, for any state and any further answers: right if and only if the following pieces are and the stream said NORMAL or the dot is the first byte; else the bytes before it go out twice |
| DotStall.FirstDotPassed | libproxy/dottransfer.cc:203-238 | a first byte escaped leaves the rest of the call as it would be in mid-line |
| DotStall.ShortAfterDotExact | libproxy/dottransfer.cc:203-238 | a write cut short after a dot escaped in mid-buffer: never right when refused, right before another dot if and only if it stops short of it, and at the end of the buffer under the condition of ShortWriteExact, each time with the following pieces right |
| DotFit.FitExact | libproxy/dottransfer.cc:187-220 | from a wrong state a CRLF text is sent right exactly when its first bytes do not depend on the state and its pieces are right |
| DotStall.RepeatedFeed | libproxy/dottransfer.cc:229-238 | going back to before a dot that begins a line is never made up for later |
| DotStall.OwedDot | libproxy/dottransfer.cc:229-238 | a call that owes a dot sends it and goes on as from mid-line |
| DotStall.ShortWriteLosesDot | libproxy/dottransfer.cc:221-227 | one short write and two lines of CRLF text that lose a dot |
| DotStall.ShortWriteAddsDot | libproxy/dottransfer.cc:221-227 | one short write that adds a dot |
| DotStall.WaitingDotRepeats | libproxy/dottransfer.cc:229-238 | an escaping dot that has to wait, and makes the bytes before it go out twice |
| DotSending.StallsExact | libproxy/dottransfer.cc:161-246 | any text on any streams, stopped any number of times: nothing is lost, repeated, reordered or added but dots in front of dots, if and only if no call is refused after it has written |
| DotSending.StuffedIsNeverLate | libproxy/dottransfer.cc:161-246 | only such a run can send the stuffed text |
| DotSending.LateExact | libproxy/dottransfer.cc:203-238 | a call reports a positive count with an answer other than NORMAL exactly when the escaping dot, or the write after it, is refused in mid-buffer |
| DotSending.SendBody | libproxy/dottransfer.cc:161-276 | repeated calls and the shutdown on a stream that takes everything send preamble, session and line end; a CRLF body in pieces that SessionExact accepts arrives stuffed, in whole lines, none a lone dot; without any call not even the preamble goes out |
| DotSending.SendPiece | libproxy/dottransfer.cc:161-246 | one such call sends the preamble if it is due, and then the scan of its piece |
| DotWriter.DotWriter.WritePreamble | libproxy/dottransfer.cc:125-145 | goes on where the last write stopped, and is NORMAL exactly when the write was and all is out |
| DotWriter.DotWriter.DstWrite | libproxy/dottransfer.cc:161-246 | no data before the whole preamble; afterwards exactly the two phases, on any stream |
| DotWriter.DotWriter.DstShutdown | libproxy/dottransfer.cc:260-276 | a body left in mid-line is closed with CRLF unless the transfer failed |
| DotWriter.DotWriter.ScanForDot | libproxy/dottransfer.cc:187-220 | the loop stops at the first dot met just after a line feed |
| DotReader.DecodeExact | libproxy/dottransfer.cc:47-112 | for all lines and all ways they arrive in fragments, the reader gives back the text and ends at the terminator if and only if every line with a leading dot on the wire arrives in one piece |
| DotReader.EndsExact | libproxy/dottransfer.cc:47-112 | whatever arrives, the message ends if and only if a whole line is a lone dot |
| DotReader.ReadUndoesStuff | libproxy/dottransfer.cc:47-112 | reading undoes the stuffing of any text of lines |
| DotReader.DecodeArrival | libproxy/dottransfer.cc:67-95 | what one line comes to, by its fragments |
| DotReader.ContinuationDot | libproxy/dottransfer.cc:69-95 | a lone dot that continues a line neither ends the message nor is taken off |
| DotReader.SplitDotIsKept | libproxy/dottransfer.cc:69-95 | a stuffed line in two pieces that keeps the added dot |
| DotReader.DotReader.SrcRead | libproxy/dottransfer.cc:47-112 | the buffer is edited in place to exactly that reply, within its size; the end is reported exactly at a lone dot, an error exactly at the end or failure of the line stream |
| PlugMask.UpdateAllSeals | lib/plugsession.cc:67-104 | over every order and repetition of events an endpoint is removed exactly when both its sides have ended, the session destroyed exactly when both endpoints are |
| PlugMask.OrderIndependent | lib/plugsession.cc:67-104 | the final mask depends only on which events happened |
| PlugMask.UpdateSeals | lib/plugsession.cc:67-104 | an update never clears a bit |
| PlugMask.AllEnded | lib/plugsession.cc:67-104 | a history of events destroys the session exactly when it has ended all four sides |
| Plug.Direction.ReadInput | lib/plugsession.cc:106-134 | reads into the empty buffer, conserving bytes |
| Plug.Direction.WriteOutput | lib/plugsession.cc:136-168 | NORMAL exactly with an empty buffer, AGAIN exactly with the output armed |
| Plug.Statistics.CountPacket | lib/plugsession.cc:117-131 | over any number of packets the policy has been asked once per full interval, its answers used in order, and a packet is vetoed exactly when an answer due with it is a refusal |
| Plug.ReadPacket | lib/plugsession.cc:106-134 | a packet read is counted, and ends the step exactly when the source has none or the policy refuses it |
| Plug.CopyData | lib/plugsession.cc:170-222 | at most 30 reads; with a destination input is armed exactly when the buffer is empty and output exactly when it is not; without one nothing is armed if and only if the buffer has a size, the next 30 answers of the source are data, the last of them not empty, and the policy refuses none of the packets; at the source's end everything read was delivered |
| Plug.StallExample | lib/plugsession.cc:194-219 | such a direction, left with nothing armed |
| Plug.Session.UpdateEofMask | lib/plugsession.cc:67-104 | the mask stays the one that belongs to the sides ended so far; finish is called exactly at the transition to destroyed, once over the whole history |
| Plug.Session.MaskIsUpdateAll | lib/plugsession.cc:67-104 | in every state of a session the mask is what the updates of its history compute, although the session keeps only the mask |
| Plug.Session.MaskIsShut | lib/plugsession.cc:225-473 | in every state a side of the client or the server is marked exactly if that half of its stream has been shut down, or everything was ended |
| Plug.SidesExact | lib/plugsession.cc:225-473 | the sides marked by each of the six callbacks are the half it reads and the half it writes |
| Plug.ResultExact | lib/plugsession.cc:170-222 | the result of a copy step is the answer of its last stream call, except that a veto is an end of file |
| Plug.Session.EndVetoed | lib/plugsession.cc:106-134 | a veto ends all sides from inside the copy step; the end-of-file result handled afterwards changes nothing more |
| Plug.Session.OnReady | lib/plugsession.cc:225-473 | at a soft end a callback shuts down and marks exactly the half its direction reads and the half it writes; an error, a veto or a hard end is the end of everything, and finishes the session once; only an error drops the callback |
| Plug.Session.OnTimeout | lib/plugsession.cc:475-485 | a timeout finishes the session once |
| DimHash.EnumerateExact | lib/dimhash.cc:76-102 | the vectors tried for all parts are exactly the component-wise generalisations |
| DimHash.ChainExact | lib/dimhash.cc:76-102 | a chain holds the part and, by its flag, the empty wildcard or all its prefixes |
| DimHash.ExactWins | lib/dimhash.cc:353-378 | an entry under the very vector asked for always wins |
| DimHash.SearchExact | lib/dimhash.cc:161-184 | without the order of the search: it hits if and only if there is an entry for a generalisation of some first parts, and then the best one: of the most parts and, among those, with the earlier parts as specific as they can be |
| DimHash.BestUnique | lib/dimhash.cc:161-184 | there is only one best entry |
| DimHash.MostSpecificWins | lib/dimhash.cc:161-184 | the best entry is a most specific one: none stands under a vector between it and the parts asked for |
| DimHash.KeyInjective | lib/dimhash.cc:117-142 | equal keys of colon-free vectors mean equal lengths and parts, up to an asterisk for an empty part |
| DimHash.KeyFits | lib/dimhash.cc:117-142 | five parts of a hundred characters fit the key buffer with the terminator |
| DimHash.InsertThenFind | lib/dimhash.cc:270-341 | inserting and deleting through composite keys is inserting and deleting normalised vectors |
| DimHash.CollidesExact | lib/dimhash.cc:117-142 | in a table for one or two parts, or for two, an accepted vector shares its key with a different accepted one if and only if it has two parts where one is accepted (and the key is let through as a part), or the key has another separator to be cut at, with neither side a lone asterisk |
| DimHash.ColonCollides | lib/dimhash.cc:117-142 | two different vectors with a colon that share a key |
| DimHash.FitsExact | lib/dimhash.cc:117-142 | the key fits the buffer with its terminator if and only if its parts and separators do |
| DimHash.GuardIsShort | lib/dimhash.cc:129-130 | every part as long as the buffer passes the guard and does not fit |
| DimHash.Table.ComposeKey | lib/dimhash.cc:117-142 | the loop joins the parts, or refuses parts longer than the buffer |
| DimHash.Table.Lookup | lib/dimhash.cc:270-283 | finds the entry under the composite key if the number of parts is accepted |
| DimHash.Table.Insert | lib/dimhash.cc:324-341 | replaces or adds one entry, or nothing |
| DimHash.Table.Delete | lib/dimhash.cc:293-313 | removes one entry, or nothing |
| DimHash.Table.RecSearch | lib/dimhash.cc:161-184 | the backtracking over overwritten buffers terminates and returns the first hit of the enumeration |
| DimHash.Table.Search | lib/dimhash.cc:353-378 | for an accepted number of parts, hits if and only if some first parts have an entry for a generalisation, and returns the best |
| SslHandshake.RunOrdered | lib/proxyssl.cc:1698-1853 | over every run of unforced requests with both sides forced, the second side starts only while the first has a session, the first is never pending, and a request waits only while the first has none |
| SslHandshake.DelayedIsServedAtOnce | lib/proxyssl.cc:1768-1787 | a delayed request is started once and cleared in the call in which the first side succeeds, and stays when it does not |
| SslHandshake.AnswerExact | lib/proxyssl.cc:1698-1790 | in every configuration and state, a request answers FALSE if and only if the connection it needs cannot be made or the last handshake it started failed |
| SslHandshake.DelayedAnswers | lib/proxyssl.cc:1735-1747 | a request that has to wait answers TRUE, starts nothing of its own and is left pending |
| SslHandshake.DelaysExact | lib/proxyssl.cc:1723-1740 | an unforced request waits exactly when the other side is first, has no session, and is protected and at least as strict |
| SslHandshake.ShakesExact | lib/proxyssl.cc:1749-1790 | the sessions and waiting requests that a handshake leaves |
| SslHandshake.RunShaken | lib/proxyssl.cc:1698-1790 | over every run, in every configuration, a side has a session only if a handshake of that side left one |
| SslHandshake.BrokenIsShakenAgain | lib/proxy.cc:603-644 | a connection made in place of a broken one never goes on with its session |
| SslHandshake.ServedTwiceExact | lib/proxyssl.cc:1710-1787 | in every ordered state a client request starts the client handshake at most twice, and twice if and only if there is no client session, one was waiting, the connect is forced, needed and succeeds, and both handshakes it then performs succeed |
| SslHandshake.ServedTwiceIsReached | lib/proxyssl.cc:1710-1787 | a run over a broken server connection that leads there |
| SslHandshake.ConnectOrdered | lib/proxy.cc:583-653 | connecting the server, also over a broken connection, keeps the order |
| SslHandshake.ProxySsl.RequestHandshake | lib/proxyssl.cc:1698-1790 | refines the request, including its recursion through the server connect |
| SslHandshake.ProxySsl.ConnectServer | lib/proxy.cc:583-653 | refines the connect step |
| SzigNames.EscapeRoundTrip | lib/szig.cc:787-841 | unescaping an escaped name gives it back, for every C string |
| SzigNames.EscapeCharExact | lib/szig.cc:820-841 | exactly the printable characters and DEL, except dot and percent sign, are sent as they are |
| SzigNames.XDigitExact | lib/szig.cc:762-777 | the hexadecimal digits, in either case, and their values |
| SzigNames.BadEscape | lib/szig.cc:787-808 | an escape without two hexadecimal digits is dropped |
| SzigNames.EscapeIsPlain | lib/szig.cc:820-841 | an escaped name holds no dot and no blank |
| SzigNames.FullNameReadsBack | lib/szig.cc:1837-1849 | splitting and unescaping a printed full name gives back the path |
| SzigNames.FullNamePieces | lib/szig.cc:1906-1918 | the last piece of a full name is the node's escaped name, the rest its parent's full name |
| SzigNames.FullNameHasNoBlank | lib/szig.cc:1873-1885 | a full name is one argument of a command |
| SzigNames.EscapeName | lib/szig.cc:820-841 | the loop computes the escape |
| SzigNames.UnescapeName | lib/szig.cc:787-808 | the loop computes the unescape, and overruns exactly at a percent sign with fewer than two characters after it |
| SzigTree.TreeRefinesMap | lib/szig.cc:652-756 | every reachable tree is strictly sorted at every level and holds exactly the paths and values of a finite map run through the same changes |
| SzigTree.GrowExact | lib/szig.cc:862-918 | creating a path makes it and its ancestors exist, stores the value, and changes nothing else |
| SzigTree.PruneExact | lib/szig.cc:719-732 | removing a node removes it and everything below, and changes nothing else |
| SzigTree.Canonical | lib/szig.cc:652-756 | two sorted trees with the same paths and values are equal |
| SzigTree.LowerBoundSplits | lib/szig.cc:652-686 | in a sorted array a child is found if and only if it is there, and otherwise the index splits the array |
| SzigTree.LookupChild | lib/szig.cc:652-686 | the binary search returns the child, or the only order-preserving insertion index |
| SzigTree.InsertCell | lib/szig.cc:697-710 | the memmove opens the gap without losing a cell |
| SzigTree.RemoveCell | lib/szig.cc:719-732 | the memmove closes the gap without losing another cell |
| SzigTree.AddNamedChild | lib/szig.cc:741-756 | returns the child, present or new, in a tree grown by it |
| SzigTree.TreeLookup | lib/szig.cc:862-918 | finds the node of the unescaped path, each name cut at an escaped NUL, its parent and its index there, or none of them |
| SzigTree.TreeCreate | lib/szig.cc:862-918 | with creation: the tree grown by that path and nothing else |
| SzigConns.LiveExact | lib/szig.cc:1441-1522 | over every run of starts and stops, in any order and repetition, a connection has its node exactly while its last event was a start |
| SzigConns.InstanceExact | lib/szig.cc:1491-1522 | an instance node exists exactly while one of its connections is live, so none is left without children |
| SzigConns.ReportedExact | lib/szig.cc:1441-1478 | a property node holds the value last reported since the connection's last stop, and exists only if there was one |
| SzigConns.ServiceExact | lib/szig.cc:1455-1456 | a service node stays for good once created |
| SzigConns.StopExact | lib/szig.cc:1491-1522 | a stop removes the connection's subtree, and the instance node if and only if no other secondary is under it |
| SzigConns.StartExact | lib/szig.cc:1441-1478 | a start adds its path and properties and disturbs nothing else |
| SzigConns.ConnectionTree.FlatConnectionProps | lib/szig.cc:1441-1478 | refines the start event |
| SzigConns.ConnectionTree.DelConnectionProps | lib/szig.cc:1491-1522 | refines the stop event, and reports exactly the unknown connections |
| SzigWalk.WalkAll | zorpctl/ProcessAlgorithms.py:597-615 | the walk over GETVALUE, GETCHILD and GETSBLNG ends, and gives back the whole tree if and only if valued nodes are leaves with plain values and no top-level node is unnamed or called None |
| SzigWalk.Walk | zorpctl/ProcessAlgorithms.py:610-615 | from any printed name it returns what a recursion over the tree itself would |
| SzigWalk.GetChilds | zorpctl/ProcessAlgorithms.py:597-608 | every child it can see is visited once, in increasing order, each under its own key |
| SzigWalk.TopNoneIsLost | zorpctl/szig.py:157-159 | a restorable tree of one node that is walked to nothing |
| SzigWalk.RestoreExact | zorpctl/ProcessAlgorithms.py:610-615 | a walked subtree restores the original if and only if valued nodes are leaves with plain values |
| SzigWalk.ReplyExact | zorpctl/szig.py:105-136 | a value passes the client's reply handling unchanged if and only if it is not None and has no status prefix |
| SzigWalk.StatusIsCut | zorpctl/szig.py:105-136 | a status word is taken off a response, once |
| SzigWalk.NameReply | zorpctl/szig.py:128-159 | a full name passes it unchanged if and only if it is not that of a top-level node called None |
| SzigWalk.LookupPrinted | lib/szig.cc:1837-1849 | a printed full name looks up the very node it was printed for |
| SzigWalk.GetValue | lib/szig.cc:1887-1896 | the printed value of the node, or None |
| SzigWalk.GetChild | lib/szig.cc:1897-1905 | the full name of the first child, or None |
| SzigWalk.GetSibling | lib/szig.cc:1906-1919 | the full name of the next node in the parent's array, or None at the end, at the root and for an unknown name |
| SzigWalk.Trim | lib/szig.cc:1910-1915 | the loop cuts the last piece off |
| SzigWalk.KeyIsFresh | zorpctl/ProcessAlgorithms.py:600-605 | no two children share a dictionary key |
| SzigAverage.Aggregator.OnTick | lib/szig.cc:1165-1259 | over every run of ticks the sum is the total of the queue and the growth of the counter since the last tick popped off, and the published value is the truncated quotient; while the clock has not gone back that tick is the last one outside the window, and queued times are in order inside it |
| SzigAverage.Aggregator.constructor | lib/szig.cc:1183-1215 | the interval is that of the minutes the node is named after: 1, 5 or 15 |
| SzigAverage.QuotientExact | lib/szig.cc:1256-1256 | the average is rounded towards zero |
| SzigAverage.AnyTick | lib/szig.cc:1228-1256 | the queue after any tick is exactly the non-zero increments of the ticks not popped off |
| SzigAverage.AfterTick | lib/szig.cc:1228-1256 | after a tick that does not go back it is exactly the non-zero increments inside the window |
| SzigAverage.PopSamples | lib/szig.cc:1233-1242 | popping old entries off the front drops exactly the expired ticks |
| SzigAverage.TotalSamples | lib/szig.cc:1228-1231 | increments add up to the growth between two ticks |
| SzigAverage.IsOlderExact | lib/szig.cc:1136-1147 | the comparison of second and microsecond pairs is the comparison of times |
| SzigAverage.Aggregator.Expire | lib/szig.cc:1233-1245 | the loop keeps the sum equal to the queue's total |

## Left out

- Socket, netlink and datagram input and output, and the parsing of netlink messages: the model starts from parsed messages.
- Interface-group watches: their unregistration works on the wrong list and their notifications are not incremental.
- Policy loading, Python glue, proxy stacking and the main loop: process plumbing.
- OpenSSL, certificates, the asynchronous client handshake and forced requests in the ordering theorem: forced requests bypass the pending logic.
- Locks and thread interleaving below the level of one operation: each operation is one step.
- Log texts, reference counts of keys and sockets, and memory that is only freed.
- Machine integer widths: counters, times and ids are unbounded.
- IfMonitor.Monitor.ChangeIfaceAddr: keeps the addresses as a sequence; the fixed array and its memmove are in DeleteCell.
- IfMonitor.RunAgrees: assumes that no two known interfaces share a name, as the kernel promises, and excludes the clipped names of RegisterExact.
- SzigAverage.Aggregator.constructor: requires a name the source can parse, because it asserts that.
- Transfer.Transfer.constructor: needs fresh hops, and buffers with a size; Pass shows that the copy loop ends only with one.
- Transfer.Transfer.Run: does not model content-type detection, stacking negotiation or the error objects of failed calls.
- DotStall.ShortWriteExact: like its neighbours, is about CRLF text, one call cut short, and a stream that takes everything afterwards; over several stalls StallsExact says what becomes of the text, not of each dot.
- DimHash.CollidesExact: is about tables of two dimensions, as are all that the program builds.
- DimHash.Table.ComposeKey: returns an accepted key whole even where it overruns the buffer; FitsExact says where that is.
- DimHash.Table.Search: requires parts shorter than 100 characters, because longer ones overrun the search's own buffers.
- SzigTree.AddNamedChild: returns a new value of the parent; nodes are values, and only the arrays of InsertCell and RemoveCell are updated in place.
- SzigTree.TreeLookup: names on whose unescaping the source reads past the terminator are excluded.
- SzigTree.TreeCreate: excludes the same names, because what the source reads there is not determined.
- SzigConns.ConnectionTree.FlatConnectionProps: leaves out the per-zone counters kept elsewhere in the tree; ids are taken as already printed.
- SzigWalk.WalkAll: replies are not cut off at the sizes of the two buffers, and the tree does not change during the walk.
- The other SZIG aggregators (maximum, count, string append, per-zone counts): each folds one value into one node, which says nothing more about the tree or the window.
