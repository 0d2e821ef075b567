# Verified model of FileTransferWithMFC

A Dafny model of the parts of the repository that hold loops, state or arithmetic, with proofs of
what they are for. `dafny verify dfyconfig.toml` checks the whole project.

- **Layer linker** (`LayerNotation.dfy`, `LayerManager.dfy`, `LayerProofs.dfy`, `Dialog.dfy`).
  `CLayerManager` reads a layer stack written as text, cuts it into a heap list of tokens and
  interprets the list with a fixed stack. The class is modelled with its arrays, node list and counters; `BaseLayer.cpp`
  is not part of this model, so each link call is recorded as an event (mode, parent, child). The
  notation has a meaning of its own, a tree with its parent-child links in pre-order, and the
  interpreter is proved against it. Where the C++ program would leave defined behaviour (a store past
  the stack or the table, a call through NULL, a stale scratch buffer, a name read beyond an empty
  token, a token too long for its node) the model stops with a `Fault`. `ConnectExactly` gives the
  condition under which a tree's text is carried out: both ends of every link registered, and at
  most 255 brackets open at once. `Dialog.dfy` draws the consequence for the stack the dialog sets up.
- **User-level bridge** (`Bridge.dfy`, `BridgeProofs.dfy`, `Forwarding.dfy`). Two forwarder threads,
  the stop flag, the console lock and the Ctrl+C handler are atomic steps of one system; an
  interleaving is any sequence of them. Captures, transmissions, lock scheduling and the size of
  each console write are free inputs of the steps. Safety, absence of deadlock and finite, prompt
  shutdown are proved for every interleaving. `Forwarding.dfy` holds `CaptureAndForwardThread` as
  the loop it is and shows that it follows the thread program of the system; conversely
  `ThreadRunsItsProgram` shows that every interleaving runs that program in each thread.
- **Driver buffer** (`WordAlign.dfy`, `PacketDump.dfy`, `AdapterNames.dfy`). The walk over packed
  records, the hex dump of each record in rows of 16, and the loop that splits the adapter-name list.
- **Smaller cores** (`TcpTop.dfy`, `AddressText.dfy`, `MacText.dfy`): the traffic rates of `tcptop`,
  the ring of result buffers of `iptos`, and the hardware-address text of the dialog.
- `Text.dfy` and `Common.dfy` hold the C library's number formats and shared types.

A C string is the sequence of characters before its terminator. `int`, `long`, `u_int` and `ULONG`
are 32 bits wide, `LONGLONG` 64; wrap-around and overflow are written out where they can happen. The
classic locale's `isspace` and `isprint` are meant.

Two places where the code and what is said about it differ; the model follows the code. `Push` calls
the stack full only when the index has reached 255, while the array has 255 cells, so with 255
layers on the stack it stores one cell past the end. In the notation a closing bracket does not
restore the current layer, so a second bracket group belongs to the last layer named inside the
first (`SecondGroupBelongsToLastName`); it belongs to the name it follows exactly when it is empty or
those two are the same layer (`SecondGroupBelongsExactly`).

## Model

| member | source | states |
|---|---|---|
| LayerNotation.MakeTokensUndoesJoin | ipc2019/LayerManager.cpp:63-98 | tokenising words joined by single blanks gives back exactly those words if and only if each is non-empty, free of white space and shorter than 50 characters |
| LayerNotation.ExtraBlankRepeatsWord | ipc2019/LayerManager.cpp:65-69 | the tokeniser steps over one blank at a time, so a blank put in front of any text whose first word fits a token adds one copy of that word, which then comes twice |
| LayerNotation.DoubleBlankRepeatsWord | ipc2019/LayerManager.cpp:65-69 | a doubled blank after any word makes the first word of whatever follows come out twice, and all else is tokenised as before |
| LayerNotation.WordLengths | ipc2019/LayerManager.cpp:63-85 | a lone word is stored whole up to 49 characters, does not fit its node from 50 to 99, and from 100 on is stored as an empty token |
| LayerNotation.TrailingBlankFaults | ipc2019/LayerManager.cpp:65-69 | a blank after the last word, with or without more white space, leads to one more turn on stale characters |
| LayerNotation.OnlyBlankAdvances | ipc2019/LayerManager.cpp:67-69 | each of the six white-space characters ends a word, but only a blank leads on: the text from a tab or line break to the next blank is lost |
| LayerNotation.TextDeterminesTree | ipc2019/LayerManager.cpp:144-176 | the bracket notation is unambiguous: a text is the notation of at most one tree |
| LayerManager.FindIsFirst | ipc2019/LayerManager.cpp:44-53 | the layer found is the first one registered under the name; NULL exactly when no layer bears it |
| LayerManager.Manager.constructor | ipc2019/LayerManager.cpp:20-27 | a new manager has an empty list, stack and table |
| LayerManager.Manager.AddLayer | ipc2019/LayerManager.cpp:34-37 | appends one layer to the table; with 255 in it already, the unguarded store is one cell past the table |
| LayerManager.Manager.GetLayer | ipc2019/LayerManager.cpp:44-53 | returns the first layer registered under a name |
| LayerManager.Manager.Push | ipc2019/LayerManager.cpp:101-112 | pushes below 255 layers, stores past the array at exactly 255, and does nothing beyond |
| LayerManager.Manager.Pop | ipc2019/LayerManager.cpp:114-129 | returns and removes the top of the stack; NULL and no change on an empty one |
| LayerManager.Manager.GetTop | ipc2019/LayerManager.cpp:131-142 | returns the top of the stack, NULL on an empty one |
| LayerManager.Manager.AddNode | ipc2019/LayerManager.cpp:87-98 | the list stays free of repeated nodes, chained from head to tail and ended by NULL, and is the old list followed by the new node |
| LayerManager.Manager.MakeList | ipc2019/LayerManager.cpp:63-74 | the loop ends and appends fresh nodes that spell exactly the tokens of the text up to the first fault; a word of 100 or more characters empties the scratch buffer and is stored as an empty token |
| LayerManager.Manager.LinkToken | ipc2019/LayerManager.cpp:150-172 | one turn of the loop has the effect of one step of the interpreter on stack, current layer and link calls |
| LayerManager.Manager.LinkLayer | ipc2019/LayerManager.cpp:144-176 | the traversal ends, and stack and link calls are those of a run of the interpreter over the listed tokens |
| LayerManager.Manager.ConnectLayers | ipc2019/LayerManager.cpp:55-61 | tokenises and then interprets everything listed so far; on a fresh manager this is `Connect` of the text |
| LayerProofs.StateBetweenTokens | ipc2019/LayerManager.cpp:144-176 | between any two tokens of a registered tree the stack holds exactly the layers with open brackets, `pLayer` is the last layer named, the links issued are those already read, and nothing has faulted |
| LayerProofs.OpenLayersAreAPath | ipc2019/LayerManager.cpp:154-169 | the layers with open brackets form a root-to-parent path of links already issued |
| LayerProofs.ConnectIssuesTreeLinks | ipc2019/LayerManager.cpp:55-74 | connecting the text of any registered tree up to 255 deep issues exactly its links in pre-order, with the right mode, between the first layers registered under the names, and empties the stack |
| LayerProofs.ConnectOverrunsStack | ipc2019/LayerManager.cpp:101-112 | a registered tree more than 255 deep makes some push store past the array |
| LayerProofs.RunOnlyRegistered | ipc2019/LayerManager.cpp:144-176 | whatever the tokens, every link call goes from a registered layer to a registered layer or NULL |
| LayerProofs.ConnectExactly | ipc2019/LayerManager.cpp:55-176 | the text of a tree is carried out on a fresh manager if and only if both ends of every link are registered and at most 255 brackets are open at once |
| LayerProofs.NestedExactly | ipc2019/LayerManager.cpp:101-112 | a registered layer can be bracketed inside itself 255 deep; from 256 on a push stores past the array |
| LayerProofs.ModesByCharacter | ipc2019/LayerManager.cpp:165-170 | `*`, `+` and `-` issue the links both ways, above and below, from the layer whose bracket is open |
| LayerProofs.UnknownNameSkipped | ipc2019/LayerManager.cpp:150-151 | a first name that no layer bears is passed over and the next token, whatever it is, is looked up as a name |
| LayerProofs.UnmarkedTokenRenames | ipc2019/LayerManager.cpp:158-170 | a token without a mark issues no link; it stands for the layer named by the rest of it, as if that layer had been named instead |
| LayerProofs.ExtraClosingIgnored | ipc2019/LayerManager.cpp:114-129 | a closing bracket on an empty stack changes nothing |
| LayerProofs.FaultyTokens | ipc2019/LayerManager.cpp:158-170 | a link outside all brackets calls through NULL, and an empty token after a layer is read beyond its terminator |
| LayerProofs.SecondGroupBelongsToLastName | ipc2019/LayerManager.cpp:154-157 | a second bracket group after a name belongs to the last layer named inside the first |
| LayerProofs.SecondGroupBelongsExactly | ipc2019/LayerManager.cpp:154-157 | a second bracket group belongs to the name it follows if and only if it is empty or the last layer named inside the first group is that very layer |
| Dialog.DialogTokens | ipc2019/ipc2019Dlg.cpp:82 | the dialog's stack, written in the notation, has these fourteen tokens |
| Dialog.DialogText | ipc2019/ipc2019Dlg.cpp:82 | the string the dialog passes to `ConnectLayers` is the notation of its stack |
| Dialog.DialogLinks | ipc2019/ipc2019Dlg.cpp:82 | that stack asks for five links in both directions, with the dialog above both applications |
| Dialog.DialogConnects | ipc2019/ipc2019Dlg.cpp:74-82 | connecting that string with the five layers registered, in any order and among any others, issues exactly those five links without a fault and leaves an empty stack |
| Dialog.ConnectDialog | ipc2019/ipc2019Dlg.cpp:74-82 | on a new manager the five `AddLayer` calls and `ConnectLayers` run without a fault, and the five links join those five layers themselves |
| BridgeProofs.LocalRunInv | ipc2019/WpdPack/Examples-remote/UserLevelBridge/UserBridge.c:368-445 | over any run of a forwarder: packets read are those tried and at most one in flight, the counter is the number accepted modulo 2^32, and the messages are one length line a packet and one error line a refusal |
| BridgeProofs.RunInv | ipc2019/WpdPack/Examples-remote/UserLevelBridge/UserBridge.c:368-467 | every step of either forwarder or the handler keeps the system invariant |
| BridgeProofs.PacketsCross | ipc2019/WpdPack/Examples-remote/UserLevelBridge/UserBridge.c:300-305 | in every interleaving, what is sent on an adapter is what was captured on the other one, in order, minus refused packets and at most one in flight |
| BridgeProofs.PacketsCounted | ipc2019/WpdPack/Examples-remote/UserLevelBridge/UserBridge.c:402-416 | packets captured are packets sent plus refusals plus those in flight; `n_fwd` is the number sent modulo 2^32 |
| BridgeProofs.ConsoleExclusion | ipc2019/WpdPack/Examples-remote/UserLevelBridge/UserBridge.c:390-442 | a forwarder holds the lock exactly in the console section, never both, and never across a receive or a send |
| BridgeProofs.OutputIsWholeMessages | ipc2019/WpdPack/Examples-remote/UserLevelBridge/UserBridge.c:390-442 | the console shows whole messages and a part of at most the one in progress, each forwarder's in its own order |
| BridgeProofs.CanMove | ipc2019/WpdPack/Examples-remote/UserLevelBridge/UserBridge.c:380-442 | a forwarder can take a step if and only if it is not done and does not wait for the lock the other one holds |
| BridgeProofs.NoDeadlock | ipc2019/WpdPack/Examples-remote/UserLevelBridge/UserBridge.c:380-467 | while a forwarder is not done some such forwarder can move; when both are done the handler can |
| BridgeProofs.StopIsPrompt | ipc2019/WpdPack/Examples-remote/UserLevelBridge/UserBridge.c:380-467 | the stop flag stays set, and from then on each forwarder finishes at most one more send, reads at most one more packet and passes at most nine program points |
| BridgeProofs.ShutdownIsFinite | ipc2019/WpdPack/Examples-remote/UserLevelBridge/UserBridge.c:380-467 | once the flag is set, every run takes at most 19 steps besides one for each character still to come on the console, and begins at most six more messages |
| BridgeProofs.ThreadRunsItsProgram | ipc2019/WpdPack/Examples-remote/UserLevelBridge/UserBridge.c:368-445 | in every interleaving each forwarder runs its own program on its own events |
| BridgeProofs.ClosesOnce | ipc2019/WpdPack/Examples-remote/UserLevelBridge/UserBridge.c:420-442 | a finished forwarder has printed exactly one closing message, the last: the error message exactly when its last read failed, otherwise the true count modulo 2^32 |
| BridgeProofs.LengthLineReads | ipc2019/WpdPack/Examples-remote/UserLevelBridge/UserBridge.c:392-395 | a length line is the direction sign, the fixed words and the captured length as its one numeral |
| BridgeProofs.ErrorLinesRead | ipc2019/WpdPack/Examples-remote/UserLevelBridge/UserBridge.c:404-426 | the line for a refused packet is the fixed words around its captured length, the interface number (0 for the pair that captures on the first adapter) and the library's text; the capture error shows the library's text |
| BridgeProofs.ClosingLineReads | ipc2019/WpdPack/Examples-remote/UserLevelBridge/UserBridge.c:436-438 | the closing line is the fixed words around the interface number and the count, each as its one numeral |
| BridgeProofs.LineTellsMessage | ipc2019/WpdPack/Examples-remote/UserLevelBridge/UserBridge.c:390-442 | a printed line determines its message: two messages with the same line have the same kind, numbers, library text and, but for a capture error, forwarder |
| BridgeProofs.NoEarlyClosing | ipc2019/WpdPack/Examples-remote/UserLevelBridge/UserBridge.c:380-418 | no closing message before the loop has been left |
| Forwarding.ForwardPacket | ipc2019/WpdPack/Examples-remote/UserLevelBridge/UserBridge.c:390-416 | one packet: its length line, then either it is sent and counted modulo 2^32 or the error line follows; the thread program does the same |
| Forwarding.CloseThread | ipc2019/WpdPack/Examples-remote/UserLevelBridge/UserBridge.c:420-442 | the closing message, as the thread program does |
| Forwarding.ForwardLoop | ipc2019/WpdPack/Examples-remote/UserLevelBridge/UserBridge.c:380-418 | the loop handles exactly the packets delivered before the first round in which the flag is set or the read fails, and `res` is negative exactly when that read failed |
| Forwarding.CaptureAndForwardThread | ipc2019/WpdPack/Examples-remote/UserLevelBridge/UserBridge.c:368-445 | the thread sends the accepted packets in order, counts them modulo 2^32, prints exactly the lines of its rounds with their own error texts and, once ended, the closing message its ending calls for; its events are a run of the thread program of the bridge |
| Forwarding.RefusalReported | ipc2019/WpdPack/Examples-remote/UserLevelBridge/UserBridge.c:390-411 | the two lines of a refused packet stand in the output where its round does, with its length and that round's error text |
| WordAlign.ClearsLowBits | ipc2019/WpdPack/Include/Packet32.h:72-74 | the mask clears exactly the two low bits of a 32-bit word |
| WordAlign.AlignExactly | ipc2019/WpdPack/Include/Packet32.h:72-74 | the macro gives the least multiple of 4 not below its argument if and only if the argument is at most 2^32 - 4 |
| WordAlign.AlignIdempotentAndMonotone | ipc2019/WpdPack/Include/Packet32.h:72-74 | aligning twice changes nothing more, and alignment keeps the order |
| PacketDump.PrintHex | ipc2019/WpdPack/Examples-remote/PacketDriver/TestPacketCapture/TestPacketCapture.c:226-230 | prints the hex column of a row, padded to 16 bytes |
| PacketDump.PrintChars | ipc2019/WpdPack/Examples-remote/PacketDriver/TestPacketCapture/TestPacketCapture.c:232-235 | prints the character column of a row and leaves the cursor after it |
| PacketDump.PrintRows | ipc2019/WpdPack/Examples-remote/PacketDriver/TestPacketCapture/TestPacketCapture.c:209-238 | the nested loops print exactly the rows of the captured bytes and end with no length left |
| PacketDump.DumpShowsData | ipc2019/WpdPack/Examples-remote/PacketDriver/TestPacketCapture/TestPacketCapture.c:209-238 | reading either column of the dump back gives every captured byte once and in order |
| PacketDump.DumpShowsPrintable | ipc2019/WpdPack/Examples-remote/PacketDriver/TestPacketCapture/TestPacketCapture.c:232-235 | the character column shows each byte from 32 to 126 as the character of that code and every other byte as a dot |
| PacketDump.RowCells | ipc2019/WpdPack/Examples-remote/PacketDriver/TestPacketCapture/TestPacketCapture.c:226-230 | cell j of row i is the two lower-case digits of byte 16 * i + j and a blank, and three blanks past the end of the data |
| PacketDump.RowShape | ipc2019/WpdPack/Examples-remote/PacketDriver/TestPacketCapture/TestPacketCapture.c:215-238 | row i is labelled 16 * i in eight digits, its hex column is 48 wide, no row is empty and all but the last hold 16 bytes |
| PacketDump.HeaderFields | ipc2019/WpdPack/Include/Packet32.h:150-163 | the bytes at 8, 12 and 16 of a record are its captured, original and header length, least significant byte first, and the data is where the header length leads |
| PacketDump.PrintRecord | ipc2019/WpdPack/Examples-remote/PacketDriver/TestPacketCapture/TestPacketCapture.c:203-213 | one turn prints the record at the offset and moves to the word boundary after its data |
| PacketDump.PrintPackets | ipc2019/WpdPack/Examples-remote/PacketDriver/TestPacketCapture/TestPacketCapture.c:184-242 | the walk prints exactly the records whose offset lies inside the received length, once each and in order, each with its original length, captured length and data, and ends aligned, at or past the received length |
| AdapterNames.CopyName | ipc2019/WpdPack/Examples-remote/PacketDriver/TestPacketCapture/TestPacketCapture.c:96 | copies a name into the next row and leaves all other rows alone |
| AdapterNames.SplitAdapterNames | ipc2019/WpdPack/Examples-remote/PacketDriver/TestPacketCapture/TestPacketCapture.c:89-103 | the loop ends, and the rows hold the names delivered up to the first fault, the rest of the table being zero |
| AdapterNames.DeliversFitting | ipc2019/WpdPack/Examples-remote/PacketDriver/TestPacketCapture/TestPacketCapture.c:92-101 | whatever the buffer, a loop that ends without a fault delivers one to ten names, none empty, none longer than a row |
| AdapterNames.SplitExactly | ipc2019/WpdPack/Examples-remote/PacketDriver/TestPacketCapture/TestPacketCapture.c:89-103 | reading the rows back gives the driver's names if and only if there are one to ten, none empty and each under 1024 characters |
| AdapterNames.FaultyName | ipc2019/WpdPack/Examples-remote/PacketDriver/TestPacketCapture/TestPacketCapture.c:92-101 | after names that fit, an eleventh name or one of more than 1024 characters goes past the table or its row; the names before it are in the table |
| AdapterNames.NoSecondNul | ipc2019/WpdPack/Examples-remote/PacketDriver/TestPacketCapture/TestPacketCapture.c:92-101 | a list without its second NUL is read past its end |
| AdapterNames.LeadingNul | ipc2019/WpdPack/Examples-remote/PacketDriver/TestPacketCapture/TestPacketCapture.c:92 | the character before the list is read if and only if the list begins with a NUL |
| TcpTop.Monitor.DispatcherHandler | ipc2019/WpdPack/Examples-remote/tcptop/tcptop.c:105-146 | reports the delay and rates since the kept time stamp and keeps the new one |
| TcpTop.Monitor.Loop | ipc2019/WpdPack/Examples-remote/tcptop/tcptop.c:99-146 | over a run of samples every line is measured from the sample before |
| TcpTop.DelayExactly | ipc2019/WpdPack/Examples-remote/tcptop/tcptop.c:114-116 | the 32-bit delay is the true, positive one if and only if the stamp is later, at most 2147 seconds on, and the delay is below 2^31 |
| TcpTop.DelayDefinedExactly | ipc2019/WpdPack/Examples-remote/tcptop/tcptop.c:114 | when the 32-bit expression has a defined result at all, and that a stamp that goes back gives the true delay plus 2^32 |
| TcpTop.ReportDefinedExactly | ipc2019/WpdPack/Examples-remote/tcptop/tcptop.c:114-129 | a line is printed if and only if the delay is defined and not zero and both scaled counters stay below 2^63 |
| TcpTop.ReportsExactly | ipc2019/WpdPack/Examples-remote/tcptop/tcptop.c:99-146 | the lines of a run are those of its samples, one each and in order, every one measured from the sample before it |
| TcpTop.RunRatesRoundDown | ipc2019/WpdPack/Examples-remote/tcptop/tcptop.c:116-141 | in every run line i bears the stamp of sample i, and its bit and packet rates are the true ones over its delay, each rounded down by less than one |
| TcpTop.LineRoundsDown | ipc2019/WpdPack/Examples-remote/tcptop/tcptop.c:116-141 | the reported bit and packet rates are the true ones over the reported delay, each rounded down by less than one |
| TcpTop.DelaysAddUp | ipc2019/WpdPack/Examples-remote/tcptop/tcptop.c:114-145 | over any regular run each line's delay is the positive gap to the stamp before it, and the delays add up to the time from the first stamp to the last |
| TcpTop.AverageWithinOneBit | ipc2019/WpdPack/Examples-remote/tcptop/tcptop.c:116-145 | over any regular run the time-weighted average of the reported bit rates is at most the true one and less than 1 bit/s under it |
| AddressText.Printer.Iptos | ipc2019/WpdPack/Examples-pcap/iflist/iflist.c:137-147 | a call writes its text and terminator into the next buffer of the ring and touches nothing else |
| AddressText.DottedReadsBack | ipc2019/WpdPack/Examples-pcap/iflist/iflist.c:143-145 | the printed text denotes the argument, in fields without leading zeros |
| AddressText.PrintsMemoryOrder | ipc2019/WpdPack/Examples-pcap/iflist/iflist.c:143-145 | the four bytes are printed in the order they have in memory, least significant first |
| Text.OnlyNumeral | ipc2019/WpdPack/Examples-pcap/iflist/iflist.c:145 | a decimal number is printed as its one numeral: the digits of its value and no leading zero |
| AddressText.DottedFits | ipc2019/WpdPack/Examples-pcap/iflist/iflist.c:139-145 | the text and its terminator fit 16 characters |
| AddressText.ResultStaysLive | ipc2019/WpdPack/Examples-pcap/iflist/iflist.c:136-147 | in any sequence of calls a result is untouched by the next eleven |
| AddressText.TwelveLiveResults | ipc2019/WpdPack/Examples-pcap/iflist/iflist.c:136-147 | any two of twelve consecutive results are in different buffers and both still denote their own arguments |
| AddressText.TwelfthCallOverwrites | ipc2019/WpdPack/Examples-pcap/iflist/iflist.c:144 | the twelfth later call reuses the buffer |
| MacText.Stouc | ipc2019/ipc2019Dlg.cpp:402-407 | performs the overlapping 32-bit stores of the fields that convert, in order; a field may carry a sign, which negates modulo 2^32 |
| MacText.UctoS | ipc2019/ipc2019Dlg.cpp:409-414 | the text is canonical, six pairs of lower-case digits with colons, and converting it reads back the six bytes |
| MacText.ScansExactly | ipc2019/ipc2019Dlg.cpp:402-407 | one conversion takes white space and then the longest field of one or two digits, in either case, or a sign and a digit, and gives its value |
| MacText.FieldsConvert | ipc2019/ipc2019Dlg.cpp:402-407 | one to six fields with colons between them convert to their values, up to the end of the text or the first character that does not go on |
| MacText.CaseDoesNotMatter | ipc2019/ipc2019Dlg.cpp:402-407 | any text converts to the same values with its letters in upper case |
| MacText.UpperCaseConverts | ipc2019/ipc2019Dlg.cpp:402-414 | the text of six bytes, typed in upper case, converts to those bytes |
| MacText.StoresOverlap | ipc2019/ipc2019Dlg.cpp:404-406 | after any number of conversions the cells hold the low bytes of the values converted, then the three upper bytes of the last one, then what was there |
| MacText.CanonicalDetermined | ipc2019/ipc2019Dlg.cpp:402-414 | two canonical texts that convert to the same values are the same text |
| MacText.BytesSurvive | ipc2019/ipc2019Dlg.cpp:402-414 | `Stouc` of the text `UctoS` makes gives back the six bytes |
| MacText.TextSurvivesExactly | ipc2019/ipc2019Dlg.cpp:402-414 | `UctoS` after `Stouc` is the identity on a text if and only if it is canonical lower-case text |

## Left out

- What `SetUpperUnderLayer` and its siblings do to the layers, and all other layer classes: their sources are not part of this model.
- What the linker does after a fault (a stale scratch buffer, an overlong token, a name read beyond an empty token, a store past the stack or the table, a call through NULL): the model stops there.
- `GetLayer(int)`, `DeAllocLayer` and the destructor of `CLayerManager`: plain access and clean-up.
- A second `ConnectLayers` on one manager: covered by the contract of `ConnectLayers`, which keeps the old tokens, but no further result is drawn from it.
- The 5-second limit of the handler's wait, thread creation failures, device enumeration, filters and `main`'s own unlocked start message in the bridge.
- Termination of the bridge under a scheduler that never runs a thread or an adapter whose read never returns: shutdown is bounded in steps, not in time.
- The `_kbhit` return of `PrintPackets`, and the sign of its `%ld` for lengths of 2^31 and more: lengths are kept as numbers.
- `PrintPackets` on a buffer that is not a sequence of records, and a second adapter list in the same table.
- What the splitting loop does after a fault (reading before or past the buffer, an eleventh name, a name longer than a row): the model stops there. A row filled without a terminator is read as no C string.
- The fixed words around the columns of the hex dump, and the place of the two counters in the bytes of a `tcptop` sample: rows and samples hold the parts by name.
- The line that `tcptop` prints from the wall-clock form of the time stamp, and its start with an unset time stamp: the first stamp is a parameter.
- The target of `Stouc`: the three cells after the sixth byte belong to the model's target; what the dialog keeps there is not modelled.
- MacText.Stouc: a field `0x` uses up its two characters and then fails to match, as the C standard's section on `fscanf` has it; a library that accepts it as zero is not modelled.
- The rest of the dialog, all WinPcap calls and the other example programs.
