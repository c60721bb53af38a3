# Verified model of the NBSTFTP server

A Dafny model of a TFTP server (RFC 783 with the options of RFC 2347 and RFC 2348), and proofs about it.
It covers the transfer engine (packet layouts, request scanning, the per-client state machine, the client
and socket pools, the flush and retry passes), the growable vector underneath, and the configuration
reader. `dafny verify dfyconfig.toml` checks everything.

## How it is put together

| file | what it holds |
|---|---|
| `Options.dfy`, `Bytes.dfy`, `Arithmetic.dfy` | optional values; bytes, 16-bit fields, C strings, `strtol`; the allocation guard and `SizeReduce` |
| `Wire.dfy`, `Requests.dfy` | packet builders and what a peer decodes; the request scanner over the zeroed receive buffer |
| `Sessions.dfy`, `Clients.dfy` | `ProcessPacket` as a function on the transfer state, and the client object whose methods compute it |
| `Reactions.dfy`, `Aborts.dfy` | what each kind of datagram does, in literal bytes, spellings and paths; how an ERROR ends a session in any run |
| `Servers.dfy` | the two pools: lookup, allocation, receiving, flush pass, retry pass; runs over any events |
| `FlushPass.dfy`, `Pools.dfy`, `Listeners.dfy`, `Retransmission.dfy` | the exact flush pass; the keyed index and pool agreement; when listeners survive; state invariants and the retry budget |
| `Isolation.dfy`, `Hosts.dfy`, `NullFiles.dfy` | a peer's session in a run of the whole server equals a run of that peer alone; when that holds per host; when a null stream is used |
| `ReadTransfers.dfy`, `ReadSafety.dfy`, `ReadBound.dfy`, `ReadLoop.dfy` | the exact read stream; reading inside the crowd and over a lossy, duplicating, reordering network; how many packets that survives; a receiver's acknowledgements driving a read to its end |
| `WriteTransfers.dfy`, `WriteCrowd.dfy` | the lock-step write transfer, end to end, alone and inside the crowd |
| `FlatSequences.dfy`, `FlatVectors.dfy`, `Growth.dfy` | the flat-buffer vector refining sequences; amortised growth |
| `Scanner.dfy`, `Layout.dfy`, `Configuration.dfy`, `ConfigRoundTrip.dfy` | longest-match scanning, any layout between tokens, the grammar and its actions, the round trip |

Objects that the source updates in place are classes (`Client`, `Server`, `FlatVec`, `Lexer`, `Parser`). Each
method is proved to compute a function on values (`React`, `Deliver`, `Receive`, `Flush`, `Check`, `Lex`,
`Parse`), and the theorems are about those functions over all runs.

The constants and helper functions of the code (opcodes, error codes, the port key, the path builder, the
case-blind comparisons, the number scanner, the item table of the grammar) are each checked against an
independent reading: literal bytes on the wire, port fields, a path given byte by byte, the words letter by
letter, a decimal printer, the grammar written out.

A run of the server is a fold of `Next` over any list of events: a datagram from any peer with any answers of
the file system, a flush pass, a retry pass. The multiplexer is whatever order the events come in. Peers, the
clock, the file system and the wording of error messages are inputs.

The read theorems are stated on such runs directly. The write transfer is proved on one peer alone
(`Isolation.Alone`), where the passes that visit it come in any order, and `WriteTransferInTheCrowd` states it
on runs of the whole server: each step of the crowd is at most one action of the lone transfer
(`CrowdRefinesTransfer`).

## Where the code and one's expectation differ

- The option acknowledgement's last terminator lands on the first byte of the value, so the value always
  reads back empty (`DecodeQueuedOack`); three zero bytes follow. `OackPacket` is what the code queues,
  `IntendedOack` what RFC 2347 asks for.
- Acknowledgement and data block numbers are never compared with the expected one. Reading survives any
  network while fewer than 65536 DATA packets are sent, and that bound is exact over all runs
  (`SafetyBoundIsExact`); over a channel that keeps the order it has no bound (`ReadLoopIsCorrect`).
  Writing is correct for every source exactly when the channel delivers the blocks in order
  (`StoredCorrectlyIffInOrder`).
- The default read session sends its first block without testing for a short one, so a file under 512 bytes
  takes one more acknowledgement and one empty DATA packet (`AcksToFinish` in `ReadStreamIsExact`).
- The server drops a reader when the last block is flushed, so the acknowledgement of that block makes a new
  client, which no pass and no other peer removes (`ReadLoopCompletes`, `IdleClientStays`). Only a default read of a file
  under 512 bytes ends without one.
- The flush pass steps over the client behind a removed one (`SkippedIffPredecessorRemoved`); still every
  pass removes at least half of the marked clients.
- Nothing arms the retry counter, so from the initial state the retry pass never acts (`RunsStayHealthy`,
  `CheckLeavesUnarmed`); the retry budget is proved from an armed state.
- Port 32768 has no session: its negation does not fit the stored transfer ID (`LookupIsExact`,
  `LostPortNeverAdvances`).
- A client whose address text equals that of the listener it talks to takes the listener's pool entry with
  it when it goes; listeners are safe exactly without such a peer (`ListenersStayIffNoClash`). The model
  leaves the text free. The code formats the wrong bytes: for IPv4, `src/socket.c:180` hands `inet_ntop` the
  start of the socket address, so the text there depends on family and port only.
- Peers are told apart by descriptor and port alone, so two hosts that send from the same port to the same
  listener are one client, and one host's acknowledgement sends the other its next block
  (`StrangerAdvancesTransfer`). A host's session is its own exactly when no other peer shares its descriptor
  and port (`HostsAreIsolatedIffPortsDiffer`); a key in the theorems is such a pair.
- Configured port 65535 reads as "not set" (`PortsSurviveShort`).
- An ERROR is answered with the acknowledgement of block 1, whatever was going on (`ErrorEndsTransfer`).
- An ACK that reaches a client in the middle of a write transfer reads from the write stream, sends an empty
  DATA packet and gives the transfer up (`AckIsAnswered`: such a stream yields no bytes).
- A line comment on the last line needs its newline, else its slashes are two stray tokens; a comment that is
  never closed swallows the rest of the file (`LastLineNeedsNewline`, `UnclosedCommentEndsFile`).
- A block size request for a file that cannot be opened leaves the client sending without a stream until the
  flush pass that removes it. An ACK or DATA packet that arrives before that pass makes the code read or write
  through a null `FILE *`, and this is the only way there (`NullFileIsTouchedExactly`, `NullFileIsReachable`).
  That is undefined in C; the model lets such a call transfer nothing.

## Model

| member | source | states |
|---|---|---|
| Bytes.StrtolOfDecimal | src/process.c:339-348 | parsing a printed number gives the number back, and out of range exactly above the largest long |
| Bytes.StrtolOfText | src/process.c:339-348 | blanks, a sign, leading zeros and text behind the number are read as strtol reads them, out of range exactly outside the range of long |
| Bytes.StrtolOfNoNumber | src/process.c:339-339 | without a digit the value is 0 |
| Wire.LayoutsAreLiteral | src/packet.c:33-148 | DATA, ACK, ERROR, the intended and the queued option acknowledgement, byte by byte: 0,3 / 0,4 / 0,5 / 0,6, fields high byte first |
| Wire.DecodeData | src/packet.c:33-60 | a peer that reads the opcodes of RFC 783 gets a DATA packet back as its number and payload, for every length |
| Wire.DecodeAck | src/packet.c:62-76 | such a peer gets an ACK packet back as its number |
| Wire.DecodeError | src/packet.c:79-126 | such a peer gets an ERROR packet back as its code and text |
| Wire.DecodeIntendedOack | src/packet.c:130-134 | the option acknowledgement of RFC 2347 reads back as its option and value |
| Wire.DecodeQueuedOack | src/packet.c:139-148 | the acknowledgement the code queues always reads back with an empty value, so it is right exactly when the value is empty |
| Wire.BuildData | src/packet.c:33-60 | the buffer filled through the moving pointer is 0, 3, the number high byte first, the data |
| Wire.BuildError | src/packet.c:108-118 | the filled buffer is 0, 5, the code, the text, a zero |
| Wire.BuildOack | src/packet.c:136-148 | the filled buffer is the literal acknowledgement, misplaced terminator included |
| Requests.GetNext | src/process.c:47-58 | the scanner reads one field and moves past its terminator, never leaving the buffer |
| Requests.ScanRequest | src/process.c:208-222 | the four field reads, safe for every datagram of at most 516 bytes |
| Requests.ParseOfEncode | src/process.c:307-321 | request parsing undoes request encoding, with and without an option |
| Requests.ParseLooksAtLenPlusThree | src/process.c:307-321 | parsing a request of len bytes depends on nothing past the first len + 3 bytes |
| Requests.FieldEnds | src/process.c:47-58 | a field that starts in the datagram ends in it; one behind it is empty |
| Sessions.ReactFollows | src/process.c:61-451 | every case keeps the state invariants, never clears destroy, resets the retry counter when the packet is recognised, and remembers the packet queued last |
| Sessions.SoloIsSound | include/client.h:32-62 | over every datagram sequence: block number is the block count mod 65536, block size in 8..65464, a sending client not given up has an open file |
| Reactions.OnePathIsNamed | src/process.c:236-240 | a request names exactly one path, the one the code builds: the directory, byte 47, the file name with 92 turned to 47 under fixpath and no byte changed otherwise; it has the directory as its prefix |
| Reactions.OnlyNamedPathMatters | src/process.c:206-441 | no other path's existence, contents or permissions influence the answers or the client |
| Reactions.WordsAreRecognised | src/process.c:228-356 | mail, blksize and tsize are recognised in exactly their upper and lower case spellings |
| Reactions.OthersAreIgnored | src/process.c:63-72 | datagrams over 516 bytes and opcodes outside 1 to 5 change nothing |
| Reactions.DataIsAcknowledged | src/process.c:74-113 | 0,3: from any state, appended to a write stream, acknowledged with the number's own bytes, destroy exactly under 516 bytes; nothing else changes |
| Reactions.AckIsAnswered | src/process.c:149-193 | 0,4: from any state, the next bytes of the file under the next number, destroy exactly when they are short; nothing else changes |
| Reactions.ErrorEndsTransfer | src/process.c:114-148 | 0,5: one packet 0,4,0,1 is queued and the client is marked destroy; file, numbers and block size stay |
| Reactions.WriteRequestIsAnswered | src/process.c:194-299 | 0,2: from any state, ERROR 4, 7 or 1 by its reason, or 0,4,0,0 and an empty file at the named path |
| Reactions.ReadRequestIsAnswered | src/process.c:292-442 | 0,1: from any state, every packet queued, in order, and when destroy, sending, block size, number and file change, at the named path |
| Aborts.ErrorEndsSession | src/process.c:134-147 | in any run, the next flush pass that visits the sender of an ERROR sends its earlier queue, then 0,4,0,1, and removes its client |
| Clients.EnqueueAllAppends | src/socket.c:266-288 | processing appends to the queue in order, keeps capacity at or above length, and leaves the client's identity alone |
| Clients.Client.QueuePacket | src/socket.c:267-297 | queue grows by the packet, capacity by the reserve policy; only fresh packets become lastpacket |
| Clients.Client.ProcessPacket | src/process.c:61-451 | the client afterwards is the reaction's state with the reaction's packets queued |
| Clients.Client.ProcessReadRequest | src/process.c:323-441 | read request: option handling, file opening, first block, in the code's order |
| Clients.Client.ProcessWriteRequest | src/process.c:227-291 | write request: refusals in order, or an open file and acknowledgement 0 |
| Clients.Client.ProcessAck | src/process.c:167-190 | acknowledgement: next block read, numbered, queued; destroy on a short one |
| Clients.Client.ProcessData | src/process.c:90-112 | data: appended, acknowledged with its own number; destroy on a short one |
| Servers.Server.LookUp | src/client.c:120-134 | the first client with the descriptor and transfer ID, or none |
| Servers.Server.LookUpSocket | src/socket.c:147-162 | the first pool entry with the descriptor, or none |
| Servers.Server.DestroySocket | src/socket.c:189-197 | drops the first entry with the same descriptor and address text |
| Servers.Server.RemoveClient | src/client.c:74-84 | the client leaves the pool, its entry leaves the socket pool, the rest stay in order |
| Servers.Server.FindOrAllocateClient | src/client.c:47-72 | the matching client, or a new one at the end of both pools |
| Servers.Server.ReceivePackets | src/socket.c:351-394 | the sender's client, and no other, processes the datagram |
| Servers.Server.SendPackets | src/socket.c:301-349 | the loop that removes while it iterates has exactly the effect of Flush |
| Servers.Server.CheckClients | src/client.c:153-178 | the retry loop has exactly the effect of Check |
| Servers.FlushStep | src/socket.c:310-346 | one visit of the flush loop advances the pass by one step |
| FlushPass.FlushIsExact | src/socket.c:310-346 | visited clients' queues are sent whole in order and emptied, skipped clients untouched, removals release one socket entry each |
| FlushPass.SkippedIffPredecessorRemoved | include/vec.h:136-140 | a client is skipped exactly when its predecessor was visited and removed |
| FlushPass.FlushRemovesHalf | src/socket.c:335-345 | a pass removes at least half of the clients marked destroy and no other |
| FlushPass.PassesDrainTheMarked | src/socket.c:310-346 | n passes leave at most a 2^n-th of the marked clients |
| Pools.LookupIsExact | src/client.c:120-134 | lookup finds a client exactly when one with the descriptor and the address's port field is there, IPv4 or IPv6, and never for port 32768 |
| Pools.ReceiveTouchesOneClient | src/client.c:47-72 | a datagram changes the client found, in its place, or adds one behind all others with its socket behind all others; nothing else changes |
| Pools.PeersMeetIffPortsEqual | src/socket.c:165-174 | two IPv4 or IPv6 peers of one descriptor are served by one client if and only if their port fields are equal, 32768 aside |
| Pools.KeysTellPortsApart | src/socket.c:165-174 | keys are equal exactly for one descriptor and one port field |
| Pools.RunsAreKeyed | src/client.c:43-72 | in every run no two clients share descriptor and port field, port 32768 aside |
| Pools.RemovalDropsOneEntry | src/socket.c:189-197 | removing a socket removes exactly one entry from the multiset |
| Pools.PoolsAgree | src/socket.c:104-205 | in every run the socket pool is the listeners plus one entry per live client |
| Listeners.ListenersStayIffNoClash | src/socket.c:183-205 | descriptors keep resolving to their listeners in all runs if and only if no peer's text equals its listener's |
| Listeners.NoClashKeepsListeners | src/socket.c:147-162 | without such a peer, FindSocket returns the listener in every run |
| Listeners.ClashLosesListener | src/socket.c:189-197 | with one, two events suffice to lose the listener |
| Isolation.SessionsAreIsolated | src/client.c:120-134 | in every run, a peer's client and everything sent to it are those of a run with that peer alone |
| Isolation.StepsCarryOwnInputs | src/socket.c:375-391 | exactly the peer's own datagrams reach its session, in order |
| Isolation.FlushSeenBy | src/socket.c:310-346 | a flush pass sends, empties or removes a peer's client only by visiting it |
| Hosts.HostsAreIsolatedIffPortsDiffer | src/client.c:120-134 | a host's session depends on its own datagrams only, in all runs of these peers, if and only if no other peer has its descriptor and port field |
| Hosts.StrangerAdvancesTransfer | src/client.c:43-72 | another host's acknowledgement from the same port makes the server send the first host the next part of its stream |
| NullFiles.NullFileIsTouchedExactly | src/process.c:167-174 | in any run a datagram works on a null stream if and only if it is an ACK or DATA packet between a refused block size negotiation and the flush that visits the client, no request of which opened a file |
| NullFiles.NullFileIsReachable | src/process.c:336-409 | an encoded block size request for a file that cannot be opened leads there |
| ReadTransfers.RequestIsGrantedExactly | src/process.c:326-430 | a read request starts a transfer if and only if its mode does not spell mail, its option is no tsize and no blksize outside 8..65464, and the path it names exists and opens; giving up reports an ERROR |
| ReadTransfers.AckSendsNextBlock | src/process.c:167-190 | one acknowledgement sends the next block with its number mod 65536 and marks destroy exactly at a short block |
| ReadTransfers.AcksSendBlocks | src/process.c:149-193 | n acknowledgements send exactly blocks k + 1 .. k + n, whatever numbers they carry |
| ReadTransfers.ReadStreamIsExact | src/process.c:336-430 | the session's packets are determined by file, mode and acknowledgement count; destroy after len/b + 1 acknowledgements negotiated, max(1, len/512) by default |
| ReadTransfers.ShortBlock | src/process.c:183-189 | a block is short exactly from number len/b + 1 on, the empty block of a multiple included |
| ReadTransfers.PayloadsAreTheFile | src/process.c:172-180 | payloads up to the short block concatenate to the file |
| ReadTransfers.EncodedRequestIsGranted | src/process.c:336-363 | an encoded request for a decimal block size in 8..65464 gets the file at the named path in that block size |
| ReadTransfers.PlainRequestIsGranted | src/process.c:414-430 | an encoded request without option gets the file at the named path in the default session |
| ReadSafety.ReadSessionInTheCrowd | src/socket.c:301-394 | among any traffic, sent plus queued packets of a reader are its stream; once the session is over, a complete one |
| ReadSafety.LostPortNeverAdvances | src/client.c:43-43 | a reader on port 32768 never gets past the opening packets |
| ReadSafety.ReadIsSafeOverAnyNetwork | src/process.c:149-193 | with loss, duplication and reordering, a receiver of the next block number holds a prefix of the file, and the file once it took a short block |
| ReadSafety.PicksAreSafe | src/packet.c:33-60 | any picks from fewer than 65536 DATA packets keep the receiver in step |
| ReadSafety.InOrderDeliveryCompletes | src/process.c:176-190 | lossless delivery completes the file, however many blocks |
| ReadBound.AskingIsServed | src/socket.c:301-394 | a lone peer that asks, acknowledges n times and is flushed has been sent exactly its stream for n |
| ReadBound.SafetyBoundIsExact | src/process.c:176-180 | over all runs, peers, files, modes and networks, reading with at most n DATA packets sent is safe if and only if n < 65536 |
| ReadLoop.ReadLoopIsCorrect | src/process.c:149-193 | a receiver that acknowledges what it accepts, over an in-order channel with passes at any time: packets sent are a prefix of the stream, the receiver holds a prefix of the file and is right when done, for any length |
| ReadLoop.ReadLoopCompletes | src/process.c:176-190 | the receiver is done after exactly len/b + 1 rounds, one more when an option was acknowledged; then at most one more round empties both channels, and the acknowledgement of the last block has allocated an idle client unless a default read was under 512 bytes |
| ReadLoop.IdleClientStays | src/client.c:158-178 | such a client survives any passes and any traffic of other peers unchanged |
| WriteTransfers.WriteRequestIsGrantedExactly | src/process.c:227-281 | a write request opens a file exactly when its mode does not spell mail and the named path may be accessed and opened, else one ERROR 4, 7 or 1 is queued |
| WriteTransfers.ActKeepsLockStep | src/process.c:74-113 | every action of server, channel and sender keeps the transfer in lock step |
| WriteTransfers.WriteTransferIsCorrect | src/process.c:74-113 | in every reachable state the file is a prefix of the source, acknowledgements are 0, 1, 2, ..., destroy means complete, finished means equal |
| WriteTransfers.WriteTransferCompletes | src/process.c:271-281 | one round for the request and one per block finish the transfer |
| WriteCrowd.CrowdRefinesTransfer | src/socket.c:301-394 | in any run of the server with one lock-step sender, the sender's side is a state of the lone transfer |
| WriteCrowd.WriteTransferInTheCrowd | src/process.c:74-113 | among any traffic: acknowledgements sent are 0, 1, 2, ..., the open file is a prefix of the source, and the file a flush pass closes is the source |
| WriteTransfers.ServerStoresArrivals | src/process.c:95-103 | the server stores the blocks that arrive in the order they arrive |
| WriteTransfers.StoredCorrectlyIffInOrder | src/process.c:90-104 | a delivery is stored right for every source if and only if it is in order without loss or repetition |
| Retransmission.RunsStayHealthy | src/socket.c:290-293 | in every run every client keeps the state invariants and is never armed |
| Retransmission.CheckLeavesUnarmed | src/client.c:160-160 | a retry pass over unarmed clients changes nothing |
| Retransmission.LastPacketSurvivesResends | src/socket.c:281-288 | from any client, armed or not, over any datagrams, flushes and retry passes: lastpacket is the packet queued fresh most recently, and every resend was a copy of it |
| Retransmission.ResendRepeatsNewest | src/client.c:174-174 | from any such state a resend queues exactly that packet again, marked as resent, and counts |
| Retransmission.ArmedReaderIsResent | src/socket.c:290-293 | with the counter armed, a granted reader that stays silent is sent its opening packet a second time |
| Retransmission.SilentClientIsRetried | src/client.c:158-178 | armed at w in 1..3, a silent client gets at most 3 - w resends at least 5 seconds apart, and is gone only after exactly 3 - w |
| Retransmission.NextExpiryDecides | src/client.c:162-174 | the next visited expiry resends while the budget lasts and removes once it is spent |
| FlatVectors.FlatVec.Reserve | src/vec.c:71-84 | capacity becomes at least n, elements stay |
| FlatVectors.FlatVec.Push | include/vec.h:49-51 | append, with the capacity of vec_expand_ |
| FlatVectors.FlatVec.Pop | include/vec.h:54-55 | returns and drops the last element |
| FlatVectors.FlatVec.Splice | src/vec.c:107-114 | deletes the range, by one overlapping move |
| FlatVectors.FlatVec.Insert | src/vec.c:117-128 | inserts at the index, by one overlapping move |
| FlatVectors.FlatVec.Swap | src/vec.c:131-144 | exchanges two elements through the slot behind the last |
| FlatVectors.FlatVec.Reverse | include/vec.h:127-133 | reverses the elements |
| FlatVectors.FlatVec.Find | include/vec.h:110-116 | index of the first equal element, or -1 |
| FlatVectors.FlatVec.Remove | include/vec.h:119-124 | drops the first occurrence only |
| FlatVectors.FlatVec.Extend | include/vec.h:101-107 | appends the other vector's elements in order |
| FlatVectors.FlatVec.Compact | src/vec.c:87-104 | capacity becomes length, elements stay |
| FlatVectors.FirstIndexFacts | include/vec.h:110-116 | the index found is the first occurrence, and -1 exactly when there is none |
| FlatSequences.FlatIsInjective | include/vec.h:36-37 | equal buffers hold equal elements |
| FlatSequences.FlatUpdate | include/vec.h:49-51 | overwriting a slot's bytes overwrites that element and no other |
| Growth.PushingIsAmortised | src/vec.c:51-68 | over any run of n pushes mixed with shrinking, growth moves fewer than 2n elements |
| Growth.CapacityIsDoubledFour | src/vec.c:51-60 | a vector pushed to has four slots, doubled some number of times |
| Growth.QueueingIsAmortised | src/socket.c:271-279 | through QueuePacket at most 3n, and capacity never falls below length |
| Growth.GrowthStaysInRange | src/vec.c:51-68 | growth yields a capacity that is an int, and a request the allocation guard takes, if and only if there is room or the capacity is below 2^30 |
| Arithmetic.GuardIsExact | src/reallocarray.c:47-59 | the guard refuses exactly the products above SIZE_MAX, and an accepted request is not wrapped |
| Arithmetic.SizeReduce | src/misc.c:213-229 | v is the size divided by the least power of 1024 that brings it to 1024 or less, with an index of at most 6 |
| Scanner.BestIsLongest | src/scanner.l:16-45 | the chosen rule matches longest, and first among equals |
| Scanner.MunchProgresses | src/scanner.l:33-45 | every input has a match of at least one character |
| Scanner.Lexer.Yylex | src/scanner.l:16-45 | returns the next token and leaves the rest; nothing at the end of the input |
| Layout.NumberIsDigits | src/scanner.l:36-36 | a decimal numeral, with any leading zeros, has the value printed |
| Layout.DigitsSpellNumbers | src/scanner.l:36-36 | every digit string is such a numeral of its value |
| Layout.LexToken | src/scanner.l:16-45 | a spelled token (the words written out, decimal numerals, strings closed by quote or line end) is scanned as itself, whatever may follow it |
| Layout.LexGap | src/scanner.l:33-44 | blanks, newlines and comments leave no token |
| Layout.UnclosedCommentEndsFile | src/scanner.l:40-43 | an unclosed comment leaves no tokens |
| Layout.LastLineNeedsNewline | src/scanner.l:44-45 | two slashes without a newline behind them are two tokens |
| Layout.LexOfRender | src/scanner.l:16-45 | scanning undoes printing under any layout |
| Configuration.Parser.ReadItems | src/parser.y:108-201 | one block's items, actions applied in order, up to its brace |
| Configuration.Parser.Yyparse | src/parser.y:49-116 | the parser object computes Parse on the tokens the scanner object returns |
| ConfigRoundTrip.ParserKnowsGrammar | src/parser.y:108-201 | the parser takes exactly the items of the grammar written out, each with the kind of value it names |
| ConfigRoundTrip.AcceptedIffGrammatical | src/parser.y:49-116 | a token list is accepted if and only if it is the printing of blocks of that grammar; everything else is a syntax error |
| ConfigRoundTrip.ItemsAreRead | src/parser.y:108-116 | the items of a block are consumed up to its brace with every action applied |
| ConfigRoundTrip.ServerItemsMean | src/parser.y:143-201 | in-order assignment means the last value wins, over the defaults |
| ConfigRoundTrip.RunBlocksMean | src/parser.y:49-106 | the actions build the last server block and the blocks behind it; a later server block discards what came before |
| ConfigRoundTrip.ConfigurationRoundTrip | src/parser.y:49-201 | any configuration of that grammar, under any layout and spelling, reads as what it means, strings up to their first NUL |
| ConfigRoundTrip.ReadPrinted | src/config.c:78-91 | the scanner and parser objects together return that meaning |

## Left out

- Clients.Client.ProcessPacket: takes only DATA packets with a whole 4-byte header on a sending client, because the code subtracts the header length without a check.
- WriteTransfers.WriteTransferIsCorrect: the stored file is what the server's stream holds when it is closed; the directory itself does not change between requests.
- FlatVectors.FlatVec.Splice: offsets are unbounded integers; the C code computes them in int.
- FlatVectors.FlatVec.Insert: offsets as above; the early return when errno still holds an old ENOMEM is not modelled.
- FlatVectors.FlatVec.Swap: offsets as above; the early return when errno still holds an old ENOMEM is not modelled.
- FlatVectors.FlatVec.Push: the capacity doubles as an unbounded number; `GrowthStaysInRange` says when the doubling stays an int.
- ReadLoop.ReadLoopCompletes: stated on one peer alone; inside the crowd, rounds depend on which passes visit the peer's client.
- Configuration.Parser.Yyparse: the configuration is a value held in a field, and curblock and curmod are its last blocks; line numbers for messages are not kept.
- ConfigRoundTrip.ConfigurationRoundTrip: numbers must fit an int, because atoi is undefined beyond.
- The four multiplexers, sockets and address formatting: events in any order and an abstract address text stand for them; sends and allocations succeed.
- The checks after the configuration is read: the default PID file, the least read timeout, the mandatory directory; and the defaults at start-up, port 69 and bind address "::".
- The file system beyond existence, contents and permission answers; netascii, which only changes the open mode.
- The transferred-bytes counter, which is only printed, and all other printing.
- Modules and events, signals, daemonising, user switching, the PID file, the command line, shutdown.
- Freed memory and pointer ownership of packet copies: packets are values.
- vec_sort, vec_first, vec_last and the reverse iteration macros, which the server does not need.
