# Iris, modelled and verified

Iris receives passive check results. A client cuts its standard input into records, packs each into a
4300-byte frame that carries a CRC-32, a version and a timestamp, and writes the frames to a TCP connection.
A single-threaded server collects the frames of many connections with edge-triggered `epoll`, unpacks and
checks each one, and submits the good ones.

The project models both programs, the code they share and the configuration tools, and proves what they
promise together. Code that works in place is modelled in place (arrays, classes with fields, loops) and each
method is tied to a specification on values; the properties are proved of that specification.

| files | what they cover |
|---|---|
| `Words`, `Gf2`, `Crc32`, `CrcTable` | the CRC: GF(2) polynomials, the bit-serial register, the lazily filled table |
| `Frames`, `WireFormat`, `Burst` | `struct pdu` on the wire, packing, unpacking, the same byte by byte, detection of damage |
| `Text`, `RecordFormat`, `ReadPackets` | C strings, the record format, the parser that reads it |
| `Sending`, `PerlClient` | the two clients |
| `Kernel`, `Reassembly`, `Receiving` | non-blocking reads, frames out of a byte stream, one call of `recv_data()` |
| `ServerState`, `ServerInvariant`, `Server` | the connection table on values, its invariant, the code that keeps it |
| `EventLoop`, `Runs`, `Verdicts`, `Origins`, `Accepting`, `MainLoop` | all runs of the server, what holds in them, which frames are submitted, and the event loop as such a run |
| `EndToEnd` | from the client's input to the server's results |
| `ConfigFormat`, `ConfigGrammar`, `ConfigValues`, `ConfigDump`, `ConfigRoundTrip`, `ConfigParser` | the configuration file, its grammar, its values, the dump of `iriscfg`, the parser |

## How the outside is modelled

* A connection is a first-in first-out queue of bytes (`Kernel.Conn`). A script that nothing constrains decides
  what arrives while a call is running, how much a `read()` returns and when it fails; another one does so for
  `write()`. Clocks and `accept()` are scripts too. The kernel never hands out a descriptor that is open.
* `EventLoop.Next` is one step of the server or of its surroundings: bytes or the end of a stream arriving,
  an edge without either (an error), somebody connecting, `epoll_wait()` reporting edges, one turn of the accept loop,
  one call of `recv_data()`, one event of another kind. `MainLoop.Serve` shows that what the code does, from `client_init()` on, is such a run.
* Every connection has a number (`sid`) that is never used again, which the code does not have; it is how a
  theorem can speak of one connection although its slot and its descriptor are used again.
* Both byte orders are covered: `Order` is a parameter of everything that touches a field.

## Where the code falls short of what it is for

Each of these is proved together with an input that shows it and the exact condition under which the code does what
is expected.

* `pdu_unpack()` cuts the clock to 32 bits in one comparison and not in the other. From 2106 on, frames of any
  age can be accepted: `Frames.StaleFrameAccepted`, `Frames.AgeIsDistance`.
* `pdu_write()` takes a write of nothing for the end of its work, and the client goes on with the next frame: the
  stream then has a gap, and the receiver loses its place. A `write()` of something to a blocking TCP socket does not
  ordinarily take nothing; scripts without such a write leave no gap (`Sending.OrdinaryWrites`).
  `Sending.GapExample`, `Sending.WireIsPrefix`.
* `net_accept()` ends the accept loop on every error, although the edge of the listening socket is spent: waiting
  connections are then forgotten until another one arrives. `Accepting.ForgottenExample`,
  `Accepting.ListenerForgotten`, `Accepting.StaysForgotten`.
* `net_accept()` keeps a descriptor for which no slot was free. It is never read and never closed.
  `Accepting.StrandedExample`, `Accepting.AcceptedWithoutClient`, `Accepting.StrandedForever`.
* `parse_config()` overwrites the character behind the directive before it looks for `=`. A comment in the code
  suggests that no blank is needed before `=`. Without one, the code rejects the line, or, if the value has an `=` of
  its own, takes what is behind that for the value. `ConfigDump.MisreadExample`, `ConfigDump.EqualsOverwritten`,
  `ConfigDump.EqualsMistaken`, `ConfigDump.AcceptedWithBlank`.
* `iriscfg` prints the lifetime as an `int`, and lines longer than `parse_config()` reads at a time.
  `ConfigRoundTrip.LongLifetimeExample`, `ConfigRoundTrip.LongPortExample`, `ConfigRoundTrip.ParseThenDump`.
* `read_packets()` writes its terminator behind its buffer when a record is as long as the buffer or longer. What
  happens after that the language does not say, and neither does the model. A longer record has by then been cut in
  two: one character is lost and the rest is still in the input. `ReadPackets.OverrunExample`,
  `ReadPackets.ReadPackets`, `ReadPackets.ReadChunk`.

## Model

| member | source | states |
|---|---|---|
| Gf2.DivisionUnique | iris.c:25-54 | a polynomial has one quotient and one remainder by the CRC-32 generator, so a CRC is well defined |
| Crc32.RunLinear | iris.c:48-51 | the register is linear: the difference of two runs is the run of the differences |
| Crc32.PolynomialBits | iris.c:36 | the constant 0xedb88320 is the generator of IEEE 802.3, lowest power first |
| Crc32.CrcFits | iris.c:25-54 | the checksum, kept in a wider variable, always is a 32-bit number |
| Crc32.RunDivides | iris.c:25-54 | running the register performs polynomial division: quotient and remainder are what was shifted out and what is left |
| Crc32.CrcIsRemainder | iris.c:25-54 | a polynomial is the remainder of the prepared message if and only if it is the complement of the CRC |
| CrcTable.TableStep | iris.c:50 | one table look-up does what eight shifts of the register do, for every register and byte |
| CrcTable.GuardIsSound | iris.c:31 | the entry the initialisation looks at is not zero once the table is filled, so it is filled exactly once |
| CrcTable.RunZerosNonzero | iris.c:33-41 | no number of shifts clears a register that is not zero |
| CrcTable.LookupStep | iris.c:48-51 | one turn of the loop extends the message by a byte, and its mask takes nothing away |
| CrcTable.ShiftEight | iris.c:33-41 | the inner loop yields the table entry: eight shifts of the byte |
| CrcTable.Table.Fill | iris.c:32-42 | the table is filled with the right entries |
| CrcTable.Table.Checksum | iris.c:25-54 | from a blank or a filled table: the CRC of the first `len` bytes, zero without a buffer, a filled table, one already filled untouched |
| CrcTable.Table.Scan | iris.c:47-53 | the look-up loop yields the CRC of the bytes, below 2^32 |
| Frames.Value32OfBytes | iris.c:269-275 | a number stored in either byte order is read back |
| Frames.ViewOfImage | iris.h:58-66 | a structure laid out in memory of either byte order is read back field by field |
| Frames.ImageOfView | iris.h:58-66 | and any 4300 bytes are the layout of the fields read from them |
| Frames.PduPack | iris.c:267-278 | in place, on machines of either byte order, the structure becomes the one frame of its content: same bytes whatever the machine |
| Frames.PduUnpack | iris.c:280-324 | succeeds exactly on frames with the right CRC, the current version and a fresh timestamp; what the buffer holds after each kind of failure and after success |
| Frames.PduHeader | iris.c:271-275 | version, timestamp and return code in network order, everything else unchanged |
| Frames.HostOrder | iris.c:300-302 | the header fields back in the order of the machine |
| Frames.CheckCrc | iris.c:288-298 | the CRC is compared over the frame with its field cleared, and put back in host order |
| Frames.CheckAge | iris.c:310-320 | the comparison of timestamp and clock, with the clock cut to 32 bits in one place only |
| Frames.PackThenUnpack | iris.c:267-324 | a packed frame carries what was packed, its CRC matches, and it is accepted exactly while its timestamp is fresh |
| Frames.UnpackThenPack | iris.c:267-324 | packing what was accepted gives back the very 4300 bytes, for either byte order |
| Frames.AgeIsDistance | iris.c:310-320 | acceptance agrees with a distance of 900 seconds if and only if the clock has not passed 2^32 with the timestamp above its low half and too old |
| Frames.StaleFrameAccepted | iris.c:310-320 | a frame one second short of 2^32 seconds old that is accepted |
| WireFormat.BigImage | iris.h:58-66 | where the most significant byte comes first: which number each group of bytes spells, digit by digit, and where the texts are |
| WireFormat.LittleImage | iris.h:58-66 | the same where the least significant byte comes first |
| WireFormat.FrameBytes | iris.c:267-278 | the bytes of a packed frame as numbers: the CRC-32 of the frame with four zeros in its place, the timestamp, version 1 and the return code, most significant byte first, then the texts |
| WireFormat.ViewBytes | iris.c:288-302 | the number every field of a received frame is read as |
| WireFormat.UnpackedBig | iris.c:288-302 | unpacking on a machine in network order leaves the buffer as it was, whatever it holds |
| WireFormat.UnpackedLittle | iris.c:288-302 | on the other kind of machine every number is turned around and the texts stay; with a bad CRC only the CRC is turned |
| WireFormat.AcceptedIsGenuine | iris.c:280-324 | a frame is accepted if and only if its first four bytes spell the CRC-32 of the rest behind four zeros, the version bytes are 0 and 1, and its timestamp is within 900 seconds (or, after 2106, above the low half of the clock) |
| Burst.BurstSeparates | iris.c:48-51 | two different windows of at most 32 bits bring the register to different states |
| Burst.SameBitsSeparate | iris.c:48-51 | and no common bits behind them bring the states together again |
| Burst.BurstChangesCrc | iris.c:25-54 | messages that differ only within 32 consecutive bits have different CRCs, for every length and place |
| Burst.DamageRejected | iris.c:280-298 | a good frame damaged in a burst of 32 bits behind the CRC field, or anyhow inside that field, is never accepted |
| Burst.FourByteDamageRejected | iris.c:267-298 | the same for a frame just packed, damaged in four consecutive bytes |
| Text.StripInPlace | iris.c:18-23 | in place, the string loses its trailing white space and nothing else |
| Text.Strip | iris.c:18-23 | the result is a prefix, does not end in white space, and only white space is gone |
| Text.SpaceIs | iris.c:18-23 | white space is the six characters of the C locale |
| Text.PaddedReads | iris.c:502-519 | a string copied into a zeroed field reads back as itself, cut to leave room for a terminator |
| Text.PaddedBytes | iris.c:502-519 | byte by byte: the string as far as there is room for a terminator, then zeros to the end of the field |
| RecordFormat.TokenOf | iris.c:504-512 | a field between delimiters is the token, and the rest starts behind one delimiter |
| RecordFormat.TokenInverts | iris.c:504-512 | a token is preceded by delimiters only and followed by at most one that is taken |
| RecordFormat.ParseIsLayout | iris.c:494-521 | a chunk is a record if and only if it has the layout: delimiters, host, delimiters, service, delimiters, a digit 0 to 3 that is no delimiter, one delimiter, a non-empty output |
| RecordFormat.PrintThenRead | iris.c:485-525 | any list of clean records, printed with tabs and ended by 0x17 and newline, is read back as the same list |
| RecordFormat.PrintFits | iris.c:486-494 | the print of records whose lines are shorter than the line buffer can be read into it, chunk by chunk |
| RecordFormat.ChunksKeep | iris.c:486-492 | a character behind a terminator that is 1 to 127 and no newline is the first of the next record; at the end of the input nothing is lost |
| RecordFormat.ChunksSwallow | iris.c:486-492 | a newline, a NUL or a byte above 127 behind a terminator is dropped, and one only |
| RecordFormat.PrintTightThenRead | iris.c:485-525 | records ended by 0x17 alone are read back as the same list, if each host starts with a character below 128 |
| RecordFormat.PrintTightFits | iris.c:486-494 | and they fit the line buffer as those with newlines do |
| RecordFormat.TrailingIgnored | iris.c:18-23 | white space behind a record, and all that follows a NUL, makes no difference to it |
| RecordFormat.BlankIsNothing | iris.c:495-496 | a chunk of white space is no record |
| RecordFormat.RejectedIsDropped | iris.c:502-521 | a chunk that is no record leaves the records behind it as they are |
| ReadPackets.FillLine | iris.c:486-490 | for every input, reads up to the next 0x17, the end of the input or the end of the buffer; the terminator goes inside the buffer if and only if the record is shorter than it |
| ReadPackets.PassNewline | iris.c:491-492 | swallows one newline (or NUL, or byte above 127) behind a terminator and puts any other character back |
| ReadPackets.ReadChunk | iris.c:486-492 | a record up to its end; of one longer than the buffer the front, after which one character is lost and the rest is still to be read |
| ReadPackets.Strtok | iris.c:504-517 | on the buffer in place: no token exactly when only delimiters are left, else the token and the rest as strings |
| ReadPackets.CopyField | iris.c:502-519 | the field is the string cut to leave room for a terminator, zeros behind |
| ReadPackets.NextDigit | iris.c:512-515 | the third token counts only as a single digit from 0 to 3 |
| ReadPackets.ReadLine | iris.c:485-496 | the buffer holds the stripped chunk, or the terminator does not fit; at the end of the input nothing more is to come |
| ReadPackets.ReadPacket | iris.c:502-521 | accepts exactly the lines that are records, with their fields capped |
| ReadPackets.ReadRecord | iris.c:485-522 | one turn of the loop writes behind the buffer exactly if the chunk does not fit, and otherwise takes it off the input: its record if it is one, nothing if not |
| ReadPackets.StorePacket | iris.c:498-521 | the packets so far stay; a rejected record leaves a slot that is not counted |
| ReadPackets.ReadPackets | iris.c:477-526 | for every input: the packets of all well-formed records, in order, and their number; a write behind the buffer if and only if some record is not shorter than it, and the packets before that one |
| ReadPackets.FullBufferOverruns | iris.c:487-494 | a record of 5120 bytes or more never fits, whatever it holds and whatever follows |
| ReadPackets.OverrunExample | iris.c:487-494 | 5120 letters in a row do not fit, 5119 do |
| Sending.Socket.PduWrite | iris.c:226-239 | the bytes on the wire grow by a prefix of the frame; -1 exactly on an error, for every pattern of short writes |
| Sending.WireIsPrefix | iris.c:226-239 | for all frames, what is on the wire is a prefix of the frames in a row if and only if no write takes something after one that took nothing, before any failure |
| Sending.OrdinaryWrites | iris.c:226-239 | writes that always take something leave no gap |
| Sending.GapExample | iris.c:226-239 | a script of writes that leaves a gap |
| Sending.WholeFrames | send_iris.c:108-118 | when writes take something or fail, all frames counted are whole and at most one cut frame follows |
| Sending.AllCounted | send_iris.c:108-118 | without a failing write every frame is counted |
| Sending.AllOnWire | send_iris.c:108-118 | once all frames are counted, all their bytes are on the wire, in order |
| Sending.StampAndPack | send_iris.c:109-110 | in place, the packet becomes the frame of its content at the time of sending, cut to 32 bits |
| Sending.SendTurn | send_iris.c:108-118 | one turn: one more frame on the wire and one more counted, or the end; the packets behind it still as they were |
| Sending.SendAll | send_iris.c:108-118 | from the packets in memory to the wire: which bytes got out, how many frames were counted, and the exit status |
| PerlClient.Client.constructor | send_iris.pl:41-49 | the Perl table is the C table |
| PerlClient.Client.Checksum | send_iris.pl:51-59 | the Perl CRC is the CRC of the same bytes |
| PerlClient.Client.Packet | send_iris.pl:78-80 | byte for byte the frame of the C client for the same record and time, truncation and padding included; accepted by the receiver exactly while fresh |
| PerlClient.PackZ | send_iris.pl:78 | the Z template pads and cuts as the C copy into a zeroed field does |
| Kernel.ReadAdvances | iris.c:213-215 | a read takes bytes off the front of the queue; EAGAIN means nothing is left, no bytes the end of the stream |
| Kernel.Sockets.PduRead | iris.c:191-224 | stores what it read behind the unfinished frame, never past byte 4300, and ends complete, drained, at the end of the stream, or broken |
| Reassembly.DecodePrefix | iris.c:597-645 | what the first frames of a stream give does not depend on what follows them |
| Reassembly.DecodeByVerdict | iris.c:597-645 | the times of judging matter only for acceptance |
| Reassembly.FrameGrows | iris.c:613-623 | bytes short of a frame extend the unfinished one and submit nothing |
| Reassembly.FrameCompletes | iris.c:625-645 | bytes that complete a frame make the buffer the next 4300 bytes of the stream; cleared, it is at the next boundary whether or not the frame was good |
| Receiving.Counts | iris.c:613-645 | one turn of the loop keeps buffer, counters, stream and results in step |
| Receiving.Drained | iris.c:602-603 | returning on EAGAIN leaves nothing unread |
| Receiving.Ended | iris.c:604-611 | closing at the end of the stream or on an error loses no complete frame |
| ServerState.PastDeadlineIsElapsed | iris.c:731-733 | comparing seconds, then nanoseconds, compares the total |
| ServerState.Find | iris.c:676-684 | the first slot with the descriptor, or none if there is none |
| ServerInvariant.EndKeepsInv | iris.c:713-722 | closing keeps descriptors distinct and open, buffers in step, and the count of clients right |
| ServerInvariant.CloseKeepsInv | iris.c:713-722 | so does closing by descriptor, also for one that is not a client |
| ServerInvariant.PurgeExact | iris.c:735-750 | a purge, although it closes by descriptor, closes exactly the clients past their deadline and leaves every other slot, connection and result as it was |
| ServerInvariant.PurgeInTime | iris.c:735-750 | in nanoseconds: after a purge every client left has a deadline still to come; one that had time left is as it was on its open connection; one that had not is closed and on record with what was read of it |
| ServerInvariant.NewClientLives | iris.c:686-711 | a client is past its deadline exactly from its lifetime after it was accepted, and only the first free slot changes |
| ServerInvariant.AcceptOpensOne | iris.c:402-443 | accepting opens the connection it takes and no other, with nothing read of it; an error opens none |
| ServerInvariant.NewClientOutcome | iris.c:686-711 | opening a client changes nothing exactly when every slot is in use, and otherwise makes one more |
| ServerInvariant.FullWhenAllLive | iris.c:676-690 | no free slot is found exactly when as many clients live as there are slots |
| ServerInvariant.NetAcceptKeepsInv | iris.c:402-443 | accepting keeps the invariant, however it ends |
| ServerInvariant.ReceivedKeepsInv | iris.c:577-647 | so does receiving: no other connection is touched, and the results are those of the bytes read |
| Server.ClientInit | iris.c:649-661 | so many slots, separate in memory and all free |
| Server.Server.ClientFind | iris.c:676-684 | the loop finds the slot the specification names |
| Server.Server.ClientNew | iris.c:686-711 | on the array in place: the first free slot starts from scratch, all others stay, or nothing changes |
| Server.Server.ClientClose | iris.c:713-722 | on the array in place: that client's slot is free, its descriptor closed, its session on record |
| Server.Server.ClientsPurge | iris.c:735-750 | the loop does what the specified purge does |
| Server.Server.NetAccept | iris.c:402-443 | purge, accept and new client together; which error returns what |
| Server.Server.JudgeFrame | iris.c:625-644 | a complete frame is submitted if it is good, and the buffer cleared in any case |
| Server.Server.Turn | iris.c:597-645 | one turn of the receive loop makes progress and keeps what was consumed and submitted in step, or the call is complete |
| Server.Server.RecvData | iris.c:577-647 | for every script of reads: the connection is drained and stays, or ends; the whole frames read are judged, in order; it ends on an error exactly when a read failed; it always returns 0 |
| EventLoop.NextKeepsInv | iris.c:528-575 | every step keeps the invariant, including that a client with something to read has an event coming |
| EventLoop.RunKeepsInv | iris.c:528-575 | so it holds in every reachable state |
| Runs.TableSafety | iris.c:649-722 | in every reachable state descriptors of clients are distinct and open, and live clients are opens minus closes, at most one per slot |
| Runs.Isolation | iris.c:577-722 | in every interleaving, what was submitted for a connection is what its own bytes give on their own |
| Runs.ChunkingIndependence | iris.c:191-224 | two connections of any two runs with the same bytes gave the same results, however the bytes were cut into reads |
| Runs.BufferInStep | iris.c:613-625 | in every reachable state 0 <= offset < 4300, bytes = 4300 * frames + offset, and the buffer is the last `offset` bytes of the stream with zeros behind |
| Runs.FinishedIsReadOut | iris.c:602-611 | a connection closed at its end was read to its last byte |
| Runs.AlwaysAwake | iris.c:528-575 | in every reachable state a client with unread bytes or an unread end of stream has an event pending or in the current batch |
| Runs.NothingLost | iris.c:528-575 | no lost wake-up: once no event is pending, all that arrived for a client is read and judged, and no finished peer is left |
| Runs.PastIsForever | iris.c:686-722 | nothing that happens in the rest of a run, in the same slot or on the same descriptor, changes the results of a connection that has ended |
| Verdicts.JudgeExactly | iris.c:626-640 | a frame gives one result, with the contents its bytes spell, if CRC, version and age are right, and no result otherwise |
| Verdicts.DecodeSelects | iris.c:597-645 | a stream gives results for its genuine frames and no others, in their order |
| Verdicts.SubmittedExactly | iris.c:577-647 | in every reachable state: what was submitted for a connection is, in order, one result for each of its whole frames that is genuine, saying what its bytes say, and nothing else |
| Verdicts.DecodeWithout | iris.c:597-645 | a frame that is not genuine can be cut out of the stream without a difference |
| Verdicts.WorthlessGainsNothing | iris.c:577-647 | in every reachable state: a packed frame with four consecutive bytes damaged behind its CRC, or one too old, has gained its connection nothing |
| Origins.EveryResultIsGenuine | iris.c:625-640 | in every reachable state, every entry of the log comes from a genuine frame read whole from a connection that is open or on record, and says what its bytes say |
| Accepting.AcceptedWithoutClient | iris.c:439-442 | an accepted connection has no client exactly when every slot is in use and not past its deadline |
| Accepting.StrandedForever | iris.c:439-442 | in the rest of the run such a connection is never read and never closed |
| Accepting.StrandedExample | iris.c:439-442 | a run with one slot and two connections, the second of which is left so |
| Accepting.ListenerForgotten | iris.c:412-437 | in every run, waiting connections are left without an event exactly when some turn of the accept loop failed while they waited with its edge spent, and nobody has connected since |
| Accepting.NextForgets | iris.c:412-437 | the one kind of step that leaves them so, told from the state before it |
| Accepting.StaysForgotten | iris.c:412-437 | until somebody else connects not one of them is taken |
| Accepting.ForgottenExample | iris.c:412-421 | a run in which one connection and one failing accept() do it |
| MainLoop.AcceptAll | iris.c:550-553 | the accept loop is a run of the transition system |
| MainLoop.HandleEvent | iris.c:538-573 | an event of the listening socket starts the accept loop, a readable one makes its client receive, any other one closes its client |
| MainLoop.HandleBatch | iris.c:538-573 | a batch of events is worked off as a run of the transition system |
| MainLoop.EpollWait | iris.c:535 | only pending edges are reported, and reporting takes them |
| MainLoop.Serve | iris.c:528-575 | the whole program, from its first slot on, is a run of the transition system with one wait for every batch worked off, so all the above holds of it |
| EndToEnd.RecordSurvives | iris.c:502-519 | through packet, frame and back a record keeps its fields up to 63, 127 and 4095 bytes |
| EndToEnd.StampedBytes | send_iris.c:109-110 | the bytes the client sends for a packet, as numbers: CRC-32, the clock cut to 32 bits, version 1, return code, texts |
| EndToEnd.PrintThenReadPackets | iris.c:477-526 | records within 63, 127 and 4095 bytes, printed with newlines or (if no host starts above 127) with 0x17 alone, always fit the line buffer, and the packets read say exactly what they say |
| EndToEnd.ReadPrinted | iris.c:477-526 | and so do the packets read_packets() returns for either print |
| EndToEnd.OneSubmitted | send_iris.c:109-112 | a frame of the client judged within 900 seconds is submitted, with the fields of its record |
| EndToEnd.SentIsSubmitted | iris.c:577-647 | any prefix of the client's frames gives exactly the results of the whole frames in it |
| EndToEnd.SendIris | send_iris.c:88-130 | the client program: records in, stamped frames out, the number sent and the exit status, unless a record overruns the line buffer |
| EndToEnd.RecordsArrive | send_iris.c:98-118 | for every input, every pattern of writes that leaves no gap, every read chunking and interleaving: a connection that was read for some of the client's bytes has submitted exactly the records whose frames it got whole, in order, fields capped |
| EndToEnd.DeliveredIsSubmitted | iris.c:528-647 | end to end, to a live client: once the bytes of a client that succeeded have reached its connection and no event is pending, all its records are submitted, in order, fields capped |
| EndToEnd.FinishedIsSubmitted | iris.c:577-647 | end to end, over a finished connection: once the client is closed at its end, all its records are and stay submitted |
| EndToEnd.NoFailureSendsAll | send_iris.c:108-118 | a client whose writes neither fail nor take nothing succeeds |
| ConfigFormat.ApplyAppend | iris.c:121-188 | parsing is a left fold over the lines that stops at the first error |
| ConfigFormat.IgnorableLine | iris.c:126-127 | deleting a comment, a blank line or a well-formed line with an unknown directive never changes the outcome |
| ConfigFormat.IgnorableInFile | iris.c:121-188 | and so does deleting its bytes, newline and all, anywhere between two lines of the file |
| ConfigFormat.LastWins | iris.c:156-186 | after a file that parses, every setting is the last value given for it, or what it was |
| ConfigFormat.LifetimesAgree | iris.c:168-174 | the global lifetime and the setting stay equal, except after a lifetime that is not a number |
| ConfigFormat.ReadLength | iris.c:121 | a line is read up to and including its first newline, or 8190 bytes of it, or to the end of the file |
| ConfigGrammar.CommentLine | iris.c:125-127 | blanks, a # and whatever follows are skipped |
| ConfigGrammar.BlankLine | iris.c:125-127 | so is a line of blanks |
| ConfigGrammar.EveryLineHasShape | iris.c:125-154 | every line has one of seven shapes: blank, comment, without a directive, a directive alone, without an equals sign, without a value, a setting |
| ConfigGrammar.ParseLineIsGrammar | iris.c:125-154 | a line means something if and only if it has a shape that means it: nothing, error 1, 2 or 3, or a directive with its value |
| ConfigGrammar.DirectiveExactly | iris.c:156-182 | letter by letter, the five names that mean a directive, and no others |
| ConfigGrammar.CommentInFile | iris.c:121-127 | deleting a comment, from its leading blanks to its newline, anywhere between two lines of a file, changes nothing |
| ConfigGrammar.BlankInFile | iris.c:121-127 | nor does deleting a blank line |
| ConfigGrammar.UnknownInFile | iris.c:121-186 | nor a well-formed line whose name is none of the five |
| ConfigValues.NumberReads | iris.c:161-169 | a sign or none and digits read as the number they spell, up to the limits of a long, whatever is behind them |
| ConfigValues.NoNumber | iris.c:161-169 | without a digit there is no number |
| ConfigValues.NumberOutcome | iris.c:160-174 | a bad number of clients returns 4, a bad lifetime 5; both are stored, but the global lifetime only by a good one |
| ConfigValues.Casts | iris.c:161 | the casts to 32 bits, unsigned when stored and signed when printed, keep a number modulo 2^32 and one that fits as it is |
| ConfigValues.LowerBytes | iris.c:179-180 | the facility in lower case, letter by letter |
| ConfigValues.DefaultsAre | iris.c:78-95 | the defaults, letter by letter |
| ConfigValues.DecimalSpells | iriscfg.c:65-67 | a printed number: a minus sign exactly for a negative one, no leading zero, digits that spell it |
| ConfigValues.DumpLineBytes | iriscfg.c:64-69 | a printed line, character by character |
| ConfigValues.DumpLines | iriscfg.c:64-69 | the six names in order, each with the setting it names |
| ConfigValues.DumpAllLine | iriscfg.c:64-69 | the lines follow one another, each ended by a newline |
| ConfigDump.SettingParses | iris.c:125-154 | directive, blanks, equals sign, blanks, value and blanks are read as written |
| ConfigDump.EqualsOverwritten | iris.c:130-145 | without a blank before the equals sign and without another one, a line is malformed |
| ConfigDump.EqualsMistaken | iris.c:130-154 | with another one in the value, what is behind that is taken for the value |
| ConfigDump.MisreadExample | iris.c:130-154 | the line port=a=b sets the port to b |
| ConfigDump.AcceptedWithBlank | iris.c:130-145 | for every value: a line is read as written if and only if something blank stands before the equals sign |
| ConfigDump.DecimalReads | iriscfg.c:65-67 | a printed number reads back, as far as a long goes |
| ConfigDump.DumpLineReads | iriscfg.c:64-69 | one printed line is one line read, and gives the directive and value printed; a value too long is cut, and its remainder is a line of its own |
| ConfigRoundTrip.DumpAllReads | iriscfg.c:64-69 | any list of printed lines reads back as the list, long values cut and their remainders read as lines |
| ConfigRoundTrip.DumpThenParse | iriscfg.c:64-69 | for all settings a file can make: their dump parses whatever was set before, and restores them all, the lifetime as far as an int holds it, if and only if every string fits |
| ConfigRoundTrip.RestoredExactly | iriscfg.c:67 | nothing is changed by that exactly when the lifetime is an int and in force |
| ConfigRoundTrip.ParseThenDump | iris.c:110-189 | for every file that parses: printed and read again, the settings are the same if and only if every string is at most 8172 bytes and the lifetime an int |
| ConfigRoundTrip.LongPortExample | iriscfg.c:64 | a port of 8173 letters can be read from a file, but not from its dump |
| ConfigRoundTrip.LongLifetimeExample | iriscfg.c:67 | a lifetime of 3000000000, read and printed, comes back as another number |
| ConfigRoundTrip.DumpIsStable | iriscfg.c:64-69 | printing what a print sets prints the same again |
| ConfigRoundTrip.DefaultsArePrintable | iris.c:85-89 | the defaults can be printed and read back, so the round trips start from them |
| ConfigParser.File.Gets | iris.c:121 | one line in the buffer as a string, the rest still to read |
| ConfigParser.Tokenise | iris.c:125-154 | on the buffer in place: directive and value as the format says, or which of the three errors |
| ConfigParser.LowerInPlace | iris.c:179-180 | in place, the value in lower case |
| ConfigParser.Configuration.constructor | iris.c:78-95 | the defaults |
| ConfigParser.Configuration.Set | iris.c:156-186 | one directive changes the field it names and no other, and which errors leave what behind |
| ConfigParser.Configuration.Parse | iris.c:110-189 | the file is read line by line into the settings the fold gives, with the code of the first error |
| ConfigParser.ParseFile | iris.c:97-108 | a file that cannot be opened changes nothing and is an error, any other one is parsed |
| ConfigParser.ShowConfig | iriscfg.c:44-70 | exits with 2 for a missing file, with 4 exactly when the file cannot be opened or does not parse, and else prints the dump of the settings the file makes of the defaults |

## Left out

- ReadPackets.ReadPackets: nothing is promised about what happens after a write behind the line buffer, which the C language leaves undefined.
- EndToEnd.SendIris: likewise, for an input with a record that overruns the line buffer.
- EndToEnd.RecordsArrive: says which results are submitted for the bytes a connection was read for; a purge, a write error or a cut connection shortens those bytes. What was delivered is the subject of EndToEnd.DeliveredIsSubmitted and EndToEnd.FinishedIsSubmitted.
- ConfigParser.ShowConfig: the `timeout` that is printed is a parameter, because nothing in the code ever sets it; `server_init()` fails only for want of memory, which is not modelled.
- Server.Server.NetAccept: the address text of a client, which only log messages use, is not stored.
- Sockets as such: `net_bind()`, `net_connect()`, `net_poller()`, `nonblocking()`, `close_on_exec()`, `fd_sink()` and `shutdown()` are system calls in a row. Errors of the set-up of an accepted socket are one outcome of `accept()`.
- Stale events: an event reported for a descriptor that was closed and used again within the same batch is handled on the new connection, as in the code; nothing is claimed about whom an event was meant for.
- Arrivals while a call is running happen on the connection being read; those on other connections happen between the calls.
- The purge that runs while a batch is worked off is covered as a step, but how often it runs is not.
- Memory: failing `malloc()`, `realloc()` and `strdup()`, freeing, and a null result pointer of `read_packets()`.
- Threads: the checksum table and the slots belong to one thread.
- broker.c and the headers in icinga/: submitting a result is appending it to a log.
- pdu_dump(), system log and debug output, usage texts, options, the alarm and its handler.
- The rules by which send_iris.pl splits its input, which differ from those of the C client; only its packets are modelled.
- Characters: the C locale, with `char` signed; `isspace()` is false and `tolower()` does nothing above 127.
- client_deinit(), which closes what is open at the end.
