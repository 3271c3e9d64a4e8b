# Verified model of the Wi-Fi AVR programmer firmware

The firmware receives packets over TCP, compiles programming commands from bit patterns, drives
an AVR target over SPI, and answers with packets from a pool. This project models those parts in
Dafny and proves what they do, over every input, every target and every interleaving.

| file | models |
|---|---|
| `Bits.dfy` | fixed-width integers and the C bit operators |
| `Patterns.dfy` | the pattern language and `create_memory_cmd` (programmer_parser.c) |
| `Decoding.dfy`, `Spelling.dfy` | the inverse of the compiler; which bit layouts a pattern can express |
| `McuInfo.dfy`, `Requests.dfy` | the parsers `get_mcu_info`, `get_prog_mem_data`, `get_read_mem_data` |
| `Spi.dfy`, `Commands.dfy`, `Programmer.dfy` | `programmer.c`: the command loops against an arbitrary target |
| `AvrTarget.dfy`, `MemoryLaws.dfy`, `ExampleChip.dfy` | a target that decodes commands by inverting its patterns, and the laws of programming and reading it |
| `Packets.dfy`, `Receiver.dfy` | packet headers; `recv_nbytes` and `recv_packet` on a chunked stream |
| `Pool.dfy` | `pool.c` |
| `Connections.dfy`, `OutQueues.dfy` | listening and handling task as interleaved steps over connection objects, and the out-queues that go with these |
| `PacketFlow.dfy` | the handling task's visits, `packet_manager.c` and `controller.c`: who owns a packet and what its memory holds |
| `PacketLeaks.dfy`, `PacketFixes.dfy` | what each uncorrected line does to the packets, and exactly when |
| `PacketContents.dfy`, `TypeBytes.dfy`, `PacketTypes.dfy` | what the client receives: the bodies, and the type bytes they go out under |
| `HandlingTask.dfy`, `Controller.dfy` | the same visits in place; the packet handlers of `controller.c` over the programmer and the packet pool |
| `EndToEnd.dfy` | sessions: a chunked stream of request frames served, through all of the above, as a plain memory server would |

## How the source is read

* The target is an oracle: its answer may depend on every frame it has received. Laws that need a
  real target use `AvrDevice`, which decodes frames by the patterns.
* Integer widths are explicit: `_u8`, `_u16`, `_u32` and `_i16` are range types, and wrap-around and
  truncation are written out wherever they can happen.
* Stores outside an array and shifts by 32 or more are not given a meaning; where the code would do
  that, the bound is a precondition (`Compilable`, `Readable`, `BodyFits`) and no stronger than needed.
* An uninitialised `status` (programming zero bytes) is a parameter with any value.
* `enum` values are taken to be signed, so that the type -1 of an unknown packet is negative.
* `recv` returning 0 means that the peer has closed. `EAGAIN` is SimpleLink's -11; the header that
  defines it is not part of this model.

The code differs from its evident intent in several places. Both versions are modelled, or the one
named here:

* `check_cmd_status` compares the data byte of a read answer with the command. The methods take the
  number of checked bytes: 4 as written, 3 as intended for reads.
* `recv_nbytes` never advances its buffer: `RecvNBytesAsWritten` beside `RecvNBytes`.
* The drain loop forgets a packet, read-memory answers with the inbound packet, failed sends keep
  their packet: the `Fixes` of `PacketFlow` switch each of the three corrections, and
  `PacketFixes.CleanRunIff` says for every choice which runs it handles.
* `create_packet` never writes the packet type, so an answer goes out under the type byte of the last
  message received into its packet, or, if there was none, under what the memory held from the start
  (`TypeBytes.AnnouncedRightIff`).
* Rejected connections are not released: `releaseRejected` releases them unless their close fails.
* After a failed `pool_get` the listening task uses its variable all the same; that connection is dropped here.
* `get_mcu_info` stores terminators out of bounds; `calloc` has already written them, so the stores
  are left out. `pool_delete` passes NULL to `pool_get`; here it passes a place for the object.
* A header may announce 1029 bytes although `packet_data` holds 1024; `BodyFits` excludes bodies that arrive past its end.
* `set_ack_data` cannot report a failure, and entering programming mode never returns a negative
  status, so the client is told "success" in either case.
* After a failed programming request the device restarts before the queued error is sent.

## Model

| member | source | states |
|---|---|---|
| Patterns.CreateMemoryCmd | programmer_parser.c:155-205 | for every pattern of up to 255 characters whose stores and shifts are defined, the in-place compiler produces exactly the rendering of its tokens, and bit for bit what the characters spell: a `1`, the address bit of an `a` with its decimal digits, the next bit of the byte for an `i`, else 0; no index passes the terminator or wraps, and the loops end |
| Patterns.RenderReads | programmer_parser.c:164-204 | the rendering of the tokens has the bits that a character-by-character reading of the pattern gives |
| Patterns.AddressCharacter | programmer_parser.c:174-191 | wherever an `a` with the decimal digits of s stands in a pattern, the command bit at its place is bit s of the address |
| Patterns.InputCharacter | programmer_parser.c:192-197 | an `i` carries bit 7-k of the byte when k of them precede it |
| Patterns.ScanShift | programmer_parser.c:174-188 | the nested digit scan stops at the first non-digit, the terminator at the latest, and yields 0, x or 10x+y for no, one or two digits |
| Patterns.RenderBits | programmer_parser.c:155-205 | bit p of a command is the meaning of token p, counted from the top of the first byte, and 0 behind the last token |
| Patterns.OrSetsBit | programmer_parser.c:166-197 | OR-ing a shifted bit into a byte changes that bit of the command and no other |
| Decoding.DecodeRenderedAddress | programmer_parser.c:174-191 | decoding a command gives its address modulo 2^n when address bits 0 to n-1 occur in the pattern |
| Decoding.DecodeRenderedInput | programmer_parser.c:192-197 | decoding a command with eight input bits gives its byte |
| Decoding.InjectiveIff | programmer_parser.c:155-205 | commands for n-bit addresses and bytes are all different if and only if the pattern mentions every address bit below n and has eight input bits |
| Spelling.ExpressibleIff | programmer_parser.c:174-186 | a bit layout can be written as a pattern if and only if no constant bit stands right behind an address bit, where it would be read as a digit |
| Spelling.SpellRoundTrip | programmer_parser.c:164-204 | writing a layout as text and reading the text gives the layout back |
| McuInfo.GetMcuInfo | programmer_parser.c:76-147 | every packet long enough for the record is parsed, the consumed bytes are the record's wire form, and the cursor ends at 12 plus the six lengths |
| McuInfo.ReadText | programmer_parser.c:80-87 | one length-prefixed copy loop: the terminated string and the cursor behind it |
| McuInfo.RoundTrip | programmer_parser.c:76-147 | parsing a serialised record rebuilds all six patterns, both waits and the enable command, and leaves what follows |
| McuInfo.WireForm | programmer_parser.c:76-147 | the wire form of a record field by field |
| McuInfo.ParseIsExact | programmer_parser.c:76-147 | the consumed bytes are determined by the parsed record |
| Requests.GetProgMemData | programmer_parser.c:29-44 | address, memory and data of a programming request; the data length is taken modulo 256 |
| Requests.GetReadMemData | programmer_parser.c:47-62 | address, count and memory of a read request, or -1 for any size but nine |
| Spi.CheckCmdStatus | programmer_parser.c:65-73 | 0 exactly when the checked answer bytes repeat the command one byte later |
| Spi.AllAcceptedIff | programmer_parser.c:65-73 | a command sequence is accepted as a whole if and only if every answer echoes its command |
| Spi.SentUpToFailure | programmer.c:162-220 | with a frame that is not echoed, that frame is the last one sent and all before it were echoed |
| Programmer.Programmer.WriteRawCmd | programmer.c:114-126 | one frame on the wire, its answer, and the status of the echo check |
| Programmer.Programmer.ProgramFlashMemory | programmer.c:162-197 | for arbitrary answers the frames sent are the ideal commands up to the first that is not echoed; status 0 exactly when all were; odd lengths send nothing; the 8-bit counter never wraps |
| Programmer.Programmer.ProgramEepromMemory | programmer.c:200-220 | the same for EEPROM, one byte a command, with the address wrapping at 2^32 |
| Programmer.Programmer.ReadFlashMemory | programmer.c:292-324 | the read commands sent, the buffer filled through the wrapping 8-bit counter with the data bytes of the accepted answers, and the count truncated to 16 bits as status |
| Programmer.Programmer.ReadEepromMemory | programmer.c:327-352 | the same for EEPROM, stored in order |
| Programmer.Programmer.EnablePgmMode | programmer.c:60-101 | at most 30 enable frames, stopping at the first whose answer has the second enable byte in third place; the reset line is pulled (0), and released (1) and pulled again after each failure; SPI stays enabled exactly after success; never negative |
| Programmer.EntersIff | programmer.c:72-93 | programming mode is entered if and only if one of the first 30 answers has its third byte equal to the second enable byte |
| Commands.RingStoreAt | programmer.c:296-321 | after m bytes through the 8-bit counter, cell c below 256 holds the byte of the largest index below m congruent to c modulo 256, and cells beyond are untouched |
| Commands.RingStoreLinear | programmer.c:296-321 | up to 256 bytes are stored in order |
| AvrTarget.FlashProgrammed | programmer.c:175-194 | every prefix of the programming commands writes exactly the bytes it carries, low bytes to the low plane and high bytes to the high plane |
| AvrTarget.EepromProgrammed | programmer.c:207-217 | the same for EEPROM |
| AvrTarget.WrittenCell | programmer.c:175-194 | each of the last 2^n bytes written ends up in cell (start + w) mod 2^n |
| MemoryLaws.FlashWriteEffect | programmer.c:162-197 | whatever the target answers, its flash afterwards holds the bytes of the commands that were sent |
| MemoryLaws.EepromWriteEffect | programmer.c:200-220 | the same for EEPROM |
| MemoryLaws.LoadedCells | programmer.c:162-197 | after a page of at most 2^n words, word w is at (start + w) mod 2^n and every other cell is unchanged |
| MemoryLaws.IntendedFlashRead | programmer.c:292-324 | with the limited echo check every flash read succeeds and delivers the memory, high byte first |
| MemoryLaws.IntendedEepromRead | programmer.c:327-352 | with the limited echo check every EEPROM read succeeds and delivers the memory |
| MemoryLaws.AsWrittenReadLaw | programmer.c:301-323 | for arbitrary answers, every byte stored by an accepted read is the third byte of its own read command |
| MemoryLaws.AsWrittenReadIsBlind | programmer.c:301-323 | two successful reads with the same commands store the same bytes, whatever was connected |
| MemoryLaws.AsWrittenFlashReadIff | programmer_parser.c:65-73 | as written, a flash read succeeds if and only if the memory happens to hold the third byte of each read command |
| MemoryLaws.AsWrittenEepromReadIff | programmer_parser.c:65-73 | the same for EEPROM |
| MemoryLaws.FlashReadCanFail | programmer_parser.c:65-73 | every described target has a flash content on which the read as written fails at its first byte |
| ExampleChip.SomeReadsFail | programmer_parser.c:65-73 | a concrete target and memories on which the flash and the EEPROM read fail as written |
| MemoryLaws.FlashRoundTrip | programmer.c:292-324 | programming up to 256 bytes and reading them back gives each pair of bytes swapped |
| MemoryLaws.EepromRoundTrip | programmer.c:327-352 | programming EEPROM and reading it back gives the data unchanged |
| EndToEnd.StoreDecodes | programmer_parser.c:29-44 | a received programming request decodes to the address, memory and data it was built from |
| EndToEnd.FetchDecodes | programmer_parser.c:47-62 | a received read request decodes to the address, memory and count it was built from |
| EndToEnd.StoreWork | programmer.c:162-220 | storing whole words of flash or bytes of EEPROM on a described target succeeds, and its memory is then the stored one |
| EndToEnd.FetchWork | programmer.c:292-352 | with the limited echo check a read delivers the target's memory, reports its length and leaves the target alone |
| EndToEnd.ImageHolds | programmer.c:162-220 | after store requests with disjoint cells the target holds the data of all of them, and every other cell of flash and EEPROM is unchanged |
| EndToEnd.CommandWork | controller.c:126-152 | a raw command runs on the target, whose answer repeats its first two bytes |
| EndToEnd.ServeRequest | packet_handler.c:211-247 | one request frame in the stream, whether to load the record, to store, to fetch or to run a raw command: its bytes are consumed, the target's memory becomes the memory server's, and the server's replies are sent, also by their bytes: an acknowledgement is one byte, 1 |
| EndToEnd.ServeStream | packet_handler.c:211-247 | a stream of request frames in any chunks is served request by request as the memory server would, and what follows in the stream is left alone |
| EndToEnd.SessionLaw | controller.c:155-232 | on the memory server: a session that loads the record, stores an image and fetches it back leaves the image, and its replies are acknowledgements and then the data, words with their bytes swapped |
| EndToEnd.StoreAndFetchImage | packet_handler.c:211-247 | such a session from the chunked stream to the target and to the frames sent, flash and EEPROM mixed, the acknowledgements also by their bytes |
| EndToEnd.AsWrittenFetches | programmer_parser.c:65-73 | as written, a read leaves in the packet the third bytes of its own commands, as many as were accepted |
| ExampleChip.SomeTargetIsDescribed | programmer_parser.h:10-33 | the assumptions about targets can be met all at once |
| ExampleChip.SomeSessionIsPossible | programmer_parser.h:10-33 | so can those about sessions |
| Packets.ParseAfterUpdate | packets.c:57-135 | encoding and decoding a header gives the size and the flags as 0 or 1, under the type byte already in the buffer |
| Packets.UpdateAfterParse | packets.c:57-135 | decoding and encoding restores every header byte except flag bits 3 to 7, which are cleared |
| Packets.AcceptedTypes | packets.c:72-93 | a type byte is accepted if and only if it is in 0x10..0x1D or 0x20..0x24 |
| Packets.TypesAgree | packets.c:228-351 | a type byte is taken for a packet type if and only if it is the protocol's byte for it and the type is not a UART one |
| Packets.ControlNumbers | packets.c:286-351 | the protocol's type numbers of the control packets |
| Packets.ProgrammerNumbers | packets.c:249-285 | the protocol's type numbers of the programmer packets |
| Packets.ParseHeader | packets.c:57-102 | the status of a header by its start byte, size and type, and the parsed record with the size high byte first and the flags in bits 0, 1 and 2; a rejected type only overwrites the group |
| Packets.UpdateHeader | packets.c:105-135 | the five header bytes, the type byte unchanged, or a refusal above 1029 bytes |
| Packets.CreatePacket | packets.c:19-37 | flags, size, header and body of a prepared packet; its type and type byte stay what they were; above 1029 only the size and flags are recorded |
| Receiver.RecvNBytes | packet_handler.c:404-426 | with the buffer advanced, the chunks delivered end up one behind the other in the buffer |
| Receiver.RecvNBytesAsWritten | packet_handler.c:404-426 | as written, each chunk overwrites the start of the buffer |
| Receiver.ReceiveIsStream | packet_handler.c:404-426 | however the stream is cut and paused, n bytes are the next n bytes of the stream, and a shorter stream ends the loop with its own ending |
| Receiver.AsWrittenRightIff | packet_handler.c:408-414 | as written, a message is received right for all contents if and only if it arrives in one piece |
| Receiver.RecvPacket | packet_handler.c:378-401 | status, header, body and what is left of the stream after one call |
| Receiver.DeliverFrame | packet_handler.c:378-401 | an accepted frame arrives whole under every chunking and exactly 5 + size bytes are consumed |
| Receiver.RejectedHeader | packet_handler.c:378-401 | a header that is not accepted ends the call with its status, its five bytes consumed and nothing else |
| Receiver.BrokenHeader | packet_handler.c:378-401 | an error before the header is complete ends the call with that error and leaves record and data alone |
| Receiver.ShortBody | packet_handler.c:378-426 | a stream that ends inside the body ends the call as the stream does, with 0 for a closed connection, and the packet has the header and the part of the body over its old data |
| Receiver.StreamYieldsFrames | packet_handler.c:378-426 | a stream of k accepted frames yields those k packets and leaves the rest of the stream |
| Receiver.PreparedIsAcceptableIff | packets.c:19-37 | a prepared packet is acceptable to a receiver if and only if the type byte left in its memory is |
| Receiver.SuccessReceivesIff | packet_handler.c:378-426 | a call that succeeds has received a frame if and only if the stream goes on to the end of the header and of the body it announces; otherwise the packet holds something else |
| Receiver.ClosedStreamReplays | packet_handler.c:408-425 | a witness: on a closed connection receiving ends without error and delivers the frame left in the packet's memory |
| Pool.ObjectPool.PoolGet | pool.c:43-66 | the pool's transition for a get, with the constructor run on new objects only |
| Pool.ObjectPool.PoolRelease | pool.c:69-80 | the pool's transition for a release, refused only when the free stack is complete |
| Pool.ObjectPool.PoolDelete | pool.c:28-40 | the drain frees the objects of the free stack, top first, without allocating |
| Pool.GetKeepsPartition | pool.c:43-66 | a get hands out nothing that is held, and fails if and only if the maximum is outstanding |
| Pool.ReleaseKeepsPartition | pool.c:69-80 | releasing a held object is never refused and keeps free and held objects apart |
| Pool.ExtraReleaseRefused | pool.c:69-80 | with everything released a further release is refused |
| Pool.PartitionCount | pool.c:43-80 | free plus outstanding is the pool size |
| Pool.LastInFirstOut | pool.c:61-77 | gets return the released objects in reverse order and restore the pool |
| Pool.PoolHistory | pool.c:43-80 | over every disciplined run the size is the peak number outstanding, each object was constructed once, and a get fails exactly at the maximum |
| Pool.DrainVisitsAll | pool.c:28-40 | the drain runs if and only if nothing is outstanding, and then visits every object exactly once |
| Connections.StepInv | packet_handler.c:127-157 | every step of either task keeps conservation, the single control slot and the accounting of losses |
| Connections.ConnectionSafety | packet_handler.c:127-290 | in every interleaving each connection object is in exactly one place, only the control slot is set and its connection is open, pooled objects are marked inactive, and no queue write finds the queue full |
| Connections.Losses | packet_handler.c:252-290 | as written at most MAX_TCP_CONNECTIONS-1 rejections ever happen and each loses an object; with the release only failing closes lose any |
| Connections.Starvation | packet_handler.c:137-148 | once all objects are lost, no later connection is ever queued, installed or given an object |
| Connections.StarvationHappens | packet_handler.c:252-281 | with two connections, one rejection and one failing close lead there |
| Connections.QueueOrder | packet_handler.c:146-148 | accepted connections are taken up first come first served |
| Connections.DropsIff | packet_handler.c:137-148 | an accepted connection is dropped if and only if every object is in use |
| Connections.ClosesMark | packet_handler.c:326-335 | a close that succeeds marks its object inactive, one that fails leaves the handle |
| OutQueues.NoInheritedAnswers | packet_handler.c:222-247 | in every interleaving only the object of the connection being visited has answers queued, so no connection begins with its predecessor's, and every answer is sent to the connection whose message it answers |
| OutQueues.NewNumber | packet_handler.c:140-144 | an accepted connection gets a number that no object has carried before |
| PacketLeaks.QueueEmptyOverAllRuns | packet_handler.c:228-247 | no release of an inbound packet is ever refused, so no drain is skipped and the out-queue is empty between visits, in every version and run |
| PacketFlow.OwnershipOverAllRuns | packet_handler.c:204-249 | with the three corrections the device restarts if and only if a programming request fails; otherwise after every visit the out-queue is empty, every packet is in the pool, three packets are enough and every answer has been sent |
| PacketFlow.ProcessClean | controller.c:126-232 | handling one message queues its answers, at most two; no get fails, and no send but that of an oversized read |
| PacketFlow.VisitOwned | packet_handler.c:204-249 | every packet is in exactly one of pool, queue and the record of lost packets after a visit that does not use the uncorrected read answer |
| PacketLeaks.LeaksOverAllRuns | packet_handler.c:204-249 | in every version and run the leaks plus what pool and queue can still give never exceed MSG_POOL_SIZE, and with the drain as written each visit costs one |
| PacketLeaks.EveryVisitLeaks | packet_handler.c:235-247 | with the drain as written, whatever else is corrected, n visits leave at least min(n, MSG_POOL_SIZE) packets unreachable; leaks never exceed the unreachable packets |
| PacketLeaks.DrainRoundLosesIff | packet_handler.c:236-239 | a drain round makes no packet unreachable but the one it gets, and that one if and only if pool and queue do not name it a second time |
| PacketLeaks.RunRoundLosesIff | packet_handler.c:235-247 | the same for round n of the drain in any visit of any run |
| PacketLeaks.DrainRoundLeaks | packet_handler.c:236-239 | while every packet has one place, a drain round whose get succeeds makes exactly one packet more unreachable |
| PacketLeaks.LeakHiddenByRead | controller.c:227 | a visit of the code as written whose first drain round gets a packet and makes nothing unreachable |
| PacketLeaks.LostOverAllRuns | packet_handler.c:204-249 | with the read answer corrected, the unreachable packets of every run are those recorded as lost |
| PacketLeaks.DeadAfterTenVisits | packet_handler.c:214-217 | after ten visits with the drain as written, whatever the messages and the other corrections, the next message finds no packet |
| PacketLeaks.UnreachableStays | packet_handler.c:204-249 | whatever is corrected, a packet that neither pool nor queue refers to between visits stays unreachable |
| PacketFixes.CleanRunIff | packet_handler.c:204-249 | for each of the eight versions and every run: all packets are back and nothing is lost if and only if the drain is corrected, no read meets the uncorrected answer, no oversized read the uncorrected send, and no programming fails |
| PacketFixes.VisitRestartsIff | controller.c:155-205 | in every version and state a visit restarts the device if and only if its message found a packet and is a programming request that fails, or a load-info or programming request whose packet was the last to be had |
| PacketTypes.AsWrittenRestarts | controller.c:179-180 | a run of the code as written in which the fifth load-info request takes the last packet and the device restarts |
| PacketFixes.ReadGivesUp | controller.c:220-224 | when a read has failed and no packet is left for the error text, nothing is queued, and the memory packet goes back or is lost |
| PacketFixes.QueueNeverFull | packet_manager.c:10-15 | in every version at most two answers are queued, so no queue write finds the queue full |
| PacketFixes.ReadBreaksOwnershipIff | controller.c:208-232 | in every version a visit keeps ownership if and only if its message is not a read request of the right size that the uncorrected line answers |
| PacketFixes.SendLosesIff | packet_manager.c:66-76 | with only the failing send uncorrected a visit loses a packet, and just one, if and only if its message is a read of more than 1029 bytes |
| PacketFixes.SendLossOverAllRuns | packet_manager.c:66-76 | over whole runs one packet is lost for each oversized read, and everything else is in order while three packets are left |
| PacketFixes.ReadHandsOutTwice | controller.c:227 | a run after which the pool hands one packet to two holders |
| PacketContents.RunCarries | packet_handler.c:204-249 | with drain and read answer corrected, the frames sent in a run without restart are exactly the answers to its messages, in order: acknowledgements, error texts, target answers and the bytes read |
| PacketContents.ErrorTexts | controller.c:143-222 | the error texts by their bytes and lengths |
| TypeBytes.VisitTypeBytes | packets.c:19-37 | in every version a visit changes one type byte, that of the packet its message is received into, and all it sends goes out under the type bytes that are there then |
| TypeBytes.AnnouncedRightIff | packets.c:19-37 | every version, run and frame: the announced type is the intended one if and only if the last message received into the packet had its type byte, or none was received and the memory held it |
| TypeBytes.OnlyCommandsRight | controller.c:126-232 | so from a packet that has received a message, acknowledgements, error texts and memory contents are never announced as such, and the answer to a raw command is if and only if that message was a raw command |
| PacketTypes.AsWrittenFreshTypes | packet_handler.c:235-247 | as written, the answers to the first five requests other than reads go out under what the memory of packets 1, 3, 5, 7 and 9 held |
| PacketTypes.AckUnannounced | packets.c:19-37 | a run of the code as written whose acknowledgement is announced as no packet at all |
| PacketTypes.TypesLag | packets.c:19-37 | with the three corrections, when all requests succeed, each answer goes out under the type byte of the request answered before it, the first under what the memory of the second packet held |
| PacketTypes.AnswerUnderPreviousType | packets.c:19-37 | with the corrections, of two answered requests in a row the answer to the second is announced under the type of the first, and rightly if and only if that is its own |
| PacketTypes.FrameTakenFor | packet_handler.c:378-401 | a receiver takes such a frame for a packet of that type, or for none |
| PacketTypes.ReadAnswerAsWritten | controller.c:208-232 | as written the client gets the bytes of the packet that asked; they are the memory's only if the pool had handed out one packet twice |
| PacketTypes.ClientGetsItsRequest | controller.c:227 | as written and from the idle state a read request is answered with its own bytes, whatever was read |
| HandlingTask.Task.CreateSendPacket | packet_manager.c:50-63 | the pool-to-queue transfer in place: the packet taken, its header and body, and the out-queue |
| HandlingTask.Task.AnswerRead | controller.c:221-231 | what follows the read in place: which packet goes out, with what header and data |
| HandlingTask.Task.DrainQueue | packet_handler.c:234-247 | the drain loop in place makes the modelled transition and ends |
| HandlingTask.Task.VisitConnection | packet_handler.c:228-247 | release and drain around a processed message in place make the modelled transition of pool, queue, packet memory and frames sent |
| HandlingTask.Task.Rounds | packet_handler.c:211-247 | any number of visits in place reach the state that the run laws speak of |
| Controller.Controller.ProcessLoadMcuInfo | controller.c:155-183 | the record is parsed and installed, programming mode is tried exactly once in the ten-attempt loop with the levels of the reset line as above, and the acknowledgement is the byte 1 |
| Controller.Controller.ProcessProgramMemory | controller.c:186-205 | a programming packet causes exactly the ideal commands for its data and the packet traffic of its outcome |
| Controller.Controller.ProcessReadMemory | controller.c:208-232 | a read packet fills the packet taken from the pool through the read commands and queues the answer; without a packet or with a wrong size nothing is sent |
| Controller.Controller.ProcessCommand | controller.c:126-152 | the first four bytes are sent once, and the target's answer queued, if and only if the size is 4 modulo 256; otherwise nothing happens on either side |
| Controller.Controller.ProcessReset | controller.c:96-108 | a reset packet pulls the reset line when its first byte is 1, releases it when its second byte is 0, and else does nothing |
| Controller.Controller.ProcessPacket | controller.c:55-63 | dispatch by the packet's type: the work on the target with its results, nothing else on the target's side, and the packet traffic of the outcome, for every handled type |
| Controller.Controller.VisitConnection | packet_handler.c:220-247 | a visit with a received packet as one transition of the packet flow and one effect on the target |
| Controller.Controller.ServeSocket | packet_handler.c:214-247 | the same from the socket: the message is received into a packet from the pool, and what that packet then holds is processed, whatever the status of the reception |

## Left out

- Hardware set-up, task creation, logging and printing, and delays: they have no state that the laws speak of; a delay or a `select` timeout is at most a step.
- `bridge.c`, `pinmux.c`, `main.c`, `sys.c` beyond its queue calls, `wlan_config.c`, `udp_resolver.c`, `misc.c`: SDK calls or easy members.
- `wired_configurator.c`: DMA and interrupt plumbing that repeats the header parse.
- The handlers of `controller.c` that answer nothing (the stubs for init, stop, UART, encryption and sign, and reset) are the single message `Silent` in the packet flow; dispatch through a NULL handler is not modelled.
- Memory effects of out-of-bounds stores and undefined shifts: stated as preconditions.
- Data races inside a pool call: pool and queue operations are atomic.
- Receiver.RecvPacket: leaves out announced bodies of 1025 to 1029 bytes when more than 1024 bytes are still to come, because they would be stored past the packet's memory.
- Packets.CreatePacket: leaves out copying 1025 to 1029 bytes, because they would be stored past the packet's memory.
- Programmer.Programmer.ReadFlashMemory: leaves out reads in which 2^31 answers are accepted, because the int loop counter would overflow.
- Programmer.Programmer.ReadEepromMemory: leaves out reads in which more than 1024 answers are accepted, because they would be stored past the packet's memory.
- Controller.Controller.ProcessReadMemory: leaves out the same reads.
- PacketTypes.ReadAnswerAsWritten: of an answer announced with 1025 to 1029 bytes only the 1024 of the packet are modelled; the rest is memory behind the packet.
- HandlingTask.Task.VisitConnection: the received message and the results of its work are parameters; `Controller.Controller.ServeSocket` receives the one and computes the others.
- OutQueues.NoInheritedAnswers: a visit handles one message at the most and its drain ends with an empty queue, as `PacketLeaks.QueueEmptyOverAllRuns` proves of the visits; a visit that restarts the device ends the run.
- EndToEnd.ServeStream: leaves out fetches of more than 256 bytes of flash, whose bytes start over in the buffer (`Commands.RingStoreAt`).
- HandlingTask.Task.Rounds: leaves out `select` and the polling for new connections, which `Connections` models.
- HandlingTask.Task.CreateSendPacket: the packets' memory is a map of values; `Packets.CreatePacket` does the same to a packet in place.
- Connections.StepInv: lets the handling task poll for a new connection between any two visits, a superset of the orders in the code.
- PacketFlow.VisitOwned: the handling task stops where the code would go on with a variable that holds no packet, or where the device restarts.
- `mem_Malloc`, `malloc` and `calloc` never fail here.
