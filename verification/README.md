# PCIe capture: a verified model

This project models the stateful cores of the PCIe capture library, its GUI and its tools, and proves what they
promise over all inputs, all runs and all files. Every module stands for one component:

| module | component |
|---|---|
| `PciConfig` | configuration-space access in partial transfers, and the walk along the capability list |
| `CompletionRing` | the 16-slot completion queue of the PCI backend |
| `Throttle` | pacing of the dummy backend |
| `Scenario`, `ScenarioSpec`, `CNumbers` | the scenario language of the dummy backend, the C number readers below it, and the printer in the GUI |
| `PcieContext` | the growing trace buffer, send and receive, the sniffers and the dispatch loop |
| `CsvExport`, `CsvReader` | the CSV writer, and the quote-aware reader of the GUI |
| `Pattern`, `QemuTrace` | deterministic expressions in general, and the QEMU trace lines the GUI reads and prints |
| `QtText` | filling the place markers of a text, as the GUI does to print a line |
| `LiveTrace`, `TraceWindow` | polling a growing file, and the trace table with its load, save and poll |
| `Pshark` | the `strtok` summary reader |
| `Pcap` | the binary capture writer |
| `FpgaWords` | packing of packets into the register words of the FPGA backend |
| `Xgig` | the byte stream of the Xgig backend |
| `FpgaDriver` | the simulated FPGA driver with its two delayed works |
| `PcieTypes`, `Text`, `ByteOrder`, `Framing` | integer widths, packets and records; texts and numerals; byte order; streams of frames |

Code that changes state is modelled as classes, arrays and loops, each method proved against a specification
function; the laws are then lemmas about those functions. What each operation puts on a wire, in a file, in a
register or in a table is also written out byte by byte, field by field or call by call, apart from those functions. Transfers, clocks, sleeps, allocation failures and what a
socket accepts are parameters, so that every theorem holds for every behaviour of the system below.

## What the code does against its evident intent

Each of these is proved, together with the exact condition under which the code does what is intended.

- **Pacing.** The next slot is computed from the clock reading taken before the sleep, so N calls take at least
  floor(N/2) intervals, and this is attained: two calls get through per interval (`Throttle.PacingBound`,
  `Throttle.PacingBoundIsTight`). The promised rate is guaranteed after a call exactly when that call neither slept
  nor lost time (`Throttle.NextCallIsPaced`).
- **Capability walk.** 48 steps suffice on every chain of DWORD-aligned pointers, cyclic or not
  (`PciConfig.WalkIsComplete`). On any chain the walk succeeds exactly if one of the first 48 nodes is a PCIe
  capability (`PciConfig.WalkIsFirstHit`); with unaligned pointers the first one can lie further out
  (`PciConfig.UnalignedChainMissesHit`).
- **CSV payload.** The payload column ends at the first zero byte. What a packet carries, up to 256 bytes, comes back
  exactly when it has no zero byte (`CsvReader.CarriedSurvivesIff`); the whole padded buffer of a record exactly when
  that has none (`CsvReader.PayloadSurvivesIff`). A direction is written by name, so it is kept exactly when it is TX
  or RX (`CsvReader.DirectionSurvivesIff`).
- **Saving.** The GUI saves every table as QEMU trace lines, and decides on loading from all lines whether a file is a
  CSV file. One saved line is read as its row exactly if the row has the fields of such a line
  (`QemuTrace.SavedReadsBackIff`), and a table survives being saved and loaded exactly if all its rows have
  (`TraceWindow.SaveThenLoadIff`). A single other row can lose the printable ones (`TraceWindow.MixedTableIsLost`), and
  loading the saved file of a loaded CSV export gives an empty table (`TraceWindow.SavedCsvIsLost`). A percent sign in
  a field can be taken for a place marker (`QemuTrace.PercentIsReplaced`).
- **Binary capture.** `incl_len` counts the direction as one byte while four are written: 272 instead of 276. The file
  header has 4-byte version fields, 28 bytes in all. A reader that skips a fixed size meets the records of a file
  exactly if the size is 276 or there are none (`Pcap.FixedSkipInSyncIff`); one that follows the stored lengths only
  if there are none, since it is four bytes early after the first record and takes the second record's microseconds
  for its length (`Pcap.FollowingInSyncIff`, `Pcap.InclLenLosesSync`). By that length alone it would be 4*i bytes
  early at record i (`Pcap.InclLenDrift`).
- **Summary.** The header line is counted, so the total is one too high. `strtok` closes empty fields, so on records
  of another direction, and only on those, it takes the type for the direction and counts the requester for the type
  (`Pshark.SummaryOfExport`, `Pshark.ReadersAgree`, `Pshark.ReadersPart`).
- **FPGA words.** A length above 255 runs into the type: the received type is the type OR'ed with the high byte of the
  length (`FpgaWords.Loopback`, `FpgaWords.LoopbackRestoresIff`). The payload survives, whatever the receiver's
  allocation held, exactly if it has at most 64 bytes (`FpgaWords.PayloadSurvivesIff`); a length without data delivers
  what the window held before (`FpgaWords.MissingPayloadIsStale`).
- **Driver.** The command register doubles as status register, and CMD_SEND_TLP equals STATUS_BUSY and CMD_RESET equals
  STATUS_COMPLETE. A write of zeros starting at offset 1, 2 or 3, which the handler ignores, can therefore announce a
  status with no work pending. Exactly these writes can (`FpgaDriver.WriteKeepsInvIff`), and each of them does so right
  after loading, behind one other write (`FpgaDriver.TornIsReachable`).
- **Completion queue.** When a completion has a length but no data, the payload delivered is what an earlier completion
  left in the slot (`CompletionRing.PayloadIsOwn`).
- **Xgig.** A length without data fails after the header was sent, and whatever follows is taken for the payload
  (`Xgig.MissingPayloadSwallows`). A receiver recovers what was sent exactly while no send has stopped inside a frame
  (`Xgig.Connection.RecoveredIffClean`); with a socket that takes everything, that is exactly while every packet sent
  has data or length 0 (`Xgig.Connection.Send`, `Xgig.DecodableIff`).
- **Live polling.** A line caught half-written can stay in the table beside its completed form. This is harmless exactly
  if the half line is blank, unreadable, already seen, or the next line to be added anyway
  (`LiveTrace.HalfLineIsHarmlessIff`); a first line cut inside its value is none of these (`TraceWindow.CutValueAddsRow`).
- **Trace.** The dispatch loop records no trace, unlike a single receive (`PcieContext.Context.Loop`,
  `PcieContext.Context.Recv`), and an append reports success even when the record was dropped
  (`PcieContext.Context.Append`).

## Model

| member | source | states |
|---|---|---|
| PciConfig.ConfigFile.Transfer | src/backend_pci.c:103-116 | One `pread` or `pwrite` of any size up to the request moves exactly that many bytes, in one direction, and touches nothing else; without faults it moves something unless it is at the end |
| PciConfig.AccessConfig | src/backend_pci.c:79-132 | However the transfer is cut into pieces, the bytes moved are a contiguous front part of the request and nothing else changes; success means all of it, and without faults the call succeeds exactly when the range lies in the file |
| PciConfig.MovedInPieces | src/backend_pci.c:125-127 | A transfer and its continuation at the advanced cursor and offset are one transfer of the sum |
| PciConfig.WholeTransfer | src/backend_pci.c:100-131 | A complete write replaces exactly `offset..offset+len` of the space and leaves the buffer; a complete read fills the buffer with exactly that range and leaves the space |
| PciConfig.FindPcieCapability | src/backend_pci.c:134-171 | The loop over partial transfers finds what the walk over the plain bytes finds; without faults in both directions; the space is unchanged; what it finds is where the list leads, and without faults it fails only if it leads nowhere |
| PciConfig.WalkLeads | src/backend_pci.c:143-170 | The walk finds p iff bit 4 of byte 6 is set and a path of at most 48 pointers, from byte 0x34 on, each stored behind the one before, ends at p with ID 0x10 and has none before |
| PciConfig.WalkFromNode | src/backend_pci.c:151-168 | From any node, with any number of steps, the walk succeeds exactly if one of the next nodes in reach has ID 0x10, and returns the first such |
| PciConfig.WalkIsFirstHit | src/backend_pci.c:147-170 | Without any assumption on the chain: the walk succeeds iff the status bit is set and one of the first 48 nodes has ID 0x10, and returns the first |
| PciConfig.Periodic | src/backend_pci.c:167 | A chain that revisits a pointer repeats itself from there on |
| PciConfig.Pigeonhole | src/backend_pci.c:152 | Distinct numbers below k are at most k many |
| PciConfig.FirstHitIsNear | src/backend_pci.c:152 | On a chain of aligned pointers in 0x40..0xFC, cyclic or not, the first PCIe capability is among the first 48 nodes |
| PciConfig.WalkIsComplete | src/backend_pci.c:134-171 | On such chains the 48-step walk succeeds exactly when any node of the chain has ID 0x10, and returns the first one |
| PciConfig.LeastHit | src/backend_pci.c:158-161 | A chain that has a PCIe capability has a first one |
| PciConfig.UnalignedChainMissesHit | src/backend_pci.c:152 | A chain of pointers two bytes apart has a PCIe capability as its 49th node, which the walk does not find |
| CompletionRing.ContentsPush | src/backend_pci.c:40-47 | Filling the slot at the tail appends to the queue, wherever the head stands |
| CompletionRing.ContentsPop | src/backend_pci.c:65-66 | Advancing the head removes the first element of the queue, wherever the head stands |
| CompletionRing.Ring.Enqueue | src/backend_pci.c:35-49 | Appends the completion if fewer than 16 are queued, with all its header fields and as payload its own bytes, or without data those of the slot; else fails and changes nothing; what was accepted is always what was delivered followed by the queue |
| CompletionRing.Ring.Dequeue | src/backend_pci.c:51-68 | Removes the oldest completion and returns its header and a freshly allocated payload; on an empty queue or a failed allocation the queue is unchanged |
| CompletionRing.CopyPayload | src/backend_pci.c:57-64 | The payload handed out is a fresh copy of the queued bytes |
| CompletionRing.PayloadIsOwn | src/backend_pci.c:42-45 | What is queued is independent of what the slot held before exactly when data is given or the length is 0 |
| Throttle.Pacer.Apply | src/backend_dummy.c:277-294 | Returns no earlier than the deadline found, sets the next one the whole part of 10^9 / rate after the clock reading taken before the sleep, and every run of calls it makes is a paced run; a rate of 0 leaves everything as it was |
| Throttle.Pacer.ConfiguredRate | src/backend_dummy.c:277-294 | In every state of a pacer, N consecutive calls made at one rate took at least floor(N/2) times the whole part of 10^9 / rate |
| Throttle.RunExtend | src/backend_dummy.c:288-293 | A call that waits for the deadline extends a paced run, and the new deadline is its clock reading plus its interval |
| Throttle.PairSpacing | src/backend_dummy.c:289-293 | In any paced run a call starts at least m intervals after the one 2m before it |
| Throttle.PacingBound | src/backend_dummy.c:277-294 | N consecutive calls of any paced run take at least floor(N/2) intervals, from the first clock reading to the last return |
| Throttle.PacingBoundIsTight | src/backend_dummy.c:277-294 | For every N a run that calls back to back and sleeps exactly as asked attains that bound |
| Throttle.NextCallIsPaced | src/backend_dummy.c:289-293 | Every possible next call ends a full interval after the last one iff the last call ended at its own clock reading |
| Throttle.PromisedRateFails | src/backend_dummy.c:293 | Three back-to-back calls do not keep to one call per interval, for every interval |
| FpgaDriver.Driver.Write | fpga_driver.c:64-100 | The handler changes the registers and the pending works as the state machine says, clips at the window, refuses offsets beyond it; in bytes: a command word of 1 is left as 1, BUSY, with the first work scheduled, one of 2 clears every register, and all other bytes are as stored or as before |
| FpgaDriver.Driver.CompleteWork | fpga_driver.c:135-142 | The first delayed work leaves 2, COMPLETE, in the command register and the second work scheduled, and no other register changed |
| FpgaDriver.Driver.ReadyWork | fpga_driver.c:144-147 | The second delayed work leaves 0, READY, and no other register changed |
| FpgaDriver.WriteIs | fpga_driver.c:64-100 | What a write does to each byte and each work, for every offset and data |
| FpgaDriver.SendRuns | fpga_driver.c:77-147 | After loading, a send command and the two works it leads to show 1, 2 and 0 in the command register, and then nothing is pending |
| FpgaDriver.WriteKeepsInvIff | fpga_driver.c:70-96 | A write keeps BUSY => completion pending and COMPLETE => ready pending on all machines iff it is not a write of zeros to the command word that starts at offset 1, 2 or 3 |
| FpgaDriver.TornIsReachable | fpga_driver.c:70-96 | For every such write there is another write that, done first from the initial state, makes it leave BUSY with no work pending |
| FpgaDriver.TornRunAnnouncesBusy | fpga_driver.c:70-96 | For instance a word that is no command, and then a zero over its second byte |
| FpgaDriver.StepKeepsInv | fpga_driver.c:64-147 | Every other step keeps that invariant too, also resets and sends while works are pending |
| FpgaDriver.EveryReachableState | fpga_driver.c:64-147 | Hence it holds after every run without such writes, from the initial state or any other that has it |
| FpgaDriver.WorksDrain | fpga_driver.c:135-147 | Without further writes, every firing lowers 2*completePending + readyPending by at least one, no other register changes, and if anything was pending the register reads READY once nothing is |
| FpgaDriver.QuiescentIffStuck | fpga_driver.c:149-150 | No work is pending exactly when only writes can happen |
| FpgaDriver.BusyEndsReady | fpga_driver.c:135-147 | A register that is BUSY or COMPLETE ends READY, after at most three firings |
| PcieContext.AndBits | src/filter.c:6 | The masked type has exactly the bits that the type and the mask have both |
| PcieContext.MatchTypeIsEquality | src/filter.c:3-7 | The type filter matches exactly the packets whose type has that low byte, and so, among one-byte types, exactly that type |
| PcieContext.Backend.Recv | src/backend_dummy.c:390-410 | Receives the packets still to come one by one, and fails exactly when there are none |
| PcieContext.DummyFeed | src/backend_dummy.c:390-410 | A fresh dummy backend delivers exactly 1000 reads of length 4 at addresses 0x1000 + 4*i |
| PcieContext.Context.Record | src/pcapcie.c:29-70 | Appends one entry with time, direction, low byte of the type, ids, tag, length, address, and 256 payload bytes, those of the packet and then zeros; if the buffer is full and cannot grow, drops only that entry; the buffer always holds exactly the history |
| PcieContext.RecordTraces | src/pcapcie.c:52-69 | The entry of a packet, field by field and byte by byte |
| PcieContext.Context.Grow | src/pcapcie.c:41-50 | The capacity goes from 0 to 16 or doubles, stays 0 or 16*2^k, and the records survive the move |
| PcieContext.CapacityIsDoubled | src/pcapcie.c:42 | The capacities are 0 and 16 doubled any number of times, and no others |
| PcieContext.Context.GrowthIsAmortized | src/pcapcie.c:41-50 | In every reachable state the elements moved by growth are at most twice the appends so far, and fewer once there is one |
| PcieContext.Context.Send | src/pcapcie.c:253-271 | Counts every send; records it as TX exactly if the backend succeeded |
| PcieContext.Context.Recv | src/pcapcie.c:273-281 | Takes the next packet of the backend, counts it and records it as RX; a failed receive changes nothing |
| PcieContext.Context.Append | src/pcapcie.c:140-147 | Records in the given direction; returns 0 even if the record was dropped |
| PcieContext.Context.Reset | src/pcapcie.c:122-130 | Empties the history and keeps the capacity |
| PcieContext.Context.TraceCount | src/pcapcie.c:132-138 | The number of records is the length of the history |
| PcieContext.Context.Sniff | src/pcapcie.c:283-293 | Registers one more filter at the end, up to eight |
| PcieContext.Context.Deliver | src/pcapcie.c:317-322 | The calls for one packet go to the matching sniffers, in strictly increasing order of registration, each one once, and to no other |
| PcieContext.Context.Loop | src/pcapcie.c:295-328 | Empties the backend; the calls made are ordered by packet and for one packet by registration, one for every packet and matching sniffer and no other; `received` grows by the number of packets; no trace is recorded |
| PcieContext.OfferInOrder | src/pcapcie.c:317-322 | The order and completeness of the calls for one packet |
| PcieContext.DispatchIsInOrder | src/pcapcie.c:299-323 | The order and completeness of the calls for a series of packets |
| PcieContext.SeenOffer | src/pcapcie.c:317-322 | A sniffer is called once for a packet it matches and not at all for another |
| PcieContext.SnifferSeesItsFilter | src/pcapcie.c:299-323 | Over a whole loop each sniffer sees exactly the subsequence that its filter lets pass |
| ByteOrder.ValueOfEncode | src/backend_xgig.c:78-89 | A number that fits is read back from its bytes, in either byte order |
| ByteOrder.EncodeOfValue | src/backend_xgig.c:78-89 | Bytes are read as a number that fits and is written as the same bytes |
| ByteOrder.BigFour | src/backend_xgig.c:81-82 | A number of four bytes, high byte first, by its bytes |
| ByteOrder.LittleFour | src/pcapcie.c:185-188 | A number of four bytes, low byte first, by its bytes |
| ByteOrder.UnpackOfPack | src/backend_xgig.c:76-89 | Fields of any widths packed one after another are read back, whatever follows |
| ByteOrder.PackOfUnpack | src/backend_xgig.c:76-89 | Bytes cut into fields and packed again are the same bytes |
| ByteOrder.UnpackAt | src/pcapcie.c:185-197 | Each field lies at the sum of the widths before it |
| ByteOrder.PutField | src/backend_xgig.c:77-89 | Storing one more field in a buffer in place extends the packed front |
| Xgig.HeaderIsLaid | src/backend_xgig.c:76-89 | The sixteen bytes of a header: type, requester, completer, tag, length, low and high half of the address, each with its high byte first |
| Framing.ReadAllBehind | src/backend_xgig.c:91-107 | If a reader reads back single frames whatever follows, then behind any frames it reads on as if they were not there |
| Framing.ReadAllOfConcat | src/backend_xgig.c:91-107 | Such a reader reads back every stream of frames |
| Framing.ConcatOfReadAll | src/backend_xgig.c:91-107 | If all a reader accepts is a frame, every stream it reads to the end is a stream of frames |
| Framing.ConcatFrom | src/pcapcie.c:178-198 | With frames of one size, frame i starts at i times the size |
| Xgig.FillHeader | src/backend_xgig.c:76-89 | The 16-byte buffer, filled in place, holds those bytes |
| Xgig.Connection.Send | src/backend_xgig.c:65-111 | Succeeds exactly if connected and both parts went out whole; success adds exactly the sixteen header bytes and the payload to the stream, failure adds at most a front part of them; a clean stream is the frames of what was sent, any other holds more; if the socket takes everything, a clean stream stays clean exactly if the packet has data or length 0 |
| Xgig.Connection.RecoveredIffClean | src/backend_xgig.c:91-107 | In every state, a receiver recovers exactly what was sent (types by their low byte) iff no send has stopped inside a frame |
| Xgig.DecodeInvertsFrames | src/backend_xgig.c:76-107 | A decoder reads every stream of frames of well-formed packets back as those packets |
| Xgig.FramesInvertDecode | src/backend_xgig.c:76-107 | Every stream the decoder accepts is the frames of what it returns, all well-formed |
| Xgig.FramesInjective | src/backend_xgig.c:76-107 | The streams of two lists of well-formed packets are equal iff the lists are |
| Xgig.DecodedIff | src/backend_xgig.c:76-107 | Packets with a payload where they have a length are recovered from a stream iff it is their frames |
| Xgig.HeaderTakesPayload | src/backend_xgig.c:91-101 | After a header without its payload, the next `length` bytes, whatever they are, are decoded as the payload; with fewer, nothing is decoded |
| Xgig.MissingPayloadSwallows | src/backend_xgig.c:91-101 | The same behind any other frames: the packets before are recovered, `length` bytes are lost to the payload, and decoding goes on behind them |
| Xgig.DecodableIff | src/backend_xgig.c:97-107 | A packet sent whole behind other frames leaves a decodable stream iff it has data or length 0 |
| Xgig.MissingPayloadSwallowsFrame | src/backend_xgig.c:91-101 | In particular, a next frame of just that length is decoded as the payload |
| FpgaWords.OrLanes | src/backend_fpga.c:75 | A bitwise or of two numbers split at bit n is the or of their parts |
| FpgaWords.OrBits | src/backend_fpga.c:75 | A bitwise or has exactly the bits that either number has |
| FpgaWords.Word0Lanes | src/backend_fpga.c:75 | The first word, with the shifts and ors on 32 bits, is the type overlaid with the high length byte, the low length byte, and the requester |
| FpgaWords.Word0RoundTrip | src/backend_fpga.c:75 | The three shifts and masks of the receiver recover exactly those parts |
| FpgaWords.Send | src/backend_fpga.c:59-98 | A ready device gets the requester, the length modulo 256, the type with the bits of the high length byte, the address in two words, the tag, and in up to sixteen words the payload bytes, low byte first and zeros behind the last; the other words stay; a device that is not ready leaves all as it was |
| FpgaWords.SentHolds | src/backend_fpga.c:75-94 | Those words, bit by bit and byte by byte |
| FpgaWords.Recv | src/backend_fpga.c:100-141 | Without data fails; otherwise returns the unpacked header, and the payload bytes read from the window |
| FpgaWords.ReadPayload | src/backend_fpga.c:129-133 | The loop in 4-byte chunks with its 1-3 byte tail fills each byte below 64 from its place in the words and leaves the others |
| FpgaWords.PayloadRoundTrip | src/backend_fpga.c:89-93 | Each of the first 64 payload bytes, in a whole word or in the tail, is received as it was sent |
| FpgaWords.HeaderLoopback | src/backend_fpga.c:112-123 | Requester, tag and 64-bit address come back; the type overlaid with the high length byte; the length modulo 256 |
| FpgaWords.Loopback | src/backend_fpga.c:75-135 | Receiving from the words just sent gives the packet sent, for every length, up to those two changes and the completer |
| FpgaWords.LoopbackRestoresIff | src/backend_fpga.c:75-120 | Type and length come back unchanged iff both are below 256 |
| FpgaWords.PayloadSurvivesIff | src/backend_fpga.c:86-135 | The payload received is the one sent, for every content of the receiver's allocation, iff its length is at most 64 |
| FpgaWords.MissingPayloadIsStale | src/backend_fpga.c:86-94 | Without data, each payload byte received is the one the window held before |
| Pcap.WritePcap | src/pcapcie.c:149-203 | Writes the 28 header bytes and 292 bytes for each record, in order, each field in its place; writes nothing if the file cannot be opened |
| Pcap.HeaderIs | src/pcapcie.c:152-176 | The seven header numbers, low byte first in four bytes each |
| Pcap.RecordIsLaid | src/pcapcie.c:180-197 | The 292 bytes of a record, field by field: seconds, microseconds, 272 twice, direction in four bytes, type, ids, tag, length, address, payload |
| Pcap.FileIsLaid | src/pcapcie.c:170-198 | A file is the header and, from byte 28+292*i on, the bytes of record i |
| Pcap.PacketReadsBack | src/pcapcie.c:180-197 | A record is read back with the writer's field widths, whatever follows |
| Pcap.FileRoundTrip | src/pcapcie.c:170-198 | A file of n records has 28+292*n bytes, and after the header it is read back to its records |
| Pcap.EveryBodyIsAFile | src/pcapcie.c:178-198 | Everything that reads as records is what the writer would write for them |
| Pcap.FileDeterminesRecords | src/pcapcie.c:180-197 | Two traces have the same file iff their records agree in all stored fields, times to the microsecond and seconds modulo 2^32 |
| Pcap.RestAt | src/pcapcie.c:178-198 | What follows byte 28+292*i of a file is the records from i on, and the file ends behind the last |
| Pcap.RecordAt | src/pcapcie.c:178-198 | The 292 bytes from 28+292*i on are the bytes of record i |
| Pcap.SkipsInFile | src/pcapcie.c:185-188 | What a reader finds when it skips by the second field of a packet header, at the first record and four bytes before the second |
| Pcap.InclLenLosesSync | src/pcapcie.c:182-183 | In every file with a record, the first skip by the stored length ends four bytes before the next record would start; with a second record, the next skip is taken by its microseconds |
| Pcap.FollowingInSyncIff | src/pcapcie.c:182-188 | A reader that follows the stored lengths meets the record starts of a file iff it has no records |
| Pcap.FixedSkipInSyncIff | src/pcapcie.c:182-197 | On the file of any records, a reader with a fixed skip has exactly the remaining records before it after every skip iff there are none or the skip is the body size of 276 |
| Pcap.InclLenDrift | src/pcapcie.c:182-197 | In every file, a reader that skips by 272 is 4*i bytes before record i after i skips |
| Text.NumeralRoundTrip | src/pcapcie.c:236-244 | A printed number is read back, in each base |
| Text.NumeralInDecimal | src/pcapcie.c:236-244 | The digits of a decimal numeral, from the last to the first |
| Text.NumeralInHex | src/pcapcie.c:236-244 | The digits of a hexadecimal numeral, in lower case |
| Text.NumeralLength | src/pcapcie.c:236-244 | A number below a power of ten has no more digits than its exponent |
| Text.SplitPieces | gui/src/MainWindow.cpp:1082 | No piece of a split contains the separator |
| Text.TrimIsTrimmed | gui/src/MainWindow.cpp:1097 | A trimmed text has white space at neither end |
| CsvExport.PayloadHex | src/pcapcie.c:224-233 | The hex text is that of the bytes before the first zero byte and always fits its buffer, so it is never cut |
| CsvExport.HexOfByte | src/pcapcie.c:229-232 | A byte is two hexadecimal digits, the high one first |
| CsvExport.LineSpelled | src/pcapcie.c:235-245 | The line of a record written out column by column, with TX for direction 1, RX for 2 and nothing for others |
| CsvExport.HeaderSpelled | src/pcapcie.c:218-219 | The text of an empty trace is the nine column names |
| CsvExport.CsvTextSpelled | src/pcapcie.c:221-246 | One more record adds its line and a line end to the text |
| CsvExport.UnHexOfHex | src/pcapcie.c:229-232 | The bytes can be recovered from their hex text |
| CsvExport.FieldsAreTokens | src/pcapcie.c:235-245 | No field contains a comma, a quote, a line end or white space |
| CsvExport.LineLength | src/pcapcie.c:235-245 | No line is longer than 700 characters |
| CsvExport.WriteCsv | src/pcapcie.c:205-251 | Writes the header line and one line per record, in order |
| CsvReader.SplitCsvLine | gui/src/MainWindow.cpp:1005-1030 | The loop computes the fields of the two-state reader |
| CsvReader.QuotesAreDoubled | gui/src/MainWindow.cpp:1013-1019 | Quoting puts a text in quotes and writes each quote in it twice |
| CsvReader.SplitInvertsQuoting | gui/src/MainWindow.cpp:1005-1030 | Splitting inverts the quoting of section 2 of RFC 4180 for every non-empty list of texts, each quoted or, where it may be, bare |
| CsvReader.SplitInvertsJoin | gui/src/MainWindow.cpp:1005-1030 | A joined line of plain fields splits into those fields |
| CsvReader.DirectionsAreRead | gui/src/MainWindow.cpp:48-54 | TX and RX in either case, 1 and 2, with white space around, are read as TX and RX |
| CsvReader.TypesAreRead | gui/src/MainWindow.cpp:56-65 | The five type numbers and the empty field have their names, everything else is kept |
| CsvReader.DirectionRoundTrip | gui/src/MainWindow.cpp:48-54 | The direction names the exporter writes, the empty one included, are the ones the reader keeps |
| CsvReader.CsvRowOfLine | gui/src/MainWindow.cpp:1103-1119 | An exported line is one line, is not taken for a header, and becomes the row of its record |
| CsvReader.KindRoundTrip | gui/src/MainWindow.cpp:56-65 | The type number can be recovered from the name shown, for all 256 |
| CsvReader.RowRestoresRecord | gui/src/MainWindow.cpp:1111-1119 | For every record: time, type, ids, tag, length and address are recovered exactly from the row, the direction if it is TX or RX, the payload up to its first zero byte |
| CsvReader.DirectionSurvivesIff | src/pcapcie.c:223-238 | The row tells the direction of its record from every other iff it is TX or RX |
| CsvReader.PayloadSurvivesIff | src/pcapcie.c:228 | The padded 256-byte buffer of a record is recovered iff it contains no zero byte |
| CsvReader.CarriedSurvivesIff | src/pcapcie.c:63-69 | The bytes a packet carries into its record, cut at 256, are recovered from the row, with their number, iff none of them is zero |
| TraceWindow.Table.LoadCsv | gui/src/MainWindow.cpp:1072-1163 | The table becomes the rows of the file's lines, read as CSV or as raw trace as the whole file decides |
| TraceWindow.ColumnsAreRead | gui/src/MainWindow.cpp:1106-1119 | A line of nine or more fields, with any quoting, becomes the row of its first nine, in this order |
| TraceWindow.BlankFirstLineLoadsNothing | gui/src/MainWindow.cpp:1085-1088 | A file whose first line is blank gives no rows |
| TraceWindow.CsvRoundTrip | gui/src/MainWindow.cpp:1082-1155 | Loading an exported trace, whatever its records, gives one row per record, in order |
| TraceWindow.Table.SaveTrace | gui/src/MainWindow.cpp:954-1003 | Writes, for exactly the rows that have an address and in their order, the template filled with their fields one after another; nothing for an empty table |
| TraceWindow.SavedTextIsSaved | gui/src/MainWindow.cpp:978-998 | The saved text is the lines of some rows, strictly in the order of the table, and these are all that have an address |
| TraceWindow.MiddleIsLeftOut | gui/src/MainWindow.cpp:988-990 | A row without an address between two others is left out |
| TraceWindow.ReadRowIsPrintable | gui/src/MainWindow.cpp:985-998 | A row that was read from a trace line has such fields |
| TraceWindow.RawRowsArePrintable | gui/src/MainWindow.cpp:1137-1154 | So has every row of a loaded raw trace |
| TraceWindow.ExportedIsNotPrintable | gui/src/MainWindow.cpp:977-999 | No row of an exported record has such fields, so its saved line is not read as that row |
| TraceWindow.SavedCsvIsLost | gui/src/MainWindow.cpp:977-999 | For every exported trace: load, save, load gives an empty table |
| TraceWindow.SaveThenLoad | gui/src/MainWindow.cpp:977-999 | Saving and loading a table whose rows all have the fields of a trace line gives those rows with new times |
| TraceWindow.SaveThenLoadIff | gui/src/MainWindow.cpp:977-1155 | A non-empty table, whatever its rows, is restored but for times by saving and loading it, at all times of loading, iff every row has the fields of a trace line |
| TraceWindow.MixedTableIsLost | gui/src/MainWindow.cpp:1090-1109 | A table of a printable row and a row with "timestamp," in its requester is saved as a file that is read as CSV and has no rows |
| TraceWindow.SpoilingRowIsLoaded | gui/src/MainWindow.cpp:1103-1119 | Such a row is loaded from an ordinary CSV line with a quoted field |
| TraceWindow.LoadSaveIdempotent | gui/src/MainWindow.cpp:977-999 | For every raw trace: load, save, load gives the rows of the first load up to times, and saving again gives the same text |
| TraceWindow.Table.PollLiveTrace | gui/src/MainWindow.cpp:905-934 | Appends exactly the fresh lines as rows and marks exactly those as seen |
| TraceWindow.PollLinesAddsFresh | gui/src/MainWindow.cpp:909-934 | The loop that skips, parses and inserts computes the fresh lines |
| TraceWindow.Watch | gui/src/MainWindow.cpp:894-952 | Over any series of file contents, the rows of a polled table, time aside, and the lines it has seen are those of the polls taken together |
| TraceWindow.WatchGrowing | gui/src/MainWindow.cpp:894-952 | A table polled while a file grows by whole lines and one polled once in the end have the same rows, time aside, and have seen the same lines |
| TraceWindow.CutValueAddsRow | gui/src/MainWindow.cpp:1044-1056 | For every printable row: cut anywhere inside the digits of its value, its line is readable, so polling it there and then complete adds two rows |
| TraceWindow.CutValueExample | gui/src/MainWindow.cpp:1044-1056 | Such lines exist: a read of 0x12 caught at 0x1 |
| Pattern.ScanIsSound | gui/src/MainWindow.cpp:1044-1048 | What the greedy scanner returns matches the expression item by item and is the whole text |
| Pattern.ScanIsComplete | gui/src/MainWindow.cpp:1044-1048 | On a deterministic expression the scanner finds every match, so matches are unique |
| QtText.ArgAt | gui/src/MainWindow.cpp:992-998 | Behind text without percent signs, filling replaces the lowest place marker and keeps the higher ones |
| QtText.ArgTwice | gui/src/MainWindow.cpp:992-998 | If a field brought in the same marker, both are replaced |
| QtText.TwoDigits | gui/src/MainWindow.cpp:992-998 | Two digits make one place marker |
| QtText.DigitAfterL | gui/src/MainWindow.cpp:992-998 | So does a digit behind an L |
| QemuTrace.PatternDeterministic | gui/src/MainWindow.cpp:1044-1045 | The expression of trace lines is deterministic |
| QemuTrace.ParseLineIsTheExpression | gui/src/MainWindow.cpp:1044-1056 | The parser accepts a line iff the trimmed line matches the expression, and captures the matched parts |
| QemuTrace.TraceLineIsRead | gui/src/MainWindow.cpp:1044-1067 | Every line of the form of the expression, with its characters written out, any white space allowed in it and any around it, is read as its row: the operation decides direction and type, whatever the arrow |
| QemuTrace.ReadLineIsTraceLine | gui/src/MainWindow.cpp:1044-1067 | Every line that is read has that form |
| QemuTrace.CanonicalMatches | gui/src/MainWindow.cpp:985-998 | Normalising white space and the arrow to the operation keeps a match |
| QemuTrace.CanonicalIsPrinted | gui/src/MainWindow.cpp:992-998 | The normalised parts are the line a row stands for |
| QemuTrace.SavedLineIsPrinted | gui/src/MainWindow.cpp:985-998 | If requester, completer and address have no percent sign, the saved line is the operation, requester, completer, address, arrow and value with their separators |
| QemuTrace.SavedLineSpelled | gui/src/MainWindow.cpp:985-998 | Written out: a row of type CfgWr or direction TX is saved as `pci_cfg_write` with `<-`, every other as `pci_cfg_read` with `->` |
| QemuTrace.PercentIsReplaced | gui/src/MainWindow.cpp:992-998 | A requester `%3` is saved as the completer |
| QemuTrace.PrintedRowReadsBack | gui/src/MainWindow.cpp:985-1068 | For every line the parser accepts, printing its row and parsing again gives the same row, also if the arrow did not fit the operation |
| QemuTrace.SavedReadsBackIff | gui/src/MainWindow.cpp:985-1068 | The saved line of any row is read as that row, time aside, iff the row has a device name, a bus address HH:HH.H, hexadecimal address and value, kind and direction of one operation, tag 0 and length 4 |
| QemuTrace.ReadsBackIff | gui/src/MainWindow.cpp:985-1068 | The same for the line without its line end and without replacement of percent signs |
| QemuTrace.NoColonNoRow | gui/src/MainWindow.cpp:1044-1050 | A line without a colon is not a trace line |
| LiveTrace.SplitUnlines | gui/src/MainWindow.cpp:905 | A file of whole lines is split into those lines |
| LiveTrace.FreshIsExact | gui/src/MainWindow.cpp:908-920 | A poll adds exactly the non-empty trimmed lines that can be read and were not seen, each once |
| LiveTrace.FreshInOrder | gui/src/MainWindow.cpp:909-920 | It adds them in the order of their first occurrence |
| LiveTrace.FreshSplits | gui/src/MainWindow.cpp:909-920 | Reading more lines is reading them with the first ones seen |
| LiveTrace.FreshTwice | gui/src/MainWindow.cpp:911-913 | A repeated poll adds nothing |
| LiveTrace.FreshWithMoreSeen | gui/src/MainWindow.cpp:909-920 | With one more line seen, a poll adds the same lines but that one |
| LiveTrace.PollsEqualOnePoll | gui/src/MainWindow.cpp:905-934 | Over any series of polls of a file that grows by whole lines, the lines added are those of one poll of the last content |
| LiveTrace.HalfLineIsHarmlessIff | gui/src/MainWindow.cpp:905-934 | For every file caught in its last line: polling it there and later adds what polling it later alone adds iff the half line is blank, unreadable, already added, or the next line to be added anyway |
| LiveTrace.PartialLineAddsRow | gui/src/MainWindow.cpp:909-920 | A readable line that is polled before it is complete adds a row which one poll of the last content does not |
| Pshark.PrintSummary | examples/pshark.c:58-107 | The loop over lines of at most 4095 characters, each read up to its first NUL, counts as specified |
| Pshark.ChunkIs | examples/pshark.c:70 | A chunk ends behind the first line end, or after 4095 characters, or with the file |
| Pshark.CountedIff | examples/pshark.c:72-89 | A line is counted, once, iff it has three stretches without a comma before its first NUL; else nothing changes |
| Pshark.StrtokJoined | examples/pshark.c:72-80 | The next token of a joined line is its next field, if that is not empty |
| Pshark.NamesOfJoined | examples/pshark.c:72-74 | On lines whose first three fields are not empty, the second and third field are found |
| Pshark.SummarizeRecords | examples/pshark.c:70-107 | On the lines of any export, reading the text and counting it is counting the records by what they show |
| Pshark.TallyCounts | examples/pshark.c:89-106 | Every direction counter ends higher by the number of records with that direction, every type counter by the number that show that type |
| Pshark.SummaryOfExport | examples/pshark.c:70-118 | On every exported trace the direction counters are exact, the total is n+1, and a record that is neither TX nor RX is counted under its requester instead of its type |
| Pshark.SummaryOfDirected | examples/pshark.c:70-118 | On every exported trace of TX and RX records each counter is the number of such records, and the total is n+1 |
| Pshark.ReadersAgree | examples/pshark.c:72-74 | On the line of a TX or RX record `strtok` and the quote-aware splitter name the same direction and type |
| Pshark.NamesOfGap | examples/pshark.c:72-74 | An empty second field is closed up, and the third and fourth are taken |
| Pshark.ReadersPart | examples/pshark.c:72-74 | On every record of another direction the two readers differ: the type stands for the direction |
| CNumbers.StrtoulOfNumeral | src/backend_dummy.c:18-38 | A decimal numeral of 64 bits is read back, with the base given or announced by the prefix, also if a unit follows |
| CNumbers.StrtoulOfHex | src/backend_dummy.c:18 | With base 0, `0x` announces a hexadecimal number |
| CNumbers.StrtoulOfOctal | src/backend_dummy.c:18 | With base 0, a zero announces an octal number |
| CNumbers.StrtoulOfPadded | src/backend_dummy.c:31 | With base 10 it does not |
| CNumbers.StrtoulOfNegative | src/backend_dummy.c:31 | A negative number counts down from 2^64 |
| CNumbers.StrtoulOfHuge | src/backend_dummy.c:31 | A number of more than 64 bits is read as 2^64 - 1 |
| Scenario.TrimWhitespace | src/backend_dummy.c:47-71 | Trims the C string in its buffer, in place, at both ends |
| Scenario.MoveToFront | src/backend_dummy.c:62-64 | The overlapping move leaves the string and its end at the front of the buffer, and the rest as it was |
| Scenario.ApplyScenario | src/backend_dummy.c:144-208 | The token loop with its late profile lookup computes the specified configuration, for every text |
| ScenarioSpec.NamedLinkIsScanned | src/backend_dummy.c:103-116 | Each profile with a branch of its own is one the general form reads from the same name |
| ScenarioSpec.ProfileRoundTrip | src/backend_dummy.c:88-130 | Every `genSxW` with S in 1..8 and W in 1..16 is read as S and W |
| ScenarioSpec.ProfileIff | src/backend_dummy.c:113-129 | `genSxW` is a profile iff S is in 1..8 and W in 1..16, for all 32-bit numbers |
| ScenarioSpec.PairIff | src/backend_dummy.c:115-129 | So is `SxW` |
| ScenarioSpec.CaseIsIgnored | src/backend_dummy.c:102 | The letters of a profile name count in either case |
| ScenarioSpec.TrailingTextIsIgnored | src/backend_dummy.c:113-115 | What follows the second number is ignored |
| ScenarioSpec.BadProfileIsIgnored | src/backend_dummy.c:191-207 | A profile out of range changes nothing |
| ScenarioSpec.LongTextsAreCut | src/backend_dummy.c:81-157 | Only the first 255 characters of a scenario count, and the first 31 of a profile name |
| ScenarioSpec.OtherKeysAreIgnored | src/backend_dummy.c:173-185 | A token with any other key than the eleven changes nothing |
| ScenarioSpec.ParseU32RoundTrip | src/backend_dummy.c:9-20 | A printed 32-bit number is read back |
| ScenarioSpec.ParseDurationRoundTrip | src/backend_dummy.c:22-45 | A printed 64-bit number of nanoseconds is read back |
| ScenarioSpec.DurationsAreRead | src/backend_dummy.c:22-45 | A time with the unit n, u, m or s, in either case and with anything behind it, is its number of nanoseconds modulo 2^64; any other unit keeps the old value |
| ScenarioSpec.NumbersAreRead | src/backend_dummy.c:9-20 | A number is read modulo 2^32, and only if nothing follows it |
| ScenarioSpec.LeadingZerosAreRead | src/backend_dummy.c:18-31 | A zero in front makes a number octal, but not a time |
| ScenarioSpec.SetTokenAssigns | src/backend_dummy.c:160-188 | A printed setting assigns its own value and no other |
| ScenarioSpec.KeyedIsSet | src/backend_dummy.c:160-171 | A key and a value with white space around each are read without it |
| ScenarioSpec.ResolveCommutes | src/backend_dummy.c:191-207 | Looking profiles up after the loop gives what looking each up at once would give |
| ScenarioSpec.TokensOfJoin | src/backend_dummy.c:159 | The tokens of a joined text are its pieces |
| ScenarioSpec.TokensOfSeparated | src/backend_dummy.c:159 | Texts without separators, with one or more between them and any number at the ends, are the tokens |
| ScenarioSpec.ScenarioRoundTrip | src/backend_dummy.c:144-208 | Every printed list of settings that fits the buffer, in any order and with repeats, is read as those settings one after another |
| ScenarioSpec.EverySpellingIsRead | src/backend_dummy.c:144-208 | Every text of tokens that fits the buffer is read as its tokens mean: each setting under either key, white space around names and values, commas or semicolons between tokens, blank tokens, and a profile name alone counting only if no profile was found before |
| ScenarioSpec.SpellingApplies | src/backend_dummy.c:159-189 | The same for one token after any others |
| ScenarioSpec.OrderDoesNotMatter | src/backend_dummy.c:173-185 | Settings with distinct keys give the same configuration in every order |
| ScenarioSpec.PermutedScenario | src/backend_dummy.c:144-208 | Permuting the tokens of a printed scenario with distinct keys does not change what is read |
| ScenarioSpec.GuiRoundTrip | gui/src/MainWindow.cpp:1285-1291 | For all values in the ranges of the dialog the printed text fits the buffer and is read back to exactly those values |

## Left out

- CompletionRing.Ring.Enqueue: requires a length of at most 256, the size of a slot, which the source leaves to its callers.
- Throttle.Pacer.Apply: does not model wrap-around of the 64-bit nanosecond clock, centuries away, nor a sleep cut short by a signal.
- PcieContext.Context.Sniff: requires fewer than eight sniffers, which the source leaves to its callers.
- PcieContext.Context.Loop: callbacks are recorded as calls; a callback that changes the packet or the sniffers is not modelled. The counters are unbounded.
- FpgaDriver.Driver.Write: does not model a failing copy from user space, nor signed register values in the log text. A write and the firing of a work are each one step; the source takes no lock, so that they could interleave inside.
- FpgaWords.Send: models the send and receive windows as words of their own; the overlap of the default register offsets is not modelled. Shifting a length of 0x8000 or more, which the C standard leaves undefined for signed operands, is taken modulo 2^32.
- PciConfig.FindPcieCapability: the low two bits of a pointer, which section 6.7 of the PCI Local Bus Specification 3.0 asks to mask, are not masked, as in the code.
- Scenario.ApplyScenario: works on text values; trimming is modelled on the array as well (`Scenario.TrimWhitespace`), the sharing of one buffer by all tokens is not.
- ScenarioSpec.GuiRoundTrip: the drop rate is kept as its text; its conversion to floating point is not modelled. It is parsed but used by no operation, like jitter and burst.
- QtText.ArgAt: place markers are made of the ten ASCII digits; those of other scripts, which Qt accepts as well, are not modelled.
- ScenarioSpec.EverySpellingIsRead: numbers are spelled as decimal numerals, times with `ns`; hexadecimal and octal numbers and other units have theorems of their own.
- TraceWindow.Table.LoadCsv: characters are taken one by one; Unicode white space, letter case beyond ASCII, decoding errors, and line-end translation are not modelled.
- Opening and closing of files, sockets, sysfs and devices, environment variables, and log and console output: replaced by parameters, or left out.
- The defaults taken from environment variables before a scenario is read, and the configured latency of a send or receive.
- The ARM bridge backend and its server: raw structures over a socket; the framing idea is covered by the Xgig stream.
- The second draft of the driver in `fpga_driver.c`: it uses registers that are never declared.
- `rx_addr_min` and `rx_addr_max`: initialised and never updated.
- Lookup tables of names, packet constructors, link checks, statistics readouts, topology and all widgets: one reading of each settles them.
- The listing mode of the summary tool: it prints the tokens that the summary counts.
