# A model of the non-blocking 1-Wire stack

The repository drives a 1-Wire bus from one STM32 timer and its DMA channels, without ever blocking:
every protocol is a state machine that arms one hardware operation and looks, at a later poll, whether
it has completed. This project models those machines, the devices they talk to, and the decoder of the
browser viewer, and proves what they promise over whole runs.

| module | models |
|---|---|
| `Bits`, `Gf2Crc`, `CrcLoops` | bytes as bits; CRC-8 and CRC-16 as polynomial remainders, and the loops that compute them |
| `PulseCodec` | bits as pulse widths: the encoders and decoders of all drivers |
| `SlotTimer`, `SlotPort`, `PlanWait` | the one-pulse timer tick by tick, the register writes that arm it, the plan of a wait |
| `SearchTree`, `SearchEngine`, `SearchProof` | the tree of addresses, the Search ROM engine, the engine on a wired-AND bus |
| `Ds2431`, `Ds2431Driver`, `Ds2431Device`, `Ds2431Proof`, `Ds2431Limits` | the EEPROM driver (calls and polls), the driver object, the device, both together, and where the promises end |
| `Ds18b20`, `Ds18b20Driver`, `Ds18b20Proof`, `Ds18b20Runs`, `Ds18b20Power`, `Ds18b20Search` | the thermometer driver, the driver object, and its four machines sharing one timer over whole runs |
| `Ds18b20Device`, `Ds18b20World`, `Ds18b20Commands` | any number of thermometers as their data sheet describes them; what measurements report, and what commands and resolution changes do and return, over whole runs of driver and devices |
| `Recorder`, `RecorderApp`, `RecorderProof`, `RecorderWire`, `RecorderRounds`, `RecorderLimits` | the peak/low recorder, its globals as an object, its EEPROM over power cuts, the same with an EEPROM that knows only the calls made, what a round leaves behind, and where the promises end |
| `Huffman`, `HuffmanBuild`, `InflateSpec`, `InflateTables`, `InflateProof`, `Inflate` | canonical Huffman codes, RFC 1951 as an encoder and a decoder, its tables as rules, and the viewer's loops |
| `SlotDecoder`, `SlotRoundTrip` | the viewer's slot decoder and the waveform generator of its demo |

Every stateful component appears twice: as a class (or a method with loops) in the form of the source,
and as a function of its state. The class methods are proved equal to the functions, and the theorems
about runs are proved about the functions.

## How the environment is modelled

* A completed operation supplies arbitrary captures, except where a theorem says `Honest`: then the
  search sees the wired AND of the devices that still take part, and DS2431 commands and replies travel
  faithfully, except Write Scratchpad, which may be damaged in any way on its way to the device.
  `SearchReports` speaks of an honest bus, `DeviceTable`, `SinkStops` and `AnyBusBounded` of any bus.
* The thermometers of `Ds18b20World` hear every written table whole and answer reads by a wired AND; what
  resets capture stays arbitrary there. Command codes, registers and conversion times stand in
  `Ds18b20Device` as the numbers of the DS18B20 data sheet, those of the EEPROM in `Ds2431Device` likewise;
  neither uses the drivers' constants. A conversion ends in a wait at least as long as its resolution takes.
  A world whose driver is parked meets the invariant of the runs (`Ds18b20World.RestingOk`).
* A reset of the DS2431 or thermometer model is answered when two edges were captured in their windows, given
  as microseconds; a DS2431 asked for its copy status before 10 ms have passed does not answer.
* `RecorderWire` runs the recorder with an EEPROM that sees nothing but the calls made: a copy programs the
  block and bytes of the last write call, a memory read returns the block it names.
* `Ds18b20Proof.Step` interleaves completions, polls, all public calls and callbacks in any order. A
  `ds18b20_complete` callback may call `ds18b20_select` and `ds18b20_start_measure` any number of times.
  The answer of `onewire_search_active` is the parameter `searching` of the driver's methods.
* The update flag records which operation raised it. Requesting a cycle and engaging the pull-up raise it
  without an operation, as in the source (src/ow_port.h:561-564 and 1033-1039).
* The recorder's EEPROM programs a block at once or not at all; a read that reports success returns what
  is stored; a power cut is a session start at any point.
* Time, the UART, the LED and statistics are not part of the model.

## Where the code does not do what is said of it

* `ds18b20_poll` is said to start nothing by itself (src/ds18b20_measure.c:174-187). On a parasite bus
  engaging the pull-up at the end of a scan round raises the flag, and the next poll starts another round,
  unless the round ended without presence and its callback made a call: `Ds18b20Power.ParkedScanRestarts`. `SelfStart` gives the exact condition, and `ParkedStaysParked` the
  promise for external power.
* `ds18b20_scan_start` refuses an empty device table, but a search started behind it can empty the table
  again; the round then reads back entry 0: `Ds18b20Runs.EmptiedTable` and `RoundCoversTable`.
* A resolution change arms its reset with the pull-up as it finds it, so engaged on a parked parasite bus:
  `Ds18b20Power.ResolutionKeepsPullUp`.
* Calls made while an operation runs are to be ignored, but the read and copy requests latch their fields
  before the start is tried: `Ds2431Limits.RejectedCallsIff` says when a rejected call changes nothing. A
  rejected verify call makes a waiting write lose its payload (`BusyReadTruncatesWrite`), a running one end
  in a read (`BusyReadProlongsWrite`), and a memory read hand out as many bytes as were latched last, so
  13 into a buffer of 8 (`MemoryReadHandsOutIff`).
* The verify read does not look at E/S bits 3, 4, 6 and 7, so that an OK verify can be followed by a refused
  copy: `Ds2431Proof.VerifiedCopyAuthorized` says when, and `Ds2431Limits.RefusedAfterVerify` shows it
  happen behind any successful cycle.
* The stored peak can fall, and the low rise: after a job that fails behind its copy, and after a boot that
  could not read a record but can write (`RecorderLimits.FailedJobCanWorsen`, `UnreadBootCanWorsen`).
  `RoundCanWorsenIff` says exactly in which states the next round can do it.
* A power cut between a slot's two copies leaves the old record beside the ROM of another sensor
  (`RecorderLimits.CutBetweenCopies`); `RomBesideRecordIff` says when the two belong together.
* `detectSpeed` is said to fall back to standard speed for captures without a reset
  (tools/1wire_vis/owvis.js:340-345). It takes the 60 us low of a written 0 for an overdrive reset, so
  automatic decoding gives items at standard speed back exactly when they contain a reset or no 0:
  `SlotRoundTrip.AutoRoundTripIff`. `AutoOverdriveIff` is the exact condition at overdrive speed.
* A record holds temperatures from -128.9 to 127.9 degrees and no others: `Recorder.RecordRoundTrip`.

## Model

| member | source | states |
|---|---|---|
| Gf2Crc.CrcIsRemainder | src/onewire.c:294-325 | for every message, message and CRC together are a multiple of the generator polynomial: the CRC is the remainder of m * x^k |
| Gf2Crc.RemainderUnique | src/onewire.c:294-325 | no other check bits complete the message to a multiple of the generator |
| Gf2Crc.CrcLinear | src/onewire.c:294-325 | the CRC of the bitwise difference of two equally long messages is the difference of their CRCs |
| Gf2Crc.CheckAcceptsOnlyCrc | src/onewire.c:294-325 | the register ends at zero over message and check bits if and only if the check bits are the CRC |
| Gf2Crc.BurstDetected | src/onewire.c:294-325 | an error burst confined to k consecutive bits (8 for CRC-8, 16 for CRC-16) of a message of any length changes the CRC |
| Gf2Crc.GeneratorTerms | src/onewire.c:294-325 | the generators are x^8+x^5+x^4+1 and x^16+x^15+x^2+1, power by power |
| Bits.ByteBitsAt | src/onewire.c:278-292 | a byte travels least significant bit first: bit k of the transmission is bit k of the number |
| CrcLoops.OnewireCrc8 | src/onewire.c:294-308 | the bit loop computes the CRC-8 register of x^8+x^5+x^4+1 over the first len bytes |
| CrcLoops.OnewireCrc16 | src/onewire.c:310-325 | the same of x^16+x^15+x^2+1 |
| CrcLoops.ViewerCrc8 | tools/1wire_vis/owvis.js:19-29 | the viewer's byte-xor form computes the same CRC-8 on every input |
| CrcLoops.XorFirstCrc | tools/1wire_vis/owvis.js:31-38 | the byte-xor loop computes the CRC of any reflected generator of at least 8 bits; the viewer's CRC-16 is an instance |
| CrcLoops.AppendedCrc8 | src/onewire.c:294-308 | one appended byte makes the CRC-8 zero if and only if it is the CRC of the bytes before it |
| CrcLoops.AppendedCrc16 | src/onewire.c:310-325 | two appended bytes, low byte first, make the CRC-16 zero if and only if they are the CRC |
| PulseCodec.EncodeByte | src/onewire.c:288-292 | eight table entries from the cursor on are the pulses of the byte's bits, everything else is unchanged |
| PulseCodec.EncodeBytes | src/ow_glue.h:84-90 | the cursor encoder appends exactly the encoded bytes and advances by eight entries a byte |
| PulseCodec.DecodePulses | src/onewire.c:278-286 | decoding into a separate buffer gives the bytes whose bits are the pulses' bits |
| PulseCodec.DecodeInPlace | src/ds18b20.c:109-113 | the same loop on one buffer, output byte i over pulse i, gives the same bytes as a separate buffer would receive |
| PulseCodec.DecodeEncodedIff | inc/ow_config.h:94-123 | for any configured pulse widths and threshold: decoding the encoding of every byte sequence returns it if and only if the 1 width is at most the threshold and the 0 width above it |
| PulseCodec.DecodeEncoded | src/onewire.c:278-292 | with the default widths decoding the encoding of any byte sequence returns it |
| PulseCodec.DecodeFaithful | inc/onewire.h:281-283 | so does decoding any capture whose pulses read as the transmitted bits |
| SearchTree.FirstWalk | src/onewire.c:343-384 | the first walk ends at the smallest address of the bus |
| SearchTree.NextWalk | src/onewire.c:343-384 | with the last-discrepancy rule each further walk ends at the lexicographic successor of the previous leaf |
| SearchTree.LastWalk | src/onewire.c:500-503 | no 0 taken at a conflict means that the leaf is the largest address |
| SearchTree.EnumerationComplete | src/onewire.c:500-503 | an enumeration that ends at such a leaf contains every device |
| SearchEngine.Engine.Start | src/onewire.c:386-408 | the fields and the armed reset after a start, for a running engine nothing |
| SearchEngine.Engine.AdvanceBit | src/onewire.c:343-384 | byte and mask arithmetic set exactly address bit id_bit_number, to the direction the rule chooses, and arm the merged pass or the last write |
| SearchEngine.Engine.Poll | src/onewire.c:410-530 | one poll in every phase: new fields, returned flag, armed operation, reported ROM |
| SearchEngine.Engine.JudgeLeaf | src/onewire.c:477-515 | stop or go on, report and count after a leaf: CRC, family, sink, max, last discrepancy, equal-leaf guard; what acceptance means on the ROM bits is SearchEnumerates |
| SearchProof.SearchEnumerates | src/onewire.c:343-530 | on any honest wired-AND bus, asked by a device or an alarm search, every run reports the smallest wanted devices (zero CRC-8 remainder, and family 0 or a ROM that starts with the bits of the family), each once, in lexicographic order, at most max; a finished search that neither the sink nor max cut short has reported exactly the wanted devices below the first device with a bad CRC |
| SearchProof.SinkStops | src/onewire.c:490-493 | on any bus: the poll whose sink asks to stop reports one ROM, ends the search, and that ROM stays the last one reported |
| SearchProof.GuardNeverFires | src/onewire.c:504-515 | on an honest bus the equal-leaf guard never ends a search |
| SearchProof.PollReturns | src/onewire.c:410-530 | for every state and capture, a poll returns true exactly when it leaves the search finished |
| SearchProof.SearchFinishes | src/onewire.c:410-530 | a search needs at most 67 completed operations per answering device and one more poll |
| SearchProof.AnyBusBounded | src/onewire.c:343-530 | family 0, any captures however inconsistent: at most 67 * max operations, at most max reports, finished after more than 67 * max completed polls, the ROM index always in range |
| Ds2431.DataLen | src/ds2431_txn.c:120-127 | a scratchpad reply never announces more than 8 data bytes |
| Ds2431Driver.ScratchpadDataLen | src/ds2431_txn.c:120-127 | the reply length, 0 for an inverted window |
| Ds2431Driver.ScratchpadCrcOk | src/ds2431_txn.c:139-150 | true if and only if the two bytes behind the data are the inverted CRC-16 of command, header and data |
| Ds2431Driver.Driver.StartOperation | src/ds2431_txn.c:93-107 | a start on a parked driver arms the reset with the pull-up released, any other start changes nothing |
| Ds2431Driver.Driver.Select | src/ds2431.c:85-104 | selection only on a parked driver; it drops a pending write |
| Ds2431Driver.Driver.ReadMemory | src/ds2431.c:120-133 | the request fields after the call, accepted or not |
| Ds2431Driver.Driver.WriteScratchpad | src/ds2431.c:161-188 | accepted exactly for an aligned window inside the memory on a parked driver; then address, expected end offset and payload are latched, otherwise nothing |
| Ds2431Driver.Driver.ReadScratchpad | src/ds2431.c:205-213 | the verify request, with the echo check armed |
| Ds2431Driver.Driver.CopyScratchpad | src/ds2431.c:244-251 | only for a pending write, with the expected end offset as authorisation |
| Ds2431Driver.Driver.Build | src/ds2431_txn.c:48-81 | the shared buffer starts with the encoded prefix, command, address and payload or authorisation, then the release entry |
| Ds2431Driver.Driver.Poll | src/ds2431_txn.c:157-310 | one poll in every phase: context, buffers, armed operation, pull-up, result flags |
| Ds2431Driver.Driver.ReadScratchpadPoll | src/ds2431.c:219-233 | on success the caller's frame is the valid window, zero filled |
| Ds2431Device.ReplyIsWellFormed | src/ds2431_txn.c:120-150 | for every device state the length the driver computes is the device's window, and the CRC it checks covers exactly what was sent |
| Ds2431Device.CorruptReplyRejected | src/ds2431_txn.c:139-150 | a burst of up to 16 bit errors in the data or CRC bytes of a reply with its header intact is rejected |
| Ds2431Proof.WriteLeavesMemory | src/ds2431.c:161-194 | a scratchpad write, however damaged on the way, never changes the EEPROM |
| Ds2431Proof.VerifyReportsTruth | src/ds2431_txn.c:226-288 | over a faithful reply path the verify read reports OK if and only if a device is present and addressed and its TA, E/S (end offset, partial flag) and scratchpad hold what was sent; it changes nothing |
| Ds2431Proof.CopyReportsTruth | src/ds2431_txn.c:200-298 | the copy reports OK if and only if the addressed device accepted the authorisation; then the block is programmed, otherwise nothing changes |
| Ds2431Proof.VerifiedCopyAuthorized | src/ds2431_txn.c:251-288 | after an OK verify the copy is accepted if and only if the unchecked E/S bits are clear and the block is not protected |
| Ds2431Proof.StorageIntegrity | src/ds2431.c:161-257 | write (damaged or not), verify and copy in sequence: OK verify means the registers and scratchpad equal what was sent, OK copy leaves exactly the 8-byte block equal to the payload and every other byte unchanged, a copy that is not OK changes nothing |
| Ds2431Proof.MemoryReadReturns | src/ds2431.c:120-149 | a memory read of any window inside the EEPROM, run to its end on a parked driver: it is OK if and only if a device is present, hands out exactly the bytes of the window in their order (ones when no device is addressed), and changes nothing in the device |
| Ds2431Proof.SelectedReadReturns | src/ds2431.c:85-149 | select, then read: with a ROM code selected the device that has it hands out its bytes, any other device none; with none selected any device does |
| Ds2431Proof.ScratchpadReadReturns | src/ds2431.c:205-233 | a scratchpad read of an addressed device: when it is OK it hands out the address and E/S registers and the window they describe, zero filled; without a pending write it is OK if and only if the device is present and has such a window |
| Ds2431Proof.FaithfulRegisters | src/ds2431.c:161-188 | a faithful write verifies, and authorises its copy, if and only if it is 8 bytes long |
| Ds2431Proof.FaithfulCycle | src/ds2431.c:161-257 | a fully faithful run on a present, addressed, unprotected device reports OK at the write, and at verify and copy exactly for 8-byte blocks |
| Ds2431Proof.ArmedTable | src/ds2431_txn.c:180-198 | when the command write is armed the union that held the reset capture holds the encoded command and the release entry |
| Ds2431Proof.FedTableStable | src/ds2431_txn.c:157-198 | until the write completes no sequence of calls and polls touches that table or the armed operation |
| Ds2431Proof.PullUpDiscipline | src/ds2431_txn.c:93-107 | with the power mode fixed, over every run of calls and polls resets and reads are armed with the line released, and programming on a parasite bus with the pull-up engaged |
| Ds2431Limits.RejectedCallsIff | src/ds2431.c:120-251 | for every state that cannot start an operation: a verify, copy or memory read call changes nothing if and only if its request fields are latched already; a write and a selection change nothing |
| Ds2431Limits.BusyReadTruncatesWrite | src/ds2431.c:205-213 | a verify call made while a write waits for its reset shortens the write by its payload |
| Ds2431Limits.BusyReadProlongsWrite | src/ds2431_txn.c:200-224 | made while the write is on the wire, it makes the write go on with a read of 13 bytes instead of ending |
| Ds2431Limits.MemoryReadHandsOutIff | src/ds2431.c:120-149 | over any calls and polls during a memory read, the caller's buffer receives as many bytes as the last latching call asked for: the requested number if and only if that equals it |
| Ds2431Limits.RefusedAfterVerify | src/ds2431_txn.c:251-288 | from any parked driver with an addressed, unprotected device: an OK cycle leaves E/S at 0x87, and when the same block is written again and that write is lost, the verify is OK and the copy refused |
| Ds2431Driver.Driver.ReadMemoryPoll | src/ds2431.c:139-149 | on success the caller receives the first len bytes of the reply in their order; which bytes of the EEPROM these are is MemoryReadReturns |
| Ds18b20Driver.Driver.constructor | src/ds18b20.c:286-299 | the state after init: parked, 12 bit, external power, nothing running |
| Ds18b20Driver.Driver.Select | src/ds18b20.c:321-355 | addressing changes only when nobody owns the bus, and leaves scan mode |
| Ds18b20Driver.Driver.StartMeasure | src/ds18b20_measure.c:59-69 | a cycle is requested, and the flag kicked, only when nobody owns the bus |
| Ds18b20Driver.Driver.ScanStart | src/ds18b20_measure.c:75-88 | scan mode is armed only when nobody owns the bus and the table is not empty |
| Ds18b20Driver.Driver.IssueCommand | src/ds18b20_measure.c:122-147 | no presence: IDLE, one NO_SENSOR, callback, parked; otherwise the full table is rebuilt and its write armed |
| Ds18b20Driver.Driver.FinishScanOrNext | src/ds18b20_measure.c:24-49 | the next device behind a gap, or parked |
| Ds18b20Driver.Driver.Poll | src/ds18b20_measure.c:154-351 | one poll in every state: context, buffers, armed operation, pull-up and report, for every behaviour of the callback; what a cycle reports of the devices is ReportsTruth |
| Ds18b20Driver.Driver.JudgeScratchpad | src/ds18b20_measure.c:288-339 | the verdict on a scratchpad: absent, corrupt, or a temperature; what it means for the bytes is ScratchpadReported |
| Ds18b20Driver.Driver.BuildMeasure | src/ds18b20.c:255-260 | Skip or Match ROM prefix, command and release entry in the shared table |
| Ds18b20Driver.Driver.BuildResolution | src/ds18b20_resolution.c:42-66 | the configuration write in the shared table |
| Ds18b20Driver.Driver.SetResolution | src/ds18b20_resolution.c:77-99 | accepted for 9 to 12 bit when nobody owns the bus |
| Ds18b20Driver.Driver.ResolutionPoll | src/ds18b20_resolution.c:108-159 | one poll; the tracked resolution changes only when the write has completed |
| Ds18b20Driver.Driver.BuildCommand | src/ds18b20_txn.c:53-78 | prefix (none for Read ROM), command and payload in the shared table |
| Ds18b20Driver.Driver.TxnStart | src/ds18b20_txn.c:209-229 | accepted when nobody owns the bus and no scan is armed; the request is latched and the reset armed with the pull-up released |
| Ds18b20Driver.Driver.TxnPoll | src/ds18b20_txn.c:104-193 | one poll in every phase |
| Ds18b20Driver.Driver.ReadRomPoll | src/ds18b20_txn.c:247-255 | one poll; the eight ROM bytes are handed out on success |
| Ds18b20Driver.Driver.ReadScratchpadPoll | src/ds18b20_txn.c:296-308 | the scratchpad is handed out on success, and a CRC-valid one sets the tracked resolution |
| Ds18b20Driver.Driver.DetectParasitePoll | src/ds18b20_txn.c:407-420 | the power mode follows bit 0 of a successful answer |
| Ds18b20Driver.Driver.Store | src/ds18b20_search.c:31-39 | the ROM is appended while the table has room |
| Ds18b20Driver.Driver.SearchGuard | src/ds18b20_search.c:59-99 | a search may start only when nobody owns the bus; a device search empties the table, an alarm search does not |
| Ds18b20.TenthsNearest | src/ds18b20.c:119-127 | the reported tenths are the nearest to the raw value, ties away from zero, for every 16-bit raw value |
| Ds18b20.ConfigRoundTrip | src/ds18b20_internal.h:183-185 | the configuration byte of each resolution reads back as that resolution |
| Ds18b20World.WaitSuffices | src/ds18b20.c:137-159 | the wait of the tracked resolution is as long as the data sheet's conversion time for exactly the devices with no higher resolution |
| Ds18b20Proof.InitialOk | src/ds18b20.c:286-299 | the state after init, whatever the buffers hold, satisfies the invariant |
| Ds18b20Proof.StepPreserves | src/ds18b20_measure.c:154-351 | every completion, poll, call and callback keeps the invariant of ownership, flag, armed operation and table |
| Ds18b20Runs.OneOwner | src/ds18b20_txn.c:32-42 | in every run at most one of measurement, search, resolution change and transaction is running; armed operation and raised flag are its own; a machine that waits has its operation under way or the flag up |
| Ds18b20Runs.FlagIsItsOwners | src/ds18b20_measure.c:154-169 | in every run a flag raised by an operation is looked at only by the machine that armed it, and stays up until that machine polls |
| Ds18b20Runs.FedTableStable | src/ds18b20.c:186-260 | in every run the shared table being fed is the encoding of prefix, command and payload and the release entry, and nothing but the completion changes table or timer |
| Ds18b20Runs.EveryCycleComplete | src/ds18b20_measure.c:24-49 | in every run a cycle that ends has reported: single cycle once; scan round entries 0, 1, 2, ... in order, each addressed by its own ROM, the whole table unless a reset without presence ended it with one NO_SENSOR; the index stays in the table |
| Ds18b20Runs.RoundCoversTable | src/ds18b20_measure.c:75-88 | a round whose resets all saw presence reports dev_count devices if and only if the table is not empty |
| Ds18b20Runs.EmptiedTable | src/ds18b20_search.c:59-75 | a scan round over an empty table can be reached from every parked state with a non-empty one |
| Ds18b20Power.PullUpDiscipline | src/ds18b20_measure.c:189-265 | power mode fixed at rest, in every run: measurement and transaction resets and reads with the line released, conversion waits and EEPROM hold-offs on a parasite bus with the pull-up engaged, every transaction ends released |
| Ds18b20Power.ParkedStaysParked | src/ds18b20_measure.c:174-187 | with external power a poll of a parked driver changes nothing, in every run: cycles start only on request |
| Ds18b20Power.SelfStart | src/ds18b20_measure.c:174-187 | a poll at IDLE starts a cycle if and only if scan mode is armed, the flag is up and nobody else runs |
| Ds18b20Power.ParkedScanRestarts | src/ds18b20_measure.c:42-48 | on a parasite bus a scan round that ends is followed by another at the next poll, unasked, if and only if it ended behind its last scratchpad, or without presence and with a callback that made no call |
| Ds18b20Power.ResolutionKeepsPullUp | src/ds18b20_resolution.c:93-98 | a resolution change arms its reset with the pull-up as it was |
| Ds18b20Power.ConversionNeverShort | src/ds18b20_measure.c:220-231 | in every run the tracked resolution is 9 to 12, and the wait after Convert T is planned as exactly its conversion time |
| Ds18b20World.ScratchpadReported | src/ds18b20_measure.c:288-339 | the poll that judges any captured scratchpad s: all ones from an addressed device report NO_SENSOR; otherwise a valid CRC with s[5] = 0xFF and s[7] = 0x10 reports the tenths nearest to the signed word s[0] + 256 s[1], ties away from zero, and tracks the resolution of s[4]; anything else reports CRC_FAIL |
| Ds18b20World.ReportsTruth | src/ds18b20_measure.c:154-351 | in every run over any number of DS18B20s and any calls in between, a judged scratchpad makes one report: when one device alone is addressed, its reading to the nearest tenth, its resolution is tracked, and the reading is what this cycle's conversion measured if the wait was as long as its resolution takes, otherwise the conversion is still under way; when nobody has the address, NO_SENSOR |
| Ds18b20World.SelectedIsMeasured | src/ds18b20_measure.c:59-69 | select a ROM code or none, start, and let the cycle run to its report whatever else is called and polled: the report carries that code, and is the reading of the device that has it, or of the only device on the bus, to the nearest tenth, or NO_SENSOR when nobody has it |
| Ds18b20World.OthersLeave | src/ds18b20_txn.c:32-42 | while a measurement, a resolution change or a command is running, no call and no other machine's poll changes driver, engine or reports, but for the tracked resolution and the power mode |
| Ds18b20Commands.CommandDoes | src/ds18b20_txn.c:104-420 | for each of the six commands, in every run over any number of DS18B20s from its accepted start to the poll that ends it: it succeeds if and only if its reset was answered; then every addressed device has changed as the command is for (thresholds and tracked configuration set, scratchpad saved, EEPROM recalled, or nothing), no other has, and what is captured is the wired AND of the answers; a failed command changes no device |
| Ds18b20Commands.RomReportsTruth | src/ds18b20_txn.c:239-255 | Read ROM with one device on the bus returns its ROM code |
| Ds18b20Commands.ScratchpadReportsTruth | src/ds18b20_txn.c:286-308 | Read Scratchpad with one device addressed returns its nine scratchpad bytes, and when the caller wants them its resolution is the tracked one, otherwise that stays |
| Ds18b20Commands.DetectReportsTruth | src/ds18b20_txn.c:400-420 | the power mode detected is parasite if and only if one of the devices asked has no external power; without an answered reset it stays |
| Ds18b20Commands.ResolutionDoes | src/ds18b20_resolution.c:77-159 | in every such run an accepted resolution change whose reset was answered leaves every addressed device at the new resolution with both thresholds 0 and that resolution tracked; otherwise no device changes and the tracked resolution stays |
| Ds18b20Search.SearchReports | src/ds18b20_search.c:59-99 | from an accepted device or alarm search on, over any calls, polls and completions up to the next search, on an honest bus: the engine's count is the number of ROMs it reported, at most max, and they are the DS18B20s among the devices (among those in alarm), ascending, without gap or repeat; one that ended by itself below max has reported exactly those below the first bad CRC |
| Ds18b20Search.DeviceTable | src/ds18b20_search.c:31-99 | in the same runs, on any bus, the table holds the first min(found, 8) ROMs a device search has reported; an alarm search leaves it untouched |
| PlanWait.Plan | src/ow_port.h:783-801 | for 1 to 256 * 65535 us: n periods of length arr cover the request by less than n us, n is minimal, then arr is minimal, both fit their registers; 0 is one tick, more is cut to the reach |
| PlanWait.PlanUnique | src/ow_port.h:765-780 | the stated rule leaves one plan |
| PlanWait.ConversionWaitExact | src/ds18b20.c:137-159 | every conversion time is planned without rounding |
| SlotTimer.Train | src/ow_port.h:701-759 | an armed train of slots drives exactly its low times, captures in each slot the longer of master and slave low time, drains the feed, and stops with the line released and the flag up |
| SlotPort.Port.Feed | src/ow_port.h:737-759 | the register order arms the train of the table whatever mode the compare register was in; out-of-range slot counts change nothing |
| SlotPort.Port.WriteSlots | src/ow_port.h:877-905 | the same, with a single slot released by the preload instead of the feed |
| SlotPort.Port.ReadData | src/ow_port.h:1004-1014 | arms 8 read slots a byte for 1 to 32 bytes |
| SlotPort.Port.ReadPair | src/ow_port.h:911-928 | arms two read slots |
| SlotPort.Port.WriteThenRead | src/ow_port.h:943-994 | arms direction, read, read with three captures |
| SlotPort.Port.Reset | src/ow_port.h:857-865 | arms 480 us low of 960 us with two captures |
| SlotPort.Port.StartWait | src/ow_port.h:808-850 | arms the planned wait with the line released |
| SlotPort.Port.StrongPullup | src/ow_port.h:1033-1039 | engaging leaves the stopped output high and the flag up, releasing changes neither |
| SlotPort.WriteEmits | src/ow_port.h:737-759 | a write of n slots drives exactly pulses[0..n) whatever the slaves do, ends released, and leaves nothing to feed |
| SlotPort.DeviceSamples | src/onewire.c:288-292 | a device that samples a slot between the two pulse widths receives the encoded bytes bit by bit |
| SlotPort.ReadCaptures | src/ow_port.h:1004-1014 | a read drives n short pulses, captures n widths, and they read as the bits the slaves send |
| SlotPort.MergedPass | src/ow_port.h:943-994 | a merged pass drives [direction, 1, 1] and its last two captures read as the id and complement bits |
| SlotPort.ResetCaptures | src/onewire.c:200-213 | the two captures of a reset, and presence exactly for an answer that ends in its window |
| SlotPort.CompletesOnTime | src/ow_port.h:602-624 | every operation raises the flag after exactly its periods, never earlier |
| SlotPort.WaitLasts | src/ow_port.h:744-775 | a wait lasts at least the request, less than one us per period more, and never drives the line low |
| Recorder.RecordRoundTrip | examples/9_multi/main.c:441-456 | every record written is accepted at boot, and decodes to the temperature written if and only if that is between -1289 and 1279 tenths |
| RecorderApp.FindExtremes | examples/9_multi/main.c:555-573 | the first sensor with the highest and the first with the lowest valid temperature, if there is any |
| RecorderApp.Session.BootDone | examples/9_multi/main.c:298-360 | a slot is loaded exactly from readable blocks that pass all checks |
| RecorderApp.Session.QueueExtreme | examples/9_multi/main.c:432-466 | the ROM job only when the ROM differs, before the record job |
| RecorderApp.Session.CommitJob | examples/9_multi/main.c:469-481 | the RAM copy after a finished job |
| RecorderApp.Session.WriteAbort | examples/9_multi/main.c:483-496 | all jobs dropped, persistence off at the third failure in a row |
| RecorderApp.Session.JobDone | examples/9_multi/main.c:509-531 | commit, then the next job, with its write call, or rest; where the calls write is NextRefines |
| RecorderApp.Session.Evaluate | examples/9_multi/main.c:555-638 | what a round queues, commits to RAM or starts, and the write call it makes; where it writes is NextRefines |
| RecorderApp.Session.CommandEnds | examples/9_multi/main.c:796-836 | the write states advance only on success, each with its EEPROM call: verify, copy, read back from the job's block |
| RecorderApp.Session.ReadbackEnds | examples/9_multi/main.c:838-850 | a job is done, and the next one's write call made, only when the read-back equals its image; where that writes is NextRefines |
| RecorderProof.CrashSafe | examples/9_multi/main.c:29-47 | over all readings, failures and power cuts every stored record that would be accepted has a CRC-valid DS18B20 ROM beside it, and no byte outside the four blocks changes |
| RecorderProof.ExtremesOnlyMoveOut | examples/9_multi/main.c:29-47 | across sessions and power cuts the stored peak never falls, the low never rises and no record is lost, as long as no record job fails after its copy took effect, sessions that can write have read every record, and temperatures are recordable |
| RecorderProof.PowerOn | examples/9_multi/main.c:339-360 | every EEPROM with safe records is a start of such runs |
| RecorderWire.NextRefines | examples/9_multi/main.c:498-531 | with an EEPROM that knows the calls only (a copy programs the block and bytes of the last write call), every event has the effect RecorderProof assumes |
| RecorderWire.CallsCrashSafe | examples/9_multi/main.c:796-850 | so CrashSafe holds of the calls really made, and no copy is called for but right behind a write of the same block and its verify, both ended well |
| RecorderWire.CallsOnlyMoveOut | examples/9_multi/main.c:29-47 | and so does ExtremesOnlyMoveOut |
| RecorderWire.WireStarts | examples/9_multi/main.c:339-360 | every EEPROM with safe records, before any call, is a start of such runs |
| RecorderRounds.RecordLayout | examples/9_multi/main.c:20-47 | the bytes of a record and the addresses of the four blocks, as numbers |
| RecorderRounds.AcceptedBlocks | examples/9_multi/main.c:298-335 | which blocks boot accepts as a record and as a ROM, byte by byte |
| RecorderRounds.RamOnlyRound | examples/9_multi/main.c:555-638 | a round of a session without a usable EEPROM ends at once with each RAM slot raised or lowered to the round's extreme when that lies beyond it (with its ROM), and as it was otherwise |
| RecorderRounds.StoredRound | examples/9_multi/main.c:555-638 | with a usable EEPROM, when all jobs of the round end well, the RAM slots are the same, and the EEPROM holds the record and ROM of each slot that changed and the old blocks of one that did not |
| RecorderLimits.RoundCanWorsenIff | examples/9_multi/main.c:555-638 | for either slot and every waiting state: some round of recordable readings, with some outcome of its write jobs, leaves a worse record or none in the EEPROM if and only if the EEPROM is in use, there is a sensor, and the RAM copy is missing or lags behind the stored extreme by more than a tenth |
| RecorderLimits.FailedJobCanWorsen | examples/9_multi/main.c:483-496 | a round whose record job fails behind its copy, followed by a less extreme round, can worsen the stored record |
| RecorderLimits.UnreadBootCanWorsen | examples/9_multi/main.c:298-327 | so can a boot that could not read the record but can write, followed by one round |
| RecorderLimits.RomBesideRecordIff | examples/9_multi/main.c:42-43 | in every run with power cuts in which no ROM job fails behind its copy: from the copy of a record on, the slot's ROM block is that of the sensor that set it if and only if no other sensor's ROM has been programmed since |
| RecorderLimits.CutBetweenCopies | examples/9_multi/main.c:459-466 | every new extreme from a sensor whose ROM is not the known one can leave, at a power cut between its two copies, the old record beside that sensor's ROM |
| Huffman.KraftLeavesRoom | tools/1wire_vis/owvis.js:81-93 | under Kraft's inequality the canonical codewords of every length fit |
| Huffman.PrefixFree | tools/1wire_vis/owvis.js:94-105 | at most one canonical codeword starts a bit string, for any lengths |
| HuffmanBuild.Build | tools/1wire_vis/owvis.js:81-93 | the counting sort yields exactly the counts and the symbols in canonical order |
| InflateProof.CodeDecodes | tools/1wire_vis/owvis.js:94-105 | under Kraft's inequality the canonical codeword of symbol s decodes to s and len(s) bits are consumed |
| InflateProof.TokensDecode | tools/1wire_vis/owvis.js:117-141 | the encoding of any valid token sequence decodes to its LZ77 expansion, overlapping copies included, consuming exactly its bits |
| InflateProof.LengthsDecode | tools/1wire_vis/owvis.js:181-201 | run-length coded code lengths decode to what was encoded |
| InflateProof.ClHeaderDecodes | tools/1wire_vis/owvis.js:174-180 | so do the code lengths of the code-length code, in their transmission order (OrderTable) |
| InflateProof.FixedKraft | tools/1wire_vis/owvis.js:143-149 | the fixed codes satisfy Kraft's inequality |
| InflateProof.BlockDecodes | tools/1wire_vis/owvis.js:153-206 | stored, fixed and dynamic blocks decode to their output and consume exactly their bits |
| InflateProof.StreamDecodes | tools/1wire_vis/owvis.js:152-206 | so does any sequence of blocks, up to the final one |
| InflateProof.InflateCorrect | tools/1wire_vis/owvis.js:51-211 | on the bytes of any valid stream the result is exactly the expansion of its blocks, or a size mismatch when another size was announced; the tables and codes both sides share are pinned down in InflateTables |
| InflateProof.EveryOutputHasAStream | tools/1wire_vis/owvis.js:51-211 | every byte string is the output of a valid stream |
| InflateProof.EveryLengthHasACode | tools/1wire_vis/owvis.js:107-110 | every match length from 3 to 258 has a code in the tables |
| InflateProof.EveryDistanceHasACode | tools/1wire_vis/owvis.js:111-115 | every distance from 1 to 32768 has one, too |
| InflateTables.LengthTable | tools/1wire_vis/owvis.js:107-110 | the length codes start at 3, each begins where the one below ends, 28 is the length 258, and code li has (li - 4) / 4 extra bits, none below 8 and at 28 |
| InflateTables.DistanceTable | tools/1wire_vis/owvis.js:111-115 | the distance codes start at 1, each begins where the one below ends, and code di has (di - 2) / 2 extra bits, none below 4 |
| InflateTables.OrderTable | tools/1wire_vis/owvis.js:177 | the code-length codes are sent as 16, 17, 18, 0, and then outwards from 8 |
| InflateTables.FixedTable | tools/1wire_vis/owvis.js:143-149 | the lengths of the fixed codes, symbol by symbol |
| InflateTables.CopyAt | tools/1wire_vis/owvis.js:133-136 | every byte a match produces is the one its distance before it |
| InflateTables.CanonicalFirst | tools/1wire_vis/owvis.js:81-105 | the codeword of the first symbol (by length, then value) is all zeros |
| InflateTables.CanonicalNext | tools/1wire_vis/owvis.js:81-105 | every other codeword is its predecessor's plus one, lengthened by zeros |
| InflateTables.MsbFirst | tools/1wire_vis/owvis.js:94-105 | equally long codewords are ordered by value as they are bit by bit, the first bit weighing most |
| Inflate.Inflater.ReadBit | tools/1wire_vis/owvis.js:55-60 | the next bit of the input, least significant first, or the end-of-stream error |
| Inflate.Inflater.ReadNumber | tools/1wire_vis/owvis.js:61-65 | n bits as a number, least significant first |
| Inflate.Inflater.Ensure | tools/1wire_vis/owvis.js:71-78 | room for the bytes to come, the output kept |
| Inflate.Inflater.CopyMatch | tools/1wire_vis/owvis.js:133-136 | the byte-wise copy, overlapping or not |
| Inflate.Inflater.Decode | tools/1wire_vis/owvis.js:94-105 | on any bits, the symbol whose canonical codeword stands there, or the error, and the position behind it |
| Inflate.Inflater.InflateBlock | tools/1wire_vis/owvis.js:117-141 | output, position and error of a block on any bits; its tables are LengthTable and DistanceTable |
| Inflate.Inflater.StoredBlock | tools/1wire_vis/owvis.js:156-166 | the same for a stored block |
| Inflate.Inflater.ReadLengths | tools/1wire_vis/owvis.js:181-201 | the code lengths, runs past the end cut short |
| Inflate.Inflater.DynamicBlock | tools/1wire_vis/owvis.js:173-202 | output, position and error of a dynamic block on any bits; the order of its header is OrderTable |
| Inflate.Inflater.Blocks | tools/1wire_vis/owvis.js:152-206 | output, position and error of the block loop on any bits |
| Inflate.InflateRaw | tools/1wire_vis/owvis.js:51-211 | the result that InflateCorrect speaks of, for any bytes and announced size |
| SlotDecoder.DecodeSlotsProfile | tools/1wire_vis/owvis.js:365-416 | at any sample rate, the decoder loops with the rounded thresholds compute the specified event list |
| SlotDecoder.DetectSpeed | tools/1wire_vis/owvis.js:346-363 | at any sample rate: standard at the first standard reset, overdrive if only overdrive resets were seen |
| SlotDecoder.DecodeSlots | tools/1wire_vis/owvis.js:418-422 | decoding with the speed asked for, or with the detected one |
| SlotRoundTrip.Generator.PushItem | tools/1wire_vis/owvis.js:864-882 | the samples of a slot, a reset or idle time |
| SlotRoundTrip.Generator.PushByte | tools/1wire_vis/owvis.js:874-876 | eight slots, least significant bit first |
| SlotRoundTrip.RoundTrip | tools/1wire_vis/owvis.js:365-416 | at any whole number of samples per microsecond, at standard and at overdrive speed, for any list of resets with or without presence, slots and idle times the decoder of that speed returns exactly that list, with presence pulses, low times and falling-edge times |
| SlotRoundTrip.BytesRoundTrip | tools/1wire_vis/owvis.js:861-888 | bytes sent slot by slot are decoded bit by bit, one event every 70 us |
| SlotRoundTrip.AutoRoundTripIff | tools/1wire_vis/owvis.js:346-363 | at the same rates, items at standard speed come back with automatic speed if and only if they contain a reset or no 0 |
| SlotRoundTrip.AutoOverdriveIff | tools/1wire_vis/owvis.js:346-363 | items at overdrive speed come back with automatic speed if and only if they contain a reset, or no 0 and no two slots that begin within 55 us of each other |

## Left out

- Configuration: outside `DecodeEncodedIff` the constants have their default values (8 table entries, pulse widths 5 and 60 us, preload enabled, no active drive, no low-power sleep, no PEAK_RESET).
- Register values: integers are unbounded. The values that reach 8- and 16-bit fields are bounded by the invariants where it matters; wrap-around of the record counter and of the temperature bytes is modelled. Bit positions of inputs beyond 2^31 bits, where the viewer's shifts would wrap, are not.
- Instructions between register writes: arming is instantaneous, a stale compare request that the merged pass guards against (src/ow_port.h:966-973) and analogue rise times are not modelled.
- SlotTimer.Train: one period lasts ARR ticks, as src/ow_port.h:765-775 states it; the counter of the hardware would count one more.
- Ds2431Proof.VerifyReportsTruth: speaks of one DS2431 on the reply path; with Skip ROM and several EEPROMs the replies would mix.
- Ds18b20Search.SearchReports: the user's sink is reduced to whether it asks to stop; calls it makes back into the driver are rejected while the search runs.
- User buffers are returned values, so that a buffer that dies before its command finishes cannot be expressed.
- SearchProof.AnyBusBounded: is stated for family 0. With a family filter, leaves of other families are not counted towards max, so that the count does not bound the walks.
- The recorder's measurement rounds (scan drain, fall-back to sequential measurement, time-outs) reach the model only as the results evaluate sees and as failed commands; its device searches are those of the search modules.
- Direct calls of onewire_search_start beside the DS18B20 driver, and the two drivers used at the same time: neither is guarded by the source.
- Ds2431 memory reads between write, verify and copy overwrite the latched address (src/ds2431.c:128-131); the sequence theorems are stated without them.
- Ds18b20World.ReportsTruth: commands reach the thermometers undamaged, and so do answers their driver; what a damaged scratchpad is reported as is `ScratchpadReported`, for any capture. Conversions end in a wait of the driver, not by themselves in between.
- Ds18b20Commands.CommandDoes: a command whose reset is answered is heard by every device; a device that appears or leaves while it runs is not modelled.
- SlotRoundTrip.RoundTrip: is stated for whole numbers of samples per microsecond (the generator produces one); the decoder itself is modelled at any rate, with exact arithmetic instead of floating point.
- The rest of the viewer (zip archives, transactions, command names), the statistics counters, the register headers of the MCU families, DS2413, and the other examples: I/O, tables and plumbing.
