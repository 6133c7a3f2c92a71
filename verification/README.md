# OWEN gateway: a verified model

The gateway polls OVEN field devices over RS-485 lines, caches their values, and serves
them as Modbus registers; client writes are forwarded to the devices and verified by
reading back. This project models its four parts in Dafny and proves what they promise.

* **Wire codec and line reader.** `Crc`, `Frame`, `ParameterHash`, `ParameterNames`,
  `Requests`, `Payload`, `LineReader`: the checksum as a fold over message bits, the frame as
  a bijection, burst detection, parameter hashes and which names they tell apart, the
  `stored_dot` decimal, and the reader that reassembles fragments and repairs a lost carriage
  return.
* **Configuration.** `Config` proves the accumulating validator equal to a declarative
  predicate; `SlaveIds` resolves slave ids in place; `StableSort`, `ConfigEdit`,
  `EditChoices`, `EditLaws`, `EditValidity` and `ToolBuilt` cover editing, `ToolDevices` what
  an edited-in device is in a running gateway (its logic units have no hysteresis, so one that
  is to be on inside the band never is).
* **Registers.** `Registers` (register forms of values), `RegisterStore` (the blocks, their
  sizes and write notices), `RegisterMap` (the whole map as cells, with the client writes
  whose handlers are still running), `Blocks` (the blocks of a run, slice assignments past
  their ends included, hold what the map says of the registers they have).
* **Supervisor.** `Health`, `Status`, `LogicUnit` are its small machines. `Gateway` is the
  state with its atomic steps: everything between two suspension points of the event loop
  is one step, asking a point and taking its reply are two, pollers and write handlers
  interleave freely, and every exchange result is arbitrary. `GatewayService` is the same as
  an object that updates its records in place, each method tied to a step. `BusLock`
  interleaves at the grain of single exchanges, and `Interleaving` joins the two machines.

`Replies` says of an exchange alone what taking it records, and `Confirmation` of the written
registers, the acknowledgement and the read-backs alone whether a write is kept and with which
value; the results about runs speak in these terms and not in those of the steps' branches.
What single steps leave in the registers of statuses, marks and counters is in `Telemetry`,
what logic masks depend on in `LogicMasks`, what each step publishes and where in `Steps`.
The results about whole runs are in `Conservation` and `Replies` (counters), `StatusHierarchy`,
`HealthRuns`, `LogicRuns`, `ChannelStatus`, `TelemetryRuns` (counters and time marks),
`WriteHandling` (all or nothing), and, over `Layout`, `Slots`, `CacheAgreement` and
`Reachable`, in `Guarantees` (what the registers show). `ValidatorGaps` has the exact
conditions under which publishes spare each other, `SharedNames` and `SharedValues` when
points of one name get in each other's way, and `Witnesses` the accepted configurations and
runs in which things go wrong.

`dafny verify dfyconfig.toml` checks everything.

## Where the code does less than one might expect

Each has an exact condition, and a lemma with an input that meets the failing case.

* A decimal with a mantissa below 16 is written in one byte that the decoder reads without
  sign and exponent. Zero, one and others are never verified after a write
  (`Payload.StoredDotRoundTrip`, `Payload.WholeNumbers`, `Payload.ZeroIsNotReadBack`).
* A kept write clears a point's failures but not the cycles it is still passed over for
  (`Health.StepKeepsExactly`, `Health.WriteLeavesSkips`), in which its channel status
  register says failed and its record does not (`ChannelStatus.SkipAgreesExactly`,
  `Witnesses.KeptWriteIsPassedOver`).
* The acknowledgement of a write is looked at after verification, so a refused write may
  have changed the device (`WriteHandling.KeptExactly`, `Witnesses.ConfirmedWriteIsRefused`).
* The validator does not compare a point's time mark and channel status with its own value
  registers, does not keep register 48 free, and ignores metadata of unpublished points
  (`ValidatorGaps.MetadataDecides`, `ValidatorGaps.MaskDecides`,
  `Witnesses.OwnStatusOverwritesValue`, `Witnesses.MaskOverwritesValue`,
  `Witnesses.HiddenStatusOverwritesValue`). The block sizing ignores that metadata too
  (`RegisterStore.UnpublishedMetadataEscapes`, `Witnesses.HiddenStatusEscapes`).
* It accepts two points of one name, which share a cached value and a health record. Their
  registers then agree with that value throughout every run only if there is no second one
  (`SharedValues.SharedNameDecides`, `SharedValues.OnlyNamesAgreeInRuns`,
  `Witnesses.SharedNameDisagrees`); and if they are on different lines, one can be passed
  over although it is healthy, because the other failed while its reply was awaited
  (`SharedNames.OnlyFailedAreSkippedExactly`, `Witnesses.SharedLinesRelapse`).
* It accepts type pairs that cannot publish every reply (`Registers.OtherPairsCanFail`,
  `Witnesses.MisfitIsCached`), and a status type that has no registers, with which the
  program stops at its first status (`ValidatorGaps.StatusDecides`,
  `Witnesses.UnpublishableStatusIsAccepted`).
* It accepts telemetry registers that coincide (`Telemetry.TelemetryDecides`,
  `Witnesses.SharedTelemetryLoses`) and addresses an 8-bit line cannot carry
  (`Requests.PollableExactlyWhen`, `Witnesses.WideAddressCannotBePolled`).
* A line without devices counts as offline and can hide that all devices are healthy
  (`Status.TwoLevelsAreFlat`, `Witnesses.EmptyLineDegrades`).
* Adding a device checks neither the range nor the uniqueness of its slave id
  (`EditValidity.AddIsAccepted`), and updating channels moves the base address when the
  first channel is missing (`EditLaws.SecondUpdateAlone`, `EditLaws.KeepsSlaveExactly`).

## Reading the model

A *region* is the set of cells one kind of publish goes to. `Private` says that no publish
of the configuration goes to a region but its own, `Owned` that a value, status, line or
mask register is private in this way, and `ValueSpared` what that comes to for a point's
value in an accepted configuration (`Layout.ValueIsPrivateExactly`). Theorems about what
registers show ask this of the registers they speak of, and nothing of the others.
`LayoutOk` is a configuration in which all of them are owned, point names differ, and
statuses have registers; `ToolBuilt` shows that configurations built with the editing tools
and the default service registers are such.

`Lawful` collects what is used of the platform's single-precision conversions, `SinglesOk`
the codes of zero and one (`Registers.ConversionsExist`: both can be met); values are reals,
and a single is two words. The history variables `stale` (registers where a client write
overlapped other writes) and `ioFailures` never influence a step. A run is `Realistic` if
points for which no request can be built never get a reply.

Theorems about registers speak of cells of the map. Those a client can read are the cells
below the end of a block, and there the block holds what the map says
(`Blocks.BlocksHoldTheMap`); every cell of a published point, of statuses, telemetry, lines
and masks is one of them (`Blocks.PublishedInBlock`). Only metadata of points that are not
published may lie past the end, so theorems about metadata ask that the block has the
register.

## Model

| member | source | states |
|---|---|---|
| `Crc.HashByte` | owen_gateway/protocol.py:256-263 | the bit loop computes the register `HashBits` defines, for any byte, bit count and starting register |
| `Crc.Crc16Loop` | owen_gateway/protocol.py:216-220 | the byte loop computes the register of the whole message |
| `Crc.RegisterFeeds` | owen_gateway/protocol.py:216-220 | the register after a message is a fold of one step per message bit, most significant first |
| `Crc.StepInjective` | owen_gateway/protocol.py:257-262 | one bit step never maps two registers to one, for a fixed input bit |
| `Crc.FeedInjective` | owen_gateway/protocol.py:216-220 | feeding the same bits to two different registers leaves them different |
| `Crc.ShortMessagesInjective` | owen_gateway/protocol.py:256-263 | from one register, two different bit strings of at most sixteen bits lead to different registers |
| `Crc.BurstChangesRegister` | owen_gateway/protocol.py:216-220 | changing any bits inside a window of at most sixteen changes the final register, whatever comes before and after |
| `Crc.ZeroResidue` | owen_gateway/protocol.py:92-98 | a message followed by two bytes leaves register zero exactly when those bytes are its checksum |
| `Frame.NibbleEncodeLoop` | owen_gateway/protocol.py:307-312 | the encoding loop yields two symbols a byte, high nibble first |
| `Frame.NibbleDecodeLoop` | owen_gateway/protocol.py:315-326 | the decoding loop yields the bytes, or a fault for odd length or a foreign symbol |
| `Frame.NibbleDecodeOkExactlyWhen` | owen_gateway/protocol.py:315-326 | decoding succeeds exactly on even-length strings of the sixteen symbols |
| `Frame.NibbleDecodeUndoesEncode` | owen_gateway/protocol.py:307-326 | nibble decoding undoes nibble encoding |
| `Frame.NibbleEncodeUndoesDecode` | owen_gateway/protocol.py:307-326 | nibble encoding undoes a successful nibble decoding |
| `Frame.DecodeUndoesEncode` | owen_gateway/protocol.py:72-116 | encoding succeeds exactly for 11-bit addresses and payloads up to 15 bytes, and decoding then gives back the frame |
| `Frame.EncodeUndoesDecode` | owen_gateway/protocol.py:82-116 | every byte string the decoder accepts is exactly the encoding of what it decoded to |
| `Frame.FrameShape` | owen_gateway/protocol.py:72-79 | a frame has 14 to 44 bytes, `#`, symbols from `G` to `V` and a carriage return, so no terminator before its last byte |
| `Frame.HeaderBits` | owen_gateway/protocol.py:289-302 | the message starts with eleven address bits, the request flag and four size bits, most significant first |
| `Frame.FrameLayout` | owen_gateway/protocol.py:289-312 | read as pairs of symbols, high nibble first, a frame is its header, hash, payload and checksum, high bytes first |
| `Frame.BurstDetected` | owen_gateway/protocol.py:82-98 | changing any non-empty set of symbols inside four consecutive ones, header and checksum included, is always refused |
| `Frame.TruncationRejected` | owen_gateway/protocol.py:82-108 | a frame cut anywhere before its last symbol and closed with a carriage return is refused |
| `Requests.ExpandedAddress` | owen_gateway/protocol.py:60-69 | expanded addresses fit eleven bits, and different addresses of one width stay different |
| `Requests.AddressOnTheWire` | owen_gateway/protocol.py:60-69 | an 8-bit address stands in the upper eight of the eleven address bits on the wire, the other three being zero, an 11-bit address takes them all |
| `Requests.PollableExactlyWhen` | owen_gateway/protocol.py:22-38 | a validated point can be polled exactly when its name hashes and, on an 8-bit line, its address is below 256; the validator checks neither |
| `Requests.RequestsAreUnambiguous` | owen_gateway/protocol.py:22-57 | equal poll requests ask for the same address, hash and index, and none equals a write request |
| `Requests.RequestDecodes` | owen_gateway/protocol.py:22-38 | a read request decodes to the address, hash and index asked for |
| `Requests.WriteDecodes` | owen_gateway/protocol.py:41-57 | a write request decodes to its payload followed by the index, at most 15 bytes in all |
| `ParameterHash.NormalizeNameLoop` | owen_gateway/protocol.py:223-253 | the index loop computes the recursive normal form, dots folded into the symbol before them; that this form spells the name is `ParameterNames.SameFieldExactly` |
| `ParameterHash.HashParameterNameLoop` | owen_gateway/protocol.py:201-213 | padding and hashing by loops computes the hash of the padded four-symbol field, or the fault |
| `ParameterHash.AdjacentSymbolsSeparateNames` | owen_gateway/protocol.py:201-213 | names whose padded codes differ only within two adjacent symbols never share a hash |
| `ParameterHash.CaseDoesNotMatter` | owen_gateway/protocol.py:232-236 | letter case never changes a hash |
| `ParameterHash.TrailingSpaceDoesNotMatter` | owen_gateway/protocol.py:207-208 | a trailing space never changes the hash of a name that still fits |
| `ParameterHash.HashOfDev` | owen_gateway/protocol.py:201-213 | the device name parameter hashes to 0xD681 |
| `ParameterNames.HashableExactly` | owen_gateway/protocol.py:201-253 | exactly the names of one to four symbols of the table, each with or without a dot after it, can be hashed |
| `ParameterNames.SameFieldExactly` | owen_gateway/protocol.py:201-253 | two names have the same padded field exactly if they are equal up to letter case and spaces at the end |
| `ParameterNames.DotsSeparateNames` | owen_gateway/protocol.py:228-250 | adding the dot after one symbol of a name, or removing it, leaves a name that can be hashed and always changes the hash |
| `ParameterNames.HashOfALen` | owen_gateway/protocol.py:201-253 | the name `A.Len` hashes to 0x1ED2 |
| `LineReader.SerialPort.Read` | owen_gateway/serial_client.py:221-247 | a read takes at most the asked number of bytes of the next fragment |
| `LineReader.ReadOvenResponse` | owen_gateway/serial_client.py:221-247 | the reading loop returns the response the fragments define and restores the port's timeout |
| `LineReader.CollectedExactly` | owen_gateway/serial_client.py:233-245 | whatever is delivered, the reader takes whole fragments up to the first place where it has 128 bytes, a carriage return or 0x16, a second empty read in a row, or nothing more to come |
| `LineReader.InterByteTimeoutIs` | owen_gateway/serial_client.py:250-253 | between bytes the reader waits a fifth of the timeout, at least 20 and at most 200 milliseconds |
| `LineReader.CollectedFromFrame` | owen_gateway/serial_client.py:233-245 | on fragments of a frame the loop returns a prefix of it, complete up to the terminator exactly when it is not starved |
| `LineReader.NormalizedPrefix` | owen_gateway/serial_client.py:212-218 | normalising a prefix of a frame appends a carriage return exactly when it is a proper prefix |
| `LineReader.ClosesOpenFrames` | owen_gateway/serial_client.py:212-218 | only a response that starts with `#` and does not end in a carriage return gets one |
| `LineReader.ReceiveExactlyWhenNotStarved` | owen_gateway/serial_client.py:212-247 | however a frame, whole or cut anywhere, is fragmented: exactly that frame when its symbols arrive without two empty reads in a row, else a fault |
| `LineReader.CarriageReturnMayBeLost` | owen_gateway/serial_client.py:212-247 | a complete delivery with single pauses is understood with or without the carriage return |
| `LineReader.AckExactly` | owen_gateway/serial_client.py:88-100 | whatever arrives: a write's reply is a fault exactly when the line is silent, a frame exactly when a read would take it for that frame, and passes without content otherwise |
| `LineReader.AckOfFrame` | owen_gateway/serial_client.py:88-100 | of a reply frame, whole or cut anywhere, a write sees the frame, nothing on silence, and a reply without content when it is cut short |
| `Payload.StoredDotRoundTrip` | owen_gateway/protocol.py:266-286 | decoding an encoded decimal gives its value back exactly when it survives: no positive exponent, and below a mantissa of 16 neither sign nor exponent |
| `Payload.StoredDotFields` | owen_gateway/protocol.py:139-151 | two and three bytes give back sign, places and mantissa, one byte only its raw value, and the shortest form is used |
| `Payload.EchoPassesExactlyWhenSurviving` | owen_gateway/protocol.py:266-286 | a value echoed by a device passes the read-back check exactly when its decimal survives: the echo is then within 0.005, else farther than 14 |
| `Payload.MatchesWithin51Thousandths` | owen_gateway/service.py:791-796 | numbers match exactly up to 51 thousandths apart if one is a float, and only if they are equal if both are integers |
| `Payload.ZeroIsNotReadBack` | owen_gateway/protocol.py:278-280 | a written zero does not decode to anything within the tolerance |
| `Payload.KnownStoredDot` | owen_gateway/protocol.py:139-151 | known payloads have their known values |
| `Payload.KnownReplies` | owen_gateway/protocol.py:139-151 | the replies 004B, 0117, 2BC2, 2024EA and 20251C are 75, 279, 30.1, 94.5 and 95 |
| `Payload.WholeNumbers` | owen_gateway/protocol.py:266-286 | whole numbers from 2 to 6553 in size survive, 0 and 1 do not, larger ones are refused |
| `Payload.AcceptedLengths` | owen_gateway/protocol.py:119-168 | a payload decodes exactly when its length is one of its format's |
| `Payload.PayloadsSay` | owen_gateway/protocol.py:119-198 | integers are the number of their bytes, high ones first, signed ones in two's complement, a single is given by its two words, raw payloads are themselves both ways |
| `Payload.ServiceBytesIgnored` | owen_gateway/protocol.py:119-168 | an index or time mark behind the value does not change it |
| `Payload.IntegerPayloads` | owen_gateway/protocol.py:119-198 | integers are encoded exactly when they fit and decode back to themselves |
| `Registers.BigEndianWords` | owen_gateway/encoding.py:77-80 | two-word integers go high word first, negative ones in two's complement |
| `Registers.RegistersRoundTrip` | owen_gateway/encoding.py:6-74 | an integer published in registers reads back as itself |
| `Registers.RegistersAreCanonical` | owen_gateway/encoding.py:6-74 | every register content of an integer type is the form of exactly the value it reads as |
| `Registers.RegistersSayTheirNumber` | owen_gateway/encoding.py:47-74 | registers are decoded exactly if there are as many as the type has, and then as the number they say: high word first, two's complement, a single as the same four bytes of a reply would say it |
| `Registers.SinglesRoundTrip` | owen_gateway/encoding.py:33-80 | a value read from a single is published as registers that decode back to it |
| `Registers.TruthRoundTrip` | owen_gateway/encoding.py:10-52 | a published truth value reads back as 0 for zero and as 1 for anything else |
| `Registers.PublishableExactly` | owen_gateway/encoding.py:6-34 | a value fits an integer type exactly if it is in range without its fraction, a single exactly if the platform can pack it; only the latter failure is none of the value |
| `Registers.FloatsAreTruncated` | owen_gateway/encoding.py:12-32 | a float published as an integer loses its fraction towards zero |
| `Registers.DecodedValuesPublish` | owen_gateway/encoding.py:6-34 | for the listed type pairs no decodable reply can fail to publish |
| `Registers.WritablePairsPublish` | owen_gateway/config.py:440-447 | all writable type pairs are among them |
| `Registers.OtherPairsCanFail` | owen_gateway/encoding.py:6-34 | every other pair of a known format, raw included, has a reply that decodes but does not fit |
| `Registers.EchoedWriteVerifies` | owen_gateway/service.py:605-635 | a write echoed by the device passes verification: always for integers and singles, through `stored_dot` exactly when the value survives; the value written is the number the registers say |
| `Config.ValidateBuses` | owen_gateway/config.py:146-170 | the loop accepts exactly the lines that are well formed with distinct names |
| `Config.ValidatePoints` | owen_gateway/config.py:227-336 | the accumulating loop accepts exactly the points that are each valid and pairwise compatible |
| `Config.ValidatePointFields` | owen_gateway/config.py:232-286 | the tests of one point's fields, one by one, accept exactly the points in range, of known types, and writable only as a published holding register of a matching pair |
| `Config.ValidateBus` | owen_gateway/config.py:156-168 | the tests of one line accept exactly a line in range with a sound serial configuration |
| `Config.ValidateShared` | owen_gateway/config.py:169-225 | the tests of what lines and points share accept exactly a sound port, statuses and telemetry that do not overlap, and positive health limits |
| `Config.CountsWithinLimits` | owen_gateway/config.py:338-348 | the final counting compares the numbers of distinct devices with the limits |
| `Config.ValidateConfig` | owen_gateway/config.py:146-348 | a configuration is accepted exactly when the declarative predicate `Accepts` holds |
| `Config.TestsArePairwise` | owen_gateway/config.py:288-335 | passing the loop's dictionary tests is being compatible with every earlier point |
| `Config.OccupiedMember` | owen_gateway/config.py:303-335 | what the occupied-cells dictionary holds after some points |
| `Config.DeviceDictionaries` | owen_gateway/config.py:288-301 | the two device dictionaries are inverse to each other |
| `Config.LimitsAlwaysHold` | owen_gateway/config.py:338-348 | points that pass the other tests never exceed the device limits |
| `SlaveIds.DeviceId` | owen_gateway/config.py:406-422 | a device's id is its one explicit id, else its smallest address; it is stopped by several explicit ids, or by an unknown line when it has none |
| `SlaveIds.DefaultBases` | owen_gateway/config.py:397-401 | lines without a slave base get the default of their position, and exactly from the fifth line on there is none |
| `SlaveIds.ResolveModbusSlaveIds` | owen_gateway/config.py:397-424 | the in-place rewriting sets only slave ids, to what each device resolves to; it stops exactly for a line without a default base, else at the first device with two explicit ids or with none on an unknown line |
| `SlaveIds.ResolutionIsConsistent` | owen_gateway/config.py:406-424 | points of one device get one id, and explicit ids are kept |
| `SlaveIds.AcceptedIsResolved` | owen_gateway/config.py:397-424 | a validated configuration meets no obstacle and its lines and points are left as they are |
| `RegisterStore.ObservableDataBlock.constructor` | owen_gateway/modbus_server.py:102-112 | a block starts with zeros and no notices |
| `RegisterStore.ObservableDataBlock.SetValues` | owen_gateway/modbus_server.py:127-133 | a client's write changes the block and reports values and previous content, unless suspended |
| `RegisterStore.ObservableDataBlock.SetValuesInternal` | owen_gateway/modbus_server.py:135-140 | the gateway's own write changes the block and reports nothing |
| `RegisterStore.ObservableDataBlock.SetSlaveValues` | owen_gateway/modbus_server.py:378-383 | publishing inside the block changes exactly its own cells, one index up, and never the size |
| `RegisterStore.RestoreUndoesWrite` | owen_gateway/modbus_server.py:127-133 | writing the reported previous content back undoes a write |
| `RegisterStore.CalcSize` | owen_gateway/modbus_server.py:343-375 | the computed size is the least that holds every cell counted |
| `RegisterStore.CountedExactly` | owen_gateway/modbus_server.py:181-193 | which cells a block is sized for: those of published points of its kind with their metadata, of statuses and telemetry of its kind, and register 48, but no coil 48 |
| `RegisterStore.PublishesStayInside` | owen_gateway/modbus_server.py:343-383 | for an accepted configuration every publish of points, status, telemetry, lines and masks lies inside its block |
| `RegisterStore.PublishLandsExactly` | owen_gateway/modbus_server.py:378-383 | a word published to a map address reaches its cell, and keeps the block's size, exactly when the block is long enough; otherwise the block grows by that word |
| `RegisterStore.InsideExactly` | owen_gateway/modbus_server.py:343-375 | an address is inside a block sized for some cells exactly when one of them lies at or above it |
| `RegisterStore.UnpublishedMetadataEscapes` | owen_gateway/modbus_server.py:343-360 | in the block sized for an accepted configuration, metadata of an unpublished point reaches its register exactly when a counted cell lies at or above it, else the block grows and the word lands behind its end |
| `Blocks.StepAssigns` | owen_gateway/modbus_server.py:79-99 | the registers after any step are those before it with the step's writes assigned in order |
| `Blocks.BlocksHoldTheMap` | owen_gateway/modbus_server.py:102-140 | in every run of an accepted configuration, whatever was written past a block's end, each register the block was created with holds what the map says |
| `Blocks.InBlockRegisters` | owen_gateway/modbus_server.py:343-383 | so a cell is a register of the block, with the map's content, if a counted cell lies at or above it |
| `Blocks.PublishedInBlock` | owen_gateway/modbus_server.py:343-375 | every cell of a published point, a status, telemetry, a line or a mask is such a cell |
| `Blocks.BlockKeepsSize` | owen_gateway/modbus_server.py:343-383 | a block keeps its size in every run in which clients write inside it and no turn goes to a point with metadata past its end |
| `RegisterMap.PublishShows` | owen_gateway/modbus_server.py:79-99 | a publish is shown on all its cells that no client write is in flight on |
| `RegisterMap.PublishKeeps` | owen_gateway/modbus_server.py:79-99 | a publish elsewhere keeps what is shown |
| `RegisterMap.ClientWriteKeeps` | owen_gateway/modbus_server.py:127-133 | a client's write keeps what would be shown if it were undone |
| `RegisterMap.RestoreKeeps` | owen_gateway/modbus_server.py:252-260 | restoring one of several writes in flight keeps what is shown |
| `RegisterMap.ShownCellsHold` | owen_gateway/modbus_server.py:79-99 | where nothing is in flight or stale the cells hold what is shown |
| `Health.HealthInvariant` | owen_gateway/service.py:779-788 | on every history a point is failed exactly from F failures in a row on and fewer than R cycles are left to skip; that only failed points are skipped, too, holds throughout exactly if no write was kept and no reply accepted while cycles were left to skip |
| `Health.StepKeepsExactly` | owen_gateway/service.py:560-562 | of all health events exactly two kinds leave a healthy point that is skipped: a kept write and an accepted reply, empty or not, while cycles are left to skip |
| `Health.WriteLeavesSkips` | owen_gateway/service.py:560-562 | for every F and R: a write kept right after a fault or a failed recovery attempt clears the failures, and the point is still passed over R-1 times |
| `Health.RecoverySchedule` | owen_gateway/service.py:183-200 | a point that fails every attempt is exchanged in cycles 1..F and then exactly in F+R, F+2R, and so on |
| `HealthRuns.HealthRefines` | owen_gateway/service.py:183-365 | each record in a run of the gateway is the health machine run on the events of the points of its name, an exchange counting when its reply is taken, not when it is begun |
| `Replies.ReplyIsRecorded` | owen_gateway/service.py:203-373 | for every exchange: device and gateway count a value, a timeout or a protocol error, the gateway an I/O failure among its timeouts, exactly if the exchange is one; the point's record, its cached value and the poller's counts and error number follow from the exchange alone, and nothing else changes |
| `Replies.OneOfFive` | owen_gateway/service.py:203-373 | every exchange is exactly one of a value, an empty reply, a timeout, a protocol error and an I/O failure |
| `Replies.SkipIsRecorded` | owen_gateway/service.py:183-200 | passing over a point takes one from its cycles to skip and counts a failure of the cycle, and changes no counter, value or error |
| `Replies.CloseIsRecorded` | owen_gateway/service.py:377-419 | closing a device counts a cycle for it and the gateway, records the cycle's error for both, and starts the poller's counts anew |
| `Replies.DeviceCountersTellTheRun` | owen_gateway/service.py:262-419 | in every reachable state a device's counters are the numbers of its values, timeouts, protocol errors and closed cycles in the run, modulo 65536 |
| `Replies.GatewayCountersTellTheRun` | owen_gateway/service.py:262-419 | so are the gateway's, whose timeouts count the I/O failures too |
| `HealthRuns.AlwaysAskedWhenDue` | owen_gateway/service.py:183-203 | with a name on one line only, whenever a reply of such a point is awaited no cycle is left to skip, kept writes included |
| `HealthRuns.HealthIsSound` | owen_gateway/service.py:183-365 | the health invariant in every reachable state; without kept writes and with the name on one line only, just failed points are skipped |
| `HealthRuns.RecoveryScheduleInRuns` | owen_gateway/service.py:183-203 | in every run, a point with its name on one line whose exchanges all failed so far is asked next exactly if its next cycle is one of 1..F, F+R, F+2R, and so on, is passed over exactly otherwise, and is waited for only in such a cycle |
| `SharedNames.OnlyFailedAreSkippedExactly` | owen_gateway/service.py:183-203 | for every name: in all runs without kept writes only failed points of it are passed over, exactly unless R is at least 2 and one of its points can be asked while another is on a different line |
| `SharedNames.RelapseRun` | owen_gateway/service.py:183-242 | for any two such points the run that ends with a healthy point to be passed over |
| `SharedValues.SharedNameDecides` | owen_gateway/service.py:252-261 | registers that agree with the cached value keep agreeing through every reply of another point exactly if it has another name, cannot be asked, or is a `raw` twin of a bool point that is on |
| `SharedValues.OnlyNamesAgreeInRuns` | owen_gateway/service.py:252-261 | where all points can be asked, a spared point's registers agree with its cached value throughout every run exactly if no other point has its name |
| `Status.UniformAggregate` | owen_gateway/service.py:676-686 | a status other than degraded is aggregated exactly from a uniform list |
| `Status.AggregateSays` | owen_gateway/service.py:676-686 | an aggregate is 1 exactly if all of some are well, 4 exactly if all of some answer garbage, 3 exactly if all are offline or there is none, else 2 |
| `Status.TwoLevelsAreFlat` | owen_gateway/service.py:400-424 | aggregating lines first differs from aggregating all devices exactly when some line is empty, some device exists, and all devices are OK or all are in protocol error |
| `StatusHierarchy.LinesAlwaysAggregate` | owen_gateway/service.py:400-409 | in every reachable state a line's status is the aggregate of its devices' statuses |
| `StatusHierarchy.GatewayStatusIsFlat` | owen_gateway/service.py:421-424 | in every reachable state the gateway's status differs from the aggregate over all devices exactly in that case, said of the lines and devices of the configuration |
| `StatusHierarchy.RecordsAlwaysInRange` | owen_gateway/service.py:378-391 | statuses stay among the four defined ones and masks within eight bits |
| `StatusHierarchy.FatesAreCounted` | owen_gateway/service.py:179-181 | a poller's local counts are exactly those of the fates of the points passed in this cycle |
| `StatusHierarchy.DeviceStatusClassifiesItsCycle` | owen_gateway/service.py:378-391 | closing a device records 1 exactly if no point's exchange failed, 4 exactly if all were protocol errors, 3 exactly if all failed and not all so, else 2, and the number of the last failed attempt's error |
| `StatusHierarchy.RecordsTellTheLastCycle` | owen_gateway/service.py:377-419 | in every reachable state a device's status and error are those of its last closed cycle, the gateway's error that of the cycle closed last on any line; offline and none before the first |
| `LogicUnit.MaskBit` | owen_gateway/service.py:476-498 | bit i of the mask is unit i's output |
| `LogicUnit.ComputeMask` | owen_gateway/service.py:472-498 | the loop computes the mask below 256 whose bit i is what unit i's mode makes of its inputs and its own previous bit |
| `LogicUnit.OutputFollowsMode` | owen_gateway/service.py:748-776 | a unit is on below or above the band with memory inside (1, 2), exactly if the value is nearer to the set point than the hysteresis (3) or farther (4), and off in other modes or without a value, set point or mode |
| `LogicUnit.MaskIsIdempotent` | owen_gateway/service.py:472-498 | evaluating again on unchanged inputs changes nothing, in every mode |
| `LogicUnit.LastExitLaw` | owen_gateway/service.py:758-771 | in the hysteresis modes a unit is on exactly when the last sample outside the band, or missing, switched it on |
| `LogicMasks.MaskFollowsChannels` | owen_gateway/service.py:445-498 | bit i of a device's new mask is what unit i's mode makes of the channel at address slave id + i and of the bit's own previous value |
| `LogicMasks.MaskIsStable` | owen_gateway/service.py:445-506 | an unchanged channel keeps its output when the mask is published again |
| `LogicMasks.PublishingMaskTwice` | owen_gateway/service.py:499-506 | publishing a mask twice in a row changes nothing |
| `LogicMasks.InputsComeFrom` | owen_gateway/service.py:456-485 | each input comes from the device's point for its parameter at the channel's address, whatever value it has: hysteresis in absolute value or zero, the mode without its fraction |
| `LogicMasks.MissingValuesSwitchOff` | owen_gateway/service.py:477-488 | without a value of a measuring point, a set point or a mode, because the point is missing or has none, a unit is off |
| `LogicRuns.UnitRefines` | owen_gateway/service.py:445-506 | in every reachable state bit i of a device's mask is the unit evolved over its own evaluations in the run, at the device's cycle ends and after kept writes to it |
| `LogicRuns.LastExitInRuns` | owen_gateway/service.py:445-506 | in every reachable state, while a unit's settings stay the same its bit is on exactly when the last evaluation outside the band, or without a value, switched it on, else it is what it was |
| `LogicRuns.BandInRuns` | owen_gateway/service.py:445-506 | in every reachable state a bit last evaluated in mode 3 is on exactly if the value was nearer to the set point than the hysteresis, in mode 4 exactly if farther, whatever it was before, and off in any mode but 1 to 4, without a value, set point or mode, and before the first evaluation |
| `Telemetry.ReplyIsShown` | owen_gateway/service.py:224-345 | after a reply the channel status cell holds the point's new status, and the time mark cell the last two of six payload bytes that came with a value; cells past the end of a block included |
| `Telemetry.SkipIsShown` | owen_gateway/service.py:185-191 | the channel status cell of a point passed over holds failed; cells past the end of a block included |
| `Telemetry.TelemetryIsPublished` | owen_gateway/service.py:410-418 | closing a device leaves its counters and the gateway's in their telemetry registers |
| `Telemetry.TelemetryDecides` | owen_gateway/modbus_server.py:286-340 | the five telemetry values can be read back exactly when their addresses differ, which the validator does not check |
| `TelemetryRuns.TelemetryFollowsRuns` | owen_gateway/service.py:393-434 | in every reachable state a device's five telemetry registers hold its counters as its cycle last ended, the service slave's the gateway's as any cycle last ended, zeros before, if the addresses differ and no line, mask or hidden metadata register is among them |
| `TelemetryRuns.ServiceTelemetryIsPrivateExactly` | owen_gateway/config.py:183-222 | nothing else is published to the service slave's telemetry registers exactly if no line register is among them |
| `TelemetryRuns.DeviceTelemetryIsPrivateExactly` | owen_gateway/config.py:183-222 | nor to a device's exactly if neither register 48 nor metadata of its unpublished points is |
| `TelemetryRuns.MarkFollowsRuns` | owen_gateway/service.py:256-261 | in every reachable state a time mark register of the block holds the mark of the last good reply that carried one, if nothing else is published to it |
| `TelemetryRuns.MarkSparedExactly` | owen_gateway/config.py:303-335 | exactly the time mark registers to which nothing else is published |
| `Steps.StepKeepsShown` | owen_gateway/service.py:170-603 | a step that publishes nothing on some registers keeps what they show, client writes and restores in between included |
| `ChannelStatus.ChannelStatusHolds` | owen_gateway/service.py:183-345 | in every run, kept writes included, in which no client writes the register: a channel status register that the block has holds failed if the point's last own event passed it over, else the status recorded then |
| `ChannelStatus.ChannelStatusAgrees` | owen_gateway/service.py:183-345 | without kept writes to the point that register of the block always agrees with the point's record |
| `ChannelStatus.SkipAgreesExactly` | owen_gateway/service.py:183-200 | passing over leaves register and record in agreement exactly when the record says failed, which after a kept write it does not |
| `ChannelStatus.StatusSparedExactly` | owen_gateway/config.py:303-335 | in an accepted configuration nothing else is published to a channel status register exactly when it lies off the point's value and time mark, register 48 and the metadata of unpublished points |
| `Telemetry.ErrorCodesAgree` | owen_gateway/service.py:709-718 | after a reply the poller's error is the code derived again from the frame for a protocol error, 1 for a timeout, 5 for an I/O failure, and unchanged for a value or an empty reply |
| `GatewayService.ExchangeWithRetries` | owen_gateway/service.py:637-669 | at most retries + 1 exchanges, the first success is returned, a fault only when all failed |
| `GatewayService.VerifyWrittenValue` | owen_gateway/service.py:605-635 | of three read-backs made until one confirms the first confirming value is returned, else the last fault after all three |
| `GatewayService.OwenGatewayService.constructor` | owen_gateway/service.py:63-100 | all records at their defaults |
| `GatewayService.OwenGatewayService.Startup` | owen_gateway/service.py:104-125 | start-up publishes offline statuses and zero telemetry for every slave |
| `GatewayService.OwenGatewayService.SkipCurrentPoint` | owen_gateway/service.py:183-200 | passing over a failed point is the step `SkipPoint` |
| `GatewayService.OwenGatewayService.StartExchange` | owen_gateway/service.py:183-203 | asking a point is the step `ExchangeStart`, possible exactly if no cycle is left to skip |
| `GatewayService.OwenGatewayService.TakeValue` | owen_gateway/service.py:243-268 | a value is kept, published, and counted for device and gateway |
| `GatewayService.OwenGatewayService.TakeEmptyReply` | owen_gateway/service.py:224-242 | an empty reply disables the channel and clears the value |
| `GatewayService.OwenGatewayService.CountFailure` | owen_gateway/service.py:286-299 | a failure is counted before its status is decided |
| `GatewayService.OwenGatewayService.TakeTimeout` | owen_gateway/service.py:286-315 | a timeout counts for device and gateway |
| `GatewayService.OwenGatewayService.TakeProtocolError` | owen_gateway/service.py:316-346 | a protocol error counts for device and gateway and sets its error code |
| `GatewayService.OwenGatewayService.TakeIoFailure` | owen_gateway/service.py:347-373 | any other exception counts as a timeout of the gateway only |
| `GatewayService.OwenGatewayService.TakeReply` | owen_gateway/service.py:201-373 | taking a reply into account is the step `PointReply` |
| `GatewayService.OwenGatewayService.PublishLogicUnitMasks` | owen_gateway/service.py:445-506 | the new mask is published and remembered |
| `GatewayService.OwenGatewayService.RecordResult` | owen_gateway/service.py:393-443 | device, line and gateway records are updated and published |
| `GatewayService.OwenGatewayService.FinishDevice` | owen_gateway/service.py:377-391 | closing a device's cycle is the step `DeviceEnd` |
| `GatewayService.OwenGatewayService.PollBusOnce` | owen_gateway/service.py:170-391 | one undisturbed cycle of a line is a run of possible events, one turn for each point, with the reply given for it, and one for each device, after which the next cycle starts |
| `GatewayService.OwenGatewayService.ReadRegisters` | owen_gateway/modbus_server.py:127-128 | reads the previous content of the registers a write covers |
| `GatewayService.OwenGatewayService.AcceptClientRegisters` | owen_gateway/modbus_server.py:127-133 | a client's register write is the step `ClientRegisters` |
| `GatewayService.OwenGatewayService.AcceptClientCoils` | owen_gateway/modbus_server.py:194-216 | a client's coil write is the step `ClientCoils`; no handler watches coils |
| `GatewayService.OwenGatewayService.RestoreHoldingRegisters` | owen_gateway/modbus_server.py:252-260 | restoring writes the previous content back and ends the handler |
| `GatewayService.OwenGatewayService.HandleHoldingWrite` | owen_gateway/service.py:508-603 | a write handler is the step `HandlerEnd` |
| `GatewayService.OwenGatewayService.KeepVerifiedValue` | owen_gateway/service.py:560-573 | a verified value is kept, published, and the mask follows |
| `Conservation.SumCounts` | owen_gateway/service.py:672-673 | counting one event at one device raises the sum by one modulo 65536 |
| `Conservation.OutcomeConserves` | owen_gateway/service.py:262-364 | taking a reply into account keeps gateway counters and device sums together |
| `Conservation.CountersAreConserved` | owen_gateway/service.py:262-411 | in every reachable state each gateway counter is the sum of the devices' counters modulo 65536, timeouts plus generic I/O failures |
| `Layout.ValueIsPrivateExactly` | owen_gateway/config.py:303-335 | in an accepted configuration no other publish can hit a point's value registers exactly when its own metadata, register 48 and the metadata of unpublished points lie off them |
| `Layout.RegionsArePrivateExactly` | owen_gateway/config.py:303-335 | in an accepted configuration every value, status, line and mask register has one owner and nothing else is published to it, exactly if the points are laid out so and registers 48, 10 and 11 are no service registers |
| `Slots.KeysOfPoints` | owen_gateway/service.py:90-93 | the devices known at run time are those of the configured points |
| `CacheAgreement.OutcomeAgrees` | owen_gateway/service.py:252-261 | taking any reply into account keeps registers and cached state in agreement |
| `CacheAgreement.SkipAgrees` | owen_gateway/service.py:183-200 | passing over a point keeps them in agreement |
| `CacheAgreement.CloseAgrees` | owen_gateway/service.py:377-443 | closing a device keeps them in agreement |
| `CacheAgreement.ClientWriteAgrees` | owen_gateway/modbus_server.py:127-133 | a client's write keeps them in agreement, up to the write in flight |
| `CacheAgreement.HandlerAgrees` | owen_gateway/service.py:508-603 | the end of a handler, kept or refused, keeps them in agreement |
| `Reachable.StartAgrees` | owen_gateway/service.py:104-125 | they agree after start-up |
| `Reachable.AlwaysAgreed` | owen_gateway/service.py:170-603 | they agree in every reachable state |
| `Guarantees.AlwaysDecoded` | owen_gateway/service.py:243-252 | in every reachable state a cached value was brought by an event of the run, a reply to a point of its name or a read-back after a kept write, as what that frame means, and has been the cached value ever since |
| `Guarantees.CacheAgreesWithRegisters` | owen_gateway/service.py:252-261 | in every reachable state of an accepted configuration, a published point's registers hold exactly its cached value, if its name is unique, its registers are spared, and its type pair always publishes; except under a write in flight, whose previous content then is the value, or where such a write overlapped other writes |
| `Guarantees.ClientsReadTheCachedValue` | owen_gateway/service.py:252-261 | under the same conditions, where no write is or was in the way, a client that puts the registers together reads the cached integer, the cached single, or whether the cached value is zero |
| `Guarantees.LineIsShown` | owen_gateway/service.py:435-443 | in every reachable state a line register of its own holds the aggregate of the line's devices |
| `Guarantees.GatewayIsShown` | owen_gateway/service.py:421-424 | in every reachable state the gateway's status registers hold the aggregate of the lines' aggregates |
| `Guarantees.DeviceIsShown` | owen_gateway/service.py:412-412 | in every reachable state a device's status registers hold its status |
| `Guarantees.MaskIsShown` | owen_gateway/service.py:499-506 | in every reachable state register 48 of a device, if it is its own, holds its logic mask |
| `Guarantees.StatusesAreShown` | owen_gateway/service.py:412-443 | under an acceptable layout all of these hold at once, for every line, device and mask |
| `ValidatorGaps.MetadataDecides` | owen_gateway/modbus_server.py:34-57 | metadata of a point, the same or another, spares a point's value whatever it says exactly when they share no register, for all four register types |
| `ValidatorGaps.MaskDecides` | owen_gateway/service.py:499-506 | a device's mask spares a holding-register value whatever it is exactly when register 48 is none of the value's |
| `ValidatorGaps.SparedExactly` | owen_gateway/config.py:323-335 | what cache agreement asks of a point's registers holds exactly when no metadata of the configuration and no mask can overwrite its value |
| `ValidatorGaps.StatusDecides` | owen_gateway/config.py:173-182 | publishing the four statuses works exactly when status registers are off or their type has registers |
| `Witnesses.OwnStatusOverwritesValue` | owen_gateway/config.py:323-335 | an accepted configuration and a run after which a value's register holds the point's own channel status |
| `Witnesses.CloseWritesMask` | owen_gateway/service.py:499-506 | in every configuration that keeps its status and telemetry registers off register 48, and in every state, closing a device leaves its new mask in register 48, whatever was there |
| `Witnesses.MaskOverwritesValue` | owen_gateway/config.py:303-335 | an accepted configuration and a run after which the register of a cached 0x1234 holds a mask |
| `Witnesses.HiddenStatusOverwritesValue` | owen_gateway/config.py:303-305 | an accepted configuration and a run after which a value's register holds the channel status of an unpublished point |
| `Witnesses.HiddenStatusEscapes` | owen_gateway/modbus_server.py:343-360 | an accepted configuration and a run after which a block created with 50 registers has 51, the last of them an unpublished point's channel status that was meant for register 100 |
| `Witnesses.SharedNameDisagrees` | owen_gateway/config.py:227-336 | an accepted configuration with two points of one name and a run after which the first one's register is not the cached value |
| `Witnesses.SharedLinesRelapse` | owen_gateway/service.py:183-203 | an accepted configuration with one name on two lines and a run without kept writes after which the point is well and to be passed over |
| `Witnesses.KeptWriteIsPassedOver` | owen_gateway/service.py:183-200 | an accepted configuration and a run after which a kept write's point is recorded as well and its channel status register says failed |
| `Witnesses.MisfitIsCached` | owen_gateway/service.py:252-261 | an accepted configuration and a run after which a value is cached that has no registers |
| `Witnesses.SharedTelemetryLoses` | owen_gateway/config.py:183-196 | an accepted configuration with one address for all telemetry and a run after which its registers cannot be right |
| `Witnesses.WideAddressCannotBePolled` | owen_gateway/protocol.py:60-69 | an accepted point on an 8-bit line that cannot be polled although its name hashes |
| `Witnesses.EmptyLineDegrades` | owen_gateway/service.py:421-424 | an accepted configuration and a run after which the only device is OK and the gateway's status is not the aggregate over all devices |
| `Witnesses.ConfirmedWriteIsRefused` | owen_gateway/service.py:536-558 | an accepted configuration and a write that every read-back confirms and the gateway refuses, registers restored, because its reply has the request bit set |
| `Witnesses.UnpublishableStatusIsAccepted` | owen_gateway/config.py:173-182 | an accepted configuration whose status type has no registers, so that not even the first status can be encoded |
| `WriteHandling.LookupIsExact` | owen_gateway/service.py:698-706 | a write finds a writable point exactly when it covers precisely the point's registers; no writable point is lost |
| `WriteHandling.NoSecondAnswer` | owen_gateway/service.py:698-706 | no two writable points answer to the same registers |
| `WriteHandling.GroupWritablePoints` | owen_gateway/service.py:698-706 | the dictionary answers every lookup as the last writable point with that key |
| `Confirmation.OutcomeIsTaken` | owen_gateway/service.py:508-603 | a write ends with the value of the first read-back near the number its registers say, if that number has a payload, the write was answered, and the answer, if a frame, is a non-empty reply of the point's parameter; else in a fault |
| `Confirmation.VerifyTakesFirst` | owen_gateway/service.py:605-635 | verification returns the value of the first read-back that is a reply within 51 thousandths of the written float, or equal to the written integer |
| `Confirmation.FirstConfirmingIs` | owen_gateway/service.py:605-635 | the value taken is that of a read-back which confirms, none before it does; nothing is taken exactly if none confirms |
| `WriteHandling.KeptExactly` | owen_gateway/service.py:526-558 | a write is kept exactly when its registers say a number that has a payload, it is answered, a read-back is within 51 thousandths or equal, and only then the answer is found to be none or a non-empty reply of the parameter |
| `WriteHandling.KeptOnDelivery` | owen_gateway/serial_client.py:69-100 | on the line: a write's reply cut short is never held against it, a complete one exactly when it is wrong, and silence always |
| `WriteHandling.WriteIsAllOrNothing` | owen_gateway/service.py:508-603 | a handler restores the registers and touches nothing else, or caches and publishes the first confirming value, within 51 thousandths of a written float or equal to a written integer, and then changes no other record, counter or register but the point's channel status and its device's mask; publishing after verification cannot fail |
| `WriteHandling.RefusedWriteLeavesNoTrace` | owen_gateway/service.py:584-603 | a write whose handler refuses it with nothing in between leaves every register and record as before |
| `BusLock.BusExclusivity` | owen_gateway/service.py:529-537 | in every interleaving nothing else is exchanged on a line between a write and the last of its at most three read-backs; read-backs and retries are numbered without a gap, read-backs only after a write that succeeded; and requests and verifications stop at the first success |
| `BusLock.OneTaskAtALine` | owen_gateway/service.py:637-669 | at most one poller or handler is at a line at any moment |
| `BusLock.RunsStayOrderly` | owen_gateway/service.py:508-669 | the lock invariant of all interleavings |
| `Interleaving.RunsBelongTogether` | owen_gateway/service.py:508-669 | in every joint run of records and lines the records are those of a run of the gateway in which every event was possible; before each reply the line's last exchange was that request's success or its last failure, before each kept write a successful read-back of its handler, with nobody else on the line since the handler wrote |
| `Interleaving.EveryRunArises` | owen_gateway/service.py:165-669 | every reachable state of the gateway is that of a joint run |
| `Interleaving.MoveIsEnabled` | owen_gateway/service.py:508-669 | whatever a task does at a line, the event it means for the records is possible, and the other way round |
| `StableSort.SortSorts` | owen_gateway/config_tools.py:411-411 | sorting orders points by line, device and address |
| `StableSort.SortedByLineDeviceAddress` | owen_gateway/config_tools.py:411-411 | in a sorted list lines do not decrease, on one line device numbers do not, in one device addresses do not |
| `StableSort.FirstDifference` | owen_gateway/config_tools.py:411-411 | line names are compared by their first different character, a proper prefix first |
| `StableSort.SortElements` | owen_gateway/config_tools.py:411-411 | sorting only rearranges |
| `StableSort.SortIsStable` | owen_gateway/config_tools.py:411-411 | points with equal keys keep their order |
| `StableSort.SortedStableIsUnique` | owen_gateway/config_tools.py:411-411 | sorted and stable determine the list |
| `ConfigEdit.AppendTrm138Points` | owen_gateway/config_tools.py:640-698 | three points are appended for each channel |
| `ConfigEdit.NextDeviceNumber` | owen_gateway/config_tools.py:627-633 | the least free device number, if any is free |
| `ConfigEdit.FindDevice` | owen_gateway/config_tools.py:713-736 | exactly one matching device is found, none or several are refused |
| `ConfigEdit.ConfigDocument.AddTrm138Device` | owen_gateway/config_tools.py:365-417 | the list becomes the sorted list with the new device, or stays on any refusal |
| `ConfigEdit.ConfigDocument.RemoveTrm138Device` | owen_gateway/config_tools.py:436-467 | exactly the device's points are removed, or nothing |
| `ConfigEdit.ConfigDocument.UpdateTrm138Channels` | owen_gateway/config_tools.py:470-529 | the device is rebuilt on the base address found, or nothing changes |
| `EditChoices.NameOfLine` | owen_gateway/config_tools.py:609-624 | a line goes by its newer name unless only the older one is known |
| `EditChoices.MatchedExactly` | owen_gateway/config_tools.py:713-736 | a device is picked exactly if it is the only one of the line with the number, smallest address and tag asked for |
| `EditChoices.AddedExactly` | owen_gateway/config_tools.py:365-417 | a device can be added exactly if its line is one of two and known, its channels are some of eight, none of its addresses is taken on the line and one of 32 numbers is free, of which it gets the smallest |
| `EditChoices.RemovedLeaves` | owen_gateway/config_tools.py:436-467 | a removal leaves exactly the points that are not the device's, sorted if they were |
| `EditChoices.UpdatedExactly` | owen_gateway/config_tools.py:470-529 | channels can be changed exactly if one device is found, they are some of eight, and it has a measuring point; the new base is the smallest measuring address |
| `EditLaws.AddThenRemove` | owen_gateway/config_tools.py:402-467 | on a sorted list adding a device and removing it restores the list exactly |
| `EditLaws.AddThenRemoveByNumber` | owen_gateway/config_tools.py:402-467 | every device that can be added to a sorted list can be removed by the number it was given, which restores the list |
| `EditLaws.FoundBase` | owen_gateway/config_tools.py:499-503 | the base address found is that of the smallest channel present |
| `EditLaws.SecondUpdateAlone` | owen_gateway/config_tools.py:490-523 | two updates by device number are the second alone exactly when the first includes channel 1 |
| `EditLaws.SlaveAfterUpdate` | owen_gateway/config_tools.py:499-516 | after an update a device is on a slave id exactly when that was the smallest address of its measuring points |
| `EditLaws.KeepsSlaveExactly` | owen_gateway/config_tools.py:499-516 | an update by number keeps the slave id of a device made by the tools exactly when it has channel 1 |
| `EditValidity.LayoutIsDisjoint` | owen_gateway/config_tools.py:839-852 | values, statuses and set points of a device's channels share no register |
| `EditValidity.RebuiltIsAccepted` | owen_gateway/config_tools.py:640-698 | a rebuilt device is accepted exactly when its base address is a slave id in 2..247 no other device has |
| `EditValidity.AddIsAccepted` | owen_gateway/config_tools.py:365-417 | an addition is accepted exactly when its base address can be a slave id and is not one yet |
| `EditValidity.UpdateIsAccepted` | owen_gateway/config_tools.py:470-529 | the same for an update |
| `EditValidity.RemoveIsAccepted` | owen_gateway/config_tools.py:436-467 | a removal is always accepted |
| `ToolBuilt.NamesTell` | owen_gateway/config_tools.py:648-690 | equal point names mean the same base address, channel and kind |
| `ToolBuilt.RebuiltIsMadeByTools` | owen_gateway/config_tools.py:640-698 | edits keep all points in the tools' form with distinct names |
| `ToolBuilt.FirstDevice` | owen_gateway/config_tools.py:365-417 | a first device can be added on any base address; the result is accepted, and agreement applies, exactly for 2..247 |
| `ToolBuilt.ToolBuiltIsLaidOut` | owen_gateway/config_tools.py:640-698 | an accepted configuration built with the tools meets every condition of the cache agreement |
| `ToolDevices.ChannelMap` | owen_gateway/config_tools.py:640-698 | channel c of a device is read into registers 14 + 2c and 15 + 2c with its status in 39 + c, a write to exactly 54 + 2c and 55 + 2c is for its set point, and its mode is read without being published, all at the channel's own address |
| `ToolDevices.UnitReadsItsChannel` | owen_gateway/service.py:456-485 | a logic unit of a device made by the tools compares its own channel's value with its own set point, in its own alarm point's mode, without hysteresis |
| `ToolDevices.BandIsEmpty` | owen_gateway/service.py:772-775 | so in every reachable state a unit of such a device is off in mode 3, and on in mode 4 unless the value was the set point exactly |

## Left out

- Serial ports, the Modbus server, the event loop and threads: fragments, client writes and
  exchange results are arbitrary inputs, the lock is a field of a state machine.
- Opening, closing, shutdown and the order of start-up: runs begin after start-up and do
  not end.
- Logging, diagnostics, sleeps and wall-clock time: they carry no state.
- `Payload.EchoPassesExactlyWhenSurviving`: the text form of a float is any decimal within
  half a unit of its seventh significant digit; rounding modes, NaN, infinities and signed
  zero are not modelled.
- `Guarantees.CacheAgreesWithRegisters`: values of `raw` points are excluded by the
  condition on type pairs, except for the bool type.
- `GatewayService.OwenGatewayService.PollBusOnce`: describes a cycle nothing interrupts;
  interleaved cycles are the runs of `Gateway`.
- `Telemetry.ReplyIsShown`, `Telemetry.SkipIsShown`: do not model the size of a block: for a
  point that is not published the cell may lie past its end, where the word makes the block
  grow instead (`RegisterStore.UnpublishedMetadataEscapes`).
- The map of cells ignores that a block has grown; a client reading registers past the size
  a block was created with is not described.
- Point and device records are values in maps from names and keys, not shared objects.
- `Gateway.StatusWrites`: a status type without registers publishes nothing, where the
  program raises at its first status (`owen_gateway/service.py`, line 106) and never polls.
- `ValidatorGaps.SparedExactly`: quantifies over all metadata words and masks, not over those
  the configured points can bring about; that a value not spared is overwritten in a run is
  shown for configurations in `Witnesses`.
- `Gateway.WriteOutcome` takes the results of the write and of three read-backs as given,
  also those a handler would not make; `Interleaving` makes exactly those it would.
- `raw` values in logic units, and parameter names outside ASCII.
- Loading JSON, legacy documents, adding and removing lines, selecting a device by a tag
  that still needs normalising, and all text output.
- The command line, the probe, and the diagnostic Modbus client.
