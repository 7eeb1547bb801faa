# HID Remapper firmware: a verified model

HID Remapper sits between USB input devices and a PC and remaps what they send. On the two-board variant, board B is
the USB host, board A the USB device, and a UART joins them. This project models the parts of the firmware that keep
state over time and states what they promise, over all inputs and all runs.

Check everything with `dafny verify dfyconfig.toml --resource-limit 2000000 --verification-time-limit 0`.

## What is modelled

**Outgoing reports** (`ReportBits`, `ReportBytes`, `ReportPipeline`, `PipelineRuns`, `PipelineOrder`,
`PipelineMerging`, `ReportFields`, `ReportQueue`). Mapped movement is kept in thousandths and moved, whole units at a
time, into bit fields of a byte report. At the end of a frame each report is merged into the newest queued one, or
takes a place in a ring of eight, or waits if the ring is full; the head leaves when the endpoint takes it.
`ReportPipeline` gives these steps on values, with field access as a parameter whose laws `ReportFields` proves of
real bit fields; `PipelineRuns` has the theorems on movement over runs, and `PipelineOrder` those on buttons and keys,
and `PipelineMerging` says when a report is merged, from its bytes and fields alone; `ReportQueue` is the firmware's
buffers, ring and loops, in place, proved to take those steps. The source's claim that no motion is lost or invented
holds exactly when nothing else is written into a relative field and the field can hold what is moved into it
(`NoMotionLost`).

**The serial link** (`Crc32`, `CrcCheck`, `Slip`, `SerialPort`, `SerialLink`, `WireFormat`). Frames are SLIP-encoded
(RFC 1055) with a CRC-32 trailer (section 8 of RFC 1952). The sender has a ring of 512 bytes, the receiver a buffer of
544 that it may leave and resume at any byte. `SerialLink` runs both with a UART that is writable, or not, at any
moment.

**The NumLock filter** (`NumLockFilter`, `NumLockWrappers`). Seven stages withhold, replay or discard NumLock taps
that a receiver wraps around keypad keys. The runs are timed observations and mapping frames in any order.
`NumLockFilter` has the filter and the books of presses; `NumLockWrappers` says which runs are removed and what the
others tell, without its stages.

**Backpressure on board B** (`HidInputs`, `HidArming`, `HidOvertaking`, `HidHost`, `LinkedBoards`). Every HID
interface has a slot for one report that the UART refused, is re-armed only when its slot is empty, and held reports
are flushed in turn. The environment completes a transfer only once for each time it was armed, and may answer every
request either way. `LinkedBoards` puts the serial link in the UART's place, so that its answers are the transmit
ring's, and follows reports to board A's callback.

**Expressions** (`ExprOps`, `ExprArithmetic`, `ExprEval`, `ExprRun`, `ExprCache`, `ExprSteady`, `ExprLaws`, `ExprVm`).
The validator, the stack evaluator on a list and on the sixteen-slot array, and the state-slot pointers that elements
remember between frames. Arithmetic is 32-bit with wrap-around written out. `ExprEval` takes it as a parameter
(`Alu`), so that its results hold for any; `AluOf` is the firmware's. `ExprLaws` states what each operation leaves, by
its number in a configuration. MOD has no guard against zero: an evaluation that meets one ends as `Divided`.

**Descriptors** (`DescriptorLayout`, `UsagePlacement`, `DescriptorParser`, `LongReports`, `PipelineLayout`). Items of
a report descriptor (section 6.2.2 of USB HID 1.11), the parser's registers, its sixteen-bit cursors and its usage
maps.

**Configuration** (`ConfigCodec`, `ConfigLayout`, `ConfigStore`, `ConfigReader`, `MacroPaging`, `ExpressionPaging`,
`UsageRanges`). The 4096-byte image of version 18, the commands that read macros and expressions out in pages and
append to them, and the compression of usage ranges into runs.

`Bytes`, `Sequences`, `Runs` and `Rings` are shared: little-endian numbers, concatenation, runs of a state machine,
and ring buffers.

## Where the code promises less than it seems

- Motion: a sum that a field's width cannot hold wraps (`AxisWrapsAround`), and a queued macro that lists a relative
  usage writes a 1 straight into its field, so that every frame of the macro invents a unit or overwrites what a full
  ring left there (`MacroInventsMotion`, `MacroInjects`). `NoMotionLost` is the exact condition.
- Order of states: a frame that finds the ring full hands over only part of its reports. `HandsOverAllExactly` is the
  exact condition.
- NumLock: NumLock and keypad going down in one observation, in the stage that waits for the keypad with a press
  withheld, lose that press (`SimultaneousEdgesLosePress`). `ObservationConserves` is the exact condition.
- A dropping write compares sixteen bits of its frame's length; a frame of 65536 bytes or more can block
  (`AcceptedExactly`). The firmware writes none so long.
- Overtaking: one report for each other interface is the bound only for interfaces that stay mounted. One that is
  unmounted and comes back may get a slot that is still to be visited, and overtake again
  (`ComingBackOvertakesTwice`); `InterfaceOvertaking` is the bound for all runs.
- Remembered slot pointers are right when each element goes on looking the same usage up (`SteadyIsTransparent`), as
  with literal addresses. The validator does not ask for that, and an address that changes goes stale
  (`OtherAddressesGoStale`, `MemoryShows`).
- Descriptors: a report of 65536 bits or more wraps its cursor, and fields can overlap (`LongReportsOverlap`). Pop is
  passed over, so that a report's length is the standard's only without it (`EndIsStandard`).
- Configuration: a macro of more than 255 entries, or with an entry of more than 255 usages, is persisted with success
  and not loaded again (`LongMacroIsLost`; `RoundTripOfReceived` is the exact condition). Of any configuration at all,
  also of those that no command can store - a debounce time that is not whole milliseconds below 256, a GPIO mode
  above 1, an operand on an operation that takes none - `RoundTripExactly` says when it survives.
- Macros: a zero usage ends its entry when the macro is read out and written back, and the macro without entries gets
  one (`RebuiltExactly` is the exact condition).
- Usage ranges: a range that starts at usage 0 is left out (`UnionKeptExactly` is the exact condition).

## Model

| member | source | states |
|---|---|---|
| `ReportBits.SetBitReads` | firmware/hid-remapper/firmware/src/remapper.cc:301-307 | a written bit reads back as written, every other bit is unchanged, and a position beyond the report is not written |
| `ReportBits.PutBitsOutside` | firmware/hid-remapper/firmware/src/remapper.cc:309-313 | `put_bits` changes no bit outside its field |
| `ReportBits.PutBitsFrame` | firmware/hid-remapper/firmware/src/remapper.cc:292-313 | writing one field leaves the value of every disjoint field unchanged |
| `ReportBits.PutBitsGet` | firmware/hid-remapper/firmware/src/remapper.cc:292-313 | what is written into a field inside the report reads back as the low bits of the number, for any number |
| `ReportBits.PutBitsMasked` | firmware/hid-remapper/firmware/src/remapper.cc:1328-1338 | writing a field that a mask leaves out changes nothing that the mask shows |
| `ReportBits.FieldClear` | firmware/hid-remapper/firmware/src/remapper.cc:315-327 | a field under a mask that shows nothing reads zero |
| `ReportBits.DecodeIsReading` | firmware/hid-remapper/firmware/src/hid_report_bits.h:6-16 | `sign_extend_hid_value` (or the cast to `int32_t`) of a field is the number whose two's complement the field holds, for every width from 1 to 32 |
| `ReportBits.FieldHolds` | firmware/hid-remapper/firmware/src/remapper.cc:1399-1408 | a number written to a field and read back is kept exactly when the field's width and signedness can represent it |
| `ReportBits.GetBitsOf` | firmware/hid-remapper/firmware/src/remapper.cc:292-299 | the loop over `get_bit` computes the field's value, lowest bit first |
| `ReportBits.PutBitsInto` | firmware/hid-remapper/firmware/src/remapper.cc:309-313 | in place, the loop over `put_bit` gives exactly the report with that field written and leaves the bytes beyond the report alone |
| `ReportBytes.ByteReads` | firmware/hid-remapper/firmware/src/remapper.cc:292-299 | the eight bits from a byte's start on are that byte's number: bit 0 is the lowest |
| `ReportBytes.FieldsJoin` | firmware/hid-remapper/firmware/src/remapper.cc:292-299 | a field is made of its parts, the first one lowest, so that fields of whole bytes are little-endian |
| `ReportPipeline.AggregateAdds` | firmware/hid-remapper/firmware/src/remapper.cc:1411-1425 | after `aggregate_relative`, every relative field of the report reads as the exact sum of its two values, none wrapped |
| `ReportPipeline.AggregateKeepsAbsolute` | firmware/hid-remapper/firmware/src/remapper.cc:1411-1425 | `aggregate_relative` leaves the absolute state of the queued report as it was |
| `ReportPipeline.MoveOneBalances` | firmware/hid-remapper/firmware/src/remapper.cc:2089-2104 | moving one usage's whole units into its field keeps 1000 x (field value + what the field could not keep) + remainder, for that usage and for every other one |
| `ReportPipeline.MoveOneKeepsState` | firmware/hid-remapper/firmware/src/remapper.cc:2089-2104 | moving movement touches the absolute state of no report |
| `ReportPipeline.MergedSum` | firmware/hid-remapper/firmware/src/remapper.cc:2146-2155 | a merge adds the working report's movement to the queue's, for its own usages only |
| `ReportPipeline.NotDueIsStill` | firmware/hid-remapper/firmware/src/remapper.cc:315-327 | a report that need not be sent holds no movement and the absolute state last queued |
| `ReportPipeline.QueueOneConserves` | firmware/hid-remapper/firmware/src/remapper.cc:2113-2186 | one report id's turn - merged, queued, or not needed and cleared - leaves each usage's movement in working reports and queue the same in sum |
| `PipelineRuns.MoveFromBalances` | firmware/hid-remapper/firmware/src/remapper.cc:2089-2104 | the whole accumulation loop balances for every usage, and every remainder is left below one unit |
| `PipelineRuns.FrameConserves` | firmware/hid-remapper/firmware/src/remapper.cc:2089-2187 | a mapping frame conserves each usage's movement, also when a full queue breaks off the loop |
| `PipelineRuns.RestIsTowardsZero` | firmware/hid-remapper/firmware/src/remapper.cc:2089-2104 | whole units are cut towards zero: a frame leaves less than a unit, on the side on which the movement was, and takes a multiple of a unit |
| `PipelineRuns.MotionIsAccountedFor` | firmware/hid-remapper/firmware/src/remapper.cc:1900-2243 | over every run of accumulations, writes of any bits into the reports (buttons, keys, macros), frames, and sends accepted or refused: everything accumulated, and 1000 x what was written straight into a relative field, is 1000 x (sent + queued + in the working report + lost to a field's width) + remainder |
| `PipelineRuns.ConservedExactly` | firmware/hid-remapper/firmware/src/remapper.cc:1900-2243 | what was accumulated, and nothing else, is what was sent, is queued, is in the working report or remains, exactly when as much was written straight into the field as its width lost; losses apart, exactly when the sum written there is 0 |
| `PipelineRuns.MotionIsConserved` | firmware/hid-remapper/firmware/src/remapper.cc:2089-2243 | movement is conserved all through a run exactly when every write leaves the field's value and every frame's sum is kept by the field |
| `PipelineOrder.ReplaceLast` | firmware/hid-remapper/firmware/src/remapper.cc:2146-2155 | a report taking its predecessor's place with the same id and state changes no id's sequence of states |
| `PipelineOrder.QueueOneFaithful` | firmware/hid-remapper/firmware/src/remapper.cc:2113-2186 | one report id's turn extends that id's sequence of absolute states, in sent and queued reports alike, by exactly the state handed over, repeats apart, and `prev_reports` keeps the last one |
| `PipelineOrder.StatesKeepTheirOrder` | firmware/hid-remapper/firmware/src/remapper.cc:2113-2243 | over every run, full ring or not, for each report id, the absolute states of sent and queued reports are those of the turns completed, in order, repeats left out |
| `PipelineOrder.FramesAreToldInOrder` | firmware/hid-remapper/firmware/src/remapper.cc:2113-2243 | over every run in which no frame finds the queue full, for each report id, sent and queued reports tell the same changes of absolute state, in the same order, as the working reports did at the frames: no press or release is lost, invented or swapped |
| `PipelineOrder.HandsOverAllExactly` | firmware/hid-remapper/firmware/src/remapper.cc:2113-2187 | a frame completes all its turns exactly when no report is due, or the ring is not full and has a place for each report due, one less if the first of them merges |
| `PipelineOrder.HandsOverInOrder` | firmware/hid-remapper/firmware/src/remapper.cc:2113-2187 | the turns that a frame completes hand over the working reports as they stood, in the order of the report ids |
| `PipelineOrder.FrameHandsOverEveryState` | firmware/hid-remapper/firmware/src/remapper.cc:2113-2187 | such a frame, and no other, hands over every report's absolute state as it stood when the frame ended |
| `PipelineMerging.DueExactly` | firmware/hid-remapper/firmware/src/remapper.cc:315-327 | a report needs to be sent exactly when some byte of it shows movement under the relative mask, or another state under the absolute mask than the one last queued |
| `PipelineMerging.MergesExactly` | firmware/hid-remapper/firmware/src/remapper.cc:2138-2142 | it is merged exactly when the newest queued report has its id and, byte by byte, its absolute state, and for every usage of the id the two values read add up to a number from its logical minimum to its maximum |
| `PipelineMerging.TakesPlaceExactly` | firmware/hid-remapper/firmware/src/remapper.cc:2122-2174 | with fewer than eight reports queued, a turn appends the working report exactly when it has news and cannot be merged, changes only the newest one when it is, and else leaves the queue alone; the working report is cleared to zeros, `prev_reports` is the appended report or as before, and nothing else changes |
| `PipelineMerging.FullExactly` | firmware/hid-remapper/firmware/src/remapper.cc:2123-2126 | a report with news overflows exactly when eight are queued, mergeable or not |
| `PipelineMerging.SteadyMotionTakesNoPlace` | firmware/hid-remapper/firmware/src/remapper.cc:2113-2243 | over any run in which the endpoint refuses and every report with news, in each frame, is one the newest queued report can take in, the queue stays as long as it was |
| `PipelineMerging.MovementIsOneReport` | firmware/hid-remapper/firmware/src/remapper.cc:2089-2187 | a pointer that moves by any units frame after frame, with unchanged buttons, a refusing endpoint and all partial sums in its logical range, takes up one queued report, which ends up holding the sum |
| `ReportFields.FieldIsLawful` | firmware/hid-remapper/firmware/src/remapper.cc:292-313 | a bit field with its masks and range in order has every property the pipeline relies on |
| `ReportFields.DescriptorIsLawful` | firmware/hid-remapper/firmware/src/remapper.cc:2089-2187 | so does a whole descriptor of pairwise disjoint fields |
| `ReportFields.LossExactly` | firmware/hid-remapper/firmware/src/remapper.cc:2099-2103 | moving loses something exactly when a whole unit is to be moved and the field's width cannot hold the sum |
| `ReportFields.FrameLosesExactly` | firmware/hid-remapper/firmware/src/remapper.cc:2089-2104 | the same for a frame from any world |
| `ReportFields.NoMotionLost` | firmware/hid-remapper/firmware/src/remapper.cc:2089-2243 | with real bit fields, no movement is lost or invented all through a run exactly when every write leaves the field as it was and every frame that moves whole units moves a sum that the field's width can hold |
| `ReportFields.MacroInjects` | firmware/hid-remapper/firmware/src/remapper.cc:2062-2066 | a macro that lists a relative usage writes a 1 over its field: that injects 1 less what the field held |
| `ReportFields.MacroInventsMotion` | firmware/hid-remapper/firmware/src/remapper.cc:2028-2187 | so, on any descriptor, one such macro and a frame send off a unit that nobody accumulated |
| `ReportFields.AxisWrapsAround` | firmware/hid-remapper/firmware/src/remapper.cc:2102-2102 | 200 units written to a signed 8-bit axis read back as -56: the range condition is needed |
| `ReportFields.WriteLeavesMotion` | firmware/hid-remapper/firmware/src/remapper.cc:2003-2022 | writing bits outside a relative field, as buttons and keys do, injects no movement into it |
| `ReportQueue.Read` | firmware/hid-remapper/firmware/src/remapper.cc:2096-2098 | reading a field in place and sign-extending it gives the field's number |
| `ReportQueue.ReportNeedsToBeSent` | firmware/hid-remapper/firmware/src/remapper.cc:315-327 | finds whether some byte holds movement or another state than the one last queued |
| `ReportQueue.DifferOnAbsolute` | firmware/hid-remapper/firmware/src/remapper.cc:1328-1338 | finds whether the masked states differ |
| `ReportQueue.SumsFit` | firmware/hid-remapper/firmware/src/remapper.cc:1395-1409 | finds whether every field's sum stays in its logical range, both ends included (`PipelineMerging.FitsExactly`) |
| `ReportQueue.AggregateRelative` | firmware/hid-remapper/firmware/src/remapper.cc:1391-1427 | in place: refuses without a change exactly if a sum does not fit (`PipelineMerging.FitsExactly`), or else gives the merged report; bytes beyond it are untouched |
| `ReportQueue.Pipeline.constructor` | firmware/hid-remapper/firmware/src/remapper.cc:79-90 | zeroed buffers, each an object of its own, and an empty queue are a valid initial state |
| `ReportQueue.Pipeline.MoveUsage` | firmware/hid-remapper/firmware/src/remapper.cc:2089-2104 | one usage's turn on the real buffers is the turn specified |
| `ReportQueue.Pipeline.PushReport` | firmware/hid-remapper/firmware/src/remapper.cc:2156-2161 | queueing copies the working report into the slot behind the tail and into `prev_reports`, and moves the tail |
| `ReportQueue.Pipeline.MergeIntoTail` | firmware/hid-remapper/firmware/src/remapper.cc:2127-2155 | merges into the newest queued slot exactly when id and state agree and all sums fit, as `PipelineMerging.MergesExactly` spells out |
| `ReportQueue.Pipeline.QueueReport` | firmware/hid-remapper/firmware/src/remapper.cc:2113-2186 | one report id's turn on ring and buffers; a full ring refuses it and changes nothing |
| `ReportQueue.Pipeline.EndOfFrame` | firmware/hid-remapper/firmware/src/remapper.cc:2089-2187 | the end of `process_mapping`, on ring and buffers, is the frame specified |
| `ReportQueue.Pipeline.SendReport` | firmware/hid-remapper/firmware/src/remapper.cc:2199-2243 | the head leaves the ring exactly when there is one and the endpoint takes it |
| `Rings.RingPush` | firmware/hid-remapper/firmware/src/remapper.cc:2156-2161 | writing behind the tail of a wrapped ring appends to the queue it holds |
| `Rings.RingPop` | firmware/hid-remapper/firmware/src/remapper.cc:2234-2236 | moving the head of a wrapped ring drops the oldest entry |
| `Rings.RingAmend` | firmware/hid-remapper/firmware/src/remapper.cc:2127-2155 | writing the slot before the tail replaces the newest entry |
| `Crc32.CrcTableIsDivision` | firmware/hid-remapper/firmware/src/crc.cc:3-47 | each of the 256 table words is eight steps of the reflected 0xEDB88320 division (section 8 of RFC 1952) |
| `Crc32.TableDrivenIsDivision` | firmware/hid-remapper/firmware/src/crc.cc:53-55 | one table step on any register and byte is eight division steps |
| `Crc32.ComputeCrc32` | firmware/hid-remapper/firmware/src/crc.cc:49-57 | the table-driven loop computes the bit-at-a-time division of the whole buffer |
| `Crc32.RegisterInjective` | firmware/hid-remapper/firmware/src/crc.cc:53-55 | registers that differ stay different, whatever bytes follow |
| `Crc32.BurstChangesRegister` | firmware/hid-remapper/firmware/src/crc.cc:53-55 | messages that differ only within four consecutive bytes leave different registers |
| `Crc32.BurstDetected` | firmware/hid-remapper/firmware/src/crc.cc:49-57 | so any two equal-length messages that differ only within four consecutive bytes have different `crc32` values |
| `Crc32.CorruptedFrameRejected` | firmware/hid-remapper/firmware/src/serial.cc:67-73 | a burst of up to four bytes anywhere in data or trailer makes the receiver's comparison fail |
| `Crc32.SentTrailerOk` | firmware/hid-remapper/firmware/src/serial.cc:131-162 | the trailer the sender appends passes the receiver's comparison |
| `CrcCheck.CheckValue` | firmware/hid-remapper/firmware/src/crc.cc:49-57 | the checksum of the digits 1 to 9 is 0xCBF43926, CRC-32's check value, which fixes polynomial, start value, bit order and final inversion |
| `Slip.BodyArrives` | firmware/hid-remapper/firmware/src/serial.cc:45-91 | an escaped body that fits the buffer arrives as it was |
| `Slip.BodyPasses` | firmware/hid-remapper/firmware/src/serial.cc:45-91 | an escaped body hands nothing over and leaves no escape pending, whatever the receiver held |
| `Slip.FrameOfPasses` | firmware/hid-remapper/firmware/src/serial.cc:45-91 | from any receiver state, one complete frame ends at a clean boundary |
| `Slip.FrameDelivers` | firmware/hid-remapper/firmware/src/serial.cc:45-91 | from a clean boundary, a frame delivers its message, unaltered and alone, exactly when it has 1 to 539 bytes |
| `Slip.FramesDeliver` | firmware/hid-remapper/firmware/src/serial.cc:45-91 | a stream of whole frames delivers exactly their messages, in order |
| `Slip.SelfSynchronises` | firmware/hid-remapper/firmware/src/serial.cc:41-91 | whatever the receiver held (partial buffer, index, escape), after one complete frame every later one is delivered exactly |
| `Slip.DeliveriesFit` | firmware/hid-remapper/firmware/src/serial.cc:67-74 | nothing outside 1 to 539 bytes is ever handed over, whatever bytes arrive |
| `Slip.PrefixDelivers` | firmware/hid-remapper/firmware/src/serial.cc:45-91 | having read any first part of a stream of frames, the receiver has handed over exactly the messages whose frames are complete |
| `SerialPort.PutKeepsOrder` | firmware/hid-remapper/firmware/src/serial.cc:96-111 | `my_putc` keeps wire and ring together a first-in first-out queue, never grows the ring beyond 512, and blocks exactly when the ring is full |
| `SerialPort.Sender.PutChar` | firmware/hid-remapper/firmware/src/serial.cc:96-111 | on head, tail and count of the wrapped ring, `my_putc` is that step |
| `SerialPort.Sender.Drain` | firmware/hid-remapper/firmware/src/serial.cc:35-39 | draining the ring onto the wire changes neither the bytes put nor their order |
| `SerialPort.BytesToSend` | firmware/hid-remapper/firmware/src/serial.cc:134-146 | the precomputed count is the encoded frame's exact length, in sixteen bits |
| `SerialPort.Sender.SerialWrite` | firmware/hid-remapper/firmware/src/serial.cc:130-167 | puts the whole encoded frame or, when asked to drop and there is no room, nothing at all; a dropping write that is accepted never takes the blocking branch, if its frame is shorter than 65536 bytes |
| `SerialPort.AcceptedExactly` | firmware/hid-remapper/firmware/src/serial.cc:96-151 | a dropping write is accepted exactly when none of its puts can block, whatever the UART's readiness - except that a frame of 65536 bytes or more has its length cut to sixteen bits, is accepted as if short, and can block |
| `WireFormat.FrameOnTheWire` | firmware/hid-remapper/firmware/src/serial.cc:113-167 | a frame is 0xC0, the message and its four checksum bytes, lowest first, with 0xC0 sent as 0xDB 0xDC and 0xDB as 0xDB 0xDD, and 0xC0; there is no other 0xC0 in it |
| `WireFormat.DeliveredLengths` | firmware/hid-remapper/firmware/src/serial.cc:45-91 | from a clean boundary a frame is delivered exactly for messages of 1 to 539 bytes |
| `WireFormat.RingOf512` | firmware/hid-remapper/firmware/src/serial.cc:96-152 | a put blocks exactly when 512 bytes are waiting, never leaves more, and a dropping write asks for as much room as sixteen bits of its frame's length say |
| `WireFormat.ReportOnTheWire` | firmware/hid-remapper/firmware/src/dual.h:47-53 | a report of board B's goes out as a frame of the command 3, the device's address, its instance, and the report's bytes |
| `SerialPort.ShortFrames` | firmware/hid-remapper/firmware/src/serial.cc:130-146 | no message of less than 32763 bytes makes such a frame |
| `SerialPort.ReceivePort.Poll` | firmware/hid-remapper/firmware/src/serial.cc:45-93 | the receive loop consumes bytes up to the first completed message and computes the receiver specified |
| `SerialPort.ReceivedCrc` | firmware/hid-remapper/firmware/src/serial.cc:69-72 | assembles the four trailer bytes, last one highest |
| `SerialLink.StepKeepsInv` | firmware/hid-remapper/firmware/src/serial.cc:34-167 | every step of writers, UART and reader keeps wire, ring and the rest of the current frame a concatenation of whole frames, and the receiver in step with the wire |
| `SerialLink.EndToEnd` | firmware/hid-remapper/firmware/src/serial.cc:34-171 | over every interleaving of blocking writes, drop-if-full writes, drains and partial reads, the callback has been given exactly the accepted messages whose frames have been read, in order and unaltered |
| `SerialLink.NothingLost` | firmware/hid-remapper/firmware/src/serial.cc:34-171 | with nothing in flight, every accepted message has been delivered |
| `SerialLink.CorruptionNotDelivered` | firmware/hid-remapper/firmware/src/serial.cc:66-81 | a frame whose data and trailer, before escaping, have up to four consecutive wrong bytes is never delivered |
| `SerialLink.WireCorruptionNotDelivered` | firmware/hid-remapper/firmware/src/serial.cc:45-91 | nor is one with up to four consecutive bytes changed on the wire, none of them being or becoming END or ESC; the receiver ends at a clean boundary |
| `SerialLink.BurstCostsOneMessage` | firmware/hid-remapper/firmware/src/serial.cc:45-91 | such a burst in a frame of a stream costs its own message only: all messages before and behind it are delivered, in order |
| `SerialLink.WireBurstCostsOneMessage` | firmware/hid-remapper/firmware/src/serial.cc:45-91 | and so does such a change on the wire |
| `SerialLink.GarbageCostsOneMore` | firmware/hid-remapper/firmware/src/serial.cc:45-91 | any bytes at all in the middle of a stream, framing included, cost at most the frame behind them, and not even that unless they end in an escape |
| `NumLockFilter.ObservationConserves` | firmware/hid-remapper/firmware/src/remapper.cc:830-914 | one observation accounts for every press - queued, withheld or discarded with its wrapper - exactly when it does not show NumLock and keypad going down together while a press is withheld |
| `NumLockFilter.FrameConserves` | firmware/hid-remapper/firmware/src/remapper.cc:916-935 | a frame puts out at most one queued level, loses no press, and leaves no press withheld past its deadline |
| `NumLockFilter.TapConservation` | firmware/hid-remapper/firmware/src/remapper.cc:782-935 | over every timed run without such a double edge, presses put out + withheld or queued + twice the completed wrappers = physical presses, so toggle parity is kept |
| `NumLockFilter.BalanceConserves` | firmware/hid-remapper/firmware/src/remapper.cc:830-914 | the account closes exactly when no press was forgotten |
| `NumLockFilter.SimultaneousEdgesLosePress` | firmware/hid-remapper/firmware/src/remapper.cc:862-914 | a press seen together with the keypad while one is withheld is lost: a concrete run |
| `NumLockFilter.NeverSticks` | firmware/hid-remapper/firmware/src/remapper.cc:704-930 | in every reachable state the last queued level is "down" exactly in the pass-through stage, which implies the key is down; the queue strictly alternates; a deadline is set exactly in the four timed stages |
| `NumLockFilter.WithholdingIsBounded` | firmware/hid-remapper/firmware/src/remapper.cc:796-828 | a press is withheld only while the keypad is held, or within 20 ms of the latest observation |
| `NumLockFilter.OutputCatchesUp` | firmware/hid-remapper/firmware/src/remapper.cc:916-935 | left alone until its queue is empty, the output is down exactly in the pass-through stage |
| `NumLockFilter.SyncFilter.QueueNumLockState` | firmware/hid-remapper/firmware/src/remapper.cc:782-789 | queues a level only if it differs from the last one queued or put out |
| `NumLockFilter.SyncFilter.AdvanceTimeout` | firmware/hid-remapper/firmware/src/remapper.cc:796-828 | the timeout rules, field by field, are those specified |
| `NumLockFilter.SyncFilter.ObserveState` | firmware/hid-remapper/firmware/src/remapper.cc:830-914 | the seven-stage reaction to an observation is the one specified, of which `NumLockWrappers` states what it lets through, by levels and times |
| `NumLockFilter.SyncFilter.ApplyFiltered` | firmware/hid-remapper/firmware/src/remapper.cc:916-935 | a frame's turn on the filter's own fields is the one specified |
| `NumLockWrappers.WrapperIsRemoved` | firmware/hid-remapper/firmware/src/remapper.cc:838-903 | from rest, NumLock tapped, the keypad pressed and released, and NumLock tapped again put out and queue nothing and end at rest, for any times with less than 20 ms between NumLock's edges and around the keypad, which may be held for any time; frames and repeated observations may come at any moment between |
| `NumLockWrappers.SilentExactly` | firmware/hid-remapper/firmware/src/remapper.cc:796-914 | over every run from rest, of observations with any levels at any times and of frames, nothing is told beyond what was queued exactly when the levels keep the form of wrappers: no wait of 20 ms for a tap to end, for the keypad or for the closing tap, no keypad press within the opening tap, no closing press before the keypad was down or while it is |
| `NumLockWrappers.BreakIsTold` | firmware/hid-remapper/firmware/src/remapper.cc:796-914 | an event that breaks the form makes the filter tell exactly the taps withheld, and a press still held as down, with its release if that was seen late; then the key passes through or the run goes on from rest |
| `NumLockWrappers.PassedThroughUntilReleased` | firmware/hid-remapper/firmware/src/remapper.cc:904-909 | a NumLock passed through is told to be down until the observation that shows it up, which tells just that |
| `HidInputs.CallbackFindsSlotFree` | firmware/hid-remapper/firmware/src/remapper_dual_b.cc:740-786 | a callback never meets a held report, so no pending slot is overwritten |
| `HidInputs.StepKeepsValid` | firmware/hid-remapper/firmware/src/remapper_dual_b.cc:548-807 | every step keeps one slot per interface, a pending interface unarmed, and every interface's books balanced |
| `HidInputs.NothingLost` | firmware/hid-remapper/firmware/src/remapper_dual_b.cc:640-807 | over every run, the reports of at most 64 bytes that a tabled interface's callback received are those the UART accepted from it, followed by the report still held, in order; and a pending interface is not armed |
| `HidInputs.FlushInTurn` | firmware/hid-remapper/firmware/src/remapper_dual_b.cc:660-677 | the reports that flushes send while one interface waits lie one behind the other in circular order from the cursor |
| `HidInputs.FlushStops` | firmware/hid-remapper/firmware/src/remapper_dual_b.cc:660-677 | a flush sends every report held up to the first that is refused, leaves that one and all behind it as they are, and leaves the cursor there |
| `HidInputs.BoundedOvertaking` | firmware/hid-remapper/firmware/src/remapper_dual_b.cc:660-687 | while an interface's report is held, every other slot of the table sends at most one report before it |
| `HidOvertaking.InterfaceOvertaking` | firmware/hid-remapper/firmware/src/remapper_dual_b.cc:660-687 | so every other interface gets at most one report onto the UART before it, and one more for each time it was unmounted meanwhile |
| `HidOvertaking.OvertakesAtMostOnce` | firmware/hid-remapper/firmware/src/remapper_dual_b.cc:660-687 | an interface that is not unmounted meanwhile gets at most one |
| `HidOvertaking.ComingBackOvertakesTwice` | firmware/hid-remapper/firmware/src/remapper_dual_b.cc:50-74 | the bound is met: an interface that is unmounted once and comes back to a slot not yet passed overtakes twice, in a concrete run |
| `HidArming.ArmPassExactly` | firmware/hid-remapper/firmware/src/remapper_dual_b.cc:561-567 | after an arming pass an interface is armed exactly if it was, or has a slot, no report held there, and the stack agrees; the pass changes nothing else |
| `HidArming.CallbackExactly` | firmware/hid-remapper/firmware/src/remapper_dual_b.cc:740-807 | a callback enters its interface in the table, in its slot or the first free one; its report is sent exactly when no report of any interface is held and the UART takes it, and else held; it is armed again exactly when the report was sent and the stack agrees; no other slot or transfer changes |
| `HidArming.LongCallback` | firmware/hid-remapper/firmware/src/remapper_dual_b.cc:753-755 | a report of more than 64 bytes changes nothing, except that its interface, if tabled, is armed again exactly when the stack agrees |
| `HidArming.HomelessCallback` | firmware/hid-remapper/firmware/src/remapper_dual_b.cc:757-763 | nor does the report of an interface for which the table is full, which is not armed again |
| `HidArming.FlushArmsExactly` | firmware/hid-remapper/firmware/src/remapper_dual_b.cc:660-677 | after a flush an interface is armed exactly if it was, or one of its visits sent its report and the stack agreed then |
| `HidArming.MountExactly` | firmware/hid-remapper/firmware/src/remapper_dual_b.cc:845-850 | a mounted interface gets its slot, in the table or the first free one, and all that are ready and agreed to are armed |
| `HidArming.UnmountExactly` | firmware/hid-remapper/firmware/src/remapper_dual_b.cc:860-868 | an unmounted one loses its slot, what is held there and its transfer; no other slot or transfer changes |
| `HidArming.ArmPassServesAll` | firmware/hid-remapper/firmware/src/remapper_dual_b.cc:561-567 | from any state, after an arming pass to which the stack agrees every tabled interface is armed or has a report held |
| `HidArming.NoInterfaceFallsSilent` | firmware/hid-remapper/firmware/src/remapper_dual_b.cc:660-868 | over every run in which the stack agrees when asked, every tabled interface is armed or has a report held, after every step |
| `HidHost.Host.RegisterHidInput` | firmware/hid-remapper/firmware/src/remapper_dual_b.cc:50-67 | finds the interface's slot, or takes the first free one, on the slot table |
| `HidHost.Host.UnregisterHidInput` | firmware/hid-remapper/firmware/src/remapper_dual_b.cc:69-74 | frees the interface's slot, with whatever it held, on the slot table |
| `HidHost.Host.ArmReadyHidInputs` | firmware/hid-remapper/firmware/src/remapper_dual_b.cc:561-567 | arms exactly the interfaces that hold no report and have no transfer under way, as the stack agrees (`HidArming.ArmPassExactly`) |
| `HidHost.Host.SendHidReport` | firmware/hid-remapper/firmware/src/remapper_dual_b.cc:640-658 | takes a report exactly when it has at most 64 bytes and the UART takes it; `LinkedBoards` puts the transmit ring and the message header in |
| `HidHost.Host.FlushPendingHidReports` | firmware/hid-remapper/firmware/src/remapper_dual_b.cc:660-677 | the scanning loop over the slot table is the flush specified |
| `HidHost.Host.ReportReceivedCallback` | firmware/hid-remapper/firmware/src/remapper_dual_b.cc:740-786 | sends directly only when nothing is pending, or else holds the report in its slot |
| `HidHost.Host.TuhHidReportReceived` | firmware/hid-remapper/firmware/src/remapper_dual_b.cc:788-807 | hands a report on or holds it, and re-arms its interface exactly when it was handed on and the stack agrees (`HidArming.CallbackExactly`) |
| `LinkedBoards.WriteOutAccepts` | firmware/hid-remapper/firmware/src/remapper_dual_b.cc:640-658 | a write to the link accepts its message unless it is to drop it for want of room, and leaves no frame half put |
| `LinkedBoards.FlushKeepsLinked` | firmware/hid-remapper/firmware/src/remapper_dual_b.cc:660-677 | a flush whose answers are the ring's own puts on the link exactly the reports it counts as sent |
| `LinkedBoards.CallbackToCallback` | firmware/hid-remapper/firmware/src/remapper_dual_a.cc:306-342 | over every run of both boards, the reports that A's callback was given from an interface, then those on the link, then the one B holds, are what B's callback received from it since it entered the table (behind what was accepted from it before), in order and unaltered |
| `ExprOps.IsExprValid` | firmware/hid-remapper/firmware/src/remapper.cc:329-449 | accepts exactly the expressions of known operations whose depth stays between 0 and 16 |
| `ExprEval.RuleIsExact` | firmware/hid-remapper/firmware/src/remapper.cc:334-446 | for every operation and depth, the validator's test fails exactly when `eval_expr` would touch a slot outside the stack or drop below its bottom, and its count is the evaluator's |
| `ExprRun.ValidatorIsExact` | firmware/hid-remapper/firmware/src/remapper.cc:329-449 | for all inputs, an expression that meets no division by zero runs to its end exactly when the validator accepts it, and its depth after every element is the validator's |
| `ExprRun.StaticState` | firmware/hid-remapper/firmware/src/remapper.cc:1440-1612 | in an expression whose operands are literals, the port register and the top of the stack are the ones its text tells |
| `ExprRun.RunAgrees` | firmware/hid-remapper/firmware/src/remapper.cc:1453-1706 | an expression run with remembered slot pointers that are up to date does what fresh look-ups do, and leaves the pointers it remembers up to date |
| `ExprRun.EvalAllAgrees` | firmware/hid-remapper/firmware/src/remapper.cc:1861-1870 | so does a frame over all expressions, the port register carrying over from one to the next |
| `ExprCache.RememberingIsTransparent` | firmware/hid-remapper/firmware/src/remapper.cc:460-496 | over any run of frames, input and slot changes, and reconfigurations, remembering slot pointers changes no result, whenever state operations and PORT take literals |
| `ExprSteady.SteadyIsTransparent` | firmware/hid-remapper/firmware/src/remapper.cc:460-496 | nor does it, whatever computes the addresses, over any run in which each element goes on looking the same usage up until the next configuration |
| `ExprSteady.StaticIsKeyed` | firmware/hid-remapper/firmware/src/remapper.cc:460-496 | elements with literal addresses are such |
| `ExprCache.OtherAddressesGoStale` | firmware/hid-remapper/firmware/src/remapper.cc:1693-1697 | with a computed address a remembered pointer goes on being used, where a fresh look-up would read the usage that the address names |
| `ExprCache.MemoryShows` | firmware/hid-remapper/firmware/src/remapper.cc:460-496 | two frames over such an expression, auto-repeat off and then on, end in different states with memory and without |
| `ExprCache.AutoRepeatedStateIsAccepted` | firmware/hid-remapper/firmware/src/remapper.cc:329-449 | and the validator accepts such an expression |
| `ExprArithmetic.RoundsToNearest` | firmware/hid-remapper/firmware/src/remapper.cc:1602-1605 | ROUND gives the nearest whole number, in thousandths, exactly when the sums on the way stay in 32 bits |
| `ExprArithmetic.WrapKeeps` | firmware/hid-remapper/firmware/src/remapper.cc:1459-1462 | 32-bit wrap-around keeps a number modulo 2^32, and unchanged exactly when it fits |
| `ExprVm.Vm.EvalExpr` | firmware/hid-remapper/firmware/src/remapper.cc:1437-1777 | on the sixteen-slot array, a rejected expression gives zero; an accepted one that meets no MOD by zero never leaves the array or meets an unknown operation, and computes the result, registers and slot pointers specified on a list, of whose operations `ExprLaws` states what they compute |
| `ExprVm.Vm.Step` | firmware/hid-remapper/firmware/src/remapper.cc:1447-1762 | one element in place, other than a MOD by zero, through array, top index and slot pointer, is the list operation, whose results `ExprLaws` states |
| `ExprVm.Vm.FindSlot` | firmware/hid-remapper/firmware/src/remapper.cc:481-496 | looks a usage up unless its pointer is remembered, assigning one of 1024 slots if it is new |
| `ExprLaws.RawStates` | firmware/hid-remapper/firmware/src/remapper.cc:1453-1458 | INPUT_STATE gives 1000 x the unscaled state of the usage addressed at the current port, PREV_INPUT_STATE that of the frame before, their FP32 forms likewise; looked up or remembered |
| `ExprLaws.MappedStates` | firmware/hid-remapper/firmware/src/remapper.cc:1485-1490 | the SCALED, BINARY and PREV forms of the state as mapped, now and in the frame before, and the sticky, tap and hold states |
| `ExprLaws.UnknownUsage` | firmware/hid-remapper/firmware/src/remapper.cc:468-496 | a usage not seen before gets the next of 1024 slots; when none is left its state is zero, and sticky, tap and hold leave the address |
| `ExprLaws.Numbers` | firmware/hid-remapper/firmware/src/remapper.cc:1449-1452 | what PUSH, PUSH_USAGE, AUTO_REPEAT, SCALING, LAYER_STATE, TIME, TIME_SEC and PLUGGED_IN push |
| `ExprLaws.Operands` | firmware/hid-remapper/firmware/src/remapper.cc:1459-1462 | operations of one and two operands replace just these by what is computed, the deeper operand being the first |
| `ExprLaws.SumsAndDifferences` | firmware/hid-remapper/firmware/src/remapper.cc:1671-1674 | ADD is addition modulo 2^32, and SUB undoes it and is undone by it, for all operands |
| `ExprLaws.ProductsAndQuotients` | firmware/hid-remapper/firmware/src/remapper.cc:1643-1650 | MUL and DIV cut the exact quotient towards zero, then to 32 bits, DIV by zero is zero, MOD is the rest on the side of its first operand |
| `ExprLaws.Comparisons` | firmware/hid-remapper/firmware/src/remapper.cc:1467-1481 | of EQ, GT and LT exactly one gives 1000, GT and LT are mirror images; MIN and MAX are bounds of both operands and one of them |
| `ExprLaws.SignsAndParts` | firmware/hid-remapper/firmware/src/remapper.cc:1482-1493 | NOT, ABS, RELU and SIGN for every number |
| `ExprLaws.Bitwise` | firmware/hid-remapper/firmware/src/remapper.cc:1555-1565 | BITWISE_OR, BITWISE_AND and BITWISE_NOT, for each of the 32 bits |
| `ExprLaws.Directions` | firmware/hid-remapper/firmware/src/remapper.cc:1430-1435 | DPAD turns left, right, up and down into the eight directions of a hat switch, clockwise from up, opposite ones cancelling, 8 for none |
| `ExprLaws.Choices` | firmware/hid-remapper/firmware/src/remapper.cc:1519-1527 | IFTE takes the second operand unless the first is zero; CLAMP gives the nearest number within the limits, the upper one if they are the wrong way round |
| `ExprLaws.StackOperations` | firmware/hid-remapper/firmware/src/remapper.cc:1494-1497 | DUP and SWAP |
| `ExprLaws.QuietOperations` | firmware/hid-remapper/firmware/src/remapper.cc:1504-1507 | DEBUG and EOL leave stack and machine alone; PRINT_IF takes its two operands and no more |
| `ExprLaws.FloatOperands` | firmware/hid-remapper/firmware/src/remapper.cc:1498-1503 | SIN, COS, SQRT and ATAN2 get their operands in the order of the stack, and the root of a negative number is left as it is |
| `ExprLaws.Deadzones` | firmware/hid-remapper/firmware/src/remapper.cc:1703-1761 | the dead zones take two axes and then their radii, and leave the two axes |
| `ExprLaws.Registers` | firmware/hid-remapper/firmware/src/remapper.cc:1578-1592 | STORE and then RECALL with the same number, in thousandths from 1 to 32, gives the value stored; no other register changes; other numbers store nothing and stay when recalled |
| `ExprLaws.PortSet` | firmware/hid-remapper/firmware/src/remapper.cc:1606-1612 | PORT keeps the whole part of its operand in a byte, and 0 for more than 15 |
| `ExprLaws.Monitoring` | firmware/hid-remapper/firmware/src/remapper.cc:1657-1667 | MONITOR reports a value exactly when monitoring is on and the value is not the last one |
| `ExprLaws.ResultShown` | firmware/hid-remapper/firmware/src/remapper.cc:1861-1870 | an expression's result is written to the state of usage 0xFFF30001 plus its number, zero if it was rejected, and to no other |
| `DescriptorLayout.EndIsTotal` | firmware/hid-remapper/firmware/src/descriptor_parser.cc:164-297 | each report's bit count is the sum of size x count over its main items, sizes and counts being the last ones seen, as the parser reads them |
| `DescriptorLayout.EndIsStandard` | firmware/hid-remapper/firmware/src/descriptor_parser.cc:164-297 | and where no Pop occurs, which the parser passes over, that is the sum by the item state table of section 6.2.2.7 of HID 1.11 |
| `DescriptorLayout.ParseOrdered` | firmware/hid-remapper/firmware/src/descriptor_parser.cc:176-297 | every usage's place starts where the earlier places of its report end, except within one array, and lies within its report |
| `DescriptorLayout.PlacedExactly` | firmware/hid-remapper/firmware/src/descriptor_parser.cc:37-55 | a usage's stored position is where its field really starts exactly when that start is below 65536 |
| `DescriptorLayout.PlacedFieldsAreApart` | firmware/hid-remapper/firmware/src/descriptor_parser.cc:37-55 | two usages whose fields start there have disjoint bit ranges unless they share an array |
| `DescriptorLayout.FieldsAreApart` | firmware/hid-remapper/firmware/src/descriptor_parser.cc:37-55 | so have any two of a report of less than 65536 bits |
| `DescriptorLayout.DeclarationOrder` | firmware/hid-remapper/firmware/src/descriptor_parser.cc:190-231 | of two usages whose fields start within the first 65536 bits, a variable one declared earlier lies lower |
| `DescriptorLayout.FieldsAreInside` | firmware/hid-remapper/firmware/src/descriptor_parser.cc:352-358 | every place lies inside the report's bytes, if they are whole, and starts within the 64 bytes handled |
| `DescriptorLayout.FirstMark` | firmware/hid-remapper/firmware/src/descriptor_parser.cc:43-55 | the place kept for a usage is its first one (`try_emplace`) |
| `UsagePlacement.RegistersTell` | firmware/hid-remapper/firmware/src/descriptor_parser.cc:292-349 | the parser's registers are what the items say: usages listed and range ends given since the last main item or collection, with the page given last, and the last size, count, id and logical limits, signed and unsigned |
| `UsagePlacement.RangeField` | firmware/hid-remapper/firmware/src/descriptor_parser.cc:205-223 | a variable item with a usage range gives usage minimum + i, up to the maximum, the field at its start + i x size, with the size in eight bits, the position in sixteen, the relative bit and both signed limits, unless the usage had a place, which it keeps, or the field starts beyond the first 64 bytes |
| `UsagePlacement.ListField` | firmware/hid-remapper/firmware/src/descriptor_parser.cc:224-243 | one with a list gives the i-th usage listed the i-th field, if it was not listed before |
| `UsagePlacement.ArrayRange` | firmware/hid-remapper/firmware/src/descriptor_parser.cc:247-264 | an array with a range places its lowest usage for all, with the index it starts at, the number of elements and the last usage its indices reach |
| `UsagePlacement.ArrayList` | firmware/hid-remapper/firmware/src/descriptor_parser.cc:265-286 | one with a list places its i-th usage with index logical minimum + i |
| `UsagePlacement.NothingElse` | firmware/hid-remapper/firmware/src/descriptor_parser.cc:180-349 | no item gives or changes any other place |
| `LongReports.CodedReadsBack` | firmware/hid-remapper/firmware/src/descriptor_parser.cc:141-172 | items written as bytes are read back as those items |
| `LongReports.LongReportsOverlap` | firmware/hid-remapper/firmware/src/descriptor_parser.cc:190-238 | a whole descriptor of 21 bytes: behind 65528 bits of padding the cursor wraps and the second of two fields is laid over the first |
| `PipelineLayout.FieldsSuitPipeline` | firmware/hid-remapper/firmware/src/descriptor_parser.cc:190-297 | two variable usages of one report get fields that do not overlap and lie inside it, as the pipeline's bit operations require of places |
| `DescriptorParser.Parser.MarkUsage` | firmware/hid-remapper/firmware/src/descriptor_parser.cc:22-55 | drops places beyond 64 bytes and keeps a usage's first place |
| `DescriptorParser.Parser.PlaceVariables` | firmware/hid-remapper/firmware/src/descriptor_parser.cc:203-241 | the loops over usage ranges and lists, moving a sixteen-bit cursor, give the places specified, which `UsagePlacement.RangeField` and `ListField` state from the items |
| `DescriptorParser.Parser.PlaceArray` | firmware/hid-remapper/firmware/src/descriptor_parser.cc:242-289 | arrays by range or by list, and constants, give the places specified |
| `DescriptorParser.Parser.OneItem` | firmware/hid-remapper/firmware/src/descriptor_parser.cc:174-350 | one item's effect on registers, cursors and usage maps is the one specified |
| `DescriptorParser.ParseDescriptor` | firmware/hid-remapper/firmware/src/descriptor_parser.cc:141-361 | for every well-formed descriptor, the loop gives the registers, cursors and usage maps of its items (`UsagePlacement` says which usage has which field), and each report's size in bytes |
| `ConfigCodec.SizeIsExact` | firmware/hid-remapper/firmware/src/config.cc:763-791 | the size computed beforehand is the number of bytes written plus 4, for every configuration |
| `ConfigCodec.PayloadLeavesChecksumAlone` | firmware/hid-remapper/firmware/src/config.cc:792-846 | a configuration that is persisted ends before the checksum, and the image's checksum is right |
| `ConfigCodec.RoundTrip` | firmware/hid-remapper/firmware/src/config.cc:649-715 | a canonical configuration that fits is rebuilt from its image: settings, mappings, macros, expressions, quirks |
| `ConfigCodec.LoadedIsCanonical` | firmware/hid-remapper/firmware/src/config.cc:649-715 | whatever any image loads to is canonical |
| `ConfigCodec.RoundTripExactly` | firmware/hid-remapper/firmware/src/config.cc:582-851 | a configuration persisted with success is loaded again exactly when it is canonical |
| `ConfigCodec.RoundTripOfReceived` | firmware/hid-remapper/firmware/src/config.cc:582-851 | of the configurations that SET_CONFIG and the append commands can store, those persisted with success are loaded again exactly when there are fewer than 65536 mappings and no macro has more than 255 entries or an entry of more than 255 usages |
| `ConfigCodec.LongMacroIsLost` | firmware/hid-remapper/firmware/src/config.cc:804-816 | a macro of 256 empty entries is persisted with success and not loaded again: its entries are counted as none |
| `ConfigCodec.UnpackInverse` | firmware/hid-remapper/firmware/src/config.cc:738-755 | a packed struct whose numbers fit their fields is read back |
| `ConfigCodec.MacroReadsBack` | firmware/hid-remapper/firmware/src/config.cc:804-816 | a macro of at most 255 entries of at most 255 usages is read back, whatever follows it |
| `ConfigCodec.ExpressionReadsBack` | firmware/hid-remapper/firmware/src/config.cc:820-833 | so is an expression, operands only behind PUSH and PUSH_USAGE |
| `ConfigStore.RealPersistedConfigSize` | firmware/hid-remapper/firmware/src/config.cc:763-791 | the nested loops compute that size |
| `ConfigLayout.HeaderAt` | firmware/hid-remapper/firmware/src/config.cc:738-755 | the header is 19 bytes: version 18, flags, layers, scroll timeout at 3, mapping count at 7, interval at 9, tap-hold threshold at 10, debounce time in milliseconds at 14, descriptor, macro duration, and quirk count at 17, low bytes first |
| `ConfigLayout.FlagBits` | firmware/hid-remapper/firmware/src/config.cc:740-743 | flags are bit 4 (ignored authentication), 5 (output mode) and 6 (normalised gamepads), the mode shifted in whole |
| `ConfigLayout.MappingAt` | firmware/hid-remapper/firmware/src/types.h:222-229 | a mapping has its target at byte 0, source at 4, scaling at 8, layers at 12, flags at 13 and ports at 14 |
| `ConfigLayout.QuirkAt` | firmware/hid-remapper/firmware/src/types.h:293-301 | a quirk has its vendor at byte 0, product at 2, interface at 4, report at 5, usage at 6, position at 10 and size flags at 12 |
| `ConfigLayout.EntryAt` | firmware/hid-remapper/firmware/src/config.cc:808-813 | a macro's entry is its length in a byte and its usages, four bytes each |
| `ConfigLayout.CountsAt` | firmware/hid-remapper/firmware/src/config.cc:804-823 | a macro starts with the number of its entries in a byte, an expression with that of its elements in two |
| `ConfigLayout.ElemAt` | firmware/hid-remapper/firmware/src/config.cc:823-830 | an element is its operation in a byte and, behind PUSH and PUSH_USAGE only, its operand in four |
| `ConfigLayout.MappingIn` | firmware/hid-remapper/firmware/src/config.cc:797-800 | mapping i lies 19 + 15 i bytes into the payload |
| `ConfigLayout.RestIn` | firmware/hid-remapper/firmware/src/config.cc:802-840 | macros, expressions and quirks follow the mappings in this order and end the payload |
| `ConfigLayout.ImageAt` | firmware/hid-remapper/firmware/src/config.cc:760-842 | the image is the payload, zeros, and in its last four bytes the checksum of the rest |
| `ConfigLayout.LoadedNumbers` | firmware/hid-remapper/firmware/src/config.cc:649-714 | whatever is loaded has 32 macros, 8 expressions, a descriptor number below 6, a GPIO mode of 0 or 1 and whole milliseconds of debounce time |
| `ConfigStore.Writer.PutParts` | firmware/hid-remapper/firmware/src/config.cc:797-840 | the cursor writes the parts one behind the other into the zeroed buffer |
| `ConfigStore.Persist` | firmware/hid-remapper/firmware/src/config.cc:757-851 | gives the image, or CONFIG_TOO_BIG exactly when it does not fit in 4096 bytes |
| `ConfigReader.Load` | firmware/hid-remapper/firmware/src/config.cc:582-715 | the cursor loops of `load_config` rebuild exactly the configuration specified, from any image they do not leave |
| `MacroPaging.GetMacro` | firmware/hid-remapper/firmware/src/config.cc:892-922 | the nested loops with their sixteen-bit index answer the page specified, unless the macro has 65536 items and the page asked for reaches beyond them |
| `MacroPaging.AnswerIsPage` | firmware/hid-remapper/firmware/src/config.cc:892-922 | when no usage is zero, that is the next six items of the entries separated by zeros |
| `MacroPaging.AnswerIsSixItems` | firmware/hid-remapper/firmware/src/config.cc:892-924 | that page is six items of the listing, or what is left of it |
| `MacroPaging.PagesRebuild` | firmware/hid-remapper/firmware/src/config.cc:1117-1132 | pages read one after another and appended rebuild the macro; the empty macro becomes one empty entry |
| `MacroPaging.AppendToMacro` | firmware/hid-remapper/firmware/src/config.cc:1117-1132 | a packet's items are fed to the last entry, a zero opening a new one |
| `MacroPaging.RebuiltExactly` | firmware/hid-remapper/firmware/src/config.cc:892-922 | pages read one after another and appended rebuild a macro exactly when it has an entry and no usage of it is zero |
| `MacroPaging.ZeroEndsEntry` | firmware/hid-remapper/firmware/src/config.cc:1125-1126 | one entry holding a zero usage, read out and written back, becomes two empty ones |
| `ExpressionPaging.GetExpression` | firmware/hid-remapper/firmware/src/config.cc:923-957 | answers as many whole elements as fit in 27 bytes, and their bytes |
| `ExpressionPaging.PageProgresses` | firmware/hid-remapper/firmware/src/config.cc:933-956 | while elements are left a page holds at least one |
| `ExpressionPaging.PageIsFull` | firmware/hid-remapper/firmware/src/config.cc:933-956 | a page has at most 27 bytes, at five for an element with an operand and one for any other, and the next element would make it longer |
| `ExpressionPaging.PagesAreAll` | firmware/hid-remapper/firmware/src/config.cc:923-957 | pages advanced by `nelems` are together the whole expression |
| `ExpressionPaging.PageReadsBack` | firmware/hid-remapper/firmware/src/config.cc:933-956 | a page's bytes decode to its elements |
| `ExpressionPaging.AppendToExpression` | firmware/hid-remapper/firmware/src/config.cc:1146-1174 | any 24-byte packet appends the elements it holds completely |
| `ExpressionPaging.UnpackedIsLongest` | firmware/hid-remapper/firmware/src/config.cc:1146-1174 | those elements are what the packet starts with: as many as it says or, if it holds fewer, all but a rest that is empty or an operand cut short |
| `ExpressionPaging.PacketAppends` | firmware/hid-remapper/firmware/src/config.cc:1146-1174 | a packet of whole elements appends exactly those |
| `UsageRanges.RunLengthEncode` | firmware/hid-remapper/firmware/src/remapper.cc:2940-2966 | for ordered ranges, the runs are ascending, none empty, with a gap after each, and hold exactly the usages of the ranges that do not start at usage 0 |
| `UsageRanges.UnionKeptExactly` | firmware/hid-remapper/firmware/src/remapper.cc:2940-2966 | no usage is lost or invented exactly when no range starts at usage 0 |
| `UsageRanges.RangeFromZeroIsLost` | firmware/hid-remapper/firmware/src/remapper.cc:2947-2951 | a range from usage 0 is lost: a concrete input |

## Left out

- Reports: the relative and absolute masks are given, with their fields disjoint; filling them in is not modelled (for
  an array of more than 32 bits the source shifts a 32-bit value too far). `sanitize_report` and `clear_report` hooks
  of single descriptors are left out; a report is cleared to zeros. The map of accumulated usages is a sequence, so
  that its order is fixed. A report id is kept beside its slot's bytes. Out-reports to devices are left out.
- Mapping itself (layers, sticky, tap-hold, scaling, scrolling, macros' playback, d-pad) enters the pipeline only as
  amounts accumulated and bits written, of whatever value; which bits a mapping writes is not modelled.
- Accumulators are unbounded; the firmware's are `int32_t`, in thousandths, so that an overflow between two frames
  takes more than two million units. RESUME, which clears them (`reset_state`), is not an event of the runs.
- `HID_HOST_DIAGNOSTICS` and `MOUSE_PIPELINE_TRACE` code, monitoring reports and printing.
- Serial link: payloads are at most 539 bytes, since the receive index is reduced modulo 544. UART errors other than
  changed bytes are left out.
- NumLock: the inference of the PC's NumLock state, the suppression for one keyboard model, the startup timer, and the
  merging of several reports of one interface, whose levels are the filter's input.
- Board B: Xbox and MIDI inputs, which re-arm outside the slot rule; other messages only as such, whatever they say.
  Reports of more than 64 bytes, and those of an interface for which the table has no place, are dropped as in the
  source and enter no book.
- SerialLink.WireCorruptionNotDelivered: does not model that a change which touches or creates framing is never
  delivered, since that may change a frame's length, against which its checksum promises nothing;
  `GarbageCostsOneMore` bounds what it costs.
- HidHost.Host.SendHidReport: does not model the header and the transmit ring; `LinkedBoards` does, on values.
- PipelineLayout.FieldsSuitPipeline: does not derive the masks and the fit of logical ranges, which are given.
- DescriptorLayout.EndIsTotal: takes a size or count to be the last one seen, as the parser does, which ignores Push
  and Pop; long items are read as the short ones their bytes look like.
- Expressions: floating-point operations and DEADZONE are uninterpreted with the right stack effect. `labs` and `%` of
  the least 32-bit number, undefined in C++, wrap or give zero. What DEBUG and PRINT_IF print.
- ExprVm.Vm.EvalExpr: does not model a MOD by zero, which the source does not guard against and C++ leaves undefined.
- ExprVm.Vm.Step: nor does one element's turn.
- ExprRun.ValidatorIsExact: does not model a change of an expression between two validations.
- ExprCache.RememberingIsTransparent: literal addresses suffice and are not needed; `SteadyIsTransparent` asks for
  less.
- Descriptors: `WellFormed` excludes a lone zero byte at the end, on which the parser never ends, and a truncated last
  item, past which it reads. An array whose logical maximum is the greatest 32-bit number is taken to end. Quirks,
  d-pad usages and interface numbers are left out.
- Configuration: versions below 18, which `LoadConfig` tells apart as `OlderVersion`; mutexes; writing to flash. An
  image with a right checksum that leads past its end, which the source would read, is `PastTheEnd`. The checksum is a
  parameter; `Crc32` is the one in use.
- ConfigReader.Load: does not model reading beyond the image, which the source does not guard against.
- MacroPaging.GetMacro: does not model a page that reaches beyond item 65535 of a macro of so many items, where the
  sixteen-bit index wraps.
- UsageRanges.RunLengthEncode: does not model ranges that reach the last 32-bit usage, on which the sums wrap, and
  ranges that end before they start.
- SWD and flash programming (`pico_debug`), Bluetooth, GPIO, ADC, I2C, LEDs, the watchdog and USB descriptor tables.
