# An emulated Switch Pro Controller, verified

udcinput turns a Linux device into a USB gadget that a Switch takes for a Pro Controller. This
project models the parts that decide what the Switch sees, and proves what they promise.

| file | what it holds |
|---|---|
| `Bits.dfy`, `Bytes.dfy` | bit operators and the `BIT`/`GENMASK`/`LSB_GET`/`FIELD_GET` macros on words of any width; little-endian bytes |
| `Queue.dfy`, `Buf.dfy` | the bounded byte queue, and the buffer class that implements it on one array |
| `Hexdump.dfy` | the hex printer, and an independent reader of its lines |
| `Axis.dfy`, `Gamepad.dfy` | int16 axes scaled to 12 bits, the nine input bytes of a report, and their decoder |
| `Flash.dfy` | the calibration flash and its seven records |
| `Protocol.dfy` | the answer to an output report as a pure function |
| `Controller.dfy` | the controller as a machine whose actions are whole critical sections |
| `HostView.dfy`, `Descriptors.dfy`, `Calibration.dfy` | what every run of that machine keeps: the console's view, descriptor ownership, calibrated sticks |
| `WireFormat.dfy` | every report and flash record byte by byte, in literal values |
| `SwitchPro.dfy` | the controller object, updated in place; every call from outside is one action of the machine |
| `Interleaving.dfy`, `Refinement.dfy`, `Atomicity.dfy`, `Snapshots.dfy` | any number of threads, interleaved between single byte copies: each call takes effect whole, once and in order |
| `EventLoop.dfy`, `LoopThread.dfy` | the event loop as a machine over system call results, and the loop object that implements it |
| `Completion.dfy` | the mutex is always given back, and an open call that the kernel serves ends with the device open |
| `Progress.dfy` | what one iteration of the loop does, case by case, and that the device gets opened |
| `WholeSystem.dfy` | the event loop as one of the threads that interleave byte by byte |

System calls are inputs: each takes its result from an arbitrary script. What is assumed of the
kernel is written down as `Controller.Enabled`, `Interleaving.Conforms`, `EventLoop.Conforms` and
`WholeSystem.Conforms`:
a descriptor handed out is not one still open; waits report only registered descriptors; a wait
does not time out while the stop event is readable or when told to wait forever; a read does not
exceed the buffer. Nothing is assumed about which calls fail, or when.

The layers fit together as follows. `SwitchPro.Pro` and `LoopThread.Loop` are proved against the
machines, method by method, with the whole new state equal to a function of the old. The machines'
properties are proved over all runs. `Atomicity.SchedulesAreAtomic` shows that every schedule of
threads interleaved byte by byte does what their calls do one after the other, each whole and each
thread's in its own order. `EventLoop.RunIsControllerRun` shows that the loop does to the controller
only what its machine can do, and `WholeSystem.WholeSafety` puts the two together: there the loop is
a thread among the others, a callback takes many steps, and its result is read after the mutex has
been released. The ghost fields `ticks`, `commits` and `trace` record the
unwrapped timer, every nine input bytes put into the report, and every write attempt. A gamepad state
is encoded before the mutex is taken, so that the machines handle its nine bytes;
`Gamepad.EncodeKernel` says what these stand for. The machines would follow any change of
the constants; `WireFormat.dfy` ties them to the values the console expects, button by button and
byte by byte. Runs start with any flash contents;
`Flash.FlashImage` is what a new controller starts with.

## Where the code is surprising

- The "charging grip" bit is never sent: `buffer[1] |= BIT(8)` sets a bit a byte does not have
  (`Gamepad.GripBitIsLost`; `Gamepad.UnusedBitsClear` for all unused bits).
- A state update that changes buttons and fails on the blocking descriptor is lost although the
  caller is told that no retry is needed (`HostView.LostUpdate`); `HostView.RetryResultMeaning`
  says what to know before the call for "no retry" to be trusted while writes only suffer from
  congestion, `HostView.RetryResultUnderFailure` when they may fail in any way.
- Stick calibrations and parameters are 16-bit fields packed into twelve bits; larger values would lose
  their high bits silently (`Flash.StickCalRoundTrip`). The configured values all fit.
- A created controller that was never opened holds 0 as its non-blocking descriptor, so closing or
  destroying it closes descriptor 0 (`Descriptors.NeverOpenedClosesZero`);
  `Descriptors.CloseStaysHome` gives the exact condition. The event loop itself never closes a
  foreign descriptor (`WholeSystem.WholeSafety`); destroying after a run that never opened one does.
- A state report carries the timer after its increment, a subcommand reply the timer before it, so
  the two can show equal values in this order only (`Controller.TimerLaw`). Flash reads that are too
  long to answer use up a tick as well (`Protocol.TicksExactly`, `Protocol.RepliesExactly`).
- The comment on `udcinput_buf_resize` says that it fails when the size exceeds the capacity. The
  code also fails when consumed bytes in front leave too little room behind; the model follows the
  code (`Queue.ResizeKeepsFront`).

## Model

| member | source | states |
|---|---|---|
| `Snapshots.NoTornReports` | src/gamepads/switchpro.c:895-921 | for every schedule of every number of threads, interleaved between single byte copies: in the list of inputs computed from the schedule, neutral and then one per completed state update in the order of their sends, every state report and subcommand reply shows exactly the entry that was the last when it was written, and the shared report shows the last of all whenever the mutex is free |
| `Snapshots.CommitIsPerformed` | src/gamepads/switchpro.c:909-916 | an entry of that list is the whole effect of a state update with that input |
| `Snapshots.NoTornStates` | src/gamepads/switchpro.c:824-921 | in terms of gamepad states: from every report of every interleaving a console decodes what can be expressed of one state some caller passed in, or of neutral |
| `Atomicity.SchedulesAreAtomic` | src/gamepads/switchpro.c:271-528 | the actions computed from any schedule, each built from the call of the thread that performs it, are enabled one after the other; they leave exactly the writes of the schedule and, whenever the mutex is free, its memory; and for every thread they are the calls it started, in order, each once, except a last one that is pending |
| `Atomicity.CallsTakeEffectOnce` | src/gamepads/switchpro.c:305-978 | from any state, the calls pending and started by a thread are those that take effect, in order and each once, followed by the one still pending |
| `Refinement.StepKeepsSysInv` | src/gamepads/switchpro.c:895-978 | one byte-granular step of any thread performs the whole call of a thread about to release the mutex, or nothing, and keeps the invariant that the report is that of the last committed input whenever the mutex is free |
| `Refinement.SetStep` | src/gamepads/switchpro.c:895-921 | no prefix of the byte copies of a state update is visible as an action; the last step is the whole update |
| `Refinement.ReplyStep` | src/gamepads/switchpro.c:271-286 | copying a reply header byte by byte, with the timer incremented halfway, amounts to one whole reply |
| `Refinement.OpenStep` | src/gamepads/switchpro.c:925-962 | opening one descriptor at a time, with clean-up on each failure, amounts to one whole open |
| `Refinement.CloseStep` | src/gamepads/switchpro.c:964-978 | closing and clearing the two descriptors step by step amounts to one whole close |
| `Snapshots.NoWriteAfterClose` | src/gamepads/switchpro.c:897-915 | for every schedule: state reports only go to open device descriptors, those that change buttons to a blocking one and the others to a non-blocking one, and whenever the mutex is free the open ones are exactly the two held, the second alone non-blocking, or none |
| `Completion.MutexIsReleased` | src/gamepads/switchpro.c:320-978 | in every reachable state, whoever holds the mutex releases it within 83 byte-granular steps of its own, whatever its system calls return |
| `Completion.OpenCompletes` | src/gamepads/switchpro.c:925-962 | an open call on a closed controller, step by step, ends with the mutex free, the first descriptor held as the blocking one and the second as the non-blocking one, and everything else as it was |
| `Controller.NoTornSnapshots` | src/gamepads/switchpro.c:895-921 | in every run, the input bytes of every attempted report are one committed input as a whole, and later reports never show an earlier one |
| `Controller.NextKeepsInv` | src/gamepads/switchpro.c:271-921 | every action keeps: the report is that of the current tick and last committed input, every write so far is untorn, ticks and commits of the writes are ordered |
| `Controller.TimerLaw` | src/gamepads/switchpro.c:277-277 | in every run the report's timer is the number of ticks modulo 256, each report shows its own tick, ticks never decrease, and equal ticks only occur as a subcommand reply right behind a state report |
| `Controller.FlashNeverChanges` | src/gamepads/switchpro.c:402-426 | no run changes the flash |
| `HostView.HostAgrees` | src/gamepads/switchpro.c:902-919 | in every run the console's buttons are the controller's unless a button report was lost since the last report received, and its sticks too unless some state report was |
| `HostView.BlockingWritesSucceeding` | src/gamepads/switchpro.c:908-910 | while writes on the blocking descriptor succeed, no button report counts as lost |
| `HostView.ResendReaches` | src/gamepads/switchpro.c:902-919 | publishing one input again until some write goes through makes console and controller show it, whatever the other writes did and whatever output reports came in between |
| `HostView.OnlyInputShows` | src/gamepads/switchpro.c:271-286 | while only one input is published, the console shows it exactly if it did before or some state report or subcommand reply has been received since |
| `HostView.ShownAfterSetState` | src/gamepads/switchpro.c:907-917 | after an update the console shows its input if and only if the report was delivered or it showed the same before |
| `HostView.RetryResultMeaning` | src/gamepads/switchpro.c:904-922 | when writes can only succeed, or hit EAGAIN on a descriptor in non-blocking mode, the result "no retry needed" is sure to mean that the console shows the input if and only if the device is open or the console showed it before the call |
| `HostView.RetryResultUnderFailure` | src/gamepads/switchpro.c:904-922 | when writes may fail in any way, if and only if the console showed it before the call |
| `HostView.RetryIsCongestion` | src/gamepads/switchpro.c:907-918 | a retry is asked for if and only if the device is open, the three button bytes are not new, and the write failed with EAGAIN, then on a non-blocking descriptor |
| `HostView.DeliveredIsWhole` | src/hid.c:91-110 | a write succeeds if and only if all bytes were written; a short write is error 5 and EAGAIN error 11 |
| `HostView.LostUpdate` | src/gamepads/switchpro.c:908-910 | a concrete update that is lost without a retry being asked for |
| `Descriptors.DescriptorsNeverLeak` | src/gamepads/switchpro.c:925-978 | in every run the open device descriptors are the two held, distinct, the second alone in non-blocking mode, or none; failed opens leak none; every report that changes buttons goes to an open blocking descriptor, every other state report to an open non-blocking one |
| `Descriptors.OpenTakesBoth` | src/gamepads/switchpro.c:925-949 | if both opens and setting the mode succeed, the first descriptor opened blocks and carries the buttons, the second is non-blocking; if any fails nothing has changed |
| `Descriptors.CloseIsFinal` | src/gamepads/switchpro.c:964-978 | after a close no descriptor is held or open, and closing or destroying again closes nothing |
| `Descriptors.CloseStaysHome` | src/gamepads/switchpro.c:805-817 | closing or destroying stays within the controller's own descriptors if and only if the device is open or the second descriptor was reset |
| `Descriptors.NeverOpenedClosesZero` | src/gamepads/switchpro.c:782-785 | a controller created and never opened closes descriptor 0, which it does not own |
| `Calibration.SticksEndToEnd` | src/gamepads/switchpro.c:699-713 | in every run, calibration read over the wire at any time, decoded and applied to the sticks of any report, recovers the sticks of the gamepad state behind that report within 17, on their side of the centre, exactly at ends and centre |
| `Calibration.NewFlashIsCalibrated` | src/gamepads/switchpro.c:699-713 | the flash of every new controller holds that calibration, whatever the deadzones |
| `SwitchPro.Pro.Create` | src/gamepads/switchpro.c:771-803 | creation fails with -ENOMEM, the error of the function or the error of init, in this order, or yields a controller in the machine's initial state |
| `SwitchPro.Pro.constructor` | src/gamepads/switchpro.c:774-785 | the fields of a created and initialised controller are those of the machine's initial state |
| `SwitchPro.InitReport` | src/gamepads/switchpro.c:669-682 | the report is initialised to that of a neutral gamepad at tick 0 |
| `SwitchPro.Pro.SetState` | src/gamepads/switchpro.c:819-923 | updating the shared report in place and writing it is the machine's state update, retry result included |
| `SwitchPro.Pro.OnOutputReport` | src/gamepads/switchpro.c:610-654 | for every byte sequence and buffer capacity, parsing the request and building the reply over it in the same array has the effect of the pure response function |
| `SwitchPro.Pro.OnRumbleAndSubcmd` | src/gamepads/switchpro.c:305-528 | the same for subcommands, under the mutex |
| `SwitchPro.Pro.OnUsbCmd` | src/gamepads/switchpro.c:530-608 | the same for USB commands |
| `SwitchPro.Pro.HidgWrite` | src/hid.c:91-110 | one write attempt of the buffer's contents is recorded; its result is 0, -EIO for a short write, or the error |
| `SwitchPro.Pro.EncodeHeader` | src/gamepads/switchpro.c:271-286 | the header carries the timer before the increment and the report's input bytes; the report changes in its timer alone, even when the buffer is too small |
| `SwitchPro.Pro.FlashRead` | src/gamepads/switchpro.c:402-426 | the 32-bit range check and the reply of a flash read, against the unwrapped specification |
| `SwitchPro.Pro.OnRumble` | src/gamepads/switchpro.c:288-303 | exactly eight bytes are consumed, or the report is dropped |
| `SwitchPro.Pro.PadAndWrite` | src/gamepads/switchpro.c:334-335 | a reply is zero-padded to 64 bytes and written once, or dropped when it does not fit |
| `SwitchPro.Pro.OpenDevice` | src/gamepads/switchpro.c:925-962 | both descriptors are opened, the second made non-blocking, and stored as blocking and non-blocking one in this order, or everything opened is closed again |
| `SwitchPro.Pro.CloseDevice` | src/gamepads/switchpro.c:964-978 | both descriptors are closed and reset |
| `Protocol.SameCommandSameReaction` | src/gamepads/switchpro.c:327-510 | packet number, rumble, ignored arguments and trailing bytes never influence a reply |
| `Protocol.TicksExactly` | src/gamepads/switchpro.c:305-520 | which requests advance the timer, if and only if |
| `Protocol.RepliesExactly` | src/gamepads/switchpro.c:305-608 | which requests are answered through the loop's 64-byte buffer, if and only if |
| `Protocol.SubcmdReplyShows` | src/gamepads/switchpro.c:271-286 | a subcommand reply repeats the report's timer, status, input and vibrator bytes and the command id |
| `Protocol.SubcmdReplyIsWhole` | src/gamepads/switchpro.c:323-510 | through the 64-byte buffer no subcommand reply is cut, and it is zero behind its payload |
| `Protocol.FlashReadReply` | src/gamepads/switchpro.c:402-426 | a flash read is answered if and only if its true end lies in the flash and it asks for at most 44 bytes; the answer is header, echo, slice, zeros |
| `Protocol.ChunksReassemble` | src/gamepads/switchpro.c:402-426 | every split of a flash range into chunks of at most 44 bytes, however framed, reads back exactly that slice |
| `WireFormat.SubcommandOnWire` | src/gamepads/switchpro.c:305-528 | for every request with a subcommand through the 64-byte buffer, in literal bytes: an incomplete one and a flash read beyond 0x80000 do nothing; any other increments the timer; and unless it reads more than 44 bytes exactly one reply goes out on the descriptor the request came from, with the timer before the increment, bytes 2 to 12 of the report, acknowledgement 0x81 for 0x01, 0x82 for 0x02, 0x83 for 0x04, 0x90 for 0x10 and 0x80 for the rest, the id, and the payload in front of zeros |
| `WireFormat.PlanIsLiteral` | src/gamepads/switchpro.c:323-510 | acknowledgement and payload for every id: device information with the function id at byte 19, the echo and data of a flash read, 0x03 for unknown ids, nothing for the others |
| `WireFormat.OthersOnWire` | src/gamepads/switchpro.c:530-654 | USB commands 1, 2 and 3 are answered with these literal bytes, 64, 64 and 2 of them, and touch nothing else; every other request does nothing |
| `WireFormat.UpdateOnWire` | src/gamepads/switchpro.c:895-921 | an update of an open device writes one report of 64 bytes, 0x30, the timer plus one, 0x91, the input and zeros, to the blocking descriptor if and only if one of the three button bytes is new; without a device it does nothing |
| `WireFormat.NewController` | src/gamepads/switchpro.c:673-682 | a new controller's report is that of a neutral gamepad at time 0, in literal bytes |
| `Flash.FlashBytes` | src/gamepads/switchpro.c:684-758 | every flash byte belongs to exactly one of the seven records and holds its byte, or is erased |
| `Flash.CoveredByte` | src/gamepads/switchpro.c:656-667 | disjoint records written in order all survive |
| `Flash.UncoveredByte` | src/gamepads/switchpro.c:774-780 | what no record covers keeps its value |
| `Flash.FlashDecodesSticks` | src/gamepads/switchpro.c:699-713 | the stick regions decode to the configured calibration, left and right in their different orders |
| `Flash.FlashDecodesMotion` | src/gamepads/switchpro.c:684-697 | the motion sensor regions decode to their configuration |
| `Flash.FlashDecodesOthers` | src/gamepads/switchpro.c:715-758 | colours and stick parameters decode to their configuration |
| `WireFormat.MotionFlash` | src/gamepads/switchpro.c:684-697 | the bytes at 0x6020, 0x602C and 0x6080: no bias, sensitivities 16384 and 13371, no offsets |
| `WireFormat.StickFlash` | src/gamepads/switchpro.c:699-713 | the bytes at 0x603D and 0x6046: magnitudes 0x7FF and 0x800 around the centre 0x800 in the order of each side |
| `WireFormat.ColorFlash` | src/gamepads/switchpro.c:715-724 | the twelve colour bytes at 0x6050 |
| `WireFormat.ParameterFlash` | src/gamepads/switchpro.c:740-758 | at 0x6086 the inner deadzone stands before the outer one in bytes 3 to 5, among the literal bytes of the other ten values |
| `WireFormat.ConfiguredDeadzones` | src/gamepads/switchpro.c:744-745 | deadzones of 204 and 3890 are CC 20 F3 at 0x6089 |
| `Flash.StickCalRoundTrip` | src/gamepads/switchpro.c:189-201 | decoding an encoded stick calibration gives back the low twelve bits of every 16-bit field, for all values and both orders, hence the calibration itself if its fields fit twelve bits |
| `Flash.ImuCalRoundTrip` | src/gamepads/switchpro.c:213-222 | decoding an encoded motion sensor calibration gives it back, for all values |
| `Flash.StickParamsRoundTrip` | src/gamepads/switchpro.c:203-211 | the same for the twelve 16-bit stick parameters |
| `Flash.OffsetsRoundTrip` | src/gamepads/switchpro.c:224-230 | the same for the horizontal offsets |
| `Flash.FlashWrite` | src/gamepads/switchpro.c:656-667 | a write succeeds if and only if its true end lies in the flash, and changes exactly its range |
| `Flash.WrappedEnd` | src/gamepads/switchpro.c:656-667 | the 32-bit wrap-around check is exact |
| `Flash.InitFlash` | src/gamepads/switchpro.c:684-758 | the seven writes of init all succeed and give the flash image |
| `Gamepad.DecodeEncode` | src/gamepads/switchpro.c:824-889 | a decoder recovers from the nine bytes the sixteen buttons, whether each trigger is pressed, and four 12-bit axes, for every state |
| `Gamepad.EncodeKernel` | src/gamepads/switchpro.c:824-889 | two states encode alike if and only if they agree on these |
| `WireFormat.RightButtons` | src/gamepads/switchpro.c:826-843 | bits 0 to 3 and 6 of the first byte are set if and only if the masks 0x8000, 0x4000, 0x2000, 0x1000 and 0x0200 are, bit 7 if and only if the right trigger is pressed |
| `WireFormat.MiddleButtons` | src/gamepads/switchpro.c:845-867 | bits 0 to 5 of the second byte: 0x0020, 0x0010, 0x0080, 0x0040, 0x0400, 0x200000 |
| `WireFormat.LeftButtons` | src/gamepads/switchpro.c:869-886 | bits 0 to 3 and 6 of the third byte: 0x0002, 0x0001, 0x0008, 0x0004, 0x0100, and bit 7 the left trigger |
| `WireFormat.Sticks` | src/gamepads/switchpro.c:888-889 | the left stick stands from byte 3 and the right one from byte 6, x before y, as 12-bit pairs |
| `Gamepad.UnusedBitsClear` | src/gamepads/switchpro.c:824-886 | bits that no button owns are always clear |
| `Gamepad.GripBitIsLost` | src/gamepads/switchpro.c:867-867 | setting bit 8 of a byte changes nothing |
| `Gamepad.PressedIsBit` | src/gamepads/switchpro.c:824-886 | testing a button mask tests exactly that bit |
| `Gamepad.EncodeInto` | src/gamepads/switchpro.c:821-889 | setting flags one by one in a zeroed buffer gives the encoding |
| `Axis.AxisMonotone` | src/gamepads/switchpro.c:168-177 | scaling keeps the order of stick positions |
| `Axis.AxisOnto` | src/gamepads/switchpro.c:168-177 | every 12-bit value is reached |
| `Axis.AxisFixedPoints` | src/gamepads/switchpro.c:26-31 | ends and centre are exact and no product leaves int32 |
| `Axis.AxisSymmetry` | src/gamepads/switchpro.c:168-177 | opposite deflections add up to 4095 or 4096 |
| `Axis.AxisIsScale` | src/gamepads/switchpro.c:168-177 | truncating division with a negative divisor is one scaling on each side of the centre |
| `Axis.ScaleMonotone` | src/gamepads/switchpro.c:168-177 | monotone, for all magnitudes |
| `Axis.ScaleOnto` | src/gamepads/switchpro.c:168-177 | onto, for all magnitudes that do not stretch |
| `Axis.ThereAndBack` | src/gamepads/switchpro.c:168-177 | shrinking a magnitude and stretching it back loses at most 17, for all magnitudes up to a ratio of 17, and nothing at the ends |
| `Axis.NormaliseRecovers` | src/gamepads/switchpro.c:168-177 | calibrated reading recovers every stick position within 17, never overshooting or changing sides |
| `Axis.PackThenUnpack` | src/gamepads/switchpro.c:145-150 | three bytes give back the low 12 bits of both values |
| `Axis.UnpackThenPack` | src/gamepads/switchpro.c:145-150 | every three bytes are the packing of what they unpack to |
| `Axis.PackOperators` | src/gamepads/switchpro.c:145-150 | the shifts and masks are that packing |
| `Axis.WriteTwoU12le` | src/gamepads/switchpro.c:145-150 | exactly three bytes are overwritten, with the packing |
| `Queue.BytesLeaveInOrder` | include-private/udcinput/buf_p.h:108-341 | over every run without reset or shrinking, bytes pulled followed by the contents are the bytes there before followed by the bytes added, and the space in front is what was pulled |
| `Queue.RoomCountsEverythingAdded` | include-private/udcinput/buf_p.h:94-97 | consuming never makes room: an append fits if and only if everything added since the reset fits the capacity |
| `Queue.ResizeKeepsFront` | include-private/udcinput/buf_p.h:108-124 | a resize succeeds if and only if the new end, consumed bytes included, is within the capacity, and keeps the front bytes in place |
| `Queue.PullTakesFront` | include-private/udcinput/buf_p.h:137-147 | a pull succeeds if and only if there are enough bytes, and takes those in front |
| `Queue.ResetForgets` | include-private/udcinput/buf_p.h:57-61 | nothing before a reset can be observed after it |
| `Buf.Buffer.Reset` | include-private/udcinput/buf_p.h:57-61 | moving the data pointer back is the queue's reset |
| `Buf.Buffer.Tailroom` | include-private/udcinput/buf_p.h:70-97 | headroom, size and tailroom add up to the capacity |
| `Buf.Buffer.Resize` | include-private/udcinput/buf_p.h:108-124 | cuts, or appends fill bytes, or fails and changes nothing |
| `Buf.Buffer.Pull` | include-private/udcinput/buf_p.h:137-147 | takes bytes from the front, or fails and changes nothing |
| `Buf.Buffer.PullU32le` | include-private/udcinput/buf_p.h:206-215 | takes a little-endian word from the front, or fails and changes nothing |
| `Buf.Buffer.AddMem` | include-private/udcinput/buf_p.h:228-262 | appends bytes, or fails and changes nothing |
| `Buf.Buffer.AddU32le` | include-private/udcinput/buf_p.h:299-311 | appends a little-endian word, or fails and changes nothing |
| `Buf.Buffer.AddPrintf` | include-private/udcinput/buf_p.h:322-341 | appends text without terminator if text and terminator fit, or fails and leaves the contents alone |
| `Buf.WordThroughQueue` | include-private/udcinput/buf_p.h:206-311 | a word added behind anything is, once that is consumed, the word pulled, for every value |
| `Bytes.LittleEndian` | include-private/udcinput/buf_p.h:299-311 | the least significant byte of a word comes first |
| `Hexdump.HexDump` | src/log.c:47-74 | for data of any length, the loops over the line buffer print exactly the specified lines |
| `Hexdump.PrintBytes` | src/log.c:57-66 | the 48 bytes of the line buffer always hold sixteen bytes of text, snprintf's terminator included |
| `Hexdump.DumpShape` | src/log.c:53-73 | one line per started group of sixteen bytes, and the overflow branch is never taken |
| `Hexdump.DumpLine` | src/log.c:53-59 | line k shows the bytes from 16 k on, sixteen or what is left |
| `Hexdump.LineCharacters` | src/log.c:60-66 | every byte is two upper-case digits, the high one first, with single spaces between bytes |
| `Hexdump.DumpReadsBack` | src/log.c:47-74 | reading the lines in order gives back the data |
| `Hexdump.DumpIsInjective` | src/log.c:47-74 | different data print differently |
| `Bits.FieldGetExtracts` | include-private/udcinput/util.h:77-92 | for every word width, `FIELD_GET(GENMASK(h, l), v)` is v / 2^l mod 2^(h-l+1) |
| `Bits.AndBit` | include-private/udcinput/util.h:83-86 | the model of `&` is bitwise conjunction |
| `Bits.GenmaskBits` | include-private/udcinput/util.h:83-83 | `GENMASK(h, l)` has exactly the bits l to h, wrap-around included |
| `Bits.LsbGetIsLowestBit` | include-private/udcinput/util.h:86-86 | `LSB_GET` isolates the lowest set bit of any value |
| `WholeSystem.WholeSafety` | src/udcinput.c:362-501 | with the loop a thread among any number of updating threads, its callbacks interleaved with them byte by byte, for every script of kernel results, stops and later runs: at every wait the timeout is infinite only with a device, the interest set is the stop event plus the device exactly while there is one, the loop's device is the descriptor in the shared memory, both device descriptors are open, distinct, the only ones, and the second alone non-blocking, none foreign was closed, opens and closes alternate; and every write, replies included, goes to a descriptor that is open at that moment, and blocking unless it is a state report that changes no buttons |
| `WholeSystem.WholeReports` | src/gamepads/switchpro.c:895-921 | in all these runs the threads follow a schedule over which no report is torn |
| `WholeSystem.RunImplementsLoop` | src/gamepads/switchpro.c:951-978 | a callback that takes many steps, and whose result is read after the mutex has been released, is one step of the loop's machine, at the point where it takes effect |
| `WholeSystem.CallbackProceeds` | src/udcinput.c:362-431 | every step of the loop's thread inside a callback brings its return nearer, by at most 86 steps, unless it waits for the mutex |
| `EventLoop.LoopSafety` | src/udcinput.c:362-501 | for every script of kernel results, interleaved with state updates, stop requests and later runs: at every wait the timeout is infinite only with a device, the interest set is the stop event plus the device exactly while there is one, loop and controller hold the same device with both descriptors open and distinct; opens and closes alternate; nothing is written to a descriptor that is not open, none leaks, no foreign one is closed |
| `EventLoop.LoopStepKeeps` | src/udcinput.c:362-501 | every single system call or callback of the loop keeps the invariant behind this |
| `EventLoop.RunIsControllerRun` | src/udcinput.c:362-431 | whatever the loop does to the controller is a run of the controller's machine |
| `EventLoop.NoOpenAfterStop` | src/udcinput.c:443-497 | once stop is signalled, over any later turns and runs, no open is started; only one that was under way is completed |
| `LoopThread.Loop.Run` | src/udcinput.c:433-501 | the loop over its local timeout and the loop object ends in the state and with the result of the specified fold over the script |
| `Progress.TimeoutOpens` | src/udcinput.c:362-391 | a timeout without a device makes exactly one attempt to open it: if all succeeds the loop runs on the first descriptor, registered, without timeout; if registering fails it is closed again; if opening fails nothing has changed |
| `Progress.DeviceIsOpened` | src/udcinput.c:450-456 | if waits keep timing out, the loop runs on the device after the first iteration in which everything succeeds |
| `Progress.TimeoutWithDevice` | src/udcinput.c:450-456 | a timeout with a device only sets the timeout to infinite |
| `Progress.HangupDrops` | src/udcinput.c:458-471 | a hangup or error closes the device and restores the timeout of 500, or, if it cannot be unregistered, keeps it and restores the timeout |
| `Progress.InputIsHandled` | src/udcinput.c:410-431 | input is read once and handed to the controller as it is, with the device as the descriptor to answer on; if it cannot be read the device is dropped |
| `Progress.OtherEventsPass` | src/udcinput.c:458-496 | an event without a cause or of another descriptor changes nothing |
| `LoopThread.Loop.OpenDatafd` | src/udcinput.c:362-391 | opening and registering the device, or undoing the open, is the machine's path to the next wait |
| `LoopThread.Loop.CloseDatafd` | src/udcinput.c:393-408 | the same for unregistering and closing; a failed removal keeps the device |
| `LoopThread.Loop.ProcessDatafdEvents` | src/udcinput.c:410-431 | a report is read into 64 bytes and answered in them, or the error is returned with nothing changed |
| `LoopThread.Loop.Stop` | src/udcinput.c:503-523 | success means that the event is signalled, also when its counter was full |
| `LoopThread.ScriptIsRun` | src/udcinput.c:433-501 | every script of the loop thread is a conforming run of the machine |
| `LoopThread.ThreadIsSettled` | src/udcinput.c:433-501 | the loop thread alone is safe, for every script, whenever it waits or has returned |
| `LoopThread.LoopEndsOnlyBy` | src/udcinput.c:445-497 | an iteration returns if and only if the wait fails or reports the stop event, with which value, and nothing the device does ends the loop |
| `LoopThread.StopTerminates` | src/udcinput.c:473-497 | if wait number k reports the stop event, the loop has returned after iteration k, from every reachable state, so in every later run too |
| `LoopThread.StoppedRunOpensNothing` | src/udcinput.c:491-496 | a run entered after a stop request opens nothing and the request stays pending |

## Left out

- Creating and destroying gadgets, functions and loops (configfs, eventfd, epoll set-up): the loop starts created, the controller starts initialised in memory.
- The report descriptor and the configfs attributes written by init: their outcome is one result of `SwitchPro.Pro.Create`.
- Deadzones: the two float products are taken as given 12-bit values, the same for the whole run.
- Rumble: the two words are consumed and ignored, as the code does apart from logging.
- Log levels, log messages and general printf formatting: only the two formats of the hex printer are modelled.
- The C++ wrapper, and the string and file helpers.
- The console's arithmetic is not in the repository: `Axis.Normalise` scales each side linearly between centre and calibrated magnitude, as the comment on the stick parameters describes, without deadzones.
- WholeSystem.WholeSafety: other threads only update states, as the library intends; another thread that opened or closed the device behind the loop's back could change the descriptor between the release of the mutex and the return of `switchpro_open`.
- The mutex is a lock with one holder; which waiting thread gets it is not modelled, so no bound on waiting for it is claimed.
- A short write counts as not received by the console, as the code treats it (-EIO).
- The result of `close` and of the descriptors' removal by the kernel on close: every close succeeds, and the loop removes a descriptor from the interest set before closing it.
- SwitchPro.Pro.Subcommand: the early exits that each unlock the mutex are one unlock after the dispatch; the state at the unlock is the same.
- LoopThread.Loop.Run: models the loop thread alone; state updates between its steps are in `EventLoop.Run` and `WholeSystem.Run`. A script that is used up stands for a loop that is still waiting.
- Snapshots.NoWriteAfterClose: speaks of state reports; replies go to the descriptor the loop read from, and that this is the open device is `WholeSystem.WholeSafety`.
- Interleaving: replies to USB commands take no lock and touch no shared bytes, so each is one step; whether their descriptor is open at that moment is not recorded there but proved in `WholeSystem.WholeSafety`.
